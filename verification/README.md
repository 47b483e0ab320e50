# Verified models of Atlaso's repository tooling

Atlaso keeps a set of Python tools beside its appliance code: a refresh of the PowerCLI dependency lock, a
Markdown policy checker, a cleanup of completed tasks, a diagnostics exporter and a workflow policy checker.
This project models the parts of those tools whose correctness is hardest to see from the code, and proves
the properties they exist for. Every statement is for all inputs, all runs or all reachable states.

| files | part of the system |
|---|---|
| `RedoTransaction` | the journaled multi-file refresh, under power loss, failed synchronisation and retries |
| `VersionConstraints`, `DependencyClosure` | the PowerCLI suite resolver |
| `DelimiterPairing`, `DeletedText` | delimiter pairing with its two caches, and removal of struck-through text |
| `ErasedText`, `MarkdownPasses` | line preservation of the passes that strip non-operative Markdown |
| `CleanupJournal`, `CleanupProtocol` | the resumable teardown of a completed task and its gate journal |
| `TreeRemoval`, `RemovalScopes` | handle-checked deletion of a generated tree, and the disjointness of removal scopes |
| `TaskTitle` | the completed-task title |
| `IdentityAliases` | the anonymiser of a diagnostics capture and its size accounting |
| `FlowMapping`, `FlowSplitting` | the flow-mapping scanner and parser |
| `PythonText`, `Cardinality` | string operations and set sizes that the models share |

How the models are built:

- **Failures are scripts.** In `RedoTransaction` and `CleanupProtocol` every external call consumes one entry
  of a script that says whether it works, fails, or loses power, and, for the cleanup, how other processes
  changed the world meanwhile. Theorems hold for every script, so they cover every interleaving, crash point
  and retry. An empty script is an undisturbed run, for which the same methods are proved to finish.
- **A rename is visible before it is durable.** A name carries its visible entry and everything a power loss
  may leave in its place; a synchronisation narrows that to one entry.
- **Histories are ghost state.** Each state-changing step records an event holding what was true at that
  moment. The invariants speak about all recorded events, so they are statements about whole runs.
- **Fast forms are proved against slow ones.** The cached pairing scan equals a cache-free scan; the interval
  merge equals the union of its intervals; the parser is the inverse of a printer.
- **Exceptions are exact.** Where a promise does not hold outright, the condition under which it does is stated
  together with the input that breaks it, and both ways. One condition is stated one way only, that of
  `DependencyClosure.OrderIndependent`: whether two differing lists for one version are ever read depends on which
  spellings the rest of the gallery discovers first, so a gallery can break the condition and still resolve alike.
  `DependencyClosure.SpellingsMatter` proves instead that no pair of spellings can be left out of it.

## Model

| member | source | states |
|---|---|---|
| `DelimiterPairing.PairScope` | scripts/check_repo.py:4935-4988 | the scan with `jumps`, run headers and `openers_bottom` pairs exactly as the cache-free reference does: each closer, left to right, takes the nearest compatible unmatched opener before its run header that no pair encloses |
| `DelimiterPairing.FindOpener` | scripts/check_repo.py:4953-4986 | following the jumps down to the slot's bottom finds the nearest compatible opener below the header, or none exists |
| `DelimiterPairing.IsCandidate` | scripts/check_repo.py:4956-4968 | the test on the mutable flags is the reference's compatibility, the multiple-of-3 rule included |
| `DelimiterPairing.PairKeepsJumps` | scripts/check_repo.py:4969-4978 | after a new pair, every index a jump passes over can never again be an opener |
| `DelimiterPairing.PairKeepsOutside` | scripts/check_repo.py:4969-4978 | after a new pair, jumping from outside every pair still lands outside every pair |
| `DelimiterPairing.PairKeepsBottoms` | scripts/check_repo.py:4979-4982 | a new pair leaves every bottom slot of every marker sound |
| `DelimiterPairing.FailureRaisesBottom` | scripts/check_repo.py:4987-4988 | after a search that found nothing, the slot may be raised to just below the header without losing an opener for any later closer of that slot |
| `DelimiterPairing.ReferenceWellPaired` | scripts/check_repo.py:4935-4988 | pairs join an eligible opener to a later eligible closer of the same marker, respect the multiple-of-3 rule, use each delimiter once per role and never cross |
| `DeletedText.MatchDelimiters` | scripts/check_repo.py:4930-4988 | pairing scope by scope and writing back global indices gives the reference pairing of every link scope |
| `DeletedText.GroupByScope` | scripts/check_repo.py:4931-4934 | every scope's list holds exactly its delimiters, ascending |
| `DeletedText.ReferenceIsScoped` | scripts/check_repo.py:4930-4988 | over the whole text: pairs stay within one link scope and marker, no delimiter is both opener and closer or used twice, pairs of one scope never cross |
| `DeletedText.DeletionIntervals` | scripts/check_repo.py:4990-4997 | the intervals are the `~` pairs in ascending start order, so the sort changes nothing |
| `DeletedText.MergeIntervals` | scripts/check_repo.py:4998-5004 | merged intervals are sorted, strictly apart, and cover exactly the same positions |
| `DeletedText.Blank` | scripts/check_repo.py:5006-5019 | exactly the covered characters that are not line breaks disappear |
| `DeletedText.StripDeleted` | scripts/check_repo.py:4930-5019 | the whole last stage removes exactly the characters under a reference `~` pair, line breaks excepted |
| `DeletedText.CollectDelimiters` | scripts/check_repo.py:4842-4928 | the list is complete: every run of `*`, `_` or paired `~` outside escapes and code spans is cut into its delimiters, an odd leading `~` left out; each spells its marker and an emphasis delimiter carries its run's whole length |
| `ErasedText.ErasedLineByLine` | scripts/check_repo.py:3020-3038 | deleting anything but newlines keeps the number of lines, and line i keeps characters of line i only, in order |
| `ErasedText.SameLine` | scripts/check_repo.py:3020-3038 | every line index of the stripped text is in range for the source and names the line it came from |
| `ErasedText.LinesMapped` | scripts/check_repo.py:3550-3563 | replacing characters other than newlines commutes with splitting into lines |
| `ErasedText.LinesAreKeptLines` | scripts/check_repo.py:3443-3443 | for text whose only terminator is the newline, splitting on newlines is what Python's line splitting yields |
| `MarkdownPasses.BlankLines` | scripts/check_repo.py:3432-3495 | exactly the hidden lines are blanked, keeping their newline; no other text is touched |
| `MarkdownPasses.BlankReferences` | scripts/check_repo.py:5112-5361 | however reference labels, destinations and titles are held, settled or restored, every output line is its own source line or blank, and there are as many; newline-terminated text loses no newline |
| `MarkdownPasses.Decide` | scripts/check_repo.py:5164-5168 | restoring puts back exactly the noted lines at their own indices |
| `MarkdownPasses.EmptyMatches` | scripts/check_repo.py:5031-5055 | every match of a pattern loses everything but its line breaks, left to right, and nothing else changes |
| `MarkdownPasses.EmptyDeletionElements` | scripts/check_repo.py:4585-4617 | every deletion tag and all text while one is open lose everything but their line breaks, with the open elements tracked as a stack; nothing else changes |
| `MarkdownPasses.StripDeletedContent` | scripts/check_repo.py:4578-5019 | the result is the text without deletion elements, minus the characters under the reference `~` pairs of its complete delimiter list; no newline is lost and nothing moves |
| `MarkdownPasses.StripComments` | scripts/check_repo.py:3611-3682 | the text splits into the tokens of the rule below; comments and raw-text elements lose all but their line breaks, everything else stays |
| `MarkdownPasses.TilingUnique` | scripts/check_repo.py:3611-3682 | a text splits into such tokens in one way only, so what is shown and what is emptied is determined |
| `MarkdownPasses.CommentToken` | scripts/check_repo.py:3619-3680 | which token comes next, exactly: a comment up to its first terminator, a tag up to its first `>` outside quotes, a raw-text element up to its first closing tag, or one character |
| `MarkdownPasses.ProtectCodeSpans` | scripts/check_repo.py:3566-3608 | exactly the contents of the code spans met from left to right are protected, in place: a run of backticks opens one up to the first run of the same width after it, a run without such a partner opens none, and reading goes on behind it |
| `MarkdownPasses.ClosingRun` | scripts/check_repo.py:3580-3598 | the search, which skips over whole candidates, finds the first run of exactly the opening width, or there is none |
| `MarkdownPasses.RestoreProtected` | scripts/check_repo.py:3550-3563 | restoring undoes protection wherever it was applied |
| `MarkdownPasses.StripLinks` | scripts/check_repo.py:3764-3885 | removing link metadata, through nested labels, loses no newline and moves nothing |
| `MarkdownPasses.StripNonoperative` | scripts/check_repo.py:5022-5368 | the composition of all passes, for text whose only terminator is the newline, moves no character to another line |
| `MarkdownPasses.OperativeLine` | scripts/check_repo.py:3020-3038 | for every newline-terminated text, the one index the section extractor uses for operative and source lines is in range and names the same line, stand-ins of protected characters read as those characters |
| `MarkdownPasses.OperativeLineOfUnmarked` | scripts/check_repo.py:3020-3038 | for text without such stand-ins, every operative line keeps characters of its own source line only |
| `RedoTransaction.Machine.Campaign` | scripts/update_powercli_lock.py:393-437 | over any number of refreshes with failures and power losses anywhere, every state is all before, all after, or a mixture of exactly these two that a durable complete journal can finish; and every write kept its order |
| `RedoTransaction.Machine.Refresh` | scripts/update_powercli_lock.py:393-437 | a read-only check changes nothing; success leaves the pending or the new update durably complete and the journal gone; undisturbed it succeeds; a failed one leaves no journal, the old one, or one that leads to the new update |
| `RedoTransaction.Machine.RecoverTransaction` | scripts/update_powercli_lock.py:131-170 | acts exactly when a journal is visible; with an edited file or a read-only check no write happens at all; success makes every after image durable and removes the journal, whatever the interruption left, so a second recovery finds nothing to do |
| `RedoTransaction.Machine.PublishTransaction` | scripts/update_powercli_lock.py:173-192 | success leaves exactly the update, durably; undisturbed it always succeeds; stopped by a failure, a visible journal leads to the update; stopped by a power loss, it leads to the update or is an earlier finished one, and then no file has moved; if only its very last call fails, the update is durable and its removed journal can still return |
| `RedoTransaction.Machine.PublishAndRecover` | scripts/update_powercli_lock.py:131-192 | convergence: after an update interrupted anywhere and any number of interrupted recoveries, a recovery that finished has left exactly the update, durably, with no journal; this needs no more than that no power was lost, or that no finished journal could still return when the update began |
| `RedoTransaction.Machine.EarlierUpdateReturns` | scripts/update_powercli_lock.py:168-170 | and that condition is exact: on every settled disk where such a journal can still return, losing power at the start of the next update brings it back, and a successful recovery then ends at the earlier version |
| `RedoTransaction.Machine.LastCallFails` | scripts/update_powercli_lock.py:168-170 | such disks are reached from every settled one: when all calls of an update work but the synchronisation after the journal's removal, the update is durable, no journal is visible, and the removed one can still return |
| `RedoTransaction.Machine.FirstUpdateWins` | scripts/update_powercli_lock.py:131-192 | the input that breaks it, from any settled disk: after one update whose last call failed and a power loss at the start of a different second one, recovery succeeds and ends at the first |
| `RedoTransaction.PendingLeads` | scripts/update_powercli_lock.py:138-154 | in every safe state a visible journal leads to the update in progress, or is a stale one and every file is still durably at the start |
| `RedoTransaction.Machine.PublishJournal` | scripts/update_powercli_lock.py:180-191 | the published journal holds the complete before and after map and is one that recovery accepts; when a call fails, the files are untouched and the journal is the previous slot or leads to the update |
| `RedoTransaction.Machine.RollForward` | scripts/update_powercli_lock.py:163-167 | every tracked file ends durably at its after image, also those already visible there |
| `RedoTransaction.Machine.RecommitJournal` | scripts/update_powercli_lock.py:159-162 | a journal that was only visible is durable, with its directory, before it is trusted |
| `RedoTransaction.Machine.DiscardJournal` | scripts/update_powercli_lock.py:168-169 | the journal goes only when every after image is durable |
| `RedoTransaction.Machine.EnsureJournalDirectory` | scripts/update_powercli_lock.py:101-113 | the journal directory is durable afterwards, new or already visible |
| `RedoTransaction.Machine.ReplaceFile` | scripts/update_powercli_lock.py:78-128 | on success the new bytes are in place and durable; a failed call leaves the old entry or the new one not yet durable; stopping anywhere keeps the protection whenever the replacement is a permitted one; undisturbed it succeeds |
| `RedoTransaction.SafeSurvives` | scripts/update_powercli_lock.py:78-170 | no power loss, whatever it keeps or drops, leaves the safe states |
| `RedoTransaction.SafePendingIsUnedited` | scripts/update_powercli_lock.py:138-154 | without outside edits, a visible journal is always one that recovery accepts |
| `RedoTransaction.RollForwardGood` | scripts/update_powercli_lock.py:163-167 | replacing a tracked file under a durable journal keeps the disk safe, also when the journal is an earlier one that came back |
| `RedoTransaction.RemovalGood` | scripts/update_powercli_lock.py:168-169 | removing the journal once every after image is durable leaves one version everywhere |
| `VersionConstraints.FloorIsLowerBound` | scripts/update_powercli_lock.py:195-251 | no version that satisfies a constraint lies below the floor taken from that constraint |
| `DependencyClosure.Resolve` | scripts/update_powercli_lock.py:354-390 | terminates; success is a closed, floor-discovered, edge-compatible selection of at most 200 modules; refusal names a gallery fact that stands in the way |
| `DependencyClosure.CloseOver` | scripts/update_powercli_lock.py:364-376 | the worklist ends with every selected module expanded, at the floor of the edge that discovered it, no further from the suite than necessary |
| `DependencyClosure.CheckEdges` | scripts/update_powercli_lock.py:377-382 | every recorded edge is satisfied, or the first one in recording order that is not is reported |
| `DependencyClosure.SelectsReachable` | scripts/update_powercli_lock.py:364-382 | the selected modules are exactly those reachable from the suite |
| `DependencyClosure.SelectsLeast` | scripts/update_powercli_lock.py:364-382 | each version is the least that meets every incoming constraint |
| `DependencyClosure.OrderIndependent` | scripts/update_powercli_lock.py:364-382 | two successful resolutions over permuted dependency lists select the same modules at the same versions, for galleries in which two spellings of one version that packages ask for have the same dependencies |
| `DependencyClosure.SpellingsMatter` | scripts/update_powercli_lock.py:195-204 | no two spellings of one version can be left out of that condition: for every such pair there is a gallery, differing on that pair, in which permuting the suite's list changes which modules are selected |
| `DependencyClosure.SuiteWithTwoSpellings` | scripts/update_powercli_lock.py:195-300 | the failing input itself, under names the gallery reader accepts: a suite that asks for one module as `1.2.3` and as `1.2.3.0`, where one spelling alone has a dependency |
| `CleanupJournal.TeardownOrder` | scripts/completed_task_cleanup.py:771-834 | every history starts with the prepared gate and orders the aggregate, remote, local, worktree and title gates, also for an empty inventory; and for every resource, ancestry before release before the aggregate gate |
| `CleanupJournal.RecordLimitIsNeverReached` | scripts/completed_task_cleanup.py:214-216 | with at most 100 resources the journal's record limit cannot stop a retry |
| `CleanupJournal.MergeHistories` | scripts/completed_task_cleanup.py:229-233 | accepts exactly histories without a diverging pair, and then returns the longest |
| `CleanupJournal.ChainMerges` | scripts/completed_task_cleanup.py:211-233 | on the records that interrupted runs leave, the result is the newest published history |
| `CleanupJournal.PublishChained` | scripts/completed_task_cleanup.py:596-606 | publishing one more gate keeps the strict prefix chain |
| `CleanupJournal.LossChained` | scripts/completed_task_files.py:79-97 | a power loss takes at most the newest record and leaves a durable chain |
| `CleanupProtocol.Cleanup.RestoreGates` | scripts/completed_task_cleanup.py:211-233 | a pending file makes the restart refuse; otherwise exactly the newest published history is restored and durable; nothing but an external failure can make it refuse |
| `CleanupProtocol.Cleanup.Record` | scripts/completed_task_cleanup.py:561-606 | a gate is recorded once, durably before it is believed; a preview writes nothing |
| `CleanupProtocol.Cleanup.Publish` | scripts/completed_task_cleanup.py:596-605 | staging, flush, rename and synchronisation in that order; stopping anywhere leaves a valid journal |
| `CleanupProtocol.Cleanup.LocalState` | scripts/completed_task_cleanup.py:434-466 | success means both refs were seen absent or at the recorded head, and whatever has an absence gate was seen absent |
| `CleanupProtocol.Cleanup.VerifyAbsent` | scripts/completed_task_cleanup.py:520-537 | success means every resource in question was seen absent |
| `CleanupProtocol.Cleanup.Eligibility` | scripts/completed_task_cleanup.py:383-432 | success means all conditions were seen during this very check, against the gates then on record |
| `CleanupProtocol.Cleanup.ReleaseOne` | scripts/completed_task_cleanup.py:672-752 | a resource is recorded as released only after it was seen absent; undisturbed, it is |
| `CleanupProtocol.Cleanup.Resources` | scripts/completed_task_cleanup.py:638-759 | the aggregate gate follows every release gate and a full re-inspection |
| `CleanupProtocol.Cleanup.RemoteStage` | scripts/completed_task_cleanup.py:783-791 | re-vetted, prepared, compare-and-deleted, seen absent, recorded |
| `CleanupProtocol.Cleanup.WorktreeStage` | scripts/completed_task_cleanup.py:792-816 | the worktree and the local ref, in that order, each prepared, removed, seen absent and recorded |
| `CleanupProtocol.Cleanup.TitleStage` | scripts/completed_task_cleanup.py:817-833 | the title gate follows the removal gates and a last eligibility check |
| `CleanupProtocol.Cleanup.Perform` | scripts/completed_task_cleanup.py:785-815 | a destructive step happens only with its prepared gate durable and its stage re-vetted, and deletes a ref only if it held the recorded head |
| `CleanupProtocol.Cleanup.Run` | scripts/completed_task_cleanup.py:761-834 | a preview destroys and publishes nothing; success means the title gate is durable; an undisturbed run from any consistent state finishes and leaves no ref, worktree or resource |
| `CleanupProtocol.Campaign` | scripts/completed_task_cleanup.py:761-769 | over any sequence of previews and interrupted executions, records stay a chain, every destructive step and every gate was permitted when it happened, and the journal remembers each destructive step |
| `CleanupProtocol.DestructionOrder` | scripts/completed_task_cleanup.py:715-815 | when a step destroyed something, all earlier stages were durably on record |
| `CleanupProtocol.Site.EveryRecordInOrder` | scripts/completed_task_cleanup.py:638-834 | in every reachable state of every campaign, every published record keeps the whole teardown order, with or without resources |
| `CleanupProtocol.Site.RestartKnows` | scripts/completed_task_cleanup.py:211-233 | whatever was ever destroyed, the history a restart restores names its prepared gate |
| `CleanupProtocol.FinishedAtEnd` | scripts/completed_task_cleanup.py:771-834 | with the last gate on record, a world that agrees with the record has nothing of the task left |
| `CleanupProtocol.LossKeepsChain` | scripts/completed_task_files.py:79-97 | whatever a power loss keeps, the records stay a chain and none appears |
| `TreeRemoval.Snapshot` | scripts/completed_task_files.py:216-242 | the snapshot is exactly the tree under the root, with at most 50000 entries at depth 128, or one of those limits or an irregular entry refuses it |
| `TreeRemoval.Volume.Remove` | scripts/completed_task_files.py:244-265 | children go before parents; under any concurrent change only snapshot entries of unchanged identity are deleted; undisturbed it succeeds and leaves exactly the tree outside the root |
| `TreeRemoval.Volume.RemoveEntry` | scripts/completed_task_files.py:253-265 | one deletion is of a matching entry without children, or does not happen |
| `TreeRemoval.SortByDepth` | scripts/completed_task_files.py:251-251 | every entry once, deepest first |
| `TreeRemoval.NoChildLeft` | scripts/completed_task_files.py:251-263 | when an entry's turn comes in an undisturbed tree, it is still there and its children are gone |
| `RemovalScopes.InventoryScopes` | scripts/completed_task_cleanup.py:608-619 | succeeds exactly when every scope is beneath the root, contains nothing protected and is disjoint from the scopes of other resources |
| `RemovalScopes.ReleaseTouchesOnlyItsOwn` | scripts/completed_task_cleanup.py:539-559 | deleting everything under one resource's scopes leaves every protected path itself, and everything under every other resource's scopes, as it was |
| `RemovalScopes.ContentsSurviveExactly` | scripts/completed_task_cleanup.py:553-558 | everything under a protected path survives exactly when no scope of the resource lies under that path; the check asks only whether a scope contains the path |
| `RemovalScopes.RecordInsideEvidence` | scripts/completed_task_cleanup.py:549-558 | a scope that is one record inside the evidence directory passes the inventory, with all five of the task's own paths protected |
| `TaskTitle.CompletedTaskTitle` | scripts/completed_task_title.py:25-66 | exactly when a title is produced; it keeps all identifiers and the completion marker, fits 60 UTF-16 units, and keeps the longest prefix of words that fits |
| `TaskTitle.FitWords` | scripts/completed_task_title.py:63-65 | dropping words from the end stops at the longest prefix that fits |
| `TaskTitle.TitlesIdentify` | scripts/completed_task_title.py:38-51 | equal titles link the same issues and pull requests, with or without the issue-less case |
| `TaskTitle.WordsOfJoin` | scripts/completed_task_title.py:54-62 | normalising white space and splitting again yields the same words |
| `IdentityAliases.Projection.Identifier` | atlaso/diagnostics.py:233-254 | an accepted identity gets the marker of its kind and normalised value, the same one every time; addresses and plain captures pass through; other values are refused |
| `IdentityAliases.Projection.Render` | atlaso/diagnostics.py:256-272 | the rendering is the one determined by the registered identities, and it never lengthens the data |
| `IdentityAliases.NextName` | atlaso/diagnostics.py:265-270 | the skip loop finds the first free name after the counter within the number of reserved names plus one |
| `IdentityAliases.AllocateNames` | atlaso/diagnostics.py:262-271 | names are pairwise different, differ from every source identity, and their counters are at most twice the number of identities |
| `IdentityAliases.AllocatedUnique` | atlaso/diagnostics.py:262-271 | the registered identities determine the names, so every file of a capture shows the same ones |
| `IdentityAliases.NamesIdentify` | atlaso/diagnostics.py:233-272 | two identities are exported under one name exactly when they are the same identity |
| `IdentityAliases.Capture` | atlaso/diagnostics.py:233-272 | over a whole capture, for any sequence of identifier calls: two aliased values are rendered alike exactly when they have the same kind and normalised value |
| `IdentityAliases.Register` | atlaso/diagnostics.py:233-254 | every call in any sequence is answered with the marker that its kind and normalised value keep to the end |
| `IdentityAliases.NamesAvoidSources` | atlaso/diagnostics.py:262-270 | no name equals a registered identity, ignoring case and trailing dots, whenever it was registered |
| `IdentityAliases.RendersExactly` | atlaso/diagnostics.py:271-272 | in serialised evidence exactly the markers are replaced, each by its own name, whatever the text around them as long as no complete quoted marker starts in it |
| `IdentityAliases.ReplacementsFit` | atlaso/diagnostics.py:262-271 | with fewer than 5*10^10 identities no name is longer than its marker |
| `IdentityAliases.SubstituteNeverLengthens` | atlaso/diagnostics.py:272-272 | substitution with such a table never lengthens |
| `IdentityAliases.Collect` | atlaso/diagnostics.py:794-808 | a source is kept exactly when it fits the source limit and, with what was kept before it, the total limit; the kept files respect both |
| `IdentityAliases.Export` | atlaso/diagnostics.py:832-837 | the limits checked before rendering hold for the exported bytes, whose sizes are recomputed |
| `FlowMapping.FlowParts` | scripts/check_dependency_policy.py:221-272 | the index loop computes the split that the exact characterisation and the round trip are about, and refuses where it does |
| `FlowMapping.FlowKeyValue` | scripts/check_dependency_policy.py:275-311 | the index loop computes the key and value that the exact characterisation and the round trip are about |
| `FlowSplitting.SplitsExactly` | scripts/check_dependency_policy.py:221-272 | for every text: it is accepted with a given result exactly when it is pieces joined by commas, each ending outside quotes and brackets with no comma outside them, whose stripped non-blank contents are the result; or it is blank |
| `FlowSplitting.ColonExactly` | scripts/check_dependency_policy.py:275-311 | for every item: key and value are the stripped text on both sides of the first colon outside quotes and brackets, with something before it; otherwise it is refused |
| `FlowMapping.YamlFlowMapping` | scripts/check_dependency_policy.py:337-365 | the recursive method computes the specified parse on every text, recursing on strictly shorter text |
| `FlowMapping.ParsePrint` | scripts/check_dependency_policy.py:221-365 | parsing the printed form of any nested uniquely keyed mapping of arbitrary strings returns that mapping |
| `FlowMapping.PartsOfListed` | scripts/check_dependency_policy.py:221-272 | splitting a list of quoted or bracketed units never splits inside one |
| `FlowMapping.KeyValueOfPrinted` | scripts/check_dependency_policy.py:275-311 | the colon found is the one between key and value, whatever either contains |
| `FlowMapping.ClearsValue` | scripts/check_dependency_policy.py:233-262 | scanning a printed value at any depth returns to the mode it started in without meeting a separator |
| `FlowMapping.UnescapeEscape` | scripts/check_dependency_policy.py:321-323 | doubling quotes is undone by the single-quoted scalar |

## Left out

- Git, the GitHub API, the controller, the gallery, the kernel and the clock are scripts or function parameters; their protocols are not modelled beyond compare-and-delete, refusal to delete a non-empty directory, and atomic rename.
- `CleanupProtocol.Cleanup.Eligibility`: the many live conditions (merged pull request, closed issues, idle task, matching identities) are one Boolean of the observed world; which of them failed is not modelled.
- `CleanupProtocol.Cleanup.LocalState`: the registration, lock and cleanliness of the worktree are one Boolean of the observed world.
- The cleanup's evidence blobs, its evidence directory's own publication and the JSON form of records are not modelled; a staged blob left behind appears as the pending file that makes a restart refuse.
- The task lock appears as runs that follow one another; acquiring and releasing it is not modelled, and neither is a preview that reads the journal while another process writes it.
- The power-loss model drops or keeps each unsynchronised name independently and never damages synchronised data; write-through moves on Windows are covered by rename followed by synchronisation.
- `RedoTransaction` abstracts the journal's JSON encoding, and treats text that fails to decode as a failed call; the dry validation that precedes a refresh is an input.
- `VersionConstraints.VersionKey`: digits are the ASCII digits, whereas the pattern's `\d` also accepts other decimal digits.
- `DependencyClosure.CheckEdges`: a constraint that raises and a constraint that is not met are both reported as incompatible.
- Flanking classification, link-label spans and the tag pattern of deletion elements are inputs to the pairing and deletion models.
- `MarkdownPasses.StripLinks`: states line preservation only, not which links are recognised; link-target and reference-label validity are inputs.
- `MarkdownPasses.BlankReferences`: the line scanner's decisions are inputs, so it covers every behaviour of the scanner and does not say which one occurs.
- `MarkdownPasses.EmptyDeletionElements`: which text is a deletion tag is an input.
- `MarkdownPasses.CommentToken`: compares tag names ignoring ASCII case only.
- `TreeRemoval.Snapshot`: the snapshot is taken of one state of the tree; the pinned handles that make this so are not modelled.
- `RemovalScopes.ReleaseTouchesOnlyItsOwn`: contents under a protected path are covered only where `ContentsSurviveExactly` says so, because the source checks that no scope contains a protected path and not that none lies inside one.
- `DependencyClosure.OrderIndependent`: needs galleries in which the spellings of a version that packages ask for share one set of dependencies; the condition is sufficient, and necessary only pair by pair (`SpellingsMatter`), because the rest of a gallery decides whether a differing list is ever read.
- `RemovalScopes.InventoryScopes`: takes the controller's reported scopes as given and paths as already resolved.
- `TaskTitle.CompletedTaskTitle`: the pattern that rejects traceability text in descriptions is an input.
- `IdentityAliases.Projection.Identifier`: recognition of IP addresses is an input, and lower-casing is the ASCII one that accepted identities need.
- `FlowMapping.YamlFlowMapping`: decoding of double-quoted scalars is an input.
- Digests, archive building, signing, release publication, shell-command interpretation and merge-authority text classification are not modelled: they rest on libraries or large pattern tables.
- Diagnostic collectors and the user interface tools are not modelled: they compute one value at a time and carry no property of a whole run.
