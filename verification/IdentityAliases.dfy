/** Capture-local aliases for host and account names, and the size accounting around them.

  While collectors run, identities are replaced by markers that no accepted identity can spell. Once
  every identity is known, markers are rendered as short names that avoid all of them.
*/
module IdentityAliases {
  import opened PythonText
  import opened Cardinality

  datatype Kind = Hostname | User

  datatype Identity = Identity(kind: Kind, value: string)

  const SOURCE_LIMIT := 262_144
  const TOTAL_LIMIT := 8 * 1024 * 1024
  const IDENTITY_LIMIT := 50_000_000_000

  // ---------- Names ----------

  predicate NameStart(c: char) { 'A' <= c <= 'Z' || 'a' <= c <= 'z' || IsDigit(c) || c == '_' }

  /** The identities a collector may register. */
  predicate Accepted(value: string) {
    && 1 <= |value| <= 253 && NameStart(value[0])
    && forall i :: 0 <= i < |value| ==> NameStart(value[i]) || value[i] == '.' || value[i] == '-'
  }

  function TrimDots(s: string): string {
    if s != "" && s[|s| - 1] == '.' then TrimDots(s[..|s| - 1]) else s
  }

  /** Case and trailing dots ignored. */
  function Folded(value: string): string { TrimDots(Lower(value)) }

  function Key(kind: Kind, value: string): Identity {
    Identity(kind, if kind.Hostname? then Folded(value) else value)
  }

  function Marker(n: nat): string { "@atlaso-identity-" + Decimal(n) + "@" }

  function Zeros(k: nat): string { if k == 0 then "" else "0" + Zeros(k - 1) }

  /** Decimal digits padded to four places. */
  function Padded(n: nat): string {
    var digits := Decimal(n);
    if |digits| < 4 then Zeros(4 - |digits|) + digits else digits
  }

  function Candidate(kind: Kind, n: nat): string {
    (if kind.Hostname? then "hostname" else "user") + Padded(n)
  }

  lemma {:induction false} NumeralPastZeros(k: nat, s: string)
    ensures Numeral(Zeros(k) + s) == Numeral(s)
    decreases k + |s|
  {
    var t := Zeros(k) + s;
    if s != "" {
      assert t[..|t| - 1] == Zeros(k) + s[..|s| - 1];
      NumeralPastZeros(k, s[..|s| - 1]);
    } else if k > 0 {
      ZerosAtEnd(k);
      assert t == Zeros(k - 1) + "0";
      assert t[..|t| - 1] == Zeros(k - 1) + "";
      NumeralPastZeros(k - 1, "");
    } else {
      assert t == "";
    }
  }

  lemma {:induction false} ZerosAtEnd(k: nat)
    requires k > 0
    ensures Zeros(k) == Zeros(k - 1) + "0"
  {
    if k == 1 {
    } else {
      ZerosAtEnd(k - 1);
    }
  }

  lemma NumeralOfPadded(n: nat)
    ensures Numeral(Padded(n)) == n
  {
    NumeralOfDecimal(n);
    if |Decimal(n)| < 4 { NumeralPastZeros(4 - |Decimal(n)|, Decimal(n)); }
  }

  /** A candidate names its kind and its number. */
  lemma CandidateInjective(k: Kind, n: nat, l: Kind, m: nat)
    ensures Candidate(k, n) == Candidate(l, m) <==> k == l && n == m
  {
    var a, b := Candidate(k, n), Candidate(l, m);
    assert a[0] == if k.Hostname? then 'h' else 'u';
    assert b[0] == if l.Hostname? then 'h' else 'u';
    if k == l && a == b {
      var prefix := if k.Hostname? then "hostname" else "user";
      assert a[|prefix|..] == Padded(n) && b[|prefix|..] == Padded(m);
      NumeralOfPadded(n);
      NumeralOfPadded(m);
    }
  }

  // ---------- Sizes of names ----------

  function Pow10(k: nat): nat { if k == 0 then 1 else 10 * Pow10(k - 1) }

  lemma {:induction false} DecimalLength(n: nat, k: nat)
    requires k > 0 && n < Pow10(k)
    ensures |Decimal(n)| <= k
  {
    if n < 10 {
    } else {
      assert n / 10 < Pow10(k - 1);
      DecimalLength(n / 10, k - 1);
    }
  }

  /** No name below this count is longer than any marker. */
  lemma NameFitsMarker(kind: Kind, n: nat, marker: nat)
    requires n < 100_000_000_000
    ensures |Candidate(kind, n)| <= |Marker(marker)|
  {
    assert Pow10(11) == 100_000_000_000 by {
      assert Pow10(4) == 10_000;
      assert Pow10(8) == 100_000_000;
    }
    DecimalLength(n, 11);
    assert |Padded(n)| <= 11 by { ZerosLength(4); if |Decimal(n)| < 4 { ZerosLength(4 - |Decimal(n)|); } }
  }

  lemma ZerosLength(k: nat)
    ensures |Zeros(k)| == k
  {
  }

  // ---------- Allocation of names ----------

  /** Every source identity, folded. */
  ghost function Sources(aliases: seq<Identity>): set<string> { set i | 0 <= i < |aliases| :: Folded(aliases[i].value) }

  method Reserve(aliases: seq<Identity>) returns (reserved: set<string>)
    ensures reserved == Sources(aliases) && |reserved| <= |aliases|
  {
    reserved := {};
    for i := 0 to |aliases|
      invariant reserved == Sources(aliases[..i]) && |reserved| <= i
    {
      assert aliases[..i + 1] == aliases[..i] + [aliases[i]];
      SourcesGrow(aliases[..i], aliases[i]);
      reserved := reserved + {Folded(aliases[i].value)};
    }
    assert aliases[..|aliases|] == aliases;
  }

  lemma SourcesGrow(aliases: seq<Identity>, x: Identity)
    ensures Sources(aliases + [x]) == Sources(aliases) + {Folded(x.value)}
  {
    var more := aliases + [x];
    assert more[|aliases|] == x;
    assert forall i :: 0 <= i < |aliases| ==> more[i] == aliases[i];
  }

  ghost predicate Injective(name: nat -> string) {
    forall n: nat, m: nat :: name(n) == name(m) ==> n == m
  }

  /** A counter of one kind: it has passed each given name and each skipped one, and the skipped names are
      distinct reserved names. */
  ghost predicate Accounted(name: nat -> string, count: nat, given: nat, skipped: set<string>, reserved: set<string>) {
    && skipped <= reserved && count == given + |skipped|
    && forall s :: s in skipped ==> exists n: nat :: n <= count && s == name(n)
  }

  lemma SkipOne(name: nat -> string, count: nat, given: nat, skipped: set<string>, reserved: set<string>)
    requires Injective(name)
    requires Accounted(name, count, given, skipped, reserved) && name(count + 1) in reserved
    ensures Accounted(name, count + 1, given, skipped + {name(count + 1)}, reserved)
    ensures |skipped + {name(count + 1)}| == |skipped| + 1 <= |reserved|
  {
    SubsetSize(skipped + {name(count + 1)}, reserved);
  }

  /** The skip loop: the next number whose name is not reserved. It ends because every skipped name uses
      up another reserved one. */
  method NextName(name: nat -> string, before: nat, reserved: set<string>, ghost given: nat, ghost skippedBefore: set<string>)
    returns (count: nat, ghost skipped: set<string>)
    requires Injective(name) && Accounted(name, before, given, skippedBefore, reserved)
    ensures before < count && name(count) !in reserved
    ensures forall n :: before < n < count ==> name(n) in reserved
    ensures count - before <= |reserved| + 1 && count <= given + 1 + |reserved|
    ensures Accounted(name, count, given + 1, skipped, reserved)
  {
    count, skipped := before + 1, skippedBefore;
    SubsetSize(skippedBefore, reserved);
    while name(count) in reserved
      invariant before < count && Accounted(name, count - 1, given, skipped, reserved)
      invariant count - before == 1 + |skipped| - |skippedBefore| && |skippedBefore| <= |skipped| <= |reserved|
      invariant forall n :: before < n < count ==> name(n) in reserved
      decreases |reserved| - |skipped|
    {
      SkipOne(name, count - 1, given, skipped, reserved);
      skipped := skipped + {name(count)};
      count := count + 1;
    }
  }

  /** How the two kinds are written. */
  type Naming = Kind -> (nat -> string)

  const ALIAS_NAMING: Naming := kind => (n: nat) => Candidate(kind, n)

  /** `count` is the first number after `before` whose name is not reserved. */
  ghost predicate NextAfter(name: nat -> string, before: nat, count: nat, reserved: set<string>) {
    before < count && name(count) !in reserved && forall n :: before < n < count ==> name(n) in reserved
  }

  /** The last number given to a kind among the first `k` identities, or zero. */
  ghost function Previous(aliases: seq<Identity>, numbers: seq<nat>, k: nat, kind: Kind): nat
    requires k <= |numbers| <= |aliases|
  {
    if k == 0 then 0 else if aliases[k - 1].kind == kind then numbers[k - 1] else Previous(aliases, numbers, k - 1, kind)
  }

  /** Identity `k` got the next free number of its kind. */
  ghost predicate StepAt(naming: Naming, aliases: seq<Identity>, numbers: seq<nat>, reserved: set<string>, k: nat)
    requires k < |numbers| <= |aliases|
  {
    NextAfter(naming(aliases[k].kind), Previous(aliases, numbers, k, aliases[k].kind), numbers[k], reserved)
  }

  ghost predicate Stepwise(naming: Naming, aliases: seq<Identity>, numbers: seq<nat>, reserved: set<string>) {
    |numbers| <= |aliases| && forall k :: 0 <= k < |numbers| ==> StepAt(naming, aliases, numbers, reserved, k)
  }

  lemma NextUnique(name: nat -> string, before: nat, a: nat, b: nat, reserved: set<string>)
    requires NextAfter(name, before, a, reserved) && NextAfter(name, before, b, reserved)
    ensures a == b
  {
    assert a < b ==> name(a) in reserved;
    assert b < a ==> name(b) in reserved;
  }

  lemma {:induction false} PreviousOfPrefix(aliases: seq<Identity>, a: seq<nat>, b: seq<nat>, k: nat, kind: Kind)
    requires k <= |a| <= |aliases| && |a| <= |b| <= |aliases| && a[..k] == b[..k]
    ensures Previous(aliases, a, k, kind) == Previous(aliases, b, k, kind)
  {
    if k == 0 {
    } else {
      assert a[k - 1] == a[..k][k - 1] && b[k - 1] == b[..k][k - 1];
      assert a[..k - 1] == a[..k][..k - 1] && b[..k - 1] == b[..k][..k - 1];
      PreviousOfPrefix(aliases, a, b, k - 1, kind);
    }
  }

  /** Later numbers of a kind are larger. */
  lemma {:induction false} PreviousAbove(naming: Naming, aliases: seq<Identity>, numbers: seq<nat>, reserved: set<string>, i: nat, k: nat)
    requires Stepwise(naming, aliases, numbers, reserved) && i < k <= |numbers|
    ensures numbers[i] <= Previous(aliases, numbers, k, aliases[i].kind)
    decreases k
  {
    assert StepAt(naming, aliases, numbers, reserved, k - 1);
    if i < k - 1 { PreviousAbove(naming, aliases, numbers, reserved, i, k - 1); }
  }

  /** The allocation leaves no choice. */
  lemma {:induction false} StepwiseUnique(naming: Naming, aliases: seq<Identity>, a: seq<nat>, b: seq<nat>, reserved: set<string>, k: nat)
    requires Stepwise(naming, aliases, a, reserved) && Stepwise(naming, aliases, b, reserved)
    requires k <= |a| == |b|
    ensures a[..k] == b[..k]
    decreases k
  {
    if k == 0 {
    } else {
      StepwiseUnique(naming, aliases, a, b, reserved, k - 1);
      PreviousOfPrefix(aliases, a, b, k - 1, aliases[k - 1].kind);
      assert StepAt(naming, aliases, a, reserved, k - 1) && StepAt(naming, aliases, b, reserved, k - 1);
      NextUnique(naming(aliases[k - 1].kind), Previous(aliases, a, k - 1, aliases[k - 1].kind), a[k - 1], b[k - 1], reserved);
      assert a[..k] == a[..k - 1] + [a[k - 1]] && b[..k] == b[..k - 1] + [b[k - 1]];
    }
  }

  lemma AppendNumber(naming: Naming, aliases: seq<Identity>, numbers: seq<nat>, reserved: set<string>, count: nat)
    requires Stepwise(naming, aliases, numbers, reserved) && |numbers| < |aliases|
    requires var kind := aliases[|numbers|].kind;
      NextAfter(naming(kind), Previous(aliases, numbers, |numbers|, kind), count, reserved)
    ensures Stepwise(naming, aliases, numbers + [count], reserved)
  {
    var longer := numbers + [count];
    forall k | 0 <= k < |longer| ensures StepAt(naming, aliases, longer, reserved, k) {
      PreviousOfPrefix(aliases, numbers, longer, k, aliases[k].kind);
      if k < |numbers| {
        assert StepAt(naming, aliases, numbers, reserved, k);
        assert longer[k] == numbers[k];
      }
    }
  }

  lemma PreviousAppended(aliases: seq<Identity>, numbers: seq<nat>, count: nat, kind: Kind)
    requires |numbers| < |aliases|
    ensures Previous(aliases, numbers + [count], |numbers| + 1, kind) ==
      if kind == aliases[|numbers|].kind then count else Previous(aliases, numbers, |numbers|, kind)
  {
    PreviousOfPrefix(aliases, numbers, numbers + [count], |numbers|, kind);
  }

  /** How many of the first identities are of a kind. */
  ghost function Given(aliases: seq<Identity>, k: nat, kind: Kind): (n: nat)
    requires k <= |aliases|
    ensures n <= k
  {
    if k == 0 then 0 else Given(aliases, k - 1, kind) + (if aliases[k - 1].kind == kind then 1 else 0)
  }

  /** Hands out one number to each identity, in registration order. */
  method AllocateNumbers(naming: Naming, aliases: seq<Identity>, reserved: set<string>) returns (numbers: seq<nat>)
    requires |reserved| <= |aliases| && Injective(naming(Hostname)) && Injective(naming(User))
    ensures |numbers| == |aliases| && Stepwise(naming, aliases, numbers, reserved)
    ensures forall i :: 0 <= i < |numbers| ==> numbers[i] <= 2 * |aliases|
  {
    numbers := [];
    var hosts, users := 0, 0;
    ghost var skippedHosts: set<string>, skippedUsers: set<string> := {}, {};
    for k := 0 to |aliases|
      invariant |numbers| == k && Stepwise(naming, aliases, numbers, reserved)
      invariant hosts == Previous(aliases, numbers, k, Hostname) && users == Previous(aliases, numbers, k, User)
      invariant forall i :: 0 <= i < k ==> numbers[i] <= 2 * |aliases|
      invariant Accounted(naming(Hostname), hosts, Given(aliases, k, Hostname), skippedHosts, reserved)
      invariant Accounted(naming(User), users, Given(aliases, k, User), skippedUsers, reserved)
    {
      var count;
      if aliases[k].kind.Hostname? {
        count, skippedHosts := NextName(naming(Hostname), hosts, reserved, Given(aliases, k, Hostname), skippedHosts);
        hosts := count;
      } else {
        count, skippedUsers := NextName(naming(User), users, reserved, Given(aliases, k, User), skippedUsers);
        users := count;
      }
      AppendNumber(naming, aliases, numbers, reserved, count);
      PreviousAppended(aliases, numbers, count, Hostname);
      PreviousAppended(aliases, numbers, count, User);
      numbers := numbers + [count];
    }
  }

  /** What the anonymisation promises about the final names. */
  ghost predicate GoodNames(aliases: seq<Identity>, names: seq<string>) {
    && |names| == |aliases|
    && (forall i :: 0 <= i < |names| ==> NameOf(aliases, names[i], aliases[i].kind))
    && (forall i, j :: 0 <= i < j < |names| ==> names[i] != names[j])
    && (forall i, j :: 0 <= i < |names| && 0 <= j < |aliases| ==> names[i] != Folded(aliases[j].value))
  }

  ghost predicate NameOf(aliases: seq<Identity>, name: string, kind: Kind) {
    exists n: nat :: n <= 2 * |aliases| && name == Candidate(kind, n)
  }

  lemma CandidatesInjective()
    ensures forall kind :: Injective(ALIAS_NAMING(kind))
  {
    forall kind, n: nat, m: nat | ALIAS_NAMING(kind)(n) == ALIAS_NAMING(kind)(m)
      ensures n == m
    {
      CandidateInjective(kind, n, kind, m);
    }
  }

  ghost function Written(aliases: seq<Identity>, numbers: seq<nat>): seq<string>
    requires |numbers| == |aliases|
  {
    seq(|aliases|, i requires 0 <= i < |aliases| => Candidate(aliases[i].kind, numbers[i]))
  }

  /** The names that the registered identities determine. */
  ghost predicate Allocated(aliases: seq<Identity>, names: seq<string>) {
    exists numbers :: |numbers| == |aliases| && Stepwise(ALIAS_NAMING, aliases, numbers, Sources(aliases))
      && names == Written(aliases, numbers)
  }

  lemma AllocatedUnique(aliases: seq<Identity>, names: seq<string>, others: seq<string>)
    requires Allocated(aliases, names) && Allocated(aliases, others)
    ensures names == others
  {
    var a :| |a| == |aliases| && Stepwise(ALIAS_NAMING, aliases, a, Sources(aliases)) && names == Written(aliases, a);
    var b :| |b| == |aliases| && Stepwise(ALIAS_NAMING, aliases, b, Sources(aliases)) && others == Written(aliases, b);
    StepwiseUnique(ALIAS_NAMING, aliases, a, b, Sources(aliases), |aliases|);
    assert a[..|aliases|] == a && b[..|aliases|] == b;
  }

  lemma DifferentNames(aliases: seq<Identity>, numbers: seq<nat>, i: nat, j: nat)
    requires |numbers| == |aliases| && Stepwise(ALIAS_NAMING, aliases, numbers, Sources(aliases)) && i < j < |aliases|
    ensures Candidate(aliases[i].kind, numbers[i]) != Candidate(aliases[j].kind, numbers[j])
  {
    CandidateInjective(aliases[i].kind, numbers[i], aliases[j].kind, numbers[j]);
    PreviousAbove(ALIAS_NAMING, aliases, numbers, Sources(aliases), i, j);
    assert StepAt(ALIAS_NAMING, aliases, numbers, Sources(aliases), j);
  }

  lemma UnreservedName(aliases: seq<Identity>, numbers: seq<nat>, i: nat)
    requires |numbers| == |aliases| && Stepwise(ALIAS_NAMING, aliases, numbers, Sources(aliases)) && i < |aliases|
    requires numbers[i] <= 2 * |aliases|
    ensures Candidate(aliases[i].kind, numbers[i]) !in Sources(aliases)
    ensures NameOf(aliases, Candidate(aliases[i].kind, numbers[i]), aliases[i].kind)
  {
    assert StepAt(ALIAS_NAMING, aliases, numbers, Sources(aliases), i);
    assert ALIAS_NAMING(aliases[i].kind)(numbers[i]) == Candidate(aliases[i].kind, numbers[i]);
  }

  method AllocateNames(aliases: seq<Identity>) returns (names: seq<string>)
    ensures GoodNames(aliases, names) && Allocated(aliases, names)
  {
    var reserved := Reserve(aliases);
    CandidatesInjective();
    var numbers := AllocateNumbers(ALIAS_NAMING, aliases, reserved);
    names := seq(|aliases|, i requires 0 <= i < |aliases| => Candidate(aliases[i].kind, numbers[i]));
    assert names == Written(aliases, numbers);
    forall i, j | 0 <= i < j < |names| ensures names[i] != names[j] { DifferentNames(aliases, numbers, i, j); }
    forall i | 0 <= i < |names|
      ensures NameOf(aliases, names[i], aliases[i].kind) && names[i] !in Sources(aliases)
    {
      UnreservedName(aliases, numbers, i);
    }
  }

  // ---------- Rendering ----------

  const PREFIX := "\"@atlaso-identity-"
  const SUFFIX := "@\""

  /** A marker as JSON text. */
  function QuotedMarker(n: nat): string { PREFIX + (Decimal(n) + SUFFIX) }

  lemma QuotesMarker(n: nat)
    ensures QuotedMarker(n) == "\"" + Marker(n) + "\""
  {
  }

  /** Length of the digits at the front. */
  function DigitRun(s: string): (n: nat)
    ensures n <= |s| && forall i :: 0 <= i < n ==> IsDigit(s[i])
    ensures n < |s| ==> !IsDigit(s[n])
  {
    if s == "" || !IsDigit(s[0]) then 0 else 1 + DigitRun(s[1..])
  }

  /** Length of the quoted marker that starts `s`, or 0. */
  function MatchLength(s: string): (n: nat)
    ensures n <= |s|
    ensures n > 0 ==> |s| > 1 && s[0] == '"' && s[1] == '@'
  {
    MatchWith(PREFIX, SUFFIX, s)
  }

  function MatchWith(prefix: string, suffix: string, s: string): (n: nat)
    requires |prefix| > 1
    ensures n <= |s| && (n > 0 ==> |s| > 1 && s[0] == prefix[0] && s[1] == prefix[1])
  {
    if !(prefix <= s) then 0
    else
      var digits := DigitRun(s[|prefix|..]);
      var rest := s[|prefix| + digits..];
      if digits > 0 && suffix <= rest then |prefix| + digits + |suffix| else 0
  }

  /** The substitution over serialised evidence; unknown markers are left alone. */
  function Substitute(s: string, replacements: map<string, string>): string
    decreases |s|, 1
  {
    if s == "" then "" else SubstituteFront(s, MatchLength(s), replacements)
  }

  function SubstituteFront(s: string, n: nat, replacements: map<string, string>): string
    requires n <= |s| && s != ""
    decreases |s|, 0
  {
    if n == 0 then [s[0]] + Substitute(s[1..], replacements)
    else (if s[..n] in replacements then replacements[s[..n]] else s[..n]) + Substitute(s[n..], replacements)
  }

  /** The replacement table of a capture. */
  ghost predicate Replaces(replacements: map<string, string>, names: seq<string>, key: nat -> string) {
    Tabulated(replacements, names, key, |names|)
  }

  /** The table lists exactly the first `k` markers. */
  ghost predicate Tabulated(replacements: map<string, string>, names: seq<string>, key: nat -> string, k: nat) {
    && k <= |names|
    && (forall i :: 0 <= i < k ==> Maps(replacements, key(i + 1), names[i]))
    && (forall m :: m in replacements ==> MarkerBelow(key, k, m))
  }

  ghost predicate MarkerBelow(key: nat -> string, k: nat, m: string) {
    exists n: nat :: 1 <= n <= k && m == key(n)
  }

  ghost predicate Maps(replacements: map<string, string>, marker: string, name: string) {
    marker in replacements && replacements[marker] == "\"" + name + "\""
  }

  lemma QuotedMarkersInjective()
    ensures Injective(QuotedMarker)
  {
    forall i: nat, j: nat | QuotedMarker(i) == QuotedMarker(j)
      ensures i == j
    {
      SamePadding(PREFIX, Decimal(i), Decimal(j), SUFFIX);
      DecimalInjective(i, j);
    }
  }

  lemma SamePadding(prefix: string, a: string, b: string, suffix: string)
    ensures prefix + (a + suffix) == prefix + (b + suffix) <==> a == b
  {
    var p, q := prefix + (a + suffix), prefix + (b + suffix);
    assert p[|prefix|..|p| - |suffix|] == a && q[|prefix|..|q| - |suffix|] == b;
  }

  lemma TabulateNext(replacements: map<string, string>, names: seq<string>, key: nat -> string, k: nat)
    requires Injective(key) && k < |names| && Tabulated(replacements, names, key, k)
    ensures Tabulated(replacements[key(k + 1) := "\"" + names[k] + "\""], names, key, k + 1)
  {
    var r := replacements[key(k + 1) := "\"" + names[k] + "\""];
    forall i | 0 <= i < k + 1 ensures Maps(r, key(i + 1), names[i]) {
      if i < k { assert Maps(replacements, key(i + 1), names[i]); }
    }
    forall m | m in r ensures MarkerBelow(key, k + 1, m) {
      if m != key(k + 1) { assert MarkerBelow(key, k, m); }
    }
  }

  method BuildReplacements(key: nat -> string, names: seq<string>) returns (replacements: map<string, string>)
    requires Injective(key)
    ensures Replaces(replacements, names, key)
  {
    replacements := map[];
    for k := 0 to |names|
      invariant Tabulated(replacements, names, key, k)
    {
      TabulateNext(replacements, names, key, k);
      replacements := replacements[key(k + 1) := "\"" + names[k] + "\""];
    }
  }

  /** Evidence as collectors leave it: other text around markers. */
  datatype Evidence = Tail(raw: string) | Marked(raw: string, marker: nat, rest: Evidence)

  /** No complete quoted marker starts within `raw`, read together with the text after it. */
  predicate Clean(raw: string, after: string) {
    forall i :: 0 <= i < |raw| ==> MatchLength(raw[i..] + after) == 0
  }

  ghost predicate WellMarked(e: Evidence, count: nat) {
    match e
    case Tail(raw) => Clean(raw, "")
    case Marked(raw, marker, rest) =>
      Clean(raw, QuotedMarker(marker) + Serialised(rest)) && 1 <= marker <= count && WellMarked(rest, count)
  }

  function Serialised(e: Evidence): string {
    match e
    case Tail(raw) => raw
    case Marked(raw, marker, rest) => raw + (QuotedMarker(marker) + Serialised(rest))
  }

  function Exported(e: Evidence, names: seq<string>): string {
    match e
    case Tail(raw) => raw
    case Marked(raw, marker, rest) =>
      raw + ((if 1 <= marker <= |names| then "\"" + names[marker - 1] + "\"" else "") + Exported(rest, names))
  }

  lemma SubstitutePlain(c: char, rest: string, replacements: map<string, string>)
    requires MatchLength([c] + rest) == 0
    ensures Substitute([c] + rest, replacements) == [c] + Substitute(rest, replacements)
  {
    assert ([c] + rest)[1..] == rest;
  }

  lemma {:induction false} SubstituteClean(raw: string, after: string, replacements: map<string, string>)
    requires Clean(raw, after)
    ensures Substitute(raw + after, replacements) == raw + Substitute(after, replacements)
  {
    if raw == "" {
      assert raw + after == after;
    } else {
      var c, rest := raw[0], raw[1..];
      CleanTail(raw, after);
      SubstituteClean(rest, after, replacements);
      Prepended(c, rest, after);
      SubstituteFirst(c, rest, rest + after, raw + after, Substitute(after, replacements), replacements);
      Prepended(c, rest, Substitute(after, replacements));
    }
  }

  /** One character that starts no marker is kept, and the rest is substituted. */
  lemma SubstituteFirst(c: char, rest: string, tail: string, whole: string, later: string, replacements: map<string, string>)
    requires whole == [c] + tail && MatchLength(whole) == 0 && Substitute(tail, replacements) == rest + later
    ensures Substitute(whole, replacements) == [c] + (rest + later)
  {
    SubstitutePlain(c, tail, replacements);
  }

  lemma Prepended(c: char, rest: string, later: string)
    ensures [c] + (rest + later) == ([c] + rest) + later
  {
  }

  lemma CleanTail(raw: string, after: string)
    requires Clean(raw, after) && raw != ""
    ensures Clean(raw[1..], after) && MatchLength(raw + after) == 0 && raw == [raw[0]] + raw[1..]
  {
    assert raw[0..] == raw;
    var rest := raw[1..];
    forall i | 0 <= i < |rest| ensures MatchLength(rest[i..] + after) == 0 { assert rest[i..] == raw[i + 1..]; }
  }

  lemma {:induction false} DigitRunOf(digits: string, after: string)
    requires (forall i :: 0 <= i < |digits| ==> IsDigit(digits[i])) && after != "" && !IsDigit(after[0])
    ensures DigitRun(digits + after) == |digits|
  {
    if digits == "" {
      assert digits + after == after;
    } else {
      assert (digits + after)[1..] == digits[1..] + after;
      DigitRunOf(digits[1..], after);
    }
  }

  lemma MatchOf(prefix: string, digits: string, suffix: string, after: string)
    requires |prefix| > 1 && digits != "" && (forall i :: 0 <= i < |digits| ==> IsDigit(digits[i]))
    requires suffix != "" && !IsDigit(suffix[0])
    ensures var q := prefix + (digits + suffix); MatchWith(prefix, suffix, q + after) == |q|
  {
    var s := prefix + (digits + suffix) + after;
    assert s[|prefix|..] == digits + (suffix + after);
    DigitRunOf(digits, suffix + after);
    assert s[|prefix| + |digits|..] == suffix + after;
  }

  lemma SubstituteMatch(q: string, after: string, replacements: map<string, string>)
    requires MatchLength(q + after) == |q| > 0
    ensures Substitute(q + after, replacements) ==
      (if q in replacements then replacements[q] else q) + Substitute(after, replacements)
  {
    var s := q + after;
    assert s[..|q|] == q && s[|q|..] == after;
  }

  lemma SubstituteMarker(n: nat, after: string, replacements: map<string, string>)
    requires QuotedMarker(n) in replacements
    ensures Substitute(QuotedMarker(n) + after, replacements) == replacements[QuotedMarker(n)] + Substitute(after, replacements)
  {
    MatchOf(PREFIX, Decimal(n), SUFFIX, after);
    SubstituteMatch(QuotedMarker(n), after, replacements);
  }

  /** Rendering replaces exactly the markers, each by its own name, and leaves all other text alone. */
  lemma {:induction false} RendersExactly(e: Evidence, names: seq<string>, replacements: map<string, string>)
    requires WellMarked(e, |names|) && Replaces(replacements, names, QuotedMarker)
    ensures Substitute(Serialised(e), replacements) == Exported(e, names)
  {
    match e
    case Tail(raw) =>
      SubstituteClean(raw, "", replacements);
      assert raw + "" == raw;
    case Marked(raw, marker, rest) =>
      SubstituteClean(raw, QuotedMarker(marker) + Serialised(rest), replacements);
      assert Maps(replacements, QuotedMarker(marker), names[marker - 1]);
      SubstituteMarker(marker, Serialised(rest), replacements);
      RendersExactly(rest, names, replacements);
  }

  /** A table whose values are no longer than their keys never lengthens the text. */
  lemma {:induction false} SubstituteNeverLengthens(s: string, replacements: map<string, string>)
    requires forall m :: m in replacements ==> |replacements[m]| <= |m|
    ensures |Substitute(s, replacements)| <= |s|
    decreases |s|
  {
    if s == "" {
    } else {
      var n := MatchLength(s);
      SubstituteNeverLengthens(s[if n == 0 then 1 else n..], replacements);
    }
  }

  lemma ReplacementsFit(aliases: seq<Identity>, names: seq<string>, replacements: map<string, string>)
    requires GoodNames(aliases, names) && Replaces(replacements, names, QuotedMarker) && |aliases| < IDENTITY_LIMIT
    ensures forall m :: m in replacements ==> |replacements[m]| <= |m|
  {
    forall m | m in replacements
      ensures |replacements[m]| <= |m|
    {
      assert MarkerBelow(QuotedMarker, |names|, m);
      var k: nat :| 1 <= k <= |names| && m == QuotedMarker(k);
      var i := k - 1;
      assert NameOf(aliases, names[i], aliases[i].kind);
      var n: nat :| n <= 2 * |aliases| && names[i] == Candidate(aliases[i].kind, n);
      NameFitsMarker(aliases[i].kind, n, i + 1);
      QuotesMarker(i + 1);
      assert Maps(replacements, QuotedMarker(i + 1), names[i]);
    }
  }

  lemma TableUnique(names: seq<string>, a: map<string, string>, b: map<string, string>)
    requires Replaces(a, names, QuotedMarker) && Replaces(b, names, QuotedMarker)
    ensures a == b
  {
    forall m | m in a ensures m in b && a[m] == b[m] { TableEntry(names, a, b, m); }
    forall m | m in b ensures m in a { TableEntry(names, b, a, m); }
  }

  lemma TableEntry(names: seq<string>, a: map<string, string>, b: map<string, string>, m: string)
    requires Replaces(a, names, QuotedMarker) && Replaces(b, names, QuotedMarker) && m in a
    ensures m in b && a[m] == b[m]
  {
    assert MarkerBelow(QuotedMarker, |names|, m);
    var n: nat :| 1 <= n <= |names| && m == QuotedMarker(n);
    var i := n - 1;
    assert Maps(a, QuotedMarker(i + 1), names[i]) && Maps(b, QuotedMarker(i + 1), names[i]);
  }

  /** `r` is the data with the one table that the registered identities determine. */
  ghost predicate Rendered(aliases: seq<Identity>, data: string, r: string) {
    forall names, replacements :: Allocated(aliases, names) && Replaces(replacements, names, QuotedMarker) ==>
      r == Substitute(data, replacements)
  }

  lemma OneRendering(aliases: seq<Identity>, data: string, names: seq<string>, table: map<string, string>)
    requires Allocated(aliases, names) && Replaces(table, names, QuotedMarker)
    ensures Rendered(aliases, data, Substitute(data, table))
  {
    forall others, replacements | Allocated(aliases, others) && Replaces(replacements, others, QuotedMarker)
      ensures replacements == table
    {
      AllocatedUnique(aliases, names, others);
      TableUnique(names, table, replacements);
    }
  }

  // ---------- The projection ----------

  class Projection {
    const anonymize: bool
    /** Registered identities; the identity at index `i` has marker `i + 1`. */
    var aliases: seq<Identity>

    constructor (anonymize: bool)
      ensures this.anonymize == anonymize && aliases == [] && Valid()
    {
      this.anonymize, aliases := anonymize, [];
    }

    ghost predicate Valid()
      reads this
    {
      forall i, j :: 0 <= i < j < |aliases| ==> aliases[i] != aliases[j]
    }

    /** Registers an identity and returns its marker. `literal` recognises IP addresses, which are
        returned as they are. */
    method Identifier(value: string, kind: Kind, literal: string -> Option<string>) returns (r: Option<string>)
      requires Valid()
      modifies this
      ensures Valid() && old(aliases) <= aliases && |aliases| <= |old(aliases)| + 1
      ensures !Accepted(value) ==> r == None && aliases == old(aliases)
      ensures Accepted(value) && kind.Hostname? && literal(value).Some? ==> r == literal(value) && aliases == old(aliases)
      ensures Accepted(value) && !(kind.Hostname? && literal(value).Some?) && !anonymize ==>
        r == Some(value) && aliases == old(aliases)
      ensures Accepted(value) && !(kind.Hostname? && literal(value).Some?) && anonymize ==>
        exists i :: 0 <= i < |aliases| && aliases[i] == Key(kind, value) && r == Some(Marker(i + 1))
    {
      if !Accepted(value) { return None; }
      if kind.Hostname? && literal(value).Some? { return literal(value); }
      if !anonymize { return Some(value); }
      var key := Key(kind, value);
      var i := 0;
      while i < |aliases| && aliases[i] != key
        invariant 0 <= i <= |aliases| && forall j :: 0 <= j < i ==> aliases[j] != key
      {
        i := i + 1;
      }
      if i == |aliases| { aliases := aliases + [key]; }
      assert aliases[i] == key;
      return Some(Marker(i + 1));
    }

    /** Renders serialised evidence. The names depend only on the registered identities, so every file
        of one capture is rendered alike. */
    method Render(data: string) returns (r: string, ghost names: seq<string>, ghost replacements: map<string, string>)
      requires Valid()
      ensures GoodNames(aliases, names) && Allocated(aliases, names) && Replaces(replacements, names, QuotedMarker)
      ensures r == Substitute(data, replacements) && Rendered(aliases, data, r)
      ensures |aliases| < IDENTITY_LIMIT ==> |r| <= |data|
    {
      var final := AllocateNames(aliases);
      QuotedMarkersInjective();
      var table := BuildReplacements(QuotedMarker, final);
      names, replacements := final, table;
      r := Substitute(data, table);
      OneRendering(aliases, data, names, table);
      if |aliases| < IDENTITY_LIMIT {
        ReplacementsFit(aliases, names, table);
        SubstituteNeverLengthens(data, table);
      }
    }
  }

  /** Two registered identities are exported under one name exactly when they are the same identity. */
  lemma NamesIdentify(aliases: seq<Identity>, names: seq<string>, i: nat, j: nat, replacements: map<string, string>)
    requires GoodNames(aliases, names) && Replaces(replacements, names, QuotedMarker) && i < |aliases| && j < |aliases|
    requires forall a, b :: 0 <= a < b < |aliases| ==> aliases[a] != aliases[b]
    ensures Substitute(QuotedMarker(i + 1), replacements) == Substitute(QuotedMarker(j + 1), replacements)
      <==> aliases[i] == aliases[j]
  {
    RenderedMarker(names, replacements, i);
    RenderedMarker(names, replacements, j);
    GoodNamesDiffer(aliases, names);
    QuotedAlike(aliases, names, i, j);
  }

  lemma GoodNamesDiffer(aliases: seq<Identity>, names: seq<string>)
    requires GoodNames(aliases, names)
    ensures |names| == |aliases| && forall a, b :: 0 <= a < b < |names| ==> names[a] != names[b]
  {
  }

  lemma QuotedAlike(aliases: seq<Identity>, names: seq<string>, i: nat, j: nat)
    requires i < |aliases| == |names| && j < |aliases|
    requires forall a, b :: 0 <= a < b < |aliases| ==> aliases[a] != aliases[b]
    requires forall a, b :: 0 <= a < b < |names| ==> names[a] != names[b]
    ensures "\"" + names[i] + "\"" == "\"" + names[j] + "\"" <==> aliases[i] == aliases[j]
  {
    SameNameSameKey(aliases, names, i, j);
    Unquote(names[i], names[j]);
  }

  // ---------- A whole capture ----------

  datatype Call = Call(value: string, kind: Kind)

  function KeyOf(call: Call): Identity { Key(call.kind, call.value) }

  /** The call is answered with a marker, not with an address, the plain value or a refusal. */
  predicate Aliased(anonymize: bool, call: Call, literal: string -> Option<string>) {
    anonymize && Accepted(call.value) && !(call.kind.Hostname? && literal(call.value).Some?)
  }

  ghost predicate MarkedBy(aliases: seq<Identity>, key: Identity, r: Option<string>) {
    exists k :: 0 <= k < |aliases| && aliases[k] == key && r == Some(Marker(k + 1))
  }

  lemma MarkedLater(aliases: seq<Identity>, later: seq<Identity>, key: Identity, r: Option<string>)
    requires aliases <= later && MarkedBy(aliases, key, r)
    ensures MarkedBy(later, key, r)
  {
    var k :| 0 <= k < |aliases| && aliases[k] == key && r == Some(Marker(k + 1));
    assert later[k] == aliases[k];
  }

  /** Any sequence of calls, by any collectors in any order. */
  method Register(p: Projection, calls: seq<Call>, literal: string -> Option<string>) returns (results: seq<Option<string>>)
    requires p.Valid()
    modifies p
    ensures p.Valid() && old(p.aliases) <= p.aliases && |results| == |calls|
    ensures forall i :: 0 <= i < |calls| && Aliased(p.anonymize, calls[i], literal) ==>
      MarkedBy(p.aliases, KeyOf(calls[i]), results[i])
  {
    results := [];
    for i := 0 to |calls|
      invariant p.Valid() && old(p.aliases) <= p.aliases && |results| == i
      invariant forall j :: 0 <= j < i && Aliased(p.anonymize, calls[j], literal) ==>
        MarkedBy(p.aliases, KeyOf(calls[j]), results[j])
    {
      ghost var before := p.aliases;
      var r := p.Identifier(calls[i].value, calls[i].kind, literal);
      forall j | 0 <= j < i && Aliased(p.anonymize, calls[j], literal)
        ensures MarkedBy(p.aliases, KeyOf(calls[j]), results[j])
      {
        MarkedLater(before, p.aliases, KeyOf(calls[j]), results[j]);
      }
      results := results + [r];
    }
  }

  /** `r` was rendered from the one table of the capture and shows the name given to `key`. */
  ghost predicate ShowsName(aliases: seq<Identity>, names: seq<string>, key: Identity, r: string) {
    exists k :: 0 <= k < |aliases| == |names| && aliases[k] == key && r == "\"" + names[k] + "\""
  }

  lemma MarkerShowsName(aliases: seq<Identity>, names: seq<string>, replacements: map<string, string>,
                        key: Identity, marker: Option<string>, r: string)
    requires |names| == |aliases| && Replaces(replacements, names, QuotedMarker) && MarkedBy(aliases, key, marker)
    requires r == Substitute("\"" + marker.value + "\"", replacements)
    ensures ShowsName(aliases, names, key, r)
  {
    var k :| 0 <= k < |aliases| && aliases[k] == key && marker == Some(Marker(k + 1));
    QuotesMarker(k + 1);
    RenderedMarker(names, replacements, k);
  }

  lemma SameNameSameKey(aliases: seq<Identity>, names: seq<string>, i: nat, j: nat)
    requires i < |aliases| == |names| && j < |aliases|
    requires forall a, b :: 0 <= a < b < |aliases| ==> aliases[a] != aliases[b]
    requires forall a, b :: 0 <= a < b < |names| ==> names[a] != names[b]
    ensures names[i] == names[j] <==> aliases[i] == aliases[j]
  {
  }

  lemma NamesShowKeys(aliases: seq<Identity>, names: seq<string>, a: Identity, b: Identity, r: string, q: string)
    requires ShowsName(aliases, names, a, r) && ShowsName(aliases, names, b, q)
    requires forall i, j :: 0 <= i < j < |aliases| ==> aliases[i] != aliases[j]
    requires forall i, j :: 0 <= i < j < |names| ==> names[i] != names[j]
    ensures r == q <==> a == b
  {
    var i :| 0 <= i < |aliases| == |names| && aliases[i] == a && r == "\"" + names[i] + "\"";
    var j :| 0 <= j < |aliases| == |names| && aliases[j] == b && q == "\"" + names[j] + "\"";
    SameNameSameKey(aliases, names, i, j);
    Unquote(names[i], names[j]);
  }

  /** Renders one answered call. */
  method RenderAnswer(p: Projection, answer: Option<string>, ghost names: seq<string>, ghost key: Identity) returns (r: string)
    requires p.Valid() && Allocated(p.aliases, names)
    ensures MarkedBy(p.aliases, key, answer) ==> ShowsName(p.aliases, names, key, r)
  {
    if answer.None? { return ""; }
    ghost var used, table;
    r, used, table := p.Render("\"" + answer.value + "\"");
    AllocatedUnique(p.aliases, names, used);
    if MarkedBy(p.aliases, key, answer) { MarkerShowsName(p.aliases, names, table, key, answer, r); }
  }

  ghost predicate Displayed(aliases: seq<Identity>, names: seq<string>, aliased: Call -> bool, calls: seq<Call>, shown: seq<string>, i: nat)
    requires i < |shown| <= |calls|
  {
    aliased(calls[i]) ==> ShowsName(aliases, names, KeyOf(calls[i]), shown[i])
  }

  lemma DisplayNext(aliases: seq<Identity>, names: seq<string>, aliased: Call -> bool, calls: seq<Call>, shown: seq<string>, r: string)
    requires |shown| < |calls| && forall j :: 0 <= j < |shown| ==> Displayed(aliases, names, aliased, calls, shown, j)
    requires aliased(calls[|shown|]) ==> ShowsName(aliases, names, KeyOf(calls[|shown|]), r)
    ensures forall j :: 0 <= j < |shown| + 1 ==> Displayed(aliases, names, aliased, calls, shown + [r], j)
  {
    forall j | 0 <= j < |shown| + 1 ensures Displayed(aliases, names, aliased, calls, shown + [r], j) {
      if j < |shown| { assert Displayed(aliases, names, aliased, calls, shown, j); }
    }
  }

  /** Renders every answered call. */
  method ShowAll(p: Projection, calls: seq<Call>, aliased: Call -> bool, results: seq<Option<string>>, ghost names: seq<string>)
    returns (shown: seq<string>)
    requires p.Valid() && Allocated(p.aliases, names) && |results| == |calls|
    requires forall i :: 0 <= i < |calls| && aliased(calls[i]) ==> MarkedBy(p.aliases, KeyOf(calls[i]), results[i])
    ensures |shown| == |calls|
    ensures forall i :: 0 <= i < |calls| ==> Displayed(p.aliases, names, aliased, calls, shown, i)
  {
    shown := [];
    for i := 0 to |calls|
      invariant |shown| == i
      invariant forall j :: 0 <= j < i ==> Displayed(p.aliases, names, aliased, calls, shown, j)
    {
      var r := RenderAnswer(p, results[i], names, KeyOf(calls[i]));
      DisplayNext(p.aliases, names, aliased, calls, shown, r);
      shown := shown + [r];
    }
  }

  ghost predicate ShownAlike(p: Projection, calls: seq<Call>, literal: string -> Option<string>, shown: seq<string>, i: nat, j: nat)
    requires i < |calls| == |shown| && j < |calls|
    reads p
  {
    Aliased(p.anonymize, calls[i], literal) && Aliased(p.anonymize, calls[j], literal) ==>
      (shown[i] == shown[j] <==> KeyOf(calls[i]) == KeyOf(calls[j]))
  }

  /** A whole capture: identities registered by any calls, then rendered. Two aliased values are shown alike
      exactly when they have the same kind and normalised value. */
  method Capture(p: Projection, calls: seq<Call>, literal: string -> Option<string>) returns (shown: seq<string>)
    requires p.Valid()
    modifies p
    ensures p.Valid() && |shown| == |calls|
    ensures forall i, j :: 0 <= i < |calls| && 0 <= j < |calls| ==> ShownAlike(p, calls, literal, shown, i, j)
  {
    var results := Register(p, calls, literal);
    var names := AllocateNames(p.aliases);
    var aliased := (call: Call) => Aliased(p.anonymize, call, literal);
    shown := ShowAll(p, calls, aliased, results, names);
    forall i, j | 0 <= i < |calls| && 0 <= j < |calls|
      ensures ShownAlike(p, calls, literal, shown, i, j)
    {
      assert Displayed(p.aliases, names, aliased, calls, shown, i) && Displayed(p.aliases, names, aliased, calls, shown, j);
      if Aliased(p.anonymize, calls[i], literal) && Aliased(p.anonymize, calls[j], literal) {
        NamesShowKeys(p.aliases, names, KeyOf(calls[i]), KeyOf(calls[j]), shown[i], shown[j]);
      }
    }
  }

  predicate NoCapitals(s: string) { forall i :: 0 <= i < |s| ==> !('A' <= s[i] <= 'Z') }

  lemma {:induction false} LowerHasNoCapitals(s: string)
    ensures NoCapitals(Lower(s)) && (NoCapitals(s) ==> Lower(s) == s)
  {
    if s == "" {
    } else {
      LowerHasNoCapitals(s[1..]);
    }
  }

  lemma {:induction false} TrimDotsSettles(s: string)
    ensures TrimDots(TrimDots(s)) == TrimDots(s) && TrimDots(s) <= s
  {
    if s == "" || s[|s| - 1] != '.' {
      assert TrimDots(s) == s;
    } else {
      TrimDotsSettles(s[..|s| - 1]);
    }
  }

  lemma FoldedSettles(value: string)
    ensures Folded(Folded(value)) == Folded(value)
  {
    LowerHasNoCapitals(value);
    TrimDotsSettles(Lower(value));
    LowerHasNoCapitals(Folded(value));
  }

  lemma WordThenDigits(word: string, digits: string)
    requires NoCapitals(word) && digits != "" && forall i :: 0 <= i < |digits| ==> IsDigit(digits[i])
    ensures Folded(word + digits) == word + digits
  {
    LowerHasNoCapitals(word + digits);
    assert (word + digits)[|word| + |digits| - 1] == digits[|digits| - 1];
  }

  lemma PaddedDigits(n: nat)
    ensures Padded(n) != "" && forall i :: 0 <= i < |Padded(n)| ==> IsDigit(Padded(n)[i])
  {
    if |Decimal(n)| < 4 { ZerosAreDigits(4 - |Decimal(n)|); }
  }

  lemma CandidateIsFolded(kind: Kind, n: nat)
    ensures Folded(Candidate(kind, n)) == Candidate(kind, n)
  {
    var word := if kind.Hostname? then "hostname" else "user";
    PaddedDigits(n);
    WordThenDigits(word, Padded(n));
  }

  lemma ZerosAreDigits(k: nat)
    ensures forall i :: 0 <= i < |Zeros(k)| ==> IsDigit(Zeros(k)[i])
  {
  }

  /** No exported name equals any value that was ever accepted, ignoring case and trailing dots: not even
      one registered after the identity it stands for. */
  lemma NamesAvoidSources(aliases: seq<Identity>, names: seq<string>, i: nat, kind: Kind, value: string)
    requires GoodNames(aliases, names) && i < |aliases| && Key(kind, value) in aliases
    ensures Folded(names[i]) != Folded(value)
  {
    var j :| 0 <= j < |aliases| && aliases[j] == Key(kind, value);
    FoldedSettles(value);
    assert NameOf(aliases, names[i], aliases[i].kind);
    var n: nat :| n <= 2 * |aliases| && names[i] == Candidate(aliases[i].kind, n);
    CandidateIsFolded(aliases[i].kind, n);
  }

  lemma RenderedMarker(names: seq<string>, replacements: map<string, string>, i: nat)
    requires Replaces(replacements, names, QuotedMarker) && i < |names|
    ensures Substitute(QuotedMarker(i + 1), replacements) == "\"" + names[i] + "\""
  {
    var e := Marked("", i + 1, Tail(""));
    RendersExactly(e, names, replacements);
    assert Serialised(e) == QuotedMarker(i + 1);
    assert Exported(e, names) == "\"" + names[i] + "\"";
  }

  lemma Unquote(a: string, b: string)
    ensures "\"" + a + "\"" == "\"" + b + "\"" <==> a == b
  {
    var p, q := "\"" + a + "\"", "\"" + b + "\"";
    assert p[1..|p| - 1] == a && q[1..|q| - 1] == b;
  }

  // ---------- Size limits of a capture ----------

  function Total(files: seq<string>): nat {
    if files == [] then 0 else Total(files[..|files| - 1]) + |files[|files| - 1]|
  }

  ghost predicate WithinLimits(files: seq<string>) {
    (forall i :: 0 <= i < |files| ==> |files[i]| <= SOURCE_LIMIT) && Total(files) <= TOTAL_LIMIT
  }

  lemma {:induction false} ShorterFilesFit(before: seq<string>, after: seq<string>)
    requires |before| == |after| && forall i :: 0 <= i < |before| ==> |after[i]| <= |before[i]|
    ensures Total(after) <= Total(before)
  {
    if before == [] {
    } else {
      ShorterFilesFit(before[..|before| - 1], after[..|after| - 1]);
    }
  }

  /** The outputs that were kept, in order. */
  function Kept(outputs: seq<string>, kept: seq<bool>): seq<string>
    requires |kept| <= |outputs|
  {
    if kept == [] then []
    else
      var k := |kept| - 1;
      Kept(outputs, kept[..k]) + (if kept[k] then [outputs[k]] else [])
  }

  /** Collection: a source is dropped exactly when it would break a limit at its turn. */
  method Collect(outputs: seq<string>) returns (files: seq<string>, kept: seq<bool>)
    ensures WithinLimits(files) && |kept| == |outputs| && files == Kept(outputs, kept)
    ensures forall i :: 0 <= i < |outputs| ==> FitsAtTurn(outputs, kept, i)
  {
    files, kept := [], [];
    for i := 0 to |outputs|
      invariant |kept| == i && WithinLimits(files) && files == Kept(outputs, kept)
      invariant forall j :: 0 <= j < i ==> FitsAtTurn(outputs, kept, j)
    {
      var fits := |outputs[i]| <= SOURCE_LIMIT && Total(files) + |outputs[i]| <= TOTAL_LIMIT;
      var next := kept + [fits];
      assert next[..i] == kept;
      forall j | 0 <= j < i + 1 ensures FitsAtTurn(outputs, next, j) {
        assert next[..j] == kept[..j];
        assert j < i ==> FitsAtTurn(outputs, kept, j);
        assert kept[..i] == kept;
      }
      if fits { KeepFile(files, outputs[i]); }
      files, kept := if fits then files + [outputs[i]] else files, next;
    }
  }

  ghost predicate FitsAtTurn(outputs: seq<string>, kept: seq<bool>, i: nat)
    requires i < |kept| <= |outputs|
  {
    kept[i] <==> |outputs[i]| <= SOURCE_LIMIT && Total(Kept(outputs, kept[..i])) + |outputs[i]| <= TOTAL_LIMIT
  }

  lemma KeepFile(files: seq<string>, data: string)
    requires WithinLimits(files) && |data| <= SOURCE_LIMIT && Total(files) + |data| <= TOTAL_LIMIT
    ensures WithinLimits(files + [data])
  {
    assert (files + [data])[..|files|] == files;
  }

  /** File `i` is rendered from the one table and is no longer than before. */
  ghost predicate Produced(aliases: seq<Identity>, files: seq<string>, exported: seq<string>, i: nat)
    requires i < |exported| <= |files|
  {
    |exported[i]| <= |files[i]| && Rendered(aliases, files[i], exported[i])
  }

  lemma ProduceNext(aliases: seq<Identity>, files: seq<string>, exported: seq<string>, data: string)
    requires |exported| < |files| && forall j :: 0 <= j < |exported| ==> Produced(aliases, files, exported, j)
    requires |data| <= |files[|exported|]| && Rendered(aliases, files[|exported|], data)
    ensures forall j :: 0 <= j < |exported| + 1 ==> Produced(aliases, files, exported + [data], j)
  {
    forall j | 0 <= j < |exported| + 1 ensures Produced(aliases, files, exported + [data], j) {
      if j < |exported| { assert Produced(aliases, files, exported, j); }
    }
  }

  method RenderAll(p: Projection, files: seq<string>) returns (exported: seq<string>)
    requires p.Valid() && |p.aliases| < IDENTITY_LIMIT
    ensures |exported| == |files| && forall i :: 0 <= i < |files| ==> Produced(p.aliases, files, exported, i)
  {
    exported := [];
    for i := 0 to |files|
      invariant |exported| == i && forall j :: 0 <= j < i ==> Produced(p.aliases, files, exported, j)
    {
      var data, _, _ := p.Render(files[i]);
      ProduceNext(p.aliases, files, exported, data);
      exported := exported + [data];
    }
  }

  /** Export: every kept file is rendered with the same names and its recorded size recomputed; the limits
      checked during collection hold for the exported bytes. */
  method Export(p: Projection, files: seq<string>) returns (exported: seq<string>, sizes: seq<nat>)
    requires p.Valid() && WithinLimits(files) && |p.aliases| < IDENTITY_LIMIT
    ensures |exported| == |sizes| == |files| && WithinLimits(exported)
    ensures forall i :: 0 <= i < |files| ==> sizes[i] == |exported[i]| && Produced(p.aliases, files, exported, i)
  {
    exported := RenderAll(p, files);
    sizes := seq(|exported|, i requires 0 <= i < |exported| => |exported[i]|);
    forall i | 0 <= i < |files| ensures |exported[i]| <= |files[i]| { assert Produced(p.aliases, files, exported, i); }
    ShorterFilesFit(files, exported);
  }
}
