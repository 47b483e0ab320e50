/** The passes that strip non-operative Markdown, as far as line numbers are concerned. What a regular
    expression or a block classifier decides is a parameter; which text is then kept, emptied or restored
    is modelled as it is done. */
module MarkdownPasses {
  import opened PythonText
  import opened ErasedText
  import opened DelimiterPairing
  import opened DeletedText

  /** Appending `piece` for the next stretch of the text. */
  lemma Stretch(text: string, r: string, from: nat, to: nat, piece: string)
    requires from <= to <= |text| && Erased(text[..from], r) && Erased(text[from..to], piece)
    ensures Erased(text[..to], r + piece)
  {
    ErasedConcat(text[..from], r, text[from..to], piece);
    assert text[..to] == text[..from] + text[from..to];
  }

  lemma KeptStretch(text: string, r: string, from: nat, to: nat)
    requires from <= to <= |text| && Erased(text[..from], r)
    ensures Erased(text[..to], r + text[from..to])
  {
    ErasedSelf(text[from..to]);
    Stretch(text, r, from, to, text[from..to]);
  }

  lemma EmptiedStretch(text: string, r: string, from: nat, to: nat)
    requires from <= to <= |text| && Erased(text[..from], r)
    ensures Erased(text[..to], r + Breaks(text[from..to]))
  {
    ErasedToBreaks(text[from..to]);
    Stretch(text, r, from, to, Breaks(text[from..to]));
  }

  // ---------- Searching ----------

  predicate StartsAt(text: string, pattern: string, at: nat) {
    at + |pattern| <= |text| && text[at..at + |pattern|] == pattern
  }

  method Find(text: string, pattern: string, from: nat) returns (at: Option<nat>)
    ensures at.Some? ==> from <= at.value && StartsAt(text, pattern, at.value)
    ensures forall p :: from <= p < (if at.Some? then at.value else |text|) ==> !StartsAt(text, pattern, p)
  {
    var p := from;
    while p < |text|
      invariant from <= p && forall q :: from <= q < p ==> !StartsAt(text, pattern, q)
    {
      if StartsAt(text, pattern, p) { return Some(p); }
      p := p + 1;
    }
    return None;
  }

  predicate Letter(c: char) { 'a' <= c <= 'z' || 'A' <= c <= 'Z' }

  predicate TagBlank(c: char) { c == ' ' || c == '\t' || c == '\r' || c == '\n' }

  // ---------- Hidden lines ----------

  /** `visible` shows every line of `lines` or blanks it. */
  ghost predicate ShownOrBlank(lines: seq<string>, visible: seq<string>) {
    |visible| <= |lines| && forall i :: 0 <= i < |visible| ==> visible[i] == lines[i] || visible[i] == BlankLine(lines[i])
  }

  lemma ShownOrBlankErased(text: string, visible: seq<string>)
    requires Plain(text) && ShownOrBlank(KeepLines(text), visible) && |visible| == |KeepLines(text)|
    ensures Erased(text, Concat(visible))
  {
    var lines := KeepLines(text);
    forall i | 0 <= i < |lines| ensures Erased(lines[i], visible[i]) {
      KeptLinesAreLines(text, i);
      ErasedToBlank(lines[i]);
      ErasedSelf(lines[i]);
    }
    ErasedConcats(lines, visible);
    ConcatKeepLines(text);
  }

  /** The lines with exactly the hidden ones blanked. */
  function Masked(text: string, hidden: (string, nat) -> bool): seq<string> {
    var lines := KeepLines(text);
    seq(|lines|, i requires 0 <= i < |lines| => if hidden(text, i) then BlankLine(lines[i]) else lines[i])
  }

  /** The fence, inert-block and quotation passes: line by line, shown or blanked. */
  method BlankLines(text: string, hidden: (string, nat) -> bool) returns (r: string)
    ensures r == Concat(Masked(text, hidden))
    ensures Plain(text) ==> Erased(text, r)
  {
    var lines := KeepLines(text);
    var visible: seq<string> := [];
    for i := 0 to |lines|
      invariant |visible| == i && visible == Masked(text, hidden)[..i]
    {
      visible := visible + [if hidden(text, i) then BlankLine(lines[i]) else lines[i]];
    }
    assert visible == Masked(text, hidden);
    if Plain(text) { ShownOrBlankErased(text, visible); }
    r := Concat(visible);
  }

  /** A blanked line that may have to be shown after all. */
  datatype Note = Note(index: nat, line: string)

  /** What becomes of noted lines when the next line is read. */
  datatype Verdict = Hold | Restore | Settle

  datatype Place = Unnoted | AsLabel | AsDestination | AsTitle

  /** How the reference-definition scanner treats one line: what becomes of the noted label, destination and
      title lines, whether this line is blanked, and whether it joins a list of noted lines. */
  datatype LinePlan = LinePlan(labels: Verdict, destination: Verdict, titles: Verdict, blank: bool, place: Place)

  ghost predicate Faithful(lines: seq<string>, visible: seq<string>, notes: seq<Note>) {
    forall k :: 0 <= k < |notes| ==> notes[k].index < |visible| <= |lines| && notes[k].line == lines[notes[k].index]
  }

  method Decide(lines: seq<string>, before: seq<string>, notes: seq<Note>, verdict: Verdict)
    returns (visible: seq<string>, left: seq<Note>)
    requires ShownOrBlank(lines, before) && Faithful(lines, before, notes)
    ensures |visible| == |before| && ShownOrBlank(lines, visible) && Faithful(lines, visible, left)
    ensures left == if verdict == Hold then notes else []
    ensures verdict == Restore ==> forall k :: 0 <= k < |notes| ==> visible[notes[k].index] == notes[k].line
    ensures verdict != Restore ==> visible == before
  {
    visible, left := before, if verdict == Hold then notes else [];
    if verdict == Restore {
      for k := 0 to |notes|
        invariant |visible| == |before| && ShownOrBlank(lines, visible)
        invariant forall j :: 0 <= j < k ==> visible[notes[j].index] == notes[j].line
      {
        visible := visible[notes[k].index := notes[k].line];
      }
    }
  }

  /** The scanner's output so far and the lines it may still have to show. */
  datatype Reading = Reading(visible: seq<string>, labels: seq<Note>, destination: seq<Note>, titles: seq<Note>)

  ghost predicate Sound(lines: seq<string>, s: Reading) {
    && ShownOrBlank(lines, s.visible) && Faithful(lines, s.visible, s.labels)
    && Faithful(lines, s.visible, s.destination) && Faithful(lines, s.visible, s.titles)
  }

  method DecideAll(lines: seq<string>, s: Reading, labels: Verdict, destination: Verdict, titles: Verdict) returns (t: Reading)
    requires Sound(lines, s)
    ensures Sound(lines, t) && |t.visible| == |s.visible|
  {
    var v, l := Decide(lines, s.visible, s.labels, labels);
    var w, d := Decide(lines, v, s.destination, destination);
    var x, q := Decide(lines, w, s.titles, titles);
    t := Reading(x, l, d, q);
  }

  /** Appends one line and notes where it may have to be shown after all. */
  function Read(s: Reading, line: string, p: LinePlan): Reading {
    var note := Note(|s.visible|, line);
    var t := s.(visible := s.visible + [if p.blank then BlankLine(line) else line]);
    match p.place
    case Unnoted => t
    case AsLabel => t.(labels := t.labels + [note])
    case AsDestination => t.(destination := [note])
    case AsTitle => t.(titles := t.titles + [note])
  }

  lemma ReadSound(lines: seq<string>, s: Reading, p: LinePlan)
    requires Sound(lines, s) && |s.visible| < |lines|
    ensures Sound(lines, Read(s, lines[|s.visible|], p))
  {
  }

  /** Blanks reference definitions and indented code, restoring definitions that turn out to be prose. */
  method BlankReferences(text: string, plan: (string, nat) -> LinePlan) returns (r: string)
    ensures exists visible :: |visible| == |KeepLines(text)| && ShownOrBlank(KeepLines(text), visible) && r == Concat(visible)
    ensures Plain(text) ==> Erased(text, r)
  {
    var lines := KeepLines(text);
    var s := Reading([], [], [], []);
    for i := 0 to |lines|
      invariant |s.visible| == i && Sound(lines, s)
    {
      var p := plan(text, i);
      s := DecideAll(lines, s, p.labels, p.destination, p.titles);
      ReadSound(lines, s, p);
      s := Read(s, lines[i], p);
    }
    s := DecideAll(lines, s, Restore, Restore, Restore);
    if Plain(text) { ShownOrBlankErased(text, s.visible); }
    r := Concat(s.visible);
  }

  // ---------- Matches of a pattern ----------

  type Search = (string, nat) -> Option<Span>

  predicate Forward(text: string, cursor: nat, m: Option<Span>) {
    m.Some? && cursor <= m.value.start < m.value.end <= |text|
  }

  /** The rest of the text with every match emptied. */
  function Emptied(text: string, search: Search, cursor: nat): string
    requires cursor <= |text|
    decreases |text| - cursor
  {
    var m := search(text, cursor);
    if Forward(text, cursor, m) then
      text[cursor..m.value.start] + Breaks(text[m.value.start..m.value.end]) + Emptied(text, search, m.value.end)
    else text[cursor..]
  }

  /** One more match emptied. */
  lemma EmptiedNext(text: string, search: Search, cursor: nat, m: Option<Span>, r: string, next: string, whole: string)
    requires cursor <= |text| && m == search(text, cursor) && Forward(text, cursor, m) && Erased(text[..cursor], r)
    requires r + Emptied(text, search, cursor) == whole
    requires next == r + text[cursor..m.value.start] + Breaks(text[m.value.start..m.value.end])
    ensures Erased(text[..m.value.end], next) && next + Emptied(text, search, m.value.end) == whole
  {
    var kept := text[cursor..m.value.start];
    KeptStretch(text, r, cursor, m.value.start);
    EmptiedStretch(text, r + kept, m.value.start, m.value.end);
    Regrouped(r, kept, Breaks(text[m.value.start..m.value.end]), Emptied(text, search, m.value.end));
  }

  lemma Regrouped(r: string, a: string, b: string, c: string)
    ensures r + (a + b + c) == (r + a + b) + c
  {
  }

  lemma EmptiedRest(text: string, search: Search, cursor: nat, r: string)
    requires cursor <= |text| && !Forward(text, cursor, search(text, cursor)) && Erased(text[..cursor], r)
    ensures r + text[cursor..] == r + Emptied(text, search, cursor) && Erased(text, r + text[cursor..])
  {
    KeptStretch(text, r, cursor, |text|);
    assert text[..|text|] == text;
  }

  /** Empties every match, left to right. */
  method EmptyMatches(text: string, search: Search) returns (r: string)
    ensures r == Emptied(text, search, 0) && Erased(text, r)
  {
    r := "";
    var cursor := 0;
    ghost var whole := Emptied(text, search, 0);
    var m := search(text, cursor);
    while Forward(text, cursor, m)
      invariant cursor <= |text| && Erased(text[..cursor], r) && m == search(text, cursor)
      invariant r + Emptied(text, search, cursor) == whole
      decreases |text| - cursor
    {
      var next := r + text[cursor..m.value.start] + Breaks(text[m.value.start..m.value.end]);
      EmptiedNext(text, search, cursor, m, r, next, whole);
      r, cursor := next, m.value.end;
      m := search(text, cursor);
    }
    EmptiedRest(text, search, cursor, r);
    r := r + text[cursor..];
  }

  datatype Tag = Tag(span: Span, closing: bool, name: string)

  /** Drops the last element equal to `name`, if there is one. */
  function Popped(stack: seq<string>, name: string): (r: seq<string>)
    ensures |r| == if name in stack then |stack| - 1 else |stack|
  {
    if stack == [] then []
    else if stack[|stack| - 1] == name then stack[..|stack| - 1]
    else Popped(stack[..|stack| - 1], name) + [stack[|stack| - 1]]
  }

  method Hide(text: string, r: string, from: nat, to: nat, hidden: bool) returns (q: string)
    requires from <= to <= |text| && Erased(text[..from], r)
    ensures Erased(text[..to], q) && q == r + Veiled(text, from, to, hidden)
  {
    KeptStretch(text, r, from, to);
    EmptiedStretch(text, r, from, to);
    q := r + Veiled(text, from, to, hidden);
  }

  type TagSearch = (string, nat) -> Option<Tag>

  predicate TagForward(text: string, cursor: nat, m: Option<Tag>) {
    m.Some? && cursor <= m.value.span.start < m.value.span.end <= |text|
  }

  /** The open deletion elements after a tag. */
  function Opened(stack: seq<string>, tag: Tag): seq<string> {
    if tag.closing then Popped(stack, tag.name) else stack + [tag.name]
  }

  function Veiled(text: string, from: nat, to: nat, hidden: bool): string
    requires from <= to <= |text|
  {
    if hidden then Breaks(text[from..to]) else text[from..to]
  }

  /** The rest of the text without its deletion elements: every tag goes, and all text while one is open. */
  function Undeleted(text: string, search: TagSearch, cursor: nat, stack: seq<string>): string
    requires cursor <= |text|
    decreases |text| - cursor
  {
    var m := search(text, cursor);
    if TagForward(text, cursor, m) then
      var span := m.value.span;
      Veiled(text, cursor, span.start, stack != []) + Breaks(text[span.start..span.end])
        + Undeleted(text, search, span.end, Opened(stack, m.value))
    else Veiled(text, cursor, |text|, stack != [])
  }

  lemma UndeletedNext(text: string, search: TagSearch, cursor: nat, stack: seq<string>, tag: Tag, r: string, whole: string)
    requires cursor <= |text| && search(text, cursor) == Some(tag) && TagForward(text, cursor, Some(tag))
    requires r + Undeleted(text, search, cursor, stack) == whole
    ensures r + Veiled(text, cursor, tag.span.start, stack != []) + Breaks(text[tag.span.start..tag.span.end])
      + Undeleted(text, search, tag.span.end, Opened(stack, tag)) == whole
  {
    Regrouped(r, Veiled(text, cursor, tag.span.start, stack != []), Breaks(text[tag.span.start..tag.span.end]),
              Undeleted(text, search, tag.span.end, Opened(stack, tag)));
  }

  /** Empties deletion elements. */
  method EmptyDeletionElements(text: string, search: TagSearch) returns (r: string)
    ensures r == Undeleted(text, search, 0, []) && Erased(text, r)
  {
    r := "";
    var stack: seq<string> := [];
    var cursor := 0;
    ghost var whole := Undeleted(text, search, 0, []);
    var m := search(text, cursor);
    while TagForward(text, cursor, m)
      invariant cursor <= |text| && Erased(text[..cursor], r) && m == search(text, cursor)
      invariant r + Undeleted(text, search, cursor, stack) == whole
      decreases |text| - cursor
    {
      var tag := m.value;
      UndeletedNext(text, search, cursor, stack, tag, r, whole);
      r := Hide(text, r, cursor, tag.span.start, stack != []);
      r := Hide(text, r, tag.span.start, tag.span.end, true);
      stack := Opened(stack, tag);
      cursor := tag.span.end;
      m := search(text, cursor);
    }
    r := Hide(text, r, cursor, |text|, stack != []);
    assert text[..|text|] == text;
  }

  lemma {:induction false} SurvivorsErased(text: string, spans: seq<Span>, high: nat)
    requires high <= |text|
    ensures Erased(text[..high], Survivors(text, spans, 0, high))
    decreases high
  {
    var whole := text[..high];
    if high == 0 {
      assert whole == "";
    } else {
      var front, last, kept := text[..high - 1], text[high - 1], Survivors(text, spans, 0, high - 1);
      SurvivorsErased(text, spans, high - 1);
      assert whole == front + [last];
      if Covers(spans, high - 1) && !LineBreak(last) { DropLast(front, kept, last); } else { KeepLast(front, kept, last); }
    }
  }

  /** Deleted content: deletion elements, then the text under the `~` pairs of what is left. */
  method StripDeletedContent(text: string, search: TagSearch,
                             flanking: (nat, nat, bool) -> (bool, bool), labels: nat -> LinkScope)
    returns (r: string, ghost d: seq<Delimiter>)
    ensures var shown := Undeleted(text, search, 0, []);
      && d == AllDelimiters(shown, 0, flanking, labels) && ScopedPairing(d, ReferenceMatching(d))
      && r == Survivors(shown, TildeSpans(d, ReferenceMatching(d), |d|), 0, |shown|)
    ensures Erased(text, r)
  {
    var shown := EmptyDeletionElements(text, search);
    var listed := CollectDelimiters(shown, flanking, labels);
    d := listed;
    r := StripDeleted(shown, listed);
    SurvivorsErased(shown, TildeSpans(d, ReferenceMatching(d), |d|), |shown|);
    assert shown[..|shown|] == shown;
    ErasedTransitive(text, shown, r);
  }

  // ---------- Comments and raw-text elements ----------

  const RAW_TEXT: set<string> := {"pre", "script", "style", "textarea"}

  function NameEnd(text: string, from: nat): (end: nat)
    requires from <= |text|
    ensures from <= end <= |text|
    decreases |text| - from
  {
    if from < |text| && (Letter(text[from]) || IsDigit(text[from]) || text[from] == '-') then NameEnd(text, from + 1) else from
  }

  function BlankEnd(text: string, from: nat): (end: nat)
    requires from <= |text|
    ensures from <= end <= |text|
    decreases |text| - from
  {
    if from < |text| && TagBlank(text[from]) then BlankEnd(text, from + 1) else from
  }

  /** Whether the tag ending just before `end` closes itself. */
  predicate SelfClosing(text: string, end: nat)
    requires 0 < end <= |text|
  {
    var body := StripBlankRight(text[..end - 1]);
    body != "" && body[|body| - 1] == '/'
  }

  function StripBlankRight(s: string): string {
    if s != "" && TagBlank(s[|s| - 1]) then StripBlankRight(s[..|s| - 1]) else s
  }

  /** End of a closing tag for `name` that starts exactly at `at`. */
  function ClosingTagAt(text: string, name: string, at: nat): (end: Option<nat>)
    ensures end.Some? ==> at < end.value <= |text|
  {
    if at + 2 + |name| <= |text| && text[at] == '<' && text[at + 1] == '/' && Lower(text[at + 2..at + 2 + |name|]) == name then
      var close := BlankEnd(text, at + 2 + |name|);
      if close < |text| && text[close] == '>' then Some(close + 1) else None
    else None
  }

  /** `end` is the end of the first closing tag for `name`, or of the text when there is none. */
  ghost predicate RawTextEnds(text: string, name: string, from: nat, end: nat) {
    || (end == |text| && forall p: nat :: from <= p < |text| ==> ClosingTagAt(text, name, p).None?)
    || (exists at: nat :: from <= at < end && ClosingTagAt(text, name, at) == Some(end)
          && forall p: nat :: from <= p < at ==> ClosingTagAt(text, name, p).None?)
  }

  method RawTextEnd(text: string, name: string, from: nat) returns (end: nat)
    requires from <= |text|
    ensures from <= end <= |text| && RawTextEnds(text, name, from, end)
  {
    var at := from;
    while at < |text|
      invariant from <= at <= |text| && forall p: nat :: from <= p < at ==> ClosingTagAt(text, name, p).None?
    {
      var close := ClosingTagAt(text, name, at);
      if close.Some? { return close.value; }
      at := at + 1;
    }
    return |text|;
  }

  /** The quote that is open after reading `c`. */
  function QuoteAfter(quote: Option<char>, c: char): Option<char> {
    if quote.Some? then (if c == quote.value then None else quote)
    else if c == '"' || c == '\'' then Some(c)
    else None
  }

  /** Position after the first `>` outside quotes. */
  function TagClose(text: string, cursor: nat, quote: Option<char>): (end: Option<nat>)
    requires cursor <= |text|
    ensures end.Some? ==> cursor < end.value <= |text| && text[end.value - 1] == '>'
    decreases |text| - cursor
  {
    if cursor == |text| then None
    else if quote.None? && text[cursor] == '>' then Some(cursor + 1)
    else TagClose(text, cursor + 1, QuoteAfter(quote, text[cursor]))
  }

  /** Position after the `>` that ends the tag opened at `index`, quotes respected. */
  method TagEnd(text: string, index: nat) returns (end: Option<nat>)
    requires index < |text|
    ensures end == TagClose(text, index + 1, None)
  {
    var cursor := index + 1;
    var quote: Option<char> := None;
    while cursor < |text|
      invariant index < cursor <= |text| && TagClose(text, cursor, quote) == TagClose(text, index + 1, None)
    {
      var c := text[cursor];
      if quote.Some? {
        if c == quote.value { quote := None; }
      } else if c == '"' || c == '\'' {
        quote := Some(c);
      } else if c == '>' {
        return Some(cursor + 1);
      }
      cursor := cursor + 1;
    }
    return None;
  }

  predicate OpensTag(text: string, index: nat)
    requires index < |text|
  {
    && text[index] == '<' && index + 1 < |text|
    && (Letter(text[index + 1]) || (text[index + 1] == '/' && index + 2 < |text| && Letter(text[index + 2])))
  }

  /** A stretch of the text, and whether it is emptied. */
  datatype Token = Token(start: nat, end: nat, hidden: bool)

  /** `end` is past the first `-->`, or the end of the text when there is none. */
  ghost predicate CommentEnds(text: string, from: nat, end: nat) {
    || (end == |text| && forall p: nat :: from <= p < |text| ==> !StartsAt(text, "-->", p))
    || (from + 3 <= end && StartsAt(text, "-->", end - 3) && forall p: nat :: from <= p < end - 3 ==> !StartsAt(text, "-->", p))
  }

  function TagName(text: string, start: nat): string
    requires start <= |text|
  {
    Lower(text[start..NameEnd(text, start)])
  }

  /** The tag from `start` to `close` opens an element whose content is raw text. */
  predicate OpensRawText(text: string, start: nat, close: nat)
    requires start + 1 < close <= |text|
  {
    text[start + 1] != '/' && TagName(text, start + 1) in RAW_TEXT && !SelfClosing(text, close)
  }

  /** What each token is: a comment or raw-text element, which is emptied to its end; any other tag; or one
      character. */
  ghost predicate CommentRule(text: string, t: Token) {
    && t.start < t.end <= |text|
    && if StartsAt(text, "<!--", t.start) then t.hidden && CommentEnds(text, t.start + 4, t.end)
       else if OpensTag(text, t.start) && TagClose(text, t.start + 1, None).Some? then
         var close := TagClose(text, t.start + 1, None).value;
         && t.hidden == OpensRawText(text, t.start, close)
         && (if t.hidden then RawTextEnds(text, TagName(text, t.start + 1), close, t.end) else t.end == close)
       else !t.hidden && t.end == t.start + 1
  }

  /** The tokens cover the text up to `end`, one after the other. */
  ghost predicate Tiled(text: string, tokens: seq<Token>, end: nat) {
    if tokens == [] then end == 0
    else
      var last := tokens[|tokens| - 1];
      CommentRule(text, last) && last.end == end && Tiled(text, tokens[..|tokens| - 1], last.start)
  }

  function Piece(text: string, t: Token): string
    requires t.start <= t.end <= |text|
  {
    if t.hidden then Breaks(text[t.start..t.end]) else text[t.start..t.end]
  }

  /** What the tokens leave of the text. */
  ghost function Shown(text: string, tokens: seq<Token>, end: nat): string
    requires Tiled(text, tokens, end)
  {
    if tokens == [] then ""
    else
      var last := tokens[|tokens| - 1];
      Shown(text, tokens[..|tokens| - 1], last.start) + Piece(text, last)
  }

  lemma TiledMore(text: string, tokens: seq<Token>, t: Token)
    requires Tiled(text, tokens, t.start) && CommentRule(text, t)
    ensures Tiled(text, tokens + [t], t.end)
    ensures Shown(text, tokens + [t], t.end) == Shown(text, tokens, t.start) + Piece(text, t)
  {
    assert (tokens + [t])[..|tokens|] == tokens;
  }

  // The rule leaves no choice.

  lemma CommentEndUnique(text: string, from: nat, a: nat, b: nat)
    requires CommentEnds(text, from, a) && CommentEnds(text, from, b) && a <= |text| && b <= |text|
    ensures a == b
  {
  }

  lemma RawTextEndUnique(text: string, name: string, from: nat, a: nat, b: nat)
    requires RawTextEnds(text, name, from, a) && RawTextEnds(text, name, from, b)
    ensures a == b
  {
  }

  lemma TokenUnique(text: string, t: Token, u: Token)
    requires CommentRule(text, t) && CommentRule(text, u) && t.start == u.start
    ensures t == u
  {
    if StartsAt(text, "<!--", t.start) {
      CommentEndUnique(text, t.start + 4, t.end, u.end);
    } else if t.hidden {
      var close := TagClose(text, t.start + 1, None).value;
      RawTextEndUnique(text, TagName(text, t.start + 1), close, t.end, u.end);
    }
  }

  /** Tokens follow one another from the start of the text. */
  lemma {:induction false} TiledLinks(text: string, tokens: seq<Token>, end: nat, i: nat)
    requires Tiled(text, tokens, end) && i < |tokens|
    ensures CommentRule(text, tokens[i]) && tokens[i].start == if i == 0 then 0 else tokens[i - 1].end
    ensures tokens[|tokens| - 1].end == end
    decreases |tokens|
  {
    var front, last := tokens[..|tokens| - 1], tokens[|tokens| - 1];
    if i < |tokens| - 1 {
      TiledLinks(text, front, last.start, i);
    } else if i > 0 {
      TiledLinks(text, front, last.start, i - 1);
    }
  }

  /** Token `i` obeys the rule and starts where the one before it ends. */
  ghost predicate Adjoins(rule: Token -> bool, tokens: seq<Token>, i: nat)
    requires i < |tokens|
  {
    rule(tokens[i]) && tokens[i].start == if i == 0 then 0 else tokens[i - 1].end
  }

  /** Tokens of a rule, one after the other from the start of a text of the given size to its end. */
  ghost predicate Chain(rule: Token -> bool, tokens: seq<Token>, size: nat) {
    && (forall i :: 0 <= i < |tokens| ==> Adjoins(rule, tokens, i))
    && (if tokens == [] then size == 0 else tokens[|tokens| - 1].end == size)
  }

  /** A rule that moves forward and leaves no choice. */
  ghost predicate Decides(rule: Token -> bool, size: nat) {
    && (forall t :: rule(t) ==> t.start < t.end <= size)
    && (forall t, u :: rule(t) && rule(u) && t.start == u.start ==> t == u)
  }

  lemma {:induction false} ChainsAgree(rule: Token -> bool, a: seq<Token>, b: seq<Token>, size: nat, i: nat)
    requires Decides(rule, size) && Chain(rule, a, size) && Chain(rule, b, size) && i < |a| && i < |b|
    ensures a[i] == b[i]
    decreases i
  {
    assert Adjoins(rule, a, i) && Adjoins(rule, b, i);
    if i == 0 {
    } else {
      ChainsAgree(rule, a, b, size, i - 1);
    }
  }

  lemma StartsInside(rule: Token -> bool, tokens: seq<Token>, size: nat, k: nat)
    requires Decides(rule, size) && Chain(rule, tokens, size) && k < |tokens|
    ensures tokens[k].start < size && tokens[k].start == if k == 0 then 0 else tokens[k - 1].end
  {
    assert Adjoins(rule, tokens, k);
  }

  /** A chain cannot be a proper part of another. */
  lemma NotLonger(rule: Token -> bool, a: seq<Token>, b: seq<Token>, size: nat)
    requires Decides(rule, size) && Chain(rule, a, size) && Chain(rule, b, size)
    ensures |b| <= |a|
  {
    if |a| < |b| {
      StartsInside(rule, b, size, |a|);
      if |a| > 0 { ChainsAgree(rule, a, b, size, |a| - 1); }
    }
  }

  lemma ChainUnique(rule: Token -> bool, a: seq<Token>, b: seq<Token>, size: nat)
    requires Decides(rule, size) && Chain(rule, a, size) && Chain(rule, b, size)
    ensures a == b
  {
    NotLonger(rule, a, b, size);
    NotLonger(rule, b, a, size);
    forall i | 0 <= i < |a| ensures a[i] == b[i] { ChainsAgree(rule, a, b, size, i); }
  }

  lemma TiledChain(text: string, rule: Token -> bool, tokens: seq<Token>)
    requires Tiled(text, tokens, |text|) && forall t :: rule(t) == CommentRule(text, t)
    ensures Chain(rule, tokens, |text|)
  {
    forall i | 0 <= i < |tokens| ensures Adjoins(rule, tokens, i) { TiledLinks(text, tokens, |text|, i); }
    if tokens != [] { TiledLinks(text, tokens, |text|, 0); }
  }

  lemma CommentRuleDecides(text: string, rule: Token -> bool)
    requires forall t :: rule(t) == CommentRule(text, t)
    ensures Decides(rule, |text|)
  {
    forall t, u | rule(t) && rule(u) && t.start == u.start ensures t == u { TokenUnique(text, t, u); }
  }

  /** There is one way to split a text into tokens, so the result is determined. */
  lemma TilingUnique(text: string, a: seq<Token>, b: seq<Token>)
    requires Tiled(text, a, |text|) && Tiled(text, b, |text|)
    ensures a == b
  {
    var rule := t => CommentRule(text, t);
    CommentRuleDecides(text, rule);
    TiledChain(text, rule, a);
    TiledChain(text, rule, b);
    ChainUnique(rule, a, b, |text|);
  }

  /** The next token: a comment or raw-text element, to be emptied, or a tag or character, to be kept. */
  method CommentToken(text: string, index: nat) returns (end: nat, hidden: bool)
    requires index < |text|
    ensures CommentRule(text, Token(index, end, hidden))
  {
    if StartsAt(text, "<!--", index) {
      var close := Find(text, "-->", index + 4);
      return if close.Some? then close.value + 3 else |text|, true;
    }
    if OpensTag(text, index) {
      var close := TagEnd(text, index);
      if close.Some? {
        if text[index + 1] != '/' && TagName(text, index + 1) in RAW_TEXT && !SelfClosing(text, close.value) {
          end := RawTextEnd(text, TagName(text, index + 1), close.value);
          return end, true;
        }
        return close.value, false;
      }
    }
    return index + 1, false;
  }

  method StripComments(text: string) returns (r: string, ghost tokens: seq<Token>)
    ensures Erased(text, r) && Tiled(text, tokens, |text|) && r == Shown(text, tokens, |text|)
  {
    r, tokens := "", [];
    var index := 0;
    while index < |text|
      invariant index <= |text| && Erased(text[..index], r)
      invariant Tiled(text, tokens, index) && r == Shown(text, tokens, index)
    {
      var end, hidden := CommentToken(text, index);
      TiledMore(text, tokens, Token(index, end, hidden));
      r := Hide(text, r, index, end, hidden);
      tokens := tokens + [Token(index, end, hidden)];
      index := end;
    }
    assert text[..|text|] == text;
  }

  // ---------- Code spans ----------

  function ProtectChar(c: char): char {
    match c
    case '!' => '\U{e000}' case '<' => '\U{e001}' case '>' => '\U{e002}' case '[' => '\U{e003}'
    case ']' => '\U{e004}' case '(' => '\U{e005}' case ')' => '\U{e006}' case _ => c
  }

  function RestoreChar(c: char): char {
    match c
    case '\U{e000}' => '!' case '\U{e001}' => '<' case '\U{e002}' => '>' case '\U{e003}' => '['
    case '\U{e004}' => ']' case '\U{e005}' => '(' case '\U{e006}' => ')' case _ => c
  }

  function Restored(s: string): string { Mapped(s, RestoreChar) }

  /** Only the places of a text may differ, each by protection. */
  ghost predicate ProtectedCopy(s: string, t: string) {
    |t| == |s| && forall i :: 0 <= i < |s| ==> t[i] == s[i] || t[i] == ProtectChar(s[i])
  }

  /** Protection is undone by restoration, wherever it was applied. */
  lemma RestoreProtected(s: string, t: string)
    requires ProtectedCopy(s, t)
    ensures Restored(t) == Restored(s) && (Plain(s) ==> Plain(t))
  {
    assert forall c :: RestoreChar(ProtectChar(c)) == RestoreChar(c);
  }

  /** A run of exactly `width` backticks starts at `p`. */
  ghost predicate BacktickRun(text: string, p: nat, width: nat) {
    && p + width <= |text| && (forall i :: p <= i < p + width ==> text[i] == '`')
    && (p > 0 ==> text[p - 1] != '`') && (p + width < |text| ==> text[p + width] != '`')
  }

  /** No run of exactly `width` backticks starts in between. */
  ghost predicate NoRun(text: string, from: nat, to: nat, width: nat) {
    forall p: nat :: from <= p < to ==> !BacktickRun(text, p, width)
  }

  lemma RunMatches(text: string, delimiter: string, p: nat)
    requires forall i :: 0 <= i < |delimiter| ==> delimiter[i] == '`'
    ensures StartsAt(text, delimiter, p) <==> p + |delimiter| <= |text| && forall i :: p <= i < p + |delimiter| ==> text[i] == '`'
  {
    if p + |delimiter| <= |text| {
      var found := text[p..p + |delimiter|];
      assert forall i :: 0 <= i < |delimiter| ==> found[i] == text[p + i];
      if forall i :: p <= i < p + |delimiter| ==> text[i] == '`' { assert found == delimiter; }
      if found == delimiter { assert forall i :: p <= i < p + |delimiter| ==> text[i] == found[i - p]; }
    }
  }

  /** One candidate of the search that is no run of its own: neither is anything before its end. */
  lemma NoRunUpTo(text: string, delimiter: string, from: nat, candidate: nat)
    requires delimiter != "" && (forall i :: 0 <= i < |delimiter| ==> delimiter[i] == '`') && from <= candidate
    requires StartsAt(text, delimiter, candidate) && forall p :: from <= p < candidate ==> !StartsAt(text, delimiter, p)
    ensures forall p: nat :: from <= p < candidate + |delimiter| && p != candidate ==> !BacktickRun(text, p, |delimiter|)
  {
    RunMatches(text, delimiter, candidate);
    forall p: nat | from <= p < candidate + |delimiter| && p != candidate
      ensures !BacktickRun(text, p, |delimiter|)
    {
      RunMatches(text, delimiter, p);
      assert p > candidate ==> text[p - 1] == '`';
    }
  }

  lemma NoRunAtAll(text: string, delimiter: string, from: nat)
    requires delimiter != "" && (forall i :: 0 <= i < |delimiter| ==> delimiter[i] == '`')
    requires forall p :: from <= p < |text| ==> !StartsAt(text, delimiter, p)
    ensures NoRun(text, from, |text|, |delimiter|)
  {
    forall p: nat | from <= p < |text| ensures !BacktickRun(text, p, |delimiter|) { RunMatches(text, delimiter, p); }
  }

  /** The first run of exactly `width` backticks from `from` on. */
  ghost function FirstRun(text: string, from: nat, width: nat): (at: Option<nat>)
    ensures at.Some? ==> from <= at.value < |text|
    decreases |text| - from
  {
    if from >= |text| then None
    else if BacktickRun(text, from, width) then Some(from)
    else FirstRun(text, from + 1, width)
  }

  lemma {:induction false} FirstRunFound(text: string, from: nat, width: nat, at: Option<nat>)
    requires at == FirstRun(text, from, width)
    ensures at.Some? ==> BacktickRun(text, at.value, width)
    ensures NoRun(text, from, if at.Some? then at.value else |text|, width)
    decreases |text| - from
  {
    if from >= |text| {
      assert at == None;
    } else if BacktickRun(text, from, width) {
      assert at == Some(from);
    } else {
      FirstRunFound(text, from + 1, width, at);
    }
  }

  lemma FirstRunIs(text: string, from: nat, width: nat, at: Option<nat>)
    requires 0 < width && NoRun(text, from, if at.Some? then at.value else |text|, width)
    requires at.Some? ==> from <= at.value && BacktickRun(text, at.value, width)
    ensures at == FirstRun(text, from, width)
  {
    var first := FirstRun(text, from, width);
    FirstRunFound(text, from, width, first);
    assert at.Some? ==> first.Some? && first.value <= at.value;
    assert first.Some? ==> at.Some? && at.value <= first.value;
  }

  /** The first run of the opening run's own width, if any. */
  method ClosingRun(text: string, runStart: nat, runEnd: nat) returns (at: Option<nat>)
    requires runStart < runEnd <= |text| && forall i :: runStart <= i < runEnd ==> text[i] == '`'
    ensures at.Some? ==> runEnd <= at.value && BacktickRun(text, at.value, runEnd - runStart)
    ensures NoRun(text, runEnd, if at.Some? then at.value else |text|, runEnd - runStart)
    ensures at == FirstRun(text, runEnd, runEnd - runStart)
  {
    var width := runEnd - runStart;
    var delimiter := text[runStart..runEnd];
    var cursor := runEnd;
    while cursor < |text|
      invariant runEnd <= cursor
      invariant NoRun(text, runEnd, cursor, width)
    {
      var candidate := Find(text, delimiter, cursor);
      if candidate.None? {
        NoRunAtAll(text, delimiter, cursor);
        FirstRunIs(text, runEnd, width, None);
        return None;
      }
      NoRunUpTo(text, delimiter, cursor, candidate.value);
      RunMatches(text, delimiter, candidate.value);
      var close := candidate.value + width;
      if text[candidate.value - 1] != '`' && !(close < |text| && text[close] == '`') {
        FirstRunIs(text, runEnd, width, candidate);
        return candidate;
      }
      cursor := close;
    }
    FirstRunIs(text, runEnd, width, None);
    return None;
  }

  /** The content of a code span: between a run of backticks and the first run of the same width after it. */
  ghost predicate CodeSpan(text: string, s: Span) {
    exists width: nat :: 0 < width <= s.start && ClosedBy(text, s, width)
  }

  ghost predicate ClosedBy(text: string, s: Span, width: nat) {
    && s.start <= s.end <= |text| && width <= s.start
    && (forall i :: s.start - width <= i < s.start ==> text[i] == '`')
    && BacktickRun(text, s.end, width) && NoRun(text, s.start, s.end, width)
  }

  /** Exactly the positions inside the spans are protected. */
  ghost predicate ProtectedAt(text: string, r: string, spans: seq<Span>) {
    |r| <= |text| && forall i :: 0 <= i < |r| ==> r[i] == if Covers(spans, i) then ProtectChar(text[i]) else text[i]
  }

  ghost predicate CodeSpans(text: string, spans: seq<Span>) {
    forall k :: 0 <= k < |spans| ==> CodeSpan(text, spans[k])
  }

  /** `r` is what the pass has written: exactly the contents of the code spans so far are protected. */
  ghost predicate Guarded(text: string, r: string, spans: seq<Span>) {
    ProtectedAt(text, r, spans) && forall k :: 0 <= k < |spans| ==> spans[k].end <= |r|
  }

  lemma KeepPlain(text: string, r: string, spans: seq<Span>, to: nat)
    requires Guarded(text, r, spans) && |r| <= to <= |text|
    ensures Guarded(text, r + text[|r|..to], spans)
  {
    assert forall i :: |r| <= i < to ==> !Covers(spans, i);
  }

  lemma ProtectSpan(text: string, r: string, spans: seq<Span>, to: nat)
    requires Guarded(text, r, spans) && |r| <= to <= |text|
    ensures Guarded(text, r + Mapped(text[|r|..to], ProtectChar), spans + [Span(|r|, to)])
  {
    var next := r + Mapped(text[|r|..to], ProtectChar);
    forall i | 0 <= i < |next|
      ensures next[i] == if Covers(spans + [Span(|r|, to)], i) then ProtectChar(text[i]) else text[i]
    {
      CoversAppend(spans, Span(|r|, to), i);
    }
  }

  /** The code spans `before` the cursor, which is outside any, and those met from there on. */
  ghost function SpansFrom(text: string, cursor: nat, before: seq<Span>): seq<Span>
    decreases |text| - cursor, 1
  {
    if cursor >= |text| then before
    else if text[cursor] != '`' then SpansFrom(text, cursor + 1, before)
    else SpansAtRun(text, RunStop(text, cursor, '`'), RunStop(text, cursor, '`') - cursor, before)
  }

  /** The same after a run of `width` backticks that ends at `end`. */
  ghost function SpansAtRun(text: string, end: nat, width: nat, before: seq<Span>): seq<Span>
    decreases |text| - end, 2
  {
    var close := FirstRun(text, end, width);
    if close.Some? then SpansFrom(text, close.value + width, before + [Span(end, close.value)])
    else SpansFrom(text, end, before)
  }

  lemma {:induction false} RunStopped(text: string, from: nat, marker: char)
    requires from <= |text|
    ensures forall i :: from <= i < RunStop(text, from, marker) ==> text[i] == marker
    decreases |text| - from
  {
    if from < |text| && text[from] == marker {
      RunStopped(text, from + 1, marker);
    } else {
      assert RunStop(text, from, marker) == from;
    }
  }

  lemma SpanCloses(text: string, start: nat, runEnd: nat, close: Option<nat>)
    requires start < |text| && text[start] == '`' && runEnd == RunStop(text, start, '`')
    requires close == FirstRun(text, runEnd, runEnd - start)
    ensures close.Some? ==> CodeSpan(text, Span(runEnd, close.value))
  {
    RunStopped(text, start, '`');
    FirstRunFound(text, runEnd, runEnd - start, close);
    if close.Some? { assert ClosedBy(text, Span(runEnd, close.value), runEnd - start); }
  }

  /** Each span met is the content of a code span. */
  lemma {:induction false} SpansAreCodeSpans(text: string, cursor: nat, before: seq<Span>)
    requires CodeSpans(text, before)
    ensures CodeSpans(text, SpansFrom(text, cursor, before))
    decreases |text| - cursor
  {
    if cursor >= |text| {
      assert SpansFrom(text, cursor, before) == before;
    } else if text[cursor] != '`' {
      SpansAreCodeSpans(text, cursor + 1, before);
    } else {
      var runEnd := RunStop(text, cursor, '`');
      var close := FirstRun(text, runEnd, runEnd - cursor);
      SpansStep(text, cursor, runEnd, close, before);
      SpanCloses(text, cursor, runEnd, close);
      SpansAreCodeSpans(text, Resumes(cursor, runEnd, close), WithSpan(before, runEnd, close));
    }
  }

  /** Protects the content of every code span met from left to right, and nothing else. */
  method ProtectCodeSpans(text: string) returns (r: string)
    ensures ProtectedCopy(text, r) && ProtectedAt(text, r, SpansFrom(text, 0, []))
    ensures CodeSpans(text, SpansFrom(text, 0, []))
  {
    SpansAreCodeSpans(text, 0, []);
    r := "";
    ghost var spans: seq<Span> := [];
    var index := 0;
    while index < |text|
      invariant index == |r| <= |text| && Guarded(text, r, spans)
      invariant SpansFrom(text, index, spans) == SpansFrom(text, 0, [])
    {
      if text[index] != '`' {
        KeepPlain(text, r, spans, index + 1);
        r := r + text[index..index + 1];
        index := index + 1;
      } else {
        r, spans := ProtectRun(text, r, spans);
        index := |r|;
      }
    }
  }

  /** Where reading goes on after a run that ends at `runEnd` and is closed at `close` or not at all. */
  function Resumes(start: nat, runEnd: nat, close: Option<nat>): nat
    requires start <= runEnd
  {
    if close.Some? then close.value + (runEnd - start) else runEnd
  }

  function WithSpan(before: seq<Span>, runEnd: nat, close: Option<nat>): seq<Span> {
    if close.Some? then before + [Span(runEnd, close.value)] else before
  }

  /** What is still to come after a run, with or without the span it opens. */
  lemma SpansStep(text: string, start: nat, runEnd: nat, close: Option<nat>, before: seq<Span>)
    requires start < |text| && text[start] == '`' && runEnd == RunStop(text, start, '`')
    requires close == FirstRun(text, runEnd, runEnd - start)
    ensures SpansFrom(text, start, before) == SpansFrom(text, Resumes(start, runEnd, close), WithSpan(before, runEnd, close))
  {
    assert SpansFrom(text, start, before) == SpansAtRun(text, runEnd, runEnd - start, before);
  }

  /** The run at `start`, its closing run, and the spans met from there on. */
  method ReadRun(text: string, start: nat, ghost before: seq<Span>) returns (runEnd: nat, close: Option<nat>)
    requires start < |text| && text[start] == '`'
    ensures start < runEnd <= |text| && forall i :: start <= i < runEnd ==> text[i] == '`'
    ensures close.Some? ==> runEnd <= close.value && BacktickRun(text, close.value, runEnd - start)
    ensures SpansFrom(text, start, before) == SpansFrom(text, Resumes(start, runEnd, close), WithSpan(before, runEnd, close))
  {
    runEnd := RunEnd(text, start, '`');
    close := ClosingRun(text, start, runEnd);
    SpansStep(text, start, runEnd, close, before);
  }

  /** One run of backticks, and the code span it opens. */
  method ProtectRun(text: string, before: string, ghost spansBefore: seq<Span>) returns (r: string, ghost spans: seq<Span>)
    requires |before| < |text| && text[|before|] == '`' && Guarded(text, before, spansBefore)
    ensures |before| < |r| <= |text| && Guarded(text, r, spans)
    ensures SpansFrom(text, |r|, spans) == SpansFrom(text, |before|, spansBefore)
  {
    var runEnd, close := ReadRun(text, |before|, spansBefore);
    r, spans := ProtectClosed(text, before, spansBefore, runEnd, close);
  }

  /** The opening run, and what follows when its closing run is known. */
  method ProtectClosed(text: string, before: string, ghost spansBefore: seq<Span>, runEnd: nat, close: Option<nat>)
    returns (r: string, ghost spans: seq<Span>)
    requires |before| < runEnd <= |text| && Guarded(text, before, spansBefore)
    requires forall i :: |before| <= i < runEnd ==> text[i] == '`'
    requires close.Some? ==> runEnd <= close.value && BacktickRun(text, close.value, runEnd - |before|)
    ensures |before| < |r| == Resumes(|before|, runEnd, close) <= |text| && Guarded(text, r, spans)
    ensures spans == WithSpan(spansBefore, runEnd, close)
  {
    var start := |before|;
    KeepPlain(text, before, spansBefore, runEnd);
    var withRun := before + text[start..runEnd];
    if close.None? { return withRun, spansBefore; }
    r, spans := ProtectContent(text, withRun, spansBefore, start, close.value);
  }

  /** The content and the closing run, written as a copy of the opening run. */
  method ProtectContent(text: string, before: string, ghost spansBefore: seq<Span>, start: nat, close: nat)
    returns (r: string, ghost spans: seq<Span>)
    requires start < |before| <= close && Guarded(text, before, spansBefore)
    requires |before| <= |text| && forall i :: start <= i < |before| ==> text[i] == '`'
    requires BacktickRun(text, close, |before| - start)
    ensures |r| == close + (|before| - start) <= |text| && Guarded(text, r, spans)
    ensures spans == spansBefore + [Span(|before|, close)]
  {
    var runEnd := |before|;
    ProtectSpan(text, before, spansBefore, close);
    r, spans := before + Mapped(text[runEnd..close], ProtectChar), spansBefore + [Span(runEnd, close)];
    SameRun(text, start, runEnd, close);
    KeepPlain(text, r, spans, close + (runEnd - start));
    r := r + text[start..runEnd];
  }

  lemma SameRun(text: string, start: nat, runEnd: nat, close: nat)
    requires start < runEnd <= |text| && (forall i :: start <= i < runEnd ==> text[i] == '`')
    requires BacktickRun(text, close, runEnd - start)
    ensures text[start..runEnd] == text[close..close + (runEnd - start)]
  {
  }

  // ---------- Inline links ----------

  /** Past the label opened at `open`; the depth left open when the text ends first. */
  method ScanLabel(text: string, open: nat) returns (cursor: nat, depth: nat)
    requires open < |text|
    ensures open < cursor <= |text| && (depth == 0 ==> open + 1 < cursor)
  {
    cursor, depth := open + 1, 1;
    while cursor < |text| && depth > 0
      invariant open < cursor <= |text| && (depth == 0 ==> open + 1 < cursor)
    {
      if text[cursor] == '\\' && cursor + 1 < |text| {
        cursor := cursor + 2;
      } else {
        if text[cursor] == '[' { depth := depth + 1; } else if text[cursor] == ']' { depth := depth - 1; }
        cursor := cursor + 1;
      }
    }
  }

  /** Past the `]` that ends a reference label. */
  method ScanReference(text: string, from: nat) returns (end: Option<nat>)
    requires from <= |text|
    ensures end.Some? ==> from < end.value <= |text| && text[end.value - 1] == ']'
  {
    var cursor := from;
    while cursor < |text|
      invariant from <= cursor <= |text|
    {
      if text[cursor] == '\\' && cursor + 1 < |text| {
        cursor := cursor + 2;
      } else if text[cursor] == ']' {
        return Some(cursor + 1);
      } else {
        cursor := cursor + 1;
      }
    }
    return None;
  }

  /** Past the target opened at `open`, quotes, angle brackets and nesting respected. */
  method ScanTarget(text: string, open: nat) returns (cursor: nat, depth: nat)
    requires open < |text|
    ensures open < cursor <= |text| && (depth == 0 ==> open + 1 < cursor)
  {
    cursor, depth := open + 1, 1;
    var quote: Option<char> := None;
    var angle := false;
    while cursor < |text| && depth > 0
      invariant open < cursor <= |text| && (depth == 0 ==> open + 1 < cursor)
      decreases |text| - cursor
    {
      var c := text[cursor];
      if c == '\\' && cursor + 1 < |text| {
        cursor := cursor + 2;
      } else {
        if quote.Some? {
          if c == quote.value { quote := None; }
        } else if angle {
          if c == '>' { angle := false; }
        } else if c == '<' {
          angle := true;
        } else if (c == '"' || c == '\'') && (cursor == open + 1 || IsSpace(text[cursor - 1])) {
          quote := Some(c);
        } else if c == '(' {
          depth := depth + 1;
        } else if c == ')' {
          depth := depth - 1;
        }
        cursor := cursor + 1;
      }
    }
  }

  /** A link: its label without nested metadata, and the line breaks of what follows it. */
  method Unlinked(text: string, index: nat, open: nat, close: nat, end: nat, known: string -> bool, valid: string -> bool)
    returns (piece: string)
    requires index <= open <= close < end <= |text| && (index < open ==> open == index + 1 && text[index] == '!')
    ensures Erased(text[index..end], piece)
    decreases |text|, 0
  {
    var shown := StripLinks(text[open..close], known, valid);
    piece := shown + Breaks(text[close..end]);
    ErasedToBreaks(text[close..end]);
    TwoStretches(text, open, close, end, shown, Breaks(text[close..end]));
    if index < open {
      DropFirst(text[index], text[open..end], piece);
      assert text[index..end] == [text[index]] + text[open..end];
    }
  }

  lemma TwoStretches(text: string, from: nat, mid: nat, to: nat, a: string, b: string)
    requires from <= mid <= to <= |text| && Erased(text[from..mid], a) && Erased(text[mid..to], b)
    ensures Erased(text[from..to], a + b)
  {
    ErasedConcat(text[from..mid], a, text[mid..to], b);
    assert text[from..to] == text[from..mid] + text[mid..to];
  }

  /** The next token: a link, a bracketed stretch that is none, or one character. */
  method LinkToken(text: string, index: nat, known: string -> bool, valid: string -> bool) returns (end: nat, piece: string)
    requires index < |text|
    ensures index < end <= |text| && Erased(text[index..end], piece)
    decreases |text|, 1
  {
    end, piece := index + 1, text[index..index + 1];
    ErasedSelf(piece);
    var open := if text[index] == '!' && index + 1 < |text| && text[index + 1] == '[' then index + 1 else index;
    if text[open] != '[' { return; }
    var cursor, depth := ScanLabel(text, open);
    if depth == 0 && cursor < |text| && text[cursor] == '[' {
      var close := ScanReference(text, cursor + 1);
      if close.Some? {
        end := close.value;
        var inner := text[cursor + 1..end - 1];
        if !known(if inner == "" then text[open + 1..cursor - 1] else inner) {
          piece := text[index..end];
          ErasedSelf(piece);
        } else {
          piece := Unlinked(text, index, open, cursor, end, known, valid);
        }
        return;
      }
    }
    if depth != 0 || cursor >= |text| || text[cursor] != '(' { return; }
    var target, nesting := ScanTarget(text, cursor);
    if nesting != 0 { return; }
    end := target;
    if !valid(text[cursor + 1..end - 1]) {
      piece := text[index..end];
      ErasedSelf(piece);
    } else {
      piece := Unlinked(text, index, open, cursor, end, known, valid);
    }
  }

  /** Keeps link labels and drops link metadata. */
  method StripLinks(text: string, known: string -> bool, valid: string -> bool) returns (r: string)
    ensures Erased(text, r)
    decreases |text|, 2
  {
    r := "";
    var index := 0;
    while index < |text|
      invariant index <= |text| && Erased(text[..index], r)
    {
      var end, piece := LinkToken(text, index, known, valid);
      Stretch(text, r, index, end, piece);
      r := r + piece;
      index := end;
    }
    assert text[..|text|] == text;
  }

  // ---------- The composition ----------

  /** The decisions of the regular expressions and block classifiers, for any text they are shown. */
  datatype Recognisers = Recognisers(
    fenced: (string, nat) -> bool,
    rawPatterns: seq<Search>,
    inert: (string, nat) -> bool,
    containers: Search,
    deletions: (string, nat) -> Option<Tag>,
    flanking: (string, nat, nat, bool) -> (bool, bool),
    labels: (string, nat) -> LinkScope,
    tags: Search,
    quoted: (string, nat) -> bool,
    references: (string, nat) -> LinePlan,
    known: string -> bool,
    valid: string -> bool)

  /** A stage of the pipeline that is still line for line the source, up to protected code spans. */
  ghost predicate Follows(text: string, stage: string) { Plain(stage) && Erased(Restored(text), Restored(stage)) }

  lemma FollowsOn(text: string, stage: string, next: string)
    requires Follows(text, stage) && Erased(stage, next)
    ensures Follows(text, next)
  {
    PlainErased(stage, next);
    ErasedMapped(stage, next, RestoreChar);
    ErasedTransitive(Restored(text), Restored(stage), Restored(next));
  }

  /** Fences, code-span protection, comments and raw patterns. */
  method StripRawText(text: string, x: Recognisers) returns (r: string)
    ensures Plain(text) ==> Follows(text, r)
  {
    var unfenced := BlankLines(text, x.fenced);
    var guarded := ProtectCodeSpans(unfenced);
    ghost var tokens;
    r, tokens := StripComments(guarded);
    if Plain(text) {
      ErasedSelf(Restored(text));
      FollowsOn(text, text, unfenced);
      RestoreProtected(unfenced, guarded);
      FollowsOn(text, guarded, r);
    }
    for i := 0 to |x.rawPatterns|
      invariant Plain(text) ==> Follows(text, r)
    {
      var next := EmptyMatches(r, x.rawPatterns[i]);
      if Plain(text) { FollowsOn(text, r, next); }
      r := next;
    }
  }

  /** Inert blocks, hidden containers, deleted content and remaining tags. */
  method StripHtml(ghost text: string, stage: string, x: Recognisers) returns (r: string)
    ensures Follows(text, stage) ==> Follows(text, r)
  {
    var live := BlankLines(stage, x.inert);
    var shown := EmptyMatches(live, x.containers);
    var kept, _ := StripDeletedContent(shown, x.deletions, (i: nat, j: nat, b: bool) => x.flanking(shown, i, j, b),
                                       (i: nat) => x.labels(shown, i));
    r := EmptyMatches(kept, x.tags);
    if Follows(text, stage) {
      FollowsOn(text, stage, live);
      FollowsOn(text, live, shown);
      FollowsOn(text, shown, kept);
      FollowsOn(text, kept, r);
    }
  }

  /** Quotations, reference definitions, link metadata and fences that only now appear. */
  method StripBlocks(ghost text: string, stage: string, x: Recognisers) returns (r: string)
    ensures Follows(text, stage) ==> Follows(text, r)
  {
    var unquoted := BlankLines(stage, x.quoted);
    var prose := BlankReferences(unquoted, x.references);
    var plain := StripLinks(prose, x.known, x.valid);
    r := BlankLines(plain, x.fenced);
    if Follows(text, stage) {
      FollowsOn(text, stage, unquoted);
      FollowsOn(text, unquoted, prose);
      FollowsOn(text, prose, plain);
      FollowsOn(text, plain, r);
    }
  }

  /** The whole pipeline: nothing is moved to another line. */
  method StripNonoperative(text: string, x: Recognisers) returns (r: string)
    ensures Plain(text) ==> Erased(Restored(text), r)
  {
    var raw := StripRawText(text, x);
    var html := StripHtml(text, raw, x);
    var blocks := StripBlocks(text, html, x);
    r := Restored(blocks);
  }

  /** The index shared by operative and source lines: always in range, and always the same line, with the
      stand-ins of protected characters read as those characters. */
  lemma OperativeLine(text: string, operative: string, i: nat)
    requires Plain(text) && Erased(Restored(text), operative) && i < |Lines(operative)|
    ensures i < |Lines(text)| && Erased(Restored(Lines(text)[i]), Lines(operative)[i])
  {
    SameLine(Restored(text), operative, i);
    LinesMapped(text, RestoreChar);
  }

  /** In text without stand-ins, every operative line keeps characters of its own source line only. */
  lemma OperativeLineOfUnmarked(text: string, operative: string, i: nat)
    requires Plain(text) && Erased(Restored(text), operative) && i < |Lines(operative)|
    requires forall k :: 0 <= k < |text| ==> RestoreChar(text[k]) == text[k]
    ensures i < |Lines(text)| && Erased(Lines(text)[i], Lines(operative)[i])
  {
    assert Restored(text) == text;
    SameLine(text, operative, i);
  }
}
