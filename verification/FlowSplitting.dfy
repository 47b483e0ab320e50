/** What the flow scanner accepts, for every text: where it splits, and that it splits nowhere else. */
module FlowSplitting {
  import opened PythonText
  import opened FlowMapping

  // ---------- Splitting at commas ----------

  /** The text after the first piece: a comma and the other pieces. */
  function Tail(pieces: seq<string>): string {
    if |pieces| <= 1 then "" else "," + Join(pieces[1..], ",")
  }

  lemma JoinTail(pieces: seq<string>)
    requires pieces != []
    ensures Join(pieces, ",") == pieces[0] + Tail(pieces)
  {
    if |pieces| > 1 { assert pieces[0] + "," + Join(pieces[1..], ",") == pieces[0] + ("," + Join(pieces[1..], ",")); }
  }

  /** Pieces of a text read from mode `m`: every one ends outside quotes and brackets, and has no comma there. */
  ghost predicate Pieces(pieces: seq<string>, m: Mode) {
    && pieces != [] && Clears(pieces[0], Tail(pieces), m, PLAIN, ',')
    && (|pieces| > 1 ==> Pieces(pieces[1..], PLAIN))
  }

  function Stripped(pieces: seq<string>): (r: seq<string>)
    ensures |r| == |pieces| && forall i :: 0 <= i < |r| ==> r[i] == Strip(pieces[i])
  {
    seq(|pieces|, i requires 0 <= i < |pieces| => Strip(pieces[i]))
  }

  predicate Filled(pieces: seq<string>) { forall i :: 0 <= i < |pieces| ==> Strip(pieces[i]) != "" }

  /** The items that pieces stand for after `parts`: blank pieces are refused, except for a text that is blank
      altogether. */
  ghost predicate Yields(parts: seq<string>, pieces: seq<string>, r: seq<string>) {
    || (Filled(pieces) && r == parts + Stripped(pieces))
    || (parts == [] && |pieces| == 1 && Strip(pieces[0]) == "" && r == [])
  }

  /** The pieces with what was read before the first of them. */
  function Begun(part: string, pieces: seq<string>): (r: seq<string>)
    requires pieces != []
    ensures |r| == |pieces|
  {
    [part + pieces[0]] + pieces[1..]
  }

  lemma StrippedFront(part: string, pieces: seq<string>)
    ensures Stripped([part] + pieces) == [Strip(part)] + Stripped(pieces)
  {
    var a, b := Stripped([part] + pieces), [Strip(part)] + Stripped(pieces);
    forall i | 0 <= i < |a| ensures a[i] == b[i] { assert ([part] + pieces)[i] == if i == 0 then part else pieces[i - 1]; }
  }

  lemma FilledFront(part: string, pieces: seq<string>)
    requires Strip(part) != "" && Filled(pieces)
    ensures Filled([part] + pieces)
  {
    var all := [part] + pieces;
    forall i | 0 <= i < |all| ensures Strip(all[i]) != "" { assert all[i] == if i == 0 then part else pieces[i - 1]; }
  }

  lemma YieldsNext(parts: seq<string>, part: string, pieces: seq<string>, r: seq<string>)
    requires pieces != [] && Strip(part) != "" && Yields(parts + [Strip(part)], pieces, r)
    ensures Yields(parts, [part] + pieces, r)
  {
    StrippedFront(part, pieces);
    FilledFront(part, pieces);
    Associate(parts, Strip(part), Stripped(pieces));
  }

  lemma Associate(parts: seq<string>, x: string, rest: seq<string>)
    ensures parts + ([x] + rest) == parts + [x] + rest
  {
  }

  /** A comma outside quotes and brackets ends a piece. */
  lemma PiecesAtComma(rest: string, pieces: seq<string>)
    requires rest != "" && rest[0] == ',' && Pieces(pieces, PLAIN) && Join(pieces, ",") == rest[1..]
    ensures Pieces([""] + pieces, PLAIN) && Join([""] + pieces, ",") == rest
  {
    var more := [""] + pieces;
    assert more[1..] == pieces;
    JoinTail(more);
    assert rest == "," + rest[1..];
  }

  /** A step followed by text that clears is text that clears. */
  lemma StepThenClears(rest: string, m: Mode, front: string, inner: string, t: string, post: string, n: Mode, stop: char)
    requires rest != "" && !(m == PLAIN && rest[0] == stop) && Advance(rest, m).Take?
    requires front == rest[..Advance(rest, m).width] && t == front + inner && rest == t + post
    requires Clears(inner, post, Advance(rest, m).mode, n, stop)
    ensures Clears(t, post, m, n, stop)
  {
    assert t[|front|..] == inner && t[0] == rest[0];
    ClearsStep(t, post, m, n, stop);
  }

  lemma BegunTail(front: string, pieces: seq<string>)
    requires pieces != []
    ensures Begun(front, pieces)[0] == front + pieces[0] && Begun(front, pieces)[1..] == pieces[1..]
    ensures Tail(Begun(front, pieces)) == Tail(pieces)
  {
  }

  lemma BegunPieces(front: string, pieces: seq<string>, m: Mode, n: Mode)
    requires Pieces(pieces, n) && Clears(front + pieces[0], Tail(pieces), m, PLAIN, ',')
    ensures Pieces(Begun(front, pieces), m)
  {
    BegunTail(front, pieces);
  }

  lemma BegunJoin(front: string, pieces: seq<string>, rest: string)
    requires pieces != [] && Join(pieces, ",") == rest
    ensures Join(Begun(front, pieces), ",") == front + rest && front + rest == (front + pieces[0]) + Tail(pieces)
  {
    JoinTail(pieces);
    BegunTail(front, pieces);
    JoinTail(Begun(front, pieces));
  }

  /** Any other step is taken by the piece being read. */
  lemma PiecesAtStep(rest: string, m: Mode, pieces: seq<string>, front: string, later: string)
    requires rest != "" && !(m == PLAIN && rest[0] == ',') && Advance(rest, m).Take?
    requires front == rest[..Advance(rest, m).width] && later == rest[Advance(rest, m).width..]
    requires Pieces(pieces, Advance(rest, m).mode) && Join(pieces, ",") == later
    ensures Pieces(Begun(front, pieces), m) && Join(Begun(front, pieces), ",") == rest
  {
    assert rest == front + later;
    BegunJoin(front, pieces, later);
    StepThenClears(rest, m, front, pieces[0], front + pieces[0], Tail(pieces), PLAIN, ',');
    BegunPieces(front, pieces, m, Advance(rest, m).mode);
  }

  lemma BegunTwice(part: string, front: string, pieces: seq<string>)
    requires pieces != []
    ensures Begun(part, Begun(front, pieces)) == Begun(part + front, pieces)
  {
    assert part + (front + pieces[0]) == (part + front) + pieces[0];
  }

  /** Whatever is accepted is cut at its commas outside quotes and brackets, and nowhere else. */
  lemma {:induction false} AcceptedSplits(rest: string, m: Mode, part: string, parts: seq<string>) returns (pieces: seq<string>)
    requires Parts(rest, m, part, parts).Some?
    ensures Pieces(pieces, m) && Join(pieces, ",") == rest
    ensures Yields(parts, Begun(part, pieces), Parts(rest, m, part, parts).value)
    decreases |rest|
  {
    if rest == "" {
      pieces := [""];
      assert part + "" == part && Begun(part, pieces) == [part];
      assert Stripped([part]) == [Strip(part)];
    } else if m == PLAIN && rest[0] == ',' {
      var later := AcceptedSplits(rest[1..], m, "", parts + [Strip(part)]);
      PiecesAtComma(rest, later);
      pieces := [""] + later;
      BegunEmpty(later);
      assert part + "" == part;
      assert Begun(part, pieces) == [part] + later;
      YieldsNext(parts, part, later, Parts(rest, m, part, parts).value);
    } else {
      var s := Advance(rest, m);
      var front := rest[..s.width];
      ScanStep(rest, m, part, parts);
      var later := AcceptedSplits(rest[s.width..], s.mode, part + front, parts);
      PiecesAtStep(rest, m, later, front, rest[s.width..]);
      pieces := Begun(front, later);
      BegunTwice(part, front, later);
    }
  }

  /** Filled pieces are found again. */
  lemma {:induction false} FilledPiecesFound(pieces: seq<string>, parts: seq<string>)
    requires Pieces(pieces, PLAIN) && Filled(pieces)
    ensures Parts(Join(pieces, ","), PLAIN, "", parts) == Some(parts + Stripped(pieces))
    decreases |pieces|
  {
    var t := pieces[0];
    PieceRead(t, Tail(pieces), Join(pieces, ","), parts, pieces);
    if |pieces| == 1 {
      PartsAtEnd(t, parts);
      assert Stripped(pieces) == [Strip(t)];
    } else {
      var rest := pieces[1..];
      PartsAtComma(Join(rest, ","), t, parts);
      FilledPiecesFound(rest, parts + [Strip(t)]);
      assert pieces == [t] + rest;
      StrippedFront(t, rest);
      Associate(parts, Strip(t), Stripped(rest));
    }
  }

  lemma PieceRead(t: string, tail: string, whole: string, parts: seq<string>, pieces: seq<string>)
    requires pieces != [] && t == pieces[0] && tail == Tail(pieces) && whole == Join(pieces, ",")
    requires Clears(t, tail, PLAIN, PLAIN, ',')
    ensures Parts(whole, PLAIN, "", parts) == Parts(tail, PLAIN, t, parts)
  {
    JoinTail(pieces);
    ClearsParts(t, tail, PLAIN, PLAIN, "", parts);
    assert "" + t == t;
  }

  /** The text is pieces joined by commas, each balanced and unquoted, that stand for `r`. */
  ghost predicate CutInto(value: string, pieces: seq<string>, r: seq<string>) {
    Pieces(pieces, PLAIN) && Join(pieces, ",") == value && Yields([], pieces, r)
  }

  lemma AcceptedCut(value: string, r: seq<string>) returns (pieces: seq<string>)
    requires Parts(value, PLAIN, "", []) == Some(r)
    ensures CutInto(value, pieces, r)
  {
    pieces := AcceptedSplits(value, PLAIN, "", []);
    BegunEmpty(pieces);
  }

  lemma BegunEmpty(pieces: seq<string>)
    requires pieces != []
    ensures Begun("", pieces) == pieces
  {
    assert "" + pieces[0] == pieces[0];
  }

  lemma CutAccepted(value: string, pieces: seq<string>, r: seq<string>)
    requires CutInto(value, pieces, r)
    ensures Parts(value, PLAIN, "", []) == Some(r)
  {
    if Filled(pieces) {
      FilledPiecesFound(pieces, []);
      assert [] + Stripped(pieces) == Stripped(pieces);
    } else {
      BlankFound(pieces[0]);
    }
  }

  /** What the splitter accepts, exactly: a text cut into pieces, with their stripped contents as the result, where
      no piece is blank unless the whole text is. */
  lemma SplitsExactly(value: string, r: seq<string>)
    ensures Parts(value, PLAIN, "", []) == Some(r) <==> exists pieces :: CutInto(value, pieces, r)
  {
    if Parts(value, PLAIN, "", []) == Some(r) {
      var pieces := AcceptedCut(value, r);
    }
    forall pieces | CutInto(value, pieces, r) ensures Parts(value, PLAIN, "", []) == Some(r) { CutAccepted(value, pieces, r); }
  }

  lemma BlankFound(t: string)
    requires Clears(t, "", PLAIN, PLAIN, ',') && Strip(t) == ""
    ensures Parts(t, PLAIN, "", []) == Some([])
  {
    ClearsParts(t, "", PLAIN, PLAIN, "", []);
    assert t + "" == t && "" + t == t;
  }

  // ---------- The colon ----------

  /** The colon at `k` is the first one outside quotes and brackets, and `before` and the text up to it are not
      blank together. */
  ghost predicate ColonAt(before: string, rest: string, m: Mode, k: nat) {
    k < |rest| && rest[k] == ':' && Clears(rest[..k], rest[k..], m, PLAIN, ':') && Strip(before + rest[..k]) != ""
  }

  function PairAt(before: string, rest: string, k: nat): Pair
    requires k < |rest|
  {
    Pair(Strip(before + rest[..k]), Strip(rest[k + 1..]))
  }

  lemma ColonLater(before: string, rest: string, m: Mode, front: string, later: string, k: nat)
    requires rest != "" && !(m == PLAIN && rest[0] == ':') && Advance(rest, m).Take?
    requires front == rest[..Advance(rest, m).width] && later == rest[Advance(rest, m).width..]
    requires ColonAt(before + front, later, Advance(rest, m).mode, k)
    ensures ColonAt(before, rest, m, |front| + k) && PairAt(before, rest, |front| + k) == PairAt(before + front, later, k)
  {
    LaterSlices(rest, front, later, k);
    Regrouping(before, front, later[..k]);
    StepThenClears(rest, m, front, later[..k], rest[..|front| + k], rest[|front| + k..], PLAIN, ':');
  }

  lemma LaterSlices(rest: string, front: string, later: string, k: nat)
    requires |front| <= |rest| && front == rest[..|front|] && later == rest[|front|..] && k < |later|
    ensures |front| + k < |rest| && rest[|front| + k] == later[k]
    ensures rest[..|front| + k] == front + later[..k] && rest[|front| + k..] == later[k..]
    ensures rest[|front| + k + 1..] == later[k + 1..] && rest == rest[..|front| + k] + rest[|front| + k..]
  {
  }

  lemma Regrouping(a: string, b: string, c: string)
    ensures a + (b + c) == a + b + c
  {
  }

  lemma ColonNow(before: string, rest: string)
    requires rest != "" && rest[0] == ':' && Strip(before) != ""
    ensures ColonAt(before, rest, PLAIN, 0) && PairAt(before, rest, 0) == Pair(Strip(before), Strip(rest[1..]))
  {
    assert rest[..0] == "" && before + "" == before;
  }

  /** Unless it stands at a colon, an accepted scan takes a step and goes on. */
  lemma ColonAhead(before: string, rest: string, m: Mode) returns (front: string, later: string, next: Mode)
    requires KeyValue(before, rest, m).Some? && rest != "" && !(m == PLAIN && rest[0] == ':')
    ensures Advance(rest, m).Take? && next == Advance(rest, m).mode
    ensures front == rest[..Advance(rest, m).width] && later == rest[Advance(rest, m).width..] && |later| < |rest|
    ensures KeyValue(before, rest, m) == KeyValue(before + front, later, next)
  {
    var s := Advance(rest, m);
    front, later, next := rest[..s.width], rest[s.width..], s.mode;
    ScanStep(rest, m, before, []);
  }

  lemma {:induction false} ColonFound(before: string, rest: string, m: Mode) returns (k: nat)
    requires KeyValue(before, rest, m).Some?
    ensures ColonAt(before, rest, m, k) && KeyValue(before, rest, m).value == PairAt(before, rest, k)
    decreases |rest|
  {
    if m == PLAIN && rest[0] == ':' {
      k := 0;
      ColonNow(before, rest);
    } else {
      var front, later, next := ColonAhead(before, rest, m);
      k := ColonFound(before + front, later, next);
      ColonLater(before, rest, m, front, later, k);
      k := |front| + k;
    }
  }

  lemma ColonRead(item: string, key: string, rest: string, k: nat)
    requires ColonAt("", item, PLAIN, k) && key == item[..k] && rest == item[k + 1..]
    ensures KeyValue("", item, PLAIN) == Some(Pair(Strip(key), Strip(rest)))
  {
    assert item == key + (":" + rest) && item[k..] == ":" + rest && "" + key == key;
    ClearsKeyValue("", key, ":" + rest, PLAIN, PLAIN);
    KeyValueAtColon(key, rest);
  }

  /** What the key splitter accepts, exactly: it cuts at the first colon outside quotes and brackets. */
  lemma ColonExactly(item: string, r: Pair)
    ensures KeyValue("", item, PLAIN) == Some(r) <==> exists k: nat :: ColonAt("", item, PLAIN, k) && r == PairAt("", item, k)
  {
    if KeyValue("", item, PLAIN) == Some(r) {
      var k := ColonFound("", item, PLAIN);
    }
    forall k: nat | ColonAt("", item, PLAIN, k) && r == PairAt("", item, k)
      ensures KeyValue("", item, PLAIN) == Some(r)
    {
      ColonRead(item, item[..k], item[k + 1..], k);
      assert "" + item[..k] == item[..k];
    }
  }
}
