/** What it means for a pass to delete text without disturbing line numbers. */
module ErasedText {
  import opened PythonText

  /** `t` is `s` with some characters deleted, but no newline. */
  ghost predicate Erased(s: string, t: string) {
    if s == "" then t == ""
    else
      || (t != "" && t[|t| - 1] == s[|s| - 1] && Erased(s[..|s| - 1], t[..|t| - 1]))
      || (s[|s| - 1] != '\n' && Erased(s[..|s| - 1], t))
  }

  lemma KeepLast(s: string, t: string, c: char)
    requires Erased(s, t)
    ensures Erased(s + [c], t + [c])
  {
    assert (s + [c])[..|s|] == s && (t + [c])[..|t|] == t;
  }

  lemma DropLast(s: string, t: string, c: char)
    requires Erased(s, t) && c != '\n'
    ensures Erased(s + [c], t)
  {
    assert (s + [c])[..|s|] == s;
  }

  lemma {:induction false} ErasedSelf(s: string)
    ensures Erased(s, s)
  {
    if s == "" {
    } else {
      ErasedSelf(s[..|s| - 1]);
    }
  }

  lemma {:induction false} ErasedConcat(a: string, b: string, c: string, d: string)
    requires Erased(a, b) && Erased(c, d)
    ensures Erased(a + c, b + d)
    decreases |c|
  {
    if c == "" {
      assert a + c == a && b + d == b;
    } else {
      var last, front := c[|c| - 1], c[..|c| - 1];
      assert a + c == (a + front) + [last];
      if d != "" && d[|d| - 1] == last && Erased(front, d[..|d| - 1]) {
        ErasedConcat(a, b, front, d[..|d| - 1]);
        KeepLast(a + front, b + d[..|d| - 1], last);
        assert b + d == (b + d[..|d| - 1]) + [last];
      } else {
        ErasedConcat(a, b, front, d);
        DropLast(a + front, b + d, last);
      }
    }
  }

  lemma DropFirst(c: char, s: string, t: string)
    requires Erased(s, t) && c != '\n'
    ensures Erased([c] + s, t)
  {
    var none: string := [];
    DropLast(none, none, c);
    assert none + [c] == [c];
    ErasedConcat([c], none, s, t);
    assert none + t == t;
  }

  lemma {:induction false} ErasedTransitive(s: string, t: string, u: string)
    requires Erased(s, t) && Erased(t, u)
    ensures Erased(s, u)
    decreases |s|
  {
    if s == "" {
    } else {
      var last, front := s[|s| - 1], s[..|s| - 1];
      if t != "" && t[|t| - 1] == last && Erased(front, t[..|t| - 1]) {
        var mid := t[..|t| - 1];
        if u != "" && u[|u| - 1] == last && Erased(mid, u[..|u| - 1]) {
          ErasedTransitive(front, mid, u[..|u| - 1]);
        } else {
          ErasedTransitive(front, mid, u);
        }
      } else {
        ErasedTransitive(front, t, u);
      }
    }
  }

  lemma {:induction false} ErasedToBreaks(s: string)
    ensures Erased(s, Breaks(s))
  {
    if s == "" {
    } else {
      var last, front := s[|s| - 1], s[..|s| - 1];
      ErasedToBreaks(front);
      assert s == front + [last];
      if LineBreak(last) { KeepLast(front, Breaks(front), last); } else { DropLast(front, Breaks(front), last); }
    }
  }

  lemma {:induction false} NothingNew(s: string, t: string, i: nat)
    requires Erased(s, t) && i < |t|
    ensures t[i] in s
    decreases |s|
  {
    var front := s[..|s| - 1];
    assert forall c :: c in front ==> c in s;
    if t[|t| - 1] == s[|s| - 1] && Erased(front, t[..|t| - 1]) {
      if i < |t| - 1 {
        NothingNew(front, t[..|t| - 1], i);
        assert t[..|t| - 1][i] == t[i];
      }
    } else {
      NothingNew(front, t, i);
    }
  }

  function Mapped(s: string, f: char -> char): string { seq(|s|, i requires 0 <= i < |s| => f(s[i])) }

  lemma {:induction false} ErasedMapped(s: string, t: string, f: char -> char)
    requires Erased(s, t) && KeepsNewlines(f)
    ensures Erased(Mapped(s, f), Mapped(t, f))
    decreases |s|
  {
    if s == "" {
      assert Mapped(s, f) == "" && Mapped(t, f) == "";
    } else {
      var last, front := s[|s| - 1], s[..|s| - 1];
      assert Mapped(s, f) == Mapped(front, f) + [f(last)];
      if t != "" && t[|t| - 1] == last && Erased(front, t[..|t| - 1]) {
        ErasedMapped(front, t[..|t| - 1], f);
        assert Mapped(t, f) == Mapped(t[..|t| - 1], f) + [f(last)];
        KeepLast(Mapped(front, f), Mapped(t[..|t| - 1], f), f(last));
      } else {
        ErasedMapped(front, t, f);
        DropLast(Mapped(front, f), Mapped(t, f), f(last));
      }
    }
  }

  // ---------- Lines ----------

  /** One more character in front of split lines, and one more behind. */
  function Before(c: char, lines: seq<string>): (r: seq<string>)
    requires |lines| >= 1
    ensures |r| >= 1
  {
    if c == '\n' then [""] + lines else [[c] + lines[0]] + lines[1..]
  }

  function Behind(lines: seq<string>, c: char): (r: seq<string>)
    requires |lines| >= 1
    ensures |r| >= 1
  {
    if c == '\n' then lines + [""] else lines[..|lines| - 1] + [lines[|lines| - 1] + [c]]
  }

  lemma BothEnds(b: char, lines: seq<string>, c: char)
    requires |lines| >= 1
    ensures Before(b, Behind(lines, c)) == Behind(Before(b, lines), c)
  {
    if b != '\n' && |lines| == 1 { assert [b] + (lines[0] + [c]) == ([b] + lines[0]) + [c]; }
  }

  lemma {:induction false} SplitSnoc(s: string, c: char)
    ensures SplitOn(s + [c], '\n') == Behind(SplitOn(s, '\n'), c)
    decreases |s|
  {
    if s == "" {
      var one := s + [c];
      assert one[1..] == "" && one[0] == c;
      assert SplitOn(one, '\n') == Before(c, [""]) && "" + [c] == [c] + "";
    } else {
      SplitSnoc(s[1..], c);
      assert (s + [c])[1..] == s[1..] + [c] && (s + [c])[0] == s[0];
      BothEnds(s[0], SplitOn(s[1..], '\n'), c);
    }
  }

  /** Line by line: as many lines, and each keeps its characters in order. */
  ghost predicate LineByLine(s: string, t: string) {
    && |SplitOn(t, '\n')| == |SplitOn(s, '\n')|
    && forall i :: 0 <= i < |SplitOn(t, '\n')| ==> Erased(SplitOn(s, '\n')[i], SplitOn(t, '\n')[i])
  }

  lemma {:induction false} ErasedLineByLine(s: string, t: string)
    requires Erased(s, t)
    ensures LineByLine(s, t)
    decreases |s|
  {
    if s != "" {
      var last, front := s[|s| - 1], s[..|s| - 1];
      assert s == front + [last];
      if t != "" && t[|t| - 1] == last && Erased(front, t[..|t| - 1]) {
        ErasedLineByLine(front, t[..|t| - 1]);
        assert t == t[..|t| - 1] + [last];
        LineKept(front, t[..|t| - 1], last);
      } else {
        ErasedLineByLine(front, t);
        LineShortened(front, t, last);
      }
    } else {
      assert LineByLine("", "");
    }
  }

  lemma LineKept(s: string, t: string, c: char)
    requires LineByLine(s, t)
    ensures LineByLine(s + [c], t + [c])
  {
    SplitSnoc(s, c);
    SplitSnoc(t, c);
    var k := |SplitOn(s, '\n')| - 1;
    KeepLast(SplitOn(s, '\n')[k], SplitOn(t, '\n')[k], c);
  }

  lemma LineShortened(s: string, t: string, c: char)
    requires LineByLine(s, t) && c != '\n'
    ensures LineByLine(s + [c], t)
  {
    SplitSnoc(s, c);
    var k := |SplitOn(s, '\n')| - 1;
    DropLast(SplitOn(s, '\n')[k], SplitOn(t, '\n')[k], c);
  }

  // ---------- Python's splitlines ----------

  predicate Terminator(c: char) {
    || '\n' <= c <= '\r' || '\U{1c}' <= c <= '\U{1e}' || c == '\U{85}' || c == '\U{2028}' || c == '\U{2029}'
  }

  /** The newline is the only line terminator that occurs. */
  predicate Plain(s: string) { forall i :: 0 <= i < |s| && Terminator(s[i]) ==> s[i] == '\n' }

  lemma PlainErased(s: string, t: string)
    requires Plain(s) && Erased(s, t)
    ensures Plain(t)
  {
    forall i | 0 <= i < |t| && Terminator(t[i]) ensures t[i] == '\n' {
      NothingNew(s, t, i);
    }
  }

  /** Length of the first line with its terminator. */
  function FirstLine(s: string): (k: nat)
    requires s != ""
    ensures 0 < k <= |s|
  {
    if Terminator(s[0]) then (if s[0] == '\r' && |s| > 1 && s[1] == '\n' then 2 else 1)
    else if |s| == 1 then 1
    else 1 + FirstLine(s[1..])
  }

  /** `splitlines(keepends=True)`. */
  function KeepLines(s: string): seq<string>
    decreases |s|
  {
    if s == "" then [] else [s[..FirstLine(s)]] + KeepLines(s[FirstLine(s)..])
  }

  function Concat(parts: seq<string>): string { if parts == [] then "" else parts[0] + Concat(parts[1..]) }

  lemma {:induction false} ConcatKeepLines(s: string)
    ensures Concat(KeepLines(s)) == s
    decreases |s|
  {
    if s == "" {
    } else {
      var line, rest := s[..FirstLine(s)], s[FirstLine(s)..];
      ConcatKeepLines(rest);
      ConcatFront(line, KeepLines(rest));
      assert s == line + rest;
    }
  }

  lemma ConcatFront(line: string, lines: seq<string>)
    ensures Concat([line] + lines) == line + Concat(lines)
  {
    assert ([line] + lines)[1..] == lines;
  }

  lemma {:induction false} ErasedConcats(a: seq<string>, b: seq<string>)
    requires |a| == |b| && forall i :: 0 <= i < |a| ==> Erased(a[i], b[i])
    ensures Erased(Concat(a), Concat(b))
    decreases |a|
  {
    if a == [] {
    } else {
      ErasedConcats(a[1..], b[1..]);
      ErasedConcat(a[0], b[0], Concat(a[1..]), Concat(b[1..]));
    }
  }

  /** What a hidden line is replaced with. */
  function BlankLine(line: string): string { if line != "" && line[|line| - 1] == '\n' then "\n" else "" }

  /** A newline can only be the last character. */
  predicate OneLine(line: string) { forall i :: 0 <= i < |line| - 1 ==> line[i] != '\n' }

  lemma {:induction false} FirstLineIsOne(s: string)
    requires s != "" && Plain(s)
    ensures OneLine(s[..FirstLine(s)])
    ensures FirstLine(s) < |s| ==> s[FirstLine(s) - 1] == '\n'
    decreases |s|
  {
    if !Terminator(s[0]) && |s| > 1 {
      var rest := s[1..];
      FirstLineIsOne(rest);
      var k := FirstLine(rest);
      assert forall i :: 0 <= i < k ==> s[..k + 1][i + 1] == rest[..k][i];
    }
  }

  lemma {:induction false} KeptLinesAreLines(s: string, i: nat)
    requires Plain(s) && i < |KeepLines(s)|
    ensures OneLine(KeepLines(s)[i])
    decreases i
  {
    FirstLineIsOne(s);
    if i == 0 {
    } else {
      KeptLinesAreLines(s[FirstLine(s)..], i - 1);
    }
  }

  lemma ErasedToBlank(line: string)
    requires OneLine(line)
    ensures Erased(line, BlankLine(line))
  {
    if line != "" {
      var last, front, blank := line[|line| - 1], line[..|line| - 1], BlankLine(line);
      NoNewlineErases(front);
      if last == '\n' {
        assert blank[|blank| - 1] == last && blank[..|blank| - 1] == "";
      }
    }
  }

  lemma {:induction false} NoNewlineErases(s: string)
    requires forall i :: 0 <= i < |s| ==> s[i] != '\n'
    ensures Erased(s, "")
  {
    if s == "" {
    } else {
      NoNewlineErases(s[..|s| - 1]);
    }
  }

  /** `splitlines()`, for text whose only terminator is the newline. */
  function Lines(s: string): seq<string> {
    var parts := SplitOn(s, '\n');
    if parts[|parts| - 1] == "" then parts[..|parts| - 1] else parts
  }

  /** The line without its terminator. */
  function Bare(line: string): string {
    if line != "" && line[|line| - 1] == '\n' then line[..|line| - 1] else line
  }

  /** Line `i` of what is left comes from line `i` of the source. */
  lemma SameLine(s: string, t: string, i: nat)
    requires Erased(s, t) && i < |Lines(t)|
    ensures i < |Lines(s)| && Erased(Lines(s)[i], Lines(t)[i])
  {
    ErasedLineByLine(s, t);
    var a, b := SplitOn(s, '\n'), SplitOn(t, '\n');
    var k := |a| - 1;
    assert a[k] == "" ==> b[k] == "";
  }

  lemma {:induction false} SplitPrefix(line: string, rest: string)
    requires forall i :: 0 <= i < |line| ==> line[i] != '\n'
    ensures SplitOn(line + ['\n'] + rest, '\n') == [line] + SplitOn(rest, '\n')
    decreases |line|
  {
    var whole := line + ['\n'] + rest;
    if line == "" {
      assert whole[1..] == rest && whole[0] == '\n';
    } else {
      SplitPrefix(line[1..], rest);
      assert whole[1..] == line[1..] + ['\n'] + rest && whole[0] == line[0];
      assert [line[0]] + line[1..] == line;
    }
  }

  lemma {:induction false} SplitNone(line: string)
    requires forall i :: 0 <= i < |line| ==> line[i] != '\n'
    ensures SplitOn(line, '\n') == [line]
  {
    if line == "" {
    } else {
      SplitNone(line[1..]);
      assert [line[0]] + line[1..] == line;
    }
  }

  lemma LinesCons(s: string, line: string, rest: string)
    requires SplitOn(s, '\n') == [line] + SplitOn(rest, '\n')
    ensures Lines(s) == [line] + Lines(rest)
  {
    var parts := SplitOn(rest, '\n');
    assert ([line] + parts)[..|parts|] == [line] + parts[..|parts| - 1];
  }

  ghost predicate Agree(bare: seq<string>, kept: seq<string>) {
    |bare| == |kept| && forall i :: 0 <= i < |bare| ==> bare[i] == Bare(kept[i])
  }

  lemma AgreeCons(bare: seq<string>, kept: seq<string>, line: string)
    requires Agree(bare, kept)
    ensures Agree([Bare(line)] + bare, [line] + kept)
  {
  }

  /** Both readings of `splitlines` agree. */
  lemma {:induction false} LinesAreKeptLines(s: string)
    requires Plain(s)
    ensures Agree(Lines(s), KeepLines(s))
    decreases |s|
  {
    if s == "" {
    } else {
      FirstLineIsOne(s);
      var k := FirstLine(s);
      var line, rest := s[..k], s[k..];
      LinesAreKeptLines(rest);
      FirstOfLines(s, line, rest);
      AgreeCons(Lines(rest), KeepLines(rest), line);
    }
  }

  /** Taking off the first line. */
  lemma FirstOfLines(s: string, line: string, rest: string)
    requires s == line + rest && line != "" && OneLine(line) && (rest != "" ==> line[|line| - 1] == '\n')
    ensures Lines(s) == [Bare(line)] + Lines(rest)
  {
    if line[|line| - 1] == '\n' {
      var bare := line[..|line| - 1];
      assert s == bare + ['\n'] + rest;
      SplitPrefix(bare, rest);
      LinesCons(s, bare, rest);
    } else {
      assert s == line && rest == "";
      SplitNone(s);
    }
  }

  // ---------- Lines of a text with replaced characters ----------

  /** Line breaks stay where they are. */
  ghost predicate KeepsNewlines(f: char -> char) { forall c :: f(c) == '\n' <==> c == '\n' }

  function MappedLines(lines: seq<string>, f: char -> char): (r: seq<string>)
    ensures |r| == |lines|
  {
    seq(|lines|, i requires 0 <= i < |lines| => Mapped(lines[i], f))
  }

  lemma MappedFront(c: char, line: string, f: char -> char)
    ensures Mapped([c] + line, f) == [f(c)] + Mapped(line, f)
  {
  }

  lemma MappedBefore(c: char, lines: seq<string>, f: char -> char)
    requires KeepsNewlines(f) && |lines| >= 1
    ensures MappedLines(Before(c, lines), f) == Before(f(c), MappedLines(lines, f))
  {
    var a, b := MappedLines(Before(c, lines), f), Before(f(c), MappedLines(lines, f));
    if c == '\n' {
      assert a[0] == "" == b[0];
      forall i | 1 <= i < |a| ensures a[i] == b[i] { assert Before(c, lines)[i] == lines[i - 1]; }
    } else {
      MappedFront(c, lines[0], f);
      assert a[0] == b[0];
      forall i | 1 <= i < |a| ensures a[i] == b[i] { assert Before(c, lines)[i] == lines[i]; }
    }
  }

  lemma SplitFront(s: string)
    requires s != ""
    ensures SplitOn(s, '\n') == Before(s[0], SplitOn(s[1..], '\n'))
  {
  }

  lemma {:induction false} SplitMapped(s: string, f: char -> char)
    requires KeepsNewlines(f)
    ensures SplitOn(Mapped(s, f), '\n') == MappedLines(SplitOn(s, '\n'), f)
    decreases |s|
  {
    var m := Mapped(s, f);
    if s == "" {
      assert MappedLines([""], f)[0] == "";
      assert SplitOn(m, '\n') == [""];
    } else {
      SplitFront(s);
      SplitFront(m);
      assert m[1..] == Mapped(s[1..], f);
      SplitMapped(s[1..], f);
      MappedBefore(s[0], SplitOn(s[1..], '\n'), f);
    }
  }

  /** Replacing characters line by line is replacing them in the text. */
  lemma LinesMapped(s: string, f: char -> char)
    requires KeepsNewlines(f)
    ensures Lines(Mapped(s, f)) == MappedLines(Lines(s), f)
  {
    SplitMapped(s, f);
    var parts := SplitOn(s, '\n');
    var k := |parts| - 1;
    assert MappedLines(parts, f)[k] == Mapped(parts[k], f);
    assert |Mapped(parts[k], f)| == |parts[k]|;
    assert MappedLines(parts, f)[..k] == MappedLines(parts[..k], f);
  }
}
