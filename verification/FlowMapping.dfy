/** The quote- and bracket-aware scanner and the recursive parser for flow mappings, a subset of
    sections 7.3.2 and 7.4.2 of YAML 1.2.2. */
module FlowMapping {
  import opened PythonText

  datatype Value = Text(text: string) | Flag(flag: bool) | Null | Mapping(entries: seq<Entry>)

  /** Entries in insertion order, as the source's dictionaries keep them. */
  datatype Entry = Entry(key: string, value: Value)

  /** Decoding of a double-quoted scalar, which the source leaves to its JSON library. */
  type Json = string -> Option<string>

  // ---------- The scanner, one character at a time ----------

  datatype Mode = Mode(quote: Option<char>, depth: nat)

  /** What one scanning step does with the front of the remaining text. */
  datatype Step = Take(width: nat, mode: Mode) | Unbalanced

  predicate IsQuote(c: char) { c == '\'' || c == '"' }
  predicate IsOpening(c: char) { c == '{' || c == '[' || c == '(' }
  predicate IsClosing(c: char) { c == '}' || c == ']' || c == ')' }

  const PLAIN := Mode(None, 0)

  function Advance(rest: string, m: Mode): (s: Step)
    requires rest != ""
    ensures s.Take? ==> 1 <= s.width <= |rest|
  {
    var c := rest[0];
    if m.quote == Some('"') && c == '\\' && |rest| > 1 then Take(2, m)
    else if IsQuote(c) then
      if m.quote.None? then Take(1, m.(quote := Some(c)))
      else if m.quote == Some(c) then
        if c == '\'' && |rest| > 1 && rest[1] == '\'' then Take(2, m) else Take(1, m.(quote := None))
      else Take(1, m)
    else if m.quote.None? && IsOpening(c) then Take(1, m.(depth := m.depth + 1))
    else if m.quote.None? && IsClosing(c) then
      if m.depth == 0 then Unbalanced else Take(1, m.(depth := m.depth - 1))
    else Take(1, m)
  }

  /** Top-level commas split `rest`; `part` is the item read so far. */
  function Parts(rest: string, m: Mode, part: string, parts: seq<string>): Option<seq<string>>
    decreases |rest|, 1
  {
    if rest == "" then LastPart(m, part, parts)
    else if m == PLAIN && rest[0] == ',' then
      if Strip(part) == "" then None else Parts(rest[1..], m, "", parts + [Strip(part)])
    else PartsAfter(Advance(rest, m), rest, part, parts)
  }

  function PartsAfter(s: Step, rest: string, part: string, parts: seq<string>): Option<seq<string>>
    requires s.Take? ==> 1 <= s.width <= |rest|
    decreases |rest|, 0
  {
    match s
    case Unbalanced => None
    case Take(width, next) => Parts(rest[width..], next, part + rest[..width], parts)
  }

  function LastPart(m: Mode, part: string, parts: seq<string>): Option<seq<string>> {
    if m != PLAIN then None
    else if Strip(part) != "" then Some(parts + [Strip(part)])
    else if parts != [] then None
    else Some(parts)
  }

  datatype Pair = Pair(key: string, value: string)

  /** The first top-level colon splits `rest` after `before`. */
  function KeyValue(before: string, rest: string, m: Mode): (r: Option<Pair>)
    ensures r.Some? ==> |r.value.value| < |rest|
    decreases |rest|, 1
  {
    if rest == "" then None
    else if m == PLAIN && rest[0] == ':' then
      if Strip(before) == "" then None else Some(Pair(Strip(before), Strip(rest[1..])))
    else KeyValueAfter(Advance(rest, m), before, rest)
  }

  function KeyValueAfter(s: Step, before: string, rest: string): (r: Option<Pair>)
    requires s.Take? ==> 1 <= s.width <= |rest|
    ensures r.Some? ==> |r.value.value| < |rest|
    decreases |rest|, 0
  {
    match s
    case Unbalanced => None
    case Take(width, next) => KeyValue(before + rest[..width], rest[width..], next)
  }

  lemma {:induction false} PartsAreShorter(rest: string, m: Mode, part: string, parts: seq<string>, bound: nat)
    requires |part| + |rest| <= bound && forall i :: 0 <= i < |parts| ==> |parts[i]| <= bound
    ensures Parts(rest, m, part, parts).Some? ==>
      forall i :: 0 <= i < |Parts(rest, m, part, parts).value| ==> |Parts(rest, m, part, parts).value[i]| <= bound
    decreases |rest|
  {
    if rest == "" {
    } else if m == PLAIN && rest[0] == ',' {
      if Strip(part) != "" { PartsAreShorter(rest[1..], m, "", parts + [Strip(part)], bound); }
    } else {
      var s := Advance(rest, m);
      if s.Take? { PartsAreShorter(rest[s.width..], s.mode, part + rest[..s.width], parts, bound); }
    }
  }

  // ---------- Scalars ----------

  /** Content between single quotes, with doubled quotes undone; `None` when a quote stands alone. */
  function Unescape(body: string): Option<string> {
    if body == "" then Some("")
    else if body[0] != '\'' then
      var rest := Unescape(body[1..]);
      if rest.None? then None else Some([body[0]] + rest.value)
    else if |body| > 1 && body[1] == '\'' then
      var rest := Unescape(body[2..]);
      if rest.None? then None else Some("'" + rest.value)
    else None
  }

  function InlineScalar(source: string, json: Json): Value {
    var value := Strip(source);
    if value != "" && value[0] == '\'' then
      var decoded := if |value| > 1 && value[|value| - 1] == '\'' then Unescape(value[1..|value| - 1]) else None;
      Text(if decoded.Some? then decoded.value else value)
    else if value != "" && value[0] == '"' then
      var decoded := json(value);
      Text(if decoded.Some? then decoded.value else value)
    else if Lower(value) == "true" then Flag(true)
    else if Lower(value) == "false" then Flag(false)
    else if Lower(value) == "null" || value == "~" then Null
    else Text(value)
  }

  // ---------- The parser ----------

  function Assign(entries: seq<Entry>, key: string, value: Value): seq<Entry> {
    if entries == [] then [Entry(key, value)]
    else if entries[0].key == key then [Entry(key, value)] + entries[1..]
    else [entries[0]] + Assign(entries[1..], key, value)
  }

  function Parse(source: string, json: Json): Option<seq<Entry>>
    decreases |source|, 4, 0
  {
    ParseBraces(Strip(source), json)
  }

  function ParseBraces(value: string, json: Json): Option<seq<Entry>>
    decreases |value|, 3, 0
  {
    if value == "" || value[0] != '{' || value[|value| - 1] != '}' then None
    else ParseBody(value[1..|value| - 1], json)
  }

  function ParseBody(body: string, json: Json): Option<seq<Entry>>
    decreases |body|, 2, 0
  {
    PartsAreShorter(body, PLAIN, "", [], |body|);
    var parts := Parts(body, PLAIN, "", []);
    if parts.None? then None else ParseItems(parts.value, [], json, |body|)
  }

  function ParseItems(items: seq<string>, entries: seq<Entry>, json: Json, bound: nat): Option<seq<Entry>>
    requires forall i :: 0 <= i < |items| ==> |items[i]| <= bound
    decreases bound, 1, |items|
  {
    if items == [] then Some(entries)
    else
      var e := ParseItem(items[0], json);
      if e.None? then None
      else ParseItems(items[1..], Assign(entries, e.value.key, e.value.value), json, bound)
  }

  function ParseItem(item: string, json: Json): Option<Entry>
    decreases |item|, 0, 0
  {
    var pair := KeyValue("", item, PLAIN);
    if pair.None? then None else ParsePair(pair.value, json)
  }

  function ParsePair(pair: Pair, json: Json): Option<Entry>
    decreases |pair.value|, 5, 0
  {
    var key := InlineScalar(pair.key, json);
    if !key.Text? then None
    else if pair.value != "" && pair.value[0] == '{' then
      var nested := Parse(pair.value, json);
      if nested.None? then None else Some(Entry(key.text, Mapping(nested.value)))
    else Some(Entry(key.text, InlineScalar(pair.value, json)))
  }

  // ---------- The loops ----------

  /** One unfolding of the two scans. */
  lemma ScanStep(rest: string, m: Mode, part: string, parts: seq<string>)
    requires rest != "" && Advance(rest, m).Take?
    ensures var s := Advance(rest, m);
      && (!(m == PLAIN && rest[0] == ',') ==>
            Parts(rest, m, part, parts) == Parts(rest[s.width..], s.mode, part + rest[..s.width], parts))
      && (!(m == PLAIN && rest[0] == ':') ==>
            KeyValue(part, rest, m) == KeyValue(part + rest[..s.width], rest[s.width..], s.mode))
  {
  }

  method FlowParts(value: string) returns (r: Option<seq<string>>)
    ensures r == Parts(value, PLAIN, "", [])
  {
    var parts: seq<string>, part, m, index := [], "", PLAIN, 0;
    while index < |value|
      invariant 0 <= index <= |value|
      invariant Parts(value, PLAIN, "", []) == Parts(value[index..], m, part, parts)
    {
      var rest := value[index..];
      if m == PLAIN && rest[0] == ',' {
        if Strip(part) == "" { return None; }
        parts, part, index := parts + [Strip(part)], "", index + 1;
        assert rest[1..] == value[index..];
      } else {
        var s := Advance(rest, m);
        if s.Unbalanced? { return None; }
        ScanStep(rest, m, part, parts);
        part, m, index := part + rest[..s.width], s.mode, index + s.width;
        assert rest[s.width..] == value[index..];
      }
    }
    if m != PLAIN { return None; }
    var final := Strip(part);
    if final != "" { return Some(parts + [final]); }
    if parts != [] { return None; }
    return Some(parts);
  }

  lemma KeyScanStep(item: string, index: nat, m: Mode)
    requires index < |item| && Advance(item[index..], m).Take? && !(m == PLAIN && item[index] == ':')
    ensures var s := Advance(item[index..], m);
      KeyValue(item[..index], item[index..], m) == KeyValue(item[..index + s.width], item[index + s.width..], s.mode)
  {
    var s := Advance(item[index..], m);
    ScanStep(item[index..], m, item[..index], []);
    SliceStep(item, index, s.width);
  }

  lemma SliceStep(item: string, index: nat, width: nat)
    requires index + width <= |item|
    ensures item[..index] + item[index..][..width] == item[..index + width]
    ensures item[index..][width..] == item[index + width..]
  {
  }

  lemma KeyScanStop(item: string, index: nat, m: Mode)
    requires index < |item|
    ensures m == PLAIN && item[index] == ':' && Strip(item[..index]) == "" ==>
      KeyValue(item[..index], item[index..], m) == None
    ensures m == PLAIN && item[index] == ':' && Strip(item[..index]) != "" ==>
      KeyValue(item[..index], item[index..], m) == Some(Pair(Strip(item[..index]), Strip(item[index + 1..])))
    ensures Advance(item[index..], m).Unbalanced? ==> KeyValue(item[..index], item[index..], m).None?
  {
    assert item[index..][1..] == item[index + 1..];
  }

  method FlowKeyValue(item: string) returns (r: Option<Pair>)
    ensures r == KeyValue("", item, PLAIN)
  {
    var m, index := PLAIN, 0;
    while index < |item|
      invariant 0 <= index <= |item|
      invariant KeyValue("", item, PLAIN) == KeyValue(item[..index], item[index..], m)
    {
      KeyScanStop(item, index, m);
      if m == PLAIN && item[index] == ':' {
        var key := Strip(item[..index]);
        if key == "" { return None; }
        return Some(Pair(key, Strip(item[index + 1..])));
      }
      var s := Advance(item[index..], m);
      if s.Unbalanced? { return None; }
      KeyScanStep(item, index, m);
      m, index := s.mode, index + s.width;
    }
    return None;
  }

  /** The recursive parser, filling a dictionary item by item. */
  method YamlFlowMapping(source: string, json: Json) returns (r: Option<seq<Entry>>)
    ensures r == Parse(source, json)
    decreases |source|, 0
  {
    var value := Strip(source);
    if value == "" || value[0] != '{' || value[|value| - 1] != '}' { return None; }
    var body := value[1..|value| - 1];
    assert Parse(source, json) == ParseBody(body, json);
    var parts := FlowParts(body);
    if parts.None? { return None; }
    var items, parsed: seq<Entry> := parts.value, [];
    PartsAreShorter(body, PLAIN, "", [], |body|);
    for i := 0 to |items|
      invariant ParseBody(body, json) == ParseItems(items[i..], parsed, json, |body|)
    {
      assert items[i..][0] == items[i] && items[i..][1..] == items[i + 1..];
      var pair := FlowKeyValue(items[i]);
      if pair.None? { return None; }
      var e := ParseEntry(pair.value, json);
      if e.None? { return None; }
      parsed := Assign(parsed, e.value.key, e.value.value);
    }
    return Some(parsed);
  }

  method ParseEntry(pair: Pair, json: Json) returns (r: Option<Entry>)
    ensures r == ParsePair(pair, json)
    decreases |pair.value|, 1
  {
    var key := InlineScalar(pair.key, json);
    if !key.Text? { return None; }
    if pair.value != "" && pair.value[0] == '{' {
      var nested := YamlFlowMapping(pair.value, json);
      if nested.None? { return None; }
      return Some(Entry(key.text, Mapping(nested.value)));
    }
    return Some(Entry(key.text, InlineScalar(pair.value, json)));
  }

  // ---------- Printing ----------

  function Escape(s: string): string {
    if s == "" then "" else if s[0] == '\'' then "''" + Escape(s[1..]) else [s[0]] + Escape(s[1..])
  }

  function Quoted(s: string): string { "'" + Escape(s) + "'" }

  /** Nested mappings whose keys and leaves are arbitrary strings, each mapping without repeated keys. */
  ghost predicate Printable(v: Value)
    decreases v, 0
  {
    match v
    case Text(_) => true
    case Mapping(entries) => PrintableEntries(entries)
    case _ => false
  }

  ghost predicate PrintableEntries(entries: seq<Entry>)
    decreases entries, 1
  {
    && (forall i :: 0 <= i < |entries| ==> Printable(entries[i].value))
    && (forall i, j :: 0 <= i < j < |entries| ==> entries[i].key != entries[j].key)
  }

  function Print(v: Value): string
    decreases v, 0
  {
    match v
    case Text(s) => Quoted(s)
    case Mapping(entries) => "{" + PrintEntries(entries) + "}"
    case Flag(b) => if b then "true" else "false"
    case Null => "null"
  }

  function PrintEntries(entries: seq<Entry>): string
    decreases entries, 1
  {
    if entries == [] then ""
    else if |entries| == 1 then PrintEntry(entries[0])
    else PrintEntry(entries[0]) + ", " + PrintEntries(entries[1..])
  }

  function PrintEntry(e: Entry): string
    decreases e, 1
  {
    Quoted(e.key) + ": " + Print(e.value)
  }

  // ---------- Text the scanner passes over without splitting ----------

  /** In front of `post`, the scanner reads all of `t` from mode `m`, ends in mode `n`, and meets no
      top-level `stop` on the way. */
  ghost predicate Clears(t: string, post: string, m: Mode, n: Mode, stop: char)
    decreases |t|
  {
    if t == "" then m == n
    else
      && !(m == PLAIN && t[0] == stop)
      && var s := Advance(t + post, m); s.Take? && s.width <= |t| && Clears(t[s.width..], post, s.mode, n, stop)
  }

  lemma FrontOf(t: string, post: string, part: string, width: nat)
    requires width <= |t|
    ensures (t + post)[width..] == t[width..] + post && (t + post)[..width] == t[..width]
    ensures part + t[..width] + t[width..] == part + t
  {
  }

  lemma {:induction false} ClearsParts(t: string, post: string, m: Mode, n: Mode, part: string, parts: seq<string>)
    requires Clears(t, post, m, n, ',')
    ensures Parts(t + post, m, part, parts) == Parts(post, n, part + t, parts)
    decreases |t|
  {
    if t == "" {
      assert t + post == post && part + t == part;
    } else {
      var s := Advance(t + post, m);
      calc {
        Parts(t + post, m, part, parts);
        { ScanStep(t + post, m, part, parts); FrontOf(t, post, part, s.width); }
        Parts(t[s.width..] + post, s.mode, part + t[..s.width], parts);
        { ClearsParts(t[s.width..], post, s.mode, n, part + t[..s.width], parts); }
        Parts(post, n, part + t[..s.width] + t[s.width..], parts);
        { FrontOf(t, post, part, s.width); }
        Parts(post, n, part + t, parts);
      }
    }
  }

  lemma {:induction false} ClearsKeyValue(before: string, t: string, post: string, m: Mode, n: Mode)
    requires Clears(t, post, m, n, ':')
    ensures KeyValue(before, t + post, m) == KeyValue(before + t, post, n)
    decreases |t|
  {
    if t == "" {
      assert t + post == post && before + t == before;
    } else {
      var s := Advance(t + post, m);
      calc {
        KeyValue(before, t + post, m);
        { ScanStep(t + post, m, before, []); FrontOf(t, post, before, s.width); }
        KeyValue(before + t[..s.width], t[s.width..] + post, s.mode);
        { ClearsKeyValue(before + t[..s.width], t[s.width..], post, s.mode, n); }
        KeyValue(before + t[..s.width] + t[s.width..], post, n);
        { FrontOf(t, post, before, s.width); }
        KeyValue(before + t, post, n);
      }
    }
  }

  lemma ClearsStep(t: string, post: string, m: Mode, n: Mode, stop: char)
    requires t != "" && !(m == PLAIN && t[0] == stop)
    requires var s := Advance(t + post, m); s.Take? && s.width <= |t| && Clears(t[s.width..], post, s.mode, n, stop)
    ensures Clears(t, post, m, n, stop)
  {
  }

  lemma Regroup(a: string, b: string, post: string, width: nat)
    requires a != "" && width <= |a|
    ensures a + b + post == a + (b + post) && (a + b)[width..] == a[width..] + b && (a + b)[0] == a[0]
  {
  }

  lemma {:induction false} ClearsBoth(a: string, b: string, post: string, m: Mode, k: Mode, n: Mode, stop: char)
    requires Clears(a, b + post, m, k, stop) && Clears(b, post, k, n, stop)
    ensures Clears(a + b, post, m, n, stop)
    decreases |a|
  {
    if a == "" {
      assert a + b == b;
    } else {
      var s := Advance(a + (b + post), m);
      ClearsBoth(a[s.width..], b, post, s.mode, k, n, stop);
      Regroup(a, b, post, s.width);
      ClearsStep(a + b, post, m, n, stop);
    }
  }

  /** A character with no meaning to the scanner. */
  lemma ClearsOne(c: char, post: string, depth: nat, stop: char)
    requires !IsQuote(c) && !IsOpening(c) && !IsClosing(c) && (depth == 0 ==> c != stop)
    ensures Clears([c], post, Mode(None, depth), Mode(None, depth), stop)
  {
    assert ([c] + post)[0] == c;
    assert [c][1..] == "";
  }

  predicate NoQuoteFollows(post: string) { post == "" || post[0] != '\'' }

  lemma {:induction false} ClearsEscaped(s: string, post: string, depth: nat, stop: char)
    requires NoQuoteFollows(post)
    ensures Clears(Escape(s) + "'", post, Mode(Some('\''), depth), Mode(None, depth), stop)
  {
    var t := Escape(s) + "'";
    if s == "" {
      assert t == "'";
      assert t[1..] == "";
    } else {
      ClearsEscaped(s[1..], post, depth, stop);
      EscapedFront(s);
      ClearsQuotedLead(Lead(s[0]), Escape(s[1..]) + "'", t, post, depth, stop);
    }
  }

  /** A character as it is written between single quotes. */
  function Lead(c: char): string { if c == '\'' then "''" else [c] }

  lemma EscapedFront(s: string)
    requires s != ""
    ensures Escape(s) + "'" == Lead(s[0]) + (Escape(s[1..]) + "'")
  {
  }

  /** Between single quotes the scanner takes one written character at a time. */
  lemma ClearsQuotedLead(lead: string, inner: string, t: string, post: string, depth: nat, stop: char)
    requires t == lead + inner && (lead == "''" || (|lead| == 1 && lead[0] != '\''))
    requires Clears(inner, post, Mode(Some('\''), depth), Mode(None, depth), stop)
    ensures Clears(t, post, Mode(Some('\''), depth), Mode(None, depth), stop)
  {
    var m := Mode(Some('\''), depth);
    assert t[|lead|..] == inner && (t + post)[0] == lead[0];
    if lead == "''" { assert (t + post)[1] == '\''; }
    assert Advance(t + post, m) == Take(|lead|, m);
    ClearsStep(t, post, m, Mode(None, depth), stop);
  }

  lemma ClearsQuoted(s: string, post: string, depth: nat, stop: char)
    requires NoQuoteFollows(post) && stop in {',', ':'}
    ensures Clears(Quoted(s), post, Mode(None, depth), Mode(None, depth), stop)
  {
    ClearsEscaped(s, post, depth, stop);
    var t := Quoted(s);
    assert t[0] == '\'';
    assert t[1..] == Escape(s) + "'";
  }

  lemma ClearsCons(c: char, t: string, post: string, depth: nat, stop: char)
    requires !IsQuote(c) && !IsOpening(c) && !IsClosing(c) && (depth == 0 ==> c != stop)
    requires Clears(t, post, Mode(None, depth), Mode(None, depth), stop)
    ensures Clears([c] + t, post, Mode(None, depth), Mode(None, depth), stop)
  {
    ClearsOne(c, t + post, depth, stop);
    ClearsBoth([c], t, post, Mode(None, depth), Mode(None, depth), Mode(None, depth), stop);
  }

  function AfterKey(v: Value): string { ":" + (" " + Print(v)) }

  lemma EntryShape(e: Entry)
    ensures PrintEntry(e) == Quoted(e.key) + AfterKey(e.value)
  {
  }

  lemma {:induction false} ClearsEntry(e: Entry, post: string, depth: nat, stop: char)
    requires Printable(e.value) && NoQuoteFollows(post) && (stop == ',' || (stop == ':' && depth > 0))
    ensures Clears(PrintEntry(e), post, Mode(None, depth), Mode(None, depth), stop)
    decreases e, 1
  {
    var m := Mode(None, depth);
    ClearsValue(e.value, post, depth, stop);
    ClearsCons(' ', Print(e.value), post, depth, stop);
    ClearsCons(':', " " + Print(e.value), post, depth, stop);
    ClearsQuoted(e.key, AfterKey(e.value) + post, depth, stop);
    ClearsBoth(Quoted(e.key), AfterKey(e.value), post, m, m, m, stop);
    EntryShape(e);
  }

  /** What follows the first printed entry. */
  function AfterEntry(rest: seq<Entry>): string {
    if rest == [] then "" else "," + (" " + PrintEntries(rest))
  }

  lemma EntriesShape(entries: seq<Entry>)
    requires entries != []
    ensures PrintEntries(entries) == PrintEntry(entries[0]) + AfterEntry(entries[1..])
  {
  }

  lemma {:induction false} ClearsEntries(entries: seq<Entry>, post: string, depth: nat, stop: char)
    requires (forall i :: 0 <= i < |entries| ==> Printable(entries[i].value)) && NoQuoteFollows(post)
    requires depth > 0 && stop in {',', ':'}
    ensures Clears(PrintEntries(entries), post, Mode(None, depth), Mode(None, depth), stop)
    decreases entries, 2
  {
    if entries == [] {
    } else {
      var m := Mode(None, depth);
      var rest := entries[1..];
      if rest != [] {
        ClearsEntries(rest, post, depth, stop);
        ClearsCons(' ', PrintEntries(rest), post, depth, stop);
        ClearsCons(',', " " + PrintEntries(rest), post, depth, stop);
      }
      ClearsEntry(entries[0], AfterEntry(rest) + post, depth, stop);
      ClearsBoth(PrintEntry(entries[0]), AfterEntry(rest), post, m, m, m, stop);
      EntriesShape(entries);
    }
  }

  /** Brackets around text that clears one level deeper. */
  lemma ClearsBraced(t: string, body: string, post: string, depth: nat, stop: char)
    requires t == "{" + body + "}" && stop in {',', ':'}
    requires Clears(body, "}" + post, Mode(None, depth + 1), Mode(None, depth + 1), stop)
    ensures Clears(t, post, Mode(None, depth), Mode(None, depth), stop)
  {
    var m, inner := Mode(None, depth), Mode(None, depth + 1);
    assert Clears("}", post, inner, m, stop) by { assert ("}" + post)[0] == '}' && "}"[1..] == ""; }
    ClearsBoth(body, "}", post, inner, inner, m, stop);
    var tail := body + "}";
    assert Clears("{", tail + post, m, inner, stop) by { assert ("{" + (tail + post))[0] == '{' && "{"[1..] == ""; }
    ClearsBoth("{", tail, post, m, inner, m, stop);
    assert t == "{" + tail;
  }

  /** A printed value is read as a unit, whatever its strings contain. */
  lemma {:induction false} ClearsValue(v: Value, post: string, depth: nat, stop: char)
    requires Printable(v) && NoQuoteFollows(post) && stop in {',', ':'}
    ensures Clears(Print(v), post, Mode(None, depth), Mode(None, depth), stop)
    decreases v, 0
  {
    match v
    case Text(s) => ClearsQuoted(s, post, depth, stop);
    case Mapping(entries) =>
      ClearsEntries(entries, "}" + post, depth + 1, stop);
      ClearsBraced(Print(v), PrintEntries(entries), post, depth, stop);
  }

  // ---------- Round trip ----------

  lemma PrintedEnds(v: Value)
    requires Printable(v)
    ensures |Print(v)| >= 2 && !IsSpace(Print(v)[0]) && !IsSpace(Print(v)[|Print(v)| - 1])
    ensures v.Mapping? ==> Print(v)[0] == '{' && Print(v)[|Print(v)| - 1] == '}'
    ensures v.Text? ==> Print(v)[0] == '\''
  {
  }

  predicate Trimmed(t: string) { t != "" && !IsSpace(t[0]) && !IsSpace(t[|t| - 1]) }

  lemma StripAfterSpace(lead: string, t: string)
    requires (lead == "" || lead == " ") && Trimmed(t)
    ensures Strip(lead + t) == t
  {
    var s := lead + t;
    assert lead == "" ==> s == t;
    assert lead == " " ==> s[1..] == t && IsSpace(s[0]) && StripLeft(s) == StripLeft(t);
  }

  lemma EntryTrimmed(e: Entry)
    requires Printable(e.value)
    ensures Trimmed(PrintEntry(e))
  {
    PrintedEnds(e.value);
    var t := PrintEntry(e);
    assert t[0] == '\'' && t[|t| - 1] == Print(e.value)[|Print(e.value)| - 1];
  }

  function Printed(entries: seq<Entry>): (r: seq<string>)
    ensures |r| == |entries|
  {
    if entries == [] then [] else [PrintEntry(entries[0])] + Printed(entries[1..])
  }

  lemma PartsAtComma(rest: string, part: string, parts: seq<string>)
    requires Strip(part) != ""
    ensures Parts("," + rest, PLAIN, part, parts) == Parts(rest, PLAIN, "", parts + [Strip(part)])
  {
    assert ("," + rest)[1..] == rest;
  }

  lemma PartsAtEnd(part: string, parts: seq<string>)
    requires Strip(part) != ""
    ensures Parts("", PLAIN, part, parts) == Some(parts + [Strip(part)])
  {
  }

  lemma PartsAfterLead(lead: string, t: string, parts: seq<string>)
    requires lead == "" || lead == " "
    ensures Parts(lead + t, PLAIN, "", parts) == Parts(t, PLAIN, lead, parts)
  {
    if lead == "" {
      assert lead + t == t;
    } else {
      ClearsOne(' ', t, 0, ',');
      ClearsParts(lead, t, PLAIN, PLAIN, "", parts);
      assert "" + lead == lead;
    }
  }

  /** An item that reads as a unit in front of anything but a quote. */
  ghost predicate Unit(t: string) {
    Trimmed(t) && forall post :: NoQuoteFollows(post) ==> Clears(t, post, PLAIN, PLAIN, ',')
  }

  function Listed(items: seq<string>): string
    decreases |items|, 0
  {
    if items == [] then "" else items[0] + AfterItem(items[1..])
  }

  function AfterItem(items: seq<string>): string
    decreases |items|, 1
  {
    if items == [] then "" else "," + (" " + Listed(items))
  }

  lemma UnitSplit(lead: string, t: string, after: string, parts: seq<string>)
    requires (lead == "" || lead == " ") && Unit(t) && NoQuoteFollows(after)
    ensures Parts(lead + (t + after), PLAIN, "", parts) == Parts(after, PLAIN, lead + t, parts)
  {
    PartsAfterLead(lead, t + after, parts);
    assert Clears(t, after, PLAIN, PLAIN, ',');
    ClearsParts(t, after, PLAIN, PLAIN, lead, parts);
  }

  lemma LastUnit(lead: string, t: string, parts: seq<string>)
    requires (lead == "" || lead == " ") && Unit(t)
    ensures Parts(lead + (t + ""), PLAIN, "", parts) == Some(parts + [t])
  {
    UnitSplit(lead, t, "", parts);
    StripAfterSpace(lead, t);
    PartsAtEnd(lead + t, parts);
  }

  lemma NextUnit(lead: string, t: string, rest: string, parts: seq<string>)
    requires (lead == "" || lead == " ") && Unit(t)
    ensures Parts(lead + (t + ("," + rest)), PLAIN, "", parts) == Parts(rest, PLAIN, "", parts + [t])
  {
    UnitSplit(lead, t, "," + rest, parts);
    StripAfterSpace(lead, t);
    PartsAtComma(rest, lead + t, parts);
  }

  /** Splitting a comma-separated list of units at top-level commas gives back the units. */
  lemma {:induction false} PartsOfListed(items: seq<string>, lead: string, parts: seq<string>)
    requires items != [] && (forall i :: 0 <= i < |items| ==> Unit(items[i])) && (lead == "" || lead == " ")
    ensures Parts(lead + Listed(items), PLAIN, "", parts) == Some(parts + items)
    decreases |items|
  {
    var t, rest := items[0], items[1..];
    if rest == [] {
      LastUnit(lead, t, parts);
      assert items == [t];
    } else {
      NextUnit(lead, t, " " + Listed(rest), parts);
      PartsOfListed(rest, " ", parts + [t]);
      assert parts + [t] + rest == parts + items;
    }
  }

  lemma {:induction false} PrintedUnits(entries: seq<Entry>, i: nat)
    requires (forall j :: 0 <= j < |entries| ==> Printable(entries[j].value)) && i < |entries|
    ensures Unit(Printed(entries)[i])
  {
    if i == 0 {
      EntryTrimmed(entries[0]);
      forall post | NoQuoteFollows(post)
        ensures Clears(PrintEntry(entries[0]), post, PLAIN, PLAIN, ',')
      {
        ClearsEntry(entries[0], post, 0, ',');
      }
    } else {
      PrintedUnits(entries[1..], i - 1);
    }
  }

  lemma {:induction false} PrintsListed(entries: seq<Entry>)
    ensures PrintEntries(entries) == Listed(Printed(entries))
  {
    if entries == [] {
    } else {
      EntriesShape(entries);
      PrintsListed(entries[1..]);
      assert Printed(entries)[1..] == Printed(entries[1..]);
    }
  }

  lemma KeyValueAtColon(before: string, rest: string)
    requires Strip(before) != ""
    ensures KeyValue(before, ":" + rest, PLAIN) == Some(Pair(Strip(before), Strip(rest)))
  {
    assert (":" + rest)[1..] == rest;
  }

  lemma KeyValueSplit(item: string, key: string, after: string, value: string)
    requires item == key + after && after == ":" + (" " + value)
    requires Clears(key, after, PLAIN, PLAIN, ':')
    requires Strip(key) == key != "" && Strip(" " + value) == value
    ensures KeyValue("", item, PLAIN) == Some(Pair(key, value))
  {
    ClearsKeyValue("", key, after, PLAIN, PLAIN);
    assert "" + key == key;
    KeyValueAtColon(key, " " + value);
  }

  lemma QuotedTrimmed(s: string)
    ensures Strip(Quoted(s)) == Quoted(s) != ""
  {
    StripTrimmed(Quoted(s));
  }

  lemma ValueTrimmed(v: Value)
    requires Printable(v)
    ensures Strip(" " + Print(v)) == Print(v)
  {
    PrintedEnds(v);
    StripAfterSpace(" ", Print(v));
  }

  /** Splitting a printed entry at its top-level colon gives back the printed key and value. */
  lemma KeyValueOfPrinted(e: Entry)
    requires Printable(e.value)
    ensures KeyValue("", PrintEntry(e), PLAIN) == Some(Pair(Quoted(e.key), Print(e.value)))
  {
    QuotedTrimmed(e.key);
    ValueTrimmed(e.value);
    ClearsQuoted(e.key, AfterKey(e.value), 0, ':');
    EntryShape(e);
    KeyValueSplit(PrintEntry(e), Quoted(e.key), AfterKey(e.value), Print(e.value));
  }

  lemma {:induction false} UnescapeEscape(s: string)
    ensures Unescape(Escape(s)) == Some(s)
  {
    if s == "" {
    } else {
      UnescapeEscape(s[1..]);
      var t := Escape(s);
      if s[0] == '\'' {
        assert t[0] == '\'' && t[1] == '\'' && t[2..] == Escape(s[1..]);
      } else {
        assert t[0] == s[0] && t[1..] == Escape(s[1..]);
      }
      assert [s[0]] + s[1..] == s;
    }
  }

  lemma ScalarOfQuoted(s: string, json: Json)
    ensures InlineScalar(Quoted(s), json) == Text(s)
  {
    StripTrimmed(Quoted(s));
    UnescapeEscape(s);
    assert Quoted(s)[1..|Quoted(s)| - 1] == Escape(s);
  }

  lemma {:induction false} AssignFresh(entries: seq<Entry>, key: string, value: Value)
    requires forall i :: 0 <= i < |entries| ==> entries[i].key != key
    ensures Assign(entries, key, value) == entries + [Entry(key, value)]
  {
    if entries == [] {
    } else {
      AssignFresh(entries[1..], key, value);
    }
  }

  lemma {:induction false} ShorterThanBody(entries: seq<Entry>)
    ensures forall i :: 0 <= i < |Printed(entries)| ==> |Printed(entries)[i]| <= |PrintEntries(entries)|
  {
    if entries == [] {
    } else {
      EntriesShape(entries);
      ShorterThanBody(entries[1..]);
    }
  }

  lemma PartsOfBody(entries: seq<Entry>)
    requires forall i :: 0 <= i < |entries| ==> Printable(entries[i].value)
    ensures Parts(PrintEntries(entries), PLAIN, "", []) == Some(Printed(entries))
  {
    if entries != [] {
      forall i | 0 <= i < |entries| ensures Unit(Printed(entries)[i]) { PrintedUnits(entries, i); }
      PartsOfListed(Printed(entries), "", []);
      PrintsListed(entries);
      assert "" + Listed(Printed(entries)) == PrintEntries(entries);
      assert [] + Printed(entries) == Printed(entries);
    }
  }

  lemma ParseBraced(t: string, body: string, json: Json)
    requires t == "{" + body + "}"
    ensures Parse(t, json) == ParseBody(body, json)
  {
    StripTrimmed(t);
    assert t[1..|t| - 1] == body;
  }

  lemma ParseListed(body: string, items: seq<string>, json: Json)
    requires Parts(body, PLAIN, "", []) == Some(items)
    requires forall i :: 0 <= i < |items| ==> |items[i]| <= |body|
    ensures ParseBody(body, json) == ParseItems(items, [], json, |body|)
  {
  }

  lemma {:induction false} ParsePrintedEntry(e: Entry, json: Json)
    requires Printable(e.value)
    ensures ParseItem(PrintEntry(e), json) == Some(e)
    decreases e, 3
  {
    KeyValueOfPrinted(e);
    ParsePrintedPair(e, json);
  }

  lemma {:induction false} ParsePrintedPair(e: Entry, json: Json)
    requires Printable(e.value)
    ensures ParsePair(Pair(Quoted(e.key), Print(e.value)), json) == Some(e)
    decreases e, 2
  {
    ScalarOfQuoted(e.key, json);
    PrintedEnds(e.value);
    match e.value
    case Mapping(entries) => ParsePrint(entries, json);
    case Text(s) => ScalarOfQuoted(s, json);
  }

  lemma FirstIsFresh(done: seq<Entry>, entries: seq<Entry>)
    requires entries != [] && PrintableEntries(done + entries)
    ensures Printable(entries[0].value) && Assign(done, entries[0].key, entries[0].value) == done + [entries[0]]
    ensures done + entries == done + [entries[0]] + entries[1..]
  {
    var all := done + entries;
    assert all[|done|] == entries[0];
    forall i | 0 <= i < |done| ensures done[i].key != entries[0].key { assert all[i] == done[i]; }
    AssignFresh(done, entries[0].key, entries[0].value);
  }

  lemma {:induction false} ParsePrintedItems(entries: seq<Entry>, done: seq<Entry>, json: Json, bound: nat)
    requires PrintableEntries(done + entries)
    requires forall i :: 0 <= i < |Printed(entries)| ==> |Printed(entries)[i]| <= bound
    ensures ParseItems(Printed(entries), done, json, bound) == Some(done + entries)
    decreases entries, 1
  {
    if entries == [] {
      assert done + entries == done;
    } else {
      var e, rest := entries[0], entries[1..];
      FirstIsFresh(done, entries);
      assert Printed(entries)[0] == PrintEntry(e) && Printed(entries)[1..] == Printed(rest);
      ParsePrintedEntry(e, json);
      ParsePrintedItems(rest, done + [e], json, bound);
    }
  }

  lemma {:induction false} ParsePrintedBody(entries: seq<Entry>, json: Json)
    requires PrintableEntries(entries)
    ensures ParseBody(PrintEntries(entries), json) == Some(entries)
    decreases entries, 2
  {
    PartsOfBody(entries);
    ShorterThanBody(entries);
    ParseListed(PrintEntries(entries), Printed(entries), json);
    assert [] + entries == entries;
    ParsePrintedItems(entries, [], json, |PrintEntries(entries)|);
  }

  /** Parsing undoes printing: every finite tree of uniquely keyed mappings over arbitrary strings. */
  lemma {:induction false} ParsePrint(entries: seq<Entry>, json: Json)
    requires PrintableEntries(entries)
    ensures Parse(Print(Mapping(entries)), json) == Some(entries)
    decreases entries, 3
  {
    ParsePrintedBody(entries, json);
    ParseBraced(Print(Mapping(entries)), PrintEntries(entries), json);
  }
}
