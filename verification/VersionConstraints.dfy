/** Stable PowerShell versions and the numeric NuGet constraints that gallery packages declare. */
module VersionConstraints {
  import opened PythonText

  /** Four numeric parts, compared from the left. */
  type Key = k: seq<nat> | |k| == 4 witness [0, 0, 0, 0]

  predicate Numeric(part: string) { part != "" && AllDigits(part) }

  function VersionKey(value: string): Option<Key> {
    KeyOfParts(SplitOn(value, '.'))
  }

  /** Three or four numbers; a missing revision counts as zero. */
  function KeyOfParts(parts: seq<string>): Option<Key> {
    if |parts| < 3 || |parts| > 4 || !Numeric(parts[0]) || !Numeric(parts[1]) || !Numeric(parts[2]) then None
    else if |parts| == 3 then Some([Numeral(parts[0]), Numeral(parts[1]), Numeral(parts[2]), 0])
    else if !Numeric(parts[3]) then None
    else Some([Numeral(parts[0]), Numeral(parts[1]), Numeral(parts[2]), Numeral(parts[3])])
  }

  predicate Less(a: Key, b: Key) {
    || a[0] < b[0]
    || (a[0] == b[0] && a[1] < b[1])
    || (a[0] == b[0] && a[1] == b[1] && a[2] < b[2])
    || (a[0] == b[0] && a[1] == b[1] && a[2] == b[2] && a[3] < b[3])
  }

  predicate AtMost(a: Key, b: Key) { a == b || Less(a, b) }

  lemma AtMostAntisymmetric(a: Key, b: Key)
    requires AtMost(a, b) && AtMost(b, a)
    ensures a == b
  {
  }

  /** The published inclusive floor, or `None` where the source raises. */
  function DependencyFloor(requirement: string): (r: Option<string>)
    ensures r.Some? ==> VersionKey(r.value).Some?
  {
    if requirement == "" then None
    else
      var last := requirement[|requirement| - 1];
      var floor :=
        if requirement[0] == '[' && (last == ']' || last == ')') then
          Some(Strip(SplitOn(requirement[1..|requirement| - 1], ',')[0]))
        else if IsDigit(requirement[0]) then Some(requirement)
        else None;
      if floor.Some? && VersionKey(floor.value).Some? then floor else None
  }

  /** Whether a version meets a constraint, or `None` where the source raises. */
  function Satisfies(version: string, requirement: string): Option<bool> {
    var candidate := VersionKey(version);
    if candidate.None? || requirement == "" then None
    else if IsDigit(requirement[0]) then
      var low := VersionKey(requirement);
      if low.None? then None else Some(AtMost(low.value, candidate.value))
    else
      var first, last := requirement[0], requirement[|requirement| - 1];
      if first !in {'[', '('} || last !in {']', ')'} then None
      else
        var bounds := SplitOn(requirement[1..|requirement| - 1], ',');
        if |bounds| == 1 then
          var exact := VersionKey(Strip(bounds[0]));
          if first != '[' || last != ']' || exact.None? then None else Some(candidate.value == exact.value)
        else if |bounds| != 2 then None
        else WithinBounds(candidate.value, Strip(bounds[0]), first == '[', Strip(bounds[1]), last == ']')
  }

  /** Both ends, the upper one only evaluated when the lower one holds. */
  function WithinBounds(candidate: Key, low: string, lowInclusive: bool, high: string, highInclusive: bool): Option<bool> {
    var lowKey, highKey := VersionKey(low), VersionKey(high);
    if low != "" && lowKey.None? then None
    else if low != "" && !Less(lowKey.value, candidate) && !(lowInclusive && candidate == lowKey.value) then Some(false)
    else if high == "" then Some(true)
    else if highKey.None? then None
    else Some(Less(candidate, highKey.value) || (highInclusive && candidate == highKey.value))
  }

  /** No version that meets a constraint lies below the constraint's floor. */
  lemma FloorIsLowerBound(version: string, requirement: string)
    requires Satisfies(version, requirement) == Some(true) && DependencyFloor(requirement).Some?
    ensures VersionKey(version).Some?
    ensures AtMost(VersionKey(DependencyFloor(requirement).value).value, VersionKey(version).value)
  {
    assert VersionKey("").None? by {
      assert SplitOn("", '.') == [""];
    }
  }
}
