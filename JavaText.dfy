/**
 * ASCII models of the java.lang.String and java.lang.Character operations that
 * the programs rely on: letter and whitespace tests, case mapping, String.join,
 * String.split with a literal separator, split on "\\s+", and Integer.parseInt.
 */
module JavaText {
  import opened Wrappers

  /** Character.isLetter, restricted to ASCII. */
  predicate IsLetter(c: char) {
    'a' <= c <= 'z' || 'A' <= c <= 'Z'
  }

  /** Character.isWhitespace, restricted to ASCII: tab to carriage return, the
      four separators U+001C..U+001F, and the space. */
  predicate IsWhitespace(c: char) {
    var n := c as int;
    9 <= n <= 13 || 28 <= n <= 31 || n == 32
  }

  /** The class \s of java.util.regex: space, tab, newline, vertical tab, form feed, carriage return. */
  predicate IsRegexSpace(c: char) {
    var n := c as int;
    9 <= n <= 13 || n == 32
  }

  /** String.isBlank: empty or whitespace only. */
  predicate IsBlank(s: string) {
    forall i :: 0 <= i < |s| ==> IsWhitespace(s[i])
  }

  function LowerChar(c: char): char {
    if 'A' <= c <= 'Z' then (c as int + 32) as char else c
  }

  function UpperChar(c: char): char {
    if 'a' <= c <= 'z' then (c as int - 32) as char else c
  }

  /** String.toLowerCase, restricted to ASCII. */
  function ToLower(s: string): (r: string)
    ensures |r| == |s|
    ensures forall i :: 0 <= i < |s| ==> r[i] == LowerChar(s[i])
  {
    seq(|s|, i requires 0 <= i < |s| => LowerChar(s[i]))
  }

  /** String.toUpperCase, restricted to ASCII. */
  function ToUpper(s: string): (r: string)
    ensures |r| == |s|
    ensures forall i :: 0 <= i < |s| ==> r[i] == UpperChar(s[i])
  {
    seq(|s|, i requires 0 <= i < |s| => UpperChar(s[i]))
  }

  /** String.equalsIgnoreCase, restricted to ASCII. */
  predicate EqualsIgnoreCase(a: string, b: string) {
    |a| == |b| && forall i :: 0 <= i < |a| ==> LowerChar(a[i]) == LowerChar(b[i])
  }

  /** String.startsWith. */
  predicate StartsWith(s: string, prefix: string) {
    |prefix| <= |s| && s[..|prefix|] == prefix
  }

  /** String.join(sep, parts). */
  function Join(parts: seq<string>, sep: string): string
    decreases |parts|
  {
    if |parts| == 0 then ""
    else if |parts| == 1 then parts[0]
    else parts[0] + sep + Join(parts[1..], sep)
  }

  predicate OccursAt(s: string, sep: string, i: int) {
    0 <= i && i + |sep| <= |s| && s[i..i + |sep|] == sep
  }

  /** The leftmost occurrence of `sep` in `s` at or after `from`. */
  function FindFrom(s: string, sep: string, from: nat): (r: Option<nat>)
    requires |sep| > 0
    ensures r.Some? ==> from <= r.value && OccursAt(s, sep, r.value)
    ensures r.Some? ==> forall j :: from <= j < r.value ==> !OccursAt(s, sep, j)
    ensures r.None? ==> forall j :: from <= j ==> !OccursAt(s, sep, j)
    decreases |s| - from
  {
    if from + |sep| > |s| then None
    else if s[from..from + |sep|] == sep then Some(from)
    else FindFrom(s, sep, from + 1)
  }

  /** The leftmost occurrence of `sep` in `s`. */
  function Find(s: string, sep: string): Option<nat>
    requires |sep| > 0
  {
    FindFrom(s, sep, 0)
  }

  /** The pieces of `s` between the leftmost non-overlapping occurrences of `sep`. */
  function SplitRaw(s: string, sep: string): (r: seq<string>)
    requires |sep| > 0
    ensures |r| >= 1
    decreases |s|
  {
    match Find(s, sep)
    case None => [s]
    case Some(i) => [s[..i]] + SplitRaw(s[i + |sep|..], sep)
  }

  function DropTrailingEmpty(parts: seq<string>): (r: seq<string>)
    ensures |r| <= |parts| && r == parts[..|r|]
    ensures |r| > 0 ==> r[|r| - 1] != ""
    ensures forall i :: |r| <= i < |parts| ==> parts[i] == ""
  {
    if |parts| > 0 && parts[|parts| - 1] == "" then DropTrailingEmpty(parts[..|parts| - 1])
    else parts
  }

  /** String.split(sep) with limit 0 for a separator that is a literal string:
      a string without the separator splits into itself; otherwise the pieces
      between separators, with trailing empty pieces dropped. */
  function Split(s: string, sep: string): seq<string>
    requires |sep| > 0
  {
    if Find(s, sep).None? then [s] else DropTrailingEmpty(SplitRaw(s, sep))
  }

  /** The first index at or after `from` whose character is a regex space. */
  function SpaceFrom(s: string, from: nat): (r: Option<nat>)
    ensures r.Some? ==> from <= r.value < |s| && IsRegexSpace(s[r.value])
    ensures r.Some? ==> forall j :: from <= j < r.value ==> !IsRegexSpace(s[j])
    ensures r.None? ==> forall j :: from <= j < |s| ==> !IsRegexSpace(s[j])
    decreases |s| - from
  {
    if from >= |s| then None
    else if IsRegexSpace(s[from]) then Some(from)
    else SpaceFrom(s, from + 1)
  }

  /** The first index at or after `from` whose character is not a regex space. */
  function SolidFrom(s: string, from: nat): (r: nat)
    requires from <= |s|
    ensures from <= r <= |s|
    ensures forall j :: from <= j < r ==> IsRegexSpace(s[j])
    ensures r < |s| ==> !IsRegexSpace(s[r])
    decreases |s| - from
  {
    if from == |s| || !IsRegexSpace(s[from]) then from else SolidFrom(s, from + 1)
  }

  /** The pieces of `s` between maximal runs of regex spaces. */
  function SplitRunsRaw(s: string): (r: seq<string>)
    ensures |r| >= 1
    decreases |s|
  {
    match SpaceFrom(s, 0)
    case None => [s]
    case Some(i) => [s[..i]] + SplitRunsRaw(s[SolidFrom(s, i)..])
  }

  /** String.split("\\s+") with limit 0. */
  function SplitWhitespace(s: string): seq<string> {
    if SpaceFrom(s, 0).None? then [s] else DropTrailingEmpty(SplitRunsRaw(s))
  }

  predicate IsDigit(c: char) {
    '0' <= c <= '9'
  }

  /** The value of a string of decimal digits. */
  function DigitsValue(d: string): (v: nat)
    requires forall i :: 0 <= i < |d| ==> IsDigit(d[i])
  {
    if d == [] then 0
    else
      assert IsDigit(d[|d| - 1]);
      DigitsValue(d[..|d| - 1]) * 10 + (d[|d| - 1] as int - '0' as int)
  }

  const MinInt: int := -0x8000_0000
  const MaxInt: int := 0x7FFF_FFFF

  /** Integer.parseInt, restricted to ASCII digits: an optional sign, at least one
      digit, and a value in the 32-bit range; anything else is a
      NumberFormatException, modelled as None. */
  function ParseInt(s: string): (r: Option<int>)
    ensures r.Some? ==> MinInt <= r.value <= MaxInt
  {
    if |s| == 0 then None
    else
      var signed := s[0] == '-' || s[0] == '+';
      var digits := if signed then s[1..] else s;
      if |digits| == 0 || exists i :: 0 <= i < |digits| && !IsDigit(digits[i]) then None
      else
        var v: int := if s[0] == '-' then 0 - (DigitsValue(digits) as int) else DigitsValue(digits);
        if MinInt <= v <= MaxInt then Some(v) else None
  }

  /** Random.nextInt(bound) for a given draw: the draw reduced into [0, bound)
      by repeated subtraction. Unlike Java, a bound of 0 is a precondition here;
      callers model the IllegalArgumentException themselves. */
  function NextInt(draw: nat, bound: int): (r: nat)
    requires bound > 0
    ensures r < bound
    decreases draw
  {
    if draw < bound then draw else NextInt(draw - bound, bound)
  }

  /** Every value in range is produced by some draw: by itself. */
  lemma NextIntCovers(i: nat, bound: int)
    requires i < bound
    ensures NextInt(i, bound) == i
  {
  }

  /** NextInt is the remainder of the draw by the bound: the draw is a whole
      multiple of the bound plus NextInt, which lies in [0, bound). */
  lemma {:induction false} NextIntIsRemainder(draw: nat, bound: int)
    requires bound > 0
    ensures exists q: nat :: draw == q * bound + NextInt(draw, bound)
    decreases draw
  {
    if draw < bound {
      assert draw == 0 * bound + NextInt(draw, bound);
    } else {
      NextIntIsRemainder(draw - bound, bound);
      var q: nat :| draw - bound == q * bound + NextInt(draw - bound, bound);
      assert draw == (q + 1) * bound + NextInt(draw, bound);
    }
  }
}
