/**
 * Classified lines of a `print-type-size` report (src/parse_layouts.rs:6-17,
 * 48-50, 78-190).
 *
 * The regular expressions themselves are not modelled: which of them match a
 * line, and what they capture, is an input to `Classify`. What is modelled is
 * everything the loop decides around them: the blank-line test, the order in
 * which the patterns are tried, and the test for the marker token on lines
 * that no pattern recognises.
 */
module Lines {
  import opened Types

  /** What one pattern captures; sizes are the parsed digit runs. */
  datatype Shape =
    | TypeHeader(name: string, size: nat, alignment: nat)
    | VariantHeader(name: string, size: nat)
    | Discriminant(size: nat)
    | UpvarShape(name: string, size: nat, maybeOffset: Option<nat>, maybeAlignment: Option<nat>)
    | LocalShape(name: string, size: nat, typeInfo: Option<string>)
    | FieldShape(name: string, size: nat, maybeOffset: Option<nat>, maybeAlignment: Option<nat>)
    | PaddingShape(size: nat)
    | EndPaddingShape(size: nat)

  /** A report line with its verbatim text and its classification. */
  datatype Line =
    | Blank(text: string)
    | Recognised(text: string, shape: Shape)
    | Unrecognised(text: string, hasMarker: bool)

  const Marker: string := "print-type-size"

  /** The position of a shape's pattern in the order the loop tries them. */
  function Rank(shape: Shape): nat
  {
    match shape
    case TypeHeader(_, _, _) => 0
    case VariantHeader(_, _) => 1
    case Discriminant(_) => 2
    case UpvarShape(_, _, _, _) => 3
    case LocalShape(_, _, _) => 4
    case FieldShape(_, _, _, _) => 5
    case PaddingShape(_) => 6
    case EndPaddingShape(_) => 7
  }

  /** Unicode White_Space, the set `str::trim` removes. */
  predicate IsWhitespace(c: char)
  {
    var n := c as int;
    (0x09 <= n <= 0x0D) || n == 0x20 || n == 0x85 || n == 0xA0 || n == 0x1680 ||
    (0x2000 <= n <= 0x200A) || n == 0x2028 || n == 0x2029 || n == 0x202F ||
    n == 0x205F || n == 0x3000
  }

  /** Every character of `s` is whitespace. */
  predicate AllWhitespace(s: string)
  {
    forall i :: 0 <= i < |s| ==> IsWhitespace(s[i])
  }

  /** `str::trim_start`: drop the leading whitespace. */
  function TrimStart(s: string): (r: string)
    ensures |r| <= |s| && r == s[|s| - |r|..]
    ensures r == [] <==> AllWhitespace(s)
    ensures r != [] ==> !IsWhitespace(r[0])
  {
    if s != [] && IsWhitespace(s[0]) then
      assert forall i :: 1 <= i < |s| ==> s[i] == s[1..][i - 1];
      TrimStart(s[1..])
    else s
  }

  /** `str::trim_end`: drop the trailing whitespace. */
  function TrimEnd(s: string): (r: string)
    ensures |r| <= |s| && r == s[..|r|]
    ensures r == [] <==> AllWhitespace(s)
    ensures r != [] ==> !IsWhitespace(r[|r| - 1])
  {
    if s != [] && IsWhitespace(s[|s| - 1]) then
      assert forall i :: 0 <= i < |s| - 1 ==> s[i] == s[..|s| - 1][i];
      TrimEnd(s[..|s| - 1])
    else s
  }

  /** Everything `trim_start` drops is whitespace. */
  lemma {:induction false} TrimStartDropsOnlyWhitespace(s: string)
    ensures AllWhitespace(s[..|s| - |TrimStart(s)|])
    decreases |s|
  {
    if s != [] && IsWhitespace(s[0]) {
      var r := TrimStart(s[1..]);
      TrimStartDropsOnlyWhitespace(s[1..]);
      assert s[..|s| - |r|] == [s[0]] + s[1..][..|s| - 1 - |r|];
    }
  }

  /** Everything `trim_end` drops is whitespace. */
  lemma {:induction false} TrimEndDropsOnlyWhitespace(s: string)
    ensures AllWhitespace(s[|TrimEnd(s)|..])
    decreases |s|
  {
    if s != [] && IsWhitespace(s[|s| - 1]) {
      var r := TrimEnd(s[..|s| - 1]);
      TrimEndDropsOnlyWhitespace(s[..|s| - 1]);
      assert s[|r|..] == s[..|s| - 1][|r|..] + [s[|s| - 1]];
    }
  }

  /** `str::trim` */
  function Trim(s: string): string
  {
    TrimEnd(TrimStart(s))
  }

  /** `line.trim().is_empty()`: the line is whitespace throughout. */
  predicate IsBlank(s: string): (blank: bool)
    ensures blank <==> AllWhitespace(s)
  {
    Trim(s) == []
  }

  /** `s.contains(pat)`, by scanning from the left. */
  function Contains(s: string, pat: string): (found: bool)
    ensures found ==> |pat| <= |s|
    ensures pat == [] ==> found
    decreases |s|
  {
    if |s| < |pat| then false
    else s[..|pat|] == pat || Contains(s[1..], pat)
  }

  /** `pat` occurs in `s` at offset `i`. */
  ghost predicate OccursAt(s: string, pat: string, i: int)
  {
    0 <= i && i + |pat| <= |s| && s[i..i + |pat|] == pat
  }

  lemma {:induction false} ContainsIff(s: string, pat: string)
    ensures Contains(s, pat) <==> exists i :: OccursAt(s, pat, i)
    decreases |s|
  {
    if |s| < |pat| {
    } else if s[..|pat|] == pat {
      assert OccursAt(s, pat, 0);
    } else {
      ContainsIff(s[1..], pat);
      if Contains(s[1..], pat) {
        var i :| OccursAt(s[1..], pat, i);
        assert s[1..][i..i + |pat|] == s[i + 1..i + 1 + |pat|];
        assert OccursAt(s, pat, i + 1);
      }
      if i :| OccursAt(s, pat, i) {
        assert i != 0;
        assert s[1..][i - 1..i - 1 + |pat|] == s[i..i + |pat|];
        assert OccursAt(s[1..], pat, i - 1);
      }
    }
  }

  /** The first of the matched shapes whose pattern the loop tries first. */
  function FirstByRank(matches: seq<Shape>): (s: Shape)
    requires matches != []
    ensures s in matches
    ensures forall t :: t in matches ==> Rank(s) <= Rank(t)
  {
    if |matches| == 1 then matches[0]
    else
      var rest := FirstByRank(matches[1..]);
      assert forall t :: t in matches ==> t == matches[0] || t in matches[1..];
      if Rank(matches[0]) <= Rank(rest) then matches[0] else rest
  }

  /**
   * Classification of one line, given the shapes captured by every pattern
   * that matched it: a blank line is never tried, a matched line takes the
   * pattern tried first, and an unmatched line records whether it carries
   * the marker token.
   */
  function Classify(text: string, matches: seq<Shape>): (line: Line)
    ensures line.text == text
    ensures line.Blank? <==> IsBlank(text)
    ensures line.Recognised? <==> !IsBlank(text) && matches != []
    ensures line.Recognised? ==>
              line.shape in matches && forall t :: t in matches ==> Rank(line.shape) <= Rank(t)
    ensures line.Unrecognised? ==> (line.hasMarker <==> exists i :: OccursAt(text, Marker, i))
  {
    if IsBlank(text) then Blank(text)
    else if matches == [] then
      ContainsIff(text, Marker);
      Unrecognised(text, Contains(text, Marker))
    else Recognised(text, FirstByRank(matches))
  }

  /** A run of `n` backticks. */
  function Ticks(n: nat): (t: string)
    ensures |t| == n && forall k :: 0 <= k < n ==> t[k] == '`'
  {
    seq(n, _ => '`')
  }

  /** `trim_start_matches('`')`: `s` is the result behind a run of backticks. */
  function TrimLeadingTicks(s: string): (r: string)
    ensures |r| <= |s| && s == Ticks(|s| - |r|) + r
    ensures r != [] ==> r[0] != '`'
  {
    if s != [] && s[0] == '`' then
      var r := TrimLeadingTicks(s[1..]);
      assert Ticks(|s| - |r|) == [s[0]] + Ticks(|s| - 1 - |r|);
      r
    else s
  }

  /** `trim_end_matches('`')`: `s` is the result followed by a run of backticks. */
  function TrimTrailingTicks(s: string): (r: string)
    ensures |r| <= |s| && s == r + Ticks(|s| - |r|)
    ensures r != [] ==> r[|r| - 1] != '`'
  {
    if s != [] && s[|s| - 1] == '`' then
      var r := TrimTrailingTicks(s[..|s| - 1]);
      assert Ticks(|s| - |r|) == Ticks(|s| - 1 - |r|) + [s[|s| - 1]];
      assert s == s[..|s| - 1] + [s[|s| - 1]];
      r
    else s
  }

  /**
   * `trim_matches('`')`, applied to a captured variant name: `s` is the
   * result wrapped in runs of backticks, and the result neither starts nor
   * ends with one.
   */
  function TrimTicks(s: string): (r: string)
    ensures r != [] ==> r[0] != '`' && r[|r| - 1] != '`'
    ensures var i := |s| - |TrimLeadingTicks(s)|;
            i + |r| <= |s| && s == Ticks(i) + r + Ticks(|s| - i - |r|)
  {
    var t := TrimLeadingTicks(s);
    var r := TrimTrailingTicks(t);
    assert r != [] ==> r[0] == t[0];
    r
  }

  lemma TrimTicksIdempotent(s: string)
    ensures TrimTicks(TrimTicks(s)) == TrimTicks(s)
  {
    var r := TrimTicks(s);
    assert TrimLeadingTicks(r) == r;
    assert TrimTrailingTicks(r) == r;
  }
}
