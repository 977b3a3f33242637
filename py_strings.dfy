/** The three Python string operations the screener relies on:
    `str.endswith`, `str.strip` (no argument) and `sep.join`. */
module PyStrings {

  import opened Outcomes

  /** `s.endswith(suffix)`: a case-sensitive comparison of the last characters. */
  predicate EndsWith(s: string, suffix: string)
  {
    |suffix| <= |s| && s[|s| - |suffix|..] == suffix
  }

  /** `s.endswith(suffix)` holds exactly when `s` is some stem followed by `suffix`. */
  lemma EndsWithIffStem(s: string, suffix: string)
    ensures EndsWith(s, suffix) <==> exists stem :: s == stem + suffix
  {
    if EndsWith(s, suffix) {
      var stem := s[..|s| - |suffix|];
      assert s == stem + suffix;
    }
    if exists stem :: s == stem + suffix {
      var stem :| s == stem + suffix;
      assert s[|s| - |suffix|..] == suffix;
    }
  }

  /** The characters Python's `str.isspace` accepts, which `str.strip()` removes. */
  predicate IsSpace(c: char)
  {
    var n := c as int;
    (0x09 <= n <= 0x0D) || (0x1C <= n <= 0x20) || n == 0x85 || n == 0xA0
    || n == 0x1680 || (0x2000 <= n <= 0x200A) || n == 0x2028 || n == 0x2029
    || n == 0x202F || n == 0x205F || n == 0x3000
  }

  /** Every character of `s` is white space (vacuously so for the empty string). */
  predicate IsBlank(s: string)
  {
    forall i :: 0 <= i < |s| ==> IsSpace(s[i])
  }

  /** `s.lstrip()`: the suffix of `s` left after dropping leading white space. */
  function LStrip(s: string): (r: string)
    ensures |r| <= |s| && r == s[|s| - |r|..]
    ensures IsBlank(s[..|s| - |r|])
    ensures r == "" || !IsSpace(r[0])
  {
    if |s| > 0 && IsSpace(s[0]) then
      var r := LStrip(s[1..]);
      assert s[..|s| - |r|] == [s[0]] + s[1..][..|s[1..]| - |r|];
      r
    else
      s
  }

  /** `s.rstrip()`: the prefix of `s` left after dropping trailing white space. */
  function RStrip(s: string): (r: string)
    ensures |r| <= |s| && r == s[..|r|]
    ensures IsBlank(s[|r|..])
    ensures r == "" || !IsSpace(r[|r| - 1])
  {
    if |s| > 0 && IsSpace(s[|s| - 1]) then
      var r := RStrip(s[..|s| - 1]);
      assert s[|r|..] == s[..|s| - 1][|r|..] + [s[|s| - 1]];
      r
    else
      s
  }

  /** `s.strip()`. */
  function Strip(s: string): string
  {
    RStrip(LStrip(s))
  }

  /** `not s.strip()` holds exactly when `s` consists of white space only. */
  lemma StripEmptyIffBlank(s: string)
    ensures Strip(s) == "" <==> IsBlank(s)
  {
  }

  /** `sep.join(parts)`: the parts in order with `sep` between neighbours. */
  function Join(sep: string, parts: seq<string>): string
  {
    if |parts| == 0 then ""
    else if |parts| == 1 then parts[0]
    else parts[0] + sep + Join(sep, parts[1..])
  }

  /** Joining two non-empty lists puts exactly one separator at the seam. */
  lemma {:induction false} JoinAppend(sep: string, a: seq<string>, b: seq<string>)
    requires |a| > 0 && |b| > 0
    ensures Join(sep, a + b) == Join(sep, a) + sep + Join(sep, b)
  {
    if |a| > 1 {
      assert (a + b)[1..] == a[1..] + b;
      JoinAppend(sep, a[1..], b);
    } else {
      assert (a + b)[1..] == b;
    }
  }

  /** The joined text is as long as its parts plus one separator per seam. */
  lemma {:induction false} JoinLength(sep: string, parts: seq<string>)
    requires |parts| > 0
    ensures |Join(sep, parts)| == TotalLength(parts) + (|parts| - 1) * |sep|
  {
    if |parts| > 1 {
      JoinLength(sep, parts[1..]);
    }
  }

  function TotalLength(parts: seq<string>): nat
  {
    if parts == [] then 0 else |parts[0]| + TotalLength(parts[1..])
  }

  function Lengths(parts: seq<string>): (lens: seq<nat>)
    ensures |lens| == |parts|
    ensures forall i :: 0 <= i < |parts| ==> lens[i] == |parts[i]|
  {
    if parts == [] then [] else [|parts[0]|] + Lengths(parts[1..])
  }

  /** Cuts `s` into pieces of the given lengths, demanding exactly one space
      between neighbouring pieces and nothing left over; the inverse of
      joining with a single space once the lengths of the parts are known. */
  function SplitBySpaces(s: string, lens: seq<nat>): Option<seq<string>>
    decreases |lens|
  {
    if |lens| == 0 then
      if s == "" then Some([]) else None
    else if |lens| == 1 then
      if |s| == lens[0] then Some([s]) else None
    else if lens[0] < |s| && s[lens[0]] == ' ' then
      match SplitBySpaces(s[lens[0] + 1..], lens[1..])
      case Some(rest) => Some([s[..lens[0]]] + rest)
      case None => None
    else
      None
  }

  /** Joining with one space loses nothing: the parts come back, in order,
      from the joined text and their lengths. */
  lemma {:induction false} JoinSplitRoundTrip(parts: seq<string>)
    ensures SplitBySpaces(Join(" ", parts), Lengths(parts)) == Some(parts)
  {
    if |parts| > 1 {
      var s := Join(" ", parts);
      var n := |parts[0]|;
      assert s == parts[0] + " " + Join(" ", parts[1..]);
      assert s[n] == ' ';
      assert s[..n] == parts[0];
      assert s[n + 1..] == Join(" ", parts[1..]);
      assert Lengths(parts)[1..] == Lengths(parts[1..]);
      JoinSplitRoundTrip(parts[1..]);
      assert [parts[0]] + parts[1..] == parts;
    } else if |parts| == 1 {
      assert [parts[0]] == parts;
    }
  }
}
