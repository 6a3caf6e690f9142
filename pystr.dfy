/** The pieces of Python's `str` that the bot relies on: `split` with a
    separator (defined with the help of `find` and specified with the help of
    `join`, neither of which the bot calls), `strip()` without arguments, and
    `str(int)` for the decimal form of a user id. Strings are sequences of Unicode scalar values,
    as Python's `str` is a sequence of code points. */
module PyStr {
  import opened Wrappers

  /** The characters for which Python's `str.isspace()` holds, the set that
      `strip()` without arguments removes. */
  predicate IsSpace(c: char) {
    || ('\t' <= c <= '\r')
    || ('\U{1C}' <= c <= '\U{1F}')
    || c == ' '
    || c == '\U{85}'
    || c == '\U{A0}'
    || c == '\U{1680}'
    || ('\U{2000}' <= c <= '\U{200A}')
    || c == '\U{2028}'
    || c == '\U{2029}'
    || c == '\U{202F}'
    || c == '\U{205F}'
    || c == '\U{3000}'
  }

  ghost predicate AllSpace(s: string) {
    forall i :: 0 <= i < |s| ==> IsSpace(s[i])
  }

  /** `d` occurs in `s` starting at index `i`. */
  predicate OccursAt(s: string, d: string, i: int) {
    0 <= i && i + |d| <= |s| && s[i..i + |d|] == d
  }

  /** `d` occurs nowhere in `s`. */
  ghost predicate Free(s: string, d: string) {
    forall j :: !OccursAt(s, d, j)
  }

  /** In `a + d`, the first occurrence of `d` is the one right after `a`: a
      piece that is followed by the separator is cut exactly there. */
  ghost predicate DelimitedBy(a: string, d: string) {
    forall j :: 0 <= j < |a| ==> !OccursAt(a + d, d, j)
  }

  // ---------------------------------------------------------------------------
  // find
  // ---------------------------------------------------------------------------

  /** Python's `s.find(d, start)`: the leftmost occurrence of `d` at or after
      `start`, `None` where Python returns -1. */
  function FindFrom(s: string, d: string, start: nat): (r: Option<nat>)
    ensures r.Some? ==> start <= r.value && OccursAt(s, d, r.value)
    ensures forall j :: start <= j && (r.None? || j < r.value) ==> !OccursAt(s, d, j)
    decreases |s| - start
  {
    if start + |d| > |s| then None
    else if s[start..start + |d|] == d then Some(start)
    else FindFrom(s, d, start + 1)
  }

  function Find(s: string, d: string): Option<nat> {
    FindFrom(s, d, 0)
  }

  /** The first occurrence is unique: any index where `d` occurs and before
      which it does not is what `Find` returns. */
  lemma FindIsFirst(s: string, d: string, i: nat)
    requires OccursAt(s, d, i)
    requires forall j :: 0 <= j < i ==> !OccursAt(s, d, j)
    ensures Find(s, d) == Some(i)
  {
  }

  // ---------------------------------------------------------------------------
  // split and join
  // ---------------------------------------------------------------------------

  /** Python's `s.split(d)` for a non-empty separator (an empty one raises
      ValueError in Python): cut at each leftmost, non-overlapping occurrence. */
  function Split(s: string, d: string): (parts: seq<string>)
    requires |d| > 0
    ensures |parts| >= 1
    decreases |s|
  {
    match Find(s, d)
    case None => [s]
    case Some(i) => [s[..i]] + Split(s[i + |d|..], d)
  }

  /** A split yields a single piece exactly when the separator does not occur. */
  lemma SplitSingle(s: string, d: string)
    requires |d| > 0
    ensures |Split(s, d)| == 1 <==> Find(s, d).None?
  {
    var f := Find(s, d);
    if f.Some? {
      SplitStep(s, d, f.value);
    }
  }

  /** Python's `d.join(parts)`. */
  function Join(parts: seq<string>, d: string): string {
    if |parts| == 0 then ""
    else if |parts| == 1 then parts[0]
    else parts[0] + d + Join(parts[1..], d)
  }

  /** A string is the part before an occurrence, the occurrence, and the part after. */
  lemma CutAt(s: string, d: string, i: nat)
    requires OccursAt(s, d, i)
    ensures s == s[..i] + d + s[i + |d|..]
  {
    assert s == s[..i] + s[i..i + |d|] + s[i + |d|..];
  }

  lemma JoinCons(p: string, rest: seq<string>, d: string)
    requires |rest| >= 1
    ensures Join([p] + rest, d) == p + d + Join(rest, d)
  {
    assert ([p] + rest)[1..] == rest;
  }

  /** Joining the pieces with the separator gives back the string. */
  lemma {:induction false} SplitJoin(s: string, d: string)
    requires |d| > 0
    ensures Join(Split(s, d), d) == s
    decreases |s|
  {
    var f := Find(s, d);
    if f.Some? {
      var i := f.value;
      var rest := s[i + |d|..];
      SplitJoin(rest, d);
      JoinCons(s[..i], Split(rest, d), d);
      CutAt(s, d, i);
    }
  }

  /** One step of the split: the piece before the first separator, then the
      split of what follows it. */
  lemma SplitStep(s: string, d: string, i: nat)
    requires |d| > 0 && Find(s, d) == Some(i)
    ensures Split(s, d) == [s[..i]] + Split(s[i + |d|..], d)
  {
  }

  /** The first piece of a split holds no separator. */
  lemma FirstPieceFree(s: string, d: string, i: nat)
    requires |d| > 0 && Find(s, d) == Some(i)
    ensures Free(s[..i], d)
  {
    forall j | OccursAt(s[..i], d, j)
      ensures false
    {
      assert s[..i][j..j + |d|] == s[j..j + |d|];
      assert OccursAt(s, d, j);
    }
  }

  /** No piece of a split holds the separator. */
  lemma {:induction false} SplitPiecesFree(s: string, d: string, k: nat)
    requires |d| > 0
    requires k < |Split(s, d)|
    ensures Free(Split(s, d)[k], d)
    decreases |s|
  {
    var f := Find(s, d);
    if f.Some? {
      var i := f.value;
      var rest := s[i + |d|..];
      SplitStep(s, d, i);
      if k == 0 {
        FirstPieceFree(s, d, i);
      } else {
        SplitPiecesFree(rest, d, k - 1);
      }
    }
  }

  /** Splitting a string whose first piece is `a` (cut exactly at the first
      separator) yields `a` followed by the split of the remainder. */
  lemma SplitCons(a: string, d: string, t: string)
    requires |d| > 0
    requires DelimitedBy(a, d)
    ensures Split(a + d + t, d) == [a] + Split(t, d)
  {
    var s := a + d + t;
    assert s[|a|..|a| + |d|] == d;
    forall j | 0 <= j < |a|
      ensures !OccursAt(s, d, j)
    {
      if OccursAt(s, d, j) {
        assert s[j..j + |d|] == (a + d)[j..j + |d|];
        assert OccursAt(a + d, d, j);
        assert false;
      }
    }
    FindIsFirst(s, d, |a|);
    assert s[..|a|] == a;
    assert s[|a| + |d|..] == t;
  }

  /** A string without the separator splits into itself alone. */
  lemma SplitFree(c: string, d: string)
    requires |d| > 0
    requires Free(c, d)
    ensures Split(c, d) == [c]
  {
  }

  // ---------------------------------------------------------------------------
  // strip
  // ---------------------------------------------------------------------------

  /** Number of whitespace characters at the front of `s`. */
  function LeadingSpace(s: string): (k: nat)
    ensures k <= |s|
    ensures forall i :: 0 <= i < k ==> IsSpace(s[i])
    ensures k < |s| ==> !IsSpace(s[k])
    decreases |s|
  {
    if |s| == 0 || !IsSpace(s[0]) then 0 else 1 + LeadingSpace(s[1..])
  }

  /** Number of whitespace characters at the back of `s`. */
  function TrailingSpace(s: string): (k: nat)
    ensures k <= |s|
    ensures forall i :: |s| - k <= i < |s| ==> IsSpace(s[i])
    ensures k < |s| ==> !IsSpace(s[|s| - 1 - k])
    decreases |s|
  {
    if |s| == 0 || !IsSpace(s[|s| - 1]) then 0 else 1 + TrailingSpace(s[..|s| - 1])
  }

  /** Python's `s.strip()`: `s` without its leading and trailing whitespace.
      The result sits in `s` right after the leading whitespace, nothing but
      whitespace surrounds it, and it neither starts nor ends with whitespace. */
  function Strip(s: string): (r: string)
    ensures LeadingSpace(s) + |r| <= |s|
    ensures r == s[LeadingSpace(s)..LeadingSpace(s) + |r|]
    ensures AllSpace(s[..LeadingSpace(s)]) && AllSpace(s[LeadingSpace(s) + |r|..])
    ensures r == [] || (!IsSpace(r[0]) && !IsSpace(r[|r| - 1]))
  {
    var rest := s[LeadingSpace(s)..];
    var r := rest[..|rest| - TrailingSpace(rest)];
    assert s[LeadingSpace(s) + |r|..] == rest[|r|..];
    r
  }

  /** The leading whitespace is exactly the prefix of spaces that is followed
      by a non-space or by the end. */
  lemma LeadingSpaceIs(s: string, k: nat)
    requires k <= |s|
    requires forall i :: 0 <= i < k ==> IsSpace(s[i])
    requires k < |s| ==> !IsSpace(s[k])
    ensures LeadingSpace(s) == k
  {
  }

  /** Likewise for the trailing whitespace. */
  lemma TrailingSpaceIs(s: string, k: nat)
    requires k <= |s|
    requires forall i :: |s| - k <= i < |s| ==> IsSpace(s[i])
    requires k < |s| ==> !IsSpace(s[|s| - 1 - k])
    ensures TrailingSpace(s) == k
  {
  }

  /** Strip is pinned down by its contract: whatever is surrounded only by
      whitespace and neither starts nor ends with whitespace is what `strip()`
      returns. */
  lemma StripExact(pre: string, mid: string, post: string)
    requires AllSpace(pre) && AllSpace(post)
    requires mid == [] || (!IsSpace(mid[0]) && !IsSpace(mid[|mid| - 1]))
    ensures Strip(pre + mid + post) == mid
  {
    var s := pre + mid + post;
    if mid == [] {
      assert s == pre + post;
      assert forall i :: 0 <= i < |s| ==> IsSpace(s[i]);
      LeadingSpaceIs(s, |s|);
    } else {
      assert forall i :: 0 <= i < |pre| ==> s[i] == pre[i];
      assert s[|pre|] == mid[0];
      LeadingSpaceIs(s, |pre|);
      var rest := mid + post;
      assert s[|pre|..] == rest;
      assert forall i :: |mid| <= i < |rest| ==> rest[i] == post[i - |mid|];
      assert rest[|rest| - 1 - |post|] == mid[|mid| - 1];
      TrailingSpaceIs(rest, |post|);
      assert rest[..|mid|] == mid;
    }
  }

  /** Stripping twice is stripping once. */
  lemma StripIdempotent(s: string)
    ensures Strip(Strip(s)) == Strip(s)
  {
    var r := Strip(s);
    StripExact([], r, []);
    assert [] + r + [] == r;
  }

  // ---------------------------------------------------------------------------
  // str(int)
  // ---------------------------------------------------------------------------

  predicate IsDigit(c: char) {
    '0' <= c <= '9'
  }

  predicate AllDigits(s: string) {
    forall i :: 0 <= i < |s| ==> IsDigit(s[i])
  }

  function DigitChar(d: nat): (c: char)
    requires d < 10
    ensures IsDigit(c)
  {
    ('0' as int + d) as char
  }

  function DigitValue(c: char): nat
    requires IsDigit(c)
  {
    c as int - '0' as int
  }

  /** Python's `str(n)` for `n >= 0`: decimal digits, most significant first. */
  function NatToDecimal(n: nat): (s: string)
    ensures |s| >= 1 && AllDigits(s)
    decreases n
  {
    if n < 10 then [DigitChar(n)] else NatToDecimal(n / 10) + [DigitChar(n % 10)]
  }

  /** The number a string of decimal digits denotes. */
  function DecimalValue(s: string): nat
    requires AllDigits(s)
  {
    if s == [] then 0 else 10 * DecimalValue(s[..|s| - 1]) + DigitValue(s[|s| - 1])
  }

  lemma {:induction false} DecimalRoundTrip(n: nat)
    ensures DecimalValue(NatToDecimal(n)) == n
    decreases n
  {
    var s := NatToDecimal(n);
    if n >= 10 {
      DecimalRoundTrip(n / 10);
      assert s[..|s| - 1] == NatToDecimal(n / 10);
    }
  }

  /** Python's `str(n)` (the `{n}` of an f-string) for any integer. */
  function IntToDecimal(n: int): (s: string)
    ensures |s| >= 1
    ensures s[0] == '-' <==> n < 0
    ensures AllDigits(s[1..]) && (n >= 0 ==> AllDigits(s))
  {
    if n < 0 then "-" + NatToDecimal(-n) else NatToDecimal(n)
  }

  /** Reads back the output of `IntToDecimal`; `None` for anything else. */
  function ParseInt(s: string): Option<int> {
    if |s| >= 2 && s[0] == '-' && AllDigits(s[1..]) then Some(-(DecimalValue(s[1..]) as int))
    else if |s| >= 1 && AllDigits(s) then Some(DecimalValue(s))
    else None
  }

  lemma IntRoundTrip(n: int)
    ensures ParseInt(IntToDecimal(n)) == Some(n)
  {
    var s := IntToDecimal(n);
    if n < 0 {
      DecimalRoundTrip(-n);
      assert s[1..] == NatToDecimal(-n);
    } else {
      DecimalRoundTrip(n);
    }
  }
}
