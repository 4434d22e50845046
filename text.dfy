/** The few pieces of Python's `str` that the ingestion and retrieval code relies on:
    `isspace`/`strip`, `rfind`, the `in` substring test, slicing with negative
    indices, `s[:n]` and `sep.join(xs)`. Strings are sequences of code points, as
    Python's `str` is, so `|s|` is Python's `len(s)`. */
module Text {

  /** Python's `str.isspace` for one code point: the characters whose bidirectional
      class is WS, B or S, or whose general category is Zs. */
  predicate IsSpace(c: char) {
    var n := c as int;
    n == 0x20 || (0x09 <= n <= 0x0D) || (0x1C <= n <= 0x1F) || n == 0x85 || n == 0xA0
    || n == 0x1680 || (0x2000 <= n <= 0x200A) || n == 0x2028 || n == 0x2029
    || n == 0x202F || n == 0x205F || n == 0x3000
  }

  predicate AllSpace(s: string) {
    forall k :: 0 <= k < |s| ==> IsSpace(s[k])
  }

  /** Python's `s.strip()` with no argument: drops leading and trailing whitespace. */
  function Strip(s: string): (r: string)
    ensures |r| <= |s|
    ensures r != [] ==> !IsSpace(r[0]) && !IsSpace(r[|r| - 1])
  {
    if |s| > 0 && IsSpace(s[0]) then Strip(s[1..])
    else if |s| > 0 && IsSpace(s[|s| - 1]) then Strip(s[..|s| - 1])
    else s
  }

  /** What `strip` removes is whitespace on the two ends and nothing else:
      the result is the infix `s[i..j]` and everything outside it is whitespace. */
  lemma {:induction false} StripIsInfix(s: string) returns (i: nat, j: nat)
    ensures i <= j <= |s| && Strip(s) == s[i..j]
    ensures forall k :: 0 <= k < |s| && !(i <= k < j) ==> IsSpace(s[k])
    decreases |s|, 1
  {
    if |s| > 0 && IsSpace(s[0]) {
      i, j := StripLeading(s);
    } else if |s| > 0 && IsSpace(s[|s| - 1]) {
      i, j := StripTrailing(s);
    } else {
      i, j := 0, |s|;
    }
  }

  /** The case of `StripIsInfix` where the first character is whitespace. */
  lemma {:induction false} StripLeading(s: string) returns (i: nat, j: nat)
    requires |s| > 0 && IsSpace(s[0])
    ensures i <= j <= |s| && Strip(s) == s[i..j]
    ensures forall k :: 0 <= k < |s| && !(i <= k < j) ==> IsSpace(s[k])
    decreases |s|, 0
  {
    var t := s[1..];
    var i', j' := StripIsInfix(t);
    i, j := i' + 1, j' + 1;
    assert t[i'..j'] == s[i..j];
    forall k | 0 <= k < |s| && !(i <= k < j) ensures IsSpace(s[k]) {
      if k > 0 { assert s[k] == t[k - 1]; }
    }
  }

  /** The case of `StripIsInfix` where only the last character is whitespace. */
  lemma {:induction false} StripTrailing(s: string) returns (i: nat, j: nat)
    requires |s| > 0 && !IsSpace(s[0]) && IsSpace(s[|s| - 1])
    ensures i <= j <= |s| && Strip(s) == s[i..j]
    ensures forall k :: 0 <= k < |s| && !(i <= k < j) ==> IsSpace(s[k])
    decreases |s|, 0
  {
    var t := s[..|s| - 1];
    i, j := StripIsInfix(t);
    assert t[i..j] == s[i..j];
    forall k | 0 <= k < |s| && !(i <= k < j) ensures IsSpace(s[k]) {
      if k < |s| - 1 { assert s[k] == t[k]; }
    }
  }

  /** A string strips to nothing exactly when it is all whitespace. */
  lemma StripEmpty(s: string)
    ensures Strip(s) == [] <==> AllSpace(s)
  {
    var i, j := StripIsInfix(s);
    if Strip(s) != [] {
      assert !IsSpace(s[i]) by { assert s[i] == Strip(s)[0]; }
    }
  }

  /** `p` occurs in `s` starting at index `k`. */
  predicate Occurs(s: string, p: string, k: int) {
    0 <= k && k + |p| <= |s| && s[k..k + |p|] == p
  }

  /** Python's substring test `p in s`. */
  predicate Contains(s: string, p: string) {
    exists k :: 0 <= k <= |s| - |p| && Occurs(s, p, k)
  }

  /** The highest occurrence of `p` in `s` that starts at or below `k`, or -1. */
  function RFindBelow(s: string, p: string, k: int): (r: int)
    ensures r == -1 || (0 <= r <= k && Occurs(s, p, r))
    ensures forall j :: r < j <= k ==> !Occurs(s, p, j)
    decreases k + 1
  {
    if k < 0 then -1
    else if Occurs(s, p, k) then k
    else RFindBelow(s, p, k - 1)
  }

  /** Python's `s.rfind(p)`: the start of the last occurrence of `p`, or -1 when
      there is none. */
  function RFind(s: string, p: string): (r: int)
    ensures r == -1 || Occurs(s, p, r)
    ensures forall j :: r < j ==> !Occurs(s, p, j)
    ensures r == -1 <==> !Contains(s, p)
  {
    RFindBelow(s, p, |s| - |p|)
  }

  /** An occurrence with none after it is the one `rfind` reports. */
  lemma RFindIsLast(s: string, p: string, k: int)
    requires Occurs(s, p, k)
    requires forall j :: k < j <= |s| - |p| ==> !Occurs(s, p, j)
    ensures RFind(s, p) == k
  {
  }

  /** A pattern whose first character does not appear in `s` does not occur in it. */
  lemma RFindAbsent(s: string, p: string)
    requires |p| > 0 && forall k :: 0 <= k < |s| ==> s[k] != p[0]
    ensures RFind(s, p) == -1
  {
    forall k | 0 <= k <= |s| - |p| ensures !Occurs(s, p, k) {
      assert s[k..k + |p|][0] == s[k];
    }
  }

  /** Python's normalisation of one slice bound: a negative bound counts from the
      end, and the result is clamped to `0..len`. */
  function SliceBound(n: int, len: nat): (b: nat)
    ensures b <= len
    ensures 0 <= n <= len ==> b == n
  {
    if n < 0 then (if n + len < 0 then 0 else n + len)
    else if n > len then len
    else n
  }

  /** Python's `s[i:j]`. */
  function PySlice(s: string, i: int, j: int): (r: string)
    ensures |r| <= |s|
    ensures 0 <= i <= j <= |s| ==> r == s[i..j]
    ensures 0 <= i <= |s| && j >= |s| ==> r == s[i..]
  {
    var a := SliceBound(i, |s|);
    var b := SliceBound(j, |s|);
    if a < b then s[a..b] else []
  }

  /** Python's `s[:n]` for a non-negative `n`. */
  function Prefix(s: string, n: nat): (r: string)
    ensures |r| == if |s| <= n then |s| else n
    ensures r == s[..|r|]
  {
    if |s| <= n then s else s[..n]
  }

  /** Python's `sep.join(xs)`: it starts with the first element. */
  function Join(sep: string, xs: seq<string>): (r: string)
    ensures |xs| > 0 ==> xs[0] <= r
  {
    if |xs| == 0 then []
    else if |xs| == 1 then xs[0]
    else xs[0] + sep + Join(sep, xs[1..])
  }

  /** A joined list is as long as its elements and the separators between them. */
  lemma {:induction false} JoinShape(sep: string, xs: seq<string>)
    requires |xs| > 0
    ensures |Join(sep, xs)| == Lengths(xs) + (|xs| - 1) * |sep|
  {
    if |xs| > 1 {
      var rest := xs[1..];
      JoinShape(sep, rest);
      assert |Join(sep, xs)| == |xs[0]| + |sep| + |Join(sep, rest)|;
      assert Lengths(xs) == |xs[0]| + Lengths(rest);
      assert (|xs| - 1) * |sep| == (|rest| - 1) * |sep| + |sep|;
    }
  }

  /** The total length of a list of strings. */
  function Lengths(xs: seq<string>): nat
  {
    if |xs| == 0 then 0 else |xs[0]| + Lengths(xs[1..])
  }

  /** Python's ordering of `str`: lexicographic by code point, a proper prefix first. */
  predicate StrLess(a: string, b: string)
    decreases |a|
  {
    if |a| == 0 then |b| > 0
    else if |b| == 0 then false
    else if a[0] < b[0] then true
    else if a[0] == b[0] then StrLess(a[1..], b[1..])
    else false
  }

  lemma {:induction false} StrLessIrreflexive(a: string)
    ensures !StrLess(a, a)
    decreases |a|
  {
    if |a| > 0 { StrLessIrreflexive(a[1..]); }
  }

  lemma {:induction false} StrLessTransitive(a: string, b: string, c: string)
    requires StrLess(a, b) && StrLess(b, c)
    ensures StrLess(a, c)
    decreases |a|
  {
    if |a| > 0 && a[0] == b[0] && b[0] == c[0] {
      StrLessTransitive(a[1..], b[1..], c[1..]);
    }
  }

  lemma {:induction false} StrLessTotal(a: string, b: string)
    requires a != b
    ensures StrLess(a, b) || StrLess(b, a)
    decreases |a|
  {
    if |a| > 0 && |b| > 0 && a[0] == b[0] {
      assert a == [a[0]] + a[1..] && b == [b[0]] + b[1..];
      StrLessTotal(a[1..], b[1..]);
    }
  }
}
