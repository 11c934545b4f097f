/** The few Python string operations the pipeline relies on. */
module Text {

  /** The characters Python's `str.strip()` removes (`str.isspace`), by code point. */
  predicate IsSpace(c: char) {
    var n := c as int;
    || 0x09 <= n <= 0x0D || 0x1C <= n <= 0x20 || n == 0x85 || n == 0xA0 || n == 0x1680
    || 0x2000 <= n <= 0x200A || n == 0x2028 || n == 0x2029 || n == 0x202F || n == 0x205F || n == 0x3000
  }

  predicate AllSpace(s: string) {
    forall i :: 0 <= i < |s| ==> IsSpace(s[i])
  }

  /** `s.lstrip()`: the suffix of `s` left after its leading white space. */
  function StripLeft(s: string): (r: string)
    ensures |r| <= |s| && r == s[|s| - |r|..]
    ensures AllSpace(s[..|s| - |r|])
    ensures r == [] || !IsSpace(r[0])
  {
    if s != [] && IsSpace(s[0]) then StripLeft(s[1..]) else s
  }

  /** `s.rstrip()`: the prefix of `s` left before its trailing white space. */
  function StripRight(s: string): (r: string)
    ensures |r| <= |s| && r == s[..|r|]
    ensures AllSpace(s[|r|..])
    ensures r == [] || !IsSpace(r[|r| - 1])
  {
    if s != [] && IsSpace(s[|s| - 1]) then StripRight(s[..|s| - 1]) else s
  }

  /** `s.strip()`. */
  function Strip(s: string): string {
    StripRight(StripLeft(s))
  }

  /** Stripping removes only white space from the two ends and leaves none there. */
  lemma StripShape(s: string)
    ensures exists i, j :: 0 <= i <= j <= |s| && Strip(s) == s[i..j] && AllSpace(s[..i]) && AllSpace(s[j..])
    ensures Strip(s) == [] || (!IsSpace(Strip(s)[0]) && !IsSpace(Strip(s)[|Strip(s)| - 1]))
  {
    var l := StripLeft(s);
    var r := StripRight(l);
    var i := |s| - |l|;
    var j := i + |r|;
    assert r == s[i..j];
    assert s[j..] == l[|r|..];
    assert AllSpace(s[..i]) && AllSpace(s[j..]);
    StripTrims(s);
  }

  /** A stripped string has no white space at either end. */
  lemma StripTrims(s: string)
    ensures Strip(s) == [] || (!IsSpace(Strip(s)[0]) && !IsSpace(Strip(s)[|Strip(s)| - 1]))
  {
    var l := StripLeft(s);
    var r := StripRight(l);
    if r != [] {
      assert r[0] == l[0];
    }
  }

  /** A string that already has no white space at its ends is its own strip. */
  lemma StripOfTrimmed(s: string)
    requires s == [] || (!IsSpace(s[0]) && !IsSpace(s[|s| - 1]))
    ensures Strip(s) == s
  {
  }

  /** `strip()` is idempotent. */
  lemma StripIdempotent(s: string)
    ensures Strip(Strip(s)) == Strip(s)
  {
    StripTrims(s);
    StripOfTrimmed(Strip(s));
  }

  /** Padding with white space on both sides does not change the strip of a trimmed string. */
  lemma StripPadded(w1: string, x: string, w2: string)
    requires AllSpace(w1) && AllSpace(w2)
    requires x != [] && !IsSpace(x[0]) && !IsSpace(x[|x| - 1])
    ensures Strip(w1 + x + w2) == x
  {
    var y := x + w2;
    assert w1 + x + w2 == w1 + y;
    assert y[0] == x[0];
    StripLeftPadded(w1, y);
    StripRightPadded(x, w2);
  }

  lemma {:induction false} StripLeftPadded(w: string, y: string)
    requires AllSpace(w)
    requires y != [] && !IsSpace(y[0])
    ensures StripLeft(w + y) == y
  {
    if w != [] {
      assert (w + y)[1..] == w[1..] + y;
      StripLeftPadded(w[1..], y);
    } else {
      assert w + y == y;
    }
  }

  lemma {:induction false} StripRightPadded(y: string, w: string)
    requires AllSpace(w)
    requires y != [] && !IsSpace(y[|y| - 1])
    ensures StripRight(y + w) == y
  {
    if w != [] {
      assert (y + w)[..|y + w| - 1] == y + w[..|w| - 1];
      StripRightPadded(y, w[..|w| - 1]);
    } else {
      assert y + w == y;
    }
  }

  /** `s.startswith(p)`. */
  predicate StartsWith(s: string, p: string) {
    |p| <= |s| && s[..|p|] == p
  }

  /** `s.endswith(p)`. */
  predicate EndsWith(s: string, p: string) {
    |p| <= |s| && s[|s| - |p|..] == p
  }

  /** Python's `p in s` on strings: `p` occurs in `s` at some position. */
  predicate IsInfix(p: string, s: string)
    decreases |s|
  {
    StartsWith(s, p) || (s != [] && IsInfix(p, s[1..]))
  }

  /** `p` occurs in `s` starting at offset `k`. */
  predicate OccursAt(p: string, s: string, k: int) {
    0 <= k <= |s| - |p| && s[k..k + |p|] == p
  }

  /** An occurrence inside an occurrence is an occurrence in the outer text. */
  lemma OccursWithin(p: string, q: string, s: string, j: int, k: int)
    requires OccursAt(p, q, j) && OccursAt(q, s, k)
    ensures OccursAt(p, s, k + j)
  {
    assert forall m :: 0 <= m < |p| ==> s[k + j + m] == q[j + m] == p[m];
  }

  /** A string occurs where it is placed in a concatenation. */
  lemma OccursInside(x: string, p: string, y: string)
    ensures OccursAt(p, x + p + y, |x|)
  {
    assert (x + p + y)[|x|..|x| + |p|] == p;
  }

  lemma OccursAtFront(p: string, y: string)
    ensures OccursAt(p, p + y, 0)
  {
    assert (p + y)[..|p|] == p;
  }

  lemma OccursAtBack(x: string, p: string)
    ensures OccursAt(p, x + p, |x|)
  {
    assert (x + p)[|x|..] == p;
  }

  /** A prefix of an occurrence occurs where the occurrence does. */
  lemma PrefixOccursWithin(p: string, q: string, s: string, k: int)
    requires OccursAt(p, q, 0) && OccursAt(q, s, k)
    ensures OccursAt(p, s, k)
  {
    OccursWithin(p, q, s, 0, k);
  }

  /** `p in s` holds exactly when `p` is found at some offset of `s`. */
  lemma {:induction false} IsInfixAt(p: string, s: string)
    ensures IsInfix(p, s) <==> exists k :: OccursAt(p, s, k)
    decreases |s|
  {
    if StartsWith(s, p) {
      assert OccursAt(p, s, 0);
    } else if s != [] {
      IsInfixAt(p, s[1..]);
      if IsInfix(p, s[1..]) {
        var k :| OccursAt(p, s[1..], k);
        assert s[k + 1..k + 1 + |p|] == s[1..][k..k + |p|];
        assert OccursAt(p, s, k + 1);
      }
      if exists k :: OccursAt(p, s, k) {
        var k :| OccursAt(p, s, k);
        assert k != 0;
        assert s[1..][k - 1..k - 1 + |p|] == s[k..k + |p|];
        assert OccursAt(p, s[1..], k - 1);
      }
    }
  }

  /** Every string contains itself, so an exact match is also a substring match. */
  lemma InfixOfSelf(s: string)
    ensures IsInfix(s, s)
  {
    assert s[..|s|] == s;
  }

  /** `s[:n]` for a non-negative `n`. */
  function Take(s: string, n: nat): (r: string)
    ensures |r| == if |s| <= n then |s| else n
    ensures r == s[..|r|]
  {
    if |s| <= n then s else s[..n]
  }

  predicate IsDigit(c: char) {
    '0' <= c <= '9'
  }

  function DigitChar(d: nat): (c: char)
    requires d < 10
    ensures IsDigit(c)
  {
    ['0', '1', '2', '3', '4', '5', '6', '7', '8', '9'][d]
  }

  function DigitValue(c: char): nat
    requires IsDigit(c)
  {
    (c as int - '0' as int) as nat
  }

  /** `str(n)` for a non-negative integer, as f-strings render it. */
  function Decimal(n: nat): (r: string)
    ensures r != [] && forall i :: 0 <= i < |r| ==> IsDigit(r[i])
    ensures n == 0 <==> r == "0"
    decreases n
  {
    if n < 10 then [DigitChar(n)] else Decimal(n / 10) + [DigitChar(n % 10)]
  }

  /** The value of a string of decimal digits. */
  function DigitsValue(s: string): nat
    requires forall i :: 0 <= i < |s| ==> IsDigit(s[i])
    decreases |s|
  {
    if s == [] then 0 else 10 * DigitsValue(s[..|s| - 1]) + DigitValue(s[|s| - 1])
  }

  /** Rendering a count in decimal loses nothing: reading the digits back gives the count. */
  lemma {:induction false} DecimalValue(n: nat)
    ensures DigitsValue(Decimal(n)) == n
    decreases n
  {
    if n >= 10 {
      var d := Decimal(n);
      assert d[..|d| - 1] == Decimal(n / 10);
      DecimalValue(n / 10);
    }
  }

  /** `sep.join(parts)`. */
  function Join(parts: seq<string>, sep: string): (r: string)
    decreases |parts|
  {
    if parts == [] then ""
    else if |parts| == 1 then parts[0]
    else parts[0] + sep + Join(parts[1..], sep)
  }

  /** Where the `i`-th part starts in `sep.join(parts)`. */
  function JoinOffset(parts: seq<string>, sep: string, i: nat): nat
    requires i <= |parts|
    decreases i
  {
    if i == 0 then 0 else JoinOffset(parts, sep, i - 1) + |parts[i - 1]| + |sep|
  }

  /** Every part appears verbatim in the joined text, at its offset. */
  lemma {:induction false} JoinContainsParts(parts: seq<string>, sep: string, i: nat)
    requires i < |parts|
    ensures OccursAt(parts[i], Join(parts, sep), JoinOffset(parts, sep, i))
    decreases i
  {
    if |parts| == 1 {
      OccursAtFront(parts[0], []);
      assert parts[0] + [] == parts[0];
    } else if i == 0 {
      OccursAtFront(parts[0], sep + Join(parts[1..], sep));
      assert Join(parts, sep) == parts[0] + (sep + Join(parts[1..], sep));
    } else {
      var tail := parts[1..];
      JoinContainsParts(tail, sep, i - 1);
      JoinOffsetShift(parts, sep, i);
      assert tail[i - 1] == parts[i];
      assert Join(parts, sep) == (parts[0] + sep) + Join(tail, sep);
      OccursAfter(parts[0] + sep, Join(tail, sep), parts[i], JoinOffset(tail, sep, i - 1));
    }
  }

  /** An occurrence in `y` is an occurrence in `x + y`, shifted by `|x|`. */
  lemma OccursAfter(x: string, y: string, p: string, k: int)
    requires OccursAt(p, y, k)
    ensures OccursAt(p, x + y, |x| + k)
  {
    assert (x + y)[|x| + k..|x| + k + |p|] == y[k..k + |p|];
  }

  /** A part of the form `head + tail` shows its `head` at the part's offset in the joined text. */
  lemma JoinShowsHead(parts: seq<string>, sep: string, i: nat, head: string, tail: string)
    requires i < |parts| && parts[i] == head + tail
    ensures OccursAt(parts[i], Join(parts, sep), JoinOffset(parts, sep, i))
    ensures OccursAt(head, Join(parts, sep), JoinOffset(parts, sep, i))
  {
    JoinContainsParts(parts, sep, i);
    OccursAtFront(head, tail);
    PrefixOccursWithin(head, parts[i], Join(parts, sep), JoinOffset(parts, sep, i));
  }

  lemma {:induction false} JoinOffsetShift(parts: seq<string>, sep: string, i: nat)
    requires 1 <= i <= |parts|
    ensures JoinOffset(parts, sep, i) == |parts[0]| + |sep| + JoinOffset(parts[1..], sep, i - 1)
    decreases i
  {
    if i > 1 {
      JoinOffsetShift(parts, sep, i - 1);
    }
  }
}
