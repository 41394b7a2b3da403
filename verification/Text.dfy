/** Python string behaviour the archive services rely on: Unicode white space,
    strip, runs of white space, line splitting and decimal numbers. */
module Text {

  /** The characters `str.isspace` and the pattern `\s` both accept. */
  predicate IsSpace(c: char) {
    var n := c as int;
    || 0x09 <= n <= 0x0D
    || 0x1C <= n <= 0x20
    || n == 0x85 || n == 0xA0 || n == 0x1680
    || n == 0x2028 || n == 0x2029 || n == 0x202F || n == 0x205F || n == 0x3000
    || 0x2000 <= n <= 0x200A
  }

  predicate AllSpace(s: string) { forall i :: 0 <= i < |s| ==> IsSpace(s[i]) }

  /** Where the text starts once leading white space is skipped. */
  function Start(s: string, i: nat): (r: nat)
    requires i <= |s|
    ensures i <= r <= |s|
    ensures forall k :: i <= k < r ==> IsSpace(s[k])
    ensures r < |s| ==> !IsSpace(s[r])
    decreases |s| - i
  {
    if i < |s| && IsSpace(s[i]) then Start(s, i + 1) else i
  }

  /** Where the text stops once trailing white space is dropped. */
  function Stop(s: string, i: nat, j: nat): (r: nat)
    requires i <= j <= |s|
    ensures i <= r <= j
    ensures forall k :: r <= k < j ==> IsSpace(s[k])
    ensures r > i ==> !IsSpace(s[r - 1])
  {
    if i < j && IsSpace(s[j - 1]) then Stop(s, i, j - 1) else j
  }

  /** `str.strip()`. */
  function Strip(s: string): string {
    var start := Start(s, 0);
    s[start..Stop(s, start, |s|)]
  }

  predicate Trimmed(s: string) { s == "" || (!IsSpace(s[0]) && !IsSpace(s[|s| - 1])) }

  /** What stripping leaves is trimmed, and it is empty only for blank text. */
  lemma StripTrims(s: string)
    ensures Trimmed(Strip(s))
    ensures Strip(s) == "" <==> AllSpace(s)
  {
    var a := Start(s, 0);
    var b := Stop(s, a, |s|);
    assert Strip(s) == s[a..b];
    if a == |s| {
      assert AllSpace(s);
    } else {
      assert !IsSpace(s[a]);
      assert b > a;
    }
  }

  lemma StripKeepsTrimmed(s: string)
    requires Trimmed(s)
    ensures Strip(s) == s
  {
    if s != "" {
      assert Start(s, 0) == 0;
      assert Stop(s, 0, |s|) == |s|;
    }
  }

  /** The part is the whole without the white space around it. */
  ghost predicate StrippedFrom(part: string, whole: string) {
    exists a, b :: 0 <= a <= b <= |whole| && StandsAt(part, whole, a, b)
  }

  predicate StandsAt(part: string, whole: string, a: nat, b: nat)
    requires a <= b <= |whole|
  {
    part == whole[a..b] && AllSpace(whole[..a]) && AllSpace(whole[b..]) && Trimmed(part)
  }

  /** Stripping is exactly that: what it leaves stands so in the text, and nothing else does. */
  lemma StripStandsIn(part: string, whole: string)
    ensures StrippedFrom(part, whole) <==> part == Strip(whole)
  {
    var start := Start(whole, 0);
    var stop := Stop(whole, start, |whole|);
    StripTrims(whole);
    assert StandsAt(Strip(whole), whole, start, stop) by {
      assert forall k :: 0 <= k < |whole[..start]| ==> whole[..start][k] == whole[k] && IsSpace(whole[k]);
      assert forall k :: 0 <= k < |whole[stop..]| ==> whole[stop..][k] == whole[stop + k] && IsSpace(whole[stop + k]);
    }
    if StrippedFrom(part, whole) && part != Strip(whole) {
      var a, b :| 0 <= a <= b <= |whole| && StandsAt(part, whole, a, b);
      OnlyOneStands(part, whole, a, b, Strip(whole), start, stop);
    }
  }

  lemma BlankOutside(part: string, whole: string, a: nat, b: nat, k: nat)
    requires a <= b <= |whole| && StandsAt(part, whole, a, b) && k < |whole|
    ensures k < a || b <= k ==> IsSpace(whole[k])
  {
    hide IsSpace;
    if k < a {
      assert whole[..a][k] == whole[k];
    } else if b <= k {
      assert whole[b..][k - b] == whole[k];
    }
  }

  lemma EndsOf(part: string, whole: string, a: nat, b: nat)
    requires a <= b <= |whole| && StandsAt(part, whole, a, b) && a < b
    ensures !IsSpace(whole[a]) && !IsSpace(whole[b - 1])
  {
    hide IsSpace, AllSpace;
    assert part[0] == whole[a] && part[|part| - 1] == whole[b - 1];
  }

  lemma OnlyOneStands(x: string, whole: string, a: nat, b: nat, y: string, c: nat, d: nat)
    requires a <= b <= |whole| && c <= d <= |whole| && StandsAt(x, whole, a, b) && StandsAt(y, whole, c, d)
    ensures x == y
  {
    if a < b {
      EndsOf(x, whole, a, b);
      BlankOutside(y, whole, c, d, a);
      BlankOutside(y, whole, c, d, b - 1);
    }
    if c < d {
      EndsOf(y, whole, c, d);
      BlankOutside(x, whole, a, b, c);
      BlankOutside(x, whole, a, b, d - 1);
    }
    hide IsSpace, AllSpace;
  }

  // ---- decimal numbers --------------------------------------------------

  function Digit(d: nat): char
    requires d < 10
  {
    '0' + d as char
  }

  /** `str(n)` for a non-negative integer. */
  function Decimal(n: nat): (s: string)
    ensures |s| > 0 && forall i :: 0 <= i < |s| ==> '0' <= s[i] <= '9'
  {
    if n < 10 then [Digit(n)] else Decimal(n / 10) + [Digit(n % 10)]
  }

  lemma {:induction false} DecimalInjective(m: nat, n: nat)
    requires Decimal(m) == Decimal(n)
    ensures m == n
    decreases m
  {
    var a, b := Decimal(m), Decimal(n);
    assert a[|a| - 1] == Digit(m % 10) && b[|b| - 1] == Digit(n % 10);
    if m >= 10 && n >= 10 {
      assert a[..|a| - 1] == Decimal(m / 10) && b[..|b| - 1] == Decimal(n / 10);
      DecimalInjective(m / 10, n / 10);
    }
  }

  /** A text cut at its first bar: the part before the bar is fixed by the whole. */
  lemma FirstFieldUnique(a: string, x: string, b: string, y: string)
    requires '|' !in a && '|' !in b
    requires a + "|" + x == b + "|" + y
    ensures a == b && x == y
  {
    var s, t := a + "|" + x, b + "|" + y;
    assert s[|a|] == '|' && t[|b|] == '|';
    assert forall i :: 0 <= i < |a| ==> s[i] == a[i];
    assert forall i :: 0 <= i < |b| ==> t[i] == b[i];
    assert a == s[..|a|] && b == t[..|b|];
    assert x == s[|a| + 1..] && y == t[|b| + 1..];
  }
}
