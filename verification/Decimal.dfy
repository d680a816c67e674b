/** Decimal text and the order `sort` puts on it: what the queue's twelve-digit
    segment names, the log-rotation stamps and the line-protocol integers share. */
module Decimal {

  /** Lexicographic order on strings, the order of Rust's `Ord for str`. */
  predicate Less(a: string, b: string) {
    if b == [] then false
    else if a == [] then true
    else a[0] < b[0] || (a[0] == b[0] && Less(a[1..], b[1..]))
  }

  function Digit(d: nat): (c: char)
    requires d < 10
    ensures IsDigit(c) && DigitValue(c) == d
  {
    "0123456789"[d]
  }

  predicate IsDigit(c: char) {
    '0' <= c <= '9'
  }

  function DigitValue(c: char): (d: nat)
    requires IsDigit(c)
    ensures d < 10
  {
    (c as int) - ('0' as int)
  }

  predicate AllDigits(s: string) {
    forall i :: 0 <= i < |s| ==> IsDigit(s[i])
  }

  /** `{n}` for an unsigned number. */
  function Digits(n: nat): (s: string)
    ensures |s| >= 1 && AllDigits(s)
  {
    if n < 10 then [Digit(n)] else Digits(n / 10) + [Digit(n % 10)]
  }

  /** The number a run of digits denotes. */
  function Value(s: string): (n: nat)
    requires AllDigits(s)
  {
    if s == [] then 0 else Value(s[..|s| - 1]) * 10 + DigitValue(s[|s| - 1])
  }

  function Zeros(k: nat): (s: string)
    ensures |s| == k && AllDigits(s)
  {
    if k == 0 then [] else Zeros(k - 1) + ['0']
  }

  /** `{n:0w}`: at least `w` digits, zero-filled on the left. */
  function Pad(n: nat, w: nat): (s: string)
    ensures AllDigits(s) && |s| >= w && |s| >= 1
  {
    var d := Digits(n);
    if |d| >= w then d else Zeros(w - |d|) + d
  }

  function Pow10(w: nat): (p: nat)
    ensures p >= 1
  {
    if w == 0 then 1 else 10 * Pow10(w - 1)
  }

  lemma {:induction false} DigitsValue(n: nat)
    ensures Value(Digits(n)) == n
  {
    if n >= 10 {
      DigitsValue(n / 10);
      assert Digits(n)[..|Digits(n)| - 1] == Digits(n / 10);
    }
  }

  lemma {:induction false} DigitsWidth(n: nat, w: nat)
    requires w >= 1
    ensures n < Pow10(w) <==> |Digits(n)| <= w
  {
    if n >= 10 && w > 1 {
      DigitsWidth(n / 10, w - 1);
    }
  }

  lemma {:induction false} ZerosValue(k: nat, s: string)
    requires AllDigits(s)
    ensures Value(Zeros(k) + s) == Value(s)
  {
    if s == [] {
      assert Zeros(k) + s == Zeros(k);
      if k > 0 {
        ZerosValue(k - 1, []);
        assert Zeros(k)[..k - 1] == Zeros(k - 1) + [];
      }
    } else {
      var all := Zeros(k) + s;
      assert all[..|all| - 1] == Zeros(k) + s[..|s| - 1];
      ZerosValue(k, s[..|s| - 1]);
    }
  }

  /** Printing with padding loses nothing... */
  lemma {:induction false} PadValue(n: nat, w: nat)
    ensures Value(Pad(n, w)) == n
  {
    var d := Digits(n);
    DigitsValue(n);
    if |d| < w {
      ZerosValue(w - |d|, d);
    }
  }

  /** ...and is exactly `w` wide below 10^w and nowhere above. */
  lemma {:induction false} PadWidth(n: nat, w: nat)
    requires w >= 1
    ensures n < Pow10(w) <==> |Pad(n, w)| == w
  {
    DigitsWidth(n, w);
  }

  lemma {:induction false} LessSnoc(a: string, b: string, x: char, y: char)
    requires |a| == |b|
    ensures Less(a + [x], b + [y]) <==> Less(a, b) || (a == b && x < y)
  {
    if a != [] {
      LessSnoc(a[1..], b[1..], x, y);
      assert (a + [x])[1..] == a[1..] + [x];
      assert (b + [y])[1..] == b[1..] + [y];
      assert a == b <==> a[0] == b[0] && a[1..] == b[1..];
    }
  }

  /** Equally long different beginnings decide, whatever follows... */
  lemma {:induction false} LessBeforeSuffix(a: string, b: string, s: string, t: string)
    requires |a| == |b| && a != b
    ensures Less(a + s, b + t) <==> Less(a, b)
  {
    assert (a + s)[1..] == a[1..] + s && (b + t)[1..] == b[1..] + t;
    assert a == [a[0]] + a[1..] && b == [b[0]] + b[1..];
    if a[0] == b[0] {
      LessBeforeSuffix(a[1..], b[1..], s, t);
    }
  }

  /** ...and equal ones leave it to what follows. */
  lemma {:induction false} LessAfterPrefix(a: string, s: string, t: string)
    ensures Less(a + s, a + t) <==> Less(s, t)
  {
    if a == [] {
      assert a + s == s && a + t == t;
    } else {
      assert (a + s)[1..] == a[1..] + s && (a + t)[1..] == a[1..] + t;
      LessAfterPrefix(a[1..], s, t);
    }
  }

  /** Equally long digit strings sort as the numbers they denote. */
  lemma {:induction false} SameWidthSortsByValue(a: string, b: string)
    requires |a| == |b| && AllDigits(a) && AllDigits(b)
    ensures Less(a, b) <==> Value(a) < Value(b)
    ensures a == b <==> Value(a) == Value(b)
  {
    if a != [] {
      var n := |a| - 1;
      var (a', x, b', y) := (a[..n], a[n], b[..n], b[n]);
      SameWidthSortsByValue(a', b');
      LessSnoc(a', b', x, y);
      assert a == a' + [x] && b == b' + [y];
    }
  }

  /** Digits of two numbers of the same printed width sort numerically. */
  lemma {:induction false} PadSorts(m: nat, n: nat, w: nat)
    requires w >= 1 && m < Pow10(w) && n < Pow10(w)
    ensures Less(Pad(m, w), Pad(n, w)) <==> m < n
  {
    PadValue(m, w);
    PadValue(n, w);
    PadWidth(m, w);
    PadWidth(n, w);
    SameWidthSortsByValue(Pad(m, w), Pad(n, w));
  }

  lemma {:induction false} LessIsTotal(a: string, b: string)
    ensures a == b || Less(a, b) || Less(b, a)
    ensures !(Less(a, b) && Less(b, a))
    ensures !Less(a, a)
  {
    if a != [] && b != [] {
      LessIsTotal(a[1..], b[1..]);
      assert a == [a[0]] + a[1..] && b == [b[0]] + b[1..];
    }
    if a != [] {
      LessIsTotal(a[1..], a[1..]);
    }
  }

  lemma {:induction false} LessIsTransitive(a: string, b: string, c: string)
    requires Less(a, b) && Less(b, c)
    ensures Less(a, c)
  {
    if a != [] && a[0] == b[0] == c[0] {
      LessIsTransitive(a[1..], b[1..], c[1..]);
    }
  }
}
