/** Decimal rendering as the C library's `%lu`, `%u` and zero-padded `%0<w>ld` conversions produce it,
    and the lexicographic order of texts. */
module Decimal {

  function Pow10(w: nat): (p: nat)
    ensures p >= 1
  {
    if w == 0 then 1 else 10 * Pow10(w - 1)
  }

  function Digit(d: nat): (c: char)
    requires d < 10
    ensures '0' <= c <= '9' && DigitValue(c) == d
  {
    (d + 48) as char
  }

  function DigitValue(c: char): (d: nat)
    requires '0' <= c <= '9'
    ensures d < 10 && c == (d + 48) as char
  {
    c as nat - 48
  }

  ghost predicate AllDigits(s: string) {
    forall i :: 0 <= i < |s| ==> '0' <= s[i] <= '9'
  }

  /** `%lu`: no leading zeros, "0" for zero. */
  function Dec(n: nat): (s: string)
    ensures |s| >= 1 && AllDigits(s)
  {
    if n < 10 then [Digit(n)] else Dec(n / 10) + [Digit(n % 10)]
  }

  function Zeros(k: nat): (s: string)
    ensures |s| == k && AllDigits(s)
  {
    if k == 0 then "" else "0" + Zeros(k - 1)
  }

  /** `%0<w>ld` of a non-negative value: padded to at least `w` characters, never cut. */
  function PadDec(n: nat, w: nat): (s: string)
    ensures AllDigits(s) && |s| >= w && |s| >= 1
  {
    var d := Dec(n);
    if |d| >= w then d else Zeros(w - |d|) + d
  }

  /** The value of a digit string, most significant digit first. */
  function Value(s: string): (r: nat)
    requires AllDigits(s)
  {
    if s == "" then 0 else 10 * Value(s[..|s| - 1]) + DigitValue(s[|s| - 1])
  }

  /** Exactly the `w` low-order digits of `n`. */
  ghost function Fixed(n: nat, w: nat): (s: string)
    ensures |s| == w && AllDigits(s)
  {
    if w == 0 then "" else Fixed(n / 10, w - 1) + [Digit(n % 10)]
  }

  lemma {:induction false} ZerosFixed(k: nat)
    ensures Zeros(k) == Fixed(0, k)
  {
    if k > 0 {
      ZerosFixed(k - 1);
      ZerosSnoc(k - 1);
    }
  }

  lemma {:induction false} ZerosSnoc(k: nat)
    ensures "0" + Zeros(k) == Zeros(k) + "0"
  {
    if k > 0 {
      ZerosSnoc(k - 1);
      calc {
        "0" + Zeros(k);
        "0" + ("0" + Zeros(k - 1));
        "0" + (Zeros(k - 1) + "0");
        ("0" + Zeros(k - 1)) + "0";
      }
    }
  }

  /** A shorter fixed rendering that holds all of `n` becomes the longer one by zero padding. */
  lemma {:induction false} FixedPad(n: nat, w: nat, k: nat)
    requires n < Pow10(w)
    ensures Zeros(k) + Fixed(n, w) == Fixed(n, k + w)
  {
    if w == 0 {
      ZerosFixed(k);
    } else {
      FixedPad(n / 10, w - 1, k);
      assert Zeros(k) + Fixed(n, w) == (Zeros(k) + Fixed(n / 10, w - 1)) + [Digit(n % 10)];
    }
  }

  /** `Dec` uses exactly the digits needed. */
  lemma {:induction false} DecIsFixed(n: nat)
    ensures n < Pow10(|Dec(n)|) && (n >= 10 ==> Pow10(|Dec(n)| - 1) <= n)
    ensures Dec(n) == Fixed(n, |Dec(n)|)
  {
    if n < 10 {
      assert Fixed(n, 1) == Fixed(n / 10, 0) + [Digit(n % 10)];
    } else {
      DecIsFixed(n / 10);
    }
  }

  lemma {:induction false} Pow10Monotone(a: nat, b: nat)
    requires a <= b
    ensures Pow10(a) <= Pow10(b)
  {
    if a < b {
      Pow10Monotone(a, b - 1);
    }
  }

  /** The number of digits is the least that can hold the value. */
  lemma DecWidth(n: nat, w: nat)
    requires w >= 1
    ensures |Dec(n)| <= w <==> n < Pow10(w)
  {
    DecIsFixed(n);
    if |Dec(n)| <= w {
      Pow10Monotone(|Dec(n)|, w);
    } else if n >= 10 {
      Pow10Monotone(w, |Dec(n)| - 1);
    }
  }

  /** Padding keeps the width at `w` exactly when the value has at most `w` digits. */
  lemma PadWidth(n: nat, w: nat)
    requires w >= 1
    ensures |PadDec(n, w)| == w <==> n < Pow10(w)
  {
    DecWidth(n, w);
  }

  lemma PadIsFixed(n: nat, w: nat)
    ensures var s := PadDec(n, w); n < Pow10(|s|) && s == Fixed(n, |s|)
  {
    hide Fixed, Zeros, Pow10, Dec;
    DecIsFixed(n);
    var d := Dec(n);
    if |d| < w {
      FixedPad(n, |d|, w - |d|);
      Pow10Monotone(|d|, w);
    }
  }

  lemma {:induction false} FixedValue(n: nat, w: nat)
    requires n < Pow10(w)
    ensures Value(Fixed(n, w)) == n
  {
    if w > 0 {
      FixedValue(n / 10, w - 1);
      assert Fixed(n, w)[..w - 1] == Fixed(n / 10, w - 1);
    }
  }

  /** Reading back a padded number gives the number. */
  lemma PadValue(n: nat, w: nat)
    ensures Value(PadDec(n, w)) == n
  {
    PadIsFixed(n, w);
    FixedValue(n, |PadDec(n, w)|);
  }

  /** Dividing by ten first and by `p` then is dividing by ten times `p`. */
  lemma DivideTwice(n: nat, p: nat)
    requires p >= 1
    ensures n / 10 / p == n / (10 * p)
  {
    var q := n / 10 / p;
    var low := n / 10 % p;
    QuotientAndRest(n / 10, p);
    TimesTen(p, q);
    QuotientIs(n, 10 * p, q, 10 * low + n % 10);
  }

  lemma QuotientAndRest(n: nat, p: nat)
    requires p >= 1
    ensures n == p * (n / p) + n % p && n % p < p
  {}

  lemma TimesTen(p: nat, q: nat)
    ensures 10 * p * q == 10 * (p * q)
  {}

  lemma QuotientIs(n: nat, p: nat, q: nat, r: nat)
    requires n == p * q + r && r < p
    ensures n / p == q
  {
    assert n == p * (n / p) + n % p;
    assert p * (n / p - q) == r - n % p;
    AtLeastOne(p, n / p - q);
  }

  lemma AtLeastOne(p: nat, d: int)
    ensures d >= 1 ==> p * d >= p
    ensures d <= -1 ==> p * d + p <= 0
  {}

  lemma {:induction false} FixedDigit(n: nat, w: nat, j: nat)
    requires j < w
    ensures Fixed(n, w)[w - 1 - j] as int == 48 + n / Pow10(j) % 10
  {
    if j > 0 {
      FixedDigit(n / 10, w - 1, j - 1);
      DivideTwice(n, Pow10(j - 1));
    }
  }

  /** The character `j` places from the right is the digit of weight 10^j, in ASCII; so are leading zeros. */
  lemma PadDigit(n: nat, w: nat, j: nat)
    requires j < |PadDec(n, w)|
    ensures PadDec(n, w)[|PadDec(n, w)| - 1 - j] as int == 48 + n / Pow10(j) % 10
  {
    PadIsFixed(n, w);
    FixedDigit(n, |PadDec(n, w)|, j);
  }

  lemma DecDigit(n: nat, j: nat)
    requires j < |Dec(n)|
    ensures Dec(n)[|Dec(n)| - 1 - j] as int == 48 + n / Pow10(j) % 10
    ensures |Dec(n)| == 1 || Dec(n)[0] != '0'
  {
    PadDigit(n, 0, j);
    assert PadDec(n, 0) == Dec(n);
    NoLeadingZero(n);
  }

  lemma {:induction false} NoLeadingZero(n: nat)
    ensures |Dec(n)| == 1 || Dec(n)[0] != '0'
  {
    if n >= 10 {
      NoLeadingZero(n / 10);
    }
  }

  /** One more character of a digit string. */
  lemma ValueStep(s: string, k: nat)
    requires AllDigits(s) && k < |s|
    ensures AllDigits(s[..k]) && AllDigits(s[..k + 1])
    ensures Value(s[..k + 1]) == 10 * Value(s[..k]) + (s[k] as int - 48)
  {
    assert s[..k + 1][..k] == s[..k];
  }

  /** Strict lexicographic order, as `strcmp(a, b) < 0`. */
  predicate LexLess(a: string, b: string) {
    b != "" && (a == "" || a[0] < b[0] || (a[0] == b[0] && LexLess(a[1..], b[1..])))
  }

  lemma {:induction false} LexIrreflexive(a: string)
    ensures !LexLess(a, a)
  {
    if a != "" {
      LexIrreflexive(a[1..]);
    }
  }

  /** Equal-width fields compare field by field. */
  lemma {:induction false} LexConcat(a: string, b: string, c: string, d: string)
    requires |a| == |b|
    ensures LexLess(a + c, b + d) <==> LexLess(a, b) || (a == b && LexLess(c, d))
  {
    if a == "" {
      assert a + c == c && b + d == d;
    } else {
      LexConcat(a[1..], b[1..], c, d);
      assert (a + c)[1..] == a[1..] + c && (b + d)[1..] == b[1..] + d;
      assert a == [a[0]] + a[1..] && b == [b[0]] + b[1..];
    }
  }

  lemma DigitwiseOrder(n: nat, m: nat)
    ensures n < m <==> n / 10 < m / 10 || (n / 10 == m / 10 && n % 10 < m % 10)
  {}

  /** Fixed-width digits compare as the numbers do. */
  lemma {:induction false} FixedOrder(n: nat, m: nat, w: nat)
    requires n < Pow10(w) && m < Pow10(w)
    ensures LexLess(Fixed(n, w), Fixed(m, w)) <==> n < m
  {
    if w > 0 {
      FixedOrder(n / 10, m / 10, w - 1);
      DigitwiseOrder(n, m);
      FixedValue(n / 10, w - 1);
      FixedValue(m / 10, w - 1);
      DigitOrder(n % 10, m % 10);
      LexConcat(Fixed(n / 10, w - 1), Fixed(m / 10, w - 1), [Digit(n % 10)], [Digit(m % 10)]);
      hide LexLess;
    }
  }

  lemma DigitOrder(c: nat, d: nat)
    requires c < 10 && d < 10
    ensures LexLess([Digit(c)], [Digit(d)]) <==> c < d
  {
    assert [Digit(c)][1..] == "" && [Digit(d)][1..] == "";
  }

  /** Padded renderings of one width compare as the numbers do. */
  lemma PadOrder(n: nat, m: nat, w: nat)
    requires |PadDec(n, w)| == |PadDec(m, w)|
    ensures LexLess(PadDec(n, w), PadDec(m, w)) <==> n < m
    ensures PadDec(n, w) == PadDec(m, w) <==> n == m
  {
    PadIsFixed(n, w);
    PadIsFixed(m, w);
    FixedOrder(n, m, |PadDec(n, w)|);
    PadValue(n, w);
    PadValue(m, w);
  }
}
