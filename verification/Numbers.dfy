/** Unsigned numbers and their binary digits, most significant first. */
module Numbers {

  function Pow2(n: nat): (p: nat)
    ensures p > 0
  {
    if n == 0 then 1 else 2 * Pow2(n - 1)
  }

  /** The number whose binary digits are `s`. */
  function Number(s: seq<bool>): nat {
    if s == [] then 0 else 2 * Number(s[..|s| - 1]) + (if s[|s| - 1] then 1 else 0)
  }

  /** The lowest `width` binary digits of `n`. */
  function Digits(n: nat, width: nat): (s: seq<bool>)
    ensures |s| == width
  {
    if width == 0 then [] else Digits(n / 2, width - 1) + [n % 2 == 1]
  }

  /** `x ^ y` on unsigned integers. */
  function XorNumber(x: nat, y: nat): nat {
    if x == 0 && y == 0 then 0 else 2 * XorNumber(x / 2, y / 2) + (if x % 2 != y % 2 then 1 else 0)
  }

  function Inverted(s: seq<bool>): (r: seq<bool>)
    ensures |r| == |s|
  {
    seq(|s|, i requires 0 <= i < |s| => !s[i])
  }

  lemma {:induction false} NumberBound(s: seq<bool>)
    ensures Number(s) < Pow2(|s|)
  {
    if s != [] {
      NumberBound(s[..|s| - 1]);
    }
  }

  lemma {:induction false} DigitsOfNumber(s: seq<bool>)
    ensures Digits(Number(s), |s|) == s
  {
    if s != [] {
      DigitsOfNumber(s[..|s| - 1]);
      assert s == s[..|s| - 1] + [s[|s| - 1]];
    }
  }

  lemma {:induction false} NumberOfDigits(n: nat, width: nat)
    requires n < Pow2(width)
    ensures Number(Digits(n, width)) == n
  {
    if width > 0 {
      var d := Digits(n, width);
      assert d[..|d| - 1] == Digits(n / 2, width - 1);
      NumberOfDigits(n / 2, width - 1);
    }
  }

  lemma {:induction false} XorNumberTwice(x: nat, y: nat)
    ensures XorNumber(XorNumber(x, y), y) == x
    decreases x + y
  {
    if x != 0 || y != 0 {
      var h := XorNumber(x / 2, y / 2);
      XorNumberTwice(x / 2, y / 2);
      assert XorNumber(x, y) / 2 == h;
    }
  }

  lemma {:induction false} XorNumberBound(x: nat, y: nat, width: nat)
    requires x < Pow2(width) && y < Pow2(width)
    ensures XorNumber(x, y) < Pow2(width)
  {
    if width > 0 {
      XorNumberBound(x / 2, y / 2, width - 1);
    }
  }

  /** Digit `k` of `width` has the weight of a power of two. */
  lemma {:induction false} DigitWeight(n: nat, width: nat, k: nat)
    requires k < width
    ensures Digits(n, width)[k] == (n / Pow2(width - 1 - k) % 2 == 1)
  {
    if k < width - 1 {
      DigitWeight(n / 2, width - 1, k);
      HalveDivide(n, Pow2(width - 2 - k));
    }
  }

  lemma HalveDivide(n: nat, p: nat)
    requires p > 0
    ensures n / 2 / p == n / (2 * p)
  {
    var q, r := n / 2 / p, n / 2 % p;
    assert n == 2 * (q * p + r) + n % 2;
    assert 2 * (q * p) == q * (2 * p);
    Quotient(n, 2 * p, q, 2 * r + n % 2);
  }

  lemma Quotient(n: nat, d: nat, q: nat, r: nat)
    requires n == q * d + r && r < d
    ensures n / d == q
  {
    var e := n / d - q;
    assert n == (n / d) * d + n % d;
    assert e * d == (n / d) * d - q * d;
    AwayFromZero(e, d);
  }

  lemma AwayFromZero(e: int, d: nat)
    ensures e >= 1 ==> e * d >= d
    ensures e <= -1 ==> e * d + d <= 0
  {
  }

  /** `^` works digit by digit. */
  lemma {:induction false} XorDigits(x: nat, y: nat, width: nat, k: nat)
    requires k < width
    ensures Digits(XorNumber(x, y), width)[k] == (Digits(x, width)[k] != Digits(y, width)[k])
  {
    if k < width - 1 {
      XorDigits(x / 2, y / 2, width - 1, k);
      assert XorNumber(x, y) / 2 == XorNumber(x / 2, y / 2);
    }
  }

  lemma InvertedTwice(s: seq<bool>)
    ensures Inverted(Inverted(s)) == s
  {
  }

  /** Numbers below 1024 and below 65536 in powers. */
  lemma Widths()
    ensures Pow2(10) == 0x400 && Pow2(16) == 0x10000
  {
  }
}
