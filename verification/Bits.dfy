/** Powers of two, and the bitwise operators on unsigned integers defined bit by bit. The
    lemmas say what the masks and shifts of the sources compute arithmetically. */
module Bits {

  function Pow2(n: nat): (r: nat)
    ensures r > 0
  {
    if n == 0 then 1 else 2 * Pow2(n - 1)
  }

  function Bit(b: bool): nat {
    if b then 1 else 0
  }

  function And(a: nat, b: nat): nat {
    if a == 0 || b == 0 then 0
    else 2 * And(a / 2, b / 2) + (if a % 2 == 1 && b % 2 == 1 then 1 else 0)
  }

  function Or(a: nat, b: nat): nat
    decreases a + b
  {
    if a == 0 then b
    else if b == 0 then a
    else 2 * Or(a / 2, b / 2) + (if a % 2 == 1 || b % 2 == 1 then 1 else 0)
  }

  /** a << n in a register of `width` bits */
  function Shl(a: nat, n: nat, width: nat): nat {
    a * Pow2(n) % Pow2(width)
  }

  function Shr(a: nat, n: nat): nat {
    Quotient(a, Pow2(n))
  }

  function Quotient(a: nat, d: nat): nat
    requires d > 0
  {
    a / d
  }

  function Product(a: nat, b: nat): nat {
    a * b
  }

  /** $clog2: the least number of bits that can tell n things apart. */
  function Clog2(n: nat): (w: nat)
    ensures n <= Pow2(w)
    ensures w > 0 ==> Pow2(w - 1) < n
  {
    if n <= 1 then 0 else 1 + Clog2((n + 1) / 2)
  }

  lemma DivModUnique(a: nat, d: nat, q: nat, r: nat)
    requires a == q * d + r && r < d
    ensures a / d == q && a % d == r
  {
    assert a == (a / d) * d + a % d;
    if a / d > q {
      MulLe(q + 1, a / d, d);
    } else if a / d < q {
      MulLe(a / d + 1, q, d);
    }
  }

  lemma MulLe(a: nat, b: nat, c: nat)
    requires a <= b
    ensures a * c <= b * c
  {}

  lemma MulRegroup(a: nat, b: nat, c: nat, d: nat)
    ensures (a * c + b) * d == a * (c * d) + b * d
  {
    assert (a * c) * d == a * (c * d);
  }

  lemma DivMod(a: nat, d: nat)
    requires d > 0
    ensures a == (a / d) * d + a % d && a % d < d
  {}

  lemma QuotientBelow(a: nat, d: nat, b: nat)
    requires d > 0
    ensures a / d < b <==> a < b * d
  {
    DivMod(a, d);
    if a / d < b {
      MulLe(a / d + 1, b, d);
    } else {
      MulLe(b, a / d, d);
    }
  }

  /** Dividing by a product is dividing twice. */
  lemma DivDiv(a: nat, d: nat, e: nat)
    requires d > 0 && e > 0
    ensures d * e > 0 && a / (d * e) == a / d / e
    ensures a % (d * e) == (a / d) % e * d + a % d
  {
    var q, r := a / d, a % d;
    DivMod(a, d);
    DivMod(q, e);
    calc {
      a;
      (q / e * e + q % e) * d + r;
      q / e * (d * e) + (q % e * d + r);
    }
    MulLe(q % e, e - 1, d);
    assert q % e * d + r < d * e;
    DivModUnique(a, d * e, q / e, q % e * d + r);
  }

  lemma Pow2Double(n: nat)
    ensures Pow2(n + 1) == 2 * Pow2(n)
  {}

  lemma {:induction false} Pow2Add(m: nat, n: nat)
    ensures Pow2(m + n) == Pow2(m) * Pow2(n)
  {
    if m > 0 {
      hide Pow2;
      Pow2Add(m - 1, n);
      Pow2Double(m - 1 + n);
      Pow2Double(m - 1);
      MulRegroup(2, 0, Pow2(m - 1), Pow2(n));
    } else {
      MulRegroup(0, 1, 0, Pow2(n));
    }
  }

  lemma {:induction false} Pow2Monotone(m: nat, n: nat)
    requires m <= n
    ensures Pow2(m) <= Pow2(n)
  {
    if m < n {
      Pow2Monotone(m, n - 1);
    }
  }

  /** One bit of And, split off at the bottom. */
  lemma AndBit(a: nat, b: nat, bit: nat)
    requires bit < 2
    ensures And(a, 2 * b + bit) == 2 * And(a / 2, b) + (if bit == 1 then a % 2 else 0)
  {
    assert (2 * b + bit) / 2 == b && (2 * b + bit) % 2 == bit;
    if a == 0 || 2 * b + bit == 0 {
      assert And(a / 2, b) == 0;
    }
  }

  /** The low mask 2^n - 1 keeps the remainder. */
  lemma {:induction false} AndLowMask(a: nat, n: nat)
    ensures And(a, Pow2(n) - 1) == a % Pow2(n)
  {
    if n > 0 {
      var p := Pow2(n - 1);
      AndLowMask(a / 2, n - 1);
      AndBit(a, p - 1, 1);
      DivDiv(a, 2, p);
      assert 2 * (p - 1) + 1 == Pow2(n) - 1;
    }
  }

  /** m ones above n zeros */
  function FieldMask(m: nat, n: nat): nat {
    Product(Pow2(m) - 1, Pow2(n))
  }

  /** A mask of m ones above n zeros keeps bits n .. n+m. */
  lemma {:induction false} AndFieldMask(a: nat, m: nat, n: nat)
    ensures And(a, FieldMask(m, n)) == a / Pow2(n) % Pow2(m) * Pow2(n)
  {
    if n == 0 {
      AndLowMask(a, m);
    } else {
      AndFieldMask(a / 2, m, n - 1);
      AndHighStep(a, Pow2(m) - 1, Pow2(m), Pow2(n - 1));
    }
  }

  lemma AndHighStep(a: nat, ones: nat, q: nat, p: nat)
    requires p > 0 && q > 0
    requires And(a / 2, ones * p) == a / 2 / p % q * p
    ensures And(a, ones * (2 * p)) == a / (2 * p) % q * (2 * p)
  {
    var mask := ones * p;
    AndBit(a, mask, 0);
    DoubleRight(ones, p);
    DoubleRight(a / 2 / p % q, p);
    HalfDiv(a, p);
  }

  lemma HalfDiv(a: nat, p: nat)
    requires p > 0
    ensures a / (2 * p) == a / 2 / p
  {
    DivDiv(a, 2, p);
  }

  lemma DoubleRight(a: nat, b: nat)
    ensures a * (2 * b) == 2 * (a * b)
  {}

  /** Or of numbers with no bit in common is their sum. */
  lemma {:induction false} OrDisjoint(a: nat, n: nat, b: nat)
    requires b < Pow2(n)
    ensures Or(a * Pow2(n), b) == a * Pow2(n) + b
  {
    if n > 0 && a > 0 && b > 0 {
      var p := Pow2(n - 1);
      OrDisjoint(a, n - 1, b / 2);
      DoubleRight(a, p);
      OrStep(a * p, b);
    }
  }

  lemma OrStep(high: nat, b: nat)
    requires Or(high, b / 2) == high + b / 2
    ensures Or(2 * high, b) == 2 * high + b
  {
    assert high > 0 && b > 0 ==>
      Or(2 * high, b) == 2 * Or(high, b / 2) + b % 2;
  }

  lemma Pow2At16()
    ensures Pow2(16) == 0x1_0000
  {
    Pow2Add(8, 8);
  }

  lemma Pow2At32()
    ensures Pow2(32) == 0x1_0000_0000
  {
    hide Pow2;
    Pow2At16();
    Pow2Add(16, 16);
  }

  lemma Pow2At64()
    ensures Pow2(64) == 0x1_0000_0000_0000_0000
  {
    hide Pow2;
    Pow2At32();
    Pow2Add(32, 32);
  }
}
