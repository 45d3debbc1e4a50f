/** The binary digits of numbers, and the bitwise or. */
module Bits {

  function Pow2(k: nat): (p: nat)
    ensures p > 0
  {
    if k == 0 then 1 else 2 * Pow2(k - 1)
  }

  predicate Bit(w: nat, k: nat) { if k == 0 then w % 2 == 1 else Bit(w / 2, k - 1) }

  function Or(a: nat, b: nat): nat {
    if a == 0 && b == 0 then 0 else 2 * Or(a / 2, b / 2) + if a % 2 == 1 || b % 2 == 1 then 1 else 0
  }

  lemma {:induction false} ZeroBits(k: nat)
    ensures !Bit(0, k)
  {
    if k > 0 { ZeroBits(k - 1); }
  }

  lemma {:induction false} OrBits(a: nat, b: nat, k: nat)
    ensures Bit(Or(a, b), k) <==> Bit(a, k) || Bit(b, k)
    decreases k
  {
    if a == 0 && b == 0 {
      ZeroBits(k);
    } else if k > 0 {
      OrBits(a / 2, b / 2, k - 1);
    }
  }

  /** A number is its digits. */
  lemma {:induction false} BitsDetermine(a: nat, b: nat)
    requires forall k: nat :: Bit(a, k) == Bit(b, k)
    ensures a == b
    decreases a + b
  {
    assert Bit(a, 0) == Bit(b, 0);
    if a > 0 || b > 0 {
      forall k: nat ensures Bit(a / 2, k) == Bit(b / 2, k) { assert Bit(a, k + 1) == Bit(b, k + 1); }
      BitsDetermine(a / 2, b / 2);
    }
  }

  lemma Halve(x: nat, lo: nat)
    ensures (2 * x + lo) / 2 == x + lo / 2 && (2 * x + lo) % 2 == lo % 2
  {
  }

  /** The digits of hi above those of lo. */
  lemma {:induction false} JoinBits(hi: nat, lo: nat, j: nat, k: nat)
    requires lo < Pow2(j)
    ensures Bit(hi * Pow2(j) + lo, k) == if k < j then Bit(lo, k) else Bit(hi, k - j)
    decreases j
  {
    if j > 0 {
      var p := Pow2(j - 1);
      assert hi * Pow2(j) == 2 * (hi * p);
      Halve(hi * p, lo);
      if k > 0 { JoinBits(hi, lo / 2, j - 1, k - 1); }
    }
  }

  /** Or of numbers without a common digit position is their sum. */
  lemma {:induction false} OrJoins(hi: nat, lo: nat, j: nat)
    requires lo < Pow2(j)
    ensures Or(hi * Pow2(j), lo) == hi * Pow2(j) + lo
    decreases j
  {
    if j == 0 {
      OrZero(hi);
    } else {
      var p := Pow2(j - 1);
      assert hi * Pow2(j) == 2 * (hi * p);
      Halve(hi * p, lo);
      Halve(hi * p, 0);
      OrJoins(hi, lo / 2, j - 1);
    }
  }

  lemma {:induction false} OrZero(a: nat)
    ensures Or(a, 0) == a
  {
    if a > 0 { OrZero(a / 2); }
  }

  lemma {:induction false} OrBound(a: nat, b: nat, n: nat)
    requires a < Pow2(n) && b < Pow2(n)
    ensures Or(a, b) < Pow2(n)
    decreases n
  {
    if n > 0 { OrBound(a / 2, b / 2, n - 1); }
  }

  lemma {:induction false} OrShift(a: nat, b: nat, j: nat)
    ensures Shift(Or(a, b), j) == Or(Shift(a, j), Shift(b, j))
    decreases j
  {
    if j > 0 { OrShift(a / 2, b / 2, j - 1); }
  }

  /** The number without its lowest j digits. */
  function Shift(a: nat, j: nat): nat { if j == 0 then a else Shift(a / 2, j - 1) }

  lemma {:induction false} ShiftIs(a: nat, j: nat)
    ensures Shift(a, j) == a / Pow2(j)
  {
    if j > 0 {
      ShiftIs(a / 2, j - 1);
      ShiftOnce(a, j);
    }
  }

  lemma ShiftOnce(a: nat, j: nat)
    requires j > 0
    ensures a / Pow2(j) == a / 2 / Pow2(j - 1)
  {
    var p := Pow2(j - 1);
    Divided(a / 2, p);
    var q, r := a / 2 / p, a / 2 % p;
    assert a == q * (2 * p) + (2 * r + a % 2);
    Quotient(a, 2 * p, q, 2 * r + a % 2);
  }

  // ----- Division -----

  lemma Divided(n: nat, d: nat)
    requires d > 0
    ensures n == n / d * d + n % d && 0 <= n % d < d && n / d >= 0
  {
    assert n == d * (n / d) + n % d;
  }

  /** A quotient and a remainder are determined by what they add up to. */
  lemma Quotient(n: nat, d: nat, q: nat, r: nat)
    requires d > 0 && r < d && n == q * d + r
    ensures n / d == q && n % d == r
  {
    Divided(n, d);
    Determined(d, n / d, n % d, q, r, n);
  }

  lemma Determined(d: nat, q: nat, r: nat, q': nat, r': nat, n: nat)
    requires n == q * d + r && n == q' * d + r' && r < d && r' < d
    ensures q == q' && r == r'
  {
    if q > q' {
      OneMore(d, q, q');
    } else if q < q' {
      OneMore(d, q', q);
    }
  }

  lemma OneMore(d: nat, q: nat, q': nat)
    requires q > q'
    ensures q * d >= q' * d + d
  {
    var more: nat := q - q' - 1;
    assert q * d == q' * d + d + more * d;
  }

  /** Setting a digit that is clear is adding its weight. */
  lemma AddBit(w: nat, j: nat, k: nat)
    requires w / Pow2(j) % 2 == 0
    ensures Bit(w + Pow2(j), k) <==> k == j || Bit(w, k)
    ensures !Bit(w, j)
  {
    var p := Pow2(j);
    Divided(w, p);
    var q, l := w / p, w % p;
    assert w == q * p + l && w + p == (q + 1) * p + l;
    JoinBits(q, l, j, k);
    JoinBits(q, l, j, j);
    JoinBits(q + 1, l, j, k);
    assert (q + 1) / 2 == q / 2;
  }

  /** A digit by division. */
  lemma BitIs(w: nat, j: nat)
    ensures Bit(w, j) <==> w / Pow2(j) % 2 == 1
  {
    var p := Pow2(j);
    Divided(w, p);
    JoinBits(w / p, w % p, j, j);
  }
}
