/** Shifts and masks on unsigned words, bit by bit. */
module Bits {
  import opened Arithmetic

  function Pow2(k: nat): (p: nat)
    ensures p >= 1
  {
    if k == 0 then 1 else 2 * Pow2(k - 1)
  }

  /** a & b */
  function And(a: nat, b: nat): nat {
    if a == 0 || b == 0 then 0 else 2 * And(a / 2, b / 2) + if a % 2 == 1 && b % 2 == 1 then 1 else 0
  }

  /** a >> k */
  function Shr(a: nat, k: nat): nat {
    if k == 0 then a else Shr(a / 2, k - 1)
  }

  function CeilDiv(a: nat, b: nat): nat
    requires b > 0
  {
    (a + b - 1) / b
  }

  lemma HalfMask(k: nat)
    requires k > 0
    ensures (Pow2(k) - 1) / 2 == Pow2(k - 1) - 1 && (Pow2(k) - 1) % 2 == 1
  {
  }

  /** Doubling the divisor: the quotient halves, and the lowest bit goes to the remainder. */
  lemma HalveBoth(a: nat, b: nat)
    requires b > 0
    ensures a / (2 * b) == a / 2 / b
    ensures a % (2 * b) == 2 * (a / 2 % b) + a % 2
  {
    var q, r := a / 2 / b, 2 * (a / 2 % b) + a % 2;
    assert a / 2 == q * b + a / 2 % b;
    assert a == q * (2 * b) + r by {
      assert q * (2 * b) == 2 * (q * b);
    }
    DivModUnique(a, 2 * b, q, r);
  }

  /** Masking with 2^k - 1 is taking the remainder. */
  lemma {:induction false} MaskIsMod(a: nat, k: nat)
    ensures And(a, Pow2(k) - 1) == a % Pow2(k)
  {
    if k > 0 {
      HalfMask(k);
      MaskIsMod(a / 2, k - 1);
      HalveBoth(a, Pow2(k - 1));
    }
  }

  lemma {:induction false} ShiftIsDiv(a: nat, k: nat)
    ensures Shr(a, k) == a / Pow2(k)
  {
    if k > 0 {
      ShiftIsDiv(a / 2, k - 1);
      HalveBoth(a, Pow2(k - 1));
    }
  }

  lemma CeilOf(a: nat, b: nat, q: nat, r: nat)
    requires b > 0 && a == q * b + r && r < b
    ensures CeilDiv(a, b) == q + if r > 0 then 1 else 0
    ensures a > 0 ==> CeilDiv(a, b) >= 1
  {
    if r == 0 {
      DivModUnique(a + b - 1, b, q, b - 1);
    } else {
      assert (q + 1) * b == q * b + b;
      DivModUnique(a + b - 1, b, q + 1, r - 1);
    }
  }

  lemma CeilFormula(a: nat, b: nat, q: nat, r: nat)
    requires b > 0 && q == a / b && r == a % b
    ensures q + (if r != 0 then 1 else 0) == CeilDiv(a, b)
    ensures a > 0 ==> CeilDiv(a, b) >= 1
  {
    assert a == q * b + r;
    CeilOf(a, b, q, r);
  }

  /** The shift-and-mask formula is the quotient rounded up, and positive for a positive number. */
  lemma ShiftMaskIsCeil(a: nat, k: nat)
    ensures Shr(a, k) + (if And(a, Pow2(k) - 1) != 0 then 1 else 0) == CeilDiv(a, Pow2(k))
    ensures a > 0 ==> CeilDiv(a, Pow2(k)) >= 1
  {
    MaskIsMod(a, k);
    ShiftIsDiv(a, k);
    CeilFormula(a, Pow2(k), Shr(a, k), And(a, Pow2(k) - 1));
  }

  /** With twice as many buckets an element stays where it is or moves up by the old number. */
  lemma DoubledRemainder(h: nat, b: nat)
    requires b > 0
    ensures h % (2 * b) == h % b || h % (2 * b) == h % b + b
    ensures h % (2 * b) % b == h % b
  {
    var q, r := h / (2 * b), h % (2 * b);
    assert h == q * (2 * b) + r;
    assert q * (2 * b) == (2 * q) * b;
    if r < b {
      DivModUnique(h, b, 2 * q, r);
      DivModUnique(r, b, 0, r);
    } else {
      assert (2 * q + 1) * b == (2 * q) * b + b;
      DivModUnique(h, b, 2 * q + 1, r - b);
      DivModUnique(r, b, 1, r - b);
    }
  }
}
