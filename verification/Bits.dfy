/** Bitwise operations on naturals, and the arithmetic forms in which the model writes the
    source's masks. */
module Bits {

  function Pow2(k: nat): (r: nat)
    ensures r > 0
  {
    if k == 0 then 1 else 2 * Pow2(k - 1)
  }

  predicate Bit(x: nat, j: nat) {
    if j == 0 then x % 2 == 1 else Bit(x / 2, j - 1)
  }

  function And(x: nat, y: nat): nat {
    if x == 0 || y == 0 then 0 else (if x % 2 == 1 && y % 2 == 1 then 1 else 0) + 2 * And(x / 2, y / 2)
  }

  function Or(x: nat, y: nat): nat
    decreases x + y
  {
    if x == 0 then y else if y == 0 then x else (if x % 2 == 1 || y % 2 == 1 then 1 else 0) + 2 * Or(x / 2, y / 2)
  }

  lemma {:induction false} ZeroHasNoBits(j: nat)
    ensures !Bit(0, j)
  {
    if j > 0 {
      ZeroHasNoBits(j - 1);
    }
  }

  /** The two operations are bit by bit. */
  lemma {:induction false} BitsOfAnd(x: nat, y: nat, j: nat)
    ensures Bit(And(x, y), j) <==> Bit(x, j) && Bit(y, j)
    decreases j
  {
    if x == 0 || y == 0 {
      ZeroHasNoBits(j);
    } else if j > 0 {
      BitsOfAnd(x / 2, y / 2, j - 1);
    }
  }

  lemma {:induction false} BitsOfOr(x: nat, y: nat, j: nat)
    ensures Bit(Or(x, y), j) <==> Bit(x, j) || Bit(y, j)
    decreases j
  {
    if x == 0 || y == 0 {
      ZeroHasNoBits(j);
    } else if j > 0 {
      BitsOfOr(x / 2, y / 2, j - 1);
    }
  }

  lemma {:induction false} BitsOfPow2(k: nat, j: nat)
    ensures Bit(Pow2(k), j) <==> j == k
  {
    if k == 0 {
      if j > 0 {
        ZeroHasNoBits(j - 1);
      }
    } else if j > 0 {
      BitsOfPow2(k - 1, j - 1);
    }
  }

  /** Operands split at bit k are combined part by part. */
  lemma {:induction false} AndSplit(k: nat, xh: nat, xl: nat, yh: nat, yl: nat)
    requires xl < Pow2(k) && yl < Pow2(k)
    ensures And(xh * Pow2(k) + xl, yh * Pow2(k) + yl) == And(xh, yh) * Pow2(k) + And(xl, yl)
    ensures And(xl, yl) < Pow2(k)
    decreases k
  {
    hide And;
    if k == 0 {
      AndStep(0, 0);
    } else {
      var p := Pow2(k - 1);
      AndSplit(k - 1, xh, xl / 2, yh, yl / 2);
      Halve(xh, p, xl);
      Halve(yh, p, yl);
      Regroup(And(xh, yh), p);
      AndStep(xl, yl);
      AndStep(xh * (2 * p) + xl, yh * (2 * p) + yl);
    }
  }

  lemma {:induction false} OrSplit(k: nat, xh: nat, xl: nat, yh: nat, yl: nat)
    requires xl < Pow2(k) && yl < Pow2(k)
    ensures Or(xh * Pow2(k) + xl, yh * Pow2(k) + yl) == Or(xh, yh) * Pow2(k) + Or(xl, yl)
    ensures Or(xl, yl) < Pow2(k)
    decreases k
  {
    hide Or;
    if k == 0 {
      OrStep(0, 0);
    } else {
      var p := Pow2(k - 1);
      OrSplit(k - 1, xh, xl / 2, yh, yl / 2);
      Halve(xh, p, xl);
      Halve(yh, p, yl);
      Regroup(Or(xh, yh), p);
      OrStep(xl, yl);
      OrStep(xh * (2 * p) + xl, yh * (2 * p) + yl);
    }
  }

  lemma Halve(h: nat, p: nat, l: nat)
    ensures (h * (2 * p) + l) / 2 == h * p + l / 2 && (h * (2 * p) + l) % 2 == l % 2
  {
    assert h * (2 * p) == 2 * (h * p);
  }

  lemma Regroup(h: nat, p: nat)
    ensures 2 * (h * p) == h * (2 * p)
  {
  }

  lemma AndStep(x: nat, y: nat)
    ensures And(x, y) == (if x % 2 == 1 && y % 2 == 1 then 1 else 0) + 2 * And(x / 2, y / 2)
  {
  }

  lemma OrStep(x: nat, y: nat)
    ensures Or(x, y) == (if x % 2 == 1 || y % 2 == 1 then 1 else 0) + 2 * Or(x / 2, y / 2)
  {
  }

  lemma {:induction false} FullMask(k: nat, x: nat)
    requires x < Pow2(k)
    ensures And(x, Pow2(k) - 1) == x && Or(x, Pow2(k) - 1) == Pow2(k) - 1
    decreases k
  {
    hide And, Or;
    if k == 0 {
      AndStep(0, 0);
      OrStep(0, 0);
    } else {
      FullMask(k - 1, x / 2);
      AndStep(x, Pow2(k) - 1);
      OrStep(x, Pow2(k) - 1);
      assert (Pow2(k) - 1) / 2 == Pow2(k - 1) - 1;
    }
  }
}
