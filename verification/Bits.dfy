/**
  Python's integers as unbounded two's complement numbers: floor shifts and bitwise
  operators, with the facts that turn packed fields into arithmetic.
*/
module Bits {

  function Pow2(n: nat): (p: nat)
    ensures p > 0
  {
    if n == 0 then 1 else 2 * Pow2(n - 1)
  }

  function Shl(x: int, n: nat): int {
    x * Pow2(n)
  }

  function Shr(x: int, n: nat): int {
    x / Pow2(n)
  }

  function Abs(x: int): nat {
    if x < 0 then -x else x
  }

  function And(x: int, y: int): int
    decreases Abs(x)
  {
    if x == 0 || y == 0 then 0
    else if x == -1 then y
    else if y == -1 then x
    else 2 * And(x / 2, y / 2) + (if x % 2 == 1 && y % 2 == 1 then 1 else 0)
  }

  function Or(x: int, y: int): int
    decreases Abs(x)
  {
    if x == 0 then y
    else if y == 0 then x
    else if x == -1 || y == -1 then -1
    else 2 * Or(x / 2, y / 2) + (if x % 2 == 1 || y % 2 == 1 then 1 else 0)
  }

  function Bit(x: int, i: nat): int
    decreases i
  {
    if i == 0 then x % 2 else Bit(x / 2, i - 1)
  }

  lemma {:induction false} ConstantBits(i: nat)
    ensures Bit(0, i) == 0 && Bit(-1, i) == 1
  {
    if i > 0 {
      ConstantBits(i - 1);
    }
  }

  /** `And` and `Or` are bitwise on every integer, negative ones included. */
  lemma {:induction false} AndIsBitwise(x: int, y: int, i: nat)
    ensures Bit(And(x, y), i) == 1 <==> Bit(x, i) == 1 && Bit(y, i) == 1
    decreases i
  {
    ConstantBits(i);
    if i > 0 {
      HalfOfAnd(x, y);
      AndIsBitwise(x / 2, y / 2, i - 1);
    }
  }

  lemma {:induction false} OrIsBitwise(x: int, y: int, i: nat)
    ensures Bit(Or(x, y), i) == 1 <==> Bit(x, i) == 1 || Bit(y, i) == 1
    decreases i
  {
    ConstantBits(i);
    if i > 0 {
      HalfOfOr(x, y);
      OrIsBitwise(x / 2, y / 2, i - 1);
    }
  }

  lemma HalfOfAnd(x: int, y: int)
    ensures And(x, y) / 2 == And(x / 2, y / 2)
  {
  }

  lemma HalfOfOr(x: int, y: int)
    ensures Or(x, y) / 2 == Or(x / 2, y / 2)
  {
  }

  lemma HalfOfShift(x: int, p: int)
    ensures x * (2 * p) == 2 * (x * p)
    ensures (x * (2 * p)) / 2 == x * p && (x * (2 * p)) % 2 == 0
  {
  }

  /** Or-ing a field into the zeros a shift left behind adds it. */
  lemma {:induction false} OrIsSum(high: int, n: nat, low: int)
    requires 0 <= low < Pow2(n)
    ensures Or(Shl(high, n), low) == Shl(high, n) + low
  {
    if n > 0 {
      HalfOfShift(high, Pow2(n - 1));
      OrIsSum(high, n - 1, low / 2);
    }
  }

  lemma ModSplit(x: int, p: int)
    requires p > 0
    ensures x % (2 * p) == 2 * ((x / 2) % p) + x % 2
  {
    var h := x / 2;
    var q, r := h / p, h % p;
    assert h == p * q + r;
    assert x == (2 * p) * q + (2 * r + x % 2);
    ModUnique(x, 2 * p, q, 2 * r + x % 2);
  }

  lemma ModUnique(x: int, d: int, q: int, r: int)
    requires d > 0 && x == d * q + r && 0 <= r < d
    ensures x / d == q && x % d == r
  {
    var q', r' := x / d, x % d;
    assert x == d * q' + r' && 0 <= r' < d;
    assert d * (q - q') == d * q - d * q' && d * (q' - q) == d * q' - d * q;
    if q > q' {
      AtLeastOnce(d, q - q');
    } else if q < q' {
      AtLeastOnce(d, q' - q);
    }
  }

  lemma AtLeastOnce(d: int, k: int)
    requires d > 0 && k >= 1
    ensures d * k >= d
  {
    assert d * k == d + d * (k - 1);
  }

  lemma HalfThenDivide(x: int, p: int)
    requires p > 0
    ensures (x / 2) / p == x / (2 * p)
  {
    var q, r := (x / 2) / p, (x / 2) % p;
    assert x / 2 == p * q + r;
    assert x == (2 * p) * q + (2 * r + x % 2);
    ModUnique(x, 2 * p, q, 2 * r + x % 2);
  }

  /** A bit is the parity of the number shifted right. */
  lemma {:induction false} BitIsShifted(x: int, i: nat)
    ensures Bit(x, i) == Shr(x, i) % 2
    decreases i
  {
    if i > 0 {
      BitIsShifted(x / 2, i - 1);
      HalfThenDivide(x, Pow2(i - 1));
    }
  }

  lemma MaskStep(x: int, p: int)
    requires p > 0 && x != -1
    ensures And(x, 2 * p - 1) == 2 * And(x / 2, p - 1) + x % 2
  {
    assert (2 * p - 1) / 2 == p - 1 && (2 * p - 1) % 2 == 1;
  }

  lemma MaskMinusOne(p: int)
    requires p > 0
    ensures And(-1, p - 1) == (-1) % p
  {
    ModUnique(-1, p, -1, p - 1);
  }

  /** Masking with `n` ones is the non-negative remainder. */
  lemma {:induction false} MaskIsMod(x: int, n: nat)
    ensures And(x, Pow2(n) - 1) == x % Pow2(n)
    decreases n
  {
    if n == 0 {
    } else if x == -1 {
      MaskMinusOne(Pow2(n));
    } else {
      MaskStep(x, Pow2(n - 1));
      MaskIsMod(x / 2, n - 1);
      ModSplit(x, Pow2(n - 1));
    }
  }
}
