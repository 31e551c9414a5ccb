/** Bitwise operators on unbounded naturals, and what masks and single bits do to them. */
module Bits {

  function Pow2(n: nat): (p: nat)
    ensures p > 0
  {
    if n == 0 then 1 else 2 * Pow2(n - 1)
  }

  function And(x: nat, y: nat): nat
    decreases x
  {
    if x == 0 || y == 0 then 0
    else 2 * And(x / 2, y / 2) + (if x % 2 == 1 && y % 2 == 1 then 1 else 0)
  }

  function Or(x: nat, y: nat): nat
    decreases x + y
  {
    if x == 0 then y
    else if y == 0 then x
    else 2 * Or(x / 2, y / 2) + (if x % 2 == 1 || y % 2 == 1 then 1 else 0)
  }

  lemma ProductGrows(d: int, m: int)
    requires m > 0
    ensures d >= 1 ==> d * m >= m
    ensures d <= -1 ==> d * m <= -m
  {
  }

  /** Division with remainder has one answer. */
  lemma DivModUnique(x: int, m: nat, q: int, r: nat)
    requires m > 0 && x == q * m + r && r < m
    ensures x / m == q && x % m == r
  {
    var d := x / m - q;
    assert x == (x / m) * m + x % m;
    assert d * m == r - x % m;
    ProductGrows(d, m);
  }

  lemma Halve(x: nat, m: nat)
    requires m > 0
    ensures x % (2 * m) == 2 * ((x / 2) % m) + x % 2
    ensures x / (2 * m) == (x / 2) / m
  {
    var h := x / 2;
    assert h == (h / m) * m + h % m;
    assert x == (h / m) * (2 * m) + (2 * (h % m) + x % 2);
    DivModUnique(x, 2 * m, h / m, 2 * (h % m) + x % 2);
  }

  lemma {:induction false} AndMask(x: nat, k: nat)
    ensures And(x, Pow2(k) - 1) == x % Pow2(k)
    decreases k
  {
    if k > 0 {
      var m := Pow2(k - 1);
      Halve(x, m);
      AndMask(x / 2, k - 1);
      assert (Pow2(k) - 1) / 2 == m - 1 && (Pow2(k) - 1) % 2 == 1;
    }
  }

  /** Bit `k` of `x`. */
  predicate Bit(x: nat, k: nat) {
    (x / Pow2(k)) % 2 == 1
  }

  lemma {:induction false} AndBit(x: nat, k: nat)
    ensures And(x, Pow2(k)) == if Bit(x, k) then Pow2(k) else 0
    decreases k
  {
    if k > 0 {
      Halve(x, Pow2(k - 1));
      AndBit(x / 2, k - 1);
      assert Pow2(k) / 2 == Pow2(k - 1) && Pow2(k) % 2 == 0;
    } else {
      assert And(x / 2, 0) == 0;
    }
  }

  lemma {:induction false} OrBit(x: nat, k: nat)
    ensures Or(x, Pow2(k)) == if Bit(x, k) then x else x + Pow2(k)
    decreases k
  {
    if k > 0 {
      Halve(x, Pow2(k - 1));
      OrBit(x / 2, k - 1);
      assert Pow2(k) / 2 == Pow2(k - 1) && Pow2(k) % 2 == 0;
    } else {
      assert Or(x / 2, 0) == x / 2;
    }
  }

  /** Clearing the low `k` bits of a `w`-bit word. */
  lemma {:induction false} AndHighMask(x: nat, k: nat, w: nat)
    requires k <= w && x < Pow2(w)
    ensures Pow2(k) <= Pow2(w)
    ensures And(x, Pow2(w) - Pow2(k)) == x - x % Pow2(k)
    decreases w
  {
    if k == 0 {
      AndMask(x, w);
      DivModUnique(x, Pow2(w), 0, x);
    } else {
      Halve(x, Pow2(k - 1));
      AndHighMask(x / 2, k - 1, w - 1);
      var y := Pow2(w - 1) - Pow2(k - 1);
      assert Pow2(w) - Pow2(k) == 2 * y;
      assert (2 * y) / 2 == y && (2 * y) % 2 == 0;
    }
  }

  lemma {:induction false} AndDistributes(x: nat, y: nat, z: nat)
    ensures And(x, Or(y, z)) == Or(And(x, y), And(x, z))
    decreases x
  {
    if x != 0 && y != 0 && z != 0 {
      AndDistributes(x / 2, y / 2, z / 2);
      OrOfDoubles(And(x / 2, y / 2), if x % 2 == 1 && y % 2 == 1 then 1 else 0,
                  And(x / 2, z / 2), if x % 2 == 1 && z % 2 == 1 then 1 else 0);
      var b := if y % 2 == 1 || z % 2 == 1 then 1 else 0;
      assert Or(y, z) == 2 * Or(y / 2, z / 2) + b;
      assert Or(y, z) / 2 == Or(y / 2, z / 2) && Or(y, z) % 2 == b;
    }
  }

  lemma OrOfDoubles(x: nat, a: nat, y: nat, b: nat)
    requires a < 2 && b < 2
    ensures Or(2 * x + a, 2 * y + b) == 2 * Or(x, y) + (if a == 1 || b == 1 then 1 else 0)
  {
  }

  lemma {:induction false} OrIsZero(x: nat, y: nat)
    ensures Or(x, y) == 0 <==> x == 0 && y == 0
    decreases x + y
  {
    if x != 0 && y != 0 {
      OrIsZero(x / 2, y / 2);
    }
  }

  /** Setting a single bit, decided by the same test that reads it. */
  lemma OrSetsTheBit(x: nat, k: nat)
    ensures Or(x, Pow2(k)) == if And(x, Pow2(k)) != 0 then x else x + Pow2(k)
  {
    OrBit(x, k);
    AndBit(x, k);
  }

  lemma SmallMod(x: nat, m: nat)
    requires x < m
    ensures x % m == x
  {
  }
}
