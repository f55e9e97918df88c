/** The rounding of buffer sizes to powers of two. */
module JsonSizes {
  import opened BitOps

  // j binary ones.
  function Ones(j: nat): nat {
    if j == 0 then 0 else 2 * Ones(j - 1) + 1
  }

  lemma {:induction false} OnesAndPower(j: nat)
    ensures Ones(j) + 1 == Pow2(j)
  {
    if j > 0 {
      OnesAndPower(j - 1);
    }
  }

  lemma {:induction false} Pow2Mono(a: nat, b: nat)
    requires a <= b
    ensures Pow2(a) <= Pow2(b)
    decreases b - a
  {
    if a < b {
      Pow2Mono(a + 1, b);
    }
  }

  lemma {:induction false} ShrTwice(y: nat, i: nat, j: nat)
    ensures Shr(Shr(y, i), j) == Shr(y, i + j)
    decreases i
  {
    if i > 0 {
      ShrTwice(y / 2, i - 1, j);
    }
  }

  // Shifting commutes with |.
  lemma {:induction false} OrShift(a: nat, b: nat, m: nat)
    ensures Shr(Or(a, b), m) == Or(Shr(a, m), Shr(b, m))
    decreases m
  {
    if m > 0 {
      OrHalf(a, b);
      OrShift(a / 2, b / 2, m - 1);
    }
  }

  lemma OrHalf(a: nat, b: nat)
    ensures Or(a, b) / 2 == Or(a / 2, b / 2)
  {
    OrStep(a, b);
  }

  // Ones below ones.
  lemma {:induction false} OrOnes(a: nat, j: nat, d: nat)
    requires Shr(a, d) == Ones(j)
    ensures Or(a, Ones(d)) == Ones(j + d)
    decreases d
  {
    if d == 0 {
      OrZero(a);
    } else {
      OrOnes(a / 2, j, d - 1);
      OrStep(a, Ones(d));
    }
  }

  lemma {:induction false} ShrOnes(j: nat, d: nat)
    ensures Shr(Ones(j + d), d) == Ones(j)
    decreases d
  {
    if d > 0 {
      ShrOnes(j, d - 1);
      assert Ones(j + d) / 2 == Ones(j + d - 1);
    }
  }

  // Of the k binary digits of y, the top j are ones.
  ghost predicate TopOnes(y: nat, k: nat, j: nat) {
    j <= k && Shr(y, k - j) == Ones(j)
  }

  // Oring y with itself, shifted by j, up to doubles the run of ones at the top.
  lemma Smear(y: nat, k: nat, j: nat, i: nat)
    requires TopOnes(y, k, j) && j <= i <= k && i <= 2 * j
    ensures TopOnes(Or(y, Shr(y, j)), k, i)
  {
    hide Or, Shr, Ones;
    var d := i - j;
    OrShift(y, Shr(y, j), k - i);
    ShrTwice(y, k - i, d);
    ShrTwice(y, j, k - i);
    ShrTwice(y, k - j, j - d);
    ShrOnes(d, j - d);
    OrOnes(Shr(y, k - i), j, d);
  }

  // The number of binary digits.
  ghost function Width(y: nat): (k: nat)
    ensures y < Pow2(k) && (k > 0 ==> Pow2(k - 1) <= y)
    ensures k > 0 ==> Shr(y, k - 1) == 1
    ensures Shr(y, k) == 0
  {
    if y == 0 then 0 else Width(y / 2) + 1
  }

  lemma {:induction false} ShrToZero(y: nat, k: nat, j: nat)
    requires Shr(y, k) == 0 && k <= j
    ensures Shr(y, j) == 0
  {
    ShrTwice(y, k, j - k);
    ZeroShr(j - k);
  }

  lemma ZeroShr(j: nat)
    ensures Shr(0, j) == 0
  {}

  ghost function Min(a: nat, b: nat): nat {
    if a < b then a else b
  }

  // One round of the doubling, which leaves a number of all ones as it is.
  lemma Round(y: nat, k: nat, j: nat)
    requires Shr(y, k) == 0 && TopOnes(y, k, Min(j, k)) && j > 0
    ensures TopOnes(Or(y, Shr(y, j)), k, Min(2 * j, k)) && Shr(Or(y, Shr(y, j)), k) == 0
  {
    ShrTwice(y, j, k);
    ShrToZero(y, k, j + k);
    OrShift(y, Shr(y, j), k);
    OrZero(0);
    if j <= k {
      Smear(y, k, j, Min(2 * j, k));
    } else {
      ShrToZero(y, k, j);
      OrZero(y);
    }
  }

  // r is the least power of two that is not below x.
  ghost predicate IsLeastPower(r: nat, x: nat) {
    exists k: nat :: r == Pow2(k) && x <= r && forall j: nat | x <= Pow2(j) :: r <= Pow2(j)
  }

  method Pow2Gt(x: nat) returns (r: nat)
    requires 1 <= x <= 0x4000_0000
    ensures IsLeastPower(r, x)
  {
    var y := x - 1;
    ghost var k := Width(y);
    WidthBound(y);
    assert TopOnes(y, k, Min(1, k));
    Round(y, k, 1);
    y := Or(y, Shr(y, 1));
    Round(y, k, 2);
    y := Or(y, Shr(y, 2));
    Round(y, k, 4);
    y := Or(y, Shr(y, 4));
    Round(y, k, 8);
    y := Or(y, Shr(y, 8));
    Round(y, k, 16);
    y := Or(y, Shr(y, 16));
    r := y + 1;
    LeastPower(x, k, r);
  }

  lemma WidthBound(y: nat)
    requires y < 0x4000_0000
    ensures Width(y) <= 30
  {
    if Width(y) > 30 {
      assert Pow2(10) == 0x400;
      assert Pow2(20) == 0x10_0000;
      assert Pow2(30) == 0x4000_0000;
      Pow2Mono(30, Width(y) - 1);
    }
  }

  lemma LeastPower(x: nat, k: nat, r: nat)
    requires x >= 1 && k == Width(x - 1) && r == Ones(k) + 1
    ensures IsLeastPower(r, x)
  {
    OnesAndPower(k);
    forall j: nat | x <= Pow2(j) ensures r <= Pow2(j) {
      if j < k {
        Pow2Mono(j, k - 1);
      } else {
        Pow2Mono(k, j);
      }
    }
  }
}
