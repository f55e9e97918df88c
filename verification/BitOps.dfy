/** The C operators |, & and >> on non-negative integers, digit by binary digit. */
module BitOps {
  function Or(a: nat, b: nat): nat
    decreases a + b
  {
    if a == 0 && b == 0 then 0
    else 2 * Or(a / 2, b / 2) + (if a % 2 == 1 || b % 2 == 1 then 1 else 0)
  }

  function And(a: nat, b: nat): nat
    decreases a + b
  {
    if a == 0 && b == 0 then 0
    else 2 * And(a / 2, b / 2) + (if a % 2 == 1 && b % 2 == 1 then 1 else 0)
  }

  // a >> m
  function Shr(a: nat, m: nat): nat {
    if m == 0 then a else Shr(a / 2, m - 1)
  }

  function Pow2(k: nat): (p: nat)
    ensures p > 0
  {
    if k == 0 then 1 else 2 * Pow2(k - 1)
  }

  lemma AndStep(a: nat, b: nat)
    ensures And(a, b) == 2 * And(a / 2, b / 2) + (if a % 2 == 1 && b % 2 == 1 then 1 else 0)
  {}

  lemma AndOdd(a: nat, bit: nat, b: nat)
    requires bit < 2
    ensures And(2 * a + bit, 2 * b + 1) == 2 * And(a, b) + bit
  {
    AndStep(2 * a + bit, 2 * b + 1);
  }

  lemma {:induction false} AndMask(a: nat, k: nat)
    ensures And(a, Pow2(k) - 1) == a % Pow2(k)
    decreases k
  {
    if k == 0 {
      AndZero(a);
    } else {
      AndMask(a / 2, k - 1);
      MaskOneMore(a, a / 2, a % 2, Pow2(k - 1));
    }
  }

  lemma MaskOneMore(a: nat, h: nat, bit: nat, p: nat)
    requires p > 0 && bit < 2 && a == 2 * h + bit && And(h, p - 1) == h % p
    ensures And(a, 2 * p - 1) == a % (2 * p)
  {
    hide And;
    AndOdd(h, bit, p - 1);
    ModDouble(a, p);
  }

  lemma AndZero(a: nat)
    ensures And(a, 0) == 0
  {}

  lemma OrZero(a: nat)
    ensures Or(a, 0) == a && Or(0, a) == a
  {}

  lemma ModDouble(a: nat, p: nat)
    requires p > 0
    ensures a % (2 * p) == 2 * (a / 2 % p) + a % 2
  {
    var q, r := a / 2 / p, a / 2 % p;
    assert a == 2 * (q * p + r) + a % 2;
    assert 2 * (q * p + r) == q * (2 * p) + 2 * r;
    ModUnique(a, 2 * p, q, 2 * r + a % 2);
  }

  lemma ModUnique(a: nat, d: nat, q: nat, r: nat)
    requires d > 0 && r < d && a == q * d + r
    ensures a % d == r
  {
    MulLe(a / d + 1, q, d);
    MulLe(q + 1, a / d, d);
  }

  lemma MulLe(x: nat, y: nat, d: nat)
    ensures x <= y ==> x * d <= y * d
  {}

  // With no binary digit in common, | adds.
  lemma {:induction false} OrAdds(a: nat, b: nat, k: nat)
    requires b < Pow2(k)
    ensures Or(a * Pow2(k), b) == a * Pow2(k) + b
    decreases k
  {
    if k == 0 {
      OrZero(a);
    } else {
      var p := Pow2(k - 1);
      OrAdds(a, b / 2, k - 1);
      DoubleProduct(a, p);
      OrDouble(a * p, b);
    }
  }

  lemma DoubleProduct(a: nat, p: nat)
    ensures a * (2 * p) == 2 * (a * p)
  {}

  lemma OrDouble(h: nat, b: nat)
    ensures Or(2 * h, b) == 2 * Or(h, b / 2) + b % 2
  {
    OrStep(2 * h, b);
  }

  lemma OrStep(a: nat, b: nat)
    ensures Or(a, b) == 2 * Or(a / 2, b / 2) + (if a % 2 == 1 || b % 2 == 1 then 1 else 0)
  {}

  lemma OrComm(a: nat, b: nat)
    ensures Or(a, b) == Or(b, a)
    decreases a + b
  {}

  lemma OrEven(a: nat, bit: nat, b: nat)
    requires bit < 2
    ensures Or(2 * a + bit, 2 * b) == 2 * Or(a, b) + bit
  {
    OrStep(2 * a + bit, 2 * b);
  }

  lemma LowBit(u: nat, h: nat, bit: nat, a: nat, b: nat)
    requires bit < 2 && u == 2 * h + bit
    ensures And(Or(u, 2 * a), 2 * b + 1) == 2 * And(Or(h, a), b) + bit
  {
    OrEven(h, bit, a);
    AndOdd(Or(h, a), bit, b);
  }

  lemma BottomBit(w: nat)
    ensures And(Or(w, 1), 1) == 1
  {
    OrStep(w, 1);
    AndZero(Or(w, 1) / 2);
  }

  lemma TopBit(v: nat)
    ensures And(Or(v, 2), 2) == 2
  {
    OrStep(v, 2);
    BottomBit(v / 2);
  }

  // (u | 0x80) & 0xBF keeps the low six bits of u below a leading 10.
  lemma ContinuationByte(u: nat)
    ensures And(Or(u, 0x80), 0xBF) == 0x80 + u % 0x40
  {
    var u1 := u / 2;
    var u2 := u1 / 2;
    var u3 := u2 / 2;
    var u4 := u3 / 2;
    var u5 := u4 / 2;
    LowBit(u, u1, u % 2, 64, 95);
    LowBit(u1, u2, u1 % 2, 32, 47);
    LowBit(u2, u3, u2 % 2, 16, 23);
    LowBit(u3, u4, u3 % 2, 8, 11);
    LowBit(u4, u5, u4 % 2, 4, 5);
    LowBit(u5, u5 / 2, u5 % 2, 2, 2);
    TopBit(u5 / 2);
    var low := u % 2 + 2 * (u1 % 2) + 4 * (u2 % 2) + 8 * (u3 % 2) + 16 * (u4 % 2) + 32 * (u5 % 2);
    LowSix(u, u1, u2, u3, u4, u5, low);
  }

  lemma LowSix(u: nat, u1: nat, u2: nat, u3: nat, u4: nat, u5: nat, low: nat)
    requires u1 == u / 2 && u2 == u1 / 2 && u3 == u2 / 2 && u4 == u3 / 2 && u5 == u4 / 2
    requires low == u % 2 + 2 * (u1 % 2) + 4 * (u2 % 2) + 8 * (u3 % 2) + 16 * (u4 % 2) + 32 * (u5 % 2)
    ensures u % 64 == low
  {
    Halves(u, u1);
    Halves(u1, u2);
    Halves(u2, u3);
    Halves(u3, u4);
    Halves(u4, u5);
    Halves(u5, u5 / 2);
    ModUnique(u, 64, u5 / 2, low);
  }

  lemma Halves(u: nat, h: nat)
    requires h == u / 2
    ensures u == 2 * h + u % 2 && u % 2 < 2
  {}
}
