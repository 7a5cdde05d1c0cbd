/** Arithmetic of the erasure code: bytes as polynomials over GF(2), modulo x^8+x^4+x^3+x^2+1. */
module Field {
  type byte = x: int | 0 <= x < 256

  // ---------- Polynomials over GF(2), written as bit masks ----------

  /** Bitwise exclusive or, which is addition of polynomials. */
  function PolyAdd(a: nat, b: nat): nat {
    if a == 0 && b == 0 then 0 else (a % 2 + b % 2) % 2 + 2 * PolyAdd(a / 2, b / 2)
  }

  /** Carry-less multiplication, which is multiplication of polynomials. */
  function PolyMul(a: nat, b: nat): nat
    decreases b
  {
    if b == 0 then 0 else PolyAdd(Keep(b % 2, a), PolyMul(2 * a, b / 2))
  }

  function Keep(bit: int, a: nat): nat { if bit == 1 then a else 0 }

  const GENERATOR: nat := 0x11d

  lemma {:induction false} AddComm(a: nat, b: nat)
    ensures PolyAdd(a, b) == PolyAdd(b, a)
  {
    if a != 0 || b != 0 { AddComm(a / 2, b / 2); }
  }

  lemma {:induction false} AddAssoc(a: nat, b: nat, c: nat)
    ensures PolyAdd(PolyAdd(a, b), c) == PolyAdd(a, PolyAdd(b, c))
    decreases a + b + c
  {
    hide PolyAdd;
    if a == 0 && b == 0 && c == 0 {
      AddZero(0);
    } else {
      AddAssoc(a / 2, b / 2, c / 2);
      AssocHalves(a, b, c);
      AssocBits(a, b, c);
      FromHalves(PolyAdd(PolyAdd(a, b), c), PolyAdd(a, PolyAdd(b, c)));
    }
  }

  lemma AssocHalves(a: nat, b: nat, c: nat)
    ensures PolyAdd(PolyAdd(a, b), c) / 2 == PolyAdd(PolyAdd(a / 2, b / 2), c / 2)
    ensures PolyAdd(a, PolyAdd(b, c)) / 2 == PolyAdd(a / 2, PolyAdd(b / 2, c / 2))
  {
    hide PolyAdd;
    AddHalves(a, b);
    AddHalves(b, c);
    AddHalves(PolyAdd(a, b), c);
    AddHalves(a, PolyAdd(b, c));
  }

  lemma AssocBits(a: nat, b: nat, c: nat)
    ensures PolyAdd(PolyAdd(a, b), c) % 2 == PolyAdd(a, PolyAdd(b, c)) % 2
  {
    hide PolyAdd;
    AddLow(a, b);
    AddLow(b, c);
    AddLow(PolyAdd(a, b), c);
    AddLow(a, PolyAdd(b, c));
  }

  lemma AddLow(a: nat, b: nat)
    ensures (PolyAdd(a, b) % 2 == 0) == ((a % 2 == 0) == (b % 2 == 0))
  {}

  lemma FromHalves(a: nat, b: nat)
    requires a / 2 == b / 2 && a % 2 == b % 2
    ensures a == b
  {}

  lemma AddHalves(a: nat, b: nat)
    ensures PolyAdd(a, b) / 2 == PolyAdd(a / 2, b / 2)
    ensures PolyAdd(a, b) % 2 == (a % 2 + b % 2) % 2
  {}

  lemma {:induction false} AddSelf(a: nat)
    ensures PolyAdd(a, a) == 0
  {
    if a != 0 { AddSelf(a / 2); }
  }

  lemma {:induction false} AddZero(a: nat)
    ensures PolyAdd(a, 0) == a == PolyAdd(0, a)
  {
    if a != 0 { AddZero(a / 2); }
  }

  lemma AddDouble(a: nat, b: nat)
    ensures PolyAdd(2 * a, 2 * b) == 2 * PolyAdd(a, b)
  {}

  lemma AddSwap(a: nat, b: nat, c: nat, d: nat)
    ensures PolyAdd(PolyAdd(a, b), PolyAdd(c, d)) == PolyAdd(PolyAdd(a, c), PolyAdd(b, d))
  {
    hide *;
    AddAssoc(a, b, PolyAdd(c, d));
    AddAssoc(b, c, d);
    AddComm(b, c);
    AddAssoc(c, b, d);
    AddAssoc(a, c, PolyAdd(b, d));
  }

  lemma AddCancel(a: nat, b: nat)
    ensures PolyAdd(a, PolyAdd(a, b)) == b
  {
    hide *;
    AddAssoc(a, a, b);
    AddSelf(a);
    AddZero(b);
  }

  /** Sums of polynomials of degree below w have degree below w. */
  lemma {:induction false} AddDegree(a: nat, b: nat, w: nat)
    requires a < Pow2(w) && b < Pow2(w)
    ensures PolyAdd(a, b) < Pow2(w)
  {
    if w != 0 { AddDegree(a / 2, b / 2, w - 1); }
  }

  function Pow2(w: nat): nat { if w == 0 then 1 else 2 * Pow2(w - 1) }

  // ---------- The field ----------

  function Xor(a: byte, b: byte): byte {
    assert PolyAdd(a, b) < 256 by { assert Pow2(8) == 256; AddDegree(a, b, 8); }
    PolyAdd(a, b)
  }

  /** Multiplication by the indeterminate: one shift, reduced. */
  function XTime(a: byte): byte {
    if a >= 128 then Xor(2 * a - 256, 0x1d) else 2 * a
  }

  function Mul(a: byte, b: byte): byte
    decreases b
  {
    if b == 0 then 0 else Xor(Keep(b % 2, a), Mul(XTime(a), b / 2))
  }

  function Pow(value: byte, n: nat): byte {
    if n == 0 then 1 else Mul(value, Pow(value, n - 1))
  }

  function Div(a: byte, b: byte): byte {
    if a == 0 then 0 else Mul(a, Pow(b, 254))
  }

  lemma XTimeReduces(a: byte)
    ensures XTime(a) == PolyAdd(2 * a, Keep(a / 128, GENERATOR))
  {
    if a >= 128 {
      // 2a = 256 + (2a - 256) and 0x11d = 256 + 0x1d
      assert Pow2(8) == 256;
      AddTop(2 * a - 256, 0x1d, 8);
    } else {
      AddZero(2 * a);
    }
  }

  /** The bits of degree w cancel. */
  lemma {:induction false} AddTop(a: nat, b: nat, w: nat)
    requires a < Pow2(w) && b < Pow2(w)
    ensures PolyAdd(Pow2(w) + a, Pow2(w) + b) == PolyAdd(a, b)
    decreases w
  {
    hide PolyAdd;
    AddHalves(Pow2(w) + a, Pow2(w) + b);
    AddHalves(a, b);
    if w == 0 {
      AddZero(0);
      AddSelf(1);
    } else {
      assert (Pow2(w) + a) / 2 == Pow2(w - 1) + a / 2;
      assert (Pow2(w) + b) / 2 == Pow2(w - 1) + b / 2;
      AddTop(a / 2, b / 2, w - 1);
    }
  }

  lemma AddKept(p: nat, q: nat, a: nat)
    requires p < 2 && q < 2
    ensures PolyAdd(Keep(p, a), Keep(q, a)) == Keep((p + q) % 2, a)
  {
    AddZero(a); AddSelf(a);
  }

  // ---------- Mul is multiplication modulo the generator ----------

  lemma {:induction false} PolyMulLeft(a: nat, b: nat, c: nat)
    ensures PolyMul(PolyAdd(a, b), c) == PolyAdd(PolyMul(a, c), PolyMul(b, c))
    decreases c
  {
    if c == 0 {
      AddZero(0);
    } else {
      var x, y := PolyMul(2 * a, c / 2), PolyMul(2 * b, c / 2);
      AddDouble(a, b);
      PolyMulLeft(2 * a, 2 * b, c / 2);
      AddSwap(a, x, b, y);
      AddSwap(0, x, 0, y);
      AddZero(0);
    }
  }

  lemma PolyMulUnfold(a: nat, b: nat)
    ensures PolyMul(a, b) == PolyAdd(Keep(b % 2, a), PolyMul(2 * a, b / 2))
  {
    AddZero(0);
  }

  lemma {:induction false} PolyMulRight(a: nat, b: nat, c: nat)
    ensures PolyMul(a, PolyAdd(b, c)) == PolyAdd(PolyMul(a, b), PolyMul(a, c))
    decreases b + c
  {
    hide PolyMul, PolyAdd;
    PolyMulUnfold(a, b);
    PolyMulUnfold(a, c);
    PolyMulUnfold(a, PolyAdd(b, c));
    AddHalves(b, c);
    AddKept(b % 2, c % 2, a);
    AddSwap(Keep(b % 2, a), PolyMul(2 * a, b / 2), Keep(c % 2, a), PolyMul(2 * a, c / 2));
    if b != 0 || c != 0 {
      PolyMulRight(2 * a, b / 2, c / 2);
    } else {
      PolyMulZero(a);
      AddZero(0);
    }
  }

  lemma PolyMulZero(a: nat)
    ensures PolyMul(a, 0) == 0
  {}

  /** The quotient that the reductions of the loop amount to. */
  function Quotient(a: byte, b: byte): byte
    decreases b
  {
    if b == 0 then 0 else Xor(Keep(a / 128, b / 2), Quotient(XTime(a), b / 2))
  }

  /** The product of the polynomials a and b, divided by the generator, leaves Mul(a, b). */
  lemma {:induction false} MulIsRemainder(a: byte, b: byte)
    ensures PolyMul(a, b) == PolyAdd(PolyMul(GENERATOR, Quotient(a, b)), Mul(a, b))
    decreases b
  {
    if b == 0 {
      AddZero(0);
    } else {
      var a', b' := XTime(a), b / 2;
      var top := Keep(a / 128, GENERATOR);
      var q, m := Quotient(a', b'), Mul(a', b');
      MulIsRemainder(a', b');
      XTimeReduces(a);
      AddComm(2 * a, top);
      AddCancel(top, 2 * a);
      assert 2 * a == PolyAdd(top, a');
      PolyMulLeft(top, a', b');
      assert PolyMul(top, b') == PolyMul(GENERATOR, Keep(a / 128, b')) by { PolyMulLeftZero(b'); }
      PolyMulRight(GENERATOR, Keep(a / 128, b'), q);
      RemainderStep(Keep(b % 2, a), PolyMul(top, b'), PolyMul(GENERATOR, q), m);
    }
  }

  lemma {:induction false} PolyMulLeftZero(b: nat)
    ensures PolyMul(0, b) == 0
    decreases b
  {
    if b != 0 { PolyMulLeftZero(b / 2); AddZero(0); }
  }

  lemma RemainderStep(k: nat, t: nat, g: nat, m: nat)
    ensures PolyAdd(k, PolyAdd(t, PolyAdd(g, m))) == PolyAdd(PolyAdd(t, g), PolyAdd(k, m))
  {
    hide *;
    AddAssoc(t, g, m);
    AddAssoc(k, PolyAdd(t, g), m);
    AddComm(k, PolyAdd(t, g));
    AddAssoc(PolyAdd(t, g), k, m);
  }

  /** Remainders are unique, so Mul(a, b) is the only byte that MulIsRemainder can hold of. */
  lemma RemainderUnique(q: nat, r: byte, q': nat, r': byte)
    requires PolyAdd(PolyMul(GENERATOR, q), r) == PolyAdd(PolyMul(GENERATOR, q'), r')
    ensures q == q' && r == r'
  {
    var d, s := PolyAdd(q, q'), Xor(r, r');
    PolyMulRight(GENERATOR, q, q');
    AddSwap(PolyMul(GENERATOR, q), r, PolyMul(GENERATOR, q'), r');
    AddSelf(PolyAdd(PolyMul(GENERATOR, q), r));
    AddEqual(PolyMul(GENERATOR, d), s);
    if d != 0 {
      GeneratorMultiple(d);
    }
    AddEqual(q, q');
    AddEqual(r, r');
    PolyMulZero(GENERATOR);
  }

  lemma {:induction false} AddEqual(a: nat, b: nat)
    ensures PolyAdd(a, b) == 0 <==> a == b
  {
    AddCancel(a, b);
    AddSelf(a);
    AddZero(a);
  }

  /** A nonzero multiple of a polynomial of degree 8 has degree at least 8. */
  lemma {:induction false} GeneratorMultiple(d: nat)
    requires d != 0
    ensures PolyMul(GENERATOR, d) >= 256
  {
    DegreeOfMultiple(GENERATOR, d, 8);
  }

  lemma {:induction false} DegreeOfMultiple(a: nat, d: nat, w: nat)
    requires d != 0 && Pow2(w) <= a < 2 * Pow2(w)
    ensures PolyMul(a, d) >= Pow2(w)
    decreases d
  {
    if d == 1 {
      AddZero(a);
      PolyMulZero(2 * a);
    } else {
      DegreeOfMultiple(2 * a, d / 2, w + 1);
      AddDrop(Keep(d % 2, a), PolyMul(2 * a, d / 2), w + 1);
    }
  }

  /** Adding a polynomial of degree below w leaves one of degree at least w that high. */
  lemma {:induction false} AddDrop(a: nat, b: nat, w: nat)
    requires a < Pow2(w) <= b
    ensures PolyAdd(a, b) >= Pow2(w)
    decreases w
  {
    hide PolyAdd;
    AddHalves(a, b);
    if w == 0 {
      AddZero(b);
    } else {
      AddDrop(a / 2, b / 2, w - 1);
    }
  }

  // ---------- The laws of the field ----------

  lemma {:induction false} PolyMulDouble(a: nat, b: nat)
    ensures PolyMul(2 * a, b) == 2 * PolyMul(a, b) == PolyMul(a, 2 * b)
    decreases b
  {
    assert PolyMul(a, 2 * b) == PolyMul(2 * a, b) by { AddZero(PolyMul(2 * a, b)); PolyMulUnfold(a, 2 * b); }
    if b != 0 {
      PolyMulDouble(2 * a, b / 2);
      AddDouble(Keep(b % 2, a), PolyMul(2 * a, b / 2));
    }
  }

  lemma {:induction false} PolyMulOne(a: nat)
    ensures PolyMul(1, a) == a
    decreases a
  {
    if a != 0 {
      PolyMulDouble(1, a / 2);
      PolyMulOne(a / 2);
      AddZero(a / 2);
    }
  }

  lemma {:induction false} PolyMulComm(a: nat, b: nat)
    ensures PolyMul(a, b) == PolyMul(b, a)
    decreases b
  {
    if b == 0 {
      PolyMulLeftZero(a);
    } else {
      var bit, half := b % 2, b / 2;
      AddLowBit(b);
      PolyMulLeft(bit, 2 * half, a);
      PolyMulDouble(half, a);
      PolyMulDouble(a, half);
      PolyMulComm(a, half);
      PolyMulOne(a);
      PolyMulLeftZero(a);
    }
  }

  lemma {:induction false} PolyMulAssoc(a: nat, b: nat, c: nat)
    ensures PolyMul(PolyMul(a, b), c) == PolyMul(a, PolyMul(b, c))
    decreases c
  {
    if c == 0 {
      PolyMulZero(a);
    } else {
      PolyMulDouble(a, b);
      PolyMulAssoc(a, 2 * b, c / 2);
      PolyMulRight(a, Keep(c % 2, b), PolyMul(2 * b, c / 2));
      PolyMulZero(a);
    }
  }

  /** A polynomial of the form g*q + r has the remainder r: how the laws of PolyMul carry over to Mul. */
  ghost predicate Leaves(p: nat, r: byte) {
    exists q: nat :: p == PolyAdd(PolyMul(GENERATOR, q), r)
  }

  lemma LeavesOnce(p: nat, r: byte, r': byte)
    requires Leaves(p, r) && Leaves(p, r')
    ensures r == r'
  {
    var q: nat :| p == PolyAdd(PolyMul(GENERATOR, q), r);
    var q': nat :| p == PolyAdd(PolyMul(GENERATOR, q'), r');
    RemainderUnique(q, r, q', r');
  }

  lemma MulLeaves(a: byte, b: byte)
    ensures Leaves(PolyMul(a, b), Mul(a, b))
  {
    MulIsRemainder(a, b);
  }

  lemma LeavesSum(p: nat, r: byte, p': nat, r': byte)
    requires Leaves(p, r) && Leaves(p', r')
    ensures Leaves(PolyAdd(p, p'), Xor(r, r'))
  {
    var q: nat :| p == PolyAdd(PolyMul(GENERATOR, q), r);
    var q': nat :| p' == PolyAdd(PolyMul(GENERATOR, q'), r');
    AddSwap(PolyMul(GENERATOR, q), r, PolyMul(GENERATOR, q'), r');
    PolyMulRight(GENERATOR, q, q');
  }

  lemma LeavesProduct(p: nat, r: byte, c: byte)
    requires Leaves(p, r)
    ensures Leaves(PolyMul(p, c), Mul(r, c))
  {
    var q: nat :| p == PolyAdd(PolyMul(GENERATOR, q), r);
    var q' := Quotient(r, c);
    MulIsRemainder(r, c);
    PolyMulLeft(PolyMul(GENERATOR, q), r, c);
    PolyMulAssoc(GENERATOR, q, c);
    AddAssoc(PolyMul(PolyMul(GENERATOR, q), c), PolyMul(GENERATOR, q'), Mul(r, c));
    PolyMulRight(GENERATOR, PolyMul(q, c), q');
  }

  lemma MulCommutative(a: byte, b: byte)
    ensures Mul(a, b) == Mul(b, a)
  {
    MulLeaves(a, b);
    MulLeaves(b, a);
    PolyMulComm(a, b);
    LeavesOnce(PolyMul(a, b), Mul(a, b), Mul(b, a));
  }

  lemma MulAssociative(a: byte, b: byte, c: byte)
    ensures Mul(Mul(a, b), c) == Mul(a, Mul(b, c))
  {
    MulLeaves(a, b);
    LeavesProduct(PolyMul(a, b), Mul(a, b), c);
    MulLeaves(b, c);
    LeavesProduct(PolyMul(b, c), Mul(b, c), a);
    PolyMulAssoc(a, b, c);
    PolyMulComm(a, PolyMul(b, c));
    MulCommutative(a, Mul(b, c));
    LeavesOnce(PolyMul(PolyMul(a, b), c), Mul(Mul(a, b), c), Mul(a, Mul(b, c)));
  }

  lemma MulDistributes(a: byte, b: byte, c: byte)
    ensures Mul(Xor(a, b), c) == Xor(Mul(a, c), Mul(b, c))
    ensures Mul(c, Xor(a, b)) == Xor(Mul(c, a), Mul(c, b))
  {
    MulLeaves(a, c);
    MulLeaves(b, c);
    LeavesSum(PolyMul(a, c), Mul(a, c), PolyMul(b, c), Mul(b, c));
    PolyMulLeft(a, b, c);
    MulLeaves(Xor(a, b), c);
    LeavesOnce(PolyMul(Xor(a, b), c), Mul(Xor(a, b), c), Xor(Mul(a, c), Mul(b, c)));
    MulCommutative(a, c);
    MulCommutative(b, c);
    MulCommutative(Xor(a, b), c);
  }

  lemma MulUnit(a: byte)
    ensures Mul(a, 1) == a == Mul(1, a)
    ensures Mul(a, 0) == 0 == Mul(0, a)
  {
    AddZero(a);
    MulCommutative(a, 1);
    MulCommutative(a, 0);
  }

  // ---------- Powers and inverses ----------

  lemma {:induction false} PowHalves(v: byte, n: nat)
    ensures Pow(v, n) == if n % 2 == 1 then Mul(v, Pow(Mul(v, v), n / 2)) else Pow(Mul(v, v), n / 2)
  {
    if n > 1 {
      PowHalves(v, n - 2);
      PowStep(v, n);
    }
  }

  lemma PowStep(v: byte, n: nat)
    requires n > 1
    requires Pow(v, n - 2) ==
      if n % 2 == 1 then Mul(v, Pow(Mul(v, v), n / 2 - 1)) else Pow(Mul(v, v), n / 2 - 1)
    ensures Pow(v, n) == if n % 2 == 1 then Mul(v, Pow(Mul(v, v), n / 2)) else Pow(Mul(v, v), n / 2)
  {
    hide Mul;
    MulAssociative(v, v, Pow(Mul(v, v), n / 2 - 1));
    assert Pow(v, n) == Mul(v, Mul(v, Pow(v, n - 2)));
  }

  lemma SquareAdds(a: byte, b: byte)
    ensures Mul(Xor(a, b), Xor(a, b)) == Xor(Mul(a, a), Mul(b, b))
  {
    MulDistributes(a, b, Xor(a, b));
    MulDistributes(a, b, a);
    MulDistributes(a, b, b);
    MulCommutative(a, b);
    var cross := Mul(a, b);
    AddAssoc(Mul(a, a), cross, Xor(cross, Mul(b, b)));
    AddCancel(cross, Mul(b, b));
  }

  lemma MulTwo(a: byte)
    ensures Mul(2, a) == XTime(a) == Mul(a, 2)
  {
    AddZero(XTime(a));
    AddZero(0);
    MulCommutative(a, 2);
  }

  /** The lowest bit and the rest of a byte. */
  lemma SplitBit(a: byte)
    ensures a == Xor(a % 2, Mul(2, a / 2))
  {
    MulTwo(a / 2);
    AddLowBit(a);
  }

  lemma AddLowBit(a: nat)
    ensures a == PolyAdd(a % 2, 2 * (a / 2))
  {
    hide PolyAdd;
    AddHalves(a % 2, 2 * (a / 2));
    AddZero(a / 2);
  }

  lemma SquareSplits(a: byte)
    ensures Mul(a, a) == Xor(a % 2, XTime(XTime(Mul(a / 2, a / 2))))
  {
    hide *;
    var bit, h := a % 2, a / 2;
    SplitBit(a);
    SquareAdds(bit, Mul(2, h));
    assert Mul(bit, bit) == bit by { MulUnit(bit); if bit == 0 { } else { assert bit == 1; } }
    MulAssociative(2, h, Mul(2, h));
    MulCommutative(h, Mul(2, h));
    MulAssociative(2, h, h);
    MulTwo(Mul(h, h));
    MulTwo(XTime(Mul(h, h)));
  }

  /** The bits of a byte, lowest first. */
  datatype Octet = Octet(b0: bool, b1: bool, b2: bool, b3: bool, b4: bool, b5: bool, b6: bool, b7: bool)

  predicate Bit(a: nat, i: nat) {
    if i == 0 then a % 2 == 1 else Bit(a / 2, i - 1)
  }

  function Bits(a: byte): Octet {
    Octet(Bit(a, 0), Bit(a, 1), Bit(a, 2), Bit(a, 3), Bit(a, 4), Bit(a, 5), Bit(a, 6), Bit(a, 7))
  }

  function XorBits(x: Octet, y: Octet): Octet {
    Octet(x.b0 != y.b0, x.b1 != y.b1, x.b2 != y.b2, x.b3 != y.b3,
          x.b4 != y.b4, x.b5 != y.b5, x.b6 != y.b6, x.b7 != y.b7)
  }

  function XTimeBits(x: Octet): Octet {
    Octet(x.b7, x.b0, x.b1 != x.b7, x.b2 != x.b7, x.b3 != x.b7, x.b4, x.b5, x.b6)
  }

  lemma {:induction false} AddBit(a: nat, b: nat, i: nat)
    ensures Bit(PolyAdd(a, b), i) == (Bit(a, i) != Bit(b, i))
    decreases i
  {
    hide PolyAdd;
    AddHalves(a, b);
    if i > 0 { AddBit(a / 2, b / 2, i - 1); }
  }

  lemma XorIsBitwise(a: byte, b: byte)
    ensures Bits(Xor(a, b)) == XorBits(Bits(a), Bits(b))
  {
    AddBit(a, b, 0); AddBit(a, b, 1); AddBit(a, b, 2); AddBit(a, b, 3);
    AddBit(a, b, 4); AddBit(a, b, 5); AddBit(a, b, 6); AddBit(a, b, 7);
  }

  lemma {:induction false} BitAbove(a: nat, i: nat, w: nat)
    requires a < Pow2(w) && w <= i
    ensures !Bit(a, i)
    decreases i
  {
    if i > 0 { BitAbove(a / 2, i - 1, if w == 0 then 0 else w - 1); }
  }

  lemma {:induction false} BitTop(a: nat, w: nat)
    requires Pow2(w) <= a < 2 * Pow2(w)
    ensures Bit(a, w)
    decreases w
  {
    if w > 0 { BitTop(a / 2, w - 1); }
  }

  lemma XTimeIsShift(a: byte)
    ensures Bits(XTime(a)) == XTimeBits(Bits(a))
  {
    hide Bit, XTime;
    GeneratorBits();
    XTimeBit(a, 0); XTimeBit(a, 1); XTimeBit(a, 2); XTimeBit(a, 3);
    XTimeBit(a, 4); XTimeBit(a, 5); XTimeBit(a, 6); XTimeBit(a, 7);
  }

  lemma GeneratorBits()
    ensures Bit(GENERATOR, 0) && !Bit(GENERATOR, 1) && Bit(GENERATOR, 2) && Bit(GENERATOR, 3)
    ensures Bit(GENERATOR, 4) && !Bit(GENERATOR, 5) && !Bit(GENERATOR, 6) && !Bit(GENERATOR, 7)
  {}

  /** One bit of the shifted byte: its lower neighbour, and the generator's bit if the top one fell out. */
  lemma XTimeBit(a: byte, i: nat)
    ensures Bit(XTime(a), i) == ((i > 0 && Bit(a, i - 1)) != (Bit(a, 7) && Bit(GENERATOR, i)))
  {
    hide XTime, PolyAdd, Bit;
    XTimeReduces(a);
    AddBit(2 * a, Keep(a / 128, GENERATOR), i);
    DoubleBit(a, i);
    TopBit(a);
    ZeroBit(i);
  }

  lemma DoubleBit(a: nat, i: nat)
    ensures Bit(2 * a, i) == (i > 0 && Bit(a, i - 1))
  {}

  lemma {:induction false} ZeroBit(i: nat)
    ensures !Bit(0, i)
  {
    if i > 0 { ZeroBit(i - 1); }
  }

  lemma TopBit(a: byte)
    ensures Bit(a, 7) == (a / 128 == 1)
  {
    hide Bit;
    assert Pow2(7) == 128;
    if a >= 128 { BitTop(a, 7); } else { BitAbove(a, 7, 7); }
  }

  /** Squaring, on bits: each bit moves to twice its degree, and the overflow is reduced. */
  function SquareBits(x: Octet): Octet {
    Octet((x.b0 != x.b4) != (x.b6 != x.b7), x.b7, (x.b1 != x.b4) != (x.b5 != x.b6), x.b4 != x.b6,
          (x.b2 != x.b4) != (x.b5 != x.b7), x.b5, (x.b3 != x.b5) != x.b6, x.b6)
  }

  function HalfBits(x: Octet): Octet {
    Octet(x.b1, x.b2, x.b3, x.b4, x.b5, x.b6, x.b7, false)
  }

  function LowBit(x: Octet): Octet {
    Octet(x.b0, false, false, false, false, false, false, false)
  }

  lemma SquareBitsSplit(x: Octet)
    ensures SquareBits(x) == XorBits(LowBit(x), XTimeBits(XTimeBits(SquareBits(HalfBits(x)))))
  {}

  lemma BitsSplit(a: byte)
    ensures Bits(a / 2) == HalfBits(Bits(a)) && Bits(a % 2) == LowBit(Bits(a))
  {
    BitAbove(a, 8, 8);
    assert Pow2(8) == 256;
    assert a % 2 < Pow2(1);
    forall i | 1 <= i ensures !Bit(a % 2, i) { BitAbove(a % 2, i, 1); }
  }

  lemma {:induction false} SquareIsLinear(a: byte)
    ensures Bits(Mul(a, a)) == SquareBits(Bits(a))
  {
    hide *;
    BitsSplit(a);
    SquareSplits(a);
    SquareBitsSplit(Bits(a));
    var s := Mul(a / 2, a / 2);
    XorIsBitwise(a % 2, XTime(XTime(s)));
    XTimeIsShift(s);
    XTimeIsShift(XTime(s));
    if a == 0 {
      SquareOfZero();
    } else {
      SquareIsLinear(a / 2);
    }
  }

  lemma SquareOfZero()
    ensures Bits(Mul(0, 0)) == SquareBits(Bits(0))
  {
    MulUnit(0);
  }

  /** The only fixed points of squaring are 0 and 1, because the generator is irreducible. */
  lemma Idempotent(e: byte)
    requires Mul(e, e) == e
    ensures e == 0 || e == 1
  {
    hide Mul, Xor, XTime;
    SquareIsLinear(e);
    var x := Bits(e);
    assert !x.b1 && !x.b2 && !x.b3 && !x.b4 && !x.b5 && !x.b6 && !x.b7;
    BitsSplit(e);
    ZeroBits(e / 2);
  }

  lemma ZeroBits(a: byte)
    requires Bits(a) == Octet(false, false, false, false, false, false, false, false)
    ensures a == 0
  {
    BitsInjective(a, 0);
  }

  function Squared(a: byte, k: nat): byte
    decreases k
  {
    if k == 0 then a else Squared(Mul(a, a), k - 1)
  }

  lemma {:induction false} SquaredIsPow(a: byte, k: nat)
    ensures Squared(a, k) == Pow(a, Pow2(k))
    decreases k
  {
    hide Mul;
    if k == 0 {
      MulUnit(a);
      assert Pow(a, 1) == Mul(a, Pow(a, 0));
    } else {
      SquaredIsPow(Mul(a, a), k - 1);
      PowHalves(a, Pow2(k));
    }
  }

  function SquaredBits(x: Octet, k: nat): Octet
    decreases k
  {
    if k == 0 then x else SquaredBits(SquareBits(x), k - 1)
  }

  lemma {:induction false} SquaredIsLinear(a: byte, k: nat)
    ensures Bits(Squared(a, k)) == SquaredBits(Bits(a), k)
    decreases k
  {
    if k != 0 {
      SquareIsLinear(a);
      SquaredIsLinear(Mul(a, a), k - 1);
    }
  }

  lemma {:induction false} BitsInjective(a: byte, b: byte)
    requires Bits(a) == Bits(b)
    ensures a == b
  {
    BitsSplit(a);
    BitsSplit(b);
    if a != 0 || b != 0 { BitsInjective(a / 2, b / 2); }
  }

  /** Squaring eight times is the identity. */
  lemma {:induction false} SquaredEight(a: byte)
    ensures Squared(a, 8) == a
  {
    hide Mul, Xor, XTime;
    SquaredIsLinear(a, 8);
    SquaredBitsEight(Bits(a));
    BitsInjective(Squared(a, 8), a);
  }

  lemma SquaredBitsEight(x: Octet)
    ensures SquaredBits(x, 8) == x
  {
    SquaredBitsFour(x);
    SquaredBitsFour(FourthSquareBits(x));
    SquaredBitsSum(x, 4, 4);
  }

  function FourthSquareBits(x: Octet): Octet {
    Octet(((x.b0 != x.b2) != x.b4) != ((x.b5 != x.b6) != x.b7),
          x.b3 != x.b4,
          ((x.b1 != x.b2) != x.b3) != (x.b4 != x.b5),
          ((x.b1 != x.b2) != x.b4) != (x.b5 != x.b6),
          (x.b2 != x.b4) != (x.b5 != x.b6),
          x.b5,
          ((x.b1 != x.b3) != x.b4) != (x.b5 != x.b6),
          (x.b2 != x.b5) != (x.b6 != x.b7))
  }

  lemma SquaredBitsFour(x: Octet)
    ensures SquaredBits(x, 4) == FourthSquareBits(x)
    ensures FourthSquareBits(FourthSquareBits(x)) == x
  {
    hide SquareBits, FourthSquareBits;
    assert SquaredBits(x, 4) == SquareBits(SquareBits(SquareBits(SquareBits(x))));
    FourSquares(x);
    EightSquares(x);
  }

  lemma FourSquares(x: Octet)
    ensures SquareBits(SquareBits(SquareBits(SquareBits(x)))) == FourthSquareBits(x)
  {}

  lemma EightSquares(x: Octet)
    ensures FourthSquareBits(FourthSquareBits(x)) == x
  {}

  lemma {:induction false} SquaredBitsSum(x: Octet, j: nat, k: nat)
    ensures SquaredBits(x, j + k) == SquaredBits(SquaredBits(x, j), k)
    decreases j
  {
    if j != 0 { SquaredBitsSum(SquareBits(x), j - 1, k); }
  }

  /** Fermat's little theorem in the field: the inverse that gf_div multiplies with. */
  lemma InverseByPower(y: byte)
    requires y != 0
    ensures Mul(Pow(y, 254), y) == 1
  {
    hide Mul;
    var e := Pow(y, 255);
    assert Pow2(8) == 256;
    SquaredIsPow(y, 8);
    SquaredEight(y);
    assert Pow(y, 256) == Mul(y, e) && e == Mul(y, Pow(y, 254));
    // e * e == y^254 * (y * e) == y^254 * y == e
    MulCommutative(y, Pow(y, 254));
    MulAssociative(Pow(y, 254), y, e);
    Idempotent(e);
    if e == 0 { MulUnit(y); }
  }

  lemma DivThenMul(x: byte, y: byte)
    requires y != 0
    ensures Mul(Div(x, y), y) == x
  {
    hide Mul;
    InverseByPower(y);
    MulAssociative(x, Pow(y, 254), y);
    MulUnit(x);
    MulUnit(y);
  }

  lemma MulThenDiv(x: byte, y: byte)
    requires y != 0
    ensures Div(Mul(y, x), y) == x
  {
    hide Mul;
    InverseByPower(y);
    MulCommutative(y, x);
    MulAssociative(x, y, Pow(y, 254));
    MulCommutative(y, Pow(y, 254));
    MulUnit(x);
    if Mul(y, x) == 0 { MulUnit(Pow(y, 254)); }
  }

  // ---------- The loops ----------

  method GfMul(a: byte, b: byte) returns (result: byte)
    ensures result == Mul(a, b)
  {
    hide PolyAdd, Mul;
    var x: byte, y: byte := a, b;
    result := 0;
    AddZero(Mul(a, b));
    while y != 0
      invariant Xor(result, Mul(x, y)) == Mul(a, b)
      decreases y
    {
      hide PolyAdd, Mul;
      GfMulStep(result, x, y);
      if y % 2 == 1 { result := Xor(result, x); }
      var high := x >= 128;
      x := if high then 2 * x - 256 else 2 * x;  // the shift drops bit 8
      if high { x := Xor(x, 0x1d); }
      y := y / 2;
    }
    MulUnit(x);
    AddZero(result);
  }

  lemma GfMulStep(result: byte, x: byte, y: byte)
    requires y != 0
    ensures Xor(result, Mul(x, y)) == Xor(if y % 2 == 1 then Xor(result, x) else result, Mul(XTime(x), y / 2))
  {
    var m := Mul(XTime(x), y / 2);
    assert Mul(x, y) == Xor(Keep(y % 2, x), m);
    AddAssoc(result, x, m);
    AddZero(m);
  }

  method GfPow(value: byte, power: nat) returns (result: byte)
    ensures result == Pow(value, power)
  {
    var v, p := value, power;
    result := 1;
    MulUnit(Pow(value, power));
    while p != 0
      invariant Mul(result, Pow(v, p)) == Pow(value, power)
    {
      PowHalves(v, p);
      if p % 2 == 1 {
        MulAssociative(result, v, Pow(Mul(v, v), p / 2));
        result := GfMul(result, v);
      }
      v := GfMul(v, v);
      p := p / 2;
    }
    MulUnit(result);
  }

  method GfDiv(a: byte, b: byte) returns (result: byte)
    ensures result == Div(a, b)
  {
    if a == 0 { return 0; }
    var inverse := GfPow(b, 254);
    result := GfMul(a, inverse);
  }
}
