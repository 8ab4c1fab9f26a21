// GF(2^8) with the reduction polynomial x^8 + x^4 + x^3 + x + 1, as the vault
// computes in it. A byte is the polynomial over GF(2) whose coefficient of x^i is bit i.
module GF256 {

  // ---------- The field operations ----------

  function Add(a: bv8, b: bv8): bv8 {
    a ^ b
  }

  // Multiplication by x: a shift, reduced when x^8 appears.
  function XTimes(a: bv8): bv8 {
    (a << 1) ^ (0x1b & (0 - (a >> 7)))
  }

  function Half(b: bv8): bv8 {
    b >> 1
  }

  // a when the lowest bit of b is set, and zero otherwise
  function Select(b: bv8, a: bv8): bv8 {
    if b & 1 == 1 then a else 0
  }

  // The product of a with the n lowest coefficients of b.
  function MulBits(a: bv8, b: bv8, n: nat): bv8
    decreases n
  {
    if n == 0 then 0 else Add(Select(b, a), MulBits(XTimes(a), Half(b), n - 1))
  }

  function Mul(a: bv8, b: bv8): bv8 {
    MulBits(a, b, 8)
  }

  function Sq(a: bv8): bv8 {
    Mul(a, a)
  }

  // a to the power 2^(n+1) - 1
  function Ladder(a: bv8, n: nat): bv8 {
    if n == 0 then a else Mul(Sq(Ladder(a, n - 1)), a)
  }

  // a to the power 254
  function Inv(a: bv8): bv8 {
    Sq(Ladder(a, 6))
  }

  // ---------- The code: branchless multiplication, Fermat inverse ----------

  method GfMul(x: bv8, y: bv8) returns (result: bv8)
    ensures result == Mul(x, y)
  {
    hide Add, MulBits;
    var a, b := x, y;
    result := 0;
    AddLaws(MulBits(x, y, 8), 0, 0);
    for i := 0 to 8
      invariant Mul(x, y) == Add(result, MulBits(a, b, 8 - i))
    {
      MulStep(result, a, b, 8 - i);
      var mask := 0 - (b & 1);
      result := result ^ (a & mask);
      var carry := 0 - (a >> 7);
      a := (a << 1) ^ (0x1b & carry);
      b := b >> 1;
    }
    NoBitsLeft(result, a, b);
  }

  // The source panics on zero; every caller has ruled zero out.
  method GfInv(a: bv8) returns (result: bv8)
    requires a != 0
    ensures result == Inv(a)
  {
    hide Mul;
    result := a;
    for i := 0 to 6
      invariant result == Ladder(a, i)
    {
      result := GfMul(result, result);
      result := GfMul(result, a);
    }
    result := GfMul(result, result);
  }

  lemma MaskIsSelect(b: bv8, a: bv8)
    ensures a & (0 - (b & 1)) == Select(b, a)
  {
    assert b & 1 == 0 || b & 1 == 1;
  }

  // One pass of the loop moves one term of the product into the accumulator.
  lemma MulStep(r: bv8, a: bv8, b: bv8, n: nat)
    requires n > 0
    ensures Add(r, MulBits(a, b, n))
         == Add(r ^ (a & (0 - (b & 1))), MulBits((a << 1) ^ (0x1b & (0 - (a >> 7))), b >> 1, n - 1))
  {
    hide Select;
    MaskIsSelect(b, a);
    var rest := MulBits(XTimes(a), Half(b), n - 1);
    assert MulBits(a, b, n) == Add(Select(b, a), rest);
    hide MulBits;
    AddLaws(r, Select(b, a), rest);
  }

  lemma NoBitsLeft(r: bv8, a: bv8, b: bv8)
    ensures Add(r, MulBits(a, b, 0)) == r
  {}

  // ---------- Bit-level facts ----------

  lemma AddAssoc(a: bv8, b: bv8, c: bv8)
    ensures Add(a, Add(b, c)) == Add(Add(a, b), c)
  {}

  lemma AddComm(a: bv8, b: bv8)
    ensures Add(a, b) == Add(b, a)
  {}

  lemma AddZero(a: bv8)
    ensures Add(a, 0) == a && Add(0, a) == a
    ensures Add(a, a) == 0
  {}

  lemma AddLaws(a: bv8, b: bv8, c: bv8)
    ensures Add(a, b) == Add(b, a)
    ensures Add(a, Add(b, c)) == Add(Add(a, b), c)
    ensures Add(a, 0) == a && Add(0, a) == a
    ensures Add(a, a) == 0
    ensures Add(a, b) == 0 ==> a == b
    ensures Add(Add(a, b), b) == a
  {
    hide Add;
    AddAssoc(a, b, c);
    AddComm(a, b);
    AddZero(a);
    AddZero(b);
    AddAssoc(a, b, b);
  }

  lemma Interchange(a: bv8, b: bv8, c: bv8, d: bv8)
    ensures Add(Add(a, b), Add(c, d)) == Add(Add(a, c), Add(b, d))
  {
    hide Add;
    AddLaws(a, b, Add(c, d));
    AddLaws(b, c, d);
    AddLaws(c, b, d);
    AddLaws(a, c, Add(b, d));
  }

  lemma XTimesLinear(a: bv8, b: bv8)
    ensures XTimes(Add(a, b)) == Add(XTimes(a), XTimes(b))
  {
    assert ((a ^ b) << 1) ^ (0x1b & (0 - ((a ^ b) >> 7)))
        == ((a << 1) ^ (0x1b & (0 - (a >> 7)))) ^ ((b << 1) ^ (0x1b & (0 - (b >> 7))));
  }

  lemma HalfLinear(a: bv8, b: bv8)
    ensures Half(Add(a, b)) == Add(Half(a), Half(b))
  {}

  lemma SelectLinear(b: bv8, a: bv8, c: bv8)
    ensures Select(b, Add(a, c)) == Add(Select(b, a), Select(b, c))
  {}

  lemma SelectorLinear(a: bv8, c: bv8, b: bv8)
    ensures Select(Add(a, c), b) == Add(Select(a, b), Select(c, b))
  {
    assert (a ^ c) & 1 == (a & 1) ^ (c & 1);
    assert (a & 1 == 0 || a & 1 == 1) && (c & 1 == 0 || c & 1 == 1);
  }

  lemma SelectXTimes(b: bv8, a: bv8)
    ensures XTimes(Select(b, a)) == Select(b, XTimes(a))
  {}

  lemma SplitLow(a: bv8)
    ensures a == Add(Select(a, 1), XTimes(Half(a)))
    ensures Select(a, 1) == 0 || Select(a, 1) == 1
  {
    assert (a >> 1) >> 7 == 0;
    assert a & 1 == 0 || a & 1 == 1;
    assert a == (a & 1) ^ ((a >> 1) << 1);
  }

  // a has degree below n
  predicate Fits(a: bv8, n: nat)
    decreases n
  {
    if n == 0 then a == 0 else Fits(Half(a), n - 1)
  }

  lemma AllFit(a: bv8)
    ensures Fits(a, 8)
  {
    assert a >> 1 >> 1 >> 1 >> 1 >> 1 >> 1 >> 1 >> 1 == 0;
  }

  // ---------- Ring laws ----------

  lemma {:induction false} MulBitsAddLeft(a: bv8, c: bv8, b: bv8, n: nat)
    ensures MulBits(Add(a, c), b, n) == Add(MulBits(a, b, n), MulBits(c, b, n))
    decreases n
  {
    hide Add, Half, XTimes, Select;
    AddLaws(0, 0, 0);
    if n > 0 {
      XTimesLinear(a, c);
      SelectLinear(b, a, c);
      MulBitsAddLeft(XTimes(a), XTimes(c), Half(b), n - 1);
      Interchange(Select(b, a), Select(b, c), MulBits(XTimes(a), Half(b), n - 1), MulBits(XTimes(c), Half(b), n - 1));
    }
  }

  lemma {:induction false} MulBitsAddRight(a: bv8, b: bv8, c: bv8, n: nat)
    ensures MulBits(a, Add(b, c), n) == Add(MulBits(a, b, n), MulBits(a, c, n))
    decreases n
  {
    hide Add, Half, XTimes, Select;
    AddLaws(0, 0, 0);
    if n > 0 {
      HalfLinear(b, c);
      SelectorLinear(b, c, a);
      MulBitsAddRight(XTimes(a), Half(b), Half(c), n - 1);
      Interchange(Select(b, a), Select(c, a), MulBits(XTimes(a), Half(b), n - 1), MulBits(XTimes(a), Half(c), n - 1));
    }
  }

  lemma {:induction false} MulBitsXTimes(a: bv8, b: bv8, n: nat)
    ensures MulBits(XTimes(a), b, n) == XTimes(MulBits(a, b, n))
    decreases n
  {
    hide Add, Half, Select;
    if n > 0 {
      hide XTimes;
      SelectXTimes(b, a);
      MulBitsXTimes(XTimes(a), Half(b), n - 1);
      XTimesLinear(Select(b, a), MulBits(XTimes(a), Half(b), n - 1));
    }
  }

  lemma {:induction false} MulBitsZero(b: bv8, n: nat)
    ensures MulBits(0, b, n) == 0
  {
    MulBitsAddLeft(0, 0, b, n);
    hide MulBits;
    AddLaws(0, 0, 0);
    AddLaws(MulBits(0, b, n), 0, 0);
  }

  lemma {:induction false} MulBitsOne(b: bv8, n: nat)
    requires Fits(b, n)
    ensures MulBits(1, b, n) == b
    decreases n
  {
    hide Add, Half, Select, XTimes;
    if n > 0 {
      MulBitsOne(Half(b), n - 1);
      MulBitsXTimes(1, Half(b), n - 1);
      SplitLow(b);
    }
  }

  lemma MulZeroOne(a: bv8)
    ensures Mul(0, a) == 0 && Mul(1, a) == a
    ensures Mul(a, 0) == 0 && Mul(a, 1) == a
  {
    MulBitsZero(a, 8);
    AllFit(a);
    MulBitsOne(a, 8);
    MulComm(a, 0);
    MulComm(a, 1);
  }

  lemma {:induction false} MulCommBits(a: bv8, b: bv8, n: nat)
    requires Fits(a, n)
    ensures MulBits(a, b, 8) == MulBits(b, a, n)
    decreases n
  {
    hide Add, Half, Select, XTimes;
    MulBitsZero(b, 8);
    if n > 0 {
      var h := Half(a);
      SplitLow(a);
      MulBitsAddLeft(Select(a, 1), XTimes(h), b, 8);
      SelectedOne(a, b);
      MulBitsXTimes(h, b, 8);
      MulCommBits(h, b, n - 1);
      MulBitsXTimes(b, h, n - 1);
    }
  }

  lemma SelectedOne(a: bv8, b: bv8)
    ensures MulBits(Select(a, 1), b, 8) == Select(a, b)
  {
    hide MulBits;
    MulBitsZero(b, 8);
    AllFit(b);
    MulBitsOne(b, 8);
  }

  lemma MulComm(a: bv8, b: bv8)
    ensures Mul(a, b) == Mul(b, a)
  {
    AllFit(a);
    MulCommBits(a, b, 8);
    hide MulBits;
  }

  lemma MulAdd(a: bv8, b: bv8, c: bv8)
    ensures Mul(a, Add(b, c)) == Add(Mul(a, b), Mul(a, c))
    ensures Mul(Add(b, c), a) == Add(Mul(b, a), Mul(c, a))
  {
    hide Add, MulBits;
    MulBitsAddRight(a, b, c, 8);
    MulBitsAddLeft(b, c, a, 8);
  }

  lemma MulXTimes(a: bv8, b: bv8)
    ensures Mul(a, XTimes(b)) == XTimes(Mul(a, b))
    ensures Mul(XTimes(a), b) == XTimes(Mul(a, b))
  {
    hide XTimes, MulBits;
    MulComm(a, XTimes(b));
    MulBitsXTimes(b, a, 8);
    MulComm(a, b);
    MulBitsXTimes(a, b, 8);
  }

  lemma {:induction false} MulAssocBits(a: bv8, b: bv8, c: bv8, n: nat)
    ensures MulBits(Mul(a, b), c, n) == Mul(a, MulBits(b, c, n))
    decreases n
  {
    hide Add, Half, Select, XTimes, Mul;
    MulZeroOne(a);
    if n > 0 {
      MulXTimes(a, b);
      MulAssocBits(a, XTimes(b), Half(c), n - 1);
      MulAdd(a, Select(c, b), MulBits(XTimes(b), Half(c), n - 1));
      MulSelect(a, c, b);
    }
  }

  lemma MulSelect(a: bv8, c: bv8, b: bv8)
    ensures Mul(a, Select(c, b)) == Select(c, Mul(a, b))
  {
    hide Mul;
    MulZeroOne(a);
  }

  lemma MulAssoc(a: bv8, b: bv8, c: bv8)
    ensures Mul(Mul(a, b), c) == Mul(a, Mul(b, c))
  {
    hide MulBits;
    MulAssocBits(a, b, c, 8);
  }

  lemma MulInterchange(a: bv8, b: bv8, c: bv8, d: bv8)
    ensures Mul(Mul(a, b), Mul(c, d)) == Mul(Mul(a, c), Mul(b, d))
  {
    hide Mul;
    MulAssoc(a, b, Mul(c, d));
    MulAssoc(b, c, d);
    MulComm(b, c);
    MulAssoc(c, b, d);
    MulAssoc(a, c, Mul(b, d));
  }

  // ---------- Inverses: the Frobenius map has order 8 ----------

  function Frobenius(a: bv8, n: nat): bv8 {
    if n == 0 then a else Sq(Frobenius(a, n - 1))
  }

  lemma {:induction false} FrobeniusHomomorphic(a: bv8, b: bv8, n: nat)
    ensures Frobenius(Add(a, b), n) == Add(Frobenius(a, n), Frobenius(b, n))
    ensures Frobenius(Mul(a, b), n) == Mul(Frobenius(a, n), Frobenius(b, n))
  {
    hide Add, Mul;
    if n > 0 {
      FrobeniusHomomorphic(a, b, n - 1);
      var f, g := Frobenius(a, n - 1), Frobenius(b, n - 1);
      MulInterchange(f, g, f, g);
      MulAdd(Add(f, g), f, g);
      MulAdd(f, f, g);
      MulAdd(g, f, g);
      MulComm(f, g);
      var p, q, m := Mul(f, f), Mul(g, g), Mul(f, g);
      assert Sq(Add(f, g)) == Add(Add(p, m), Add(m, q));
      Interchange(p, m, q, m);
      AddLaws(m, q, 0);
      AddLaws(Add(p, q), 0, 0);
    }
  }

  // The conjugates of x: 02, 04, 10, 1b, 5e, e4, 4d, fa and back to 02.
  lemma Conjugates02()
    ensures Mul(0x02, 0x02) == 0x04 && Mul(0x04, 0x04) == 0x10
  {}
  lemma Conjugates10()
    ensures Mul(0x10, 0x10) == 0x1b && Mul(0x1b, 0x1b) == 0x5e
  {}
  lemma Conjugates5e()
    ensures Mul(0x5e, 0x5e) == 0xe4 && Mul(0xe4, 0xe4) == 0x4d
  {}
  lemma Conjugates4d()
    ensures Mul(0x4d, 0x4d) == 0xfa && Mul(0xfa, 0xfa) == 0x02
  {}

  lemma FrobeniusOfX()
    ensures Frobenius(2, 8) == 2
  {
    hide Mul;
    Conjugates02();
    Conjugates10();
    Conjugates5e();
    Conjugates4d();
    assert Frobenius(2, 4) == 0x5e;
  }

  lemma {:induction false} FrobeniusOfBits(a: bv8, n: nat)
    requires Fits(a, n)
    ensures Frobenius(a, 8) == a
    decreases n
  {
    hide Add, Mul, Half, Select, XTimes;
    if n == 0 {
      FrobeniusOfBit(0, 8);
    } else {
      SplitLow(a);
      FrobeniusOfBit(Select(a, 1), 8);
      TimesX(Half(a));
      FrobeniusHomomorphic(Select(a, 1), Mul(2, Half(a)), 8);
      FrobeniusHomomorphic(2, Half(a), 8);
      FrobeniusOfX();
      FrobeniusOfBits(Half(a), n - 1);
    }
  }

  lemma {:induction false} FrobeniusOfBit(a: bv8, n: nat)
    requires a == 0 || a == 1
    ensures Frobenius(a, n) == a
  {
    hide Mul;
    MulZeroOne(a);
    if n > 0 {
      FrobeniusOfBit(a, n - 1);
    }
  }

  lemma TimesX(a: bv8)
    ensures XTimes(a) == Mul(2, a)
  {
    hide Mul;
    MulXTimes(1, a);
    MulZeroOne(a);
  }

  // Every element is a root of x^256 - x.
  lemma FermatLittle(a: bv8)
    ensures Frobenius(a, 8) == a
  {
    AllFit(a);
    FrobeniusOfBits(a, 8);
  }

  lemma {:induction false} LadderTimes(a: bv8, n: nat)
    ensures Mul(Ladder(a, n), a) == Frobenius(a, n + 1)
  {
    hide Mul;
    if n > 0 {
      var p := Ladder(a, n - 1);
      MulAssoc(Sq(p), a, a);
      MulInterchange(p, p, a, a);
      LadderTimes(a, n - 1);
    }
  }

  lemma IdempotentIsTrivial(e: bv8)
    requires Sq(e) == e
    ensures e == 0 || e == 1
  {
  }

  lemma InvCorrect(a: bv8)
    requires a != 0
    ensures Mul(Inv(a), a) == 1 && Mul(a, Inv(a)) == 1
  {
    hide Mul;
    var p := Ladder(a, 6);
    var e := Mul(Inv(a), a);
    MulComm(a, Inv(a));
    MulAssoc(Inv(a), a, a);
    MulInterchange(p, p, a, a);
    LadderTimes(a, 6);
    FermatLittle(a);
    assert Mul(e, a) == a;
    MulAssoc(e, Inv(a), a);
    MulComm(e, Inv(a));
    MulAssoc(Inv(a), e, a);
    MulZeroOne(a);
    IdempotentIsTrivial(e);
  }

  lemma NoZeroDivisors(a: bv8, b: bv8)
    ensures Mul(a, b) == 0 <==> a == 0 || b == 0
  {
    hide Mul;
    MulZeroOne(a);
    MulZeroOne(b);
    if Mul(a, b) == 0 && a != 0 {
      InvCorrect(a);
      MulAssoc(Inv(a), a, b);
      MulZeroOne(Inv(a));
    }
  }

  // ---------- Section 4.2 of FIPS 197: multiply as polynomials, then reduce ----------

  function Add16(p: bv16, u: bv16): bv16 {
    p ^ u
  }

  function Double(p: bv16): bv16 {
    p << 1
  }

  function Select16(b: bv8, p: bv16): bv16 {
    if b & 1 == 1 then p else 0
  }

  // The product of two polynomials over GF(2), not reduced.
  function PolyMul(p: bv16, b: bv8, n: nat): bv16
    decreases n
  {
    if n == 0 then 0 else Add16(Select16(b, p), PolyMul(Double(p), Half(b), n - 1))
  }

  // w times x^8 + x^4 + x^3 + x + 1
  function TimesModulus(w: bv16): bv16 {
    var w1 := Double(w);
    var w3 := Double(Double(w1));
    var w4 := Double(w3);
    var w8 := Double(Double(Double(Double(w4))));
    Add16(Add16(Add16(w8, w4), Add16(w3, w1)), w)
  }

  // p divided by the reduction polynomial gives quotient q and remainder r.
  predicate Divides(p: bv16, q: bv8, r: bv8) {
    p == Add16(TimesModulus(q as bv16), r as bv16)
  }

  ghost predicate Remainder(p: bv16, r: bv8) {
    exists q: bv8 :: Divides(p, q, r)
  }

  lemma RemainderUnique(p: bv16, r: bv8, s: bv8)
    requires Remainder(p, r) && Remainder(p, s)
    ensures r == s
  {
    hide Divides;
    var q: bv8 :| Divides(p, q, r);
    var t: bv8 :| Divides(p, t, s);
    QuotientsAgree(p, q, r, t, s);
  }

  lemma QuotientsAgree(p: bv16, q: bv8, r: bv8, t: bv8, s: bv8)
    requires Divides(p, q, r) && Divides(p, t, s)
    ensures r == s
  {
    hide TimesModulus, Add16;
    TimesModulusAdds(q as bv16, t as bv16);
    Exchange16(TimesModulus(q as bv16), r as bv16, TimesModulus(t as bv16), s as bv16);
    WidenAdds(q, t);
    WidenAdds(r, s);
    SmallMultipleIsZero(q ^ t, r ^ s);
    AddLaws(r, s, 0);
  }

  lemma Exchange16(p: bv16, u: bv16, v: bv16, w: bv16)
    requires Add16(p, u) == Add16(v, w)
    ensures Add16(p, v) == Add16(u, w)
  {
    hide Add16;
    Interchange16(p, u, v, w);
    Cancel16(Add16(p, u), 0);
    Cancel16(Add16(p, v), Add16(u, w));
  }

  lemma Cancel16(p: bv16, u: bv16)
    ensures Add16(p, p) == 0
    ensures Add16(p, u) == 0 ==> p == u
  {}

  lemma DoubleAdds(p: bv16, u: bv16)
    ensures Double(Add16(p, u)) == Add16(Double(p), Double(u))
  {}

  lemma Add16Laws(p: bv16, u: bv16, v: bv16)
    ensures Add16(p, u) == Add16(u, p)
    ensures Add16(p, Add16(u, v)) == Add16(Add16(p, u), v)
  {}

  lemma Interchange16(p: bv16, u: bv16, v: bv16, w: bv16)
    ensures Add16(Add16(p, u), Add16(v, w)) == Add16(Add16(p, v), Add16(u, w))
  {
    hide Add16;
    Add16Laws(p, u, Add16(v, w));
    Add16Laws(u, v, w);
    Add16Laws(v, u, w);
    Add16Laws(p, v, Add16(u, w));
  }

  lemma TimesModulusAdds(w: bv16, v: bv16)
    ensures TimesModulus(Add16(w, v)) == Add16(TimesModulus(w), TimesModulus(v))
  {
    hide Add16, Double;
    var w1, v1 := Double(w), Double(v);
    var w3, v3 := Double(Double(w1)), Double(Double(v1));
    var w4, v4 := Double(w3), Double(v3);
    var w8, v8 := Double(Double(Double(Double(w4)))), Double(Double(Double(Double(v4))));
    DoubleAdds(w, v);
    DoubleAdds(w1, v1);
    DoubleAdds(Double(w1), Double(v1));
    DoubleAdds(w3, v3);
    DoubleAdds(w4, v4);
    DoubleAdds(Double(w4), Double(v4));
    DoubleAdds(Double(Double(w4)), Double(Double(v4)));
    DoubleAdds(Double(Double(Double(w4))), Double(Double(Double(v4))));
    Interchange16(w8, v8, w4, v4);
    Interchange16(w3, v3, w1, v1);
    Interchange16(Add16(w8, w4), Add16(v8, v4), Add16(w3, w1), Add16(v3, v1));
    Interchange16(Add16(Add16(w8, w4), Add16(w3, w1)), Add16(Add16(v8, v4), Add16(v3, v1)), w, v);
  }

  lemma TimesModulusDoubles(w: bv16)
    ensures TimesModulus(Double(w)) == Double(TimesModulus(w))
  {
    hide Add16, Double;
    var w1 := Double(w);
    var w3 := Double(Double(w1));
    var w4 := Double(w3);
    var w8 := Double(Double(Double(Double(w4))));
    DoubleAdds(Add16(Add16(w8, w4), Add16(w3, w1)), w);
    DoubleAdds(Add16(w8, w4), Add16(w3, w1));
    DoubleAdds(w8, w4);
    DoubleAdds(w3, w1);
  }

  lemma SmallMultipleIsZero(q: bv8, r: bv8)
    requires TimesModulus(q as bv16) == r as bv16
    ensures r == 0
  {}

  lemma RemainderAdds(p: bv16, r: bv8, u: bv16, s: bv8)
    requires Remainder(p, r) && Remainder(u, s)
    ensures Remainder(Add16(p, u), Add(r, s))
  {
    hide Divides;
    var q: bv8 :| Divides(p, q, r);
    var t: bv8 :| Divides(u, t, s);
    DividesAdds(p, q, r, u, t, s);
  }

  lemma DividesAdds(p: bv16, q: bv8, r: bv8, u: bv16, t: bv8, s: bv8)
    requires Divides(p, q, r) && Divides(u, t, s)
    ensures Divides(Add16(p, u), q ^ t, Add(r, s))
  {
    hide TimesModulus, Add16;
    TimesModulusAdds(q as bv16, t as bv16);
    WidenAdds(q, t);
    WidenAdds(r, s);
    Interchange16(TimesModulus(q as bv16), r as bv16, TimesModulus(t as bv16), s as bv16);
  }

  lemma WidenAdds(r: bv8, s: bv8)
    ensures (r ^ s) as bv16 == Add16(r as bv16, s as bv16)
    ensures Add(r, s) == r ^ s
  {}

  lemma RemainderShifts(p: bv16, r: bv8)
    requires Remainder(p, r) && p & 0x8000 == 0
    ensures Remainder(Double(p), XTimes(r))
  {
    hide Divides, Double, XTimes;
    var q: bv8 :| Divides(p, q, r);
    DividesShifts(p, q, r);
  }

  lemma DividesShifts(p: bv16, q: bv8, r: bv8)
    requires Divides(p, q, r) && p & 0x8000 == 0
    ensures Divides(Double(p), (q << 1) ^ (r >> 7), XTimes(r))
  {
    hide TimesModulus, Add16, Double, XTimes;
    TopOfMultiple(q, r);
    var t, h, c := TimesModulus((q << 1) as bv16), TimesModulus((r >> 7) as bv16), XTimes(r) as bv16;
    DoubleAdds(TimesModulus(q as bv16), r as bv16);
    TimesModulusDoubles(q as bv16);
    assert Double(p) == Add16(t, Double(r as bv16));
    DoubledRemainder(r);
    Add16Laws(t, h, c);
    WidenAdds(q << 1, r >> 7);
    TimesModulusAdds((q << 1) as bv16, (r >> 7) as bv16);
  }

  lemma TopOfMultiple(q: bv8, r: bv8)
    requires Add16(TimesModulus(q as bv16), r as bv16) & 0x8000 == 0
    ensures (q << 1) as bv16 == Double(q as bv16)
  {
    assert q & 0x80 == 0;
  }

  lemma DoubledRemainder(r: bv8)
    ensures Double(r as bv16) == Add16(TimesModulus((r >> 7) as bv16), XTimes(r) as bv16)
  {
    assert r >> 7 == 0 || r >> 7 == 1;
  }

  // p can be shifted left n times without losing a coefficient.
  predicate Room(p: bv16, n: nat)
    decreases n
  {
    n == 0 || (p & 0x8000 == 0 && Room(Double(p), n - 1))
  }

  lemma {:induction false} RemainderOfProduct(p: bv16, r: bv8, b: bv8, n: nat)
    requires Remainder(p, r) && Room(p, n)
    ensures Remainder(PolyMul(p, b, n), MulBits(r, b, n))
    decreases n
  {
    hide Add, Add16, Double, Half, XTimes, Select, Select16, Remainder;
    ZeroRemainder(b, p, r);
    if n > 0 {
      RemainderShifts(p, r);
      RemainderOfProduct(Double(p), XTimes(r), Half(b), n - 1);
      RemainderAdds(
        Select16(b, p), Select(b, r), PolyMul(Double(p), Half(b), n - 1), MulBits(XTimes(r), Half(b), n - 1));
    }
  }

  lemma ZeroRemainder(b: bv8, p: bv16, r: bv8)
    requires Remainder(p, r)
    ensures Remainder(0, 0) && Remainder(Select16(b, p), Select(b, r))
  {
    assert Divides(0, 0, 0);
  }

  lemma ByteIsItsRemainder(a: bv8)
    ensures Remainder(a as bv16, a)
  {
    assert Divides(a as bv16, 0, a);
  }

  lemma ByteHasRoom(a: bv8)
    ensures Room(a as bv16, 8)
  {
    var p := a as bv16;
    assert p & 0x8000 == 0 && (p << 1) & 0x8000 == 0 && (p << 2) & 0x8000 == 0 && (p << 3) & 0x8000 == 0;
    assert (p << 4) & 0x8000 == 0 && (p << 5) & 0x8000 == 0 && (p << 6) & 0x8000 == 0 && (p << 7) & 0x8000 == 0;
  }

  // The code's product is the polynomial product reduced modulo the FIPS 197 polynomial,
  // and nothing else is.
  lemma MulIsFipsProduct(a: bv8, b: bv8, r: bv8)
    ensures Remainder(PolyMul(a as bv16, b, 8), r) <==> r == Mul(a, b)
  {
    hide Remainder, PolyMul, MulBits;
    ByteIsItsRemainder(a);
    ByteHasRoom(a);
    RemainderOfProduct(a as bv16, a, b, 8);
    if Remainder(PolyMul(a as bv16, b, 8), r) {
      RemainderUnique(PolyMul(a as bv16, b, 8), r, Mul(a, b));
    }
  }
}
