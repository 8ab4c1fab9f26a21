// Polynomials over GF(2^8): Horner evaluation, division by a linear factor, uniqueness and
// existence of the interpolating polynomial, and Lagrange interpolation at zero.
module Polynomials {
  import opened Common
  import opened GF256

  // The value at x of the polynomial with coefficients c, lowest degree first.
  function Eval(c: seq<bv8>, x: bv8): bv8 {
    if c == [] then 0 else Add(Mul(Eval(c[1..], x), x), c[0])
  }

  // Every point of xs is mapped to the corresponding value of ys.
  predicate Through(c: seq<bv8>, xs: seq<bv8>, ys: seq<bv8>)
    requires |xs| == |ys|
  {
    forall i :: 0 <= i < |xs| ==> Eval(c, xs[i]) == ys[i]
  }

  // ---------- Division by x - r ----------

  // The coefficients of y + (x - r) q(x)
  function TimesLinear(q: seq<bv8>, r: bv8, y: bv8): (c: seq<bv8>)
    ensures |c| == |q| + 1
  {
    if q == [] then [y] else [Add(y, Mul(r, q[0]))] + TimesLinear(q[1..], r, q[0])
  }

  lemma {:induction false} EvalTimesLinear(q: seq<bv8>, r: bv8, y: bv8, x: bv8)
    ensures Eval(TimesLinear(q, r, y), x) == Add(y, Mul(Add(x, r), Eval(q, x)))
  {
    hide Add, Mul;
    MulZeroOne(x);
    MulZeroOne(Add(x, r));
    if q == [] {
      assert Eval([y], x) == Add(Mul(0, x), y);
      AddLaws(0, y, 0);
    } else {
      var q0, e := q[0], Eval(q[1..], x);
      EvalTimesLinear(q[1..], r, q0, x);
      assert TimesLinear(q, r, y)[1..] == TimesLinear(q[1..], r, q0);
      LinearStep(x, r, y, q0, e);
    }
  }

  // (q0 + (x + r) e) x + (y + r q0) = y + (x + r) (e x + q0)
  lemma LinearStep(x: bv8, r: bv8, y: bv8, q0: bv8, e: bv8)
    ensures Add(Mul(Add(q0, Mul(Add(x, r), e)), x), Add(y, Mul(r, q0)))
         == Add(y, Mul(Add(x, r), Add(Mul(e, x), q0)))
  {
    hide Add, Mul;
    var s := Add(x, r);
    MulAdd(x, q0, Mul(s, e));
    MulAssoc(s, e, x);
    MulAdd(s, Mul(e, x), q0);
    MulAdd(q0, x, r);
    MulComm(q0, x);
    var t, u, v := Mul(s, Mul(e, x)), Mul(x, q0), Mul(r, q0);
    assert Mul(s, q0) == Add(u, v);
    Interchange(u, t, y, v);
    AddLaws(u, y, Add(t, v));
    AddLaws(y, u, Add(t, v));
    AddLaws(u, t, v);
    AddLaws(t, u, v);
  }

  // The quotient of c by x - r
  function Quotient(c: seq<bv8>, r: bv8): (q: seq<bv8>)
    requires c != []
    ensures |q| == |c| - 1
  {
    if |c| == 1 then [] else [Eval(c[1..], r)] + Quotient(c[1..], r)
  }

  lemma {:induction false} DivideLinear(c: seq<bv8>, r: bv8)
    requires c != []
    ensures c == TimesLinear(Quotient(c, r), r, Eval(c, r))
    decreases |c|
  {
    hide Add, Mul;
    if |c| == 1 {
      assert c[1..] == [];
      MulZeroOne(r);
      AddZero(c[0]);
    } else {
      var y, q := Eval(c[1..], r), Quotient(c[1..], r);
      DivideLinear(c[1..], r);
      assert Quotient(c, r)[1..] == q;
      LowestCoefficient(c[0], y, r);
      hide Eval, Quotient;
      assert TimesLinear(Quotient(c, r), r, Eval(c, r)) == [c[0]] + TimesLinear(q, r, y);
    }
  }

  lemma LowestCoefficient(c0: bv8, y: bv8, r: bv8)
    ensures Add(Add(Mul(y, r), c0), Mul(r, y)) == c0
  {
    hide Add, Mul;
    MulComm(y, r);
    AddLaws(Mul(y, r), c0, 0);
    AddLaws(c0, Mul(y, r), 0);
  }

  // ---------- A polynomial with k coefficients is fixed by k points ----------

  lemma {:induction false} InterpolantUnique(c: seq<bv8>, d: seq<bv8>, xs: seq<bv8>)
    requires |c| == |d| <= |xs| && NoDuplicates(xs)
    requires forall i :: 0 <= i < |xs| ==> Eval(c, xs[i]) == Eval(d, xs[i])
    ensures c == d
    decreases |c|
  {
    hide Add, Mul;
    if c != [] {
      var r := xs[0];
      var p, q, y := Quotient(c, r), Quotient(d, r), Eval(c, r);
      DivideLinear(c, r);
      DivideLinear(d, r);
      forall i | 0 <= i < |xs| - 1
        ensures Eval(p, xs[1..][i]) == Eval(q, xs[1..][i])
      {
        var x := xs[i + 1];
        assert Eval(c, x) == Eval(d, x);
        EvalTimesLinear(p, r, y, x);
        EvalTimesLinear(q, r, y, x);
        CancelLinear(x, r, y, Eval(p, x), Eval(q, x));
      }
      InterpolantUnique(p, q, xs[1..]);
    }
  }

  lemma CancelLinear(x: bv8, r: bv8, y: bv8, e: bv8, f: bv8)
    requires x != r
    requires Add(y, Mul(Add(x, r), e)) == Add(y, Mul(Add(x, r), f))
    ensures e == f
  {
    hide Add, Mul;
    var s := Add(x, r);
    AddLaws(x, r, 0);
    Interchange(y, Mul(s, e), y, Mul(s, f));
    AddLaws(y, 0, 0);
    AddLaws(Add(y, Mul(s, e)), 0, 0);
    AddLaws(Add(Mul(s, e), Mul(s, f)), 0, 0);
    MulAdd(s, e, f);
    NoZeroDivisors(s, Add(e, f));
    AddLaws(e, f, 0);
  }

  function Slopes(xs: seq<bv8>, ys: seq<bv8>): (s: seq<bv8>)
    requires |xs| == |ys| > 0
    ensures |s| == |xs| - 1
  {
    seq(|xs| - 1, i requires 0 <= i < |xs| - 1 => Mul(Add(ys[i + 1], ys[0]), Inv(Add(xs[i + 1], xs[0]))))
  }

  function Interpolant(xs: seq<bv8>, ys: seq<bv8>): (c: seq<bv8>)
    requires |xs| == |ys|
    ensures |c| == |xs|
    decreases |xs|
  {
    if xs == [] then [] else TimesLinear(Interpolant(xs[1..], Slopes(xs, ys)), xs[0], ys[0])
  }

  lemma {:induction false} InterpolantExists(xs: seq<bv8>, ys: seq<bv8>)
    requires |xs| == |ys| && NoDuplicates(xs)
    ensures Through(Interpolant(xs, ys), xs, ys)
    decreases |xs|
  {
    hide Add, Mul, Inv;
    if xs != [] {
      var r, y, s := xs[0], ys[0], Slopes(xs, ys);
      var q := Interpolant(xs[1..], s);
      InterpolantExists(xs[1..], s);
      forall i | 0 <= i < |xs|
        ensures Eval(Interpolant(xs, ys), xs[i]) == ys[i]
      {
        var x := xs[i];
        EvalTimesLinear(q, r, y, x);
        if i == 0 {
          AddLaws(r, y, 0);
          MulZeroOne(Eval(q, x));
          AddLaws(y, 0, 0);
        } else {
          assert Eval(q, xs[1..][i - 1]) == s[i - 1];
          SlopeTimesRun(x, r, ys[i], y);
        }
      }
    }
  }

  lemma SlopeTimesRun(x: bv8, r: bv8, v: bv8, y: bv8)
    requires x != r
    ensures Add(y, Mul(Add(x, r), Mul(Add(v, y), Inv(Add(x, r))))) == v
  {
    hide Add, Mul, Inv;
    var s := Add(x, r);
    AddLaws(x, r, 0);
    MulComm(Add(v, y), Inv(s));
    MulAssoc(s, Inv(s), Add(v, y));
    InvCorrect(s);
    MulZeroOne(Add(v, y));
    AddLaws(v, y, 0);
    AddLaws(y, Add(v, y), 0);
  }

  // ---------- Lagrange interpolation at zero ----------

  // The product of z - x over the points x of xs other than skip
  function SkipProduct(xs: seq<bv8>, skip: bv8, z: bv8): bv8 {
    if xs == [] then 1
    else
      var last := xs[|xs| - 1];
      var rest := SkipProduct(xs[..|xs| - 1], skip, z);
      if last == skip then rest else Mul(rest, Add(z, last))
  }

  function Weight(xs: seq<bv8>, x: bv8): bv8 {
    Mul(SkipProduct(xs, x, 0), Inv(SkipProduct(xs, x, x)))
  }

  // The sum over the first m points of value times weight
  function LagrangeSum(xs: seq<bv8>, ys: seq<bv8>, m: nat): bv8
    requires m <= |xs| == |ys|
  {
    if m == 0 then 0
    else Add(LagrangeSum(xs, ys, m - 1), Mul(ys[m - 1], Weight(xs, xs[m - 1])))
  }

  lemma {:induction false} SkipProductNonZero(xs: seq<bv8>, skip: bv8, z: bv8)
    requires forall i :: 0 <= i < |xs| && xs[i] != skip ==> xs[i] != z
    ensures SkipProduct(xs, skip, z) != 0
  {
    hide Add, Mul;
    if xs != [] {
      var init, last := xs[..|xs| - 1], xs[|xs| - 1];
      assert forall i :: 0 <= i < |init| ==> init[i] == xs[i];
      SkipProductNonZero(init, skip, z);
      AddLaws(z, last, 0);
      NoZeroDivisors(SkipProduct(init, skip, z), Add(z, last));
    }
  }

  // Altering a value alters the sum because no weight vanishes.
  lemma WeightNonZero(xs: seq<bv8>, x: bv8)
    requires 0 !in xs
    ensures Weight(xs, x) != 0
  {
    hide Add, Mul, Inv;
    SkipProductNonZero(xs, x, 0);
    SkipProductNonZero(xs, x, x);
    var n, d := SkipProduct(xs, x, 0), SkipProduct(xs, x, x);
    InvCorrect(d);
    NoZeroDivisors(d, Inv(d));
    NoZeroDivisors(n, Inv(d));
  }

  lemma InvOfProduct(a: bv8, b: bv8)
    requires a != 0 && b != 0
    ensures Inv(Mul(a, b)) == Mul(Inv(a), Inv(b))
  {
    hide Mul, Inv;
    var p, i, j := Mul(a, b), Mul(Inv(a), Inv(b)), Inv(Mul(a, b));
    NoZeroDivisors(a, b);
    InvCorrect(a);
    InvCorrect(b);
    InvCorrect(p);
    MulInterchange(a, b, Inv(a), Inv(b));
    MulZeroOne(1);
    MulAssoc(j, p, i);
    MulZeroOne(i);
    MulZeroOne(j);
  }

  // One more point r multiplies the weight of x by r / (x - r).
  lemma WeightStep(init: seq<bv8>, r: bv8, x: bv8)
    requires x != r && r !in init
    ensures Mul(Add(x, r), Weight(init + [r], x)) == Mul(r, Weight(init, x))
  {
    hide Add, Mul, Inv;
    var xs, e := init + [r], Add(x, r);
    assert xs[..|xs| - 1] == init;
    var n, d := SkipProduct(init, x, 0), SkipProduct(init, x, x);
    AddLaws(0, r, 0);
    AddLaws(r, 0, 0);
    AddLaws(x, r, 0);
    assert SkipProduct(xs, x, 0) == Mul(n, r) && SkipProduct(xs, x, x) == Mul(d, e);
    SkipProductNonZero(init, x, x);
    InvOfProduct(d, e);
    var i, j := Inv(d), Inv(e);
    MulInterchange(n, r, i, j);
    MulComm(Mul(n, i), Mul(r, j));
    MulAssoc(e, Mul(r, j), Mul(n, i));
    MulComm(r, j);
    MulAssoc(e, j, r);
    InvCorrect(e);
    MulZeroOne(r);
  }

  // If each value is y + (x - r) z for the last point r, the sum over the other points splits.
  lemma {:induction false} SumSplits(init: seq<bv8>, r: bv8, ys: seq<bv8>, y: bv8, zs: seq<bv8>, ones: seq<bv8>, m: nat)
    requires r !in init && m <= |init| == |zs| && |ys| == |ones| == |init| + 1
    requires forall i :: 0 <= i < |init| ==> ys[i] == Add(y, Mul(Add(init[i], r), zs[i])) && ones[i] == 1
    ensures LagrangeSum(init + [r], ys, m)
         == Add(Mul(y, LagrangeSum(init + [r], ones, m)), Mul(r, LagrangeSum(init, zs, m)))
  {
    hide Add, Mul, Weight;
    MulZeroOne(y);
    MulZeroOne(r);
    if m == 0 {
      AddLaws(0, 0, 0);
    } else {
      SumSplits(init, r, ys, y, zs, ones, m - 1);
      var xs, x := init + [r], init[m - 1];
      assert xs[m - 1] == x;
      var w, v := Weight(xs, x), Weight(init, x);
      var s, t, z := LagrangeSum(xs, ones, m - 1), LagrangeSum(init, zs, m - 1), zs[m - 1];
      TermSplits(init, r, x, y, z);
      MulZeroOne(w);
      MulAdd(y, s, w);
      MulAdd(r, t, Mul(z, v));
      Interchange(Mul(y, s), Mul(r, t), Mul(y, w), Mul(r, Mul(z, v)));
    }
  }

  lemma TermSplits(init: seq<bv8>, r: bv8, x: bv8, y: bv8, z: bv8)
    requires x != r && r !in init
    ensures Mul(Add(y, Mul(Add(x, r), z)), Weight(init + [r], x))
         == Add(Mul(y, Weight(init + [r], x)), Mul(r, Mul(z, Weight(init, x))))
  {
    hide Add, Mul, Weight;
    var e, w, v := Add(x, r), Weight(init + [r], x), Weight(init, x);
    MulAdd(w, y, Mul(e, z));
    MulComm(e, z);
    MulAssoc(z, e, w);
    WeightStep(init, r, x);
    MulAssoc(z, r, v);
    MulComm(z, r);
    MulAssoc(r, z, v);
  }

  // The product of x - p over the points p of xs, as coefficients
  function VanishingPoly(xs: seq<bv8>): (c: seq<bv8>)
    ensures |c| == |xs| + 1
  {
    if xs == [] then [1] else TimesLinear(VanishingPoly(xs[..|xs| - 1]), xs[|xs| - 1], 0)
  }

  lemma {:induction false} VanishingPolyValue(xs: seq<bv8>, skip: bv8, z: bv8)
    requires skip !in xs
    ensures Eval(VanishingPoly(xs), z) == SkipProduct(xs, skip, z)
    ensures z in xs ==> SkipProduct(xs, skip, z) == 0
  {
    hide Add, Mul;
    if xs == [] {
      MulZeroOne(z);
      AddZero(1);
      assert [1 as bv8][1..] == [];
      assert Eval([1], z) == Add(Mul(0, z), 1);
    } else {
      var init, last := xs[..|xs| - 1], xs[|xs| - 1];
      assert xs == init + [last] && last != skip;
      VanishingPolyValue(init, skip, z);
      EvalTimesLinear(VanishingPoly(init), last, 0, z);
      var p := SkipProduct(init, skip, z);
      AddLaws(0, Mul(Add(z, last), p), 0);
      AddLaws(Mul(Add(z, last), p), 0, 0);
      MulComm(Add(z, last), p);
      AddLaws(z, last, 0);
      NoZeroDivisors(p, Add(z, last));
    }
  }

  lemma {:induction false} SumOfZeros(xs: seq<bv8>, ys: seq<bv8>, m: nat)
    requires m <= |xs| == |ys|
    requires forall i :: 0 <= i < m ==> ys[i] == 0
    ensures LagrangeSum(xs, ys, m) == 0
  {
    hide Add, Mul, Weight;
    if m > 0 {
      SumOfZeros(xs, ys, m - 1);
      MulZeroOne(Weight(xs, xs[m - 1]));
      AddLaws(0, 0, 0);
    }
  }

  function Values(c: seq<bv8>, xs: seq<bv8>): (ys: seq<bv8>)
    ensures |ys| == |xs|
  {
    seq(|xs|, i requires 0 <= i < |xs| => Eval(c, xs[i]))
  }

  function Ones(n: nat): (s: seq<bv8>)
    ensures |s| == n
  {
    seq(n, i => 1)
  }

  // The sum for c over init + [r], split at the point r
  lemma SumAtLastPoint(xs: seq<bv8>, init: seq<bv8>, r: bv8, c: seq<bv8>)
    requires xs == init + [r] && NoDuplicates(xs) && |c| == |xs|
    requires LagrangeSum(init, Values(Quotient(c, r), init), |init|) == Eval(Quotient(c, r), 0)
    ensures LagrangeSum(xs, Values(c, xs), |xs|)
         == Add(Mul(Eval(c, r), LagrangeSum(xs, Ones(|xs|), |xs|)), Mul(r, Eval(Quotient(c, r), 0)))
  {
    hide Add, Mul, Weight, Eval, Quotient, Values, NoDuplicates;
    var q, y, m := Quotient(c, r), Eval(c, r), |init|;
    var ys, zs, ones := Values(c, xs), Values(q, init), Ones(|xs|);
    LastIsNew(init, r);
    ValuesOfProduct(init, r, c);
    SumSplits(init, r, ys, y, zs, ones, m);
    var w, s, t := Weight(xs, r), LagrangeSum(xs, ones, m), Mul(r, Eval(q, 0));
    MulZeroOne(w);
    MulAdd(y, s, w);
    Rotate(Mul(y, s), t, Mul(y, w));
  }

  lemma ValuesOfProduct(init: seq<bv8>, r: bv8, c: seq<bv8>)
    requires c != []
    ensures var ys, zs := Values(c, init + [r]), Values(Quotient(c, r), init);
            && (forall i :: 0 <= i < |init| ==> ys[i] == Add(Eval(c, r), Mul(Add(init[i], r), zs[i])))
            && ys[|init|] == Eval(c, r)
  {
    hide Add, Mul, Eval, Quotient, TimesLinear;
    DivideLinear(c, r);
    forall i | 0 <= i < |init|
      ensures Values(c, init + [r])[i]
           == Add(Eval(c, r), Mul(Add(init[i], r), Values(Quotient(c, r), init)[i]))
    {
      EvalTimesLinear(Quotient(c, r), r, Eval(c, r), init[i]);
    }
  }

  lemma LastIsNew(init: seq<bv8>, r: bv8)
    requires NoDuplicates(init + [r])
    ensures r !in init && NoDuplicates(init)
  {
    var xs := init + [r];
    assert forall i :: 0 <= i < |init| ==> xs[i] == init[i];
    assert xs[|init|] == r;
  }

  lemma Rotate(a: bv8, b: bv8, c: bv8)
    ensures Add(Add(a, b), c) == Add(Add(a, c), b)
  {
    hide Add;
    AddLaws(a, b, c);
    AddLaws(b, c, 0);
    AddLaws(a, c, b);
  }

  lemma ValueAtZero(c: seq<bv8>, r: bv8)
    requires c != []
    ensures Eval(c, 0) == Add(Eval(c, r), Mul(r, Eval(Quotient(c, r), 0)))
    ensures Eval(c, 0) == c[0]
  {
    hide Add, Mul;
    DivideLinear(c, r);
    EvalTimesLinear(Quotient(c, r), r, Eval(c, r), 0);
    AddLaws(0, r, 0);
    AddLaws(r, 0, 0);
    MulZeroOne(Eval(c[1..], 0));
    AddLaws(c[0], 0, 0);
  }

  // One more point keeps the sum of the weights at one.
  lemma WeightsWithOneMore(xs: seq<bv8>, init: seq<bv8>, r: bv8)
    requires xs == init + [r] && NoDuplicates(xs)
    requires LagrangeSum(init, Values(Quotient(VanishingPoly(init), r), init), |init|)
          == Eval(Quotient(VanishingPoly(init), r), 0)
    ensures LagrangeSum(xs, Ones(|xs|), |xs|) == 1
  {
    hide Add, Mul, Inv, Eval, Quotient, LagrangeSum, Values, Ones, SkipProduct, VanishingPoly;
    var f := VanishingPoly(init);
    LastIsNew(init, r);
    SumAtLastPoint(xs, init, r, f);
    ValueAtZero(f, r);
    SumOfVanishing(xs, init, r);
    VanishingPolyValue(init, r, r);
    SkipProductNonZero(init, r, r);
    SolveForSum(Eval(f, 0), Eval(f, r), LagrangeSum(xs, Ones(|xs|), |xs|), Mul(r, Eval(Quotient(f, r), 0)));
  }

  // Only the last point contributes to the sum for the polynomial that vanishes at the others.
  lemma SumOfVanishing(xs: seq<bv8>, init: seq<bv8>, r: bv8)
    requires xs == init + [r] && r !in init
    ensures var f := VanishingPoly(init);
            LagrangeSum(xs, Values(f, xs), |xs|) == Add(0, Mul(Eval(f, r), Mul(Eval(f, 0), Inv(Eval(f, r)))))
  {
    hide Add, Mul, Inv;
    var f, m := VanishingPoly(init), |init|;
    forall i | 0 <= i < m
      ensures Values(f, xs)[i] == 0
    {
      VanishingPolyValue(init, r, init[i]);
    }
    SumOfZeros(xs, Values(f, xs), m);
    VanishingPolyValue(init, r, 0);
    VanishingPolyValue(init, r, r);
    assert xs[..m] == init;
    assert Weight(xs, r) == Mul(Eval(f, 0), Inv(Eval(f, r)));
  }

  lemma SolveForSum(n: bv8, d: bv8, s: bv8, t: bv8)
    requires d != 0
    requires Add(0, Mul(d, Mul(n, Inv(d)))) == Add(Mul(d, s), t)
    requires n == Add(d, t)
    ensures s == 1
  {
    hide Add, Mul, Inv;
    MulComm(n, Inv(d));
    MulAssoc(d, Inv(d), n);
    InvCorrect(d);
    MulZeroOne(n);
    AddZero(n);
    AddLaws(Mul(d, s), t, 0);
    AddLaws(d, t, 0);
    MulAssoc(Inv(d), d, s);
    MulZeroOne(s);
  }

  // Lagrange interpolation at zero recovers the constant term.
  lemma {:induction false} LagrangeAtZero(xs: seq<bv8>, c: seq<bv8>)
    requires NoDuplicates(xs) && |c| == |xs|
    ensures LagrangeSum(xs, Values(c, xs), |xs|) == Eval(c, 0)
    decreases |xs|
  {
    hide Add, Mul, Weight;
    if xs != [] {
      var init, r := xs[..|xs| - 1], xs[|xs| - 1];
      assert xs == init + [r];
      LastIsNew(init, r);
      LagrangeAtZero(init, Quotient(c, r));
      LagrangeAtZero(init, Quotient(VanishingPoly(init), r));
      SumAtLastPoint(xs, init, r, c);
      WeightsWithOneMore(xs, init, r);
      MulZeroOne(Eval(c, r));
      ValueAtZero(c, r);
    }
  }

  // The weights at zero of distinct points sum to one.
  lemma WeightsSumToOne(xs: seq<bv8>)
    requires NoDuplicates(xs) && xs != []
    ensures LagrangeSum(xs, Ones(|xs|), |xs|) == 1
  {
    hide Add, Mul, Inv, Eval, Quotient, LagrangeSum, Values, Ones, SkipProduct, VanishingPoly;
    var init, r := xs[..|xs| - 1], xs[|xs| - 1];
    assert xs == init + [r];
    LastIsNew(init, r);
    LagrangeAtZero(init, Quotient(VanishingPoly(init), r));
    WeightsWithOneMore(xs, init, r);
  }
}
