/**
 When xcalc's grouped value is the conventional value: exactly for the shapes of expressions in which no minus
 stands before a product of several factors that is followed by a further sign.
 */
module InfixValue {
  import opened InfixCalc

  function Total(vals: seq<real>): real {
    if vals == [] then 0.0 else Total(vals[..|vals| - 1]) + vals[|vals| - 1]
  }

  /** All operators but the last add. */
  ghost predicate AddsButLast(ops: seq<Op>) {
    forall i :: 0 <= i < |ops| - 1 ==> ops[i] == Add
  }

  predicate Hazard(s: Sum) {
    s.Plus? && s.minus && s.p.Times?
  }

  function Signed(m: bool, x: real): real {
    if m then -x else x
  }

  lemma {:induction false} FoldAdds(ops: seq<Op>, vals: seq<real>, x: real)
    requires |ops| == |vals| && forall i :: 0 <= i < |ops| ==> ops[i] == Add
    ensures Fold(ops, vals, x) == Total(vals) + x
    decreases |ops|
  {
    if ops != [] {
      var n := |ops| - 1;
      FoldAdds(ops[..n], vals[..n], Apply(ops[n], vals[n], x));
    }
  }

  lemma FoldLast(ops: seq<Op>, vals: seq<real>, m: bool, x: real)
    requires |ops| == |vals| >= 1 && AddsButLast(ops) && ops[|ops| - 1] == LowOp(m)
    ensures Fold(ops, vals, x) == Total(vals) + Signed(m, x)
  {
    var n := |ops| - 1;
    FoldAdds(ops[..n], vals[..n], Apply(ops[n], vals[n], x));
  }

  lemma FoldSnoc(ops: seq<Op>, vals: seq<real>, op: Op, v: real, x: real)
    requires |ops| == |vals|
    ensures Fold(ops + [op], vals + [v], x) == Fold(ops, vals, Apply(op, v, x))
  {
    assert (ops + [op])[..|ops|] == ops && (vals + [v])[..|vals|] == vals;
  }

  lemma TotalSnoc(vals: seq<real>, v: real)
    ensures Total(vals + [v]) == Total(vals) + v
  {
    assert (vals + [v])[..|vals|] == vals;
  }

  // ---------------------------------------------------------------------------------------
  // Safe expressions come out right
  // ---------------------------------------------------------------------------------------

  lemma {:induction false} SafeFactor(f: Factor)
    requires FactorSafe(f)
    ensures GroupedFactor(f) == FactorValue(f)
    decreases f, 0
  {
    if f.Paren? {
      SafeSum(f.s);
    }
  }

  lemma {:induction false} SafeProduct(p: Product)
    requires ProductSafe(p)
    ensures GroupedProduct(p) == ProductValue(p)
    decreases p, 1
  {
    SafeFactor(p.f);
    if p.Times? {
      SafeProduct(p.p);
    }
  }

  /** What a further summand adds to the pending operands. */
  lemma PendingTotal(s: Sum)
    requires s.Plus? && !Hazard(s)
    ensures Total(PendingVals(s)) == Total(PendingVals(s.s)) + Signed(s.minus, GroupedProduct(s.p))
  {
    var vals, x := PendingVals(s.s), GroupedProduct(s.p);
    var n := |vals| - 1;
    if s.p.Times? {
      TotalSnoc(vals, x);
    } else {
      TotalSnoc(vals[..n], Apply(LowOp(s.minus), vals[n], x));
    }
  }

  lemma PendingAdds(s: Sum, k: Op)
    requires s.Plus? && !Hazard(s) && AddsButLast(PendingOps(s.s, LowOp(s.minus)))
    ensures AddsButLast(PendingOps(s, k))
  {
  }

  /** Behind a safe sum and a further sign, the pending operands add up to the sum. */
  lemma {:induction false} PendingSums(s: Sum, k: Op)
    requires SumSafe(s) && !Hazard(s)
    ensures AddsButLast(PendingOps(s, k)) && Total(PendingVals(s)) == SumValue(s)
    decreases s, 2
  {
    SafeProduct(s.p);
    if s.Plus? {
      PendingSums(s.s, LowOp(s.minus));
      PendingTotal(s);
      PendingAdds(s, k);
    } else {
      TotalSnoc([], GroupedProduct(s.p));
      assert [] + [GroupedProduct(s.p)] == [GroupedProduct(s.p)];
    }
  }

  lemma {:induction false} SafeSum(s: Sum)
    requires SumSafe(s)
    ensures GroupedSum(s) == SumValue(s)
    decreases s, 3
  {
    SafeProduct(s.p);
    if s.Plus? {
      PendingSums(s.s, LowOp(s.minus));
      FoldLast(PendingOps(s.s, LowOp(s.minus)), PendingVals(s.s), s.minus, GroupedProduct(s.p));
    }
  }

  /** Typed into the calculator and followed by '=', a safe expression without a division by zero that fits the stacks
      leaves no error, nothing pending, and exactly one more number: its conventional value. */
  lemma EvaluatesSafe(c: Calc, s: Sum)
    requires SumSafe(s) && SumDefined(s)
    requires c.entered != 3 && c.paren >= 0 && c.ops == [] && Room([], c.nums, SumDepth(s))
    ensures var r := PressAll(c, SumKeys(s) + [EquKey]);
      && r.entered == 2 && r.ops == [] && r.paren == c.paren
      && r.nums == c.nums + [SumValue(s)] && r.dnum == SumValue(s)
  {
    EvaluatesGrouped(c, s);
    SafeSum(s);
  }

  // ---------------------------------------------------------------------------------------
  // Every other shape goes wrong for some numbers
  // ---------------------------------------------------------------------------------------

  /** Equal up to the numbers. */
  predicate SameFactor(f: Factor, g: Factor) {
    (f.Lit? && g.Lit?) || (f.Paren? && g.Paren? && SameSum(f.s, g.s))
  }

  predicate SameProduct(p: Product, q: Product) {
    || (p.One? && q.One? && SameFactor(p.f, q.f))
    || (p.Times? && q.Times? && p.divide == q.divide && SameProduct(p.p, q.p) && SameFactor(p.f, q.f))
  }

  predicate SameSum(s: Sum, t: Sum) {
    || (s.Only? && t.Only? && SameProduct(s.p, t.p))
    || (s.Plus? && t.Plus? && s.minus == t.minus && SameSum(s.s, t.s) && SameProduct(s.p, t.p))
  }

  lemma {:induction false} SameSafeFactor(f: Factor, g: Factor)
    requires SameFactor(f, g)
    ensures FactorSafe(f) <==> FactorSafe(g)
    decreases f, 0
  {
    if f.Paren? {
      SameSafeSum(f.s, g.s);
    }
  }

  lemma {:induction false} SameSafeProduct(p: Product, q: Product)
    requires SameProduct(p, q)
    ensures ProductSafe(p) <==> ProductSafe(q)
    decreases p, 1
  {
    SameSafeFactor(p.f, q.f);
    if p.Times? {
      SameSafeProduct(p.p, q.p);
    }
  }

  lemma {:induction false} SameSafeSum(s: Sum, t: Sum)
    requires SameSum(s, t)
    ensures (SumSafe(s) <==> SumSafe(t)) && (Hazard(s) <==> Hazard(t))
    decreases s, 2
  {
    SameSafeProduct(s.p, t.p);
    if s.Plus? {
      SameSafeSum(s.s, t.s);
      assert SumSafe(s) <==> SumSafe(s.s) && ProductSafe(s.p) && !Hazard(s.s);
      assert SumSafe(t) <==> SumSafe(t.s) && ProductSafe(t.p) && !Hazard(t.s);
    }
  }

  /** The same shape with numbers that make it v under both readings. */
  function FillFactor(f: Factor, v: real): Factor
    decreases f, 0
  {
    if f.Lit? then Lit(v) else Paren(FillSum(f.s, v))
  }

  function FillProduct(p: Product, v: real): Product
    decreases p, 1
  {
    if p.One? then One(FillFactor(p.f, v)) else Times(FillProduct(p.p, v), p.divide, FillFactor(p.f, 1.0))
  }

  function FillSum(s: Sum, v: real): Sum
    decreases s, 2
  {
    if s.Only? then Only(FillProduct(s.p, v)) else Plus(FillSum(s.s, v), s.minus, FillProduct(s.p, 0.0))
  }

  /** A further term of value zero changes nothing. */
  lemma ZeroTerm(s: Sum, m: bool)
    ensures Fold(PendingOps(s, LowOp(m)), PendingVals(s), 0.0) == GroupedSum(s)
  {
    var k, x := LowOp(m), GroupedProduct(s.p);
    if s.Plus? {
      var ops, vals := PendingOps(s.s, LowOp(s.minus)), PendingVals(s.s);
      var n := |vals| - 1;
      if s.p.Times? {
        FoldSnoc(ops, vals, k, x, 0.0);
      } else {
        FoldSnoc(ops[..n], vals[..n], k, Apply(LowOp(s.minus), vals[n], x), 0.0);
      }
    } else {
      FoldSnoc([], [], k, x, 0.0);
      assert [] + [k] == [k] && [] + [x] == [x];
    }
  }

  lemma {:induction false} FilledFactor(f: Factor, v: real)
    ensures var g := FillFactor(f, v);
      SameFactor(f, g) && FactorDefined(g) && FactorValue(g) == GroupedFactor(g) == v
    decreases f, 0
  {
    if f.Paren? {
      FilledSum(f.s, v);
    }
  }

  lemma {:induction false} FilledProduct(p: Product, v: real)
    ensures var q := FillProduct(p, v);
      SameProduct(p, q) && ProductDefined(q) && ProductValue(q) == GroupedProduct(q) == v
    decreases p, 1
  {
    if p.One? {
      FilledFactor(p.f, v);
    } else {
      FilledProduct(p.p, v);
      FilledFactor(p.f, 1.0);
    }
  }

  lemma {:induction false} FilledSum(s: Sum, v: real)
    ensures var t := FillSum(s, v);
      SameSum(s, t) && SumDefined(t) && SumValue(t) == GroupedSum(t) == v
    decreases s, 2
  {
    if s.Only? {
      FilledProduct(s.p, v);
    } else {
      FilledSum(s.s, v);
      FilledProduct(s.p, 0.0);
      ZeroTerm(FillSum(s.s, v), s.minus);
    }
  }

  /** The same shape with numbers for which the two readings are 1 and -1. */
  function BadFactor(f: Factor): Factor
    requires !FactorSafe(f)
    decreases f, 0
  {
    Paren(BadSum(f.s))
  }

  function BadProduct(p: Product): Product
    requires !ProductSafe(p)
    decreases p, 1
  {
    if p.One? then One(BadFactor(p.f))
    else if !ProductSafe(p.p) then Times(BadProduct(p.p), p.divide, FillFactor(p.f, 1.0))
    else Times(FillProduct(p.p, 1.0), p.divide, BadFactor(p.f))
  }

  function BadSum(s: Sum): Sum
    requires !SumSafe(s)
    decreases s, 2
  {
    if s.Only? then Only(BadProduct(s.p))
    else if !SumSafe(s.s) then Plus(BadSum(s.s), s.minus, FillProduct(s.p, 0.0))
    else if Hazard(s.s) then Plus(FillSum(s.s, 0.0), s.minus, FillProduct(s.p, 1.0))
    else Plus(FillSum(s.s, 0.0), s.minus, BadProduct(s.p))
  }

  ghost predicate Opposite(value: real, grouped: real) {
    (value == 1.0 && grouped == -1.0) || (value == -1.0 && grouped == 1.0)
  }

  lemma {:induction false} BadFactorGoesWrong(f: Factor)
    requires !FactorSafe(f)
    ensures var g := BadFactor(f);
      SameFactor(f, g) && FactorDefined(g) && Opposite(FactorValue(g), GroupedFactor(g))
    decreases f, 0
  {
    BadSumGoesWrong(f.s);
  }

  lemma {:induction false} BadProductGoesWrong(p: Product)
    requires !ProductSafe(p)
    ensures var q := BadProduct(p);
      SameProduct(p, q) && ProductDefined(q) && Opposite(ProductValue(q), GroupedProduct(q))
    decreases p, 1
  {
    if p.One? {
      BadFactorGoesWrong(p.f);
    } else if !ProductSafe(p.p) {
      BadProductGoesWrong(p.p);
      FilledFactor(p.f, 1.0);
    } else {
      FilledProduct(p.p, 1.0);
      BadFactorGoesWrong(p.f);
    }
  }

  /** A sum that is zero passes on a further term with its sign. */
  lemma AfterZero(s: Sum, m: bool, x: real)
    requires SumSafe(s) && !Hazard(s) && SumValue(s) == 0.0
    ensures Fold(PendingOps(s, LowOp(m)), PendingVals(s), x) == Signed(m, x)
  {
    PendingSums(s, LowOp(m));
    FoldLast(PendingOps(s, LowOp(m)), PendingVals(s), m, x);
  }

  /** Behind a hazard the further term gets the opposite sign. */
  lemma AfterHazard(s: Sum, m: bool, x: real)
    requires SumSafe(s) && Hazard(s) && SumValue(s.s) == 0.0 && GroupedProduct(s.p) == 0.0
    ensures Fold(PendingOps(s, LowOp(m)), PendingVals(s), x) == -Signed(m, x)
  {
    FoldSnoc(PendingOps(s.s, Sub), PendingVals(s.s), LowOp(m), 0.0, x);
    AfterZero(s.s, true, Signed(m, x));
  }

  lemma {:induction false} BadSumGoesWrong(s: Sum)
    requires !SumSafe(s)
    ensures var t := BadSum(s);
      SameSum(s, t) && SumDefined(t) && Opposite(SumValue(t), GroupedSum(t))
    decreases s, 2
  {
    if s.Only? {
      BadProductGoesWrong(s.p);
    } else if !SumSafe(s.s) {
      BadSumGoesWrong(s.s);
      FilledProduct(s.p, 0.0);
      ZeroTerm(BadSum(s.s), s.minus);
    } else {
      FilledSum(s.s, 0.0);
      var t := FillSum(s.s, 0.0);
      SameSafeSum(s.s, t);
      if Hazard(s.s) {
        FilledSum(s.s.s, 0.0);
        FilledProduct(s.s.p, 0.0);
        FilledProduct(s.p, 1.0);
        AfterHazard(t, s.minus, 1.0);
      } else {
        BadProductGoesWrong(s.p);
        AfterZero(t, s.minus, GroupedProduct(BadProduct(s.p)));
      }
    }
  }

  /** If t has the shape of s and divides by no zero, the evaluator gets it right. */
  predicate RightFor(s: Sum, t: Sum) {
    SameSum(s, t) && SumDefined(t) ==> GroupedSum(t) == SumValue(t)
  }

  /** The evaluator is right for all numbers in an expression exactly when the expression is safe. */
  lemma RightExactlyWhenSafe(s: Sum)
    ensures SumSafe(s) <==> forall t :: RightFor(s, t)
  {
    if SumSafe(s) {
      forall t ensures RightFor(s, t) {
        if SameSum(s, t) {
          SameSafeSum(s, t);
          SafeSum(t);
        }
      }
    } else {
      BadSumGoesWrong(s);
      assert !RightFor(s, BadSum(s));
    }
  }

  /** 1 - 2 * 3 + 4 comes out as -9. */
  lemma MinusBeforeProduct()
    ensures var s := Plus(Plus(Only(One(Lit(1.0))), true, Times(One(Lit(2.0)), false, Lit(3.0))), false, One(Lit(4.0)));
      SumValue(s) == -1.0 && GroupedSum(s) == -9.0
  {
    var s1 := Plus(Only(One(Lit(1.0))), true, Times(One(Lit(2.0)), false, Lit(3.0)));
    assert PendingOps(s1, Add) == [Sub, Add] && PendingVals(s1) == [1.0, 6.0];
    FoldSnoc([Sub], [1.0], Add, 6.0, 4.0);
    FoldSnoc([], [], Sub, 1.0, 10.0);
    assert [] + [Sub] == [Sub] && [] + [1.0] == [1.0] && [Sub] + [Add] == [Sub, Add] && [1.0] + [6.0] == [1.0, 6.0];
  }
}
