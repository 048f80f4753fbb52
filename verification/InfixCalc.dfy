/**
 xcalc's infix evaluator: two stacks, and keys that reduce at most one pending operator each, with numbers taken
 exactly.  An expression over +, -, *, / and parentheses comes out with its conventional value as long as no
 minus sign stands before a product that is followed by a further + or -.
 */
module InfixCalc {
  const STACKMAX := 32

  datatype Op = Add | Sub | Mul | Div | LPar | Nop

  function Priority(op: Op): int {
    if op.Mul? || op.Div? then 1 else 0
  }

  /** acc op dnum; dividing by zero, which the machine does not survive, is given some value. */
  function Apply(op: Op, acc: real, dnum: real): real {
    match op
    case Add => acc + dnum
    case Sub => acc - dnum
    case Mul => acc * dnum
    case Div => if dnum == 0.0 then 0.0 else acc / dnum
    case _ => acc
  }

  /** What the evaluator remembers.  `typed` is the number that the display string denotes. */
  datatype Calc = Calc(
    ops: seq<Op>,
    nums: seq<real>,
    dnum: real,
    typed: real,
    entered: int,
    paren: int)
  {
    function Current(): real {
      if entered == 1 then typed else dnum
    }

    function PushOp(op: Op): Calc {
      if |ops| == STACKMAX then this.(entered := 3) else this.(ops := ops + [op])
    }

    function PushNum(v: real): Calc {
      if |nums| == STACKMAX then this.(entered := 3) else this.(nums := nums + [v])
    }

    function PopOp(): (Calc, Op) {
      if ops == [] then (this.(entered := 3), Nop) else (this.(ops := ops[..|ops| - 1]), ops[|ops| - 1])
    }

    function PopNum(): (Calc, real) {
      if nums == [] then (this.(entered := 3), 0.0) else (this.(nums := nums[..|nums| - 1]), nums[|nums| - 1])
    }
  }

  datatype Key = Num(v: real) | Oper(op: Op) | LParKey | RParKey | EquKey

  /** twoop has popped the last operator: stack both, or apply it first. */
  function StackOrReduce(c: Calc, last: Op, k: Op): Calc {
    if last.LPar? then c.PushOp(LPar).PushOp(k).PushNum(c.dnum)
    else if Priority(k) > Priority(last) then c.PushNum(c.dnum).PushOp(last).PushOp(k)
    else
      var (c1, a) := c.PopNum();
      var v := Apply(last, a, c.dnum);
      c1.PushNum(v).PushOp(k).(dnum := v)
  }

  function TwoOp(c: Calc, k: Op): Calc {
    if c.entered == 0 then
      (if c.ops == [] then c else c.PopOp().0).PushOp(k)
    else
      var x := c.Current();
      var c1 := c.(dnum := x, entered := 0);
      if c1.ops == [] then c1.PushOp(k).PushNum(x)
      else
        var (c2, last) := c1.PopOp();
        StackOrReduce(c2, last, k)
  }

  /** One turn of the loops of equf and rparf: apply the popped operator to the two topmost numbers. */
  function Reduce(c: Calc, op: Op): Calc {
    var (c1, x) := c.PopNum();
    var (c2, a) := c1.PopNum();
    var v := Apply(op, a, x);
    c2.(dnum := v).PushNum(v)
  }

  /** equf meets an open parenthesis: the left number goes back, and once more as the result. */
  function ReduceParen(c: Calc): Calc {
    var (c1, x) := c.PopNum();
    var (c2, a) := c1.PopNum();
    c2.(paren := c2.paren - 1).PushNum(a).(dnum := a).PushNum(a)
  }

  function EquLoop(c: Calc): Calc
    decreases |c.ops|
  {
    if c.ops == [] then c
    else
      var (c1, op) := c.PopOp();
      EquLoop(if op.LPar? then ReduceParen(c1) else Reduce(c1, op))
  }

  function Equ(c: Calc): Calc {
    if c.entered == 0 then c
    else EquLoop(c.(dnum := c.Current(), entered := 2).PushNum(c.Current()))
  }

  function RParLoop(c: Calc): Calc
    decreases |c.ops|
  {
    if c.ops == [] then c
    else
      var (c1, op) := c.PopOp();
      if op.LPar? then c1 else RParLoop(Reduce(c1, op))
  }

  function RPar(c: Calc): Calc {
    if c.entered == 0 || c.paren == 0 then c
    else
      var c1 := RParLoop(c.(dnum := c.Current(), entered := 2).PushNum(c.Current()));
      c1.PopNum().0.(paren := c1.paren - 1, entered := 2)
  }

  /** One key.  After an error only the clearing keys, which are not among these, are listened to. */
  function Press(c: Calc, k: Key): Calc {
    if c.entered == 3 then c
    else
      match k
      case Num(v) => c.(typed := v, entered := 1)
      case Oper(op) => TwoOp(c, op)
      case LParKey => c.PushOp(LPar).(paren := c.paren + 1)
      case RParKey => RPar(c)
      case EquKey => Equ(c)
  }

  function PressAll(c: Calc, keys: seq<Key>): Calc
    decreases |keys|
  {
    if keys == [] then c else PressAll(Press(c, keys[0]), keys[1..])
  }

  lemma {:induction false} PressConcat(c: Calc, a: seq<Key>, b: seq<Key>)
    ensures PressAll(c, a + b) == PressAll(PressAll(c, a), b)
    decreases |a|
  {
    if a == [] {
      assert a + b == b;
    } else {
      assert (a + b)[1..] == a[1..] + b;
      PressConcat(Press(c, a[0]), a[1..], b);
    }
  }

  // ---------------------------------------------------------------------------------------
  // Expressions, their keys and their conventional value
  // ---------------------------------------------------------------------------------------

  datatype Factor = Lit(v: real) | Paren(s: Sum)
  /** Products associate to the left. */
  datatype Product = One(f: Factor) | Times(p: Product, divide: bool, f: Factor)
  /** So do sums. */
  datatype Sum = Only(p: Product) | Plus(s: Sum, minus: bool, p: Product)

  function HighOp(divide: bool): Op { if divide then Div else Mul }

  function LowOp(minus: bool): Op { if minus then Sub else Add }

  function FactorKeys(f: Factor): seq<Key> {
    match f
    case Lit(v) => [Num(v)]
    case Paren(s) => [LParKey] + SumKeys(s) + [RParKey]
  }

  function ProductKeys(p: Product): seq<Key> {
    match p
    case One(f) => FactorKeys(f)
    case Times(p, d, f) => ProductKeys(p) + [Oper(HighOp(d))] + FactorKeys(f)
  }

  function SumKeys(s: Sum): seq<Key> {
    match s
    case Only(p) => ProductKeys(p)
    case Plus(s, m, p) => SumKeys(s) + [Oper(LowOp(m))] + ProductKeys(p)
  }

  function FactorValue(f: Factor): real {
    match f
    case Lit(v) => v
    case Paren(s) => SumValue(s)
  }

  function ProductValue(p: Product): real {
    match p
    case One(f) => FactorValue(f)
    case Times(p, d, f) =>
      if d then (if FactorValue(f) == 0.0 then 0.0 else ProductValue(p) / FactorValue(f))
      else ProductValue(p) * FactorValue(f)
  }

  function SumValue(s: Sum): real {
    match s
    case Only(p) => ProductValue(p)
    case Plus(s, m, p) => if m then SumValue(s) - ProductValue(p) else SumValue(s) + ProductValue(p)
  }

  /** No division by zero anywhere. */
  predicate FactorDefined(f: Factor) {
    f.Paren? ==> SumDefined(f.s)
  }

  predicate ProductDefined(p: Product) {
    match p
    case One(f) => FactorDefined(f)
    case Times(p, d, f) => ProductDefined(p) && FactorDefined(f) && (d ==> FactorValue(f) != 0.0)
  }

  predicate SumDefined(s: Sum) {
    match s
    case Only(p) => ProductDefined(p)
    case Plus(s, _, p) => SumDefined(s) && ProductDefined(p)
  }

  /** A minus whose right operand is a product of several factors must be the last sign of its sum. */
  predicate FactorSafe(f: Factor) {
    f.Paren? ==> SumSafe(f.s)
  }

  predicate ProductSafe(p: Product) {
    match p
    case One(f) => FactorSafe(f)
    case Times(p, _, f) => ProductSafe(p) && FactorSafe(f)
  }

  predicate SumSafe(s: Sum) {
    match s
    case Only(p) => ProductSafe(p)
    case Plus(s, _, p) => SumSafe(s) && ProductSafe(p) && !(s.Plus? && s.minus && s.p.Times?)
  }

  /** The signs that are pending once a further sign has been pressed behind s. */
  function Pending(s: Sum): (n: nat)
    ensures n >= 1
  {
    match s
    case Only(_) => 1
    case Plus(s, _, p) => Pending(s) + (if p.Times? then 1 else 0)
  }

  function Max(a: nat, b: nat): nat { if a < b then b else a }

  /** How much higher the operator stack grows while the keys are pressed. */
  function FactorDepth(f: Factor): nat {
    match f
    case Lit(_) => 0
    case Paren(s) => 1 + SumDepth(s)
  }

  function ProductDepth(p: Product): nat {
    match p
    case One(f) => FactorDepth(f)
    case Times(p, _, f) => Max(ProductDepth(p), 1 + FactorDepth(f))
  }

  function SumDepth(s: Sum): nat {
    match s
    case Only(p) => ProductDepth(p)
    case Plus(s, _, p) => Max(SumDepth(s), Pending(s) + Max(1, ProductDepth(p)))
  }

  // ---------------------------------------------------------------------------------------
  // The value the evaluator computes: a sign that is still pending when a product behind it is complete takes
  // everything that follows in its parenthesis as its right operand.
  // ---------------------------------------------------------------------------------------

  /** Pending operators and their left operands, applied from the last to the first. */
  function Fold(ops: seq<Op>, vals: seq<real>, x: real): real
    requires |ops| == |vals|
  {
    if ops == [] then x
    else
      var n := |ops| - 1;
      Fold(ops[..n], vals[..n], Apply(ops[n], vals[n], x))
  }

  function PendingOps(s: Sum, k: Op): (ops: seq<Op>)
    ensures |ops| == Pending(s) && ops[|ops| - 1] == k
  {
    match s
    case Only(_) => [k]
    case Plus(s, m, p) =>
      var ops := PendingOps(s, LowOp(m));
      if p.Times? then ops + [k] else ops[..|ops| - 1] + [k]
  }

  function PendingVals(s: Sum): (vals: seq<real>)
    ensures |vals| == Pending(s)
    decreases s, 0
  {
    match s
    case Only(p) => [GroupedProduct(p)]
    case Plus(s, m, p) =>
      var vals := PendingVals(s);
      var n := |vals| - 1;
      if p.Times? then vals + [GroupedProduct(p)]
      else vals[..n] + [Apply(LowOp(m), vals[n], GroupedProduct(p))]
  }

  function GroupedFactor(f: Factor): real
    decreases f, 0
  {
    match f
    case Lit(v) => v
    case Paren(s) => GroupedSum(s)
  }

  function GroupedProduct(p: Product): real
    decreases p, 0
  {
    match p
    case One(f) => GroupedFactor(f)
    case Times(p, d, f) => Apply(HighOp(d), GroupedProduct(p), GroupedFactor(f))
  }

  function GroupedSum(s: Sum): real
    decreases s, 1
  {
    match s
    case Only(p) => GroupedProduct(p)
    case Plus(s, m, p) => Fold(PendingOps(s, LowOp(m)), PendingVals(s), GroupedProduct(p))
  }

  // ---------------------------------------------------------------------------------------
  // The keys of an expression compute its grouped value
  // ---------------------------------------------------------------------------------------

  /** Both stacks are as given and the current operand is x. */
  ghost predicate Holds(c: Calc, ops: seq<Op>, nums: seq<real>, x: real, paren: int) {
    c.ops == ops && c.nums == nums && (c.entered == 1 || c.entered == 2) && c.Current() == x && c.paren == paren
  }

  /** A product may start here: no product is pending on top. */
  predicate Open(ops: seq<Op>) {
    ops == [] || Priority(ops[|ops| - 1]) == 0
  }

  /** A sum may start here. */
  predicate Closed(ops: seq<Op>) {
    ops == [] || ops[|ops| - 1] == LPar
  }

  function ProductOps(p: Product): seq<Op> {
    if p.Times? then [HighOp(p.divide)] else []
  }

  function ProductVals(p: Product): seq<real> {
    if p.Times? then [GroupedProduct(p.p)] else []
  }

  function LastFactor(p: Product): real {
    GroupedFactor(p.f)
  }

  /** Behind a product all but its last factor are worked off. */
  ghost predicate BehindProduct(c: Calc, ops: seq<Op>, nums: seq<real>, p: Product, paren: int) {
    Holds(c, ops + ProductOps(p), nums + ProductVals(p), LastFactor(p), paren)
  }

  function SumOps(s: Sum): seq<Op> {
    if s.Plus? then PendingOps(s.s, LowOp(s.minus)) else []
  }

  function SumVals(s: Sum): seq<real> {
    if s.Plus? then PendingVals(s.s) else []
  }

  ghost predicate BehindSum(c: Calc, ops: seq<Op>, nums: seq<real>, s: Sum, paren: int) {
    BehindProduct(c, ops + SumOps(s), nums + SumVals(s), s.p, paren)
  }

  lemma {:induction false} PendingLow(s: Sum, k: Op)
    requires Priority(k) == 0 && k != LPar
    ensures forall i :: 0 <= i < Pending(s) ==>
      PendingOps(s, k)[i] == Add || PendingOps(s, k)[i] == Sub || PendingOps(s, k)[i] == k
  {
    if s.Plus? {
      var ops := PendingOps(s.s, LowOp(s.minus));
      PendingLow(s.s, LowOp(s.minus));
      forall i | 0 <= i < Pending(s)
        ensures PendingOps(s, k)[i] == Add || PendingOps(s, k)[i] == Sub || PendingOps(s, k)[i] == k
      {
        if i < Pending(s) - 1 {
          assert PendingOps(s, k)[i] == ops[i];
        }
      }
    }
  }

  /** An operator that reduces the one on top. */
  lemma PressReduces(c: Calc, ops: seq<Op>, op: Op, nums: seq<real>, a: real, k: Op)
    requires c.ops == ops + [op] && c.nums == nums + [a] && op != LPar && Priority(k) <= Priority(op)
    requires c.entered == 1 || c.entered == 2
    requires |ops| < STACKMAX && |nums| < STACKMAX
    ensures var c' := Press(c, Oper(k));
      c'.ops == ops + [k] && c'.nums == nums + [Apply(op, a, c.Current())] && c'.entered == 0 && c'.paren == c.paren
  {
    assert c.ops[..|ops|] == ops && c.nums[..|nums|] == nums;
  }

  /** An operator that is put on top. */
  lemma PressStacks(c: Calc, k: Op)
    requires c.ops == [] || c.ops[|c.ops| - 1] == LPar || Priority(k) > Priority(c.ops[|c.ops| - 1])
    requires c.entered == 1 || c.entered == 2
    requires |c.ops| < STACKMAX && |c.nums| < STACKMAX
    ensures var c' := Press(c, Oper(k));
      c'.ops == c.ops + [k] && c'.nums == c.nums + [c.Current()] && c'.entered == 0 && c'.paren == c.paren
  {
    if c.ops != [] {
      assert c.ops[..|c.ops| - 1] + [c.ops[|c.ops| - 1]] == c.ops;
    }
  }

  /** A high operator behind a product. */
  lemma PressHigh(c: Calc, ops: seq<Op>, nums: seq<real>, p: Product, d: bool, paren: int)
    requires BehindProduct(c, ops, nums, p, paren) && Open(ops)
    requires |ops| < STACKMAX && |nums| < STACKMAX
    ensures var c' := Press(c, Oper(HighOp(d)));
      c'.ops == ops + [HighOp(d)] && c'.nums == nums + [GroupedProduct(p)] && c'.entered == 0 && c'.paren == paren
  {
    if p.Times? {
      PressReduces(c, ops, HighOp(p.divide), nums, GroupedProduct(p.p), HighOp(d));
    } else {
      assert ops + [] == ops && nums + [] == nums;
      PressStacks(c, HighOp(d));
    }
  }

  lemma PressLowFirst(c: Calc, ops: seq<Op>, nums: seq<real>, p: Product, m: bool, paren: int)
    requires BehindProduct(c, ops, nums, p, paren) && Closed(ops)
    requires |ops| < STACKMAX && |nums| < STACKMAX
    ensures var c' := Press(c, Oper(LowOp(m)));
      c'.ops == ops + [LowOp(m)] && c'.nums == nums + [GroupedProduct(p)] && c'.entered == 0 && c'.paren == paren
  {
    if p.Times? {
      PressReduces(c, ops, HighOp(p.divide), nums, GroupedProduct(p.p), LowOp(m));
    } else {
      assert ops + [] == ops && nums + [] == nums;
      PressStacks(c, LowOp(m));
    }
  }

  lemma PressLowNext(c: Calc, ops: seq<Op>, nums: seq<real>, lows: seq<Op>, vals: seq<real>, m0: bool, p: Product,
                     m: bool, paren: int)
    requires BehindProduct(c, ops + lows, nums + vals, p, paren)
    requires |lows| == |vals| >= 1 && lows[|lows| - 1] == LowOp(m0)
    requires p.Times? ==> |ops| + |lows| < STACKMAX && |nums| + |vals| < STACKMAX
    requires |ops| + |lows| <= STACKMAX && |nums| + |vals| <= STACKMAX
    ensures var c' := Press(c, Oper(LowOp(m)));
      && c'.ops == ops + (if p.Times? then lows + [LowOp(m)] else lows[..|lows| - 1] + [LowOp(m)])
      && c'.nums == nums + (if p.Times? then vals + [GroupedProduct(p)]
                            else vals[..|vals| - 1] + [Apply(LowOp(m0), vals[|vals| - 1], GroupedProduct(p))])
      && c'.entered == 0 && c'.paren == paren
  {
    hide Press, Apply;
    if p.Times? {
      PressReduces(c, ops + lows, HighOp(p.divide), nums + vals, GroupedProduct(p.p), LowOp(m));
      assert ops + (lows + [LowOp(m)]) == ops + lows + [LowOp(m)];
      assert nums + (vals + [GroupedProduct(p)]) == nums + vals + [GroupedProduct(p)];
    } else {
      var n := |lows| - 1;
      assert ops + lows + [] == ops + lows[..n] + [lows[n]];
      assert nums + vals + [] == nums + vals[..n] + [vals[n]];
      PressReduces(c, ops + lows[..n], lows[n], nums + vals[..n], vals[n], LowOp(m));
      assert ops + (lows[..n] + [LowOp(m)]) == ops + lows[..n] + [LowOp(m)];
      var v := Apply(LowOp(m0), vals[n], GroupedProduct(p));
      assert nums + (vals[..n] + [v]) == nums + vals[..n] + [v];
    }
  }

  lemma PressLowOnly(c: Calc, ops: seq<Op>, nums: seq<real>, p: Product, m: bool, paren: int)
    requires BehindSum(c, ops, nums, Only(p), paren) && Closed(ops) && |ops| < STACKMAX && |nums| < STACKMAX
    ensures var c' := Press(c, Oper(LowOp(m)));
      && c'.ops == ops + PendingOps(Only(p), LowOp(m)) && c'.nums == nums + PendingVals(Only(p))
      && c'.entered == 0 && c'.paren == paren
  {
    hide Press, Apply, GroupedProduct;
    assert ops + [] == ops && nums + [] == nums;
    PressLowFirst(c, ops, nums, p, m, paren);
  }

  lemma PressLowPlus(c: Calc, ops: seq<Op>, nums: seq<real>, s: Sum, m: bool, paren: int)
    requires s.Plus? && BehindSum(c, ops, nums, s, paren)
    requires |ops| + Pending(s) <= STACKMAX && |nums| + Pending(s) <= STACKMAX
    ensures var c' := Press(c, Oper(LowOp(m)));
      && c'.ops == ops + PendingOps(s, LowOp(m)) && c'.nums == nums + PendingVals(s)
      && c'.entered == 0 && c'.paren == paren
  {
    hide Press, Apply, GroupedProduct, BehindProduct;
    var lows, vals := PendingOps(s.s, LowOp(s.minus)), PendingVals(s.s);
    PressLowNext(c, ops, nums, lows, vals, s.minus, s.p, m, paren);
  }

  /** A sign behind a sum. */
  lemma PressLow(c: Calc, ops: seq<Op>, nums: seq<real>, s: Sum, m: bool, paren: int)
    requires BehindSum(c, ops, nums, s, paren) && Closed(ops)
    requires |ops| + Pending(s) <= STACKMAX && |nums| + Pending(s) <= STACKMAX
    ensures var c' := Press(c, Oper(LowOp(m)));
      && c'.ops == ops + PendingOps(s, LowOp(m)) && c'.nums == nums + PendingVals(s)
      && c'.entered == 0 && c'.paren == paren
  {
    hide Press, PendingOps, PendingVals, BehindSum, Closed;
    match s
    case Only(p) => PressLowOnly(c, ops, nums, p, m, paren);
    case Plus(_, _, _) => PressLowPlus(c, ops, nums, s, m, paren);
  }

  ghost predicate NoParen(ops: seq<Op>) {
    forall i :: 0 <= i < |ops| ==> ops[i] != LPar
  }

  /** One turn of either loop. */
  lemma ReduceTop(c: Calc, nums: seq<real>, a: real, x: real, op: Op)
    requires c.nums == nums + [a] + [x] && |nums| + 2 <= STACKMAX
    ensures Reduce(c, op) == c.(nums := nums + [Apply(op, a, x)], dnum := Apply(op, a, x))
  {
    assert c.nums[..|nums| + 1] == nums + [a];
    assert (nums + [a])[..|nums|] == nums;
  }

  lemma SplitLast<T>(a: seq<T>, b: seq<T>, c: seq<T>)
    requires b != []
    ensures a + b + c == a + b[..|b| - 1] + [b[|b| - 1]] + c
    ensures (a + b)[..|a + b| - 1] == a + b[..|b| - 1]
  {
  }

  /** The loop of rparf works off the pending operators, from the last to the first, down to the parenthesis. */
  lemma {:induction false} RParFold(c: Calc, ops: seq<Op>, pend: seq<Op>, nums: seq<real>, vals: seq<real>, x: real)
    requires c.ops == ops + [LPar] + pend && NoParen(pend) && |pend| == |vals|
    requires c.nums == nums + vals + [x] && |c.nums| <= STACKMAX && c.dnum == x
    ensures var v := Fold(pend, vals, x);
      RParLoop(c) == c.(ops := ops, nums := nums + [v], dnum := v)
    decreases |pend|
  {
    if pend == [] {
      assert c.ops == ops + [LPar] && nums + vals + [x] == nums + [x];
      assert c.ops[..|ops|] == ops;
    } else {
      var n := |pend| - 1;
      SplitLast(ops + [LPar], pend, []);
      SplitLast(nums, vals, [x]);
      assert c.ops[|c.ops| - 1] == pend[n];
      var c1 := c.(ops := ops + [LPar] + pend[..n]);
      assert c.PopOp() == (c1, pend[n]);
      ReduceTop(c1, nums + vals[..n], vals[n], x, pend[n]);
      RParFold(Reduce(c1, pend[n]), ops, pend[..n], nums, vals[..n], Apply(pend[n], vals[n], x));
    }
  }

  /** The loop of equf works off everything. */
  lemma {:induction false} EquFold(c: Calc, nums: seq<real>, vals: seq<real>, x: real)
    requires NoParen(c.ops) && |c.ops| == |vals|
    requires c.nums == nums + vals + [x] && |c.nums| <= STACKMAX && c.dnum == x
    ensures var v := Fold(c.ops, vals, x);
      EquLoop(c) == c.(ops := [], nums := nums + [v], dnum := v)
    decreases |c.ops|
  {
    if c.ops == [] {
      assert nums + vals + [x] == nums + [x];
    } else {
      var n := |c.ops| - 1;
      SplitLast(nums, vals, [x]);
      var c1, op := c.(ops := c.ops[..n]), c.ops[n];
      assert c.PopOp() == (c1, op);
      ReduceTop(c1, nums + vals[..n], vals[n], x, op);
      EquFold(Reduce(c1, op), nums, vals[..n], Apply(op, vals[n], x));
    }
  }

  lemma PendingAreSigns(s: Sum)
    ensures |SumOps(s) + ProductOps(s.p)| == |SumVals(s) + ProductVals(s.p)| && NoParen(SumOps(s) + ProductOps(s.p))
  {
    if s.Plus? {
      PendingLow(s.s, LowOp(s.minus));
    }
  }

  lemma FoldLast(ops: seq<Op>, vals: seq<real>, op: Op, a: real, x: real)
    requires |ops| == |vals|
    ensures Fold(ops + [op], vals + [a], x) == Fold(ops, vals, Apply(op, a, x))
  {
    assert (ops + [op])[..|ops|] == ops && (vals + [a])[..|vals|] == vals;
  }

  lemma FoldNothing(x: real)
    ensures Fold([], [], x) == x
  {
  }

  /** Everything that is pending behind a sum folds to its value. */
  lemma PendingFolds(s: Sum)
    ensures var ops, vals := SumOps(s) + ProductOps(s.p), SumVals(s) + ProductVals(s.p);
      |ops| == |vals| && NoParen(ops) && Fold(ops, vals, LastFactor(s.p)) == GroupedSum(s)
  {
    hide NoParen, PendingOps, PendingVals, Apply;
    var p := s.p;
    PendingAreSigns(s);
    FoldNothing(GroupedProduct(p));
    if p.Times? {
      FoldLast(SumOps(s), SumVals(s), HighOp(p.divide), GroupedProduct(p.p), GroupedFactor(p.f));
    } else {
      assert SumOps(s) + [] == SumOps(s) && SumVals(s) + [] == SumVals(s);
    }
  }

  /** The stacks behind a sum, with all that is pending in one piece. */
  ghost predicate Flat(c: Calc, ops: seq<Op>, pend: seq<Op>, nums: seq<real>, vals: seq<real>, x: real, paren: int) {
    && c.ops == ops + pend && c.nums == nums + vals
    && (c.entered == 1 || c.entered == 2) && c.Current() == x && c.paren == paren
  }

  lemma BehindSumFlat(c: Calc, ops: seq<Op>, nums: seq<real>, s: Sum, paren: int)
    requires BehindSum(c, ops, nums, s, paren)
    ensures Flat(c, ops, SumOps(s) + ProductOps(s.p), nums, SumVals(s) + ProductVals(s.p), LastFactor(s.p), paren)
  {
    assert ops + SumOps(s) + ProductOps(s.p) == ops + (SumOps(s) + ProductOps(s.p));
    assert nums + SumVals(s) + ProductVals(s.p) == nums + (SumVals(s) + ProductVals(s.p));
  }

  lemma FlatRPar(c: Calc, ops: seq<Op>, pend: seq<Op>, nums: seq<real>, vals: seq<real>, x: real, paren: int)
    requires Flat(c, ops + [LPar], pend, nums, vals, x, paren) && paren != 0
    requires NoParen(pend) && |pend| == |vals| && |c.nums| < STACKMAX
    ensures Holds(Press(c, RParKey), ops, nums, Fold(pend, vals, x), paren - 1)
  {
    var c1 := c.(dnum := x, entered := 2).PushNum(x);
    RParFold(c1, ops, pend, nums, vals, x);
    var v := Fold(pend, vals, x);
    assert (nums + [v])[..|nums|] == nums;
  }

  lemma FlatEqu(c: Calc, pend: seq<Op>, nums: seq<real>, vals: seq<real>, x: real, paren: int)
    requires Flat(c, [], pend, nums, vals, x, paren) && NoParen(pend) && |pend| == |vals| && |c.nums| < STACKMAX
    ensures var r, v := Press(c, EquKey), Fold(pend, vals, x);
      r.entered == 2 && r.ops == [] && r.nums == nums + [v] && r.dnum == v && r.paren == paren
  {
    assert [] + pend == pend;
    EquFold(c.(dnum := x, entered := 2).PushNum(x), nums, vals, x);
  }

  lemma PressRPar(c: Calc, ops: seq<Op>, nums: seq<real>, s: Sum, paren: int)
    requires BehindSum(c, ops + [LPar], nums, s, paren) && paren != 0
    requires |c.nums| < STACKMAX
    ensures Holds(Press(c, RParKey), ops, nums, GroupedSum(s), paren - 1)
  {
    PendingFolds(s);
    BehindSumFlat(c, ops + [LPar], nums, s, paren);
    FlatRPar(c, ops, SumOps(s) + ProductOps(s.p), nums, SumVals(s) + ProductVals(s.p), LastFactor(s.p), paren);
  }

  lemma PressEqu(c: Calc, nums: seq<real>, s: Sum, paren: int)
    requires BehindSum(c, [], nums, s, paren) && |c.nums| < STACKMAX
    ensures var r := Press(c, EquKey);
      r.entered == 2 && r.ops == [] && r.nums == nums + [GroupedSum(s)] && r.dnum == GroupedSum(s) && r.paren == paren
  {
    PendingFolds(s);
    BehindSumFlat(c, [], nums, s, paren);
    FlatEqu(c, SumOps(s) + ProductOps(s.p), nums, SumVals(s) + ProductVals(s.p), LastFactor(s.p), paren);
  }

  // ---------------------------------------------------------------------------------------
  // Whole expressions
  // ---------------------------------------------------------------------------------------

  /** There is room on both stacks for `depth` more pending operators and their operands, and for one number. */
  predicate Room(ops: seq<Op>, nums: seq<real>, depth: nat) {
    |ops| + depth <= STACKMAX && |nums| + depth < STACKMAX
  }

  lemma {:induction false} PressFactor(c: Calc, f: Factor)
    requires c.entered != 3 && c.paren >= 0 && Room(c.ops, c.nums, FactorDepth(f))
    ensures Holds(PressAll(c, FactorKeys(f)), c.ops, c.nums, GroupedFactor(f), c.paren)
    decreases f, 0
  {
    match f
    case Lit(v) =>
    case Paren(s) =>
      var keys := SumKeys(s);
      var c1 := Press(c, LParKey);
      PressConcat(c, [LParKey] + keys, [RParKey]);
      PressConcat(c, [LParKey], keys);
      PressSum(c1, s);
      var c2 := PressAll(c1, keys);
      PendingFits(s);
      PressRPar(c2, c.ops, c.nums, s, c1.paren);
  }

  lemma {:induction false} PressProduct(c: Calc, p: Product)
    requires c.entered != 3 && c.paren >= 0 && Room(c.ops, c.nums, ProductDepth(p)) && Open(c.ops)
    ensures BehindProduct(PressAll(c, ProductKeys(p)), c.ops, c.nums, p, c.paren)
    decreases p, 1
  {
    match p
    case One(f) =>
      PressFactor(c, f);
      assert c.ops + [] == c.ops && c.nums + [] == c.nums;
    case Times(p0, d, f) =>
      PressProduct(c, p0);
      var c1 := PressAll(c, ProductKeys(p0));
      PressHigh(c1, c.ops, c.nums, p0, d, c.paren);
      var c2 := Press(c1, Oper(HighOp(d)));
      PressFactor(c2, f);
      PressConcat(c, ProductKeys(p0) + [Oper(HighOp(d))], FactorKeys(f));
      PressConcat(c, ProductKeys(p0), [Oper(HighOp(d))]);
  }

  lemma {:induction false} PressSum(c: Calc, s: Sum)
    requires c.entered != 3 && c.paren >= 0 && Room(c.ops, c.nums, SumDepth(s)) && Closed(c.ops)
    ensures BehindSum(PressAll(c, SumKeys(s)), c.ops, c.nums, s, c.paren)
    decreases s, 2
  {
    match s
    case Only(p) =>
      PressProduct(c, p);
      assert c.ops + [] == c.ops && c.nums + [] == c.nums;
    case Plus(s0, m, p) =>
      PressSum(c, s0);
      var c1 := PressAll(c, SumKeys(s0));
      PressLow(c1, c.ops, c.nums, s0, m, c.paren);
      var c2 := Press(c1, Oper(LowOp(m)));
      PressProduct(c2, p);
      PressConcat(c, SumKeys(s0) + [Oper(LowOp(m))], ProductKeys(p));
      PressConcat(c, SumKeys(s0), [Oper(LowOp(m))]);
  }

  /** What is pending at the end of a sum fits in its depth. */
  lemma PendingFits(s: Sum)
    ensures |SumOps(s)| + |ProductOps(s.p)| <= SumDepth(s)
    ensures |SumVals(s)| + |ProductVals(s.p)| == |SumOps(s)| + |ProductOps(s.p)|
  {
  }

  /** For every expression that fits, typed and followed by '=', the evaluator ends without an error, with an empty
      operator stack, the parenthesis count as before and one more number: the grouped value. */
  lemma EvaluatesGrouped(c: Calc, s: Sum)
    requires c.entered != 3 && c.paren >= 0 && c.ops == [] && Room([], c.nums, SumDepth(s))
    ensures var r := PressAll(c, SumKeys(s) + [EquKey]);
      && r.entered == 2 && r.ops == [] && r.paren == c.paren
      && r.nums == c.nums + [GroupedSum(s)] && r.dnum == GroupedSum(s)
  {
    PressSum(c, s);
    PressConcat(c, SumKeys(s), [EquKey]);
    PendingFits(s);
    PressEqu(PressAll(c, SumKeys(s)), c.nums, s, c.paren);
  }

  /** The depth bound cannot be read off the error state: a closing parenthesis whose operand finds the number stack
      full leaves no error behind, while a sign there does. */
  lemma RParForgetsError(c: Calc)
    requires (c.entered == 1 || c.entered == 2) && c.paren != 0 && |c.nums| == STACKMAX
    requires c.ops != [] && c.ops[|c.ops| - 1] == LPar
    ensures c.(dnum := c.Current(), entered := 2).PushNum(c.Current()).entered == 3
    ensures Press(c, RParKey) == c.(ops := c.ops[..|c.ops| - 1], nums := c.nums[..STACKMAX - 1], dnum := c.Current(),
                                    paren := c.paren - 1, entered := 2)
    ensures Press(c, Oper(Add)).entered == 3
  {
    var c1 := c.(dnum := c.Current(), entered := 2).PushNum(c.Current());
    assert RParLoop(c1) == c1.(ops := c.ops[..|c.ops| - 1]);
  }

  // ---------------------------------------------------------------------------------------
  // Short key sequences, in numbers
  // ---------------------------------------------------------------------------------------

  predicate IsOperator(k: Op) {
    k.Add? || k.Sub? || k.Mul? || k.Div?
  }

  /** The four keys. */
  predicate Computes(k: Op, x: real, y: real, v: real) {
    match k
    case Add => v == x + y
    case Sub => v == x - y
    case Mul => v == x * y
    case Div => y != 0.0 ==> v * y == x
    case _ => false
  }

  function OperKeys(ks: seq<Op>): seq<Key> {
    if ks == [] then [] else [Oper(ks[0])] + OperKeys(ks[1..])
  }

  lemma PressTwo(c: Calc, a: Key, b: Key)
    ensures PressAll(c, [a, b]) == Press(Press(c, a), b)
  {
    hide Press;
    PressConcat(c, [a], [b]);
    PressOne(c, a);
    PressOne(Press(c, a), b);
    assert [a] + [b] == [a, b];
  }

  lemma PressOne(c: Calc, a: Key)
    ensures PressAll(c, [a]) == Press(c, a)
  {
    hide Press;
    assert [a][1..] == [];
  }

  /** Of several operator keys in a row the last one counts: each takes the place of the one before it on the stack,
      and nothing else changes. */
  lemma {:induction false} LastOperatorCounts(c: Calc, below: seq<Op>, k: Op, ks: seq<Op>)
    requires c.entered == 0 && c.ops == below + [k] && |c.ops| <= STACKMAX
    ensures PressAll(c, OperKeys(ks)) == c.(ops := below + [if ks == [] then k else ks[|ks| - 1]])
    decreases |ks|
  {
    if ks == [] {
      assert OperKeys(ks) == [];
    } else {
      hide Press;
      var c' := c.(ops := below + [ks[0]]);
      OperatorReplaced(c, below, k, ks[0]);
      LastOperatorCounts(c', below, ks[0], ks[1..]);
      PressOne(c, Oper(ks[0]));
      PressConcat(c, [Oper(ks[0])], OperKeys(ks[1..]));
    }
  }

  /** An operator key directly behind another one takes its place. */
  lemma OperatorReplaced(c: Calc, below: seq<Op>, k: Op, k': Op)
    requires c.entered == 0 && c.ops == below + [k] && |c.ops| <= STACKMAX
    ensures Press(c, Oper(k')) == c.(ops := below + [k'])
  {
    assert c.ops[..|c.ops| - 1] == below;
  }

  /** An operator key behind a number leaves it waiting. */
  lemma OperatorWaits(c: Calc, k: Op)
    requires (c.entered == 1 || c.entered == 2) && c.ops == [] && |c.nums| < STACKMAX && IsOperator(k)
    ensures Press(c, Oper(k)) == c.(ops := [k], nums := c.nums + [c.Current()], dnum := c.Current(), entered := 0)
  {
    assert [] + [k] == [k];
  }

  lemma EqualsComputes(c: Calc, nums: seq<real>, k: Op, x: real)
    requires c.entered == 1 && c.ops == [k] && c.nums == nums + [x] && |c.nums| < STACKMAX && IsOperator(k)
    ensures var r, y := Press(c, EquKey), c.typed;
      && r.entered == 2 && r.ops == [] && r.paren == c.paren && r.nums == nums + [r.dnum]
      && Computes(k, x, y, r.dnum)
  {
    var c1 := c.(dnum := c.typed, entered := 2).PushNum(c.typed);
    assert NoParen(c1.ops) && c1.nums == nums + [x] + [c.typed];
    EquFold(c1, nums, [x], c.typed);
    assert Fold([k], [x], c.typed) == Fold([], [], Apply(k, x, c.typed));
    assert [k][..0] == [] && [x][..0] == [];
  }

  /** A number, operator keys, a number and '=': the last operator is applied to the two numbers. */
  lemma NumbersAndOperators(c: Calc, x: real, k: Op, ks: seq<Op>, y: real)
    requires c.entered != 3 && c.ops == [] && |c.nums| + 2 <= STACKMAX && IsOperator(k)
    requires forall i :: 0 <= i < |ks| ==> IsOperator(ks[i])
    ensures var r := PressAll(c, [Num(x), Oper(k)] + OperKeys(ks) + [Num(y), EquKey]);
      && r.entered == 2 && r.ops == [] && r.paren == c.paren && r.nums == c.nums + [r.dnum]
      && Computes(if ks == [] then k else ks[|ks| - 1], x, y, r.dnum)
  {
    var last := if ks == [] then k else ks[|ks| - 1];
    var c1 := Press(c, Num(x));
    OperatorWaits(c1, k);
    var c2 := Press(c1, Oper(k));
    assert [] + [k] == [k];
    LastOperatorCounts(c2, [], k, ks);
    var c3 := PressAll(c2, OperKeys(ks));
    assert [] + [last] == [last];
    EqualsComputes(Press(c3, Num(y)), c.nums, last, x);
    PressTwo(c, Num(x), Oper(k));
    PressTwo(c3, Num(y), EquKey);
    PressConcat(c, [Num(x), Oper(k)], OperKeys(ks));
    PressConcat(c, [Num(x), Oper(k)] + OperKeys(ks), [Num(y), EquKey]);
  }

  /** The result of '=' is the left operand of an operator key that follows. */
  lemma ResultGoesOn(c: Calc, k: Op, y: real)
    requires c.entered == 2 && c.ops == [] && |c.nums| + 2 <= STACKMAX && IsOperator(k)
    ensures var r := PressAll(c, [Oper(k), Num(y), EquKey]);
      && r.entered == 2 && r.ops == [] && r.nums == c.nums + [r.dnum] && Computes(k, c.dnum, y, r.dnum)
  {
    OperatorWaits(c, k);
    EqualsComputes(Press(Press(c, Oper(k)), Num(y)), c.nums, k, c.dnum);
    assert [Oper(k), Num(y), EquKey][1..] == [Num(y), EquKey];
    PressTwo(Press(c, Oper(k)), Num(y), EquKey);
  }

  /** '=' and ')' do nothing directly behind an operator, ')' nothing where no parenthesis is open, and in the error
      state no key does anything. */
  lemma IgnoredKeys(c: Calc, k: Key)
    ensures c.entered == 0 ==> Press(c, EquKey) == Press(c, RParKey) == c
    ensures c.paren == 0 ==> Press(c, RParKey) == c
    ensures c.entered == 3 ==> Press(c, k) == c
  {
  }

  /** An opening parenthesis is stacked and counted, and nothing else; without room it is an error, and counted. */
  lemma OpensParenthesis(c: Calc)
    requires c.entered != 3
    ensures var r := Press(c, LParKey);
      && r.nums == c.nums && r.dnum == c.dnum && r.typed == c.typed && r.paren == c.paren + 1
      && (if |c.ops| == 32 then r.ops == c.ops && r.entered == 3 else r.ops == c.ops + [LPar] && r.entered == c.entered)
  {
  }

  /** A number behind an opening parenthesis, and an operator behind that number. */
  lemma OpenNumber(c: Calc, x: real) returns (r: Calc)
    requires c.entered == 2 && c.ops == [] && |c.nums| + 2 <= STACKMAX
    ensures r == Press(Press(c, LParKey), Num(x))
    ensures r == c.(ops := [LPar], typed := x, entered := 1, paren := c.paren + 1)
  {
    r := Press(Press(c, LParKey), Num(x));
    assert [] + [LPar] == [LPar];
  }

  lemma OpenSign(c: Calc) returns (r: Calc)
    requires c.entered == 1 && c.ops == [LPar] && |c.nums| + 1 <= STACKMAX
    ensures r == Press(c, Oper(Add))
    ensures r == c.(ops := [LPar, Add], nums := c.nums + [c.typed], dnum := c.typed, entered := 0)
  {
    r := Press(c, Oper(Add));
    assert [LPar][..0] == [] && [] + [LPar] == [LPar] && [LPar] + [Add] == [LPar, Add];
  }

  /** The keys up to '=' leave the sum open on the stacks. */
  lemma OpenSum(c: Calc, nums: seq<real>, w: real, x: real, y: real) returns (r: Calc)
    requires c.entered == 2 && c.ops == [] && c.nums == nums + [w] && |c.nums| + 2 <= STACKMAX
    ensures r == PressAll(c, [LParKey, Num(x), Oper(Add), Num(y)])
    ensures r == c.(ops := [LPar, Add], nums := nums + [w] + [x], dnum := x, typed := y, entered := 1,
                    paren := c.paren + 1)
  {
    hide TwoOp, Equ, RPar, PressAll;
    var c1 := OpenNumber(c, x);
    var c2 := OpenSign(c1);
    r := Press(c2, Num(y));
    PressTwo(c, LParKey, Num(x));
    PressTwo(c1, Oper(Add), Num(y));
    PressConcat(c, [LParKey, Num(x)], [Oper(Add), Num(y)]);
    assert [LParKey, Num(x)] + [Oper(Add), Num(y)] == [LParKey, Num(x), Oper(Add), Num(y)];
  }

  /** '=' adds up what is inside, and then takes the number before the parenthesis for the result. */
  lemma EqualsOpenSum(c: Calc, nums: seq<real>, w: real, x: real, y: real) returns (r: Calc)
    requires |nums| + 3 <= STACKMAX
    requires c.ops == [LPar, Add] && c.nums == nums + [w] + [x] + [y]
    ensures r == EquLoop(c) == c.(ops := [], nums := nums + [w] + [w], dnum := w, paren := c.paren - 1)
  {
    var c1 := c.(ops := [LPar]);
    assert [LPar, Add][..1] == [LPar] && [LPar][..0] == [];
    assert c.nums[..|nums| + 2] == nums + [w] + [x] && c.nums[..|nums| + 2][..|nums| + 1] == nums + [w];
    var c2 := Reduce(c1, Add);
    assert c2 == c1.(nums := nums + [w] + [x + y], dnum := x + y);
    assert c2.nums[..|nums| + 1] == nums + [w] && (nums + [w])[..|nums|] == nums;
    r := ReduceParen(c2.(ops := []));
    assert EquLoop(c) == EquLoop(c2) == EquLoop(r) == r;
  }

  /** A parenthesis that is still open at '=' loses the sum in it: the number left on the stack from before comes out,
      twice. */
  lemma OpenParenthesisLosesSum(c: Calc, nums: seq<real>, w: real, x: real, y: real)
    requires c.entered == 2 && c.ops == [] && c.nums == nums + [w] && |c.nums| + 2 <= STACKMAX
    ensures var r := PressAll(c, [LParKey, Num(x), Oper(Add), Num(y), EquKey]);
      r.entered == 2 && r.ops == [] && r.dnum == w && r.nums == nums + [w, w] && r.paren == c.paren
  {
    hide EquLoop, TwoOp, RPar;
    var c1 := OpenSum(c, nums, w, x, y);
    var r := EqualsOpenSum(c1.(dnum := y, entered := 2).PushNum(y), nums, w, x, y);
    assert Press(c1, EquKey) == r;
    PressOne(c1, EquKey);
    PressConcat(c, [LParKey, Num(x), Oper(Add), Num(y)], [EquKey]);
    assert [LParKey, Num(x), Oper(Add), Num(y)] + [EquKey] == [LParKey, Num(x), Oper(Add), Num(y), EquKey];
    assert nums + [w] + [w] == nums + [w, w];
  }
}
