/** xcalc's evaluator as the source has it: two fixed arrays, their heights, and the keys that change them in place. */
module Calculator {
  import opened InfixCalc
  import opened InfixValue

  lemma EquStep(c: Calc)
    requires c.ops != []
    ensures var (c1, op) := c.PopOp();
      EquLoop(c) == EquLoop(if op == LPar then ReduceParen(c1) else Reduce(c1, op))
  {
  }

  /** The number stack does not look at the display. */
  lemma DisplayApart(c: Calc, d: real, v: real)
    ensures c.(dnum := d).PopNum() == (c.PopNum().0.(dnum := d), c.PopNum().1)
    ensures c.(dnum := d).PushNum(v) == c.PushNum(v).(dnum := d)
    ensures c.PopNum().0.paren == c.paren
  {
  }

  class Machine {
    const opstack: array<Op>
    var opsp: nat
    const numstack: array<real>
    var numsp: nat
    var dnum: real
    var typed: real
    var entered: int
    var flagPAREN: int

    ghost predicate Valid()
      reads this
    {
      opstack.Length == numstack.Length == STACKMAX && opsp <= STACKMAX && numsp <= STACKMAX
    }

    ghost function View(): Calc
      reads this, opstack, numstack
      requires Valid()
    {
      Calc(opstack[..opsp], numstack[..numsp], dnum, typed, entered, flagPAREN)
    }

    /** ResetCalc: the display holds a zero that counts as entered. */
    constructor ()
      ensures Valid() && View() == Calc([], [], 0.0, 0.0, 1, 0)
      ensures fresh(opstack) && fresh(numstack)
    {
      opstack := new Op[STACKMAX](_ => Nop);
      numstack := new real[STACKMAX](_ => 0.0);
      opsp, numsp, dnum, typed, entered, flagPAREN := 0, 0, 0.0, 0.0, 1, 0;
    }

    method PushOp(op: Op)
      requires Valid()
      modifies this`opsp, this`entered, opstack
      ensures Valid() && View() == old(View()).PushOp(op)
    {
      if opsp == STACKMAX {
        entered := 3;
      } else {
        opstack[opsp] := op;
        opsp := opsp + 1;
      }
    }

    method PopOp() returns (op: Op)
      requires Valid()
      modifies this`opsp, this`entered
      ensures Valid() && (View(), op) == old(View()).PopOp()
    {
      if opsp == 0 {
        entered := 3;
        return Nop;
      }
      opsp := opsp - 1;
      assert opstack[..opsp] == old(opstack[..opsp])[..opsp];
      return opstack[opsp];
    }

    method PushNum(num: real)
      requires Valid()
      modifies this`numsp, this`entered, numstack
      ensures Valid() && View() == old(View()).PushNum(num)
    {
      if numsp == STACKMAX {
        entered := 3;
      } else {
        numstack[numsp] := num;
        numsp := numsp + 1;
      }
    }

    method PopNum() returns (num: real)
      requires Valid()
      modifies this`numsp, this`entered
      ensures Valid() && (View(), num) == old(View()).PopNum()
    {
      if numsp == 0 {
        entered := 3;
        return 0.0;
      }
      numsp := numsp - 1;
      assert numstack[..numsp] == old(numstack[..numsp])[..numsp];
      return numstack[numsp];
    }

    /** The part of Twoop behind the popping of the last operator. */
    method TwoopPending(keynum: Op, lastop: Op)
      requires Valid()
      modifies this, opstack, numstack
      ensures Valid() && View() == StackOrReduce(old(View()), lastop, keynum)
    {
      hide Calc.PushOp, Calc.PopOp, Calc.PushNum, Calc.PopNum, Priority, Apply;
      if lastop == LPar {
        PushOp(LPar);
        PushOp(keynum);
        PushNum(dnum);
        return;
      }
      if Priority(keynum) > Priority(lastop) {
        PushNum(dnum);
        PushOp(lastop);
        PushOp(keynum);
      } else {
        var acc := PopNum();
        acc := Apply(lastop, acc, dnum);
        PushNum(acc);
        PushOp(keynum);
        dnum := acc;
      }
    }

    method Twoop(keynum: Op)
      requires Valid()
      modifies this, opstack, numstack
      ensures Valid() && View() == TwoOp(old(View()), keynum)
    {
      hide Calc.PushOp, Calc.PopOp, Calc.PushNum, Calc.PopNum, StackOrReduce;
      if entered == 0 {
        if opsp != 0 {
          var _ := PopOp();
        }
        PushOp(keynum);
        return;
      }
      if entered == 1 {
        dnum := typed;
      }
      entered := 0;
      if opsp != 0 {
        var lastop := PopOp();
        TwoopPending(keynum, lastop);
      } else {
        PushOp(keynum);
        PushNum(dnum);
      }
    }

    /** The loop body shared by Equf and Rparf. */
    method ReduceOnce(lastop: Op)
      requires Valid()
      modifies this`numsp, this`entered, this`dnum, numstack
      ensures Valid() && View() == Reduce(old(View()), lastop)
    {
      dnum := PopNum();
      var acc := PopNum();
      acc := Apply(lastop, acc, dnum);
      dnum := acc;
      PushNum(dnum);
    }

    method Equf()
      requires Valid()
      modifies this, opstack, numstack
      ensures Valid() && View() == Equ(old(View()))
    {
      if entered == 0 {
        return;
      }
      if entered == 1 {
        dnum := typed;
      }
      entered := 2;
      PushNum(dnum);
      ghost var result := EquLoop(View());
      while opsp != 0
        invariant Valid() && EquLoop(View()) == result
        decreases opsp
      {
        EquTurn();
      }
    }

    /** One turn of the loop in Equf. */
    method EquTurn()
      requires Valid() && opsp != 0
      modifies this, numstack
      ensures Valid() && opsp == old(opsp) - 1 && EquLoop(View()) == EquLoop(old(View()))
    {
      EquStep(View());
      var lastop := PopOp();
      if lastop == LPar {
        ReduceParenOnce();
      } else {
        ReduceOnce(lastop);
      }
    }

    /** An open parenthesis met by Equf. */
    method ReduceParenOnce()
      requires Valid()
      modifies this`numsp, this`entered, this`dnum, this`flagPAREN, numstack
      ensures Valid() && View() == ReduceParen(old(View()))
    {
      hide Calc.PushNum, Calc.PopNum;
      ghost var c := View();
      dnum := PopNum();
      DisplayApart(c.PopNum().0, dnum, 0.0);
      var acc := PopNum();
      DisplayApart(c.PopNum().0.PopNum().0.(paren := flagPAREN - 1), dnum, acc);
      flagPAREN := flagPAREN - 1;
      PushNum(acc);
      dnum := acc;
      PushNum(dnum);
    }

    method Lparf()
      requires Valid()
      modifies this`opsp, this`entered, this`flagPAREN, opstack
      ensures Valid() && View() == old(View()).PushOp(LPar).(paren := old(flagPAREN) + 1)
    {
      PushOp(LPar);
      flagPAREN := flagPAREN + 1;
    }

    method Rparf()
      requires Valid()
      modifies this, numstack
      ensures Valid() && View() == RPar(old(View()))
    {
      hide Calc.PushNum, Calc.PopNum, RParLoop;
      if entered == 0 {
        return;
      }
      if flagPAREN == 0 {
        return;
      }
      if entered == 1 {
        dnum := typed;
      }
      entered := 2;
      PushNum(dnum);
      ReduceToParen();
      var _ := PopNum();
      flagPAREN := flagPAREN - 1;
      entered := 2;
    }

    /** The loop of Rparf. */
    method ReduceToParen()
      requires Valid()
      modifies this, numstack
      ensures Valid() && View() == RParLoop(old(View()))
    {
      var open := true;
      while open && opsp != 0
        invariant Valid()
        invariant RParLoop(old(View())) == if open then RParLoop(View()) else View()
        decreases opsp
      {
        open := RParTurn();
      }
    }

    /** One turn of the loop in Rparf; false when it met the open parenthesis. */
    method RParTurn() returns (open: bool)
      requires Valid() && opsp != 0
      modifies this, numstack
      ensures Valid() && opsp == old(opsp) - 1 && flagPAREN == old(flagPAREN)
      ensures RParLoop(old(View())) == if open then RParLoop(View()) else View()
    {
      var lastop := PopOp();
      open := lastop != LPar;
      if open {
        ReduceOnce(lastop);
      }
    }

    /** One key; in the error state every key of these is refused. */
    method PressKey(k: Key)
      requires Valid()
      modifies this, opstack, numstack
      ensures Valid() && View() == Press(old(View()), k)
    {
      if entered == 3 {
        return;
      }
      match k
      case Num(v) => typed, entered := v, 1;
      case Oper(op) => Twoop(op);
      case LParKey => Lparf();
      case RParKey => Rparf();
      case EquKey => Equf();
    }

    /** The keys of a safe expression and '=': the result is its conventional value. */
    method Calculate(s: Sum) returns (value: real)
      requires Valid() && SumSafe(s) && SumDefined(s)
      requires entered != 3 && flagPAREN >= 0 && opsp == 0 && SumDepth(s) <= STACKMAX && numsp + SumDepth(s) < STACKMAX
      modifies this, opstack, numstack
      ensures Valid() && value == SumValue(s)
      ensures entered == 2 && opsp == 0 && flagPAREN == old(flagPAREN)
      ensures numstack[..numsp] == old(numstack[..numsp]) + [SumValue(s)]
    {
      var keys := SumKeys(s) + [EquKey];
      EvaluatesSafe(View(), s);
      var i := 0;
      while i < |keys|
        invariant i <= |keys| && Valid() && PressAll(View(), keys[i..]) == PressAll(old(View()), keys)
      {
        assert keys[i..][1..] == keys[i + 1..];
        PressKey(keys[i]);
        i := i + 1;
      }
      return dnum;
    }
  }
}
