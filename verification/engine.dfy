/**
 The evaluation engine: `Register.evaluate` and `print_register`.

 Evaluation pops the receiver's pending instructions front first and folds
 each into the receiver's value. A literal operand is used directly; any
 other operand is looked up as a register name and, when found, that
 register is evaluated first, consuming ITS pending list. There is no
 visited set: recursion ends because every step consumes one pending
 instruction and nothing is appended while a print runs, so the total
 number of pending instructions in the store (`Count`) decreases.
 */
module Engine {

  import opened Optional
  import opened Arithmetic
  import opened Store

  /**
   `r'` is `r` after consuming some of its pending instructions and perhaps
   changing its value: the name and the aliasing stay, the pending list is
   a tail of the old one, and a definition not aliased is untouched.
   */
  predicate DrainedReg(r: Register, r': Register)
  {
    && r'.name == r.name
    && r'.active.AliasOfAll? == r.active.AliasOfAll?
    && IsSuffix(r'.Pending(), r.Pending())
    && (r.active.Detached? ==> r'.all == r.all)
  }

  /** Register-wise `DrainedReg`: no register created, none refilled. */
  predicate Drained(s: Store, t: Store)
  {
    |t| == |s| && forall k :: 0 <= k < |s| ==> DrainedReg(s[k], t[k])
  }

  lemma DrainedTrans(s: Store, t: Store, u: Store)
    requires Drained(s, t) && Drained(t, u)
    ensures Drained(s, u)
  {
    forall k | 0 <= k < |s|
      ensures DrainedReg(s[k], u[k])
    {
      SuffixTrans(u[k].Pending(), t[k].Pending(), s[k].Pending());
    }
  }

  lemma DrainedSameNames(s: Store, t: Store)
    requires Drained(s, t)
    ensures SameNames(s, t)
  {
  }

  /** Overwrites one register's value (`self.register_value = ...`); nothing pending changes. */
  function SetValue(s: Store, i: nat, v: int): (t: Store)
    requires i < |s|
    ensures |t| == |s| && Count(t) == Count(s)
  {
    var t := s[i := s[i].(value := v)];
    CountUpdate(s, i, t[i]);
    t
  }

  lemma SetValueDrains(s: Store, i: nat, v: int)
    requires i < |s|
    ensures Drained(s, SetValue(s, i, v))
    ensures SetValue(s, i, v)[i].value == v && SetValue(s, i, v)[i].Pending() == s[i].Pending()
  {
    var t := SetValue(s, i, v);
    assert t == s[i := s[i].(value := v)];
    forall k | 0 <= k < |s|
      ensures DrainedReg(s[k], t[k])
    {
      assert t[k].Pending() == s[k].Pending();
      assert s[k].Pending()[|s[k].Pending()| - |t[k].Pending()|..] == s[k].Pending();
    }
  }

  /** Consumes the first pending instruction of one register. */
  function PopAt(s: Store, i: nat): (t: Store)
    requires i < |s| && s[i].Pending() != []
    ensures |t| == |s| && Count(t) == Count(s) - 1
  {
    var t := s[i := s[i].Pop()];
    CountUpdate(s, i, t[i]);
    t
  }

  lemma PopAtDrains(s: Store, i: nat)
    requires i < |s| && s[i].Pending() != []
    ensures Drained(s, PopAt(s, i))
    ensures PopAt(s, i)[i].Pending() == s[i].Pending()[1..] && PopAt(s, i)[i].value == s[i].value
  {
  }

  /**
   `Register.evaluate` on register `i` (calculator.py:58-76): returns the
   store afterwards and the value returned. The receiver's pending list is
   empty on return and the value returned is its value; nothing is created
   or refilled, so the pending count never grows.

   For a register operand the receiver's value is read BEFORE the recursive
   evaluation (the argument order of calculator.py:71) and the result is
   written over whatever the recursion left in the receiver.
   */
  function Evaluate(s: Store, i: nat): (res: (Store, int))
    requires i < |s|
    ensures |res.0| == |s|
    ensures Count(res.0) <= Count(s)
    ensures res.0[i].Pending() == []
    ensures res.1 == res.0[i].value
    ensures s[i].Pending() == [] ==> res == (s, s[i].value)
    decreases Count(s)
  {
    if s[i].Pending() == [] then (s, s[i].value)
    else
      var inst := s[i].Pending()[0];
      var s1 := PopAt(s, i);
      if IsDecimal(inst.operand) then
        Evaluate(SetValue(s1, i, Calculate(s1[i].value, inst.operation, DecimalValue(inst.operand))), i)
      else
        match Find(s1, inst.operand)
        case None => Evaluate(s1, i)
        case Some(j) =>
          var stale := s1[i].value;
          var inner := Evaluate(s1, j);
          Evaluate(SetValue(inner.0, i, Calculate(stale, inst.operation, inner.1)), i)
  }

  /**
   Evaluation only drains: every register keeps its name and its aliasing,
   its pending list afterwards is a tail of the one before, a definition
   that is not aliased is untouched, and no register is created.
   */
  lemma {:induction false} EvaluateDrains(s: Store, i: nat)
    requires i < |s|
    ensures Drained(s, Evaluate(s, i).0)
    decreases Count(s)
  {
    if s[i].Pending() != [] {
      var inst := s[i].Pending()[0];
      var s1 := PopAt(s, i);
      PopAtDrains(s, i);
      if IsDecimal(inst.operand) {
        var s2 := SetValue(s1, i, Calculate(s1[i].value, inst.operation, DecimalValue(inst.operand)));
        SetValueDrains(s1, i, Calculate(s1[i].value, inst.operation, DecimalValue(inst.operand)));
        EvaluateDrains(s2, i);
        DrainedTrans(s, s1, s2);
        DrainedTrans(s, s2, Evaluate(s2, i).0);
      } else {
        match Find(s1, inst.operand)
        case None =>
          EvaluateDrains(s1, i);
          DrainedTrans(s, s1, Evaluate(s1, i).0);
        case Some(j) =>
          var inner := Evaluate(s1, j);
          var s3 := SetValue(inner.0, i, Calculate(s1[i].value, inst.operation, inner.1));
          SetValueDrains(inner.0, i, Calculate(s1[i].value, inst.operation, inner.1));
          EvaluateDrains(s1, j);
          EvaluateDrains(s3, i);
          DrainedTrans(s, s1, inner.0);
          DrainedTrans(s, inner.0, s3);
          DrainedTrans(s, s3, Evaluate(s3, i).0);
      }
    }
  }

  /**
   Every register a pass reaches is drained for good: each `evaluate` runs
   its own loop until its list is empty (calculator.py:58), so a register
   other than the receiver is either untouched or has nothing left pending.
   */
  lemma {:induction false} EvaluateAllOrNothing(s: Store, i: nat)
    requires i < |s|
    ensures forall k :: 0 <= k < |s| && k != i ==>
              Evaluate(s, i).0[k] == s[k] || Evaluate(s, i).0[k].Pending() == []
    decreases Count(s)
  {
    if s[i].Pending() != [] {
      var inst := s[i].Pending()[0];
      var s1 := PopAt(s, i);
      assert forall k :: 0 <= k < |s| && k != i ==> s1[k] == s[k];
      if IsDecimal(inst.operand) {
        var s2 := SetValue(s1, i, Calculate(s1[i].value, inst.operation, DecimalValue(inst.operand)));
        assert forall k :: 0 <= k < |s| && k != i ==> s2[k] == s[k];
        EvaluateAllOrNothing(s2, i);
      } else {
        match Find(s1, inst.operand)
        case None =>
          EvaluateAllOrNothing(s1, i);
        case Some(j) =>
          var inner := Evaluate(s1, j);
          EvaluateAllOrNothing(s1, j);
          assert forall k :: 0 <= k < |s| && k != i ==> inner.0[k] == s[k] || inner.0[k].Pending() == [];
          var s3 := SetValue(inner.0, i, Calculate(s1[i].value, inst.operation, inner.1));
          assert forall k :: 0 <= k < |s| && k != i ==> s3[k] == inner.0[k];
          EvaluateAllOrNothing(s3, i);
      }
    }
  }

  /**
   `print_register` (calculator.py:107-112): an unknown name is reported
   and changes nothing; a known one resets every register and is then
   evaluated. Through the alias the printed register's definition is
   consumed for good, and every register is left aliased.
   */
  function PrintRegister(s: Store, name: string): (res: (Store, Option<int>))
    ensures Find(s, name).None? ==> res == (s, None)
    ensures Find(s, name).Some? ==>
              && Drained(ResetAll(s), res.0)
              && res.1 == Some(res.0[Find(s, name).value].value)
              && res.0[Find(s, name).value].all == []
              && AllAliased(res.0)
  {
    match Find(s, name)
    case None => (s, None)
    case Some(j) =>
      var inner := Evaluate(ResetAll(s), j);
      EvaluateDrains(ResetAll(s), j);
      (inner.0, Some(inner.1))
  }

  /**
   A print consumes for good the definition of every register it reaches;
   each of the others is left exactly as the reset made it.
   */
  lemma PrintAllOrNothing(s: Store, name: string)
    requires Find(s, name).Some?
    ensures forall k :: 0 <= k < |s| ==>
              PrintRegister(s, name).0[k] == ResetAll(s)[k] || PrintRegister(s, name).0[k].all == []
  {
    var j := Find(s, name).value;
    EvaluateDrains(ResetAll(s), j);
    EvaluateAllOrNothing(ResetAll(s), j);
  }
}
