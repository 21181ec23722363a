/**
 A print that re-evaluates every definition from scratch: the reset copies
 each register's instruction list instead of aliasing it, and restarts its
 value at 0. The evaluation engine is unchanged; only the reset differs.
 This is the behaviour the reset's own documentation asks for ("all
 instructions must be evaluated again", calculator.py:43).
 */
module Corrected {

  import opened Optional
  import opened Store
  import opened Engine

  /** What the commands defined: each register's name and instruction list, in store order. */
  function Definitions(s: Store): (d: seq<(string, seq<Instr>)>)
    ensures |d| == |s|
    ensures forall k :: 0 <= k < |s| ==> d[k] == (s[k].name, s[k].all)
  {
    seq(|s|, k requires 0 <= k < |s| => (s[k].name, s[k].all))
  }

  lemma DefinitionsSameNames(s: Store, t: Store)
    requires Definitions(s) == Definitions(t)
    ensures SameNames(s, t)
  {
    forall k | 0 <= k < |s|
      ensures s[k].name == t[k].name
    {
      assert Definitions(s)[k] == Definitions(t)[k];
    }
  }

  /**
   The corrected reset: every register gets a pending list of its own, equal
   to its whole definition, and a value of 0.
   */
  function ResetFresh(s: Store): (t: Store)
    ensures SameNames(s, t)
    ensures forall k :: 0 <= k < |s| ==>
              && t[k].Pending() == s[k].all && t[k].all == s[k].all
              && t[k].value == 0 && t[k].active.Detached?
  {
    seq(|s|, k requires 0 <= k < |s| => s[k].(active := Detached(s[k].all), value := 0))
  }

  /** The corrected reset reads nothing but the definitions. */
  lemma ResetFreshDefinitions(s: Store, t: Store)
    requires Definitions(s) == Definitions(t)
    ensures ResetFresh(s) == ResetFresh(t)
  {
    DefinitionsSameNames(s, t);
    forall k | 0 <= k < |s|
      ensures ResetFresh(s)[k] == ResetFresh(t)[k]
    {
      assert Definitions(s)[k] == Definitions(t)[k];
    }
  }

  /**
   The corrected `print_register`: an unknown name changes nothing; a known
   one is evaluated after the corrected reset, and the definitions survive
   the evaluation.
   */
  function PrintFresh(s: Store, name: string): (res: (Store, Option<int>))
    ensures Find(s, name).None? ==> res == (s, None)
    ensures Find(s, name).Some? ==> res.1.Some? && Definitions(res.0) == Definitions(s)
  {
    match Find(s, name)
    case None => (s, None)
    case Some(j) =>
      var inner := Evaluate(ResetFresh(s), j);
      EvaluateDrains(ResetFresh(s), j);
      assert Definitions(inner.0) == Definitions(s);
      (inner.0, Some(inner.1))
  }

  /**
   The intended property: what a print shows depends on the definitions
   alone, not on earlier prints.
   */
  lemma PrintFreshDependsOnDefinitions(s: Store, t: Store, name: string)
    requires Definitions(s) == Definitions(t)
    ensures PrintFresh(s, name).1 == PrintFresh(t, name).1
  {
    DefinitionsSameNames(s, t);
    FindSameNames(s, t, name);
    ResetFreshDefinitions(s, t);
  }

  /** In particular, printing twice shows the same value. */
  lemma PrintFreshTwice(s: Store, name: string)
    ensures PrintFresh(PrintFresh(s, name).0, name).1 == PrintFresh(s, name).1
  {
    if Find(s, name).Some? {
      PrintFreshDependsOnDefinitions(PrintFresh(s, name).0, s, name);
    }
  }

  /** Adding the same instruction to stores with the same definitions keeps them equal. */
  lemma NewInstructionDefinitions(s: Store, t: Store, name: string, operation: string, operand: string)
    requires Definitions(s) == Definitions(t)
    ensures Definitions(NewInstruction(s, name, operation, operand))
         == Definitions(NewInstruction(t, name, operation, operand))
  {
    DefinitionsSameNames(s, t);
    FindSameNames(s, t, name);
    var s', t' := NewInstruction(s, name, operation, operand), NewInstruction(t, name, operation, operand);
    forall k | 0 <= k < |s'|
      ensures Definitions(s')[k] == Definitions(t')[k]
    {
      if k < |s| {
        assert Definitions(s)[k] == Definitions(t)[k];
      }
    }
  }
}
