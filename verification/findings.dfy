/**
 A print does not re-evaluate what it prints when a register it depends on
 changed after an earlier print. The reset aliases the pending list to the
 definition, so the earlier print consumed the definitions it ran, and
 `register_value` is never cleared, so what was consumed survives only as
 a number that is no longer recomputed.

 The script
   b add 1 / a add b / print a / b add 1 / print a
 prints 1 twice: the second `print a` finds `a` with nothing to run and
 returns its old value, although `b` now evaluates to 2. Under the reset
 of module `Corrected` the second print shows 2.
 */
module Findings {

  import opened Optional
  import opened Arithmetic
  import opened Store
  import opened Engine
  import opened Properties
  import opened Corrected
  import opened Dispatch

  /**
   As written: once `name` has been printed, adding any instruction to any
   OTHER register, existing or new, leaves what `print name` shows unchanged,
   whatever `name` depends on.
   */
  lemma AppendElsewhereUnseen(s: Store, name: string, other: string, operation: string, operand: string)
    requires Find(s, name).Some? && other != name
    ensures PrintRegister(NewInstruction(PrintRegister(s, name).0, other, operation, operand), name).1
         == PrintRegister(s, name).1
  {
    var j := Find(s, name).value;
    var p := PrintRegister(s, name);
    PrintKeepsFind(s, name, name);
    NewInstructionElsewhere(p.0, j, name, other, operation, operand);
    var t := NewInstruction(p.0, other, operation, operand);
    assert ResetAll(t)[j].Pending() == [];
  }

  /**
   A two-register store in which register 1 is defined as `add b` and
   register 0 is `b`, with local operands only: evaluating register 1 from
   0 runs `b` first and takes its fold.
   */
  lemma ReadsOther(r: Store, b: string)
    requires |r| == 2 && r[0].name == b && r[1].name != b && !IsDecimal(b)
    requires r[1].Pending() == [Instr("add", b)] && r[1].value == 0
    requires LocalOperands(r, r[0].Pending())
    ensures Evaluate(r, 1).1 == Fold(r[0].value, r[0].Pending())
  {
    var u := PopAt(r, 1);
    assert Evaluate(r, 1) == Evaluate(SetValue(Evaluate(u, 0).0, 1, Calculate(0, "add", Evaluate(u, 0).1)), 1) by {
      assert Find(r, b) == Some(0);
      StaleRead(r, 1, 0);
    }
    assert u[0] == r[0] && u[1].Pending() == [] by {
      PopAtDrains(r, 1);
    }
    assert LocalOperands(u, u[0].Pending()) by {
      PopAtDrains(r, 1);
      DrainedSameNames(r, u);
      forall k | 0 <= k < |u[0].Pending()| && !IsDecimal(u[0].Pending()[k].operand)
        ensures Find(u, u[0].Pending()[k].operand).None?
      {
        FindSameNames(r, u, u[0].Pending()[k].operand);
      }
    }
    LocalFold(u, 0);
    assert Evaluate(u, 0).0[1].Pending() == [];
  }

  /** The store the first two lines of the script build. */
  function Script(a: string, b: string): Store
  {
    [Register(b, [Instr("add", "1")], Detached([]), 0), Register(a, [Instr("add", b)], Detached([]), 0)]
  }

  /** `add 1` alone, folded from 0, gives 1. */
  lemma FoldOne()
    ensures IsDecimal("1") && Fold(0, [Instr("add", "1")]) == 1
  {
    assert IsDecimal("1") && DecimalValue("1") == 1;
  }

  /**
   As written, the script shows 1 at both prints, although `b` was
   extended in between and `a` is defined as `b`.
   */
  lemma StaleDefinitionAsWritten(a: string, b: string)
    requires a != b && !IsDecimal(b)
    ensures PrintRegister(Script(a, b), a).1 == Some(1)
    ensures PrintRegister(NewInstruction(PrintRegister(Script(a, b), a).0, b, "add", "1"), a).1 == Some(1)
  {
    var s := Script(a, b);
    assert Find(s, a) == Some(1);
    var r := ResetAll(s);
    FoldOne();
    assert r[0].Pending() == [Instr("add", "1")] && LocalOperands(r, r[0].Pending());
    ReadsOther(r, b);
    AppendElsewhereUnseen(s, a, b, "add", "1");
  }

  /** The script's definitions once `b add 1` has been added a second time. */
  lemma ExtendedScript(a: string, b: string)
    requires a != b
    ensures NewInstruction(Script(a, b), b, "add", "1")
         == [Register(b, [Instr("add", "1"), Instr("add", "1")], Detached([]), 0),
             Register(a, [Instr("add", b)], Detached([]), 0)]
  {
    assert Find(Script(a, b), b) == Some(0);
    assert [Instr("add", "1")] + [Instr("add", "1")] == [Instr("add", "1"), Instr("add", "1")];
  }

  /** Corrected, the first `print a` of the script shows 1. */
  lemma FirstPrintFresh(a: string, b: string)
    requires a != b && !IsDecimal(b)
    ensures PrintFresh(Script(a, b), a).1 == Some(1)
  {
    var s := Script(a, b);
    assert Find(s, a) == Some(1);
    var r := ResetFresh(s);
    FoldOne();
    assert r[0].Pending() == [Instr("add", "1")] && LocalOperands(r, r[0].Pending());
    ReadsOther(r, b);
  }

  /** Corrected, the second `print a` runs both of `b`'s instructions and shows 2. */
  lemma SecondPrintFresh(a: string, b: string)
    requires a != b && !IsDecimal(b)
    ensures PrintFresh(NewInstruction(Script(a, b), b, "add", "1"), a).1 == Some(2)
  {
    var q := [Instr("add", "1"), Instr("add", "1")];
    ExtendedScript(a, b);
    var s := NewInstruction(Script(a, b), b, "add", "1");
    assert Find(s, a) == Some(1);
    var r := ResetFresh(s);
    FoldOne();
    assert r[0].Pending() == q && LocalOperands(r, q);
    ReadsOther(r, b);
    assert Fold(0, q) == Fold(1, q[1..]) == 2;
  }

  /** Corrected: the same script shows 1 and then 2. */
  lemma StaleDefinitionCorrected(a: string, b: string)
    requires a != b && !IsDecimal(b)
    ensures PrintFresh(Script(a, b), a).1 == Some(1)
    ensures PrintFresh(NewInstruction(PrintFresh(Script(a, b), a).0, b, "add", "1"), a).1 == Some(2)
  {
    var s := Script(a, b);
    assert Find(s, a) == Some(1);
    FirstPrintFresh(a, b);
    NewInstructionDefinitions(PrintFresh(s, a).0, s, b, "add", "1");
    PrintFreshDependsOnDefinitions(NewInstruction(PrintFresh(s, a).0, b, "add", "1"), NewInstruction(s, b, "add", "1"), a);
    SecondPrintFresh(a, b);
  }

  /** The first two lines of the script, run from an empty store, build `Script`. */
  lemma ScriptBuilds(a: string, b: string)
    requires a != b
    ensures NewInstruction(NewInstruction([], b, "add", "1"), a, "add", b) == Script(a, b)
  {
    var s1 := [Register(b, [Instr("add", "1")], Detached([]), 0)];
    assert [] + [Instr("add", "1")] == [Instr("add", "1")];
    assert NewInstruction([], b, "add", "1") == s1;
    assert Find(s1, a).None?;
    assert [] + [Instr("add", b)] == [Instr("add", b)];
  }

  /** The value the second `print a` of the script shows under each reset. */
  function SecondPrint(mode: ResetMode): int
  {
    match mode
    case AsWritten => 1
    case Reevaluating => 2
  }

  /** The values both prints of the script show under each reset. */
  lemma ScriptValues(mode: ResetMode, a: string, b: string)
    requires a != b && !IsDecimal(b)
    ensures PrintWith(mode, Script(a, b), a).1 == Some(1)
    ensures PrintWith(mode, NewInstruction(PrintWith(mode, Script(a, b), a).0, b, "add", "1"), a).1
         == Some(SecondPrint(mode))
  {
    match mode
    case AsWritten => StaleDefinitionAsWritten(a, b);
    case Reevaluating => StaleDefinitionCorrected(a, b);
  }

  /** Taking a list of lines apart from the front. */
  lemma Uncons2<T>(x: T, y: T, rest: seq<T>)
    ensures ([x, y] + rest)[0] == x && ([x, y] + rest)[1..] == [y] + rest
    ensures ([y] + rest)[0] == y && ([y] + rest)[1..] == rest
    ensures [x] + ([y] + rest) == [x, y] + rest
  {
  }

  lemma TwoThenThree<T>(x1: T, x2: T, x3: T, x4: T, x5: T)
    ensures [x1, x2] + [x3, x4, x5] == [x1, x2, x3, x4, x5]
  {
  }

  /** Two adds, in order, then the rest of the lines. */
  lemma RunTwoAdds(mode: ResetMode, s: Store, first: seq<string>, second: seq<string>, rest: seq<seq<string>>)
    requires |first| == 3 && first[1] in Operations && |second| == 3 && second[1] in Operations
    ensures var s1 := NewInstruction(s, first[0], first[1], first[2]);
            var s2 := NewInstruction(s1, second[0], second[1], second[2]);
            Run(mode, s, [first, second] + rest).1 == [Added, Added] + Run(mode, s2, rest).1
  {
    var s1 := NewInstruction(s, first[0], first[1], first[2]);
    var s2 := NewInstruction(s1, second[0], second[1], second[2]);
    Uncons2(first, second, rest);
    ExecuteAdd(mode, s, first);
    ExecuteAdd(mode, s1, second);
    var tail := Run(mode, s2, rest);
    assert Run(mode, s1, [second] + rest) == (tail.0, [Added] + tail.1);
    Uncons2(Added, Added, tail.1);
  }

  /** One line that does not end the program. */
  lemma RunOne(mode: ResetMode, s: Store, l1: seq<string>)
    requires |l1| >= 2
    ensures Run(mode, s, [l1]).1 == [ExecuteLine(mode, s, l1).1]
  {
    RunStep(mode, s, [l1]);
    assert [l1][1..] == [];
  }

  /** Two lines neither of which ends the program. */
  lemma RunTwo(mode: ResetMode, s: Store, l1: seq<string>, l2: seq<string>)
    requires |l1| >= 2 && |l2| >= 2
    ensures var e1 := ExecuteLine(mode, s, l1);
            Run(mode, s, [l1, l2]).1 == [e1.1, ExecuteLine(mode, e1.0, l2).1]
  {
    RunStep(mode, s, [l1, l2]);
    assert [l1, l2][1..] == [l2];
    RunOne(mode, ExecuteLine(mode, s, l1).0, l2);
  }

  /** Three lines none of which ends the program: their outcomes in order. */
  lemma RunThree(mode: ResetMode, s: Store, l1: seq<string>, l2: seq<string>, l3: seq<string>)
    requires |l1| >= 2 && |l2| >= 2 && |l3| >= 2
    ensures var e1 := ExecuteLine(mode, s, l1);
            var e2 := ExecuteLine(mode, e1.0, l2);
            var e3 := ExecuteLine(mode, e2.0, l3);
            Run(mode, s, [l1, l2, l3]).1 == [e1.1, e2.1, e3.1]
  {
    RunStep(mode, s, [l1, l2, l3]);
    assert [l1, l2, l3][1..] == [l2, l3];
    RunTwo(mode, ExecuteLine(mode, s, l1).0, l2, l3);
  }

  /** One line that does not end the program, then the rest. */
  lemma RunStep(mode: ResetMode, s: Store, lines: seq<seq<string>>)
    requires lines != [] && |lines[0]| >= 2
    ensures var e := ExecuteLine(mode, s, lines[0]);
            Run(mode, s, lines).1 == [e.1] + Run(mode, e.0, lines[1..]).1
  {
  }

  /** A print line of a known register. */
  lemma ExecutePrint(mode: ResetMode, s: Store, name: string)
    requires Find(s, name).Some?
    ensures ExecuteLine(mode, s, ["print", name]) == (PrintWith(mode, s, name).0, Printed(PrintWith(mode, s, name).1.value))
  {
  }

  /** An add line. */
  lemma ExecuteAdd(mode: ResetMode, s: Store, line: seq<string>)
    requires |line| == 3 && line[1] in Operations
    ensures ExecuteLine(mode, s, line) == (NewInstruction(s, line[0], line[1], line[2]), Added)
  {
  }

  /** A print, an add, and the same print again. */
  lemma RunPrintAddPrint(mode: ResetMode, s: Store, name: string, add: seq<string>)
    requires Find(s, name).Some? && |add| == 3 && add[1] in Operations
    ensures var p := PrintWith(mode, s, name);
            var t := NewInstruction(p.0, add[0], add[1], add[2]);
            Run(mode, s, [["print", name], add, ["print", name]]).1
            == [Printed(p.1.value), Added, Printed(PrintWith(mode, t, name).1.value)]
  {
    var p := PrintWith(mode, s, name);
    var t := NewInstruction(p.0, add[0], add[1], add[2]);
    FindSameNames(s, p.0, name);
    assert Find(t, name).Some?;
    ExecutePrint(mode, s, name);
    ExecuteAdd(mode, p.0, add);
    ExecutePrint(mode, t, name);
    RunThree(mode, s, ["print", name], add, ["print", name]);
  }

  /** The last three lines of the script, run on the store the first two built. */
  lemma ScriptPrints(mode: ResetMode, a: string, b: string)
    requires a != b && !IsDecimal(b)
    ensures Run(mode, Script(a, b), [["print", a], [b, "add", "1"], ["print", a]]).1
         == [Printed(1), Added, Printed(SecondPrint(mode))]
  {
    assert "add" in Operations;
    assert Find(Script(a, b), a).Some?;
    RunPrintAddPrint(mode, Script(a, b), a, [b, "add", "1"]);
    ScriptValues(mode, a, b);
  }

  /** The first two lines of the script, then any others. */
  lemma ScriptAdds(mode: ResetMode, a: string, b: string, tail: seq<seq<string>>)
    requires a != b
    ensures Run(mode, [], [[b, "add", "1"], [a, "add", b]] + tail).1 == [Added, Added] + Run(mode, Script(a, b), tail).1
  {
    assert "add" in Operations;
    RunTwoAdds(mode, [], [b, "add", "1"], [a, "add", b], tail);
    ScriptBuilds(a, b);
  }

  /** The five lines of the script: two adds, then a print, an add and the print again. */
  function ScriptLines(a: string, b: string): seq<seq<string>>
  {
    [[b, "add", "1"], [a, "add", b]] + [["print", a], [b, "add", "1"], ["print", a]]
  }

  /**
   The whole script as `main` runs it, for any two distinct names of which
   the second is not a number (`a` and `b`, say): the outcomes differ only
   in the value the second `print a` shows, 1 as written and 2 when every
   print re-evaluates.
   */
  lemma ScriptRun(mode: ResetMode, a: string, b: string)
    requires a != b && !IsDecimal(b)
    ensures Run(mode, [], ScriptLines(a, b)).1 == [Added, Added, Printed(1), Added, Printed(SecondPrint(mode))]
  {
    ScriptPrints(mode, a, b);
    ScriptAdds(mode, a, b, [["print", a], [b, "add", "1"], ["print", a]]);
    TwoThenThree(Added, Added, Printed(1), Added, Printed(SecondPrint(mode)));
  }

  /** With the names `a` and `b` themselves. */
  lemma ScriptRunAB(mode: ResetMode)
    ensures Run(mode, [], ScriptLines("a", "b")).1 == [Added, Added, Printed(1), Added, Printed(SecondPrint(mode))]
  {
    assert !IsDigit("b"[0]);
    ScriptRun(mode, "a", "b");
  }
}
