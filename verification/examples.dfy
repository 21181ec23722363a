/**
 Concrete runs of the engine on small stores, the way command lines build
 them. Register names are parameters (any names that are not literals), so
 each example holds for every choice of names.
 */
module Examples {

  import opened Optional
  import opened Arithmetic
  import opened Store
  import opened Engine
  import opened Properties

  /** Adding to a register that exists extends that register only. */
  lemma AddToExisting(s: Store, j: nat, name: string, operation: string, operand: string)
    requires j < |s| && Find(s, name) == Some(j)
    ensures NewInstruction(s, name, operation, operand)
         == s[j := s[j].(all := s[j].all + [Instr(operation, operand)])]
  {
  }

  /** Adding to an unknown name appends a fresh register holding the instruction. */
  lemma AddToNew(s: Store, name: string, operation: string, operand: string)
    requires Find(s, name).None?
    ensures NewInstruction(s, name, operation, operand)
         == s + [Register(name, [Instr(operation, operand)], Detached([]), 0)]
  {
    assert [] + [Instr(operation, operand)] == [Instr(operation, operand)];
  }

  /** The store that `x add 5`, `x multiply 3`, `x subtract 2` build from nothing. */
  lemma BuildFifo(x: string)
    ensures NewInstruction(NewInstruction(NewInstruction([], x, "add", "5"),
              x, "multiply", "3"), x, "subtract", "2")
         == [Register(x, [Instr("add", "5"), Instr("multiply", "3"), Instr("subtract", "2")], Detached([]), 0)]
  {
    var a, m, b := Instr("add", "5"), Instr("multiply", "3"), Instr("subtract", "2");
    AddToNew([], x, "add", "5");
    var s1 := [Register(x, [a], Detached([]), 0)];
    AddToExisting(s1, 0, x, "multiply", "3");
    assert [a] + [m] == [a, m];
    var s2 := [Register(x, [a, m], Detached([]), 0)];
    AddToExisting(s2, 0, x, "subtract", "2");
    assert [a, m] + [b] == [a, m, b];
  }

  /** ... and `print x` on it shows ((0 + 5) * 3) - 2. */
  lemma FifoExample(x: string)
    ensures PrintRegister(
              [Register(x, [Instr("add", "5"), Instr("multiply", "3"), Instr("subtract", "2")], Detached([]), 0)],
              x).1
         == Some(13)
  {
    var q := [Instr("add", "5"), Instr("multiply", "3"), Instr("subtract", "2")];
    var s := [Register(x, q, Detached([]), 0)];
    assert Find(s, x) == Some(0);
    var r := ResetAll(s);
    assert r[0].Pending() == q;
    assert IsDecimal("5") && IsDecimal("3") && IsDecimal("2");
    assert LocalOperands(r, q);
    LocalFold(r, 0);
    assert DecimalValue("5") == 5 && DecimalValue("3") == 3 && DecimalValue("2") == 2;
    assert Fold(0, q) == Fold(5, q[1..]) == Fold(15, q[2..]) == Fold(13, []) == 13;
  }

  /**
   `a add a`, `a add 1`, `print a` shows 1, not 2: the operand `a` reads the
   value 0 held before the rest of the list ran.
   */
  lemma SelfReferenceExample(a: string)
    requires !IsDecimal(a)
    ensures PrintRegister([Register(a, [Instr("add", a), Instr("add", "1")], Detached([]), 0)], a).1
         == Some(1)
  {
    var q := [Instr("add", a), Instr("add", "1")];
    var s := [Register(a, q, Detached([]), 0)];
    assert Find(s, a) == Some(0);
    var r := ResetAll(s);
    assert r[0].Pending() == q && r[0].name == a;
    assert IsDecimal("1") && DecimalValue("1") == 1;
    assert LocalOperands(r, q[1..]);
    SelfThenLocal(r, 0);
    assert Fold(0, q[1..]) == 1;
  }

  /** `b` in `CycleExample` pops `add 1`. */
  lemma CycleInnerFirst(a: string, b: string)
    ensures Evaluate([Register(a, [], AliasOfAll, 1),
                      Register(b, [Instr("add", "1"), Instr("add", a)], AliasOfAll, 0)], 1)
         == Evaluate([Register(a, [], AliasOfAll, 1), Register(b, [Instr("add", a)], AliasOfAll, 1)], 1)
  {
    var u0 := [Register(a, [], AliasOfAll, 1), Register(b, [Instr("add", "1"), Instr("add", a)], AliasOfAll, 0)];
    assert IsDecimal("1") && DecimalValue("1") == 1;
    LiteralStep(u0, 1);
    assert SetValue(PopAt(u0, 1), 1, 1)
        == [Register(a, [], AliasOfAll, 1), Register(b, [Instr("add", a)], AliasOfAll, 1)];
  }

  /** `b` in `CycleExample` pops `add a` and finds `a` with nothing pending and value 1. */
  lemma CycleInnerSecond(a: string, b: string)
    requires a != b && !IsDecimal(a)
    ensures Evaluate([Register(a, [], AliasOfAll, 1), Register(b, [Instr("add", a)], AliasOfAll, 1)], 1)
         == ([Register(a, [], AliasOfAll, 1), Register(b, [], AliasOfAll, 2)], 2)
  {
    var u1 := [Register(a, [], AliasOfAll, 1), Register(b, [Instr("add", a)], AliasOfAll, 1)];
    var w0 := [Register(a, [], AliasOfAll, 1), Register(b, [], AliasOfAll, 1)];
    var w1 := [Register(a, [], AliasOfAll, 1), Register(b, [], AliasOfAll, 2)];
    assert PopAt(u1, 1) == w0;
    assert Find(u1, a) == Some(0);
    StaleRead(u1, 1, 0);
    assert SetValue(w0, 1, 2) == w1;
  }

  /** First step of `a` in `CycleExample`: `add 1` on the value 0. */
  lemma CycleFirstStep(a: string, b: string)
    ensures Evaluate([Register(a, [Instr("add", "1"), Instr("add", b)], AliasOfAll, 0),
                      Register(b, [Instr("add", "1"), Instr("add", a)], AliasOfAll, 0)], 0)
         == Evaluate([Register(a, [Instr("add", b)], AliasOfAll, 1),
                      Register(b, [Instr("add", "1"), Instr("add", a)], AliasOfAll, 0)], 0)
  {
    var r0 := [Register(a, [Instr("add", "1"), Instr("add", b)], AliasOfAll, 0),
               Register(b, [Instr("add", "1"), Instr("add", a)], AliasOfAll, 0)];
    assert IsDecimal("1") && DecimalValue("1") == 1;
    LiteralStep(r0, 0);
    assert SetValue(PopAt(r0, 0), 0, 1)
        == [Register(a, [Instr("add", b)], AliasOfAll, 1),
            Register(b, [Instr("add", "1"), Instr("add", a)], AliasOfAll, 0)];
  }

  /** Second step of `a` in `CycleExample`: `add b` with `a` at 1 runs `b`, which returns 2. */
  lemma CycleSecondStep(a: string, b: string)
    requires a != b && !IsDecimal(a) && !IsDecimal(b)
    ensures Evaluate([Register(a, [Instr("add", b)], AliasOfAll, 1),
                      Register(b, [Instr("add", "1"), Instr("add", a)], AliasOfAll, 0)], 0).1
         == 3
  {
    var ib1, iba := Instr("add", "1"), Instr("add", a);
    var r1 := [Register(a, [Instr("add", b)], AliasOfAll, 1), Register(b, [ib1, iba], AliasOfAll, 0)];
    var u0 := [Register(a, [], AliasOfAll, 1), Register(b, [ib1, iba], AliasOfAll, 0)];
    var w1 := [Register(a, [], AliasOfAll, 1), Register(b, [], AliasOfAll, 2)];
    var v := [Register(a, [], AliasOfAll, 3), Register(b, [], AliasOfAll, 2)];
    assert PopAt(r1, 0) == u0;
    assert Find(r1, b) == Some(1);
    StaleRead(r1, 0, 1);
    CycleInnerFirst(a, b);
    CycleInnerSecond(a, b);
    assert SetValue(w1, 0, 3) == v;
  }

  /**
   `a add 1`, `a add b`, `b add 1`, `b add a`, `print a` terminates and
   shows 3: `b` sees `a` part way through, with value 1 and nothing left
   to run, so `b` becomes 2 and `a` becomes 1 + 2.
   */
  lemma CycleExample(a: string, b: string)
    requires a != b && !IsDecimal(a) && !IsDecimal(b)
    ensures PrintRegister([Register(a, [Instr("add", "1"), Instr("add", b)], Detached([]), 0),
                           Register(b, [Instr("add", "1"), Instr("add", a)], Detached([]), 0)], a).1
         == Some(3)
  {
    var ia1, iab, ib1, iba := Instr("add", "1"), Instr("add", b), Instr("add", "1"), Instr("add", a);
    var s := [Register(a, [ia1, iab], Detached([]), 0), Register(b, [ib1, iba], Detached([]), 0)];
    assert Find(s, a) == Some(0);
    assert ResetAll(s) == [Register(a, [ia1, iab], AliasOfAll, 0), Register(b, [ib1, iba], AliasOfAll, 0)];
    CycleFirstStep(a, b);
    CycleSecondStep(a, b);
  }

  /**
   `a add z` with no register `z`, `print a` shows 0: the instruction is
   skipped and no register `z` is created.
   */
  lemma MissingRegisterExample(a: string, z: string)
    requires a != z && !IsDecimal(z)
    ensures PrintRegister([Register(a, [Instr("add", z)], Detached([]), 0)], a).1 == Some(0)
    ensures |PrintRegister([Register(a, [Instr("add", z)], Detached([]), 0)], a).0| == 1
  {
    var q := [Instr("add", z)];
    var s := [Register(a, q, Detached([]), 0)];
    assert Find(s, a) == Some(0);
    var r := ResetAll(s);
    assert r[0].Pending() == q;
    assert Find(r, z).None?;
    assert LocalOperands(r, q);
    LocalFold(r, 0);
  }

  /** Inside `CompositionExample`: `a` runs its one literal instruction. */
  lemma CompositionInner(a: string, b: string)
    ensures Evaluate([Register(a, [Instr("add", "5")], AliasOfAll, 0), Register(b, [], AliasOfAll, 0)], 0)
         == ([Register(a, [], AliasOfAll, 5), Register(b, [], AliasOfAll, 0)], 5)
  {
    var u := [Register(a, [Instr("add", "5")], AliasOfAll, 0), Register(b, [], AliasOfAll, 0)];
    assert IsDecimal("5") && DecimalValue("5") == 5;
    assert u[0].Pending() == [Instr("add", "5")] && LocalOperands(u, [Instr("add", "5")]);
    LocalFold(u, 0);
    assert Fold(0, [Instr("add", "5")]) == 5;
    assert Emptied(u[0]) == Register(a, [], AliasOfAll, 0);
    assert u[0 := Register(a, [], AliasOfAll, 5)] == [Register(a, [], AliasOfAll, 5), Register(b, [], AliasOfAll, 0)];
  }

  /** Inside `CompositionExample`: `b` reads 0, runs `a`, and ends at 0 + 5. */
  lemma CompositionOuter(a: string, b: string)
    requires a != b && !IsDecimal(a)
    ensures Evaluate([Register(a, [Instr("add", "5")], AliasOfAll, 0), Register(b, [Instr("add", a)], AliasOfAll, 0)], 1)
         == ([Register(a, [], AliasOfAll, 5), Register(b, [], AliasOfAll, 5)], 5)
  {
    var r := [Register(a, [Instr("add", "5")], AliasOfAll, 0), Register(b, [Instr("add", a)], AliasOfAll, 0)];
    var u := [Register(a, [Instr("add", "5")], AliasOfAll, 0), Register(b, [], AliasOfAll, 0)];
    var w := [Register(a, [], AliasOfAll, 5), Register(b, [], AliasOfAll, 0)];
    var v := [Register(a, [], AliasOfAll, 5), Register(b, [], AliasOfAll, 5)];
    assert Evaluate(r, 1) == Evaluate(SetValue(w, 1, 5), 1) by {
      assert Find(r, a) == Some(0);
      StaleRead(r, 1, 0);
      assert PopAt(r, 1) == u;
      CompositionInner(a, b);
    }
    assert SetValue(w, 1, 5) == v;
  }

  /**
   `a add 5`, `b add a`, `print b` shows 5; evaluating `a` afterwards in
   the same pass also gives 5, since `b` consumed `a`'s list.
   */
  lemma CompositionExample(a: string, b: string)
    requires a != b && !IsDecimal(a)
    ensures PrintRegister([Register(a, [Instr("add", "5")], Detached([]), 0),
                           Register(b, [Instr("add", a)], Detached([]), 0)], b).1 == Some(5)
    ensures Evaluate(PrintRegister([Register(a, [Instr("add", "5")], Detached([]), 0),
                                    Register(b, [Instr("add", a)], Detached([]), 0)], b).0, 0).1 == 5
  {
    var ia, ib := Instr("add", "5"), Instr("add", a);
    var s := [Register(a, [ia], Detached([]), 0), Register(b, [ib], Detached([]), 0)];
    assert Find(s, b) == Some(1);
    assert ResetAll(s) == [Register(a, [ia], AliasOfAll, 0), Register(b, [ib], AliasOfAll, 0)];
    CompositionOuter(a, b);
  }
}
