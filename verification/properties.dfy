/**
 Properties of the evaluation engine that relate several calls: the FIFO
 fold of a register whose operands reach no other register, the stale read
 of a self-referencing operand, and what repeated printing does.
 */
module Properties {

  import opened Optional
  import opened Arithmetic
  import opened Store
  import opened Engine

  /**
   Reference semantics of a queue whose operands are all local: the
   left-to-right fold of `Calculate` in FIFO order, in which an operand
   that is not a literal contributes nothing.
   */
  function Fold(acc: int, q: seq<Instr>): int
    decreases |q|
  {
    if q == [] then acc
    else
      var acc' := if IsDecimal(q[0].operand)
                  then Calculate(acc, q[0].operation, DecimalValue(q[0].operand))
                  else acc;
      Fold(acc', q[1..])
  }

  /** Every operand of `q` is a literal or names no register of `s`. */
  predicate LocalOperands(s: Store, q: seq<Instr>)
  {
    forall k :: 0 <= k < |q| && !IsDecimal(q[k].operand) ==> Find(s, q[k].operand).None?
  }

  /** A register whose pending list has been run to the end. */
  function Emptied(r: Register): (r': Register)
    ensures r'.Pending() == [] && r'.name == r.name && r'.value == r.value
  {
    match r.active
    case AliasOfAll => r.(all := [])
    case Detached(_) => r.(active := Detached([]))
  }

  /**
   Evaluating a register whose pending operands are literals or unknown
   names yields the FIFO fold of its pending list from its current value
   (calculator.py:58-65): a missing register operand is skipped and
   evaluation continues (calculator.py:73-74), and no register other than
   the receiver changes.
   */
  lemma {:induction false} LocalFold(s: Store, i: nat)
    requires i < |s|
    requires LocalOperands(s, s[i].Pending())
    ensures Evaluate(s, i).1 == Fold(s[i].value, s[i].Pending())
    ensures Evaluate(s, i).0 == s[i := Emptied(s[i]).(value := Fold(s[i].value, s[i].Pending()))]
    decreases |s[i].Pending()|
  {
    var q := s[i].Pending();
    if q == [] {
      assert Emptied(s[i]) == s[i];
    } else {
      var inst := q[0];
      var v := if IsDecimal(inst.operand)
               then Calculate(s[i].value, inst.operation, DecimalValue(inst.operand))
               else s[i].value;
      var t := s[i := s[i].Pop().(value := v)];
      assert Evaluate(s, i) == Evaluate(t, i) by {
        if IsDecimal(inst.operand) {
          LiteralStep(s, i);
          assert SetValue(PopAt(s, i), i, v) == t;
        } else {
          assert Find(s, inst.operand).None?;
          MissingStep(s, i);
          assert PopAt(s, i) == t;
        }
      }
      assert SameNames(s, t);
      assert t[i].Pending() == q[1..];
      LocalOperandsTail(s, t, q);
      LocalFold(t, i);
      assert Fold(s[i].value, q) == Fold(v, q[1..]);
      EmptiedAfterStep(s, t, i, Fold(v, q[1..]));
    }
  }

  /** The tail of a local queue is local in a store with the same names. */
  lemma LocalOperandsTail(s: Store, t: Store, q: seq<Instr>)
    requires SameNames(s, t) && q != [] && LocalOperands(s, q)
    ensures LocalOperands(t, q[1..])
  {
    forall k | 0 <= k < |q[1..]| && !IsDecimal(q[1..][k].operand)
      ensures Find(t, q[1..][k].operand).None?
    {
      assert q[1..][k] == q[k + 1];
      FindSameNames(s, t, q[k + 1].operand);
    }
  }

  /** After one step, emptying the receiver gives what emptying it at the start gives. */
  lemma EmptiedAfterStep(s: Store, t: Store, i: nat, v: int)
    requires i < |s| && |t| == |s| && s[i].Pending() != []
    requires t[i].Pending() == s[i].Pending()[1..]
    requires t[i].name == s[i].name && t[i].active.AliasOfAll? == s[i].active.AliasOfAll?
    requires s[i].active.Detached? ==> t[i].all == s[i].all
    requires forall k :: 0 <= k < |s| && k != i ==> t[k] == s[k]
    ensures t[i := Emptied(t[i]).(value := v)] == s[i := Emptied(s[i]).(value := v)]
  {
    assert Emptied(t[i]).(value := v) == Emptied(s[i]).(value := v);
  }

  /**
   One step on a register operand that names no register
   (calculator.py:69-74): the instruction is popped and skipped, the value
   is unchanged, and the loop goes on.
   */
  lemma MissingStep(s: Store, i: nat)
    requires i < |s| && s[i].Pending() != []
    requires !IsDecimal(s[i].Pending()[0].operand) && Find(s, s[i].Pending()[0].operand).None?
    ensures Evaluate(s, i) == Evaluate(PopAt(s, i), i)
  {
    PopAtDrains(s, i);
    DrainedSameNames(s, PopAt(s, i));
    FindSameNames(s, PopAt(s, i), s[i].Pending()[0].operand);
  }

  /**
   One step on a literal head instruction (calculator.py:64-65): it is
   popped, folded into the value, and the loop goes on.
   */
  lemma LiteralStep(s: Store, i: nat)
    requires i < |s| && s[i].Pending() != [] && IsDecimal(s[i].Pending()[0].operand)
    ensures var inst := s[i].Pending()[0];
            var v := Calculate(s[i].value, inst.operation, DecimalValue(inst.operand));
            Evaluate(s, i) == Evaluate(SetValue(PopAt(s, i), i, v), i)
  {
  }

  /**
   The stale read (calculator.py:71) for any register operand: the
   receiver's value is read BEFORE the named register is evaluated, and the
   combination is written over whatever that evaluation left in the
   receiver; then the receiver's loop goes on.
   */
  lemma StaleRead(s: Store, i: nat, j: nat)
    requires i < |s| && s[i].Pending() != []
    requires !IsDecimal(s[i].Pending()[0].operand) && Find(s, s[i].Pending()[0].operand) == Some(j)
    ensures j < |PopAt(s, i)|
    ensures var inner := Evaluate(PopAt(s, i), j);
            var op := s[i].Pending()[0].operation;
            Evaluate(s, i) == Evaluate(SetValue(inner.0, i, Calculate(s[i].value, op, inner.1)), i)
  {
    var s1 := PopAt(s, i);
    PopAtDrains(s, i);
    DrainedSameNames(s, s1);
    FindSameNames(s, s1, s[i].Pending()[0].operand);
  }

  /**
   The stale read (calculator.py:71): when a register's next instruction
   names the register itself, its value is read before the recursive call
   runs the rest of its list, and the result of that call is combined with
   the OLD value. Whatever the recursion accumulated in the register is
   overwritten, and nothing is left to run afterwards.
   */
  lemma SelfOperandReadsStaleValue(s: Store, i: nat)
    requires i < |s| && UniqueNames(s)
    requires s[i].Pending() != []
    requires s[i].Pending()[0].operand == s[i].name && !IsDecimal(s[i].name)
    ensures Evaluate(s, i).1
         == Calculate(s[i].value, s[i].Pending()[0].operation, Evaluate(PopAt(s, i), i).1)
    ensures Evaluate(s, i).0[i].value == Evaluate(s, i).1
  {
    FindUnique(s, i);
    StaleRead(s, i, i);
  }

  /**
   A register whose definition starts with itself and continues with local
   operands evaluates to the first operation applied to its old value and
   the fold of the rest: `a: add a, add 1` from 0 gives 0 + (0 + 1) = 1.
   */
  lemma SelfThenLocal(s: Store, i: nat)
    requires i < |s| && UniqueNames(s)
    requires s[i].Pending() != []
    requires s[i].Pending()[0].operand == s[i].name && !IsDecimal(s[i].name)
    requires LocalOperands(s, s[i].Pending()[1..])
    ensures Evaluate(s, i).1
         == Calculate(s[i].value, s[i].Pending()[0].operation, Fold(s[i].value, s[i].Pending()[1..]))
  {
    var s1 := PopAt(s, i);
    PopAtDrains(s, i);
    DrainedSameNames(s, s1);
    SelfOperandReadsStaleValue(s, i);
    var q := s[i].Pending()[1..];
    forall k | 0 <= k < |q| && !IsDecimal(q[k].operand)
      ensures Find(s1, q[k].operand).None?
    {
      FindSameNames(s, s1, q[k].operand);
    }
    LocalFold(s1, i);
  }

  /**
   Evaluating a register again in the same pass, with no reset in between,
   runs nothing and returns the same value (calculator.py:58, 76).
   */
  lemma EvaluateTwice(s: Store, i: nat)
    requires i < |s|
    ensures Evaluate(Evaluate(s, i).0, i) == Evaluate(s, i)
  {
  }

  /**
   Printing a register twice with nothing added in between returns the
   same value and leaves the same store: the first print left every
   register aliased and the printed register with nothing pending
   (calculator.py:46, 59, 111).
   */
  lemma PrintTwice(s: Store, name: string)
    ensures PrintRegister(PrintRegister(s, name).0, name) == PrintRegister(s, name)
  {
    var p := PrintRegister(s, name);
    match Find(s, name)
    case None =>
    case Some(j) =>
      DrainedSameNames(ResetAll(s), p.0);
      FindSameNames(s, p.0, name);
      ResetAllAliased(p.0);
  }

  /** A print creates no register and renames none, so lookups are unchanged. */
  lemma PrintKeepsFind(s: Store, name: string, other: string)
    ensures Find(PrintRegister(s, name).0, other) == Find(s, other)
  {
    if Find(s, name).Some? {
      DrainedSameNames(ResetAll(s), PrintRegister(s, name).0);
      FindSameNames(s, PrintRegister(s, name).0, other);
    }
  }

  /**
   The value survives a print (calculator.py:34 is its only
   initialisation) while the definition was consumed (calculator.py:46,
   59): after a print, adding one literal instruction and printing again
   applies just that instruction to the value printed before.
   */
  lemma PrintAfterAppend(s: Store, name: string, operation: string, literal: string)
    requires Find(s, name).Some? && IsDecimal(literal)
    ensures PrintRegister(NewInstruction(PrintRegister(s, name).0, name, operation, literal), name).1
         == Some(Calculate(PrintRegister(s, name).1.value, operation, DecimalValue(literal)))
  {
    AppendedAfterPrint(s, name, operation, literal);
    PrintSingleLiteral(NewInstruction(PrintRegister(s, name).0, name, operation, literal),
                       Find(s, name).value, name, operation, literal);
  }

  /** After a print, the printed register's definition is just what is added next. */
  lemma AppendedAfterPrint(s: Store, name: string, operation: string, literal: string)
    requires Find(s, name).Some?
    ensures var p := PrintRegister(s, name);
            var t := NewInstruction(p.0, name, operation, literal);
            && Find(t, name) == Find(s, name)
            && t[Find(s, name).value].all == [Instr(operation, literal)]
            && t[Find(s, name).value].value == p.1.value
  {
    var j := Find(s, name).value;
    var p := PrintRegister(s, name);
    PrintKeepsFind(s, name, name);
    var t := NewInstruction(p.0, name, operation, literal);
    assert p.0[j].all == [];
    FindSameNames(p.0, t, name);
  }

  /** A register defined by one literal prints that literal applied to its value. */
  lemma PrintSingleLiteral(t: Store, j: nat, name: string, operation: string, literal: string)
    requires Find(t, name) == Some(j) && t[j].all == [Instr(operation, literal)] && IsDecimal(literal)
    ensures PrintRegister(t, name).1 == Some(Calculate(t[j].value, operation, DecimalValue(literal)))
  {
    var r := ResetAll(t);
    assert r[j].Pending() == t[j].all && r[j].value == t[j].value;
    assert LocalOperands(r, r[j].Pending()) by {
      assert IsDecimal(r[j].Pending()[0].operand);
    }
    LocalFold(r, j);
    assert Fold(t[j].value, [Instr(operation, literal)])
        == Calculate(t[j].value, operation, DecimalValue(literal));
  }

}
