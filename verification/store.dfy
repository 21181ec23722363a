/**
 The register store: registers, their two instruction lists, lookup by
 name, find-or-create with an instruction append, and the reset that
 precedes every print.

 A register holds `all_instructions` (its permanent definition) and
 `active_instructions` (what is still to run in the current print). The
 source's reset assigns the first list object to the second, so after a
 reset the two names denote ONE list: popping the pending list shortens
 the definition, and appending to the definition lengthens the pending
 list. `ActiveList` records which of the two situations a register is in.
 */
module Store {

  import opened Optional

  /** One `[operation, value]` pair, stored as the raw strings of the command line. */
  datatype Instr = Instr(operation: string, operand: string)

  /**
   What `active_instructions` refers to: the very list object held in
   `all_instructions`, or a list of its own.
   */
  datatype ActiveList = AliasOfAll | Detached(items: seq<Instr>)

  datatype Register = Register(name: string, all: seq<Instr>, active: ActiveList, value: int)
  {
    /** The instructions still to run in the current print. */
    function Pending(): seq<Instr>
    {
      match active
      case AliasOfAll => all
      case Detached(items) => items
    }

    /**
     Appends to the definition (calculator.py:40). When the pending list is
     an alias of the definition, the instruction is pending at once.
     */
    function AddInstruction(i: Instr): (r: Register)
      ensures r.name == name && r.value == value && r.active.AliasOfAll? == active.AliasOfAll?
      ensures r.all == all + [i]
      ensures r.Pending() == if active.AliasOfAll? then Pending() + [i] else Pending()
    {
      this.(all := all + [i])
    }

    /**
     Makes every instruction of the definition pending again
     (calculator.py:46), by aliasing rather than copying.
     */
    function ResetInstructions(): (r: Register)
      ensures r.name == name && r.all == all && r.value == value
      ensures r.Pending() == all
      ensures r.active.AliasOfAll?
    {
      this.(active := AliasOfAll)
    }

    /**
     Removes the first pending instruction (`pop(0)`, calculator.py:59).
     Through an alias this shortens the definition itself.
     */
    function Pop(): (r: Register)
      requires Pending() != []
      ensures r.name == name && r.value == value && r.active.AliasOfAll? == active.AliasOfAll?
      ensures r.Pending() == Pending()[1..]
      ensures r.all == if active.AliasOfAll? then all[1..] else all
    {
      match active
      case AliasOfAll => this.(all := all[1..])
      case Detached(items) => this.(active := Detached(items[1..]))
    }
  }

  /** A register as the constructor creates it (calculator.py:30-34). */
  function NewRegister(name: string): (r: Register)
    ensures r.name == name && r.all == [] && r.Pending() == [] && r.value == 0
    ensures r.active.Detached?
  {
    Register(name, [], Detached([]), 0)
  }

  /** The set of registers; in the source a set, whose order nothing observes. */
  type Store = seq<Register>

  predicate UniqueNames(s: Store)
  {
    forall a, b :: 0 <= a < b < |s| ==> s[a].name != s[b].name
  }

  predicate SameNames(s: Store, t: Store)
  {
    |s| == |t| && forall k :: 0 <= k < |s| ==> s[k].name == t[k].name
  }

  /**
   The position of a register with the given name, or None
   (`find_register`, calculator.py:84; the same scan is inlined at
   calculator.py:69-70). With unique names the match is the only one.
   */
  function Find(s: Store, name: string): (r: Option<nat>)
    ensures r.None? <==> forall k :: 0 <= k < |s| ==> s[k].name != name
    ensures r.Some? ==> r.value < |s| && s[r.value].name == name
    ensures r.Some? ==> forall k :: 0 <= k < r.value ==> s[k].name != name
  {
    if |s| == 0 then None
    else if s[0].name == name then Some(0)
    else match Find(s[1..], name)
      case None => None
      case Some(j) => Some(j + 1)
  }

  /** The lookup sees names only. */
  lemma FindSameNames(s: Store, t: Store, name: string)
    requires SameNames(s, t)
    ensures Find(s, name) == Find(t, name)
  {
  }

  /** With unique names, the register found is the one with that name. */
  lemma FindUnique(s: Store, k: nat)
    requires UniqueNames(s) && k < |s|
    ensures Find(s, s[k].name) == Some(k)
  {
  }

  /**
   Find-or-create followed by an append (`new_instruction`,
   calculator.py:94-99): a register is created only when none has the
   name, the instruction goes at the end of that one register's
   definition, and every other register is unchanged. An existing register
   keeps its value; if its pending list is the definition itself, the new
   instruction is pending at once (calculator.py:40).
   */
  function NewInstruction(s: Store, name: string, operation: string, operand: string): (t: Store)
    ensures UniqueNames(s) ==> UniqueNames(t)
    ensures Find(t, name).Some?
    ensures Find(s, name).Some? ==>
              && SameNames(s, t)
              && t[Find(s, name).value].all == s[Find(s, name).value].all + [Instr(operation, operand)]
              && t[Find(s, name).value].value == s[Find(s, name).value].value
              && t[Find(s, name).value].active.AliasOfAll? == s[Find(s, name).value].active.AliasOfAll?
              && t[Find(s, name).value].Pending()
                 == if s[Find(s, name).value].active.AliasOfAll?
                    then s[Find(s, name).value].Pending() + [Instr(operation, operand)]
                    else s[Find(s, name).value].Pending()
    ensures Find(s, name).None? ==>
              && |t| == |s| + 1
              && t[|s|] == NewRegister(name).AddInstruction(Instr(operation, operand))
    ensures forall k :: 0 <= k < |s| && s[k].name != name ==> t[k] == s[k]
    ensures Find(s, name).Some? ==>
              forall k :: 0 <= k < |s| && k != Find(s, name).value ==> t[k] == s[k]
  {
    match Find(s, name)
    case Some(j) =>
      var t := s[j := s[j].AddInstruction(Instr(operation, operand))];
      assert t[j].name == name;
      t
    case None =>
      var t := s + [NewRegister(name).AddInstruction(Instr(operation, operand))];
      assert t[|s|].name == name;
      t
  }

  /** Adding to another name leaves a register where it was and as it was. */
  lemma NewInstructionElsewhere(s: Store, j: nat, name: string, other: string, operation: string, operand: string)
    requires Find(s, name) == Some(j) && other != name
    ensures var t := NewInstruction(s, other, operation, operand);
            Find(t, name) == Some(j) && t[j] == s[j]
  {
    var t := NewInstruction(s, other, operation, operand);
    match Find(s, other)
    case Some(i) =>
      assert SameNames(s, t);
      FindSameNames(s, t, name);
    case None =>
      assert t == s + [t[|s|]];
      FindAppend(s, t[|s|], name);
  }

  /** Appending a register does not change where an existing name is found. */
  lemma {:induction false} FindAppend(s: Store, r: Register, name: string)
    requires Find(s, name).Some?
    ensures Find(s + [r], name) == Find(s, name)
  {
    if s[0].name != name {
      assert (s + [r])[1..] == s[1..] + [r];
      FindAppend(s[1..], r, name);
    }
  }

  /**
   Makes every register's whole definition pending (calculator.py:115-117),
   for the whole store and not only the registers a print will reach.
   */
  function ResetAll(s: Store): (t: Store)
    ensures SameNames(s, t)
    ensures forall k :: 0 <= k < |s| ==>
              t[k].Pending() == s[k].all && t[k].all == s[k].all && t[k].value == s[k].value
    ensures forall k :: 0 <= k < |s| ==> t[k].active.AliasOfAll?
  {
    seq(|s|, k requires 0 <= k < |s| => s[k].ResetInstructions())
  }

  /** Every pending list is already the definition itself. */
  predicate AllAliased(s: Store)
  {
    forall k :: 0 <= k < |s| ==> s[k].active.AliasOfAll?
  }

  lemma ResetAllAliased(s: Store)
    requires AllAliased(s)
    ensures ResetAll(s) == s
  {
    var t := ResetAll(s);
    forall k | 0 <= k < |s|
      ensures t[k] == s[k]
    {
    }
  }

  /** The number of instructions still pending across the store. */
  function Count(s: Store): nat
  {
    if |s| == 0 then 0 else |s[0].Pending()| + Count(s[1..])
  }

  /** Replacing one register changes the count by the change in its pending list. */
  lemma {:induction false} CountUpdate(s: Store, i: nat, r: Register)
    requires i < |s|
    ensures Count(s[i := r]) == Count(s) - |s[i].Pending()| + |r.Pending()|
  {
    if i == 0 {
      assert s[i := r][1..] == s[1..];
    } else {
      assert s[i := r][1..] == s[1..][i - 1 := r];
      CountUpdate(s[1..], i - 1, r);
    }
  }

  /** A pending list is the not-yet-consumed tail of an earlier one. */
  predicate IsSuffix(a: seq<Instr>, b: seq<Instr>)
  {
    |a| <= |b| && a == b[|b| - |a|..]
  }

  lemma SuffixTrans(a: seq<Instr>, b: seq<Instr>, c: seq<Instr>)
    requires IsSuffix(a, b) && IsSuffix(b, c)
    ensures IsSuffix(a, c)
  {
    assert c[|c| - |b|..][|b| - |a|..] == c[|c| - |a|..];
  }
}
