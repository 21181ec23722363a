/**
 The command language: `execute_line` (calculator.py:151-168) on a line
 already lower-cased and split into whitespace-free tokens, and the loop
 of `main` that runs the lines in order (calculator.py:198-202).

 Printing goes through either reset: `AsWritten` is the source's aliasing
 reset, `Reevaluating` the corrected one of module `Corrected`.
 */
module Dispatch {

  import opened Optional
  import opened Arithmetic
  import opened Store
  import opened Engine
  import opened Corrected

  /** What a token line asks for. */
  datatype Command =
    | PrintCommand(name: string)
    | AddCommand(register: string, operation: string, operand: string)
    | Malformed   // reported as invalid input and ignored
    | TooShort    // indexing the second token raises IndexError

  /**
   The tests of calculator.py:159 and 163, in their order. A line of fewer
   than two tokens never reaches a verdict: the first test reads `line[0]`
   and, failing, the second reads `line[1]`.
   */
  function Parse(line: seq<string>): (c: Command)
    ensures c.TooShort? <==> |line| < 2
    ensures c.PrintCommand? <==> |line| == 2 && line[0] == "print"
    ensures c.AddCommand? <==> |line| == 3 && line[1] in Operations
    ensures c.PrintCommand? ==> c.name == line[1]
    ensures c.AddCommand? ==> [c.register, c.operation, c.operand] == line
  {
    if |line| == 0 then TooShort
    else if line[0] == "print" && |line| == 2 then PrintCommand(line[1])
    else if |line| < 2 then TooShort
    else if line[1] in Operations && |line| == 3 then AddCommand(line[0], line[1], line[2])
    else Malformed
  }

  /** A command that some line means. */
  predicate Expressible(c: Command)
  {
    c.PrintCommand? || (c.AddCommand? && c.operation in Operations)
  }

  /** The canonical token line of a command. */
  function Render(c: Command): (line: seq<string>)
    requires Expressible(c)
    ensures |line| == if c.PrintCommand? then 2 else 3
  {
    match c
    case PrintCommand(name) => ["print", name]
    case AddCommand(register, operation, operand) => [register, operation, operand]
  }

  /** Every print and every add with a known operation is read back from its line. */
  lemma ParseRender(c: Command)
    requires Expressible(c)
    ensures Parse(Render(c)) == c
  {
  }

  /** A line that means a print or an add is the canonical line of what it means. */
  lemma RenderParse(line: seq<string>)
    requires Parse(line).PrintCommand? || Parse(line).AddCommand?
    ensures Expressible(Parse(line)) && Render(Parse(line)) == line
  {
  }

  /** `print` is a register name like any other when three tokens follow the pattern of an add. */
  lemma PrintAsRegisterName(operation: string, operand: string)
    requires operation in Operations
    ensures Parse(["print", operation, operand]) == AddCommand("print", operation, operand)
  {
  }

  /** Which reset a print runs. */
  datatype ResetMode = AsWritten | Reevaluating

  function PrintWith(mode: ResetMode, s: Store, name: string): (res: (Store, Option<int>))
    ensures Find(s, name).None? <==> res.1.None?
    ensures Find(s, name).None? ==> res.0 == s
    ensures SameNames(s, res.0)
  {
    PrintsKeepNames(s, name);
    match mode
    case AsWritten => PrintRegister(s, name)
    case Reevaluating => PrintFresh(s, name)
  }

  /** Neither print creates, removes or renames a register. */
  lemma PrintsKeepNames(s: Store, name: string)
    ensures SameNames(s, PrintRegister(s, name).0)
    ensures SameNames(s, PrintFresh(s, name).0)
  {
    if Find(s, name).Some? {
      DrainedSameNames(ResetAll(s), PrintRegister(s, name).0);
      DefinitionsSameNames(s, PrintFresh(s, name).0);
    }
  }

  /** What one line did, as far as an observer can tell. */
  datatype Outcome =
    | Printed(value: int)
    | UnknownRegister   // "No register with name: ..."
    | Added
    | InvalidInput      // "Invalid input: ..."
    | IndexError        // the uncaught exception that ends the program

  /**
   `execute_line` on a token line: only a print of a known register and an
   add change the store; the add creates at most one register and keeps
   names unique; a print creates none.
   */
  function ExecuteLine(mode: ResetMode, s: Store, line: seq<string>): (res: (Store, Outcome))
    ensures res.1.IndexError? <==> |line| < 2
    ensures res.1.InvalidInput? <==> Parse(line).Malformed?
    ensures res.1.UnknownRegister? <==> Parse(line).PrintCommand? && Find(s, line[1]).None?
    ensures res.1.Printed? <==> Parse(line).PrintCommand? && Find(s, line[1]).Some?
    ensures res.1.Added? <==> Parse(line).AddCommand?
    ensures !res.1.Printed? && !res.1.Added? ==> res.0 == s
    ensures res.1.Printed? ==> SameNames(s, res.0)
    ensures res.1.Added? ==> Find(res.0, line[0]).Some? && |s| <= |res.0| <= |s| + 1
    ensures UniqueNames(s) ==> UniqueNames(res.0)
  {
    match Parse(line)
    case TooShort => (s, IndexError)
    case Malformed => (s, InvalidInput)
    case AddCommand(register, operation, operand) =>
      (NewInstruction(s, register, operation, operand), Added)
    case PrintCommand(name) =>
      var p := PrintWith(mode, s, name);
      match p.1
      case None => (s, UnknownRegister)
      case Some(v) => (p.0, Printed(v))
  }

  /**
   The outcomes of a run cover the lines up to and including the first one
   of fewer than two tokens, and no further: an IndexError is reported for
   exactly the short lines among them, and only the last can be one.
   */
  predicate StopsAtFirstShortLine(lines: seq<seq<string>>, outs: seq<Outcome>)
  {
    && |outs| <= |lines|
    && (forall k :: 0 <= k < |outs| ==> (outs[k].IndexError? <==> |lines[k]| < 2))
    && (forall k :: 0 <= k < |outs| - 1 ==> |lines[k]| >= 2)
    && (|outs| < |lines| ==> outs != [] && |lines[|outs| - 1]| < 2)
  }

  /**
   The loop of `main` over the lines (calculator.py:198-202): each line is
   executed in turn until one raises IndexError, which ends the program.
   Names stay unique throughout.
   */
  function Run(mode: ResetMode, s: Store, lines: seq<seq<string>>): (res: (Store, seq<Outcome>))
    ensures |res.1| <= |lines|
    ensures UniqueNames(s) ==> UniqueNames(res.0)
    decreases |lines|
  {
    if lines == [] then (s, [])
    else
      var step := ExecuteLine(mode, s, lines[0]);
      if step.1.IndexError? then (step.0, [step.1])
      else
        var rest := Run(mode, step.0, lines[1..]);
        (rest.0, [step.1] + rest.1)
  }

  /** A run reports one outcome per line until the first short line, which it reports last. */
  lemma {:induction false} RunStops(mode: ResetMode, s: Store, lines: seq<seq<string>>)
    ensures StopsAtFirstShortLine(lines, Run(mode, s, lines).1)
    decreases |lines|
  {
    if lines != [] {
      var step := ExecuteLine(mode, s, lines[0]);
      if !step.1.IndexError? {
        var rest := Run(mode, step.0, lines[1..]);
        RunStops(mode, step.0, lines[1..]);
        ConsIndex(step.1, rest.1);
        assert forall k :: 1 <= k < |lines| ==> lines[k] == lines[1..][k - 1];
      }
    }
  }

  lemma ConsIndex<T>(x: T, r: seq<T>)
    ensures ([x] + r)[0] == x
    ensures forall k :: 1 <= k < |r| + 1 ==> ([x] + r)[k] == r[k - 1]
  {
  }
}
