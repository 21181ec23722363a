# Register calculator: evaluation engine

A model of the register calculator in `calculator.py`. Its input is a list of command lines:

- `<register> <operation> <value>` appends an instruction to a register's definition, creating the register on first use.
- `print <register>` resets every register and evaluates the one named.

Evaluation pops the register's pending instructions front first and folds each into the register's `register_value` with `calculate`. A decimal operand is used as a number. Any other operand names a register, which is evaluated first and consumes its own pending list. A name that matches no register is reported and skipped.

There is no visited set. Cycles end because a pass never refills a pending list, so a register met again within the same pass runs only what is left of its pending list, possibly nothing, and returns its value.

The model is pure Dafny functions over an explicit store, `seq<Register>`:

| file | module | contents |
|---|---|---|
| `arithmetic.dfy` | `Arithmetic` (plus `Optional`) | the operation names, `calculate`, decimal literals |
| `store.dfy` | `Store` | registers, `find_register`, `new_instruction`, the reset |
| `engine.dfy` | `Engine` | `Register.evaluate` and `print_register` |
| `properties.dfy` | `Properties` | the fold of literal operands, the stale read, repeated prints |
| `examples.dfy` | `Examples` | small stores run to a value, with register names as parameters |
| `corrected.dfy` | `Corrected` | the reset as its docstring asks for it, calculator.py:43 (see Findings) |
| `findings.dfy` | `Findings` | the discrepancy between the two resets, shown on one script |
| `dispatch.dfy` | `Dispatch` | `execute_line` on a token line, and the loop of `main` |

**Aliasing.** `reset_instructions` assigns the list object `all_instructions` to `active_instructions` (calculator.py:46). From then on the two names share one list:

- popping a pending instruction deletes it from the definition;
- appending to the definition makes the new instruction pending at once.

The model records which case holds for each register: `ActiveList` is either `AliasOfAll` or `Detached(items)`. A register fresh from the constructor has two separate empty lists.

**Termination.** `Evaluate` decreases `Count`, the total number of pending instructions in the store. Each step consumes one pending instruction, and nothing is appended while a print runs.

**Stale read.** In `calculate(self.register_value, operation, register.evaluate())` (calculator.py:71), the receiver's value is read before the recursive call runs. The result is then written over whatever that call left in the receiver. `Evaluate` keeps this order.

**Aliasing and repeated prints.** The reset aliases rather than copies (calculator.py:46). Had it copied, printing a register twice would accumulate its definition twice, because `register_value` is never cleared (calculator.py:34). With the alias, a print consumes the definitions it runs, so printing twice returns the same value (`Properties.PrintTwice`).

## Model

| member | source | states |
|---|---|---|
| Arithmetic.ParseOp | calculator.py:16 | exactly the three names `add`, `subtract` and `multiply` are operations, each with its own name |
| Arithmetic.ParseOpName | calculator.py:16 | every operation is recognised from its own name |
| Arithmetic.Calculate | calculator.py:120-136 | a known operation applies its integer meaning to the accumulator; any other operation string returns the accumulator unchanged |
| Arithmetic.Digits | calculator.py:64-65 | every natural number has a decimal literal that the operand test accepts and that reads back as that number |
| Arithmetic.IsDecimal | calculator.py:64 | an operand is a literal only if it is a non-empty run of digits; with a sign or a space it is a register name |
| Arithmetic.DecimalValue | calculator.py:65 | a literal denotes a number with at most as many digits as it has, exactly as many without a leading zero; `Digits` is its inverse |
| Arithmetic.DecimalValueDigits | calculator.py:64-65 | a literal without leading zeros is the rendering of the number it denotes |
| Arithmetic.LeadingZero | calculator.py:65 | a leading zero changes neither whether an operand is a literal nor its value |
| Store.Register.AddInstruction | calculator.py:36-40 | the definition gains exactly the new instruction at its end, and an aliased pending list gains it too; name and value are unchanged |
| Store.Register.ResetInstructions | calculator.py:42-46 | the pending list becomes the whole definition by aliasing; definition and value are unchanged |
| Store.Register.Pop | calculator.py:59 | the pending list loses its first instruction; through the alias the definition loses it too |
| Store.NewRegister | calculator.py:30-34 | a new register has the given name, no instructions, nothing pending, a pending list separate from its definition, and value 0 |
| Store.Find | calculator.py:79-84 | the lookup fails exactly when no register has the name; otherwise it gives the first register with that name |
| Store.FindSameNames | calculator.py:84 | the lookup depends on the registers' names only |
| Store.FindUnique | calculator.py:69-72 | with unique names, looking up a register's name finds that register |
| Store.NewInstruction | calculator.py:87-99 | find-or-create keeps names unique, and the name is then found; an existing register's definition gains the instruction at its end, its value is kept, and when its pending list is the definition itself the instruction is pending at once; otherwise exactly one register is appended, holding just that instruction; no other register changes |
| Store.NewInstructionElsewhere | calculator.py:94-99 | adding under another name leaves a register at the same place and unchanged |
| Store.FindAppend | calculator.py:95-97 | creating a register does not change where an existing name is found |
| Store.ResetAll | calculator.py:115-117 | every register, not only the one printed, gets its whole definition pending by aliasing; names, definitions and values are kept |
| Store.ResetAllAliased | calculator.py:115-117 | resetting a store in which every register is already aliased changes nothing |
| Engine.Evaluate | calculator.py:48-76 | evaluation terminates, since the total pending count decreases; it empties the receiver's pending list and returns the receiver's value; it creates no register; with nothing pending, it changes nothing |
| Engine.EvaluateDrains | calculator.py:58-59 | evaluation only consumes: every register keeps name and aliasing, what is pending afterwards is a tail of what was pending before, and a definition not aliased is untouched |
| Engine.EvaluateAllOrNothing | calculator.py:58-76 | every register other than the receiver is either untouched by an evaluation or left with nothing pending, since each `evaluate` runs its own list until it is empty |
| Engine.PrintRegister | calculator.py:102-112 | an unknown name is reported, no value is printed, and the store is unchanged; a known one is evaluated after resetting every register; its definition is consumed, its value is printed, and every register is left aliased |
| Engine.PrintAllOrNothing | calculator.py:102-117 | after a print, every register either is exactly as the reset left it or has had its definition consumed |
| Properties.LocalFold | calculator.py:58-65 | when every operand is a literal or an unknown name, evaluation is the FIFO fold of `calculate` over the pending list from the current value, with unknown names skipped; only the receiver changes |
| Properties.SelfOperandReadsStaleValue | calculator.py:71 | a register naming itself reads its value from before the rest of its list ran |
| Properties.SelfThenLocal | calculator.py:58-71 | `a: add a, add 1` evaluates to the first operation applied to the old value and the fold of the rest |
| Properties.EvaluateTwice | calculator.py:58-76 | a second evaluation in the same pass runs nothing and returns the same value |
| Properties.PrintTwice | calculator.py:102-117 | printing the same register twice in a row gives the same value and the same store |
| Properties.PrintKeepsFind | calculator.py:102-117 | a print creates, removes and renames no register, so every lookup is unchanged |
| Properties.PrintAfterAppend | calculator.py:34-46 | after a print, one literal instruction added to the printed register is applied to the value printed before, and nothing else is applied |
| Examples.BuildFifo | calculator.py:87-99 | `x add 5`, `x multiply 3`, `x subtract 2` build one register with the three instructions in order |
| Examples.FifoExample | calculator.py:58-65 | printing that register shows 13 |
| Examples.SelfReferenceExample | calculator.py:69-72 | `a add a`, `a add 1`, `print a` shows 1 |
| Examples.CycleInnerFirst | calculator.py:63-65 | in the cycle, `b` folds its literal first |
| Examples.CycleInnerSecond | calculator.py:69-72 | in the cycle, `b` reads `a`, which has nothing pending and holds 1 |
| Examples.CycleFirstStep | calculator.py:63-65 | in the cycle, `a` folds its literal first |
| Examples.CycleSecondStep | calculator.py:69-72 | in the cycle, `a` reads `b`, and `b`'s evaluation returns 2 |
| Examples.CycleExample | calculator.py:48-76 | `a: add 1, add b` with `b: add 1, add a` terminates, and `print a` shows 3 |
| Examples.MissingRegisterExample | calculator.py:73-74 | `a add z` with no register `z` prints 0 and creates no register |
| Examples.CompositionInner | calculator.py:58-65 | `a: add 5` evaluates to 5 and consumes its list |
| Examples.CompositionOuter | calculator.py:69-72 | `b: add a` evaluates to 5 and leaves `a` consumed |
| Examples.CompositionExample | calculator.py:69-72 | `print b` shows 5, and evaluating `a` afterwards in the same pass also gives 5 |
| Corrected.ResetFresh | calculator.py:42-46 | the corrected reset gives every register a separate pending list equal to its definition, and a value of 0 |
| Corrected.ResetFreshDefinitions | calculator.py:43 | the corrected reset depends on the names and definitions only |
| Corrected.PrintFresh | calculator.py:102-112 | the corrected print changes nothing for an unknown name; for a known one it prints a value and keeps every definition |
| Corrected.PrintFreshDependsOnDefinitions | calculator.py:43 | under the corrected reset, what a print shows depends on the definitions alone |
| Corrected.PrintFreshTwice | calculator.py:43 | under the corrected reset, printing twice shows the same value |
| Corrected.NewInstructionDefinitions | calculator.py:87-99 | adding an instruction to two stores with equal definitions keeps their definitions equal |
| Findings.AppendElsewhereUnseen | calculator.py:46 | as written, once a register has been printed, adding to any other register never changes what printing it shows |
| Findings.StaleDefinitionAsWritten | calculator.py:46 | as written, `b add 1`, `a add b`, `print a`, `b add 1`, `print a` shows 1 at both prints |
| Findings.StaleDefinitionCorrected | calculator.py:43 | with the corrected reset, the same script shows 1 and then 2 |
| Findings.RunPrintAddPrint | calculator.py:198-202 | a print, an add and the same print again report the first print's value, an add, and the value of printing after the add |
| Findings.ScriptRun | calculator.py:151-168 | run as command lines, the script reports the same outcomes under both resets except for the last print: 1 as written, 2 corrected |
| Findings.ScriptRunAB | calculator.py:198-202 | the same holds with the register names `a` and `b` |
| Dispatch.Parse | calculator.py:156-168 | fewer than two tokens raise IndexError; `print` with exactly one name is a print; three tokens whose middle one is an operation are an add; any other line is invalid |
| Dispatch.ParseRender | calculator.py:159-164 | every print and every add with a known operation is read back from its own line |
| Dispatch.RenderParse | calculator.py:159-164 | a line that means a print or an add is the canonical line of that command |
| Dispatch.PrintAsRegisterName | calculator.py:159-164 | `print add 5` adds to a register named `print` |
| Dispatch.PrintWith | calculator.py:107-112 | under either reset, a print reports the value exactly for known names and never creates, removes or renames a register |
| Dispatch.PrintsKeepNames | calculator.py:111 | neither reset nor evaluation changes the registers' names |
| Dispatch.ExecuteLine | calculator.py:151-168 | each line kind has its own outcome; only a print of a known register and an add change the store; an add creates at most one register and keeps names unique |
| Dispatch.Run | calculator.py:198-202 | running the lines in order keeps names unique and reports at most one outcome per line |
| Dispatch.RunStops | calculator.py:198-202 | a run reports one outcome per line up to and including the first line of fewer than two tokens, and stops there |

## Left out

- Reading the input is not modelled, since it is I/O: `read_file`, the console loop, the program arguments and the file-not-found message (calculator.py:139-148, 171-196).
- The `quit` sentinel is not modelled (calculator.py:192, 199). `Run` takes the lines that come before it.
- `lower()` and `split()` are not modelled (calculator.py:156). The model starts from the list of tokens, and there is no case folding on `seq<char>`.
- The printed text is not modelled. This covers the "could not be found", "No register with name", "invalid operation" and "Invalid input" messages and the printed value. Operations return their results and an `Outcome` instead.
- The order of the set `registers` is not modelled (calculator.py:10, 69, 84, 116). The store keeps registers in creation order. Names are unique, so no lookup can observe the order.
- `IsDecimal` accepts only the ASCII digits. Python's `str.isdecimal` and `int` also accept other Unicode decimal digits.
- IndexError is an outcome that ends `Run`. The traceback and the process exit are not modelled.
- Python's recursion limit is not modelled. A chain of register operands deeper than the interpreter allows would raise RecursionError, while `Evaluate` recurses without bound.

## Findings

| source | as written | input that shows it | evidently intended | confidence | as-written member | corrected member |
|---|---|---|---|---|---|---|
| calculator.py:46 | The reset aliases the pending list to the definition, so a print consumes every definition it runs. `register_value` (calculator.py:34) is never cleared, so a later print sees only the number left behind and not the definitions behind it. | `b add 1`, `a add b`, `print a`, `b add 1`, `print a` prints 1 and then 1, although `print b` would now show 2 | Before a print "all instructions must be evaluated again" (calculator.py:43), so the second `print a` shows 2 | medium, not executed | Findings.StaleDefinitionAsWritten | Findings.StaleDefinitionCorrected |

`Corrected.ResetFresh` copies each definition into a separate pending list and restarts the value at 0. `Corrected.PrintFreshDependsOnDefinitions` proves that a print then depends on the definitions alone. `Dispatch.ExecuteLine` and `Dispatch.Run` take the reset as a parameter, so command lines run under either behaviour.
