/** A value that may be absent: the result of a lookup by name. */
module Optional {

  datatype Option<+T> = None | Some(value: T)
}

/**
 The arithmetic of one instruction: the operation names a command may use,
 the fold step `Calculate` that applies an operation to a register's
 accumulator, and the decimal literals an operand may be written as.
 */
module Arithmetic {

  import opened Optional

  /** The operation names a command line may use (calculator.py:16). */
  const Operations: seq<string> := ["add", "subtract", "multiply"]

  /** The operations, as a closed set of tags. */
  datatype Op = Add | Subtract | Multiply

  function OpName(o: Op): string
  {
    match o
    case Add => "add"
    case Subtract => "subtract"
    case Multiply => "multiply"
  }

  /** Recognises an operation name; exactly the names in `Operations` are known. */
  function ParseOp(name: string): (r: Option<Op>)
    ensures r.Some? <==> name in Operations
    ensures r.Some? ==> OpName(r.value) == name
  {
    if name == "add" then Some(Add)
    else if name == "subtract" then Some(Subtract)
    else if name == "multiply" then Some(Multiply)
    else None
  }

  lemma ParseOpName(o: Op)
    ensures ParseOp(OpName(o)) == Some(o)
  {
  }

  /** Integer meaning of an operation tag. */
  function Apply(o: Op, acc: int, x: int): int
  {
    match o
    case Add => acc + x
    case Subtract => acc - x
    case Multiply => acc * x
  }

  /**
   One fold step on an accumulator. The source compares the operation
   string against the three names; any other string is reported as an
   invalid operation and the accumulator comes back unchanged.
   */
  function Calculate(acc: int, operation: string, x: int): (r: int)
    ensures ParseOp(operation).Some? ==> r == Apply(ParseOp(operation).value, acc, x)
    ensures ParseOp(operation).None? ==> r == acc
  {
    if operation == "add" then acc + x
    else if operation == "subtract" then acc - x
    else if operation == "multiply" then acc * x
    else acc
  }

  predicate IsDigit(c: char)
  {
    '0' <= c <= '9'
  }

  /**
   A literal operand: a non-empty string of decimal digits. This is
   Python's `str.isdecimal` restricted to the ASCII digits. A sign makes
   the operand a register name, so `-5` is looked up, never used as -5.
   */
  predicate IsDecimal(s: string): (r: bool)
    ensures r ==> s != [] && '-' !in s && '+' !in s && ' ' !in s
  {
    |s| > 0 && forall k :: 0 <= k < |s| ==> IsDigit(s[k])
  }

  function DigitValue(c: char): (d: nat)
    requires IsDigit(c)
    ensures d < 10
  {
    c as int - '0' as int
  }

  function DigitChar(d: nat): (c: char)
    requires d < 10
    ensures IsDigit(c) && DigitValue(c) == d
  {
    (d + '0' as int) as char
  }

  /** 10 to the power `n`. */
  function Pow10(n: nat): (p: nat)
    ensures p >= 1
  {
    if n == 0 then 1 else 10 * Pow10(n - 1)
  }

  /**
   The number a literal denotes, read most significant digit first
   (Python's `int`). It has at most as many digits as the literal, and
   exactly as many when the literal has no leading zero.
   */
  function DecimalValue(s: string): (v: nat)
    requires IsDecimal(s)
    ensures v < Pow10(|s|)
    ensures s[0] != '0' ==> Pow10(|s| - 1) <= v
  {
    if |s| == 1 then DigitValue(s[0])
    else 10 * DecimalValue(s[..|s| - 1]) + DigitValue(s[|s| - 1])
  }

  /**
   The decimal rendering of a natural number (Python's `str` on a
   non-negative int). Reading it back with `DecimalValue` gives the number.
   */
  function Digits(n: nat): (s: string)
    ensures IsDecimal(s)
    ensures DecimalValue(s) == n
  {
    if n < 10 then [DigitChar(n)]
    else
      var prefix := Digits(n / 10);
      var s := prefix + [DigitChar(n % 10)];
      assert s[..|s| - 1] == prefix;
      s
  }

  /**
   The other round trip: a literal without leading zeros is the rendering
   of the number it denotes.
   */
  lemma {:induction false} DecimalValueDigits(s: string)
    requires IsDecimal(s) && (|s| == 1 || s[0] != '0')
    ensures Digits(DecimalValue(s)) == s
  {
    if |s| > 1 {
      var prefix := s[..|s| - 1];
      assert IsDecimal(prefix) && prefix[0] == s[0];
      DecimalValueDigits(prefix);
      var a, d := DecimalValue(prefix), DigitValue(s[|s| - 1]);
      assert DecimalValue(s) == 10 * a + d && a >= 1;
      DivMod10(a, d);
      assert Digits(10 * a + d) == Digits(a) + [DigitChar(d)];
      DigitCharValue(s[|s| - 1]);
      SplitLast(s);
    }
  }

  lemma DigitCharValue(c: char)
    requires IsDigit(c)
    ensures DigitChar(DigitValue(c)) == c
  {
  }

  lemma SplitLast<T>(s: seq<T>)
    requires |s| > 0
    ensures s[..|s| - 1] + [s[|s| - 1]] == s
  {
  }

  lemma DivMod10(a: nat, d: nat)
    requires d < 10
    ensures (10 * a + d) / 10 == a && (10 * a + d) % 10 == d
  {
  }

  /** Leading zeros do not change a literal's value (`int("007")` is 7). */
  lemma {:induction false} LeadingZero(s: string)
    requires IsDecimal(s)
    ensures IsDecimal("0" + s) && DecimalValue("0" + s) == DecimalValue(s)
  {
    var z := "0" + s;
    assert IsDecimal(z) by {
      forall k | 0 <= k < |z|
        ensures IsDigit(z[k])
      {
        if k > 0 {
          assert z[k] == s[k - 1];
        }
      }
    }
    if |s| > 1 {
      var prefix := s[..|s| - 1];
      assert z[..|z| - 1] == "0" + prefix;
      LeadingZero(prefix);
    } else {
      assert z[..|z| - 1] == "0";
    }
  }
}
