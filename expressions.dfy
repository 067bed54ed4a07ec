/** Arithmetic expressions over single digits: the tree that stands for one
    candidate formula, its exact value and its text. */
module Expressions {
  import opened Wrappers

  /** A decimal digit, the value of one character of the input. */
  type Digit = d: int | 0 <= d <= 9

  /** The four operators, in the order of the operator list `+ - * /`. */
  datatype Op = Add | Sub | Mul | Div

  /** A fully parenthesised formula: a digit, or an operator applied to two
      sub-formulas. */
  datatype Expr = Leaf(digit: Digit) | Node(op: Op, left: Expr, right: Expr)

  predicate IsAsciiDigit(c: char)
  {
    '0' <= c <= '9'
  }

  /** The character that prints a digit. */
  function DigitChar(d: Digit): (c: char)
    ensures IsAsciiDigit(c)
    ensures c as int - '0' as int == d
  {
    ('0' as int + d) as char
  }

  /** The digit a digit character stands for (the conversion `int(c)`). */
  function CharDigit(c: char): (d: Digit)
    requires IsAsciiDigit(c)
    ensures DigitChar(d) == c
  {
    c as int - '0' as int
  }

  /** The symbol an operator is written with. */
  function OpSymbol(op: Op): (c: char)
    ensures IsOpSymbol(c)
  {
    match op
    case Add => '+'
    case Sub => '-'
    case Mul => '*'
    case Div => '/'
  }

  /** Each operator has its own symbol. */
  lemma OpSymbolInjective(a: Op, b: Op)
    requires OpSymbol(a) == OpSymbol(b)
    ensures a == b
  {
  }

  predicate IsOpSymbol(c: char)
  {
    c == '+' || c == '-' || c == '*' || c == '/'
  }

  // ---------------------------------------------------------------------
  // Exact evaluation

  /** One operator applied to two exact values; dividing by zero fails. */
  function Apply(op: Op, x: real, y: real): (r: Option<real>)
    ensures r.None? <==> op == Div && y == 0.0
    ensures r.Some? && op == Div ==> r.value * y == x
  {
    match op
    case Add => Some(x + y)
    case Sub => Some(x - y)
    case Mul => Some(x * y)
    case Div => if y == 0.0 then None else Some(x / y)
  }

  /** The exact rational value of a formula, or None when some division in
      it has a zero divisor. */
  function Evaluate(e: Expr): Option<real>
  {
    match e
    case Leaf(d) => Some(d as real)
    case Node(op, l, r) =>
      match (Evaluate(l), Evaluate(r))
      case (Some(x), Some(y)) => Apply(op, x, y)
      case _ => None
  }

  /** Some division in the formula has a divisor whose value is zero. */
  predicate DividesByZero(e: Expr)
  {
    match e
    case Leaf(_) => false
    case Node(op, l, r) =>
      DividesByZero(l) || DividesByZero(r) || (op == Div && Evaluate(r) == Some(0.0))
  }

  /** Evaluation fails exactly when the formula divides by zero somewhere. */
  lemma {:induction false} EvaluateFailsIffDividesByZero(e: Expr)
    ensures Evaluate(e).None? <==> DividesByZero(e)
  {
    match e
    case Leaf(_) =>
    case Node(op, l, r) =>
      EvaluateFailsIffDividesByZero(l);
      EvaluateFailsIffDividesByZero(r);
  }

  /** The formula's value when that value is an integer: the test
      `res == int(res)` and the key `int(res)`. */
  function IntegerValue(e: Expr): Option<int>
  {
    match Evaluate(e)
    case Some(v) => if v == v.Floor as real then Some(v.Floor) else None
    case None => None
  }

  /** The key a formula is filed under is its exact value, and every formula
      with an integer value gets one. */
  lemma IntegerValueIsExact(e: Expr, k: int)
    ensures IntegerValue(e) == Some(k) <==> Evaluate(e) == Some(k as real)
  {
  }

  predicate UsesDivision(e: Expr)
  {
    match e
    case Leaf(_) => false
    case Node(op, l, r) => op == Div || UsesDivision(l) || UsesDivision(r)
  }

  /** A formula built from `+`, `-` and `*` alone always has an integer value,
      so it is always recorded. */
  lemma {:induction false} NoDivisionHasIntegerValue(e: Expr) returns (n: int)
    requires !UsesDivision(e)
    ensures Evaluate(e) == Some(n as real)
    ensures IntegerValue(e) == Some(n)
  {
    match e
    case Leaf(d) =>
      n := d;
    case Node(op, l, r) =>
      var a := NoDivisionHasIntegerValue(l);
      var b := NoDivisionHasIntegerValue(r);
      n := ApplyToIntegers(op, a, b);
  }

  /** `+`, `-` and `*` take integers to integers. */
  lemma ApplyToIntegers(op: Op, a: int, b: int) returns (n: int)
    requires op != Div
    ensures Apply(op, a as real, b as real) == Some(n as real)
  {
    match op
    case Add => n := a + b;
    case Sub => n := a - b;
    case Mul =>
      n := a * b;
      assert (a * b) as real == a as real * b as real;
  }

  // ---------------------------------------------------------------------
  // Structure

  /** The digits of a formula from left to right. */
  function Leaves(e: Expr): (r: seq<Digit>)
    ensures |r| >= 1
  {
    match e
    case Leaf(d) => [d]
    case Node(_, l, r) => Leaves(l) + Leaves(r)
  }

  /** The operators of a formula in the order they are written. */
  function OperatorsOf(e: Expr): seq<Op>
  {
    match e
    case Leaf(_) => []
    case Node(op, l, r) => OperatorsOf(l) + [op] + OperatorsOf(r)
  }

  // ---------------------------------------------------------------------
  // Text

  /** The text of a formula: operands separated from their operator by one
      space, every operand that is not a digit in parentheses, and no
      parentheses around the whole formula. */
  function Render(e: Expr): string
  {
    match e
    case Leaf(d) => [DigitChar(d)]
    case Node(op, l, r) => Wrap(l, Render(l)) + [' ', OpSymbol(op), ' '] + Wrap(r, Render(r))
  }

  /** The text of an operand: a digit stands bare, a compound is bracketed. */
  function Wrap(e: Expr, text: string): string
  {
    if e.Leaf? then text else ['('] + text + [')']
  }
}
