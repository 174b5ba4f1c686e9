/** `safe_eval` and `solve_operation` (ocr_processing.py:13-35, 139-149).

    The operator table `allowed_operators` lives in constants.py, which is
    not part of this model, so it is a parameter: a map from each allowed
    operator to the function it dispatches to.  A dispatched function may
    return a number or raise any exception (Python's `operator.floordiv`
    raises `ZeroDivisionError` on its own, `operator.pow` can overflow). */
module Evaluator {
  import opened Common
  import opened PyAst
  import opened Parser

  /** The exceptions that can leave `safe_eval` or `ast.parse`, with the
      text `str(e)` gives. */
  datatype Exception =
    | ZeroDivisionError(message: string)
    | ValueError(message: string)
    | SyntaxError(message: string)
    | OtherError(message: string)

  /** The outcome of an evaluation: a number, or the exception it raised. */
  datatype Outcome = Value(v: real) | Raised(e: Exception)

  /** `allowed_operators`: the operator classes it contains and the
      function each one maps to. */
  datatype OperatorTable = OperatorTable(
    binary: map<BinOperator, (real, real) -> Outcome>,
    unary: map<UnaryOperator, real -> Outcome>)

  const DivisionByZero: Exception := ZeroDivisionError("Division par zéro")

  function UnsupportedBinary(op: BinOperator): Exception
  {
    ValueError("Opérateur non supporté: " + ClassText(BinOperatorName(op)))
  }

  function UnsupportedUnary(op: UnaryOperator): Exception
  {
    ValueError("Opérateur unaire non supporté: " + ClassText(UnaryOperatorName(op)))
  }

  function UnsupportedNode(kind: OtherKind): Exception
  {
    ValueError("Expression non supportée: " + NodeText(kind))
  }

  /** A tree built only from numbers and operators that the table contains. */
  predicate Whitelisted(t: OperatorTable, n: Node)
  {
    match n
    case Num(_) => true
    case BinOp(op, l, r) => op in t.binary && Whitelisted(t, l) && Whitelisted(t, r)
    case UnaryOp(op, e) => op in t.unary && Whitelisted(t, e)
    case Other(_) => false
  }

  /** `safe_eval(node)`.  A binary node checks its operator against the
      table first, then evaluates the left operand, then the right one, then
      refuses a `Div` by zero, and only then calls the table's function.
      Only a tree whose every operator is in the table yields a value. */
  function SafeEval(t: OperatorTable, n: Node): (r: Outcome)
    ensures r.Value? ==> Whitelisted(t, n)
  {
    match n
    case Num(v) => Value(v)
    case BinOp(op, l, r) =>
      if op !in t.binary then
        Raised(UnsupportedBinary(op))
      else
        var left := SafeEval(t, l);
        if left.Raised? then left
        else
          var right := SafeEval(t, r);
          if right.Raised? then right
          else if op == Div && right.v == 0.0 then Raised(DivisionByZero)
          else t.binary[op](left.v, right.v)
    case UnaryOp(op, e) =>
      if op !in t.unary then
        Raised(UnsupportedUnary(op))
      else
        var operand := SafeEval(t, e);
        if operand.Raised? then operand else t.unary[op](operand.v)
    case Other(kind) => Raised(UnsupportedNode(kind))
  }

  /** The second member of `solve_operation`'s pair: the number, or `""`. */
  datatype Answer = Solved(value: real) | Blank

  /** The pair `(error, result)` that `solve_operation` returns. */
  datatype Reply = Reply(error: Option<string>, result: Answer)

  const DivisionByZeroMessage: string := "Erreur : Division par zéro"
  const EvaluationErrorPrefix: string := "Erreur lors de l'évaluation de l'expression : "

  /** The text of the `SyntaxError` that `ast.parse` raises; CPython words
      it according to the fault, and the model keeps one wording. */
  const SyntaxErrorText: string := "invalid syntax"

  /** Whether `s` starts with `prefix`. */
  predicate HasPrefix(s: string, prefix: string)
  {
    |prefix| <= |s| && s[..|prefix|] == prefix
  }

  /** `solve_operation(text)` on a cleaned text: it never raises; it returns
      `(None, value)` on success, `("Erreur : Division par zéro", "")` for a
      `ZeroDivisionError`, and the general message with an empty result for
      every other exception, a syntax error included. */
  function SolveOperation(t: OperatorTable, text: string): (r: Reply)
    requires IsCanonical(text)
    ensures r.error.None? <==> r.result.Solved?
    ensures r.error.None? <==> Parse(text).Some? && SafeEval(t, Parse(text).value).Value?
    ensures r.error.None? ==> r.result.value == SafeEval(t, Parse(text).value).v
    ensures r.error.Some? ==> r.result == Blank
    ensures r.error.Some? ==> r.error.value == DivisionByZeroMessage || HasPrefix(r.error.value, EvaluationErrorPrefix)
    ensures r.error == Some(DivisionByZeroMessage) <==>
              Parse(text).Some? && SafeEval(t, Parse(text).value).Raised? && SafeEval(t, Parse(text).value).e.ZeroDivisionError?
  {
    match Parse(text)
    case None => Report(SyntaxError(SyntaxErrorText))
    case Some(n) =>
      match SafeEval(t, n)
      case Value(v) => Reply(None, Solved(v))
      case Raised(e) => Report(e)
  }

  /** The two `except` clauses of `solve_operation`. */
  function Report(e: Exception): (r: Reply)
    ensures r.result == Blank && r.error.Some?
    ensures r.error.value == DivisionByZeroMessage <==> e.ZeroDivisionError?
  {
    if e.ZeroDivisionError? then
      Reply(Some(DivisionByZeroMessage), Blank)
    else
      assert (EvaluationErrorPrefix + e.message)[7] != DivisionByZeroMessage[7];
      Reply(Some(EvaluationErrorPrefix + e.message), Blank)
  }

  // ---------------------------------------------------------------------
  // What the evaluator accepts.

  /** Every operator has an entry in the table. */
  predicate Complete(t: OperatorTable)
  {
    (forall op: BinOperator :: op in t.binary) && (forall op: UnaryOperator :: op in t.unary)
  }

  /** The table's functions return numbers, except that they may raise
      `ZeroDivisionError` (as `operator.floordiv` does for a zero divisor). */
  ghost predicate RaisesOnlyZeroDivision(t: OperatorTable)
  {
    (forall op, a, b :: op in t.binary ==> t.binary[op](a, b).Value? || t.binary[op](a, b).e.ZeroDivisionError?)
    && (forall op, a :: op in t.unary ==> t.unary[op](a).Value? || t.unary[op](a).e.ZeroDivisionError?)
  }

  predicate NoOtherNode(n: Node)
  {
    match n
    case Num(_) => true
    case BinOp(_, l, r) => NoOtherNode(l) && NoOtherNode(r)
    case UnaryOp(_, e) => NoOtherNode(e)
    case Other(_) => false
  }

  /** With a complete table whose functions raise nothing but
      `ZeroDivisionError`, a tree of numbers and operators either has a
      value or fails with a division by zero: no "non supporté" error. */
  lemma {:induction false} OnlyDivisionByZeroFails(t: OperatorTable, n: Node)
    requires Complete(t) && RaisesOnlyZeroDivision(t) && NoOtherNode(n)
    ensures SafeEval(t, n).Value? || SafeEval(t, n).e.ZeroDivisionError?
  {
    match n
    case Num(_) =>
    case BinOp(op, l, r) =>
      OnlyDivisionByZeroFails(t, l);
      OnlyDivisionByZeroFails(t, r);
    case UnaryOp(op, e) =>
      OnlyDivisionByZeroFails(t, e);
  }

  /** So `solve_operation` on such text reports a syntax error, the
      division message, or a value. */
  lemma SolveErrorsUnderCompleteTable(t: OperatorTable, text: string)
    requires IsCanonical(text)
    requires Complete(t) && RaisesOnlyZeroDivision(t)
    requires Parse(text).Some? && NoOtherNode(Parse(text).value)
    ensures SolveOperation(t, text).error.None? || SolveOperation(t, text).error == Some(DivisionByZeroMessage)
  {
    OnlyDivisionByZeroFails(t, Parse(text).value);
  }

  // ---------------------------------------------------------------------
  // Evaluation order (ocr_processing.py:17-26, 28-32).

  /** An operator missing from the table is reported before either operand
      is evaluated: the outcome does not depend on the operands. */
  lemma UnsupportedBeforeOperands(t: OperatorTable, op: BinOperator, l: Node, r: Node, l': Node, r': Node)
    requires op !in t.binary
    ensures SafeEval(t, BinOp(op, l, r)) == SafeEval(t, BinOp(op, l', r')) == Raised(UnsupportedBinary(op))
  {
  }

  lemma UnsupportedUnaryBeforeOperand(t: OperatorTable, op: UnaryOperator, e: Node, e': Node)
    requires op !in t.unary
    ensures SafeEval(t, UnaryOp(op, e)) == SafeEval(t, UnaryOp(op, e')) == Raised(UnsupportedUnary(op))
  {
  }

  /** The left operand is evaluated first: its exception wins over the
      right operand's and over the division check. */
  lemma LeftOperandFirst(t: OperatorTable, op: BinOperator, l: Node, r: Node)
    requires op in t.binary && SafeEval(t, l).Raised?
    ensures SafeEval(t, BinOp(op, l, r)) == SafeEval(t, l)
  {
  }

  /** A division whose divisor evaluates to zero raises
      `ZeroDivisionError("Division par zéro")`, whatever the operands are. */
  lemma DivisionGuard(t: OperatorTable, l: Node, r: Node)
    requires Div in t.binary && SafeEval(t, l).Value? && SafeEval(t, r) == Value(0.0)
    ensures SafeEval(t, BinOp(Div, l, r)) == Raised(DivisionByZero)
  {
  }

  /** The guard does not call the table's division function: any other
      function `f` in its place gives the same outcome (for operands that
      divide nowhere themselves, since `f` would also decide their values). */
  lemma DivisionGuardIgnoresFunction(t: OperatorTable, l: Node, r: Node, f: (real, real) -> Outcome)
    requires Div in t.binary && SafeEval(t, l).Value? && SafeEval(t, r) == Value(0.0)
    requires NoDivision(l) && NoDivision(r)
    ensures SafeEval(t.(binary := t.binary[Div := f]), BinOp(Div, l, r)) == Raised(DivisionByZero)
  {
    var t' := t.(binary := t.binary[Div := f]);
    SameWithoutDivision(t, t', l);
    SameWithoutDivision(t, t', r);
  }

  /** A tree with no `Div` node. */
  predicate NoDivision(n: Node)
  {
    match n
    case Num(_) => true
    case BinOp(op, l, r) => op != Div && NoDivision(l) && NoDivision(r)
    case UnaryOp(_, e) => NoDivision(e)
    case Other(_) => true
  }

  /** Two tables that differ at most in the function behind `Div` agree on
      every tree without a `Div` node. */
  lemma {:induction false} SameWithoutDivision(t: OperatorTable, t': OperatorTable, n: Node)
    requires t'.unary == t.unary && t'.binary.Keys == t.binary.Keys
    requires forall op :: op in t.binary && op != Div ==> t'.binary[op] == t.binary[op]
    requires NoDivision(n)
    ensures SafeEval(t', n) == SafeEval(t, n)
  {
    match n
    case Num(_) =>
    case BinOp(op, l, r) =>
      SameWithoutDivision(t, t', l);
      SameWithoutDivision(t, t', r);
    case UnaryOp(op, e) =>
      SameWithoutDivision(t, t', e);
    case Other(_) =>
  }

  // ---------------------------------------------------------------------
  // A reference arithmetic.

  /** A tree of numbers, signs and the four operations `+ - * /`. */
  predicate FourOperations(n: Node)
  {
    match n
    case Num(_) => true
    case BinOp(op, l, r) => op in {Add, Sub, Mult, Div} && FourOperations(l) && FourOperations(r)
    case UnaryOp(_, e) => FourOperations(e)
    case Other(_) => false
  }

  /** School arithmetic on one operation of `+ - * /`: `None` for a zero
      divisor (and for the operators outside the four). */
  function Arithmetic(op: BinOperator, a: real, b: real): Option<real>
  {
    match op
    case Add => Some(a + b)
    case Sub => Some(a - b)
    case Mult => Some(a * b)
    case Div => if b == 0.0 then None else Some(a / b)
    case FloorDiv => None
    case Pow => None
  }

  /** Exact school arithmetic: the value of the tree, or `None` when a
      divisor is zero. */
  function Denote(n: Node): Option<real>
  {
    match n
    case Num(v) => Some(v)
    case BinOp(op, l, r) =>
      var a, b := Denote(l), Denote(r);
      if a.None? || b.None? then None else Arithmetic(op, a.value, b.value)
    case UnaryOp(op, e) =>
      var a := Denote(e);
      if a.None? || op == UAdd then a else Some(-a.value)
    case Other(_) => None
  }

  /** A table that maps `Add`, `Sub`, `Mult`, `Div`, `UAdd` and `USub` to
      `operator.add`, `sub`, `mul`, `truediv`, `pos` and `neg` (for `Div`
      only its behaviour on a nonzero divisor matters). */
  ghost predicate Conventional(t: OperatorTable)
  {
    && Add in t.binary && Sub in t.binary && Mult in t.binary && Div in t.binary
    && UAdd in t.unary && USub in t.unary
    && (forall a, b :: t.binary[Add](a, b) == Value(a + b))
    && (forall a, b :: t.binary[Sub](a, b) == Value(a - b))
    && (forall a, b :: t.binary[Mult](a, b) == Value(a * b))
    && (forall a, b :: b != 0.0 ==> t.binary[Div](a, b) == Value(a / b))
    && (forall a :: t.unary[UAdd](a) == Value(a))
    && (forall a :: t.unary[USub](a) == Value(-a))
  }

  /** Under a conventional table `safe_eval` computes school arithmetic, and
      its only failure is the guarded division by zero. */
  lemma {:induction false} SafeEvalIsArithmetic(t: OperatorTable, n: Node)
    requires Conventional(t) && FourOperations(n)
    ensures Denote(n).Some? ==> SafeEval(t, n) == Value(Denote(n).value)
    ensures Denote(n).None? ==> SafeEval(t, n) == Raised(DivisionByZero)
  {
    match n
    case Num(_) =>
    case BinOp(op, l, r) =>
      SafeEvalIsArithmetic(t, l);
      SafeEvalIsArithmetic(t, r);
    case UnaryOp(op, e) =>
      SafeEvalIsArithmetic(t, e);
  }

  /** And `solve_operation` reports that value, or the division message. */
  lemma SolveIsArithmetic(t: OperatorTable, text: string)
    requires IsCanonical(text) && Conventional(t)
    requires Parse(text).Some? && FourOperations(Parse(text).value)
    ensures Denote(Parse(text).value).Some? ==> SolveOperation(t, text) == Reply(None, Solved(Denote(Parse(text).value).value))
    ensures Denote(Parse(text).value).None? ==> SolveOperation(t, text) == Reply(Some(DivisionByZeroMessage), Blank)
  {
    SafeEvalIsArithmetic(t, Parse(text).value);
  }
}
