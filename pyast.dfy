/** The part of Python's `ast` module that the safe evaluator looks at
    (ocr_processing.py:13-35), restricted to what `ast.parse` can build from
    the canonical alphabet `0-9 . + - * / ( )`. */
module PyAst {

  /** The binary operator classes: `+ - * / // **`. */
  datatype BinOperator = Add | Sub | Mult | Div | FloorDiv | Pow

  /** The unary operator classes: `+x` and `-x`. */
  datatype UnaryOperator = UAdd | USub

  /** The other node kinds the canonical alphabet can produce: a call such
      as `2(3)`, the empty tuple `()` and the constant `...`.  The safe
      evaluator rejects them without looking inside, so their children are
      not kept. */
  datatype OtherKind = Call | Tuple | EllipsisConstant

  /** An expression node.  A number literal (`ast.Num`, an int or a float)
      carries its exact value; Python's `/` always yields a float, which the
      model does not distinguish from an int. */
  datatype Node =
    | Num(value: real)
    | BinOp(op: BinOperator, left: Node, right: Node)
    | UnaryOp(uop: UnaryOperator, operand: Node)
    | Other(kind: OtherKind)

  /** The name of the operator's class in the `ast` module. */
  function BinOperatorName(op: BinOperator): string
  {
    match op
    case Add => "Add"
    case Sub => "Sub"
    case Mult => "Mult"
    case Div => "Div"
    case FloorDiv => "FloorDiv"
    case Pow => "Pow"
  }

  function UnaryOperatorName(op: UnaryOperator): string
  {
    match op
    case UAdd => "UAdd"
    case USub => "USub"
  }

  /** How Python formats a node class, `<class 'ast.Add'>`. */
  function ClassText(name: string): string
  {
    "<class 'ast." + name + "'>"
  }

  /** How Python formats a node object, without the memory address that
      follows the class name. */
  function NodeText(kind: OtherKind): string
  {
    match kind
    case Call => "<ast.Call object>"
    case Tuple => "<ast.Tuple object>"
    case EllipsisConstant => "<ast.Constant object>"
  }
}
