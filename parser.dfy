/** Python's expression grammar on the canonical alphabet, the second half
    of `ast.parse(text, mode='eval').body` (ocr_processing.py:142).

    With no names, strings, commas or comparison signs available, the rules
    of the grammar that can match are

      expression: sum
      sum:     sum ('+' | '-') term | term
      term:    term ('*' | '/' | '//') factor | factor
      factor:  ('+' | '-') factor | power
      power:   primary '**' factor | primary
      primary: primary '(' [arguments] ')' | atom
      arguments: ('*' expression | '**' expression | expression) &')'
      atom:    NUMBER | '...' | '(' ')' | '(' expression ')'

    Each function below follows one rule as the parsing-expression grammar
    reads it: alternatives in order, repetitions as long as they match, and
    a failed repetition leaving its tokens unread.  A result is the node and
    the tokens that follow it. */
module Parser {
  import opened Common
  import opened PyAst
  import opened Tokenizer

  datatype Parsed = Parsed(node: Node, rest: seq<Token>)

  predicate StartsWith(ts: seq<Token>, t: Token)
  {
    |ts| > 0 && ts[0] == t
  }

  /** `sum` (and so `expression`). */
  function ParseSum(ts: seq<Token>): (r: Option<Parsed>)
    ensures r.Some? ==> |r.value.rest| < |ts|
    decreases |ts|, 6
  {
    match ParseTerm(ts)
    case None => None
    case Some(p) => Some(SumTail(p.node, p.rest))
  }

  /** The left-associative repetition `(('+' | '-') term)*` after `acc`. */
  function SumTail(acc: Node, ts: seq<Token>): (r: Parsed)
    ensures |r.rest| <= |ts|
    decreases |ts|, 6
  {
    if StartsWith(ts, Plus) || StartsWith(ts, Minus) then
      match ParseTerm(ts[1..])
      case None => Parsed(acc, ts)
      case Some(q) => SumTail(BinOp(if ts[0] == Plus then Add else Sub, acc, q.node), q.rest)
    else
      Parsed(acc, ts)
  }

  /** `term`. */
  function ParseTerm(ts: seq<Token>): (r: Option<Parsed>)
    ensures r.Some? ==> |r.value.rest| < |ts|
    decreases |ts|, 5
  {
    match ParseFactor(ts)
    case None => None
    case Some(p) => Some(TermTail(p.node, p.rest))
  }

  function MulOperator(t: Token): BinOperator
    requires t == Star || t == Slash || t == DoubleSlash
  {
    if t == Star then Mult else if t == Slash then Div else FloorDiv
  }

  /** The left-associative repetition `(('*' | '/' | '//') factor)*`. */
  function TermTail(acc: Node, ts: seq<Token>): (r: Parsed)
    ensures |r.rest| <= |ts|
    decreases |ts|, 5
  {
    if StartsWith(ts, Star) || StartsWith(ts, Slash) || StartsWith(ts, DoubleSlash) then
      match ParseFactor(ts[1..])
      case None => Parsed(acc, ts)
      case Some(q) => TermTail(BinOp(MulOperator(ts[0]), acc, q.node), q.rest)
    else
      Parsed(acc, ts)
  }

  /** `factor`: unary signs nest to the right. */
  function ParseFactor(ts: seq<Token>): (r: Option<Parsed>)
    ensures r.Some? ==> |r.value.rest| < |ts|
    decreases |ts|, 4
  {
    if StartsWith(ts, Plus) || StartsWith(ts, Minus) then
      match ParseFactor(ts[1..])
      case None => None
      case Some(p) => Some(Parsed(UnaryOp(if ts[0] == Plus then UAdd else USub, p.node), p.rest))
    else
      ParsePower(ts)
  }

  /** `power`: the exponent is a `factor`, so `**` groups to the right and
      binds tighter than a unary sign on its left. */
  function ParsePower(ts: seq<Token>): (r: Option<Parsed>)
    ensures r.Some? ==> |r.value.rest| < |ts|
    decreases |ts|, 3
  {
    match ParsePrimary(ts)
    case None => None
    case Some(p) =>
      if StartsWith(p.rest, DoubleStar) then
        match ParseFactor(p.rest[1..])
        case None => Some(p)
        case Some(q) => Some(Parsed(BinOp(Pow, p.node, q.node), q.rest))
      else
        Some(p)
  }

  /** `primary`: an atom followed by any number of call brackets. */
  function ParsePrimary(ts: seq<Token>): (r: Option<Parsed>)
    ensures r.Some? ==> |r.value.rest| < |ts|
    decreases |ts|, 2
  {
    match ParseAtom(ts)
    case None => None
    case Some(p) => Some(PrimaryTail(p.node, p.rest))
  }

  function PrimaryTail(acc: Node, ts: seq<Token>): (r: Parsed)
    ensures |r.rest| <= |ts|
    decreases |ts|, 2
  {
    if StartsWith(ts, LParen) then
      match CallArguments(ts[1..])
      case None => Parsed(acc, ts)
      case Some(rest) => PrimaryTail(Other(Call), rest)
    else
      Parsed(acc, ts)
  }

  /** What follows the `(` of a call: `[arguments] ')'`; the tokens after
      the `)`. */
  function CallArguments(ts: seq<Token>): (r: Option<seq<Token>>)
    ensures r.Some? ==> |r.value| < |ts|
    decreases |ts|, 7
  {
    if StartsWith(ts, RParen) then
      Some(ts[1..])
    else
      var arg := if StartsWith(ts, Star) || StartsWith(ts, DoubleStar) then ParseSum(ts[1..]) else ParseSum(ts);
      match arg
      case None => None
      case Some(p) => if StartsWith(p.rest, RParen) then Some(p.rest[1..]) else None
  }

  /** `atom`. */
  function ParseAtom(ts: seq<Token>): (r: Option<Parsed>)
    ensures r.Some? ==> |r.value.rest| < |ts|
    decreases |ts|, 1
  {
    if ts == [] then
      None
    else
      if ts[0].Number? then
        Some(Parsed(Num(ts[0].value), ts[1..]))
      else if ts[0] == Ellipsis then
        Some(Parsed(Other(EllipsisConstant), ts[1..]))
      else if ts[0] == LParen then
        if StartsWith(ts[1..], RParen) then
          Some(Parsed(Other(Tuple), ts[2..]))
        else
          match ParseSum(ts[1..])
          case None => None
          case Some(p) => if StartsWith(p.rest, RParen) then Some(Parsed(p.node, p.rest[1..])) else None
      else
        None
  }

  /** `ast.parse(text, mode='eval').body`, or `None` where Python raises
      `SyntaxError`: the tokenizer fails, or the expression does not take
      every token. */
  function Parse(text: string): (r: Option<Node>)
    requires IsCanonical(text)
    ensures text == [] ==> r.None?
  {
    match Tokenize(text)
    case None => None
    case Some(ts) =>
      match ParseSum(ts)
      case None => None
      case Some(p) => if p.rest == [] then Some(p.node) else None
  }

  // ---------------------------------------------------------------------
  // Climbing the precedence levels: a phrase parsed at one level is the
  // whole phrase at the level above when the next token cannot continue it.

  lemma PrimaryOfAtom(ts: seq<Token>, p: Parsed)
    requires ParseAtom(ts) == Some(p) && !StartsWith(p.rest, LParen)
    ensures ParsePrimary(ts) == Some(p)
  {
  }

  lemma PowerOfPrimary(ts: seq<Token>, p: Parsed)
    requires ParsePrimary(ts) == Some(p) && !StartsWith(p.rest, DoubleStar)
    ensures ParsePower(ts) == Some(p)
  {
  }

  lemma FactorOfPower(ts: seq<Token>, p: Parsed)
    requires ParsePower(ts) == Some(p) && !StartsWith(ts, Plus) && !StartsWith(ts, Minus)
    ensures ParseFactor(ts) == Some(p)
  {
  }

  lemma TermOfFactor(ts: seq<Token>, p: Parsed)
    requires ParseFactor(ts) == Some(p)
    requires !StartsWith(p.rest, Star) && !StartsWith(p.rest, Slash) && !StartsWith(p.rest, DoubleSlash)
    ensures ParseTerm(ts) == Some(p)
  {
  }

  lemma SumOfTerm(ts: seq<Token>, p: Parsed)
    requires ParseTerm(ts) == Some(p) && !StartsWith(p.rest, Plus) && !StartsWith(p.rest, Minus)
    ensures ParseSum(ts) == Some(p)
  {
  }

  /** The tokens after a phrase end it at every level: a closing bracket
      or nothing at all. */
  predicate Closes(rest: seq<Token>)
  {
    rest == [] || rest[0] == RParen
  }

  /** An atom followed by `)` or by the end is a whole expression. */
  lemma SumOfAtom(ts: seq<Token>, p: Parsed)
    requires ParseAtom(ts) == Some(p) && Closes(p.rest)
    ensures ParseSum(ts) == Some(p)
  {
    PrimaryOfAtom(ts, p);
    PowerOfPrimary(ts, p);
    FactorOfPower(ts, p);
    TermOfFactor(ts, p);
    SumOfTerm(ts, p);
  }

  /** An atom followed by a `+` or `-` is a whole term. */
  lemma TermOfAtom(ts: seq<Token>, p: Parsed)
    requires ParseAtom(ts) == Some(p) && (StartsWith(p.rest, Plus) || StartsWith(p.rest, Minus) || Closes(p.rest))
    ensures ParseTerm(ts) == Some(p)
  {
    PrimaryOfAtom(ts, p);
    PowerOfPrimary(ts, p);
    FactorOfPower(ts, p);
    TermOfFactor(ts, p);
  }

  /** An atom followed by a binary operator other than `**` is a whole factor. */
  lemma FactorOfAtom(ts: seq<Token>, p: Parsed)
    requires ParseAtom(ts) == Some(p) && !StartsWith(p.rest, LParen) && !StartsWith(p.rest, DoubleStar)
    ensures ParseFactor(ts) == Some(p)
  {
    PrimaryOfAtom(ts, p);
    PowerOfPrimary(ts, p);
    FactorOfPower(ts, p);
  }

  // ---------------------------------------------------------------------
  // One step of each rule.

  lemma SumStep(ts: seq<Token>, p: Parsed)
    requires ParseTerm(ts) == Some(p)
    ensures ParseSum(ts) == Some(SumTail(p.node, p.rest))
  {
  }

  lemma SumTailStep(acc: Node, ts: seq<Token>, q: Parsed)
    requires StartsWith(ts, Plus) || StartsWith(ts, Minus)
    requires ParseTerm(ts[1..]) == Some(q)
    ensures SumTail(acc, ts) == SumTail(BinOp(if ts[0] == Plus then Add else Sub, acc, q.node), q.rest)
  {
  }

  lemma SumTailStop(acc: Node, ts: seq<Token>)
    requires !StartsWith(ts, Plus) && !StartsWith(ts, Minus)
    ensures SumTail(acc, ts) == Parsed(acc, ts)
  {
  }

  lemma TermStep(ts: seq<Token>, p: Parsed)
    requires ParseFactor(ts) == Some(p)
    ensures ParseTerm(ts) == Some(TermTail(p.node, p.rest))
  {
  }

  lemma TermTailStep(acc: Node, ts: seq<Token>, q: Parsed)
    requires StartsWith(ts, Star) || StartsWith(ts, Slash) || StartsWith(ts, DoubleSlash)
    requires ParseFactor(ts[1..]) == Some(q)
    ensures TermTail(acc, ts) == TermTail(BinOp(MulOperator(ts[0]), acc, q.node), q.rest)
  {
  }

  lemma TermTailStop(acc: Node, ts: seq<Token>)
    requires !StartsWith(ts, Star) && !StartsWith(ts, Slash) && !StartsWith(ts, DoubleSlash)
    ensures TermTail(acc, ts) == Parsed(acc, ts)
  {
  }

  lemma SignStep(ts: seq<Token>, p: Parsed)
    requires StartsWith(ts, Plus) || StartsWith(ts, Minus)
    requires ParseFactor(ts[1..]) == Some(p)
    ensures ParseFactor(ts) == Some(Parsed(UnaryOp(if ts[0] == Plus then UAdd else USub, p.node), p.rest))
  {
  }

  lemma PowerStep(ts: seq<Token>, p: Parsed, q: Parsed)
    requires ParsePrimary(ts) == Some(p) && StartsWith(p.rest, DoubleStar)
    requires ParseFactor(p.rest[1..]) == Some(q)
    ensures ParsePower(ts) == Some(Parsed(BinOp(Pow, p.node, q.node), q.rest))
  {
  }

  lemma GroupStep(ts: seq<Token>, p: Parsed)
    requires StartsWith(ts, LParen) && !StartsWith(ts[1..], RParen)
    requires ParseSum(ts[1..]) == Some(p) && StartsWith(p.rest, RParen)
    ensures ParseAtom(ts) == Some(Parsed(p.node, p.rest[1..]))
  {
  }
}
