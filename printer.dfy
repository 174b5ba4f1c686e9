/** A printer for expression trees, the inverse of `ast.parse` on what it
    prints: every operation is written in full brackets, numbers as decimal
    integers.  That `ast.parse` reads the text back as the same tree shows
    that the tokenizer and the parser agree with the tree shapes the
    evaluator works on. */
module Printer {
  import opened Common
  import opened PyAst
  import opened Tokenizer
  import opened Parser
  import opened Evaluator

  function DigitChar(d: nat): (c: char)
    requires d < 10
    ensures IsDigit(c) && DigitValue(c) == d
  {
    ('0' as int + d) as char
  }

  /** The decimal digits of `k`, without leading zeros. */
  function NatDigits(k: nat): (d: string)
    ensures d != [] && AllDigits(d)
  {
    if k < 10 then [DigitChar(k)] else NatDigits(k / 10) + [DigitChar(k % 10)]
  }

  /** Reading the digits back gives the number, and only `0` starts with `0`. */
  lemma {:induction false} NatDigitsValue(k: nat)
    ensures DigitsValue(NatDigits(k)) == k
    ensures NatDigits(k)[0] == '0' ==> k == 0
  {
    if k >= 10 {
      var d := NatDigits(k / 10);
      NatDigitsValue(k / 10);
      assert (d + [DigitChar(k % 10)])[..|d|] == d;
    }
  }

  /** A real that a decimal integer literal can denote. */
  predicate IsNatural(v: real)
  {
    v >= 0.0 && v.Floor as real == v
  }

  /** The trees the printer handles: natural-number literals under binary
      and unary operators. */
  predicate Printable(n: Node)
  {
    match n
    case Num(v) => IsNatural(v)
    case BinOp(_, l, r) => Printable(l) && Printable(r)
    case UnaryOp(_, e) => Printable(e)
    case Other(_) => false
  }

  function OperatorText(op: BinOperator): string
  {
    match op
    case Add => "+"
    case Sub => "-"
    case Mult => "*"
    case Div => "/"
    case FloorDiv => "//"
    case Pow => "**"
  }

  function OperatorToken(op: BinOperator): Token
  {
    match op
    case Add => Plus
    case Sub => Minus
    case Mult => Star
    case Div => Slash
    case FloorDiv => DoubleSlash
    case Pow => DoubleStar
  }

  function SignText(op: UnaryOperator): string
  {
    match op
    case UAdd => "+"
    case USub => "-"
  }

  function SignToken(op: UnaryOperator): Token
  {
    match op
    case UAdd => Plus
    case USub => Minus
  }

  /** The text of a tree: canonical, and it starts and ends with a digit or
      a bracket. */
  function Show(n: Node): (s: string)
    requires Printable(n)
    ensures IsCanonical(s) && s != []
    ensures IsDigit(s[0]) || s[0] == '('
  {
    match n
    case Num(v) => NatDigits(v.Floor)
    case BinOp(op, l, r) => "(" + Show(l) + OperatorText(op) + Show(r) + ")"
    case UnaryOp(op, e) => "(" + SignText(op) + Show(e) + ")"
  }

  /** The tokens of `Show(n)`. */
  function ShowTokens(n: Node): (ts: seq<Token>)
    requires Printable(n)
    ensures ts != [] && (ts[0].Number? || ts[0] == LParen)
  {
    match n
    case Num(v) => [Number(v)]
    case BinOp(op, l, r) => [LParen] + ShowTokens(l) + [OperatorToken(op)] + ShowTokens(r) + [RParen]
    case UnaryOp(op, e) => [LParen, SignToken(op)] + ShowTokens(e) + [RParen]
  }

  // ---------------------------------------------------------------------
  // Tokenizing printed text.

  /** Tokens in front of a token stream that may have failed. */
  function Prepend(ts: seq<Token>, o: Option<seq<Token>>): Option<seq<Token>>
  {
    if o.Some? then Some(ts + o.value) else None
  }

  lemma PrependTwice(a: seq<Token>, b: seq<Token>, o: Option<seq<Token>>)
    ensures Prepend(a, Prepend(b, o)) == Prepend(a + b, o)
  {
    if o.Some? {
      assert a + (b + o.value) == (a + b) + o.value;
    }
  }

  /** One step of the tokenizer. */
  lemma TokenizeStep(s: string, t: Token, k: nat)
    requires s != [] && NextToken(s) == Some((t, k))
    ensures Tokenize(s) == Prepend([t], Tokenize(s[k..]))
  {
  }

  lemma {:induction false} DigitRunConcat(d: string, rest: string)
    requires AllDigits(d)
    requires rest == [] || !IsDigit(rest[0])
    ensures DigitRun(d + rest) == |d|
  {
    if d != [] {
      assert (d + rest)[1..] == d[1..] + rest;
      DigitRunConcat(d[1..], rest);
    } else {
      assert d + rest == rest;
    }
  }

  /** The digits of a natural number, followed by anything but a digit or
      a point, are one number token. */
  lemma TokenizeNumber(k: nat, rest: string)
    requires rest == [] || !(IsDigit(rest[0]) || rest[0] == '.')
    ensures Tokenize(NatDigits(k) + rest) == Prepend([Number(k as real)], Tokenize(rest))
  {
    var d := NatDigits(k);
    var s := d + rest;
    DigitRunConcat(d, rest);
    NatDigitsValue(k);
    assert s[..|d|] == d;
    assert |d| < |s| ==> s[|d|] == rest[0];
    assert NextToken(s) == Some((Number(k as real), |d|));
    TokenizeStep(s, Number(k as real), |d|);
    assert s[|d|..] == rest;
  }

  /** An operator followed by a digit or an opening bracket is one token. */
  lemma TokenizeOperator(op: BinOperator, rest: string)
    requires rest != [] && (IsDigit(rest[0]) || rest[0] == '(')
    ensures Tokenize(OperatorText(op) + rest) == Prepend([OperatorToken(op)], Tokenize(rest))
  {
    var s := OperatorText(op) + rest;
    assert s[|OperatorText(op)|] == rest[0];
    assert NextToken(s) == Some((OperatorToken(op), |OperatorText(op)|));
    TokenizeStep(s, OperatorToken(op), |OperatorText(op)|);
    assert s[|OperatorText(op)|..] == rest;
  }

  /** A one-character token: a sign or a bracket. */
  lemma TokenizeSingle(c: char, t: Token, rest: string)
    requires (c == '(' && t == LParen) || (c == ')' && t == RParen) || (c == '+' && t == Plus) || (c == '-' && t == Minus)
    ensures Tokenize([c] + rest) == Prepend([t], Tokenize(rest))
  {
    TokenizeStep([c] + rest, t, 1);
    assert ([c] + rest)[1..] == rest;
  }

  lemma TokenizeSign(op: UnaryOperator, rest: string)
    ensures Tokenize(SignText(op) + rest) == Prepend([SignToken(op)], Tokenize(rest))
  {
    TokenizeSingle(SignText(op)[0], SignToken(op), rest);
  }

  /** Printed text, followed by anything that does not continue a number,
      tokenizes to the printed tree's tokens. */
  lemma {:induction false} TokenizeShow(n: Node, rest: string)
    requires Printable(n)
    requires rest == [] || !(IsDigit(rest[0]) || rest[0] == '.')
    ensures Tokenize(Show(n) + rest) == Prepend(ShowTokens(n), Tokenize(rest))
    decreases n
  {
    match n
    case Num(v) =>
      TokenizeNumber(v.Floor, rest);
    case BinOp(op, l, r) =>
      var close := ")" + rest;
      var right := Show(r) + close;
      var after := OperatorText(op) + right;
      TokenizeShow(r, close);
      TokenizeShow(l, after);
      ShowBinOpSplit(op, l, r, rest);
      ChainBinOp(op, Show(l), Show(r), rest, ShowTokens(l), ShowTokens(r));
    case UnaryOp(op, e) =>
      var close := ")" + rest;
      TokenizeShow(e, close);
      ShowUnaryOpSplit(op, e, rest);
      ChainUnaryOp(op, Show(e), rest, ShowTokens(e));
  }

  lemma ShowBinOpSplit(op: BinOperator, l: Node, r: Node, rest: string)
    requires Printable(l) && Printable(r)
    ensures Show(BinOp(op, l, r)) + rest == "(" + (Show(l) + (OperatorText(op) + (Show(r) + (")" + rest))))
    ensures ShowTokens(BinOp(op, l, r)) == [LParen] + (ShowTokens(l) + ([OperatorToken(op)] + (ShowTokens(r) + [RParen])))
  {
    Regroup("(", Show(l), OperatorText(op), Show(r), ")", rest);
    Regroup([LParen], ShowTokens(l), [OperatorToken(op)], ShowTokens(r), [RParen], []);
  }

  lemma Regroup<T>(a: seq<T>, b: seq<T>, c: seq<T>, d: seq<T>, e: seq<T>, f: seq<T>)
    ensures a + b + c + d + e + f == a + (b + (c + (d + (e + f))))
    ensures a + b + c + d + e == a + (b + (c + (d + e)))
  {
  }

  lemma ShowUnaryOpSplit(op: UnaryOperator, e: Node, rest: string)
    requires Printable(e)
    ensures Show(UnaryOp(op, e)) + rest == "(" + (SignText(op) + (Show(e) + (")" + rest)))
    ensures ShowTokens(UnaryOp(op, e)) == [LParen] + ([SignToken(op)] + (ShowTokens(e) + [RParen]))
  {
  }

  /** The tokenizer steps for `(l op r)`, given the tokens of `l` and `r`. */
  lemma ChainBinOp(op: BinOperator, left: string, right: string, rest: string, lt: seq<Token>, rt: seq<Token>)
    requires right != [] && (IsDigit(right[0]) || right[0] == '(')
    requires Tokenize(right + (")" + rest)) == Prepend(rt, Tokenize(")" + rest))
    requires Tokenize(left + (OperatorText(op) + (right + (")" + rest))))
          == Prepend(lt, Tokenize(OperatorText(op) + (right + (")" + rest))))
    ensures Tokenize("(" + (left + (OperatorText(op) + (right + (")" + rest)))))
         == Prepend([LParen] + (lt + ([OperatorToken(op)] + (rt + [RParen]))), Tokenize(rest))
  {
    TokenizeSingle('(', LParen, left + (OperatorText(op) + (right + (")" + rest))));
    TokenizeOperator(op, right + (")" + rest));
    TokenizeSingle(')', RParen, rest);
    PrependTwice(rt, [RParen], Tokenize(rest));
    PrependTwice([OperatorToken(op)], rt + [RParen], Tokenize(rest));
    PrependTwice(lt, [OperatorToken(op)] + (rt + [RParen]), Tokenize(rest));
    PrependTwice([LParen], lt + ([OperatorToken(op)] + (rt + [RParen])), Tokenize(rest));
  }

  /** The tokenizer steps for `(op e)`, given the tokens of `e`. */
  lemma ChainUnaryOp(op: UnaryOperator, operand: string, rest: string, et: seq<Token>)
    requires Tokenize(operand + (")" + rest)) == Prepend(et, Tokenize(")" + rest))
    ensures Tokenize("(" + (SignText(op) + (operand + (")" + rest))))
         == Prepend([LParen] + ([SignToken(op)] + (et + [RParen])), Tokenize(rest))
  {
    TokenizeSingle('(', LParen, SignText(op) + (operand + (")" + rest)));
    TokenizeSign(op, operand + (")" + rest));
    TokenizeSingle(')', RParen, rest);
    PrependTwice(et, [RParen], Tokenize(rest));
    PrependTwice([SignToken(op)], et + [RParen], Tokenize(rest));
    PrependTwice([LParen], [SignToken(op)] + (et + [RParen]), Tokenize(rest));
  }

  // ---------------------------------------------------------------------
  // Parsing the printed tokens.

  lemma ShowTokensSplit(op: BinOperator, l: Node, r: Node, rest: seq<Token>)
    requires Printable(l) && Printable(r)
    ensures ShowTokens(BinOp(op, l, r)) + rest
         == [LParen] + (ShowTokens(l) + ([OperatorToken(op)] + (ShowTokens(r) + ([RParen] + rest))))
  {
    Regroup([LParen], ShowTokens(l), [OperatorToken(op)], ShowTokens(r), [RParen], rest);
  }

  lemma ShowTokensUnarySplit(op: UnaryOperator, e: Node, rest: seq<Token>)
    requires Printable(e)
    ensures ShowTokens(UnaryOp(op, e)) + rest == [LParen] + ([SignToken(op)] + (ShowTokens(e) + ([RParen] + rest)))
  {
    assert [LParen, SignToken(op)] == [LParen] + [SignToken(op)];
    Regroup([LParen], [SignToken(op)], ShowTokens(e), [RParen], rest, []);
  }

  /** What an operand's tokens can start with. */
  predicate OperandStart(ts: seq<Token>)
  {
    ts != [] && (ts[0].Number? || ts[0] == LParen)
  }

  /** The shape `[t] + (x + ([RParen] + rest))` seen one token at a time. */
  lemma Shape(t: Token, x: seq<Token>, rest: seq<Token>)
    ensures StartsWith([t] + (x + ([RParen] + rest)), t)
    ensures ([t] + (x + ([RParen] + rest)))[1..] == x + ([RParen] + rest)
    ensures StartsWith([RParen] + rest, RParen) && ([RParen] + rest)[1..] == rest
  {
  }

  /** `(l + r)` and `(l - r)` read back: the operands are terms and the
      bracket stops the sum. */
  lemma ParseAdditive(op: BinOperator, l: Node, r: Node, lt: seq<Token>, rt: seq<Token>, rest: seq<Token>)
    requires op == Add || op == Sub
    requires OperandStart(lt) && OperandStart(rt)
    requires ParseAtom(lt + ([OperatorToken(op)] + (rt + ([RParen] + rest))))
          == Some(Parsed(l, [OperatorToken(op)] + (rt + ([RParen] + rest))))
    requires ParseAtom(rt + ([RParen] + rest)) == Some(Parsed(r, [RParen] + rest))
    ensures ParseAtom([LParen] + (lt + ([OperatorToken(op)] + (rt + ([RParen] + rest)))))
         == Some(Parsed(BinOp(op, l, r), rest))
  {
    var closing := [RParen] + rest;
    var r1 := [OperatorToken(op)] + (rt + closing);
    Shape(OperatorToken(op), rt, rest);
    TermOfAtom(lt + r1, Parsed(l, r1));
    TermOfAtom(rt + closing, Parsed(r, closing));
    AdditiveSum(op, l, r, lt + r1, r1, rt + closing, closing);
    Shape(LParen, lt + r1, []);
    assert ([LParen] + (lt + r1))[1..] == lt + r1;
    GroupStep([LParen] + (lt + r1), Parsed(BinOp(op, l, r), closing));
  }

  lemma AdditiveSum(op: BinOperator, l: Node, r: Node, ts: seq<Token>, r1: seq<Token>, operand: seq<Token>, closing: seq<Token>)
    requires op == Add || op == Sub
    requires StartsWith(r1, OperatorToken(op)) && r1[1..] == operand && StartsWith(closing, RParen)
    requires ParseTerm(ts) == Some(Parsed(l, r1))
    requires ParseTerm(operand) == Some(Parsed(r, closing))
    ensures ParseSum(ts) == Some(Parsed(BinOp(op, l, r), closing))
  {
    SumStep(ts, Parsed(l, r1));
    SumTailStep(l, r1, Parsed(r, closing));
    SumTailStop(BinOp(op, l, r), closing);
  }

  /** `(l * r)`, `(l / r)` and `(l // r)` read back. */
  lemma ParseMultiplicative(op: BinOperator, l: Node, r: Node, lt: seq<Token>, rt: seq<Token>, rest: seq<Token>)
    requires op == Mult || op == Div || op == FloorDiv
    requires OperandStart(lt) && OperandStart(rt)
    requires ParseAtom(lt + ([OperatorToken(op)] + (rt + ([RParen] + rest))))
          == Some(Parsed(l, [OperatorToken(op)] + (rt + ([RParen] + rest))))
    requires ParseAtom(rt + ([RParen] + rest)) == Some(Parsed(r, [RParen] + rest))
    ensures ParseAtom([LParen] + (lt + ([OperatorToken(op)] + (rt + ([RParen] + rest)))))
         == Some(Parsed(BinOp(op, l, r), rest))
  {
    var closing := [RParen] + rest;
    var r1 := [OperatorToken(op)] + (rt + closing);
    Shape(OperatorToken(op), rt, rest);
    FactorOfAtom(lt + r1, Parsed(l, r1));
    FactorOfAtom(rt + closing, Parsed(r, closing));
    MultiplicativeSum(op, l, r, lt + r1, r1, rt + closing, closing);
    Shape(LParen, lt + r1, []);
    assert ([LParen] + (lt + r1))[1..] == lt + r1;
    GroupStep([LParen] + (lt + r1), Parsed(BinOp(op, l, r), closing));
  }

  lemma MultiplicativeSum(op: BinOperator, l: Node, r: Node, ts: seq<Token>, r1: seq<Token>, operand: seq<Token>, closing: seq<Token>)
    requires op == Mult || op == Div || op == FloorDiv
    requires StartsWith(r1, OperatorToken(op)) && r1[1..] == operand && StartsWith(closing, RParen)
    requires ParseFactor(ts) == Some(Parsed(l, r1))
    requires ParseFactor(operand) == Some(Parsed(r, closing))
    ensures ParseSum(ts) == Some(Parsed(BinOp(op, l, r), closing))
  {
    TermStep(ts, Parsed(l, r1));
    TermTailStep(l, r1, Parsed(r, closing));
    TermTailStop(BinOp(op, l, r), closing);
    SumStep(ts, Parsed(BinOp(op, l, r), closing));
    SumTailStop(BinOp(op, l, r), closing);
  }

  /** `(l ** r)` reads back. */
  lemma ParsePower(l: Node, r: Node, lt: seq<Token>, rt: seq<Token>, rest: seq<Token>)
    requires OperandStart(lt) && OperandStart(rt)
    requires ParseAtom(lt + ([DoubleStar] + (rt + ([RParen] + rest))))
          == Some(Parsed(l, [DoubleStar] + (rt + ([RParen] + rest))))
    requires ParseAtom(rt + ([RParen] + rest)) == Some(Parsed(r, [RParen] + rest))
    ensures ParseAtom([LParen] + (lt + ([DoubleStar] + (rt + ([RParen] + rest)))))
         == Some(Parsed(BinOp(Pow, l, r), rest))
  {
    var closing := [RParen] + rest;
    var r1 := [DoubleStar] + (rt + closing);
    Shape(DoubleStar, rt, rest);
    PrimaryOfAtom(lt + r1, Parsed(l, r1));
    FactorOfAtom(rt + closing, Parsed(r, closing));
    PowerSum(l, r, lt + r1, r1, rt + closing, closing);
    Shape(LParen, lt + r1, []);
    assert ([LParen] + (lt + r1))[1..] == lt + r1;
    GroupStep([LParen] + (lt + r1), Parsed(BinOp(Pow, l, r), closing));
  }

  lemma PowerSum(l: Node, r: Node, ts: seq<Token>, r1: seq<Token>, operand: seq<Token>, closing: seq<Token>)
    requires OperandStart(ts)
    requires StartsWith(r1, DoubleStar) && r1[1..] == operand && StartsWith(closing, RParen)
    requires ParsePrimary(ts) == Some(Parsed(l, r1))
    requires ParseFactor(operand) == Some(Parsed(r, closing))
    ensures ParseSum(ts) == Some(Parsed(BinOp(Pow, l, r), closing))
  {
    var p := Parsed(BinOp(Pow, l, r), closing);
    PowerStep(ts, Parsed(l, r1), Parsed(r, closing));
    FactorOfPower(ts, p);
    TermOfFactor(ts, p);
    SumOfTerm(ts, p);
  }

  /** `(+e)` and `(-e)` read back. */
  lemma ParseSigned(op: UnaryOperator, e: Node, et: seq<Token>, rest: seq<Token>)
    requires OperandStart(et)
    requires ParseAtom(et + ([RParen] + rest)) == Some(Parsed(e, [RParen] + rest))
    ensures ParseAtom([LParen] + ([SignToken(op)] + (et + ([RParen] + rest))))
         == Some(Parsed(UnaryOp(op, e), rest))
  {
    var closing := [RParen] + rest;
    var ts1 := [SignToken(op)] + (et + closing);
    Shape(SignToken(op), et, rest);
    FactorOfAtom(et + closing, Parsed(e, closing));
    SignedSum(op, e, ts1, et + closing, closing);
    Shape(LParen, ts1, []);
    assert ([LParen] + ts1)[1..] == ts1;
    GroupStep([LParen] + ts1, Parsed(UnaryOp(op, e), closing));
  }

  lemma SignedSum(op: UnaryOperator, e: Node, ts: seq<Token>, operand: seq<Token>, closing: seq<Token>)
    requires StartsWith(ts, SignToken(op)) && ts[1..] == operand && StartsWith(closing, RParen)
    requires ParseFactor(operand) == Some(Parsed(e, closing))
    ensures ParseSum(ts) == Some(Parsed(UnaryOp(op, e), closing))
  {
    var p := Parsed(UnaryOp(op, e), closing);
    SignStep(ts, Parsed(e, closing));
    TermOfFactor(ts, p);
    SumOfTerm(ts, p);
  }

  /** The printed tokens of a tree are one atom, whatever follows them. */
  lemma {:induction false} ParseShowTokens(n: Node, rest: seq<Token>)
    requires Printable(n)
    ensures ParseAtom(ShowTokens(n) + rest) == Some(Parsed(n, rest))
    decreases n
  {
    match n
    case Num(v) =>
      assert ([Number(v)] + rest)[1..] == rest;
    case BinOp(op, l, r) =>
      var closing := [RParen] + rest;
      var r1 := [OperatorToken(op)] + (ShowTokens(r) + closing);
      ParseShowTokens(l, r1);
      ParseShowTokens(r, closing);
      ShowTokensSplit(op, l, r, rest);
      if op == Add || op == Sub {
        ParseAdditive(op, l, r, ShowTokens(l), ShowTokens(r), rest);
      } else if op == Pow {
        ParsePower(l, r, ShowTokens(l), ShowTokens(r), rest);
      } else {
        ParseMultiplicative(op, l, r, ShowTokens(l), ShowTokens(r), rest);
      }
    case UnaryOp(op, e) =>
      ParseShowTokens(e, [RParen] + rest);
      ShowTokensUnarySplit(op, e, rest);
      ParseSigned(op, e, ShowTokens(e), rest);
  }

  /** Round trip: `ast.parse` reads printed text back as the same tree. */
  lemma ParseShow(n: Node)
    requires Printable(n)
    ensures Parse(Show(n)) == Some(n)
  {
    TokenizeShow(n, []);
    assert Show(n) + [] == Show(n);
    ParseShowTokens(n, []);
    assert ShowTokens(n) + [] == ShowTokens(n);
    SumOfAtom(ShowTokens(n), Parsed(n, []));
  }

  /** Every outcome of `safe_eval` on such a tree is what `solve_operation`
      reports for the tree's text. */
  lemma SolveShown(t: OperatorTable, n: Node)
    requires Printable(n)
    ensures SafeEval(t, n).Value? ==> SolveOperation(t, Show(n)) == Reply(None, Solved(SafeEval(t, n).v))
    ensures SafeEval(t, n).Raised? ==> SolveOperation(t, Show(n)) == Report(SafeEval(t, n).e)
  {
    ParseShow(n);
  }
}
