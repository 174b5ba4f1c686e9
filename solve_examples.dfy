/** Worked inputs of `solve_operation` (ocr_processing.py:139-149): the text
    a cleanup chain can hand over, what `ast.parse` makes of it, and what is
    reported.  Each text is taken apart in three steps: its tokens, the
    parse of those tokens, and the reply. */
module SolveExamples {
  import opened Common
  import opened PyAst
  import opened Tokenizer
  import opened Parser
  import opened Evaluator

  /** One tokenizer step with its result written out. */
  lemma TokenizeCons(s: string, t: Token, k: nat, rest: seq<Token>, all: seq<Token>)
    requires s != [] && NextToken(s) == Some((t, k)) && Tokenize(s[k..]) == Some(rest)
    requires all == [t] + rest
    ensures Tokenize(s) == Some(all)
  {
  }

  /** A one-character token: a bracket, a sign, a lone `*`, or a nonzero
      digit that no digit or point follows. */
  predicate OneCharToken(s: string, t: Token)
    requires s != []
  {
    || (s[0] == '(' && t == LParen)
    || (s[0] == ')' && t == RParen)
    || (s[0] == '+' && t == Plus)
    || (s[0] == '-' && t == Minus)
    || (s[0] == '*' && t == Star && (|s| == 1 || s[1] != '*'))
    || (IsDigit(s[0]) && s[0] != '0' && t == Number(DigitValue(s[0]) as real)
        && (|s| == 1 || (!IsDigit(s[1]) && s[1] != '.')))
  }

  /** One tokenizer step over a one-character token. */
  lemma TokenizeOne(s: string, t: Token, rest: seq<Token>, all: seq<Token>)
    requires s != [] && OneCharToken(s, t) && Tokenize(s[1..]) == Some(rest)
    requires all == [t] + rest
    ensures Tokenize(s) == Some(all)
  {
    if IsDigit(s[0]) {
      assert DigitRun(s) == 1 by {
        assert DigitRun(s[1..]) == 0;
      }
      var d := s[..1];
      assert d == [s[0]] && d[..0] == [];
      assert DigitsValue(d) == DigitValue(s[0]) by {
        assert DigitsValue(d) == DigitsValue(d[..0]) * 10 + DigitValue(d[0]);
      }
      assert LexNumber(s) == Some((t, 1));
    }
    assert NextToken(s) == Some((t, 1));
  }

  /** `ast.parse` from the token stream and the parse of the tokens. */
  lemma ParseFromTokens(text: string, ts: seq<Token>, p: Parsed)
    requires IsCanonical(text) && Tokenize(text) == Some(ts) && ParseSum(ts) == Some(p)
    ensures Parse(text) == if p.rest == [] then Some(p.node) else None
  {
  }

  /** Under a conventional table a parsed text reports its arithmetic value. */
  lemma SolveParsed(t: OperatorTable, text: string, n: Node, v: real)
    requires IsCanonical(text) && Conventional(t)
    requires Parse(text) == Some(n) && FourOperations(n) && Denote(n) == Some(v)
    ensures SolveOperation(t, text) == Reply(None, Solved(v))
  {
    SolveIsArithmetic(t, text);
  }

  /** The general message for a syntax error. */
  const SyntaxErrorReply: Reply := Reply(Some(EvaluationErrorPrefix + SyntaxErrorText), Blank)

  // ---------------------------------------------------------------------
  // `2+3*4`: `*` binds tighter than `+`.

  lemma TokenizePrecedence()
    ensures Tokenize("2+3*4") == Some([Number(2.0), Plus, Number(3.0), Star, Number(4.0)])
  {
    var text := "2+3*4";
    var s1, s2, s3, s4 := "+3*4", "3*4", "*4", "4";
    assert s4[1..] == [] && s3[1..] == s4 && s2[1..] == s3 && s1[1..] == s2 && text[1..] == s1;
    assert Tokenize([]) == Some([]);
    TokenizeCons(s4, Number(4.0), 1, [], [Number(4.0)]);
    TokenizeCons(s3, Star, 1, [Number(4.0)], [Star, Number(4.0)]);
    TokenizeCons(s2, Number(3.0), 1, [Star, Number(4.0)], [Number(3.0), Star, Number(4.0)]);
    TokenizeCons(s1, Plus, 1, [Number(3.0), Star, Number(4.0)], [Plus, Number(3.0), Star, Number(4.0)]);
    TokenizeCons(text, Number(2.0), 1, [Plus, Number(3.0), Star, Number(4.0)], [Number(2.0), Plus, Number(3.0), Star, Number(4.0)]);
  }

  lemma ReadPrecedence(ts: seq<Token>)
    requires ts == [Number(2.0), Plus, Number(3.0), Star, Number(4.0)]
    ensures ParseSum(ts) == Some(Parsed(BinOp(Add, Num(2.0), BinOp(Mult, Num(3.0), Num(4.0))), []))
  {
    var us := [Number(3.0), Star, Number(4.0)];
    var vs := [Number(4.0)];
    assert ts[1..][1..] == us && us[1..] == [Star, Number(4.0)] && [Star, Number(4.0)][1..] == vs;
    var product := BinOp(Mult, Num(3.0), Num(4.0));
    TermOfAtom(ts, Parsed(Num(2.0), ts[1..]));
    SumStep(ts, Parsed(Num(2.0), ts[1..]));
    FactorOfAtom(us, Parsed(Num(3.0), us[1..]));
    TermStep(us, Parsed(Num(3.0), us[1..]));
    FactorOfAtom(vs, Parsed(Num(4.0), []));
    TermTailStep(Num(3.0), us[1..], Parsed(Num(4.0), []));
    TermTailStop(product, []);
    SumTailStep(Num(2.0), ts[1..], Parsed(product, []));
    SumTailStop(BinOp(Add, Num(2.0), product), []);
  }

  lemma ParsePrecedence(text: string)
    requires text == "2+3*4"
    ensures Parse(text) == Some(BinOp(Add, Num(2.0), BinOp(Mult, Num(3.0), Num(4.0))))
  {
    var ts := [Number(2.0), Plus, Number(3.0), Star, Number(4.0)];
    assert IsCanonical(text);
    assert Tokenize(text) == Some(ts) by { TokenizePrecedence(); }
    assert ParseSum(ts) == Some(Parsed(BinOp(Add, Num(2.0), BinOp(Mult, Num(3.0), Num(4.0))), [])) by { ReadPrecedence(ts); }
    ParseFromTokens(text, ts, Parsed(BinOp(Add, Num(2.0), BinOp(Mult, Num(3.0), Num(4.0))), []));
  }

  /** With the usual `+` and `*` the answer is 14, not 20. */
  lemma SolvePrecedence(t: OperatorTable, text: string)
    requires Conventional(t) && text == "2+3*4"
    ensures SolveOperation(t, text) == Reply(None, Solved(14.0))
  {
    var n := BinOp(Add, Num(2.0), BinOp(Mult, Num(3.0), Num(4.0)));
    ParsePrecedence(text);
    assert Denote(n) == Some(14.0);
    SolveParsed(t, text, n, 14.0);
  }

  // ---------------------------------------------------------------------
  // `(2+3)*4`: brackets override precedence.

  lemma TokenizeCloseTimesFour(s: string)
    requires |s| == 3 && s[0] == ')' && s[1] == '*' && s[2] == '4'
    ensures Tokenize(s) == Some([RParen, Star, Number(4.0)])
  {
    assert s[2..][1..] == [];
    assert Tokenize([]) == Some([]);
    TokenizeOne(s[2..], Number(4.0), [], [Number(4.0)]);
    assert s[1..][1..] == s[2..];
    TokenizeOne(s[1..], Star, [Number(4.0)], [Star, Number(4.0)]);
    TokenizeOne(s, RParen, [Star, Number(4.0)], [RParen, Star, Number(4.0)]);
  }

  lemma TokenizeSumClose(s: string)
    requires |s| == 6 && s[0] == '2' && s[1] == '+' && s[2] == '3'
    requires s[3] == ')' && s[4] == '*' && s[5] == '4'
    ensures Tokenize(s) == Some([Number(2.0), Plus, Number(3.0), RParen, Star, Number(4.0)])
  {
    TokenizeCloseTimesFour(s[3..]);
    assert s[2..][1..] == s[3..];
    TokenizeOne(s[2..], Number(3.0), [RParen, Star, Number(4.0)], [Number(3.0), RParen, Star, Number(4.0)]);
    assert s[1..][1..] == s[2..];
    TokenizeOne(s[1..], Plus, [Number(3.0), RParen, Star, Number(4.0)], [Plus, Number(3.0), RParen, Star, Number(4.0)]);
    TokenizeOne(s, Number(2.0), [Plus, Number(3.0), RParen, Star, Number(4.0)],
      [Number(2.0), Plus, Number(3.0), RParen, Star, Number(4.0)]);
  }

  lemma TokenizeGrouped(text: string)
    requires |text| == 7 && text[0] == '(' && text[1] == '2' && text[2] == '+' && text[3] == '3'
    requires text[4] == ')' && text[5] == '*' && text[6] == '4'
    ensures Tokenize(text) == Some([LParen, Number(2.0), Plus, Number(3.0), RParen, Star, Number(4.0)])
  {
    TokenizeSumClose(text[1..]);
    TokenizeOne(text, LParen, [Number(2.0), Plus, Number(3.0), RParen, Star, Number(4.0)],
      [LParen, Number(2.0), Plus, Number(3.0), RParen, Star, Number(4.0)]);
  }

  /** Inside the brackets the sum stops at `)`. */
  lemma ParseBracketedSum(inner: seq<Token>, after: seq<Token>)
    requires after == [RParen, Star, Number(4.0)]
    requires inner == [Number(2.0), Plus, Number(3.0)] + after
    ensures ParseSum(inner) == Some(Parsed(BinOp(Add, Num(2.0), Num(3.0)), after))
  {
    var us := [Number(3.0)] + after;
    assert inner[1..] == [Plus] + us && inner[1..][1..] == us && us[1..] == after;
    TermOfAtom(inner, Parsed(Num(2.0), inner[1..]));
    SumStep(inner, Parsed(Num(2.0), inner[1..]));
    TermOfAtom(us, Parsed(Num(3.0), after));
    SumTailStep(Num(2.0), inner[1..], Parsed(Num(3.0), after));
    SumTailStop(BinOp(Add, Num(2.0), Num(3.0)), after);
  }

  /** An atom followed by `*4` is the whole product. */
  lemma ParseTimesFour(ts: seq<Token>, x: Node)
    requires ParseAtom(ts) == Some(Parsed(x, [Star, Number(4.0)]))
    ensures ParseSum(ts) == Some(Parsed(BinOp(Mult, x, Num(4.0)), []))
  {
    assert [Star, Number(4.0)][1..] == [Number(4.0)];
    FactorOfAtom(ts, Parsed(x, [Star, Number(4.0)]));
    TermStep(ts, Parsed(x, [Star, Number(4.0)]));
    FactorOfAtom([Number(4.0)], Parsed(Num(4.0), []));
    TermTailStep(x, [Star, Number(4.0)], Parsed(Num(4.0), []));
    TermTailStop(BinOp(Mult, x, Num(4.0)), []);
    SumOfTerm(ts, Parsed(BinOp(Mult, x, Num(4.0)), []));
  }

  lemma ReadGrouped(ts: seq<Token>)
    requires ts == [LParen, Number(2.0), Plus, Number(3.0), RParen, Star, Number(4.0)]
    ensures ParseSum(ts) == Some(Parsed(BinOp(Mult, BinOp(Add, Num(2.0), Num(3.0)), Num(4.0)), []))
  {
    var after := [RParen, Star, Number(4.0)];
    assert ts == [LParen] + ([Number(2.0), Plus, Number(3.0)] + after);
    var sum := BinOp(Add, Num(2.0), Num(3.0));
    ParseBracketedSum(ts[1..], after);
    GroupStep(ts, Parsed(sum, after));
    assert after[1..] == [Star, Number(4.0)];
    ParseTimesFour(ts, sum);
  }

  lemma ParseGrouped(text: string)
    requires text == "(2+3)*4"
    ensures Parse(text) == Some(BinOp(Mult, BinOp(Add, Num(2.0), Num(3.0)), Num(4.0)))
  {
    var ts := [LParen, Number(2.0), Plus, Number(3.0), RParen, Star, Number(4.0)];
    var n := BinOp(Mult, BinOp(Add, Num(2.0), Num(3.0)), Num(4.0));
    assert IsCanonical(text);
    assert Tokenize(text) == Some(ts) by { TokenizeGrouped(text); }
    assert ParseSum(ts) == Some(Parsed(n, [])) by { ReadGrouped(ts); }
    ParseFromTokens(text, ts, Parsed(n, []));
  }

  lemma SolveGrouped(t: OperatorTable, text: string)
    requires Conventional(t) && text == "(2+3)*4"
    ensures SolveOperation(t, text) == Reply(None, Solved(20.0))
  {
    var n := BinOp(Mult, BinOp(Add, Num(2.0), Num(3.0)), Num(4.0));
    ParseGrouped(text);
    assert Denote(n) == Some(20.0);
    SolveParsed(t, text, n, 20.0);
  }

  // ---------------------------------------------------------------------
  // `-5+3`: a sign binds tighter than `+`.

  lemma TokenizeSigned()
    ensures Tokenize("-5+3") == Some([Minus, Number(5.0), Plus, Number(3.0)])
  {
    var text := "-5+3";
    var s1, s2, s3 := "5+3", "+3", "3";
    assert s3[1..] == [] && s2[1..] == s3 && s1[1..] == s2 && text[1..] == s1;
    assert Tokenize([]) == Some([]);
    TokenizeCons(s3, Number(3.0), 1, [], [Number(3.0)]);
    TokenizeCons(s2, Plus, 1, [Number(3.0)], [Plus, Number(3.0)]);
    TokenizeCons(s1, Number(5.0), 1, [Plus, Number(3.0)], [Number(5.0), Plus, Number(3.0)]);
    TokenizeCons(text, Minus, 1, [Number(5.0), Plus, Number(3.0)], [Minus, Number(5.0), Plus, Number(3.0)]);
  }

  lemma ReadSigned(ts: seq<Token>)
    requires ts == [Minus, Number(5.0), Plus, Number(3.0)]
    ensures ParseSum(ts) == Some(Parsed(BinOp(Add, UnaryOp(USub, Num(5.0)), Num(3.0)), []))
  {
    var rest := [Plus, Number(3.0)];
    assert ts[1..] == [Number(5.0)] + rest && ts[1..][1..] == rest && rest[1..] == [Number(3.0)];
    var negative := UnaryOp(USub, Num(5.0));
    FactorOfAtom(ts[1..], Parsed(Num(5.0), rest));
    SignStep(ts, Parsed(Num(5.0), rest));
    TermStep(ts, Parsed(negative, rest));
    TermTailStop(negative, rest);
    SumStep(ts, Parsed(negative, rest));
    TermOfAtom([Number(3.0)], Parsed(Num(3.0), []));
    SumTailStep(negative, rest, Parsed(Num(3.0), []));
    SumTailStop(BinOp(Add, negative, Num(3.0)), []);
  }

  lemma ParseSigned(text: string)
    requires text == "-5+3"
    ensures Parse(text) == Some(BinOp(Add, UnaryOp(USub, Num(5.0)), Num(3.0)))
  {
    var ts := [Minus, Number(5.0), Plus, Number(3.0)];
    assert IsCanonical(text);
    assert Tokenize(text) == Some(ts) by { TokenizeSigned(); }
    assert ParseSum(ts) == Some(Parsed(BinOp(Add, UnaryOp(USub, Num(5.0)), Num(3.0)), [])) by { ReadSigned(ts); }
    ParseFromTokens(text, ts, Parsed(BinOp(Add, UnaryOp(USub, Num(5.0)), Num(3.0)), []));
  }

  lemma SolveSigned(t: OperatorTable, text: string)
    requires Conventional(t) && text == "-5+3"
    ensures SolveOperation(t, text) == Reply(None, Solved(-2.0))
  {
    var n := BinOp(Add, UnaryOp(USub, Num(5.0)), Num(3.0));
    ParseSigned(text);
    assert Denote(n) == Some(-2.0);
    SolveParsed(t, text, n, -2.0);
  }

  // ---------------------------------------------------------------------
  // `8-4-2`: operators of one level group to the left.

  lemma TokenizeLeftGrouping()
    ensures Tokenize("8-4-2") == Some([Number(8.0), Minus, Number(4.0), Minus, Number(2.0)])
  {
    var text := "8-4-2";
    var s1, s2, s3, s4 := "-4-2", "4-2", "-2", "2";
    assert s4[1..] == [] && s3[1..] == s4 && s2[1..] == s3 && s1[1..] == s2 && text[1..] == s1;
    assert Tokenize([]) == Some([]);
    TokenizeCons(s4, Number(2.0), 1, [], [Number(2.0)]);
    TokenizeCons(s3, Minus, 1, [Number(2.0)], [Minus, Number(2.0)]);
    TokenizeCons(s2, Number(4.0), 1, [Minus, Number(2.0)], [Number(4.0), Minus, Number(2.0)]);
    TokenizeCons(s1, Minus, 1, [Number(4.0), Minus, Number(2.0)], [Minus, Number(4.0), Minus, Number(2.0)]);
    TokenizeCons(text, Number(8.0), 1, [Minus, Number(4.0), Minus, Number(2.0)], [Number(8.0), Minus, Number(4.0), Minus, Number(2.0)]);
  }

  lemma ReadLeftGrouping(ts: seq<Token>)
    requires ts == [Number(8.0), Minus, Number(4.0), Minus, Number(2.0)]
    ensures ParseSum(ts) == Some(Parsed(BinOp(Sub, BinOp(Sub, Num(8.0), Num(4.0)), Num(2.0)), []))
  {
    var us := [Number(4.0), Minus, Number(2.0)];
    var vs := [Minus, Number(2.0)];
    assert ts[1..][1..] == us && us[1..] == vs && vs[1..] == [Number(2.0)];
    var first := BinOp(Sub, Num(8.0), Num(4.0));
    TermOfAtom(ts, Parsed(Num(8.0), ts[1..]));
    SumStep(ts, Parsed(Num(8.0), ts[1..]));
    TermOfAtom(us, Parsed(Num(4.0), vs));
    SumTailStep(Num(8.0), ts[1..], Parsed(Num(4.0), vs));
    TermOfAtom([Number(2.0)], Parsed(Num(2.0), []));
    SumTailStep(first, vs, Parsed(Num(2.0), []));
    SumTailStop(BinOp(Sub, first, Num(2.0)), []);
  }

  lemma ParseLeftGrouping(text: string)
    requires text == "8-4-2"
    ensures Parse(text) == Some(BinOp(Sub, BinOp(Sub, Num(8.0), Num(4.0)), Num(2.0)))
  {
    var ts := [Number(8.0), Minus, Number(4.0), Minus, Number(2.0)];
    var n := BinOp(Sub, BinOp(Sub, Num(8.0), Num(4.0)), Num(2.0));
    assert IsCanonical(text);
    assert Tokenize(text) == Some(ts) by { TokenizeLeftGrouping(); }
    assert ParseSum(ts) == Some(Parsed(n, [])) by { ReadLeftGrouping(ts); }
    ParseFromTokens(text, ts, Parsed(n, []));
  }

  /** With the usual `-` the answer is 2, not 6. */
  lemma SolveLeftGrouping(t: OperatorTable, text: string)
    requires Conventional(t) && text == "8-4-2"
    ensures SolveOperation(t, text) == Reply(None, Solved(2.0))
  {
    var n := BinOp(Sub, BinOp(Sub, Num(8.0), Num(4.0)), Num(2.0));
    ParseLeftGrouping(text);
    assert Denote(n) == Some(2.0);
    SolveParsed(t, text, n, 2.0);
  }

  // ---------------------------------------------------------------------
  // `-2**2`: `**` binds tighter than a leading sign.

  lemma TokenizeSignedPower()
    ensures Tokenize("-2**2") == Some([Minus, Number(2.0), DoubleStar, Number(2.0)])
  {
    var text := "-2**2";
    var s1, s2, s3 := "2**2", "**2", "2";
    assert s3[1..] == [] && s2[2..] == s3 && s1[1..] == s2 && text[1..] == s1;
    assert Tokenize([]) == Some([]);
    TokenizeCons(s3, Number(2.0), 1, [], [Number(2.0)]);
    TokenizeCons(s2, DoubleStar, 2, [Number(2.0)], [DoubleStar, Number(2.0)]);
    TokenizeCons(s1, Number(2.0), 1, [DoubleStar, Number(2.0)], [Number(2.0), DoubleStar, Number(2.0)]);
    TokenizeCons(text, Minus, 1, [Number(2.0), DoubleStar, Number(2.0)], [Minus, Number(2.0), DoubleStar, Number(2.0)]);
  }

  lemma ReadSignedPower(ts: seq<Token>)
    requires ts == [Minus, Number(2.0), DoubleStar, Number(2.0)]
    ensures ParseSum(ts) == Some(Parsed(UnaryOp(USub, BinOp(Pow, Num(2.0), Num(2.0))), []))
  {
    var us := [Number(2.0), DoubleStar, Number(2.0)];
    var vs := [DoubleStar, Number(2.0)];
    assert ts[1..] == us && us[1..] == vs && vs[1..] == [Number(2.0)];
    var power := BinOp(Pow, Num(2.0), Num(2.0));
    var negative := UnaryOp(USub, power);
    PrimaryOfAtom(us, Parsed(Num(2.0), vs));
    FactorOfAtom([Number(2.0)], Parsed(Num(2.0), []));
    PowerStep(us, Parsed(Num(2.0), vs), Parsed(Num(2.0), []));
    FactorOfPower(us, Parsed(power, []));
    SignStep(ts, Parsed(power, []));
    TermStep(ts, Parsed(negative, []));
    TermTailStop(negative, []);
    SumStep(ts, Parsed(negative, []));
    SumTailStop(negative, []);
  }

  /** `-2**2` is `-(2**2)`, as in Python, whatever the table says about `**`. */
  lemma ParseSignedPower(text: string)
    requires text == "-2**2"
    ensures Parse(text) == Some(UnaryOp(USub, BinOp(Pow, Num(2.0), Num(2.0))))
  {
    var ts := [Minus, Number(2.0), DoubleStar, Number(2.0)];
    var n := UnaryOp(USub, BinOp(Pow, Num(2.0), Num(2.0)));
    assert IsCanonical(text);
    assert Tokenize(text) == Some(ts) by { TokenizeSignedPower(); }
    assert ParseSum(ts) == Some(Parsed(n, [])) by { ReadSignedPower(ts); }
    ParseFromTokens(text, ts, Parsed(n, []));
  }

  // ---------------------------------------------------------------------
  // `10/0`: the division guard.

  lemma TokenizeDivisionByZero()
    ensures Tokenize("10/0") == Some([Number(10.0), Slash, Number(0.0)])
  {
    var text := "10/0";
    var s1, s2 := "/0", "0";
    assert s2[1..] == [] && s1[1..] == s2 && text[2..] == s1;
    assert Tokenize([]) == Some([]);
    TokenizeCons(s2, Number(0.0), 1, [], [Number(0.0)]);
    TokenizeCons(s1, Slash, 1, [Number(0.0)], [Slash, Number(0.0)]);
    TokenizeCons(text, Number(10.0), 2, [Slash, Number(0.0)], [Number(10.0), Slash, Number(0.0)]);
  }

  lemma ReadDivisionByZero(ts: seq<Token>)
    requires ts == [Number(10.0), Slash, Number(0.0)]
    ensures ParseSum(ts) == Some(Parsed(BinOp(Div, Num(10.0), Num(0.0)), []))
  {
    assert ts[1..] == [Slash, Number(0.0)] && ts[1..][1..] == [Number(0.0)];
    FactorOfAtom(ts, Parsed(Num(10.0), ts[1..]));
    TermStep(ts, Parsed(Num(10.0), ts[1..]));
    FactorOfAtom([Number(0.0)], Parsed(Num(0.0), []));
    TermTailStep(Num(10.0), ts[1..], Parsed(Num(0.0), []));
    TermTailStop(BinOp(Div, Num(10.0), Num(0.0)), []);
    SumOfTerm(ts, Parsed(BinOp(Div, Num(10.0), Num(0.0)), []));
  }

  lemma ParseDivisionByZero(text: string)
    requires text == "10/0"
    ensures Parse(text) == Some(BinOp(Div, Num(10.0), Num(0.0)))
  {
    var ts := [Number(10.0), Slash, Number(0.0)];
    assert IsCanonical(text);
    assert Tokenize(text) == Some(ts) by { TokenizeDivisionByZero(); }
    assert ParseSum(ts) == Some(Parsed(BinOp(Div, Num(10.0), Num(0.0)), [])) by { ReadDivisionByZero(ts); }
    ParseFromTokens(text, ts, Parsed(BinOp(Div, Num(10.0), Num(0.0)), []));
  }

  /** `10/0` is reported as a division by zero whatever the table's division
      function does, as long as the table admits `Div`. */
  lemma SolveDivisionByZero(t: OperatorTable, text: string)
    requires Div in t.binary && text == "10/0"
    ensures SolveOperation(t, text) == Reply(Some(DivisionByZeroMessage), Blank)
  {
    ParseDivisionByZero(text);
    assert SafeEval(t, BinOp(Div, Num(10.0), Num(0.0))) == Raised(DivisionByZero);
  }

  // ---------------------------------------------------------------------
  // Syntax errors.

  /** Empty text, what a chain leaves of a reading with no usable character,
      is a syntax error. */
  lemma SolveEmpty(t: OperatorTable)
    ensures SolveOperation(t, "") == SyntaxErrorReply
  {
    assert ParseSum([]) == None;
  }

  /** `07` is refused by the tokenizer: leading zeros in a decimal integer. */
  lemma SolveLeadingZero(t: OperatorTable, text: string)
    requires text == "07"
    ensures SolveOperation(t, text) == SyntaxErrorReply
  {
    assert NextToken(text) == None;
  }

  lemma TokenizeTwoPoints()
    ensures Tokenize("1.2.3") == Some([Number(1.2), Number(0.3)])
  {
    var text := "1.2.3";
    var s1 := ".3";
    assert text[3..] == s1 && s1[2..] == [];
    assert NextToken("1.2.3") == Some((Number(1.2), 3));
    assert NextToken(s1) == Some((Number(0.3), 2));
    assert Tokenize([]) == Some([]);
    TokenizeCons(s1, Number(0.3), 2, [], [Number(0.3)]);
    TokenizeCons(text, Number(1.2), 3, [Number(0.3)], [Number(1.2), Number(0.3)]);
  }

  lemma ReadTwoPoints(ts: seq<Token>)
    requires ts == [Number(1.2), Number(0.3)]
    ensures ParseSum(ts) == Some(Parsed(Num(1.2), [Number(0.3)]))
  {
    assert ts[1..] == [Number(0.3)];
    FactorOfAtom(ts, Parsed(Num(1.2), ts[1..]));
    TermStep(ts, Parsed(Num(1.2), ts[1..]));
    TermTailStop(Num(1.2), ts[1..]);
    SumStep(ts, Parsed(Num(1.2), ts[1..]));
    SumTailStop(Num(1.2), ts[1..]);
  }

  lemma ParseTwoPoints(text: string)
    requires text == "1.2.3"
    ensures Parse(text) == None
  {
    var ts := [Number(1.2), Number(0.3)];
    assert IsCanonical(text);
    assert Tokenize(text) == Some(ts) by { TokenizeTwoPoints(); }
    assert ParseSum(ts) == Some(Parsed(Num(1.2), [Number(0.3)])) by { ReadTwoPoints(ts); }
    ParseFromTokens(text, ts, Parsed(Num(1.2), [Number(0.3)]));
  }

  /** `1.2.3` reads as the numbers `1.2` and `.3` side by side. */
  lemma SolveTwoPoints(t: OperatorTable, text: string)
    requires text == "1.2.3"
    ensures SolveOperation(t, text) == SyntaxErrorReply
  {
    ParseTwoPoints(text);
  }

  lemma TokenizeTrailingOperator()
    ensures Tokenize("3+4/") == Some([Number(3.0), Plus, Number(4.0), Slash])
  {
    var text := "3+4/";
    var s1, s2, s3 := "+4/", "4/", "/";
    assert s3[1..] == [] && s2[1..] == s3 && s1[1..] == s2 && text[1..] == s1;
    assert Tokenize([]) == Some([]);
    TokenizeCons(s3, Slash, 1, [], [Slash]);
    TokenizeCons(s2, Number(4.0), 1, [Slash], [Number(4.0), Slash]);
    TokenizeCons(s1, Plus, 1, [Number(4.0), Slash], [Plus, Number(4.0), Slash]);
    TokenizeCons(text, Number(3.0), 1, [Plus, Number(4.0), Slash], [Number(3.0), Plus, Number(4.0), Slash]);
  }

  lemma ReadTrailingOperator(ts: seq<Token>)
    requires ts == [Number(3.0), Plus, Number(4.0), Slash]
    ensures ParseSum(ts) == Some(Parsed(BinOp(Add, Num(3.0), Num(4.0)), [Slash]))
  {
    var us := [Number(4.0), Slash];
    assert ts[1..] == [Plus] + us && ts[1..][1..] == us && us[1..] == [Slash] && [Slash][1..] == [];
    TermOfAtom(ts, Parsed(Num(3.0), ts[1..]));
    SumStep(ts, Parsed(Num(3.0), ts[1..]));
    FactorOfAtom(us, Parsed(Num(4.0), [Slash]));
    TermStep(us, Parsed(Num(4.0), [Slash]));
    assert ParseFactor([]) == None;
    assert TermTail(Num(4.0), [Slash]) == Parsed(Num(4.0), [Slash]);
    SumTailStep(Num(3.0), ts[1..], Parsed(Num(4.0), [Slash]));
    SumTailStop(BinOp(Add, Num(3.0), Num(4.0)), [Slash]);
  }

  lemma ParseTrailingOperator(text: string)
    requires text == "3+4/"
    ensures Parse(text) == None
  {
    var ts := [Number(3.0), Plus, Number(4.0), Slash];
    assert IsCanonical(text);
    assert Tokenize(text) == Some(ts) by { TokenizeTrailingOperator(); }
    assert ParseSum(ts) == Some(Parsed(BinOp(Add, Num(3.0), Num(4.0)), [Slash])) by { ReadTrailingOperator(ts); }
    ParseFromTokens(text, ts, Parsed(BinOp(Add, Num(3.0), Num(4.0)), [Slash]));
  }

  /** `3+4/`, what the GPT chain makes of the reply `3+4=`, ends in an
      operator with nothing after it. */
  lemma SolveTrailingOperator(t: OperatorTable, text: string)
    requires text == "3+4/"
    ensures SolveOperation(t, text) == SyntaxErrorReply
  {
    ParseTrailingOperator(text);
  }

  // ---------------------------------------------------------------------
  // Nodes that `safe_eval` refuses.

  lemma TokenizeCall()
    ensures Tokenize("2(3)") == Some([Number(2.0), LParen, Number(3.0), RParen])
  {
    var text := "2(3)";
    var s1, s2, s3 := "(3)", "3)", ")";
    assert s3[1..] == [] && s2[1..] == s3 && s1[1..] == s2 && text[1..] == s1;
    assert Tokenize([]) == Some([]);
    TokenizeCons(s3, RParen, 1, [], [RParen]);
    TokenizeCons(s2, Number(3.0), 1, [RParen], [Number(3.0), RParen]);
    TokenizeCons(s1, LParen, 1, [Number(3.0), RParen], [LParen, Number(3.0), RParen]);
    TokenizeCons(text, Number(2.0), 1, [LParen, Number(3.0), RParen], [Number(2.0), LParen, Number(3.0), RParen]);
  }

  lemma ReadCall(ts: seq<Token>)
    requires ts == [Number(2.0), LParen, Number(3.0), RParen]
    ensures ParseSum(ts) == Some(Parsed(Other(Call), []))
  {
    var args := [Number(3.0), RParen];
    assert ts[1..] == [LParen] + args && ts[1..][1..] == args && args[1..] == [RParen] && [RParen][1..] == [];
    SumOfAtom(args, Parsed(Num(3.0), [RParen]));
    assert CallArguments(args) == Some([]);
    assert PrimaryTail(Other(Call), []) == Parsed(Other(Call), []);
    assert ParsePrimary(ts) == Some(Parsed(Other(Call), []));
    PowerOfPrimary(ts, Parsed(Other(Call), []));
    FactorOfPower(ts, Parsed(Other(Call), []));
    TermOfFactor(ts, Parsed(Other(Call), []));
    SumOfTerm(ts, Parsed(Other(Call), []));
  }

  lemma ParseCall(text: string)
    requires text == "2(3)"
    ensures Parse(text) == Some(Other(Call))
  {
    var ts := [Number(2.0), LParen, Number(3.0), RParen];
    assert IsCanonical(text);
    assert Tokenize(text) == Some(ts) by { TokenizeCall(); }
    assert ParseSum(ts) == Some(Parsed(Other(Call), [])) by { ReadCall(ts); }
    ParseFromTokens(text, ts, Parsed(Other(Call), []));
  }

  /** `2(3)` parses as a call, which `safe_eval` refuses. */
  lemma SolveCall(t: OperatorTable, text: string)
    requires text == "2(3)"
    ensures SolveOperation(t, text) == Report(UnsupportedNode(Call))
  {
    ParseCall(text);
  }

  /** `()` is the empty tuple, which `safe_eval` refuses. */
  lemma SolveEmptyTuple(t: OperatorTable, text: string)
    requires text == "()"
    ensures SolveOperation(t, text) == Report(UnsupportedNode(Tuple))
  {
    var ts := [LParen, RParen];
    assert text[1..] == ")" && ")"[1..] == [];
    assert Tokenize([]) == Some([]);
    TokenizeCons(")", RParen, 1, [], [RParen]);
    TokenizeCons(text, LParen, 1, [RParen], ts);
    assert ts[1..] == [RParen] && ts[2..] == [];
    SumOfAtom(ts, Parsed(Other(Tuple), []));
    ParseFromTokens(text, ts, Parsed(Other(Tuple), []));
  }

  /** `...` is the constant `Ellipsis`, which `safe_eval` refuses. */
  lemma SolveEllipsis(t: OperatorTable, text: string)
    requires text == "..."
    ensures SolveOperation(t, text) == Report(UnsupportedNode(EllipsisConstant))
  {
    assert text[3..] == [];
    assert Tokenize([]) == Some([]);
    TokenizeCons(text, Ellipsis, 3, [], [Ellipsis]);
    SumOfAtom([Ellipsis], Parsed(Other(EllipsisConstant), []));
    ParseFromTokens(text, [Ellipsis], Parsed(Other(EllipsisConstant), []));
  }
}
