/** One keystroke followed through the whole pipeline: the action taken from
    the queue, the Tesseract chain, the division-mode rewrite of
    main_app.py:157-158, and `solve_operation` under a table with the usual
    arithmetic.  The same recognised text `6+3` is answered 9 by `classic`
    and 2 by `division`. */
module AppExamples {
  import opened Common
  import opened PyAst
  import opened Tokenizer
  import opened Parser
  import opened Evaluator
  import opened Cleanup
  import opened App
  import opened SolveExamples

  // ---------------------------------------------------------------------
  // `6+3` and `6/3` as `solve_operation` reads them.

  lemma TokenizeSum()
    ensures Tokenize("6+3") == Some([Number(6.0), Plus, Number(3.0)])
  {
    var text := "6+3";
    var s1, s2 := "+3", "3";
    assert s2[1..] == [] && s1[1..] == s2 && text[1..] == s1;
    assert Tokenize([]) == Some([]);
    TokenizeCons(s2, Number(3.0), 1, [], [Number(3.0)]);
    TokenizeCons(s1, Plus, 1, [Number(3.0)], [Plus, Number(3.0)]);
    TokenizeCons(text, Number(6.0), 1, [Plus, Number(3.0)], [Number(6.0), Plus, Number(3.0)]);
  }

  lemma ReadSum(ts: seq<Token>)
    requires ts == [Number(6.0), Plus, Number(3.0)]
    ensures ParseSum(ts) == Some(Parsed(BinOp(Add, Num(6.0), Num(3.0)), []))
  {
    assert ts[1..] == [Plus, Number(3.0)] && ts[1..][1..] == [Number(3.0)];
    TermOfAtom(ts, Parsed(Num(6.0), ts[1..]));
    SumStep(ts, Parsed(Num(6.0), ts[1..]));
    TermOfAtom([Number(3.0)], Parsed(Num(3.0), []));
    SumTailStep(Num(6.0), ts[1..], Parsed(Num(3.0), []));
    SumTailStop(BinOp(Add, Num(6.0), Num(3.0)), []);
  }

  lemma ParseSumText(text: string)
    requires text == "6+3"
    ensures Parse(text) == Some(BinOp(Add, Num(6.0), Num(3.0)))
  {
    var ts := [Number(6.0), Plus, Number(3.0)];
    assert IsCanonical(text);
    assert Tokenize(text) == Some(ts) by { TokenizeSum(); }
    assert ParseSum(ts) == Some(Parsed(BinOp(Add, Num(6.0), Num(3.0)), [])) by { ReadSum(ts); }
    ParseFromTokens(text, ts, Parsed(BinOp(Add, Num(6.0), Num(3.0)), []));
  }

  lemma TokenizeQuotient()
    ensures Tokenize("6/3") == Some([Number(6.0), Slash, Number(3.0)])
  {
    var text := "6/3";
    var s1, s2 := "/3", "3";
    assert s2[1..] == [] && s1[1..] == s2 && text[1..] == s1;
    assert Tokenize([]) == Some([]);
    TokenizeCons(s2, Number(3.0), 1, [], [Number(3.0)]);
    TokenizeCons(s1, Slash, 1, [Number(3.0)], [Slash, Number(3.0)]);
    TokenizeCons(text, Number(6.0), 1, [Slash, Number(3.0)], [Number(6.0), Slash, Number(3.0)]);
  }

  lemma ReadQuotient(ts: seq<Token>)
    requires ts == [Number(6.0), Slash, Number(3.0)]
    ensures ParseSum(ts) == Some(Parsed(BinOp(Div, Num(6.0), Num(3.0)), []))
  {
    assert ts[1..] == [Slash, Number(3.0)] && ts[1..][1..] == [Number(3.0)];
    FactorOfAtom(ts, Parsed(Num(6.0), ts[1..]));
    TermStep(ts, Parsed(Num(6.0), ts[1..]));
    FactorOfAtom([Number(3.0)], Parsed(Num(3.0), []));
    TermTailStep(Num(6.0), ts[1..], Parsed(Num(3.0), []));
    TermTailStop(BinOp(Div, Num(6.0), Num(3.0)), []);
    SumOfTerm(ts, Parsed(BinOp(Div, Num(6.0), Num(3.0)), []));
  }

  lemma ParseQuotientText(text: string)
    requires text == "6/3"
    ensures Parse(text) == Some(BinOp(Div, Num(6.0), Num(3.0)))
  {
    var ts := [Number(6.0), Slash, Number(3.0)];
    assert IsCanonical(text);
    assert Tokenize(text) == Some(ts) by { TokenizeQuotient(); }
    assert ParseSum(ts) == Some(Parsed(BinOp(Div, Num(6.0), Num(3.0)), [])) by { ReadQuotient(ts); }
    ParseFromTokens(text, ts, Parsed(BinOp(Div, Num(6.0), Num(3.0)), []));
  }

  // ---------------------------------------------------------------------
  // The two Tesseract actions on the same reading.

  /** Tesseract hands canonical text without `/1` over unchanged. */
  lemma TesseractReadsSum(recognised: string)
    requires recognised == "6+3"
    ensures Recognise(Tesseract, recognised) == (recognised, recognised)
  {
    assert IsCanonical(recognised);
    assert !ContainsPair(recognised, '/', '1');
    TesseractKeepsCanonical(recognised, true);
  }

  /** With the usual `+` the sum is 9. */
  lemma SolveSum(t: OperatorTable, text: string)
    requires Conventional(t) && text == "6+3"
    ensures SolveOperation(t, text) == Reply(None, Solved(9.0))
  {
    ParseSumText(text);
    SolveParsed(t, text, BinOp(Add, Num(6.0), Num(3.0)), 9.0);
  }

  /** With the usual `/` the quotient is 2. */
  lemma SolveQuotient(t: OperatorTable, text: string)
    requires Conventional(t) && text == "6/3"
    ensures SolveOperation(t, text) == Reply(None, Solved(2.0))
  {
    ParseQuotientText(text);
    SolveParsed(t, text, BinOp(Div, Num(6.0), Num(3.0)), 2.0);
  }

  /** Division mode reads the `+` as `/`. */
  lemma DivisionRewrite(text: string)
    requires text == "6+3"
    ensures PlusToSlash(text) == "6/3"
  {
    var clean := PlusToSlash(text);
    assert |clean| == 3 && clean[0] == '6' && clean[1] == '/' && clean[2] == '3';
  }

  /** `classic` solves what was read: 9. */
  lemma ClassicActionExample(t: OperatorTable, s: AppState, box: Box, recognised: string)
    requires Conventional(t) && s.region.Selected?
    requires s.queue != [] && s.queue[0] == "classic" && recognised == "6+3"
    ensures var s' := CheckQueueSpec(t, s, box, recognised);
      && s'.oriText == "6+3" && s'.cleanText == "6+3" && s'.result == Solved(9.0)
      && s'.shown == ResultText("6+3", "6+3", Solved(9.0)) && s'.typed == s.typed + [Solved(9.0)]
      && s'.queue == s.queue[1..]
  {
    TesseractReadsSum(recognised);
    SolveSum(t, recognised);
  }

  /** `division` turns the `+` into `/` before solving: 2. */
  lemma DivisionActionExample(t: OperatorTable, s: AppState, box: Box, recognised: string)
    requires Conventional(t) && s.region.Selected?
    requires s.queue != [] && s.queue[0] == "division" && recognised == "6+3"
    ensures var s' := CheckQueueSpec(t, s, box, recognised);
      && s'.oriText == "6+3" && s'.cleanText == "6/3" && s'.result == Solved(2.0)
      && s'.shown == ResultText("6+3", "6/3", Solved(2.0)) && s'.typed == s.typed + [Solved(2.0)]
      && s'.queue == s.queue[1..]
  {
    TesseractReadsSum(recognised);
    DivisionRewrite(recognised);
    SolveQuotient(t, PlusToSlash(recognised));
  }
}
