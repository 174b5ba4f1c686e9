/** Python's tokenizer on the canonical alphabet `0-9 . + - * / ( )`, the
    first half of `ast.parse(text, mode='eval')` (ocr_processing.py:142).

    Tokens are read greedily from the left: a number is a maximal run of
    digits, optionally followed by `.` and a second run; `.5` is a number;
    `**` and `//` are single operators; `...` is the ellipsis. A decimal
    integer with leading zeros and a nonzero digit (`07`) is a syntax error,
    but `00` and `07.5` are fine. */
module Tokenizer {
  import opened Common

  datatype Token =
    | Number(value: real)
    | Plus | Minus | Star | DoubleStar | Slash | DoubleSlash
    | LParen | RParen | Dot | Ellipsis

  predicate AllDigits(d: string)
  {
    forall i :: 0 <= i < |d| ==> IsDigit(d[i])
  }

  /** The length of the run of digits at the start of `s`. */
  function DigitRun(s: string): (n: nat)
    ensures n <= |s|
    ensures AllDigits(s[..n])
    ensures n < |s| ==> !IsDigit(s[n])
  {
    if s != [] && IsDigit(s[0]) then
      var m := DigitRun(s[1..]);
      assert s[..1 + m] == [s[0]] + s[1..][..m];
      1 + m
    else
      0
  }

  function DigitValue(c: char): nat
    requires IsDigit(c)
  {
    c as int - '0' as int
  }

  /** The value of a run of decimal digits, most significant first. */
  function DigitsValue(d: string): nat
    requires AllDigits(d)
  {
    if d == [] then 0 else DigitsValue(d[..|d| - 1]) * 10 + DigitValue(d[|d| - 1])
  }

  function Pow10(k: nat): (p: nat)
    ensures p >= 1
  {
    if k == 0 then 1 else 10 * Pow10(k - 1)
  }

  /** The value of the digits after a decimal point. */
  function FractionValue(d: string): (v: real)
    requires AllDigits(d)
  {
    DigitsValue(d) as real / Pow10(|d|) as real
  }

  /** A number that starts with a digit: the token and the characters it
      takes, or `None` for a decimal integer with leading zeros. */
  function LexNumber(s: string): (r: Option<(Token, nat)>)
    requires s != [] && IsDigit(s[0])
    ensures r.Some? ==> r.value.0.Number? && 0 < r.value.1 <= |s|
    ensures r.Some? ==> IsCanonical(s[..r.value.1])
  {
    var k := DigitRun(s);
    if k < |s| && s[k] == '.' then
      var j := DigitRun(s[k + 1..]);
      Some((Number(DigitsValue(s[..k]) as real + FractionValue(s[k + 1..][..j])), k + 1 + j))
    else if s[0] == '0' && DigitsValue(s[..k]) != 0 then
      None
    else
      Some((Number(DigitsValue(s[..k]) as real), k))
  }

  /** A number is refused exactly when it is an integer with no point whose
      digits start with `0` and are not all zeros: `07`, but not `00` or
      `07.5`. */
  lemma LexNumberRefusal(s: string)
    requires s != [] && IsDigit(s[0])
    ensures var k := DigitRun(s);
      LexNumber(s).None? <==> (k == |s| || s[k] != '.') && s[0] == '0' && DigitsValue(s[..k]) != 0
  {
  }

  /** A number taken is digits with at most one point, right after the first
      run of digits. */
  lemma LexNumberTaken(s: string)
    requires s != [] && IsDigit(s[0]) && LexNumber(s).Some?
    ensures forall i :: 0 <= i < LexNumber(s).value.1 ==> IsDigit(s[i]) || (s[i] == '.' && i == DigitRun(s))
  {
    var k := DigitRun(s);
    var n := LexNumber(s).value.1;
    forall i | 0 <= i < n
      ensures IsDigit(s[i]) || (s[i] == '.' && i == k)
    {
      if i < k {
        assert s[i] == s[..k][i];
      } else if i > k {
        var j := DigitRun(s[k + 1..]);
        assert s[i] == s[k + 1..][..j][i - k - 1];
      }
    }
  }

  /** A number ends at the first character that cannot continue it: a digit
      never follows it, and a point only after its own point. */
  lemma LexNumberMaximal(s: string)
    requires s != [] && IsDigit(s[0]) && LexNumber(s).Some?
    ensures var n := LexNumber(s).value.1;
      n < |s| ==> !IsDigit(s[n]) && (s[n] == '.' ==> n > DigitRun(s))
  {
    var k := DigitRun(s);
    if k < |s| && s[k] == '.' {
      var j := DigitRun(s[k + 1..]);
      if k + 1 + j < |s| {
        assert s[k + 1 + j] == s[k + 1..][j];
      }
    }
  }

  /** The token at the start of `s` and how many characters it takes.
      Cleaned text holds only the canonical alphabet; on any other
      character this tokenizer stops with `None`. */
  function NextToken(s: string): (r: Option<(Token, nat)>)
    requires s != []
    ensures r.Some? ==> 0 < r.value.1 <= |s|
  {
    var c := s[0];
    if IsDigit(c) then
      LexNumber(s)
    else if c == '.' then
      if |s| > 1 && IsDigit(s[1]) then
        var j := DigitRun(s[1..]);
        Some((Number(FractionValue(s[1..][..j])), 1 + j))
      else if |s| > 2 && s[1] == '.' && s[2] == '.' then
        Some((Ellipsis, 3))
      else
        Some((Dot, 1))
    else if c == '*' then
      if |s| > 1 && s[1] == '*' then Some((DoubleStar, 2)) else Some((Star, 1))
    else if c == '/' then
      if |s| > 1 && s[1] == '/' then Some((DoubleSlash, 2)) else Some((Slash, 1))
    else if c == '+' then
      Some((Plus, 1))
    else if c == '-' then
      Some((Minus, 1))
    else if c == '(' then
      Some((LParen, 1))
    else if c == ')' then
      Some((RParen, 1))
    else
      None
  }

  /** A token takes only characters of the canonical alphabet, and any other
      character stops the tokenizer. */
  lemma NextTokenAccepts(s: string)
    requires s != []
    ensures NextToken(s).Some? ==> IsCanonical(s[..NextToken(s).value.1])
    ensures !Allowed(s[0]) ==> NextToken(s).None?
  {
    var c := s[0];
    if c == '.' && |s| > 1 && IsDigit(s[1]) {
      var j := DigitRun(s[1..]);
      assert s[..1 + j] == [c] + s[1..][..j];
    }
  }

  /** The whole token stream, or `None` when the tokenizer raises. */
  function Tokenize(s: string): (r: Option<seq<Token>>)
    decreases |s|
  {
    if s == [] then
      Some([])
    else
      match NextToken(s)
      case None => None
      case Some((t, k)) =>
        match Tokenize(s[k..])
        case None => None
        case Some(ts) => Some([t] + ts)
  }

  /** Only text over the canonical alphabet tokenizes, and every token
      takes at least one character. */
  lemma {:induction false} TokenizeAccepts(s: string)
    requires Tokenize(s).Some?
    ensures IsCanonical(s) && |Tokenize(s).value| <= |s|
    decreases |s|
  {
    if s != [] {
      var k := NextToken(s).value.1;
      NextTokenAccepts(s);
      TokenizeAccepts(s[k..]);
      assert s == s[..k] + s[k..];
    }
  }
}
