/** The text-cleanup chains of ocr_processing.py.

    Each recognition backend (Tesseract, EasyOCR, the GPT vision reply) has its
    own ordered list of literal `str.replace` rules; the chain applies them in
    order, one left-to-right pass per rule, and then keeps only the characters
    of the canonical alphabet (one `re.sub` pass).  The three chains are one
    function, `Clean`, applied to three rule lists. */
module Cleanup {
  import opened Common

  /** One `text = text.replace(pattern, replacement)` line of a chain. */
  datatype Rule = Rule(pattern: string, replacement: string)

  /** Python's `str.replace(pat, rep)`: a single left-to-right scan that
      replaces every non-overlapping occurrence of `pat` and does not look at
      what it has just written.  An empty `pat` matches before every character
      and at the end, as in Python. */
  function Replace(s: string, pat: string, rep: string): (r: string)
    ensures |pat| == 1 && |rep| == 1 ==> |r| == |s|
    ensures pat != [] && |rep| <= |pat| ==> |r| <= |s|
    decreases |s|
  {
    if pat == [] then
      if s == [] then rep else rep + [s[0]] + Replace(s[1..], pat, rep)
    else if |pat| <= |s| && s[..|pat|] == pat then
      rep + Replace(s[|pat|..], pat, rep)
    else if s == [] then
      []
    else
      [s[0]] + Replace(s[1..], pat, rep)
  }

  /** The rules of a chain, applied in their declared order. */
  function ApplyRules(rules: seq<Rule>, s: string): string
  {
    if rules == [] then s
    else ApplyRules(rules[1..], Replace(s, rules[0].pattern, rules[0].replacement))
  }

  /** The `re.sub` filter: one pass that drops every character outside the
      canonical alphabet. */
  function Keep(s: string): (r: string)
    ensures IsCanonical(r)
    ensures |r| <= |s|
    ensures IsCanonical(s) ==> r == s
  {
    if s == [] then [] else (if Allowed(s[0]) then [s[0]] else []) + Keep(s[1..])
  }

  /** A whole cleanup chain: the backend's rules, then the filter. */
  function Clean(rules: seq<Rule>, raw: string): (text: string)
    ensures IsCanonical(text)
  {
    Keep(ApplyRules(rules, raw))
  }

  // ---------------------------------------------------------------------
  // The three rule lists, in the order of the source lines.

  /** ocr_processing.py:54-60.  The two-character rule `/1` -> `7` comes
      before `÷` -> `/`. */
  const TesseractRules: seq<Rule> := [
    Rule(" ", ""), Rule("—", "-"), Rule("/1", "7"), Rule("÷", "/"),
    Rule("x", "*"), Rule("X", "*"), Rule(",", ".")
  ]

  /** ocr_processing.py:76-83. */
  const EasyOcrRules: seq<Rule> := [
    Rule(" ", ""), Rule("—", "-"), Rule("÷", "/"), Rule("x", "*"),
    Rule("X", "*"), Rule(",", "."), Rule("_", "-"), Rule("~", "-")
  ]

  /** ocr_processing.py:123-133. */
  const GptRules: seq<Rule> := [
    Rule(" ", ""), Rule("—", "-"), Rule("÷", "/"), Rule("x", "*"),
    Rule("X", "*"), Rule(",", "."), Rule("_", "-"), Rule("~", "-"),
    Rule("×", "*"), Rule(":", "/"), Rule("=", "/")
  ]

  /** `get_clean_text_from_image` (ocr_processing.py:47-67) from the text
      Tesseract recognised: returns `(text, ori_text)`.  Line 65 computes
      `text.replace('+', '/')` and throws the result away, so `divMode`
      does not reach the result. */
  function GetCleanTextFromImage(oriText: string, divMode: bool): (r: (string, string))
    ensures IsCanonical(r.0) && r.1 == oriText
  {
    (Clean(TesseractRules, oriText), oriText)
  }

  /** `get_text_from_im_easy` (ocr_processing.py:70-87) from the joined
      EasyOCR fragments. */
  function GetTextFromImEasy(oriText: string): (r: (string, string))
    ensures IsCanonical(r.0) && r.1 == oriText
  {
    (Clean(EasyOcrRules, oriText), oriText)
  }

  /** `get_text_from_im_gpt` (ocr_processing.py:90-137) from the content of
      the chat reply. */
  function GetTextFromImGpt(oriText: string): (r: (string, string))
    ensures IsCanonical(r.0) && r.1 == oriText
  {
    (Clean(GptRules, oriText), oriText)
  }

  // ---------------------------------------------------------------------
  // Reference definitions: what each chain does to one character.

  /** Applying a per-character rewrite to a whole string. */
  function Translate(f: char -> string, s: string): string
  {
    if s == [] then [] else f(s[0]) + Translate(f, s[1..])
  }

  /** The single-character rules of the Tesseract chain. */
  function TesseractChar(c: char): string
  {
    if c == ' ' then ""
    else if c == '—' then "-"
    else if c == '÷' then "/"
    else if c == 'x' || c == 'X' then "*"
    else if c == ',' then "."
    else [c]
  }

  /** The EasyOCR chain: the same, plus `_` and `~` read as minus. */
  function EasyOcrChar(c: char): string
  {
    if c == '_' || c == '~' then "-" else TesseractChar(c)
  }

  /** The GPT chain: the EasyOCR rules, plus `×` as times and `:` and `=`
      as division. */
  function GptChar(c: char): string
  {
    if c == '×' then "*"
    else if c == ':' || c == '=' then "/"
    else EasyOcrChar(c)
  }

  // ---------------------------------------------------------------------
  // Lemmas about Replace.

  /** Replacing a single character distributes over concatenation: no
      occurrence can straddle the seam. */
  lemma {:induction false} ReplaceCharConcat(a: string, b: string, c: char, rep: string)
    ensures Replace(a + b, [c], rep) == Replace(a, [c], rep) + Replace(b, [c], rep)
  {
    if a == [] {
      assert a + b == b;
    } else {
      assert (a + b)[1..] == a[1..] + b;
      assert (a + b)[..1] == a[..1];
      ReplaceCharConcat(a[1..], b, c, rep);
    }
  }

  /** A string that does not contain the first character of a non-empty
      pattern is left unchanged. */
  lemma {:induction false} ReplaceWithoutLead(s: string, pat: string, rep: string)
    requires pat != [] && pat[0] !in s
    ensures Replace(s, pat, rep) == s
  {
    if s != [] {
      assert s[0] in s;
      assert s[1..] + [] == s[1..];
      forall x | x in s[1..] ensures x in s { }
      ReplaceWithoutLead(s[1..], pat, rep);
    }
  }

  /** Replacing `c` by `d` maps each position on its own. */
  lemma {:induction false} ReplaceCharAt(s: string, c: char, d: char)
    ensures |Replace(s, [c], [d])| == |s|
    ensures forall i :: 0 <= i < |s| ==> Replace(s, [c], [d])[i] == if s[i] == c then d else s[i]
  {
    if s != [] {
      ReplaceCharAt(s[1..], c, d);
    }
  }

  /** Whatever text precedes a non-empty replacement, a rule's output starts
      with the replacement or with the text's own first character. */
  lemma ReplaceHead(s: string, pat: string, rep: string)
    requires pat != [] && rep != [] && s != []
    ensures Replace(s, pat, rep) != []
    ensures Replace(s, pat, rep)[0] == rep[0] || Replace(s, pat, rep)[0] == s[0]
  {
  }

  /** The two-character rule `ab` -> `rep` (with `rep` non-empty and free of
      `a` and `b`) leaves no `ab` behind: a single left-to-right pass never
      creates a new occurrence. */
  lemma {:induction false} ReplacePairGone(s: string, a: char, b: char, rep: string)
    requires rep != [] && a !in rep && b !in rep
    ensures !ContainsPair(Replace(s, [a, b], rep), a, b)
  {
    var r := Replace(s, [a, b], rep);
    if s == [] {
    } else if 2 <= |s| && s[..2] == [a, b] {
      var t := s[2..];
      ReplacePairGone(t, a, b, rep);
      PairGoneJoin(rep, Replace(t, [a, b], rep), a, b);
    } else {
      var t := s[1..];
      ReplacePairGone(t, a, b, rep);
      assert r == [s[0]] + Replace(t, [a, b], rep);
      if t != [] {
        ReplaceHead(t, [a, b], rep);
        if 2 <= |s| {
          assert s[..2] == [s[0], s[1]];
        }
      }
      PairGoneJoin([s[0]], Replace(t, [a, b], rep), a, b);
    }
  }

  /** `x` contains `a` directly followed by `b`. */
  predicate ContainsPair(x: string, a: char, b: char) {
    exists i :: 0 <= i < |x| - 1 && x[i] == a && x[i + 1] == b
  }

  lemma PairGoneJoin(x: string, y: string, a: char, b: char)
    requires x != [] && !ContainsPair(x, a, b) && !ContainsPair(y, a, b)
    requires y != [] && x[|x| - 1] == a ==> y[0] != b
    ensures !ContainsPair(x + y, a, b)
  {
    var z := x + y;
    forall i | 0 <= i < |z| - 1 ensures !(z[i] == a && z[i + 1] == b) {
      if i + 1 < |x| {
        assert z[i] == x[i] && z[i + 1] == x[i + 1];
      } else if i >= |x| {
        assert z[i] == y[i - |x|] && z[i + 1] == y[i - |x| + 1];
      } else {
        assert z[i] == x[|x| - 1] && z[i + 1] == y[0];
      }
    }
  }

  // ---------------------------------------------------------------------
  // Lemmas about rule lists.

  /** Running two rule lists one after the other is running their
      concatenation. */
  lemma {:induction false} ApplyRulesAppend(r1: seq<Rule>, r2: seq<Rule>, s: string)
    ensures ApplyRules(r1 + r2, s) == ApplyRules(r2, ApplyRules(r1, s))
  {
    if r1 == [] {
      assert r1 + r2 == r2;
    } else {
      assert (r1 + r2)[0] == r1[0];
      assert (r1 + r2)[1..] == r1[1..] + r2;
      ApplyRulesAppend(r1[1..], r2, Replace(s, r1[0].pattern, r1[0].replacement));
    }
  }

  /** Single-character rules turn the empty text into the empty text. */
  lemma {:induction false} ApplyRulesEmpty(rules: seq<Rule>)
    requires forall i :: 0 <= i < |rules| ==> |rules[i].pattern| == 1
    ensures ApplyRules(rules, []) == []
  {
    if rules != [] {
      assert Replace([], rules[0].pattern, rules[0].replacement) == [];
      ApplyRulesEmpty(rules[1..]);
    }
  }

  /** Single-character rules distribute over concatenation. */
  lemma {:induction false} ApplyRulesConcat(rules: seq<Rule>, a: string, b: string)
    requires forall i :: 0 <= i < |rules| ==> |rules[i].pattern| == 1
    ensures ApplyRules(rules, a + b) == ApplyRules(rules, a) + ApplyRules(rules, b)
  {
    if rules != [] {
      var r := rules[0];
      assert r.pattern == [r.pattern[0]];
      ReplaceCharConcat(a, b, r.pattern[0], r.replacement);
      ApplyRulesConcat(rules[1..], Replace(a, r.pattern, r.replacement), Replace(b, r.pattern, r.replacement));
    }
  }

  /** A list of single-character rules is a per-character rewrite: the text
      is rewritten character by character, each on its own. */
  lemma {:induction false} ApplyRulesCharwise(rules: seq<Rule>, f: char -> string, s: string)
    requires forall i :: 0 <= i < |rules| ==> |rules[i].pattern| == 1
    requires forall c :: ApplyRules(rules, [c]) == f(c)
    ensures ApplyRules(rules, s) == Translate(f, s)
  {
    if s == [] {
      ApplyRulesEmpty(rules);
    } else {
      assert s == [s[0]] + s[1..];
      ApplyRulesConcat(rules, [s[0]], s[1..]);
      ApplyRulesCharwise(rules, f, s[1..]);
    }
  }

  /** A single-character rule on a text of at most one character. */
  lemma ReplaceShort(t: string, p: char, rep: string)
    requires |t| <= 1
    ensures Replace(t, [p], rep) == if t == [p] then rep else t
  {
    if t == [p] {
      assert t[..1] == [p];
      assert t[1..] == [];
    } else if t != [] {
      assert t[1..] == [];
    }
  }

  /** Rules whose pattern characters do not occur in the text leave it alone. */
  lemma {:induction false} ApplyRulesUntouched(rules: seq<Rule>, t: string)
    requires forall i :: 0 <= i < |rules| ==> |rules[i].pattern| == 1 && rules[i].pattern[0] !in t
    ensures ApplyRules(rules, t) == t
  {
    if rules != [] {
      ReplaceWithoutLead(t, rules[0].pattern, rules[0].replacement);
      ApplyRulesUntouched(rules[1..], t);
    }
  }

  /** The first rule that matches a lone character decides its image, when
      no later rule touches that rule's replacement. */
  lemma {:induction false} ApplyRulesFirstMatch(rules: seq<Rule>, k: nat, c: char)
    requires k < |rules|
    requires forall i :: 0 <= i < |rules| ==> |rules[i].pattern| == 1
    requires forall j :: 0 <= j < k ==> rules[j].pattern[0] != c
    requires rules[k].pattern[0] == c
    requires forall j :: k < j < |rules| ==> |rules[j].pattern| == 1 && rules[j].pattern[0] !in rules[k].replacement
    ensures ApplyRules(rules, [c]) == rules[k].replacement
  {
    var r := rules[0];
    assert r.pattern == [r.pattern[0]];
    ReplaceShort([c], r.pattern[0], r.replacement);
    if k == 0 {
      ApplyRulesUntouched(rules[1..], r.replacement);
    } else {
      ApplyRulesFirstMatch(rules[1..], k - 1, c);
    }
  }

  /** The Tesseract rules without the two-character rule. */
  const TesseractCharRules: seq<Rule> := [
    Rule(" ", ""), Rule("—", "-"), Rule("÷", "/"), Rule("x", "*"), Rule("X", "*"), Rule(",", ".")
  ]

  lemma TesseractCharRulesOnChar(c: char)
    ensures ApplyRules(TesseractCharRules, [c]) == TesseractChar(c)
  {
    var R := TesseractCharRules;
    if c == ' ' || c == '—' || c == '÷' {
      if c == ' ' { ApplyRulesFirstMatch(R, 0, c); }
      else if c == '—' { ApplyRulesFirstMatch(R, 1, c); }
      else { ApplyRulesFirstMatch(R, 2, c); }
    } else if c == 'x' || c == 'X' || c == ',' {
      TesseractCharRulesOnSign(c);
    } else {
      ApplyRulesUntouched(R, [c]);
    }
  }

  lemma TesseractCharRulesOnSign(c: char)
    requires c == 'x' || c == 'X' || c == ','
    ensures ApplyRules(TesseractCharRules, [c]) == TesseractChar(c)
  {
    var R := TesseractCharRules;
    if c == 'x' { ApplyRulesFirstMatch(R, 3, c); }
    else if c == 'X' { ApplyRulesFirstMatch(R, 4, c); }
    else { ApplyRulesFirstMatch(R, 5, c); }
  }

  /** The EasyOCR rules are the Tesseract single-character rules followed by these. */
  const EasyOcrTail: seq<Rule> := [Rule("_", "-"), Rule("~", "-")]

  /** The GPT rules are the EasyOCR rules followed by these. */
  const GptTail: seq<Rule> := [Rule("×", "*"), Rule(":", "/"), Rule("=", "/")]

  lemma EasyOcrRulesOnChar(c: char)
    ensures ApplyRules(EasyOcrRules, [c]) == EasyOcrChar(c)
  {
    assert EasyOcrRules == TesseractCharRules + EasyOcrTail;
    ApplyRulesAppend(TesseractCharRules, EasyOcrTail, [c]);
    TesseractCharRulesOnChar(c);
    EasyOcrTailOnChar(c);
  }

  lemma EasyOcrTailOnChar(c: char)
    ensures ApplyRules(EasyOcrTail, TesseractChar(c)) == EasyOcrChar(c)
  {
    if c == '_' {
      ApplyRulesFirstMatch(EasyOcrTail, 0, c);
    } else if c == '~' {
      ApplyRulesFirstMatch(EasyOcrTail, 1, c);
    } else {
      ApplyRulesUntouched(EasyOcrTail, TesseractChar(c));
    }
  }

  lemma GptRulesOnChar(c: char)
    ensures ApplyRules(GptRules, [c]) == GptChar(c)
  {
    assert GptRules == EasyOcrRules + GptTail;
    ApplyRulesAppend(EasyOcrRules, GptTail, [c]);
    EasyOcrRulesOnChar(c);
    GptTailOnChar(c);
  }

  lemma GptTailOnChar(c: char)
    ensures ApplyRules(GptTail, EasyOcrChar(c)) == GptChar(c)
  {
    if c == '×' || c == ':' || c == '=' {
      assert EasyOcrChar(c) == [c];
      if c == '×' {
        ApplyRulesFirstMatch(GptTail, 0, c);
      } else if c == ':' {
        ApplyRulesFirstMatch(GptTail, 1, c);
      } else {
        ApplyRulesFirstMatch(GptTail, 2, c);
      }
    } else {
      ApplyRulesUntouched(GptTail, EasyOcrChar(c));
    }
  }

  // ---------------------------------------------------------------------
  // The filter.

  /** The filter works character by character. */
  lemma {:induction false} KeepConcat(a: string, b: string)
    ensures Keep(a + b) == Keep(a) + Keep(b)
  {
    if a != [] {
      assert (a + b)[1..] == a[1..] + b;
      KeepConcat(a[1..], b);
    } else {
      assert a + b == b;
    }
  }

  /** The filter keeps every allowed character as often as it occurs and
      drops every other character. */
  lemma {:induction false} KeepCounts(s: string)
    ensures forall c :: multiset(Keep(s))[c] == if Allowed(c) then multiset(s)[c] else 0
  {
    if s != [] {
      assert s == [s[0]] + s[1..];
      KeepCounts(s[1..]);
    }
  }

  // ---------------------------------------------------------------------
  // The chains as per-character rewrites.

  /** A character that is in neither the text nor any replacement stays out. */
  lemma {:induction false} ReplaceKeepsOut(s: string, pat: string, rep: string, x: char)
    requires x !in s && x !in rep
    ensures x !in Replace(s, pat, rep)
    decreases |s|
  {
    if s != [] {
      assert forall y :: y in s[1..] ==> y in s;
      if pat != [] && |pat| <= |s| && s[..|pat|] == pat {
        assert forall y :: y in s[|pat|..] ==> y in s;
        ReplaceKeepsOut(s[|pat|..], pat, rep, x);
      } else {
        ReplaceKeepsOut(s[1..], pat, rep, x);
      }
    }
  }

  lemma {:induction false} ApplyRulesKeepsOut(rules: seq<Rule>, s: string, x: char)
    requires x !in s
    requires forall i :: 0 <= i < |rules| ==> x !in rules[i].replacement
    ensures x !in ApplyRules(rules, s)
  {
    if rules != [] {
      ReplaceKeepsOut(s, rules[0].pattern, rules[0].replacement, x);
      ApplyRulesKeepsOut(rules[1..], Replace(s, rules[0].pattern, rules[0].replacement), x);
    }
  }

  /** A chain whose rules each replace one character is a per-character
      rewrite followed by the filter. */
  lemma CleanCharwise(rules: seq<Rule>, f: char -> string, raw: string)
    requires forall i :: 0 <= i < |rules| ==> |rules[i].pattern| == 1
    requires forall c :: ApplyRules(rules, [c]) == f(c)
    ensures Clean(rules, raw) == Keep(Translate(f, raw))
  {
    ApplyRulesCharwise(rules, f, raw);
  }

  lemma EasyOcrRulesSingleChar()
    ensures forall i :: 0 <= i < |EasyOcrRules| ==> |EasyOcrRules[i].pattern| == 1
  {
  }

  lemma EasyOcrRulesCharwise()
    ensures forall c :: ApplyRules(EasyOcrRules, [c]) == EasyOcrChar(c)
  {
    forall c ensures ApplyRules(EasyOcrRules, [c]) == EasyOcrChar(c) {
      EasyOcrRulesOnChar(c);
    }
  }

  lemma GptRulesSingleChar()
    ensures forall i :: 0 <= i < |GptRules| ==> |GptRules[i].pattern| == 1
  {
  }

  lemma GptRulesCharwise()
    ensures forall c :: ApplyRules(GptRules, [c]) == GptChar(c)
  {
    forall c ensures ApplyRules(GptRules, [c]) == GptChar(c) {
      GptRulesOnChar(c);
    }
  }

  lemma TesseractCharRulesSingleChar()
    ensures forall i :: 0 <= i < |TesseractCharRules| ==> |TesseractCharRules[i].pattern| == 1
  {
  }

  lemma TesseractCharRulesCharwise()
    ensures forall c :: ApplyRules(TesseractCharRules, [c]) == TesseractChar(c)
  {
    forall c ensures ApplyRules(TesseractCharRules, [c]) == TesseractChar(c) {
      TesseractCharRulesOnChar(c);
    }
  }

  /** The EasyOCR chain rewrites each character on its own (`EasyOcrChar`)
      and then filters: `x` and `X` become `*`, `—`, `_` and `~` become `-`,
      `÷` becomes `/`, `,` becomes `.`, spaces and everything else outside
      the alphabet vanish. */
  lemma EasyOcrChainCharwise(raw: string)
    ensures GetTextFromImEasy(raw).0 == Keep(Translate(EasyOcrChar, raw))
  {
    EasyOcrRulesSingleChar();
    EasyOcrRulesCharwise();
    CleanCharwise(EasyOcrRules, EasyOcrChar, raw);
  }

  /** The GPT chain rewrites each character on its own (`GptChar`) and then
      filters; besides the EasyOCR rules, `×` becomes `*` and both `:` and
      `=` become `/`. */
  lemma GptChainCharwise(raw: string)
    ensures GetTextFromImGpt(raw).0 == Keep(Translate(GptChar, raw))
  {
    GptRulesSingleChar();
    GptRulesCharwise();
    CleanCharwise(GptRules, GptChar, raw);
  }

  /** What the two Tesseract rules before `/1` -> `7` do to one character. */
  function PreChar(c: char): string
  {
    if c == ' ' then "" else if c == '—' then "-" else [c]
  }

  /** What the four Tesseract rules after `/1` -> `7` do to one character. */
  function PostChar(c: char): string
  {
    if c == '÷' then "/"
    else if c == 'x' || c == 'X' then "*"
    else if c == ',' then "."
    else [c]
  }

  lemma TesseractPreOnChar(c: char)
    ensures ApplyRules(TesseractRules[..2], [c]) == PreChar(c)
  {
    var R := TesseractRules[..2];
    if c == ' ' {
      ApplyRulesFirstMatch(R, 0, c);
    } else if c == '—' {
      ApplyRulesFirstMatch(R, 1, c);
    } else {
      ApplyRulesUntouched(R, [c]);
    }
  }

  lemma TesseractPostOnChar(c: char)
    ensures ApplyRules(TesseractRules[3..], [c]) == PostChar(c)
  {
    var R := TesseractRules[3..];
    if c == '÷' {
      ApplyRulesFirstMatch(R, 0, c);
    } else if c == 'x' {
      ApplyRulesFirstMatch(R, 1, c);
    } else if c == 'X' {
      ApplyRulesFirstMatch(R, 2, c);
    } else if c == ',' {
      ApplyRulesFirstMatch(R, 3, c);
    } else {
      ApplyRulesUntouched(R, [c]);
    }
  }

  lemma TesseractPreCharwise(s: string)
    ensures ApplyRules(TesseractRules[..2], s) == Translate(PreChar, s)
  {
    forall c ensures ApplyRules(TesseractRules[..2], [c]) == PreChar(c) {
      TesseractPreOnChar(c);
    }
    ApplyRulesCharwise(TesseractRules[..2], PreChar, s);
  }

  lemma TesseractPostSingleChar()
    ensures forall i :: 0 <= i < |TesseractRules[3..]| ==> |TesseractRules[3..][i].pattern| == 1
  {
  }

  lemma TesseractPostCharwise(s: string)
    ensures ApplyRules(TesseractRules[3..], s) == Translate(PostChar, s)
  {
    TesseractPostSingleChar();
    forall c ensures ApplyRules(TesseractRules[3..], [c]) == PostChar(c) {
      TesseractPostOnChar(c);
    }
    ApplyRulesCharwise(TesseractRules[3..], PostChar, s);
  }

  /** The whole Tesseract chain on any text: a per-character rewrite
      (`PreChar`), one pass of `/1` -> `7` over its output, a second
      per-character rewrite (`PostChar`), then the filter.  A `/` made from
      `÷` comes after the `/1` pass, so it is never read as part of a `7`. */
  lemma TesseractChainGeneral(raw: string, divMode: bool)
    ensures GetCleanTextFromImage(raw, divMode).0
         == Keep(Translate(PostChar, Replace(Translate(PreChar, raw), "/1", "7")))
  {
    var pre := TesseractRules[..2];
    var post := TesseractRules[3..];
    assert TesseractRules == pre + ([TesseractRules[2]] + post);
    ApplyRulesAppend(pre, [TesseractRules[2]] + post, raw);
    var u := ApplyRules(pre, raw);
    TesseractPreCharwise(raw);
    var t := Replace(u, "/1", "7");
    assert ApplyRules([TesseractRules[2]] + post, u) == ApplyRules(post, t);
    TesseractPostCharwise(t);
  }

  lemma {:induction false} TranslateConcat(f: char -> string, a: string, b: string)
    ensures Translate(f, a + b) == Translate(f, a) + Translate(f, b)
  {
    if a == [] {
      assert a + b == b;
    } else {
      assert (a + b)[0] == a[0] && (a + b)[1..] == a[1..] + b;
      TranslateConcat(f, a[1..], b);
    }
  }

  /** The two per-character halves of the Tesseract chain together are
      `TesseractChar`. */
  lemma {:induction false} PrePostCharwise(s: string)
    ensures Translate(PostChar, Translate(PreChar, s)) == Translate(TesseractChar, s)
  {
    if s != [] {
      var c := s[0];
      TranslateConcat(PostChar, PreChar(c), Translate(PreChar, s[1..]));
      if PreChar(c) != [] {
        assert PreChar(c)[1..] == [];
      }
      assert Translate(PostChar, PreChar(c)) == TesseractChar(c);
      PrePostCharwise(s[1..]);
    }
  }

  /** On text with no `/`, the rule `/1` -> `7` finds nothing to do and the
      Tesseract chain is the per-character rewrite `TesseractChar`. */
  lemma TesseractChainCharwise(raw: string, divMode: bool)
    requires '/' !in raw
    ensures GetCleanTextFromImage(raw, divMode).0 == Keep(Translate(TesseractChar, raw))
  {
    var u := Translate(PreChar, raw);
    TesseractPreCharwise(raw);
    ApplyRulesKeepsOut(TesseractRules[..2], raw, '/');
    ReplaceWithoutLead(u, "/1", "7");
    TesseractChainGeneral(raw, divMode);
    PrePostCharwise(raw);
  }

  /** `div_mode` never reaches the Tesseract chain's result (ocr_processing.py:64-65). */
  lemma TesseractDivModeIgnored(raw: string)
    ensures GetCleanTextFromImage(raw, true) == GetCleanTextFromImage(raw, false)
  {
  }

  /** On text made only of digits and `/`, the Tesseract rules do nothing
      but read `/1` as `7`, one left-to-right pass. */
  lemma TesseractOnDigitsAndSlashes(s: string)
    requires forall i :: 0 <= i < |s| ==> IsDigit(s[i]) || s[i] == '/'
    ensures ApplyRules(TesseractRules, s) == Replace(s, "/1", "7")
  {
    DigitsAndSlashesOnly(s);
    TesseractOnlySlashOne(s);
  }

  lemma DigitsAndSlashesOnly(s: string)
    requires forall i :: 0 <= i < |s| ==> IsDigit(s[i]) || s[i] == '/'
    ensures ' ' !in s && '—' !in s && '÷' !in s && 'x' !in s && 'X' !in s && ',' !in s
  {
  }

  /** The Tesseract rules on text where only the two-character rule can match. */
  lemma TesseractOnlySlashOne(s: string)
    requires ' ' !in s && '—' !in s && '÷' !in s && 'x' !in s && 'X' !in s && ',' !in s
    ensures ApplyRules(TesseractRules, s) == Replace(s, "/1", "7")
  {
    var pre := TesseractRules[..2];
    var post := TesseractRules[3..];
    assert TesseractRules == pre + ([TesseractRules[2]] + post);
    ApplyRulesAppend(pre, [TesseractRules[2]] + post, s);
    TesseractPreUntouched(s);
    var t := Replace(s, "/1", "7");
    TesseractPostUntouched(s, t);
    assert ApplyRules([TesseractRules[2]] + post, s) == ApplyRules(post, t);
  }

  lemma TesseractPreUntouched(s: string)
    requires ' ' !in s && '—' !in s
    ensures ApplyRules(TesseractRules[..2], s) == s
  {
    ApplyRulesUntouched(TesseractRules[..2], s);
  }

  lemma TesseractPostUntouched(s: string, t: string)
    requires '÷' !in s && 'x' !in s && 'X' !in s && ',' !in s
    requires t == Replace(s, "/1", "7")
    ensures ApplyRules(TesseractRules[3..], t) == t
  {
    ReplaceKeepsOut(s, "/1", "7", '÷');
    ReplaceKeepsOut(s, "/1", "7", 'x');
    ReplaceKeepsOut(s, "/1", "7", 'X');
    ReplaceKeepsOut(s, "/1", "7", ',');
    ApplyRulesUntouched(TesseractRules[3..], t);
  }

  lemma SlashOneReplacements()
    ensures Keep(Replace("/1", "/1", "7")) == "7"
    ensures Keep(Replace("/11", "/1", "7")) == "71"
    ensures Keep(Translate(TesseractChar, "÷1")) == "/1"
  {
    assert Translate(TesseractChar, "1") == "1";
  }

  /** Rule order in the Tesseract chain: `/1` is read as `7`, but a `÷`
      followed by `1` becomes `/1` only after that rule has run, so it stays
      a division; each rule is one left-to-right pass, so `/11` gives `71`. */
  lemma TesseractSlashOneExamples()
    ensures GetCleanTextFromImage("/1", false).0 == "7"
    ensures GetCleanTextFromImage("/11", false).0 == "71"
    ensures GetCleanTextFromImage("÷1", false).0 == "/1"
  {
    SlashOneReplacements();
    TesseractOnDigitsAndSlashes("/1");
    TesseractOnDigitsAndSlashes("/11");
    TesseractChainCharwise("÷1", false);
  }

  lemma GptCharEquals()
    ensures Keep(Translate(GptChar, "3+4=")) == "3+4/"
  {
    assert Translate(GptChar, "=") == "/";
    assert Translate(GptChar, "4=") == "4/";
    assert Translate(GptChar, "+4=") == "+4/";
  }

  lemma GptCharGarbage()
    ensures Keep(Translate(GptChar, "abc")) == ""
  {
    assert Translate(GptChar, "c") == "c";
    assert Translate(GptChar, "bc") == "bc";
  }

  /** A GPT reply ending in `=` gets a trailing division sign. */
  lemma GptEqualsExample()
    ensures GetTextFromImGpt("3+4=").0 == "3+4/"
  {
    GptCharEquals();
    GptChainCharwise("3+4=");
  }

  lemma GarbageTranslations()
    ensures Keep(Translate(TesseractChar, "abc")) == ""
    ensures Keep(Translate(EasyOcrChar, "abc")) == ""
  {
    assert Translate(TesseractChar, "c") == "c";
    assert Translate(TesseractChar, "bc") == "bc";
    assert Translate(EasyOcrChar, "c") == "c";
    assert Translate(EasyOcrChar, "bc") == "bc";
  }

  /** Text with nothing arithmetic in it cleans to the empty string in every chain. */
  lemma GarbageCleansToEmpty()
    ensures GetCleanTextFromImage("abc", false).0 == ""
    ensures GetTextFromImEasy("abc").0 == ""
    ensures GetTextFromImGpt("abc").0 == ""
  {
    GarbageTranslations();
    GptCharGarbage();
    TesseractChainCharwise("abc", false);
    EasyOcrChainCharwise("abc");
    GptChainCharwise("abc");
  }

  // ---------------------------------------------------------------------
  // Cleaning twice.

  /** A text without `ab` is left alone by the rule `ab` -> `rep`. */
  lemma {:induction false} ReplaceAbsentPair(s: string, a: char, b: char, rep: string)
    requires !ContainsPair(s, a, b)
    ensures Replace(s, [a, b], rep) == s
  {
    if s != [] {
      if 2 <= |s| {
        assert s[..2] == [s[0], s[1]];
        assert !(s[0] == a && s[1] == b);
      }
      assert !ContainsPair(s[1..], a, b) by {
        forall i | 0 <= i < |s[1..]| - 1 ensures !(s[1..][i] == a && s[1..][i + 1] == b) {
          assert s[1..][i] == s[i + 1] && s[1..][i + 1] == s[i + 2];
        }
      }
      ReplaceAbsentPair(s[1..], a, b, rep);
    }
  }

  /** Rules that rewrite single characters outside the canonical alphabet
      leave canonical text alone. */
  lemma CanonicalUntouched(rules: seq<Rule>, s: string)
    requires IsCanonical(s)
    requires forall i :: 0 <= i < |rules| ==> |rules[i].pattern| == 1 && !Allowed(rules[i].pattern[0])
    ensures ApplyRules(rules, s) == s
  {
    ApplyRulesUntouched(rules, s);
  }

  /** The EasyOCR chain is idempotent: its output is canonical, and none of
      its rules rewrites a canonical character. */
  lemma EasyOcrIdempotent(raw: string)
    ensures GetTextFromImEasy(GetTextFromImEasy(raw).0).0 == GetTextFromImEasy(raw).0
  {
    CanonicalUntouched(EasyOcrRules, GetTextFromImEasy(raw).0);
  }

  /** The GPT chain is idempotent for the same reason. */
  lemma GptIdempotent(raw: string)
    ensures GetTextFromImGpt(GetTextFromImGpt(raw).0).0 == GetTextFromImGpt(raw).0
  {
    CanonicalUntouched(GptRules, GetTextFromImGpt(raw).0);
  }

  /** The rule `ab` -> `c` never lengthens a text, and shortens every text
      that holds `ab`. */
  lemma {:induction false} ReplacePairLength(s: string, a: char, b: char, c: char)
    ensures |Replace(s, [a, b], [c])| <= |s|
    ensures ContainsPair(s, a, b) ==> |Replace(s, [a, b], [c])| < |s|
  {
    if s != [] {
      if 2 <= |s| && s[..2] == [a, b] {
        ReplacePairLength(s[2..], a, b, c);
      } else {
        ReplacePairLength(s[1..], a, b, c);
        if ContainsPair(s, a, b) {
          var i :| 0 <= i < |s| - 1 && s[i] == a && s[i + 1] == b;
          if i > 0 {
            assert s[1..][i - 1] == a && s[1..][i] == b;
          }
        }
      }
    }
  }

  /** The Tesseract chain leaves canonical text alone exactly when it holds
      no `/1`: the only rule that rewrites canonical characters is `/1` -> `7`. */
  lemma TesseractKeepsCanonical(s: string, divMode: bool)
    requires IsCanonical(s)
    ensures GetCleanTextFromImage(s, divMode).0 == s <==> !ContainsPair(s, '/', '1')
  {
    var r := Replace(s, "/1", "7");
    TesseractOnlySlashOne(s);
    assert GetCleanTextFromImage(s, divMode).0 == Keep(r);
    if !ContainsPair(s, '/', '1') {
      ReplaceAbsentPair(s, '/', '1', "7");
    } else {
      ReplacePairLength(s, '/', '1', '7');
    }
  }

  /** The Tesseract chain is not idempotent: `÷` becomes `/` after the
      `/1` rule has run, so a second cleaning reads the new `/1` as `7`. */
  lemma TesseractNotIdempotent(raw: string)
    requires raw == "÷11"
    ensures GetCleanTextFromImage(raw, false).0 == "/11"
    ensures GetCleanTextFromImage(GetCleanTextFromImage(raw, false).0, false).0 == "71"
  {
    assert Translate(TesseractChar, "1") == "1";
    assert Translate(TesseractChar, "11") == "11";
    TesseractChainCharwise(raw, false);
    var once := GetCleanTextFromImage(raw, false).0;
    assert once == "/11";
    SlashOneReplacements();
    TesseractOnDigitsAndSlashes(once);
  }
}
