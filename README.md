# OCR calculator core in Dafny

The program reads an arithmetic expression from a region of the screen,
cleans up the recognised text, evaluates it safely and types the answer
back. This project models the part of it that does something other than I/O:

- **Cleanup chains** (`ocr_processing.py`). There are three backends:
  Tesseract, EasyOCR and a GPT chat reply. Each one rewrites the raw
  recognised text with an ordered list of literal `str.replace` rules, then
  keeps only the characters `0-9 . + - * / ( )` with one `re.sub`.
  - `Cleanup.Replace` is Python's one-pass, left-to-right,
    non-overlapping `str.replace`.
  - `Cleanup.Clean` applies a rule list and then the filter.
  - The three rule lists are constants, in source order.
- **Safe evaluator** (`safe_eval`, `solve_operation`).
  - `ast.parse` is modelled by a tokenizer (`Tokenizer`) and a
    recursive-descent parser (`Parser`). They cover Python's expression
    grammar restricted to the canonical alphabet: `+ - * / // **`, unary
    signs, brackets, calls such as `2(3)`, tuples `()` and the `...`
    constant.
  - `Evaluator.SafeEval` walks the tree. It checks each operator against
    the table before evaluating operands, and refuses a `Div` whose right
    operand is 0 before calling the division function.
  - `Evaluator.SolveOperation` turns every outcome into the
    `(error, result)` pair.
  - The operator table `allowed_operators` comes from `constants.py`, which
    is not part of this model. It is therefore a parameter (`OperatorTable`):
    a map from each allowed operator to the function it dispatches to.
    Properties that need particular operators say so in their `requires`
    (`Conventional(t)` gives `+ - * /` and the unary signs their usual
    meaning).
- **The application's dispatch** (`main_app.py`). `App.MainApp` is a class
  whose fields follow the region, the original and cleaned texts, the result,
  what the window shows, the typed answers and the action queue.
  - Its methods follow `check_queue`, `get_region`, `take_screenshot` and
    `display_result`. The hotkey listener is modelled as `PressHotkey`.
  - Each method is proved against a specification function on an `AppState`
    value.
  - `Consistent` is an invariant proved to hold initially and across every
    step. What is shown always matches what solving the stored cleaned text
    reports, and the last typed answer is the current result.
  - The capture, the recognition backends and the mouse selection are
    parameters: `box` is the rectangle chosen, and `recognised` is the raw
    text the backend returned.

Numbers are exact `real`s. They stand for Python's ints and floats, and Python's
`/` always yields a float, which the model does not distinguish from an int.

### Behaviour worth knowing

- The cleanup chains remove only the space character U+0020
  (ocr_processing.py:54, 76, 123). Tabs and newlines are dropped later by the
  filter, together with every other character outside the alphabet.
- Division mode (`+` → `/`) is applied by `take_screenshot`
  (main_app.py:157-158) for every backend.
- Inside `get_clean_text_from_image`, line 65 computes the replacement and
  throws it away, so that function's `div_mode` has no effect
  (`Cleanup.TesseractDivModeIgnored`).
  - `take_screenshot` passes `self.reader`, a true value, as that argument
    (main_app.py:155). If line 65 assigned its result, the `classic` action
    would divide too.
- The action `easy` runs the GPT chain, not EasyOCR (main_app.py:232-233).
  The EasyOCR chain is reachable only through the model name `'easy'`, which
  no action uses.
- `**` and `//` are parsed. Whether they evaluate depends on the table.
- A syntax error is reported with the general message and an empty result,
  like any exception other than `ZeroDivisionError`.

## Model

| member | source | states |
|---|---|---|
| Cleanup.Keep | ocr_processing.py:62 | the filter's output holds only `0-9 . + - * / ( )`, is never longer than its input, and leaves canonical text unchanged |
| Cleanup.KeepCounts | ocr_processing.py:62 | every allowed character keeps its number of occurrences, every other character is dropped entirely |
| Cleanup.KeepConcat | ocr_processing.py:85 | the filter is a single pass that decides each character on its own (it distributes over concatenation) |
| Cleanup.Clean | ocr_processing.py:54-62 | whatever the rules and the raw text, a chain's output is canonical |
| Cleanup.GetCleanTextFromImage | ocr_processing.py:47-67 | the Tesseract chain returns canonical text together with the recognised text unchanged |
| Cleanup.GetTextFromImEasy | ocr_processing.py:70-87 | the EasyOCR chain returns canonical text together with the joined recognised text |
| Cleanup.GetTextFromImGpt | ocr_processing.py:121-137 | the GPT chain returns canonical text together with the reply text |
| Cleanup.Replace | ocr_processing.py:54-60 | Python's one-pass `str.replace`: a one-character rule with a one-character replacement keeps the length, and no rule with a replacement no longer than its pattern lengthens the text; `ReplaceCharAt`, `ReplacePairGone` and `TesseractOnDigitsAndSlashes` state what it produces |
| Cleanup.ReplaceCharAt | main_app.py:158 | replacing one character by another keeps the length and maps each position on its own |
| Cleanup.ReplacePairGone | ocr_processing.py:56 | after the one-pass `/1` → `7` no `/1` is left in what that rule produced |
| Cleanup.ApplyRulesAppend | ocr_processing.py:54-60 | running a chain's rules in order is running the first rules, then the rest on their output |
| Cleanup.CleanCharwise | ocr_processing.py:76-85 | a chain of single-character rules cleans like its per-character reference translation followed by the filter |
| Cleanup.TesseractCharRulesCharwise | ocr_processing.py:54-60 | the single-character Tesseract rules act, on every character, as the reference `TesseractChar` (`x`, `X` → `*`, `—` → `-`, `÷` → `/`, `,` → `.`, space dropped) |
| Cleanup.EasyOcrRulesCharwise | ocr_processing.py:76-83 | the EasyOCR rules act as the reference `EasyOcrChar`: Tesseract's mapping plus `_` and `~` → `-` |
| Cleanup.GptRulesCharwise | ocr_processing.py:123-133 | the GPT rules act as the reference `GptChar`: EasyOCR's mapping plus `×` → `*` and `:`, `=` → `/` |
| Cleanup.EasyOcrChainCharwise | ocr_processing.py:76-85 | the whole EasyOCR chain equals its reference translation followed by the filter |
| Cleanup.GptChainCharwise | ocr_processing.py:123-135 | the whole GPT chain equals its reference translation followed by the filter |
| Cleanup.TesseractChainGeneral | ocr_processing.py:54-62 | on any text, the Tesseract chain is the rewrite of the two rules before `/1` (`PreChar`), one pass of `/1` → `7`, the rewrite of the four rules after it (`PostChar`), then the filter; a `/` made from `÷` never becomes part of a `7` |
| Cleanup.TesseractChainCharwise | ocr_processing.py:54-62 | on text without `/`, the Tesseract chain equals its reference translation `TesseractChar` followed by the filter (derived from the general statement) |
| Cleanup.TesseractDivModeIgnored | ocr_processing.py:64-67 | `div_mode` true and false give identical results, since line 65 discards its replacement |
| Cleanup.TesseractOnDigitsAndSlashes | ocr_processing.py:56 | on digits and `/` the Tesseract chain's rules only turn `/1` into `7`, in one left-to-right pass |
| Cleanup.TesseractSlashOneExamples | ocr_processing.py:56-57 | rule order: `/1` cleans to `7`, `/11` to `71`, but `÷1` to `/1` |
| Cleanup.GptEqualsExample | ocr_processing.py:131-135 | the reply `3+4=` cleans to `3+4/` |
| Cleanup.GarbageCleansToEmpty | ocr_processing.py:62 | `abc` cleans to the empty string in all three chains |
| Cleanup.EasyOcrIdempotent | ocr_processing.py:76-85 | cleaning the EasyOCR chain's output again changes nothing |
| Cleanup.GptIdempotent | ocr_processing.py:123-135 | cleaning the GPT chain's output again changes nothing |
| Cleanup.TesseractKeepsCanonical | ocr_processing.py:54-62 | canonical text passes the Tesseract chain unchanged if and only if it holds no `/1` |
| Cleanup.TesseractNotIdempotent | ocr_processing.py:56-57 | the Tesseract chain is not idempotent: `÷11` cleans to `/11`, which cleans to `71` |
| Tokenizer.NextTokenAccepts | ocr_processing.py:142 | a token takes only characters of the canonical alphabet, and any other character stops the tokenizer |
| Tokenizer.LexNumberRefusal | ocr_processing.py:142 | a number is refused exactly when it has no point and its digits start with `0` but are not all zeros (`07`; `00` and `07.5` are accepted) |
| Tokenizer.LexNumberTaken | ocr_processing.py:142 | a number token takes only digits and at most one point, placed right after the first run of digits |
| Tokenizer.LexNumberMaximal | ocr_processing.py:142 | a number token is never followed by a digit, nor by a point unless it already holds one |
| Tokenizer.TokenizeAccepts | ocr_processing.py:142 | only canonical text tokenizes, into no more tokens than it has characters |
| Parser.Parse | ocr_processing.py:142 | `ast.parse(text, mode='eval')`: the empty text is a syntax error; `Printer.ParseShow` proves it reads back every fully bracketed printed tree; precedence and grouping are shown by the worked examples (`SolvePrecedence`, `SolveGrouped`, `SolveSigned`, `SolveLeftGrouping`, `ParseSignedPower`) |
| Evaluator.SafeEval | ocr_processing.py:13-35 | only a tree whose every operator is in the table yields a value; `SafeEvalIsArithmetic` proves it computes the arithmetic value under the usual table |
| Evaluator.SolveOperation | ocr_processing.py:139-149 | never fails; the error is absent exactly when the text parses and evaluates to a number, which is then the result; otherwise the result is `""` and the error is the division message exactly for a `ZeroDivisionError`, else the general message |
| Evaluator.Report | ocr_processing.py:146-149 | an exception yields an empty result, with the division message if and only if it is a `ZeroDivisionError` |
| Evaluator.UnsupportedBeforeOperands | ocr_processing.py:17-26 | a binary operator missing from the table fails with "Opérateur non supporté" whatever its operands are, so they are not evaluated |
| Evaluator.UnsupportedUnaryBeforeOperand | ocr_processing.py:27-33 | the same for a unary operator, with "Opérateur unaire non supporté" |
| Evaluator.LeftOperandFirst | ocr_processing.py:19-20 | a failing left operand's exception is the one a binary node raises |
| Evaluator.DivisionGuard | ocr_processing.py:19-23 | whatever its operands are, a `Div` whose left operand has a value and whose right operand evaluates to 0 raises "Division par zéro" |
| Evaluator.DivisionGuardIgnoresFunction | ocr_processing.py:22-24 | the guard never calls the table's division function: any function in its place gives the same error (for operands that do not themselves divide, whose values that function would decide) |
| Evaluator.OnlyDivisionByZeroFails | ocr_processing.py:13-35 | with every operator in the table and functions that raise only `ZeroDivisionError`, evaluating a tree of numbers and operators can fail only by dividing by zero |
| Evaluator.SolveErrorsUnderCompleteTable | ocr_processing.py:139-149 | under such a table, a parsed arithmetic text yields no error or the division message, never the general one |
| Evaluator.SafeEvalIsArithmetic | ocr_processing.py:13-35 | with the usual `+ - * /` and signs, `safe_eval` of a four-operation tree equals its arithmetic value `Denote`, and raises the division error exactly where `Denote` divides by zero |
| Evaluator.SolveIsArithmetic | ocr_processing.py:139-149 | under that table, `solve_operation` returns the arithmetic value of the text, or the division message when it divides by zero |
| Printer.ParseShow | ocr_processing.py:142 | printing a tree of natural numbers and operators fully bracketed and parsing it back gives the same tree |
| Printer.SolveShown | ocr_processing.py:139-149 | solving such a printed tree reports exactly what evaluating the tree gives |
| SolveExamples.SolvePrecedence | ocr_processing.py:142-145 | `2+3*4` gives 14: `*` binds tighter than `+` |
| SolveExamples.SolveGrouped | ocr_processing.py:142-145 | `(2+3)*4` gives 20 |
| SolveExamples.SolveSigned | ocr_processing.py:142-145 | `-5+3` gives -2: the sign applies to `5` alone |
| SolveExamples.SolveLeftGrouping | ocr_processing.py:142-145 | `8-4-2` gives 2, not 6: operators of one level group to the left |
| SolveExamples.ParseSignedPower | ocr_processing.py:142 | `-2**2` parses as `-(2**2)`: `**` binds tighter than a leading sign |
| SolveExamples.SolveDivisionByZero | ocr_processing.py:146-147 | `10/0` gives the division message and an empty result whenever `Div` is in the table |
| SolveExamples.SolveEmpty | ocr_processing.py:148-149 | the empty text is a syntax error, reported with the general message |
| SolveExamples.SolveLeadingZero | ocr_processing.py:148-149 | `07` is a syntax error |
| SolveExamples.SolveTwoPoints | ocr_processing.py:148-149 | `1.2.3` is a syntax error |
| SolveExamples.SolveTrailingOperator | ocr_processing.py:148-149 | `3+4/`, which the GPT chain makes of `3+4=`, is a syntax error |
| SolveExamples.SolveCall | ocr_processing.py:34-35 | `2(3)` parses as a call and is refused as an unsupported expression |
| SolveExamples.SolveEmptyTuple | ocr_processing.py:34-35 | `()` parses as a tuple and is refused as an unsupported expression |
| SolveExamples.SolveEllipsis | ocr_processing.py:34-35 | `...` parses as a constant that is not a number and is refused |
| App.BackendFor | main_app.py:150-155 | the EasyOCR backend is chosen exactly for the model name `'easy'`, GPT exactly for `'gpt'` |
| App.Recognise | main_app.py:150-155 | the chosen chain returns canonical text and keeps the recognised text as `ori_text` |
| App.PlusToSlash | main_app.py:157-158 | division mode turns every `+` into `/`, leaves every other character in place and keeps the text canonical |
| App.Dispatch | main_app.py:226-239 | exactly the seven handled action strings do something; a screenshot action divides exactly for `division` and `easy_division`, reads with GPT exactly for `easy` and `easy_division`, and never selects EasyOCR |
| App.HotkeyAction | main_app.py:253-258 | exactly F1, F2, F3, F4 and F10 queue an action, and every action they queue is handled by `check_queue` |
| App.DisplayResultSpec | main_app.py:167-178 | `display_result` changes neither the region, the texts, the queue nor `closed`; on an error the result and the typed answers stay, on success the result is replaced and typed |
| App.ScreenshotSpec | main_app.py:142-165 | `take_screenshot` keeps the region and the queue, types at most the new result, and with no region types nothing and keeps the result |
| App.CheckQueueSpec | main_app.py:220-244 | `check_queue` takes exactly one action off a non-empty queue, closes exactly on `on_close`, and types at most the new result |
| App.HotkeySpec | main_app.py:253-258 | a hotkey press changes only the queue, appending at most one action, which `check_queue` handles |
| App.OtherModelsUseTesseract | main_app.py:150-155 | every model name other than `'easy'` and `'gpt'`, the default `'tessseract'` included, selects Tesseract |
| App.ActionTable | main_app.py:226-235 | `classic` and `division` run Tesseract in plain and division mode, `easy` and `easy_division` run GPT, `get_region` selects a region |
| App.EmptyQueueChangesNothing | main_app.py:224-241 | a check with an empty queue changes no field |
| App.UnknownActionOnlyDequeues | main_app.py:226-241 | an unhandled action is taken off the queue and nothing else changes |
| App.EasyActionUsesGpt | main_app.py:232-233 | the action `easy` stores the GPT chain's cleaning of the recognised text |
| App.GetRegionUsesGpt | main_app.py:135-140 | `get_region` stores the selected rectangle and reads it with the GPT chain |
| App.UnreachableActions | main_app.py:253-258 | no hotkey queues `easy_division` or `on_close` |
| App.NoRegionOnlyMessage | main_app.py:164-165 | with no region only the message "Aucune région sélectionnée." is shown; nothing is read, cleaned, solved or typed |
| App.ScreenshotCleansThenSolves | main_app.py:157-162 | the stored cleaned text is the chain's output, rewritten `+` → `/` in division mode; it is stored whether or not solving succeeds, and what is shown is what solving that text reports |
| App.ResultOnlyOnSuccess | main_app.py:167-178 | an error changes only what is shown; success replaces the result and types it |
| App.DisplayPreserves | main_app.py:167-178 | `display_result`, called with the reply for the stored cleaned text of a selected region, leaves the window consistent with the fields |
| App.InitialConsistent | main_app.py:53-64 | the state after construction satisfies the invariant |
| App.ScreenshotPreserves | main_app.py:142-178 | `take_screenshot` keeps the invariant |
| App.CheckQueuePreserves | main_app.py:220-244 | every `check_queue` keeps the invariant |
| App.HotkeyPreserves | main_app.py:253-258 | a hotkey press keeps the invariant |
| App.MainApp.constructor | main_app.py:53-64 | the fields start with no region, the `'No text'` placeholders, result 0 and the no-region message, and the invariant holds |
| App.MainApp.DisplayResult | main_app.py:167-178 | called with the reply for the stored cleaned text, the new state is `display_result`'s specification and the invariant holds |
| App.MainApp.TakeScreenshot | main_app.py:142-165 | the new state is `take_screenshot`'s specification, and the invariant is kept |
| App.MainApp.GetRegion | main_app.py:135-140 | the region is stored, then a plain-mode screenshot is taken with the GPT chain; the invariant is kept |
| App.MainApp.CheckQueue | main_app.py:220-244 | the new state is `check_queue`'s specification, and the invariant is kept |
| App.MainApp.PressHotkey | main_app.py:253-258 | the key's action, if it has one, is appended to the queue; the invariant is kept |
| AppExamples.TesseractReadsSum | ocr_processing.py:54-62 | Tesseract hands `6+3` over unchanged |
| AppExamples.DivisionRewrite | main_app.py:157-158 | division mode turns `6+3` into `6/3` |
| AppExamples.ClassicActionExample | main_app.py:228-229 | `classic` on a reading of `6+3` stores `6+3`, shows and types 9 |
| AppExamples.DivisionActionExample | main_app.py:230-231 | `division` on the same reading stores `6/3`, shows and types 2 |

## Left out

- Screen capture, the region-selection overlay (screen_capture.py) and image
  preprocessing. The rectangle and the raw recognised text are parameters.
- The OCR calls (`pytesseract`, `easyocr`) and the OpenAI chat request with
  its base64 PNG. These are foreign calls and network I/O.
- A recognition call that fails is not modelled: the model always receives
  text. For example, the OpenAI request can raise an API error, or
  `message.content` can be `None` (ocr_processing.py:121), in which case the
  `.replace` on line 123 raises. Such an exception escapes `take_screenshot`
  and `check_queue`. The action has already been dequeued, and the fields
  keep their old values. Only the `finally` at main_app.py:242-244 still
  reschedules the poll.
- The Tkinter window, `display_image`, and the `after(100, ...)` polling.
  The model shows what the text widget would hold. Each `CheckQueue` call is one poll.
- Typing the answer with `pyautogui` and random delays. The model records
  each typed answer in `typed`, but not the `str(int(...))` truncation,
  which depends on Python floats.
- `save_error`, which writes a file and changes no field; `on_close` only
  sets `closed`. The keyboard listener thread and its concurrency with the
  event loop: a hotkey press is one atomic append to the queue.
- The YAML secret loading and the OpenAI clients built at the end of
  `__init__`. The `div_mode` and `image` fields, which neither the
  dispatch nor the solving path reads (`save_error` reads `image` to write
  it to a file).
- The contents of `constants.py`. The operator table is a parameter, and no
  particular table is assumed outside the lemmas that name one.
- Floating point: numbers are exact reals. Python's `/` yields a float, and
  int/float differences, overflow and rounding are not modelled.
- CPython's limits on nesting depth and number length.
- Python versions in which `ast.Num` no longer matches numeric constants.
- The exact wording of the `SyntaxError` message. The model uses
  "invalid syntax" for every syntax error.
- The memory address in the text of an unsupported node (`<ast.Call object
  at 0x...>`).
- Printer.ParseShow: the printed trees use natural-number literals only, so
  decimal literals such as `1.2` and `.3` appear only in worked examples
  (`SolveExamples.TokenizeTwoPoints`), in no all-inputs round trip.
- Evaluator.SolveOperation: requires canonical text. The source accepts any
  string, but every caller passes the output of a cleanup chain, which is
  canonical, so totality is stated for the texts that can reach it.
- App.MainApp.constructor: assumes the action queue is empty, which holds
  because the keyboard thread starts only after the application is built
  (main_app.py:270-275).
