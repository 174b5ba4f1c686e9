/** The dispatch of main_app.py: `MainApp` keeps the selected screen
    region, the last recognised and cleaned texts, the last result and what
    its window shows, and reacts to the actions the keyboard listener puts
    in its queue.

    Capturing the screen, the recognition backends and the mouse selection
    are not modelled: what they produce is given to each method as a
    parameter (`box` for the rectangle `select_region` returns, `recognised`
    for the raw text the chosen backend reads from the capture).  Every
    method is specified by a function on an `AppState` value. */
module App {
  import opened Common
  import opened Cleanup
  import opened Evaluator

  /** The rectangle `select_region` returns: the top-left corner and the
      absolute width and height (screen_capture.py:50-55). */
  datatype Box = Box(x: int, y: int, width: nat, height: nat)

  /** `self.region`: the empty tuple until a rectangle is selected. */
  datatype Region = NoRegion | Selected(box: Box)

  /** The three recognition backends of `take_screenshot`. */
  datatype Backend = Tesseract | EasyOcr | Gpt

  /** The backend `take_screenshot` picks for its `model` argument
      (main_app.py:150-155): only the exact names `'easy'` and `'gpt'`
      select a backend other than Tesseract. */
  function BackendFor(model: string): (b: Backend)
    ensures b == EasyOcr <==> model == "easy"
    ensures b == Gpt <==> model == "gpt"
  {
    if model == "easy" then EasyOcr else if model == "gpt" then Gpt else Tesseract
  }

  /** The chain of the backend applied to the text it recognised: the pair
      `(text, ori_text)`.  The Tesseract call passes `self.reader`, a true
      value, as `div_mode` (main_app.py:155). */
  function Recognise(b: Backend, recognised: string): (r: (string, string))
    ensures IsCanonical(r.0) && r.1 == recognised
  {
    match b
    case Tesseract => GetCleanTextFromImage(recognised, true)
    case EasyOcr => GetTextFromImEasy(recognised)
    case Gpt => GetTextFromImGpt(recognised)
  }

  /** `text.replace('+', '/')` (main_app.py:158): every `+` becomes `/`,
      every other character stays where it is. */
  function PlusToSlash(text: string): (r: string)
    requires IsCanonical(text)
    ensures IsCanonical(r) && |r| == |text|
    ensures forall i :: 0 <= i < |r| ==> r[i] == if text[i] == '+' then '/' else text[i]
    ensures '+' !in r
  {
    ReplaceCharAt(text, '+', '/');
    Replace(text, "+", "/")
  }

  /** What the text widget shows: a plain message, or the two layouts of
      `display_result`. */
  datatype Display =
    | Message(text: string)
    | ResultText(ori: string, clean: string, value: Answer)
    | ErrorText(ori: string, error: string)

  const NoRegionText: string := "Aucune région sélectionnée."

  /** What `check_queue` does for an action (main_app.py:226-239). */
  datatype Command =
    | SelectRegion
    | Screenshot(divMode: bool, model: string)
    | SaveError
    | Close
    | Ignore

  function Dispatch(action: string): (c: Command)
    ensures c == Ignore <==> action !in {"get_region", "classic", "division", "easy", "easy_division", "save_error", "on_close"}
    ensures c.Screenshot? ==> (c.divMode <==> action == "division" || action == "easy_division")
    ensures c.Screenshot? ==> (c.model == "gpt" <==> action == "easy" || action == "easy_division")
    ensures c.Screenshot? ==> BackendFor(c.model) != EasyOcr
  {
    if action == "get_region" then SelectRegion
    else if action == "classic" then Screenshot(false, "tesseract")
    else if action == "division" then Screenshot(true, "tesseract")
    else if action == "easy" then Screenshot(false, "gpt")
    else if action == "easy_division" then Screenshot(true, "gpt")
    else if action == "save_error" then SaveError
    else if action == "on_close" then Close
    else Ignore
  }

  /** The hotkeys of `keyboard_listener` (main_app.py:253-258); the line for
      F5 is commented out. */
  function HotkeyAction(key: string): (a: Option<string>)
    ensures a.Some? <==> key in {"f1", "f2", "f3", "f4", "f10"}
    ensures a.Some? ==> Dispatch(a.value) != Ignore
  {
    if key == "f1" then Some("get_region")
    else if key == "f2" then Some("classic")
    else if key == "f3" then Some("division")
    else if key == "f4" then Some("easy")
    else if key == "f10" then Some("save_error")
    else None
  }

  /** The fields of `MainApp` the model follows.  `typed` records each
      result `input_result` types; `closed` records `on_close`. */
  datatype AppState = AppState(
    region: Region,
    oriText: string,
    cleanText: string,
    result: Answer,
    shown: Display,
    typed: seq<Answer>,
    queue: seq<string>,
    closed: bool)

  /** After `__init__` (main_app.py:53-64): no region, the placeholder texts,
      `int()` as the result, and the message of the first `take_screenshot`. */
  const Initial: AppState := AppState(NoRegion, "No text", "No text", Solved(0.0), Message(NoRegionText), [], [], false)

  /** `display_result(error, result)` (main_app.py:167-178). */
  function DisplayResultSpec(s: AppState, error: Option<string>, result: Answer): (r: AppState)
    ensures r.region == s.region && r.oriText == s.oriText && r.cleanText == s.cleanText
    ensures r.queue == s.queue && r.closed == s.closed
    ensures error.Some? ==> r.result == s.result && r.typed == s.typed
    ensures error.None? ==> r.result == result && r.typed == s.typed + [result]
  {
    if error.None? then
      s.(result := result, shown := ResultText(s.oriText, s.cleanText, result), typed := s.typed + [result])
    else
      s.(shown := ErrorText(s.oriText, error.value))
  }

  /** `take_screenshot(div_mode, model)` (main_app.py:142-165). */
  function ScreenshotSpec(t: OperatorTable, s: AppState, divMode: bool, model: string, recognised: string): (r: AppState)
    ensures r.region == s.region && r.queue == s.queue && r.closed == s.closed
    ensures r.typed == s.typed || r.typed == s.typed + [r.result]
    ensures s.region.NoRegion? ==> r.typed == s.typed && r.result == s.result
  {
    if s.region.NoRegion? then
      s.(shown := Message(NoRegionText))
    else
      var r := Recognise(BackendFor(model), recognised);
      var clean := if divMode then PlusToSlash(r.0) else r.0;
      var reply := SolveOperation(t, clean);
      DisplayResultSpec(s.(oriText := r.1, cleanText := clean), reply.error, reply.result)
  }

  /** `check_queue()` (main_app.py:220-244): take one action, if any, and
      run it; `get_region` stores the selected rectangle first. */
  function CheckQueueSpec(t: OperatorTable, s: AppState, box: Box, recognised: string): (r: AppState)
    ensures s.queue != [] ==> r.queue == s.queue[1..]
    ensures r.closed <==> s.closed || (s.queue != [] && s.queue[0] == "on_close")
    ensures r.typed == s.typed || r.typed == s.typed + [r.result]
  {
    if s.queue == [] then
      s
    else
      var s0 := s.(queue := s.queue[1..]);
      match Dispatch(s.queue[0])
      case SelectRegion => ScreenshotSpec(t, s0.(region := Selected(box)), false, "gpt", recognised)
      case Screenshot(divMode, model) => ScreenshotSpec(t, s0, divMode, model, recognised)
      case SaveError => s0
      case Close => s0.(closed := true)
      case Ignore => s0
  }

  /** A hotkey press: the listener puts the key's action in the queue. */
  function HotkeySpec(s: AppState, key: string): (r: AppState)
    ensures r.(queue := s.queue) == s
    ensures r.queue == s.queue || (|r.queue| == |s.queue| + 1 && r.queue[..|s.queue|] == s.queue && Dispatch(r.queue[|s.queue|]) != Ignore)
  {
    if HotkeyAction(key).Some? then s.(queue := s.queue + [HotkeyAction(key).value]) else s
  }

  /** What the window shows agrees with the fields: a result shown is the
      value of the cleaned text shown beside it, an error shown is what
      solving the cleaned text reported, every typed result is a number and
      the last one is the current result, and nothing is read or typed
      before a region is selected. */
  predicate Consistent(t: OperatorTable, s: AppState)
  {
    && (s.shown.ResultText? ==>
          && s.shown.ori == s.oriText && s.shown.clean == s.cleanText && s.shown.value == s.result
          && IsCanonical(s.cleanText) && SolveOperation(t, s.cleanText) == Reply(None, s.result))
    && (s.shown.ErrorText? ==>
          && s.shown.ori == s.oriText
          && IsCanonical(s.cleanText) && SolveOperation(t, s.cleanText) == Reply(Some(s.shown.error), Blank))
    && TypedConsistent(s)
  }

  /** Every typed result is a number, the last one is the current result,
      and nothing is read or typed before a region is selected. */
  predicate TypedConsistent(s: AppState)
  {
    && (forall i :: 0 <= i < |s.typed| ==> s.typed[i].Solved?)
    && (s.typed != [] ==> s.typed[|s.typed| - 1] == s.result)
    && (s.region.NoRegion? ==> s.typed == [] && s.result == Solved(0.0) && s.oriText == "No text")
  }

  /** What `display_result` is called with: the reply of solving the stored
      cleaned text of a selected region. */
  predicate CanDisplay(t: OperatorTable, s: AppState, error: Option<string>, result: Answer)
  {
    s.region.Selected? && TypedConsistent(s) && IsCanonical(s.cleanText) && SolveOperation(t, s.cleanText) == Reply(error, result)
  }

  // ---------------------------------------------------------------------
  // The application object.

  class MainApp {
    /** `allowed_operators`, fixed for the life of the application. */
    const table: OperatorTable
    var region: Region
    var oriText: string
    var cleanText: string
    var result: Answer
    var shown: Display
    var typed: seq<Answer>
    var actionQueue: seq<string>
    var closed: bool

    function State(): AppState
      reads this
    {
      AppState(region, oriText, cleanText, result, shown, typed, actionQueue, closed)
    }

    predicate Valid()
      reads this
    {
      Consistent(table, State())
    }

    /** `MainApp(root, action_queue)` as the program creates it, with a
        fresh queue: the first `take_screenshot` finds no region and the
        first `check_queue` finds nothing to do. */
    constructor(t: OperatorTable)
      ensures table == t && State() == Initial
      ensures Valid()
    {
      table := t;
      region := NoRegion;
      oriText := "No text";
      cleanText := "No text";
      result := Solved(0.0);
      shown := Message(NoRegionText);
      typed := [];
      actionQueue := [];
      closed := false;
    }

    method DisplayResult(error: Option<string>, res: Answer)
      requires CanDisplay(table, State(), error, res)
      modifies this
      ensures Valid() && State() == DisplayResultSpec(old(State()), error, res)
    {
      DisplayPreserves(table, State(), error, res);
      if error.None? {
        result := res;
        shown := ResultText(oriText, cleanText, result);
        typed := typed + [result];
      } else {
        shown := ErrorText(oriText, error.value);
      }
    }

    method TakeScreenshot(divMode: bool, model: string, recognised: string)
      requires Valid()
      modifies this
      ensures Valid() && State() == ScreenshotSpec(table, old(State()), divMode, model, recognised)
    {
      if region.Selected? {
        var text, ori := Recognise(BackendFor(model), recognised).0, Recognise(BackendFor(model), recognised).1;
        oriText := ori;
        if divMode {
          text := PlusToSlash(text);
        }
        cleanText := text;
        var reply := SolveOperation(table, cleanText);
        DisplayResult(reply.error, reply.result);
      } else {
        shown := Message(NoRegionText);
      }
    }

    method GetRegion(divMode: bool, box: Box, recognised: string)
      requires Valid()
      modifies this
      ensures Valid() && State() == ScreenshotSpec(table, old(State()).(region := Selected(box)), divMode, "gpt", recognised)
    {
      region := Selected(box);
      TakeScreenshot(divMode, "gpt", recognised);
    }

    method CheckQueue(box: Box, recognised: string)
      requires Valid()
      modifies this
      ensures Valid() && State() == CheckQueueSpec(table, old(State()), box, recognised)
    {
      if actionQueue != [] {
        var action := actionQueue[0];
        actionQueue := actionQueue[1..];
        if action == "get_region" {
          GetRegion(false, box, recognised);
        } else if action == "classic" {
          TakeScreenshot(false, "tesseract", recognised);
        } else if action == "division" {
          TakeScreenshot(true, "tesseract", recognised);
        } else if action == "easy" {
          TakeScreenshot(false, "gpt", recognised);
        } else if action == "easy_division" {
          TakeScreenshot(true, "gpt", recognised);
        } else if action == "save_error" {
          // The capture goes to a file; no field changes.
        } else if action == "on_close" {
          closed := true;
        }
      }
    }

    method PressHotkey(key: string)
      requires Valid()
      modifies this
      ensures Valid() && State() == HotkeySpec(old(State()), key)
    {
      var action := HotkeyAction(key);
      if action.Some? {
        actionQueue := actionQueue + [action.value];
      }
    }
  }

  // ---------------------------------------------------------------------
  // The action table.

  /** Which backend and division mode each action runs with. */
  lemma ActionTable()
    ensures Dispatch("classic") == Screenshot(false, "tesseract") && BackendFor("tesseract") == Tesseract
    ensures Dispatch("division") == Screenshot(true, "tesseract")
    ensures Dispatch("easy") == Screenshot(false, "gpt") && BackendFor("gpt") == Gpt
    ensures Dispatch("easy_division") == Screenshot(true, "gpt")
    ensures Dispatch("get_region") == SelectRegion
  {
  }

  /** The default model name `'tessseract'` (misspelt) and `'tesseract'`
      both select Tesseract, as does every name but `'easy'` and `'gpt'`. */
  lemma OtherModelsUseTesseract(model: string)
    requires model != "easy" && model != "gpt"
    ensures BackendFor(model) == Tesseract
    ensures BackendFor("tessseract") == Tesseract
  {
  }

  /** An empty queue leaves everything as it was. */
  lemma EmptyQueueChangesNothing(t: OperatorTable, s: AppState, box: Box, recognised: string)
    requires s.queue == []
    ensures CheckQueueSpec(t, s, box, recognised) == s
  {
  }

  /** An action outside the handled set is taken from the queue and
      nothing else changes. */
  lemma UnknownActionOnlyDequeues(t: OperatorTable, s: AppState, box: Box, recognised: string)
    requires s.queue != []
    requires s.queue[0] !in {"get_region", "classic", "division", "easy", "easy_division", "save_error", "on_close"}
    ensures CheckQueueSpec(t, s, box, recognised) == s.(queue := s.queue[1..])
  {
  }

  /** The action `easy` reads with the GPT chain, not the EasyOCR one. */
  lemma EasyActionUsesGpt(t: OperatorTable, s: AppState, box: Box, recognised: string)
    requires s.queue != [] && s.queue[0] == "easy" && s.region.Selected?
    ensures CheckQueueSpec(t, s, box, recognised).cleanText == Clean(GptRules, recognised)
  {
  }

  /** `get_region` stores the rectangle and reads it with the GPT chain, in
      plain mode. */
  lemma GetRegionUsesGpt(t: OperatorTable, s: AppState, box: Box, recognised: string)
    requires s.queue != [] && s.queue[0] == "get_region"
    ensures CheckQueueSpec(t, s, box, recognised).region == Selected(box)
    ensures CheckQueueSpec(t, s, box, recognised).cleanText == Clean(GptRules, recognised)
    ensures CheckQueueSpec(t, s, box, recognised).oriText == recognised
  {
  }

  /** No hotkey produces `easy_division` or `on_close`: those entries of
      the action table are never reached from the keyboard. */
  lemma UnreachableActions(key: string)
    ensures HotkeyAction(key) != Some("easy_division")
    ensures HotkeyAction(key) != Some("on_close")
  {
  }

  // ---------------------------------------------------------------------
  // `take_screenshot`.

  /** With no region only the message changes: nothing is read, cleaned,
      solved or typed. */
  lemma NoRegionOnlyMessage(t: OperatorTable, s: AppState, divMode: bool, model: string, recognised: string)
    requires s.region.NoRegion?
    ensures ScreenshotSpec(t, s, divMode, model, recognised) == s.(shown := Message(NoRegionText))
  {
  }

  /** In division mode the cleaned text is the chain's output with every
      `+` turned into `/`; otherwise it is the chain's output itself.  It is
      stored whether or not solving it succeeds, and what is shown is what
      solving exactly that text reports. */
  lemma ScreenshotCleansThenSolves(t: OperatorTable, s: AppState, divMode: bool, model: string, recognised: string)
    requires s.region.Selected?
    ensures var s' := ScreenshotSpec(t, s, divMode, model, recognised);
      var text := Recognise(BackendFor(model), recognised).0;
      && s'.oriText == recognised
      && IsCanonical(s'.cleanText)
      && (divMode ==>
            && '+' !in s'.cleanText && |s'.cleanText| == |text|
            && forall i :: 0 <= i < |text| ==> s'.cleanText[i] == if text[i] == '+' then '/' else text[i])
      && (!divMode ==> s'.cleanText == text)
      && (SolveOperation(t, s'.cleanText).error.None? ==>
            s'.shown == ResultText(recognised, s'.cleanText, SolveOperation(t, s'.cleanText).result))
      && (SolveOperation(t, s'.cleanText).error.Some? ==>
            s'.shown == ErrorText(recognised, SolveOperation(t, s'.cleanText).error.value))
  {
  }

  /** `display_result` keeps the previous result on an error and types
      nothing; on success the result is replaced and typed. */
  lemma ResultOnlyOnSuccess(s: AppState, error: Option<string>, result: Answer)
    ensures error.Some? ==> DisplayResultSpec(s, error, result) == s.(shown := ErrorText(s.oriText, error.value))
    ensures error.None? ==> DisplayResultSpec(s, error, result).result == result
    ensures error.None? ==> DisplayResultSpec(s, error, result).typed == s.typed + [result]
  {
  }

  // ---------------------------------------------------------------------
  // The invariant.

  lemma InitialConsistent(t: OperatorTable)
    ensures Consistent(t, Initial)
  {
  }

  /** `display_result` called with the reply for the stored cleaned text
      restores the invariant. */
  lemma DisplayPreserves(t: OperatorTable, s: AppState, error: Option<string>, result: Answer)
    requires CanDisplay(t, s, error, result)
    ensures Consistent(t, DisplayResultSpec(s, error, result))
  {
    if error.None? {
      var s' := DisplayResultSpec(s, error, result);
      assert forall i :: 0 <= i < |s.typed| ==> s'.typed[i] == s.typed[i];
    }
  }

  lemma ScreenshotPreserves(t: OperatorTable, s: AppState, divMode: bool, model: string, recognised: string)
    requires Consistent(t, s)
    ensures Consistent(t, ScreenshotSpec(t, s, divMode, model, recognised))
  {
    if s.region.Selected? {
      var r := Recognise(BackendFor(model), recognised);
      var clean := if divMode then PlusToSlash(r.0) else r.0;
      var reply := SolveOperation(t, clean);
      DisplayPreserves(t, s.(oriText := r.1, cleanText := clean), reply.error, reply.result);
    }
  }

  lemma CheckQueuePreserves(t: OperatorTable, s: AppState, box: Box, recognised: string)
    requires Consistent(t, s)
    ensures Consistent(t, CheckQueueSpec(t, s, box, recognised))
  {
    if s.queue != [] {
      var s0 := s.(queue := s.queue[1..]);
      match Dispatch(s.queue[0])
      case SelectRegion =>
        var s1 := s0.(region := Selected(box));
        assert Consistent(t, s1);
        ScreenshotPreserves(t, s1, false, "gpt", recognised);
      case Screenshot(divMode, model) =>
        ScreenshotPreserves(t, s0, divMode, model, recognised);
      case SaveError =>
      case Close =>
      case Ignore =>
    }
  }

  lemma HotkeyPreserves(t: OperatorTable, s: AppState, key: string)
    requires Consistent(t, s)
    ensures Consistent(t, HotkeySpec(s, key))
  {
  }
}
