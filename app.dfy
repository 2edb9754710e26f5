/** The page as a state machine over React state snapshots. A handler produces
    the next snapshot; after each event React runs the fit effect when one of its
    dependencies changed. The timers of the submit and back transitions are
    collapsed: both take effect at once. */
module BigTextApp {
  import opened TextWords
  import opened FitSearch
  import opened ViewRules

  datatype Option<T> = None | Some(value: T)

  /** The component's state that the model keeps. */
  datatype State = State(text: string, isDarkMode: bool, isInputVisible: bool, fontSize: real)

  /** What the user can do. `TextChanged` is the textarea's `onChange`;
      `KeyPressed` reaches the window's `keydown` listener. */
  datatype Event =
    | TextChanged(value: string)
    | SubmitClicked
    | BackClicked
    | ThemeClicked
    | KeyPressed(key: string, ctrlKey: bool, metaKey: bool)

  /** What the browser supplies: the display container's client size (once the
      container is rendered) and the layout engine. */
  datatype Env = Env(container: Box, measurer: Measurer)

  /** The initial state; `hasWindow` and `hour` stand for the browser check and
      the clock reading of the theme initialiser. The page starts in the input
      view with empty text and font size 100, dark exactly at night when a
      window exists. */
  function Init(hasWindow: bool, hour: int): (s: State)
    ensures s.isDarkMode <==> hasWindow && (hour >= 18 || hour < 6)
    ensures s.isInputVisible && s.text == "" && s.fontSize == 100.0
    ensures !ShowsDisplay(s) && Consistent(s)
  {
    State("", InitialDarkMode(hasWindow, hour), true, 100.0)
  }

  /** The display view is rendered (otherwise the input view is). */
  predicate ShowsDisplay(s: State)
  {
    !s.isInputVisible && s.text != ""
  }

  /** `handleTextSubmit`: submittable text brings up the display view, any
      other text changes nothing; text, theme and font size stay. */
  function SubmitText(s: State): (r: State)
    ensures r.text == s.text && r.isDarkMode == s.isDarkMode && r.fontSize == s.fontSize
    ensures CanSubmit(s.text) ==> ShowsDisplay(r)
    ensures !CanSubmit(s.text) ==> r == s
  {
    if CanSubmit(s.text) then s.(isInputVisible := false) else s
  }

  /** `handleBackToInput`: the input view is shown again, with the same text,
      theme and font size. */
  function BackToInput(s: State): (r: State)
    ensures r.isInputVisible && !ShowsDisplay(r)
    ensures r.text == s.text && r.isDarkMode == s.isDarkMode && r.fontSize == s.fontSize
  {
    s.(isInputVisible := true)
  }

  /** `toggleTheme`: the other theme, nothing else changed. */
  function ToggleTheme(s: State): (r: State)
    ensures r.isDarkMode != s.isDarkMode
    ensures r.text == s.text && r.isInputVisible == s.isInputVisible && r.fontSize == s.fontSize
  {
    s.(isDarkMode := Toggled(s.isDarkMode))
  }

  /** The handler run for an event. The textarea and the submit button exist
      only in the input view, the back button only in the display view, and a
      theme button in both. No handler touches the font size, only the theme
      button changes the theme, and the text changes only by typing in the input
      view, which leaves the visibility alone. Typing in the input view sets the
      text; the back button in the display view shows the input view; the
      buttons of the view that is not rendered do nothing. */
  function Handle(s: State, e: Event): (r: State)
    ensures r.fontSize == s.fontSize
    ensures r.isDarkMode == (if e.ThemeClicked? then !s.isDarkMode else s.isDarkMode)
    ensures r.text != s.text ==> e.TextChanged? && !ShowsDisplay(s) && r.isInputVisible == s.isInputVisible
    ensures e.TextChanged? && !ShowsDisplay(s) ==> r.text == e.value && r.isInputVisible == s.isInputVisible
    ensures e.BackClicked? ==> r.text == s.text && r.isInputVisible == (ShowsDisplay(s) || s.isInputVisible)
    ensures ShowsDisplay(s) && (e.TextChanged? || e.SubmitClicked?) ==> r == s
    ensures !ShowsDisplay(s) && e.BackClicked? ==> r == s
  {
    match e
    case TextChanged(v) => if ShowsDisplay(s) then s else s.(text := v)
    case SubmitClicked => if ShowsDisplay(s) then s else SubmitText(s)
    case BackClicked => if ShowsDisplay(s) then BackToInput(s) else s
    case ThemeClicked => ToggleTheme(s)
    case KeyPressed(key, ctrlKey, metaKey) =>
      match KeyCommand(key, ctrlKey, metaKey, s.isInputVisible, s.text)
      case SubmitCommand => SubmitText(s)
      case BackCommand => BackToInput(s)
      case NoCommand => s
  }

  /** The container the display ref points to: present only while the display
      view is rendered. */
  function DisplayContainer(s: State, env: Env): (c: Option<Box>)
    ensures c.Some? <==> ShowsDisplay(s)
    ensures c.Some? ==> c.value == env.container
  {
    if ShowsDisplay(s) then Some(env.container) else None
  }

  /** The body of the fit effect: search only for non-empty text and an
      existing container, otherwise leave `fontSize` alone. Only `fontSize` is
      ever written. */
  function FitEffect(s: State, container: Option<Box>, m: Measurer): (r: State)
    ensures r.text == s.text && r.isDarkMode == s.isDarkMode && r.isInputVisible == s.isInputVisible
    ensures s.text != "" && container.Some? ==> r.fontSize == FitSize(m, container.value, s.text)
    ensures s.text == "" || container.None? ==> r == s
  {
    if s.text != "" && container.Some? then s.(fontSize := FitSize(m, container.value, s.text)) else s
  }

  /** One event as the page is written: the fit effect depends on `text` only.
      The effect writes nothing but the font size, and nothing at all unless the
      handler changed the text. */
  function StepAsWritten(s: State, e: Event, env: Env): (r: State)
    ensures r.text == Handle(s, e).text && r.isDarkMode == Handle(s, e).isDarkMode
    ensures r.isInputVisible == Handle(s, e).isInputVisible
    ensures Handle(s, e).text == s.text ==> r == Handle(s, e)
  {
    var t := Handle(s, e);
    if t.text != s.text then FitEffect(t, DisplayContainer(t, env), env.measurer) else t
  }

  /** One event with the fit effect depending on `text` and `isInputVisible`,
      so that it also runs when the display view appears. The effect writes
      nothing but the font size, and nothing at all unless the handler changed
      the text or the visibility. */
  function Step(s: State, e: Event, env: Env): (r: State)
    ensures r.text == Handle(s, e).text && r.isDarkMode == Handle(s, e).isDarkMode
    ensures r.isInputVisible == Handle(s, e).isInputVisible
    ensures Handle(s, e).text == s.text && Handle(s, e).isInputVisible == s.isInputVisible ==> r == Handle(s, e)
  {
    var t := Handle(s, e);
    if t.text != s.text || t.isInputVisible != s.isInputVisible then FitEffect(t, DisplayContainer(t, env), env.measurer) else t
  }

  /** How many times the theme button is pressed. */
  function ThemePresses(events: seq<Event>): nat
  {
    if events == [] then 0 else (if events[0].ThemeClicked? then 1 else 0) + ThemePresses(events[1..])
  }

  /** A sequence of events as the page is written. Only the theme button
      changes the theme, so the theme is flipped exactly when it is pressed an
      odd number of times. */
  function RunAsWritten(s: State, events: seq<Event>, env: Env): (r: State)
    ensures r.isDarkMode == (s.isDarkMode != (ThemePresses(events) % 2 == 1))
    decreases |events|
  {
    if events == [] then s else RunAsWritten(StepAsWritten(s, events[0], env), events[1..], env)
  }

  /** A sequence of events with the corrected dependencies; the theme behaves
      as in `RunAsWritten`. */
  function Run(s: State, events: seq<Event>, env: Env): (r: State)
    ensures r.isDarkMode == (s.isDarkMode != (ThemePresses(events) % 2 == 1))
    decreases |events|
  {
    if events == [] then s else Run(Step(s, events[0], env), events[1..], env)
  }

  /** The input view is hidden only for text that can be submitted. */
  predicate Consistent(s: State)
  {
    !s.isInputVisible ==> CanSubmit(s.text)
  }

  /** While the display view is shown its font size is the fit size of its text. */
  predicate Fitted(s: State, env: Env)
  {
    Consistent(s) && (ShowsDisplay(s) ==> s.fontSize == FitSize(env.measurer, env.container, s.text))
  }

  /** Whitespace-only text is not empty, so with a container the effect still
      searches, measuring the single word "". */
  lemma BlankTextIsSearched(s: State, container: Option<Box>, m: Measurer)
    requires s.text != "" && AllSpace(s.text) && container.Some?
    ensures var b := container.value;
      FitEffect(s, container, m).fontSize
        == Candidate(StartSize(b), FitSteps(m, b, s.text, [""], StartSize(b), 0))
  {
    WordsOfBlankText(s.text);
  }

  /** Every handler keeps the input view hidden only for submittable text. */
  lemma HandleKeepsConsistent(s: State, e: Event)
    requires Consistent(s)
    ensures Consistent(Handle(s, e))
  {
    match e
    case TextChanged(v) =>
    case SubmitClicked =>
    case BackClicked =>
    case ThemeClicked =>
    case KeyPressed(key, ctrlKey, metaKey) =>
  }

  /** Submitting text that cannot be submitted changes nothing, whether by the
      button or by Ctrl/Meta+Enter, as written and with the corrected
      dependencies alike. */
  lemma SubmitGuard(s: State, env: Env, ctrlKey: bool, metaKey: bool)
    requires !CanSubmit(s.text)
    ensures StepAsWritten(s, SubmitClicked, env) == s
    ensures StepAsWritten(s, KeyPressed("Enter", ctrlKey, metaKey), env) == s
    ensures Step(s, SubmitClicked, env) == s
    ensures Step(s, KeyPressed("Enter", ctrlKey, metaKey), env) == s
  {
    assert Handle(s, SubmitClicked) == s;
    assert Handle(s, KeyPressed("Enter", ctrlKey, metaKey)) == s by {
      assert |"Enter"| != |"Escape"|;
    }
  }

  /** As written, submitting from the input view shows the display with the
      same text and theme, and the font size is left as it was; Ctrl/Meta+Enter
      does the same as the button. */
  lemma SubmitShowsTextAsWritten(s: State, env: Env, ctrlKey: bool, metaKey: bool)
    requires s.isInputVisible && CanSubmit(s.text)
    ensures var t := StepAsWritten(s, SubmitClicked, env);
      ShowsDisplay(t) && t.text == s.text && t.isDarkMode == s.isDarkMode && t.fontSize == s.fontSize
    ensures ctrlKey || metaKey ==>
      StepAsWritten(s, KeyPressed("Enter", ctrlKey, metaKey), env) == StepAsWritten(s, SubmitClicked, env)
  {
  }

  /** With the corrected dependencies, submitting from the input view shows the
      display at the fit size of the text, and Ctrl/Meta+Enter does the same as
      the button. */
  lemma SubmitShowsFittedText(s: State, env: Env, ctrlKey: bool, metaKey: bool)
    requires s.isInputVisible && CanSubmit(s.text)
    ensures var t := Step(s, SubmitClicked, env);
      ShowsDisplay(t) && t.text == s.text && t.isDarkMode == s.isDarkMode
      && t.fontSize == FitSize(env.measurer, env.container, s.text)
    ensures ctrlKey || metaKey ==> Step(s, KeyPressed("Enter", ctrlKey, metaKey), env) == Step(s, SubmitClicked, env)
  {
    CanSubmitIffVisibleCharacter(s.text);
  }

  /** Escape returns to the input view when it is hidden and does nothing when
      it is shown; the font size stays as it was. */
  lemma EscapeGoesBack(s: State, env: Env, ctrlKey: bool, metaKey: bool)
    ensures !s.isInputVisible ==> StepAsWritten(s, KeyPressed("Escape", ctrlKey, metaKey), env) == s.(isInputVisible := true)
    ensures s.isInputVisible ==> StepAsWritten(s, KeyPressed("Escape", ctrlKey, metaKey), env) == s
  {
  }

  /** A key press that gives no command does nothing: any key other than
      Enter and Escape, Enter without a modifier, outside the input view or with
      text that cannot be submitted, and Escape while the input view is visible. */
  lemma OtherKeysIgnored(s: State, env: Env, key: string, ctrlKey: bool, metaKey: bool)
    requires KeyCommand(key, ctrlKey, metaKey, s.isInputVisible, s.text) == NoCommand
    ensures StepAsWritten(s, KeyPressed(key, ctrlKey, metaKey), env) == s
  {
  }

  /** The theme button flips the theme, leaves everything else alone, and
      pressing it twice restores the state. */
  lemma ThemeToggleTwice(s: State, env: Env)
    ensures StepAsWritten(s, ThemeClicked, env) == s.(isDarkMode := !s.isDarkMode)
    ensures StepAsWritten(StepAsWritten(s, ThemeClicked, env), ThemeClicked, env) == s
  {
  }

  lemma StepKeepsFitted(s: State, e: Event, env: Env)
    requires Fitted(s, env)
    ensures Fitted(Step(s, e, env), env)
  {
    HandleKeepsConsistent(s, e);
    var t := Handle(s, e);
    if t.text == s.text && t.isInputVisible == s.isInputVisible {
      assert Step(s, e, env) == t;
    } else {
      assert Step(s, e, env) == FitEffect(t, DisplayContainer(t, env), env.measurer);
    }
  }

  /** With the effect also depending on `isInputVisible`, whatever the user
      does, the display view always shows its text at the fit size. */
  lemma {:induction false} RunKeepsFitted(s: State, events: seq<Event>, env: Env)
    requires Fitted(s, env)
    ensures Fitted(Run(s, events, env), env)
    decreases |events|
  {
    if events != [] {
      StepKeepsFitted(s, events[0], env);
      RunKeepsFitted(Step(s, events[0], env), events[1..], env);
    }
  }

  lemma DisplayAlwaysFitted(hasWindow: bool, hour: int, events: seq<Event>, env: Env)
    ensures var s := Run(Init(hasWindow, hour), events, env);
      ShowsDisplay(s) ==> s.fontSize == FitSize(env.measurer, env.container, s.text)
  {
    RunKeepsFitted(Init(hasWindow, hour), events, env);
  }

  /** As written, the fit effect runs only when the text changes; the text can
      change only in the input view, where the display container does not exist,
      so the effect never reaches the search and the font size never changes. */
  lemma StepAsWrittenKeepsFontSize(s: State, e: Event, env: Env)
    requires Consistent(s)
    ensures Consistent(StepAsWritten(s, e, env))
    ensures StepAsWritten(s, e, env).fontSize == s.fontSize
  {
    HandleKeepsConsistent(s, e);
    var t := Handle(s, e);
    if t.text != s.text {
      assert !ShowsDisplay(t);
      assert StepAsWritten(s, e, env) == t;
    }
  }

  lemma {:induction false} RunAsWrittenKeepsFontSize(s: State, events: seq<Event>, env: Env)
    requires Consistent(s)
    ensures RunAsWritten(s, events, env).fontSize == s.fontSize
    decreases |events|
  {
    if events != [] {
      StepAsWrittenKeepsFontSize(s, events[0], env);
      RunAsWrittenKeepsFontSize(StepAsWritten(s, events[0], env), events[1..], env);
    }
  }

  /** As written, and with the submit delay collapsed, the font size is 100
      after any sequence of events. */
  lemma FontSizeNeverFittedAsWritten(hasWindow: bool, hour: int, events: seq<Event>, env: Env)
    ensures RunAsWritten(Init(hasWindow, hour), events, env).fontSize == 100.0
  {
    RunAsWrittenKeepsFontSize(Init(hasWindow, hour), events, env);
  }

  /** Typing any submittable text and submitting it in an 800 x 600 container
      where every size fits: as written the display shows the text at 100 px,
      while the fit size is 480 px. */
  lemma SubmitAsWritten(hasWindow: bool, hour: int, text: string)
    requires CanSubmit(text)
    ensures var env := Env(Box(800, 600), Measurer((t, z) => 0, (w, z) => 0));
      var events := [TextChanged(text), SubmitClicked];
      ShowsDisplay(RunAsWritten(Init(hasWindow, hour), events, env))
      && RunAsWritten(Init(hasWindow, hour), events, env).fontSize == 100.0
      && ShowsDisplay(Run(Init(hasWindow, hour), events, env))
      && Run(Init(hasWindow, hour), events, env).fontSize == 480.0
  {
    var env := Env(Box(800, 600), Measurer((t: string, z: real) => 0, (w: string, z: real) => 0));
    var events := [TextChanged(text), SubmitClicked];
    var s0 := Init(hasWindow, hour);
    var s1 := s0.(text := text);
    assert Handle(s0, TextChanged(text)) == s1;
    assert DisplayContainer(s1, env) == None;
    assert StepAsWritten(s0, TextChanged(text), env) == s1;
    assert Step(s0, TextChanged(text), env) == s1;
    var s2 := s1.(isInputVisible := false);
    assert Handle(s1, SubmitClicked) == s2;
    assert StepAsWritten(s1, SubmitClicked, env) == s2;
    assert events[1..] == [SubmitClicked] && [SubmitClicked][1..] == [];
    assert RunAsWritten(s1, [SubmitClicked], env) == s2;
    assert RunAsWritten(s0, events, env) == s2;
    FitSizeFirstCandidate(text);
    var s3 := s2.(fontSize := 480.0);
    assert Step(s1, SubmitClicked, env) == s3;
    assert Run(s1, [SubmitClicked], env) == s3;
    assert Run(s0, events, env) == s3;
  }
}
