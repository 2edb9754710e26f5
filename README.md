# BigText fit-sizing model

A Dafny model of the single page of the BigText tool (`app/page.tsx`). The user
types text and submits it. The page then shows the text as large as it can in
the display container. The core is the fit-sizing search:

- start at 80% of the container's smaller side;
- split the trimmed text into words on whitespace runs;
- walk down in steps of 3 px while the candidate is above 20 px;
- keep the first candidate at which the probe holding each word is measured no
  wider than 90% of the container and the whole block is at most 90% of its
  height.

Around that search sit the page's view state: the text, the theme, which view is
shown, and the font size. The keyboard shortcuts, the submit guard and the theme
rules update that state.

Modules, one per concern of the page:

- `TextWords` (words.dfy): `text.trim().split(/\s+/)`. It covers the
  ECMAScript whitespace set, `trim`, the regular-expression split, `join`, and
  an independent "collapse whitespace runs" definition to compare against.
- `FitSearch` (fit.dfy): the search. `FitSteps`/`FitSize` are the
  specification. The method `CheckWords` is the inner `for … of` loop with its
  `break`. The method `FitFontSize` is the outer `while` loop, proved to compute
  `FitSize`. The layout engine is an abstract `Measurer`: two total functions
  giving the hidden probe's `offsetHeight` for the whole text and its
  `offsetWidth` for one word at a given size.
- `ViewRules` (view.dfy): the night-hour rule, the theme toggle, the submit
  guard (`text.trim()` truthy) and the key dispatch.
- `BigTextApp` (app.dfy): the component's state as a record of React state
  snapshots. There is one handler per event. The fit effect is re-run when one
  of its dependencies changes. `StepAsWritten` uses the page's dependency list
  `[text]`. `Step` uses the corrected list (see Findings).

Three points where the code behaves differently from a natural reading of it; the model follows the code:

- When nothing fits, the result is the first grid value at or below 20. It lies
  in (17, 20], not exactly 20: for an 800 x 600 container it is 18
  (`FitSizeNothingFits`).
- If the start is already at or below 20, the loop never runs and the result is
  the start itself, which can be below 20.
- Whitespace-only text is truthy, so the effect still searches, with the single
  word `""`. Only the empty string skips the search, and then `fontSize` keeps
  its value (initially 100).

## Model

| member | source | states |
|---|---|---|
| `TextWords.Trim` | app/page.tsx:44 | `text.trim()` is no longer than the text and neither starts nor ends with whitespace |
| `TextWords.Words` | app/page.tsx:44 | `text.trim().split(/\s+/)` yields at least one word, and exactly `[""]` when nothing but whitespace is left after trimming |
| `TextWords.Split` | app/page.tsx:44 | splitting on `/\s+/` always yields at least one piece |
| `TextWords.TrimStartCut` | app/page.tsx:44 | trimming the front removes only a whitespace prefix, and what is kept does not start with whitespace |
| `TextWords.TrimEndCut` | app/page.tsx:44 | trimming the back removes only a whitespace suffix, and what is kept does not end with whitespace |
| `TextWords.TrimIsSlice` | app/page.tsx:44 | `trim` keeps a slice with only whitespace cut off on either side; the slice is empty iff the text is all whitespace, and otherwise starts and ends with non-whitespace |
| `TextWords.SplitHasNoSpace` | app/page.tsx:44 | no piece of `split(/\s+/)` contains a whitespace character |
| `TextWords.JoinSplitIsCollapse` | app/page.tsx:44 | joining the pieces of `split(/\s+/)` with single spaces gives the input with every whitespace run collapsed to one space |
| `TextWords.SplitTrimmedNonEmpty` | app/page.tsx:44 | a non-empty string with non-whitespace at both ends splits into non-empty words only |
| `TextWords.WordsHaveNoSpace` | app/page.tsx:44 | no word the search measures contains whitespace |
| `TextWords.WordsOfBlankText` | app/page.tsx:44 | the words are exactly `[""]` iff the text is empty or whitespace-only; otherwise every word is non-empty |
| `TextWords.WordsJoinToCollapsedText` | app/page.tsx:44 | the words joined by single spaces equal the trimmed text with whitespace runs collapsed |
| `FitSearch.StartSize` | app/page.tsx:43 | the first candidate is 80% of the smaller side of the container: at most 80% of each side and equal to one of them |
| `FitSearch.FitSize` | app/page.tsx:59-83 | the size written to `fontSize` is one at which the scan stops: at most 20, or accepted |
| `FitSearch.FitSteps` | app/page.tsx:59-80 | the scan stops at the first grid step from `k` on where the candidate is at most 20 or accepted; every step before it is above 20 and rejected |
| `FitSearch.CheckWords` | app/page.tsx:65-72 | `wordTooBig` holds iff the probe holding some word is measured wider than 90% of the container; the loop stops right after the first such word in input order, and measures every word when none is too wide |
| `FitSearch.FitFontSize` | app/page.tsx:43-83 | the `while` loop returns exactly the specified fit size `FitSize` |
| `FitSearch.FitSizeOnGrid` | app/page.tsx:59-83 | the result is `start - 3k` for the first step `k` at which the scan stops, with `start = min(w, h) * 0.8` |
| `FitSearch.FirstStopIsFitSize` | app/page.tsx:59-80 | conversely, any first stopping step gives the result, so the result is uniquely determined |
| `FitSearch.FitSizeAccepted` | app/page.tsx:65-77 | a result above 20 has the probe holding each word measured at most 90% of the width and the block at most 90% of the height |
| `FitSearch.FitSizeMaximal` | app/page.tsx:59-80 | every grid value above the result is above 20 and was rejected, so a result above 20 is the largest accepted grid value |
| `FitSearch.FitSizeBounds` | app/page.tsx:59-83 | with a start above 20 the result lies in (17, start]; with a start at or below 20 the result is the start |
| `FitSearch.FitSizeDegenerate` | app/page.tsx:59-83 | when no grid value above 20 is accepted, the result is at most 20, and in (17, 20] (not necessarily 20) when the start is above 20 |
| `FitSearch.FitSizeFirstCandidate` | app/page.tsx:43-77 | in an 800 x 600 container with a text that fits everywhere, the first candidate 480 is kept |
| `FitSearch.FitSizeNothingFits` | app/page.tsx:59-83 | in an 800 x 600 container with a word too wide at every size, the result is 18 |
| `ViewRules.InitialDarkMode` | app/page.tsx:7-13 | the initial theme is dark only when a window exists, and then exactly outside the hours 6 to 17 |
| `ViewRules.Toggled` | app/page.tsx:127 | `!isDarkMode` is always the other theme |
| `ViewRules.CanSubmit` | app/page.tsx:88 | only non-empty text passes the submit guard `text.trim()` |
| `ViewRules.KeyCommand` | app/page.tsx:23-29 | a key press submits only Enter from the input view with submittable text, and goes back only on Escape when the input view is hidden |
| `ViewRules.ToggleIsInvolution` | app/page.tsx:126-128 | the theme toggle always changes the theme and undoes itself |
| `ViewRules.CanSubmitIffVisibleCharacter` | app/page.tsx:88 | the submit guard holds iff the text contains a non-whitespace character |
| `ViewRules.KeyCommandCases` | app/page.tsx:23-29 | Ctrl/Meta+Enter submits iff the input is visible and the trimmed text is non-empty; Escape goes back iff the input is hidden; other keys, and Enter without a modifier, do nothing |
| `BigTextApp.Init` | app/page.tsx:6-19 | the page starts in the input view with empty text and font size 100; it is dark iff a window exists and the hour is 18 or later or before 6 |
| `BigTextApp.SubmitText` | app/page.tsx:87-95 | submittable text brings up the display view, other text changes nothing; text, theme and font size are kept |
| `BigTextApp.BackToInput` | app/page.tsx:97-106 | the input view is shown again (`isInputVisible` set) with the same text, theme and font size |
| `BigTextApp.ToggleTheme` | app/page.tsx:126-128 | the theme flips and nothing else changes |
| `BigTextApp.Handle` | app/page.tsx:134-336 | with the textarea and submit button only in the input view and the back button only in the display view: no handler changes the font size, only the theme button changes the theme, and the text changes only by typing in the input view, with the visibility unchanged; typing in the input view sets the text to the typed value; the back button in the display view shows the input view; typing and submitting in the display view, and the back button in the input view, change nothing |
| `BigTextApp.DisplayContainer` | app/page.tsx:134-211 | the display ref holds the container exactly while the display view is rendered |
| `BigTextApp.FitEffect` | app/page.tsx:38-84 | the effect changes nothing when the text is empty or the container is missing; otherwise it sets only `fontSize`, to the fit size |
| `BigTextApp.BlankTextIsSearched` | app/page.tsx:38-44 | whitespace-only text passes the `text` check, so the effect searches with the single word `""` |
| `BigTextApp.StepAsWritten` | app/page.tsx:85 | with the dependency list `[text]`, after a handler the effect writes only the font size, and nothing unless the text changed |
| `BigTextApp.Step` | app/page.tsx:85 | with the corrected list `[text, isInputVisible]`, the effect writes only the font size, and nothing unless the text or the visibility changed |
| `BigTextApp.RunAsWritten` | app/page.tsx:126-128 | over any sequence of events the theme ends flipped exactly when the theme button was pressed an odd number of times |
| `BigTextApp.Run` | app/page.tsx:126-128 | the same for the corrected dependencies |
| `BigTextApp.HandleKeepsConsistent` | app/page.tsx:87-106 | every handler keeps the input view hidden only for submittable text |
| `BigTextApp.SubmitGuard` | app/page.tsx:87-95 | submitting text that fails the guard changes nothing, by the button or by Ctrl/Meta+Enter, as written and with the corrected dependencies |
| `BigTextApp.SubmitShowsTextAsWritten` | app/page.tsx:87-95 | as written, submitting from the input view shows the display with the same text and theme, and the font size is unchanged; Ctrl/Meta+Enter does the same as the button |
| `BigTextApp.SubmitShowsFittedText` | app/page.tsx:87-95 | with the corrected dependencies, submitting from the input view shows the display with the same text and theme at the fit size; Ctrl/Meta+Enter does the same as the button |
| `BigTextApp.EscapeGoesBack` | app/page.tsx:23-29 | as written, Escape shows the input view again when it is hidden and changes nothing else; it does nothing when the input view is visible |
| `BigTextApp.OtherKeysIgnored` | app/page.tsx:23-29 | as written, a key press that gives no command (any key but Enter and Escape, Enter without a modifier or outside the input view or with unsubmittable text, Escape with the input view visible) leaves the state unchanged |
| `BigTextApp.ThemeToggleTwice` | app/page.tsx:126-128 | as written, the theme button flips only the theme, and pressing it twice restores the state |
| `BigTextApp.StepKeepsFitted` | app/page.tsx:37-85 | with the corrected dependencies, one event keeps the invariant "the display view shows its text at the fit size" |
| `BigTextApp.RunKeepsFitted` | app/page.tsx:37-85 | the same invariant holds after any sequence of events |
| `BigTextApp.DisplayAlwaysFitted` | app/page.tsx:37-85 | from the initial state, whenever the display view is shown its font size is the fit size of its text |
| `BigTextApp.StepAsWrittenKeepsFontSize` | app/page.tsx:37-85 | with the dependencies as written, from a state whose input view is hidden only for submittable text (which the collapsed timers keep true), no event changes the font size |
| `BigTextApp.RunAsWrittenKeepsFontSize` | app/page.tsx:37-85 | with the dependencies as written, from a state whose input view is hidden only for submittable text (which the collapsed timers keep true), no sequence of events changes the font size |
| `BigTextApp.FontSizeNeverFittedAsWritten` | app/page.tsx:37-85 | as written, with the 300 ms submit delay collapsed, the font size is 100 after any sequence of events |
| `BigTextApp.SubmitAsWritten` | app/page.tsx:134-211 | for any submittable text in an 800 x 600 container where everything fits, typing and submitting shows 100 px as written but 480 px with the corrected dependencies |

## Findings

| source | as written | input that shows it | evidently intended | confidence | as-written member | corrected member |
|---|---|---|---|---|---|---|
| app/page.tsx:85 | The fit effect depends on `[text]` only. The container ref (app/page.tsx:211) exists only while the display view is rendered (app/page.tsx:134). The text can change only in the input view. So on the ordinary path (type, then submit) the effect never finds a container, and `fontSize` stays 100. With the 300 ms submit delay collapsed, as in this model, that holds for every sequence of events. In the page itself one path does reach the search: submit, clear the textarea before the 300 ms timer hides the input view (the input view stays because the text is empty), then type; the display view renders in the same commit as the new text, so the ref is attached when the `[text]` effect runs. | Type any non-blank text and submit it (`SubmitAsWritten`: 100 px shown where the fit size is 480 px) | The effect also re-runs when the display view appears (dependencies `[text, isInputVisible]`), so the display shows the fit size | medium, not executed | `BigTextApp.FontSizeNeverFittedAsWritten` | `BigTextApp.DisplayAlwaysFitted` |

## Left out

- DOM measurement is left out: creating, styling, filling and removing the hidden probe element, and reading `offsetHeight`/`offsetWidth`. An abstract `Measurer` stands in for it. Real pixel values come from the browser's layout engine, so concrete sizes cannot be proved. Nor can it be proved that a smaller container never gives a larger size.
- `wordWidth` is whatever the probe's `offsetWidth` reports while it holds one word. The probe is given a fixed CSS width of 90% of the container (app/page.tsx:53), so in a browser that reading need not depend on the word at all: it is that width, rounded, for every word and size. The word test is then never true, or, when rounding lifts the width above 90% of the container (a width of 801 px gives 720.9, read as 721), true for every candidate. The model holds for every measurer; "no word wider than 90% of the container" follows from `FitSizeAccepted` only for a measurer that measures the word's own width.
- The probe's content is set through `innerHTML`, so markup in the text is interpreted. The model passes the raw string to the measurer.
- Floating point is left out: `* 0.8`, `* 0.9` and `- 3` are exact `real` arithmetic. Formatting the size as a `px` string is also left out.
- The measurer never fails in the model. The browser code has no error path to model, and whether the probe is removed when measuring throws is not captured.
- React hooks and scheduling are reduced to "run the effect after an event when a dependency changed". Refs, re-rendering and StrictMode double effects are left out. The container size is fixed for a run; the page does not re-fit on resize.
- The `setTimeout` delays and the `isAnimating` flag are left out. Submit and back take effect at once, so what happens during the 300 ms before the display view appears is not modelled. Typing non-empty text then does not run the search (the input view stays rendered and the display ref stays null); the one path on which the page as written does run it is clearing the text before the timer fires and typing again after it (see Findings). The textarea focus after going back is also left out.
- Copying to the clipboard, the `execCommand` fallback and `showCopied` are left out: they are foreign I/O and change no modelled state.
- The decorative particles (`Math.random`), the JSX/Tailwind rendering and the theme class strings are left out.
- Registering and removing the window key listener is left out. The model delivers each key press to the current handler.
- The clock and the browser check of the theme initialiser are the inputs `hour` and `hasWindow`.
