/** The small pure rules of the page: the night-time theme default, the theme
    toggle, the submit guard and the keyboard shortcuts. */
module ViewRules {
  import opened TextWords

  /** Night runs from 18:00 to 05:59. */
  predicate IsNightHour(hour: int)
  {
    hour >= 18 || hour < 6
  }

  /** The initial theme: dark at night when a window exists, light otherwise
      (no window means no clock is read). During the day hours 6 to 17 it is
      always light. */
  function InitialDarkMode(hasWindow: bool, hour: int): (dark: bool)
    ensures dark <==> hasWindow && !(6 <= hour < 18)
  {
    if hasWindow then IsNightHour(hour) else false
  }

  /** `!isDarkMode`: the other theme. */
  function Toggled(isDarkMode: bool): (r: bool)
    ensures r != isDarkMode
  {
    !isDarkMode
  }

  /** `text.trim()` is truthy; only non-empty text passes. */
  predicate CanSubmit(text: string)
    ensures CanSubmit(text) ==> text != ""
  {
    Trim(text) != ""
  }

  /** What a key press leads to. */
  datatype Command = SubmitCommand | BackCommand | NoCommand

  /** The window's `keydown` handler: it submits only from the input view and
      only submittable text, and goes back only from the display view. */
  function KeyCommand(key: string, ctrlKey: bool, metaKey: bool, isInputVisible: bool, text: string): (cmd: Command)
    ensures cmd == SubmitCommand ==> key == "Enter" && isInputVisible && CanSubmit(text)
    ensures cmd == BackCommand ==> key == "Escape" && !isInputVisible
  {
    if key == "Enter" && (ctrlKey || metaKey) && isInputVisible && CanSubmit(text) then SubmitCommand
    else if key == "Escape" && !isInputVisible then BackCommand
    else NoCommand
  }

  /** The theme toggle undoes itself and always changes the theme. */
  lemma ToggleIsInvolution(isDarkMode: bool)
    ensures Toggled(Toggled(isDarkMode)) == isDarkMode
    ensures Toggled(isDarkMode) != isDarkMode
  {
  }

  /** Submitting is possible exactly when the text holds a character that is
      not whitespace. */
  lemma CanSubmitIffVisibleCharacter(text: string)
    ensures CanSubmit(text) <==> exists p :: 0 <= p < |text| && !IsSpace(text[p])
  {
    TrimIsSlice(text);
  }

  /** Ctrl/Meta+Enter submits only from the input view and only a text that can
      be submitted; Escape goes back only from the display; every other key,
      and Enter without a modifier, does nothing. */
  lemma KeyCommandCases(key: string, ctrlKey: bool, metaKey: bool, isInputVisible: bool, text: string)
    ensures KeyCommand(key, ctrlKey, metaKey, isInputVisible, text) == SubmitCommand
            <==> key == "Enter" && (ctrlKey || metaKey) && isInputVisible && CanSubmit(text)
    ensures KeyCommand(key, ctrlKey, metaKey, isInputVisible, text) == BackCommand
            <==> key == "Escape" && !isInputVisible
    ensures key != "Enter" && key != "Escape" ==> KeyCommand(key, ctrlKey, metaKey, isInputVisible, text) == NoCommand
    ensures !ctrlKey && !metaKey && key != "Escape" ==> KeyCommand(key, ctrlKey, metaKey, isInputVisible, text) == NoCommand
  {
  }
}
