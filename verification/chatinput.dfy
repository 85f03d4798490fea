/** The chat message box: Enter or the send button submits the text, unless it is
    blank or the box is disabled. */
module ChatInput {
  import opened JsString

  /** The text in the box. */
  datatype InputState = InputState(message: string)

  /** The box after the event, and the message handed to `onSendMessage`, if any. */
  datatype SubmitOutcome = SubmitOutcome(state: InputState, sent: seq<string>)

  const EnterKey: string := "Enter"

  /** `handleSubmit`: a non-blank message is sent as typed, untrimmed, and the box is
      cleared; otherwise nothing happens. */
  function Submit(s: InputState, disabled: bool): (r: SubmitOutcome)
    ensures |r.sent| <= 1
    ensures r.sent != [] <==> !IsBlank(s.message) && !disabled
    ensures r.sent != [] ==> r.sent == [s.message] && r.state.message == ""
    ensures r.sent == [] ==> r.state == s
  {
    if !IsBlank(s.message) && !disabled then SubmitOutcome(InputState(""), [s.message])
    else SubmitOutcome(s, [])
  }

  /** `handleKeyDown`: Enter without Shift submits; every other key leaves the box
      to the text area. */
  function KeyDown(s: InputState, key: string, shiftKey: bool, disabled: bool): (r: SubmitOutcome)
    ensures key == EnterKey && !shiftKey ==> r == Submit(s, disabled)
    ensures key != EnterKey || shiftKey ==> r == SubmitOutcome(s, [])
    ensures r.sent != [] <==> key == EnterKey && !shiftKey && !disabled && !IsBlank(s.message)
    ensures r.sent != [] ==> r.sent == [s.message] && r.state.message == ""
    ensures r.sent == [] ==> r.state == s
  {
    if key == EnterKey && !shiftKey then Submit(s, disabled) else SubmitOutcome(s, [])
  }

  /** The send button's `disabled` property. */
  predicate SendDisabled(s: InputState, disabled: bool)
  {
    disabled || IsBlank(s.message)
  }

  /** The button is disabled exactly when pressing it would send nothing, which is
      when the box is disabled or holds only whitespace. */
  lemma SendDisabledIffNothingSent(s: InputState, disabled: bool)
    ensures SendDisabled(s, disabled) <==> Submit(s, disabled).sent == []
    ensures SendDisabled(s, disabled) <==> disabled || AllWhitespace(s.message)
  {
    BlankIffAllWhitespace(s.message);
  }

  /** Shift+Enter never sends. */
  lemma ShiftEnterNeverSends(s: InputState, disabled: bool)
    ensures KeyDown(s, EnterKey, true, disabled).sent == []
  {
  }
}
