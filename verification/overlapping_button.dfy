/**
  The add-section button: a form with a text input that is hidden until the
  round button is pressed once, and that hands its text to the caller on the
  next press when the text is not empty.
 */
module OverlappingButton {
  import opened Wrappers

  /** The component's three signals. */
  datatype State = State(showInput: bool, sectionInput: string, valid: bool)

  /**
    The events the form reacts to: the input's change event with its new
    value, a key released in the input (`inputValue` is the input element's
    value, None while the element reference is unset), and a form submit.
   */
  datatype Event = Change(value: string) | KeyUp(inputValue: Option<string>) | Submit

  /** A new state together with the text handed to the caller's onSubmit, if any. */
  datatype Outcome = Outcome(state: State, emitted: Option<string>)

  /** The input hidden means the button is not showing its error glyph. */
  predicate Invariant(s: State) {
    !s.showInput ==> s.valid
  }

  /** The state the component mounts with: input hidden, no text, valid. */
  function Initial(): (s: State)
    ensures !s.showInput && s.sectionInput == "" && s.valid
    ensures Invariant(s)
  {
    State(false, "", true)
  }

  /** The change handler stores the input's value and touches nothing else. */
  function OnChange(s: State, value: string): (r: State)
    ensures r.sectionInput == value
    ensures r.showInput == s.showInput && r.valid == s.valid
  {
    s.(sectionInput := value)
  }

  /** The key-up handler marks the state valid exactly when the input is not empty. */
  function OnKeyUp(s: State, inputValue: Option<string>): (r: State)
    ensures r.valid <==> inputValue != Some("")
    ensures r.showInput == s.showInput && r.sectionInput == s.sectionInput
  {
    s.(valid := inputValue != Some(""))
  }

  /** The submit handler, with its four branches. */
  function OnSubmit(s: State): (r: Outcome)
    // invalid: hide the input and reset valid, keeping the text
    ensures !s.valid ==> r == Outcome(State(false, s.sectionInput, true), None)
    // valid and hidden: reveal the input and mark it not yet valid
    ensures s.valid && !s.showInput ==> r == Outcome(State(true, s.sectionInput, false), None)
    // valid, shown, empty text: nothing happens
    ensures s.valid && s.showInput && s.sectionInput == "" ==> r == Outcome(s, None)
    // valid, shown, some text: hand it over, clear it and hide the input
    ensures s.valid && s.showInput && s.sectionInput != "" ==>
      r == Outcome(State(false, "", true), Some(s.sectionInput))
    ensures r.emitted.Some? <==> s.valid && s.showInput && s.sectionInput != ""
    ensures r.emitted.Some? ==> r.emitted.value != ""
    ensures !r.state.showInput ==> r.state.valid
  {
    if !s.valid then
      Outcome(s.(showInput := false, valid := true), None)
    else if !s.showInput then
      Outcome(s.(valid := false, showInput := true), None)
    else if s.sectionInput == "" then
      Outcome(s, None)
    else
      Outcome(s.(sectionInput := "", showInput := false), Some(s.sectionInput))
  }

  /** The input is disabled while hidden, so it sees change and key events only while shown. */
  function Enabled(s: State, e: Event): (b: bool)
    ensures s.showInput ==> b
    ensures !s.showInput ==> (b <==> e == Submit)
  {
    e.Submit? || s.showInput
  }

  function Step(s: State, e: Event): (r: Outcome)
    ensures e.Change? ==> r == Outcome(OnChange(s, e.value), None)
    ensures e.KeyUp? ==> r == Outcome(OnKeyUp(s, e.inputValue), None)
    ensures e.Submit? ==> r == OnSubmit(s)
    ensures !e.Submit? ==> r.emitted == None
    ensures r.emitted.Some? ==> r.emitted.value != ""
    ensures Enabled(s, e) && Invariant(s) ==> Invariant(r.state)
  {
    match e
    case Change(v) => Outcome(OnChange(s, v), None)
    case KeyUp(v) => Outcome(OnKeyUp(s, v), None)
    case Submit => OnSubmit(s)
  }

  /** Every event of the sequence is deliverable in the state it reaches. */
  predicate EnabledRun(s: State, events: seq<Event>)
    decreases |events|
  {
    events == [] || (Enabled(s, events[0]) && EnabledRun(Step(s, events[0]).state, events[1..]))
  }

  /** The state after a run of events, and the texts handed to the caller on the way, in order. */
  function Run(s: State, events: seq<Event>): (r: (State, seq<string>))
    ensures |r.1| <= |events|
    decreases |events|
  {
    if events == [] then (s, [])
    else
      var o := Step(s, events[0]);
      var rest := Run(o.state, events[1..]);
      match o.emitted
      case Some(t) => (rest.0, [t] + rest.1)
      case None => rest
  }

  /** Over any run, the caller never receives an empty string. */
  lemma {:induction false} RunEmitsNonEmpty(s: State, events: seq<Event>)
    ensures forall i :: 0 <= i < |Run(s, events).1| ==> Run(s, events).1[i] != ""
    decreases |events|
  {
    if events != [] {
      RunEmitsNonEmpty(Step(s, events[0]).state, events[1..]);
    }
  }

  /** Over any run of deliverable events, a hidden input implies valid. */
  lemma {:induction false} RunKeepsInvariant(s: State, events: seq<Event>)
    requires Invariant(s)
    requires EnabledRun(s, events)
    ensures Invariant(Run(s, events).0)
    decreases |events|
  {
    if events != [] {
      RunKeepsInvariant(Step(s, events[0]).state, events[1..]);
    }
  }

  /** Two submits with text typed in between hand that text over, starting from the initial state. */
  lemma OpenTypeSubmit(text: string)
    requires text != ""
    ensures Run(Initial(), [Submit, Change(text), KeyUp(Some(text)), Submit])
         == (Initial(), [text])
  {
    var s1 := Step(Initial(), Submit).state;
    var s2 := Step(s1, Change(text)).state;
    var s3 := Step(s2, KeyUp(Some(text))).state;
    assert s3 == State(true, text, true);
    var evs := [Submit, Change(text), KeyUp(Some(text)), Submit];
    assert evs[1..] == [Change(text), KeyUp(Some(text)), Submit];
    assert evs[1..][1..] == [KeyUp(Some(text)), Submit];
    assert evs[1..][1..][1..] == [Submit];
    assert Step(s3, Submit) == Outcome(Initial(), Some(text));
    assert [Submit][1..] == [];
    assert Run(Initial(), []) == (Initial(), []);
    assert Run(s3, [Submit]) == (Initial(), [text] + []);
    assert [text] + [] == [text];
    assert [KeyUp(Some(text)), Submit][1..] == [Submit];
    assert [Change(text), KeyUp(Some(text)), Submit][1..] == [KeyUp(Some(text)), Submit];
    assert Run(s2, [KeyUp(Some(text)), Submit]) == (Initial(), [text]);
    assert Run(s1, [Change(text), KeyUp(Some(text)), Submit]) == (Initial(), [text]);
  }
}
