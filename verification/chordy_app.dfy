/**
  The Chordy component as a whole: the song store, the focus key held by
  each rendered Section (one per section, in order, empty until one of its
  inputs is focused), and the add-section button's state. Every user action
  the page can deliver is an event; the step function applies it.
 */
module ChordyApp {
  import opened Wrappers
  import opened Chordy
  import FocusKey
  import OverlappingButton

  datatype App = App(song: Song, focus: seq<string>, button: OverlappingButton.State)

  /** The labels of the quick-add buttons beside the add-section button. */
  function Presets(): (p: seq<string>)
    ensures |p| == 2 && p[0] == "Chorus" && p[1] == "Verse"
    ensures forall i :: 0 <= i < |p| ==> p[i] != ""
  {
    ["Chorus", "Verse"]
  }

  /**
    The actions the page delivers: the title editor's change callback, a
    quick-add button, an event of the add-section button, focus of a chord
    input, and a key released in a chord input.
   */
  datatype Event =
    | EditTitle(title: string)
    | Preset(index: nat)
    | ButtonEvent(e: OverlappingButton.Event)
    | Focus(section: nat, bar: nat, slot: nat)
    | ChordKeyUp(section: nat, key: string, value: string)


  /** One Section component, with its focus key, per section of the store. */
  predicate Wf(app: App) {
    |app.focus| == |app.song.sections|
  }

  /**
    The events the rendered page can produce: a quick-add button exists per
    preset, the add-section input only reacts while shown, and a chord input
    exists for slot 0 of every bar of every section.
   */
  function Rendered(app: App, ev: Event): (b: bool)
    ensures ev.EditTitle? ==> b
    ensures ev.Preset? ==> (b <==> ev.index < 2)
    ensures ev.ButtonEvent? ==> (b <==> ev.e.Submit? || app.button.showInput)
    ensures ev.Focus? && b ==>
      ev.slot == 0 && ev.section < |app.song.sections| && ev.bar < |app.song.sections[ev.section].bars|
    ensures ev.Focus? ==>
      (ev.slot == 0 && ev.section < |app.song.sections| && ev.bar < |app.song.sections[ev.section].bars| ==> b)
    ensures ev.ChordKeyUp? ==> (b <==> ev.section < |app.song.sections|)
  {
    match ev
    case EditTitle(_) => true
    case Preset(i) => i < |Presets()|
    case ButtonEvent(e) => OverlappingButton.Enabled(app.button, e)
    case Focus(s, b, slot) =>
      s < |app.song.sections| && b < |app.song.sections[s].bars| && slot == 0
    case ChordKeyUp(s, _, _) => s < |app.song.sections|
  }

  /** The store's section append; the new section's component starts unfocused. */
  function HandleAddSection(app: App, name: string): (r: App)
    requires Wf(app)
    ensures Wf(r)
    ensures r.song == AddSection(app.song, name)
    ensures r.focus[..|app.focus|] == app.focus && r.focus[|app.focus|] == ""
    ensures r.button == app.button
  {
    App(AddSection(app.song, name), app.focus + [""], app.button)
  }

  function Step(app: App, ev: Event): (r: Result<App, EntryError>)
    requires Wf(app) && Rendered(app, ev)
    ensures r.Ok? ==> Wf(r.value)
    ensures r.Err? <==>
      && ev.ChordKeyUp? && ev.key == "Enter"
      && !BarInRange(app.song.sections[ev.section], FocusKey.DecodeBar(app.focus[ev.section]))
    ensures ev.EditTitle? ==> r == Ok(app.(song := UpdateTitle(app.song, ev.title)))
    ensures ev.Preset? ==> r == Ok(HandleAddSection(app, Presets()[ev.index]))
    ensures ev.ButtonEvent? ==>
      var o := OverlappingButton.Step(app.button, ev.e);
      && r.Ok?
      && r.value.button == o.state
      && (o.emitted.Some? ==> r.value.song == AddSection(app.song, o.emitted.value)
                              && r.value.focus == app.focus + [""])
      && (o.emitted.None? ==> r.value.song == app.song && r.value.focus == app.focus)
    ensures ev.Focus? ==>
      r == Ok(app.(focus := app.focus[ev.section := FocusKey.Encode(ev.section, ev.bar, ev.slot)]))
    ensures r.Ok? && ev.ChordKeyUp? ==>
      && r.value.song == Chordy.OnKeyUp(app.song, ev.section, app.focus[ev.section], ev.key, ev.value).value
      && r.value.focus == app.focus && r.value.button == app.button
  {
    match ev
    case EditTitle(t) => Ok(app.(song := UpdateTitle(app.song, t)))
    case Preset(i) => Ok(HandleAddSection(app, Presets()[i]))
    case ButtonEvent(e) =>
      var o := OverlappingButton.Step(app.button, e);
      var app' := app.(button := o.state);
      if o.emitted.Some? then Ok(HandleAddSection(app', o.emitted.value)) else Ok(app')
    case Focus(s, b, slot) => Ok(app.(focus := app.focus[s := FocusKey.Encode(s, b, slot)]))
    case ChordKeyUp(s, key, value) =>
      match Chordy.OnKeyUp(app.song, s, app.focus[s], key, value)
      case Ok(song') => Ok(app.(song := song'))
      case Err(e) => Err(e)
  }

  /** Section i's component is unfocused, or its key names an existing bar of section i, slot 0. */
  predicate FocusOk(app: App, i: nat)
    requires Wf(app) && i < |app.focus|
  {
    app.focus[i] == ""
    || exists b :: 0 <= b < |app.song.sections[i].bars| && app.focus[i] == FocusKey.Encode(i, b, 0)
  }

  /** What holds in every state the page can reach. */
  predicate Invariant(app: App) {
    && Wf(app)
    && SongInvariant(app.song)
    && OverlappingButton.Invariant(app.button)
    && (forall i :: 0 <= i < |app.song.sections| ==> app.song.sections[i].name != "")
    && (forall i :: 0 <= i < |app.focus| ==> FocusOk(app, i))
  }

  /** The page as mounted: the initial store, two unfocused Sections, the button's initial state. */
  function Initial(): (app: App)
    ensures app.song == InitialSong() && app.button == OverlappingButton.Initial()
    ensures |app.focus| == 2 && app.focus[0] == "" && app.focus[1] == ""
    ensures Invariant(app)
  {
    App(InitialSong(), ["", ""], OverlappingButton.Initial())
  }

  /** Adding a section with a non-empty name keeps the invariant. */
  lemma AddSectionKeepsInvariant(app: App, name: string)
    requires Invariant(app) && name != ""
    ensures Invariant(HandleAddSection(app, name))
  {
    var r := HandleAddSection(app, name);
    forall i | 0 <= i < |r.focus|
      ensures FocusOk(r, i)
    {
      if i < |app.focus| {
        assert FocusOk(app, i);
        assert r.focus[i] == app.focus[i];
        assert r.song.sections[i] == app.song.sections[i];
      }
    }
  }

  /** Entering a chord keeps the invariant: bars only grow, so every focus key still names a bar. */
  lemma ChordKeyUpKeepsInvariant(app: App, s: nat, key: string, value: string)
    requires Invariant(app) && s < |app.song.sections|
    requires Step(app, ChordKeyUp(s, key, value)).Ok?
    ensures Invariant(Step(app, ChordKeyUp(s, key, value)).value)
  {
    var r := Step(app, ChordKeyUp(s, key, value)).value;
    forall i | 0 <= i < |r.focus|
      ensures FocusOk(r, i)
    {
      assert FocusOk(app, i);
      if app.focus[i] != "" {
        var b :| 0 <= b < |app.song.sections[i].bars| && app.focus[i] == FocusKey.Encode(i, b, 0);
        assert b < |r.song.sections[i].bars|;
      }
    }
  }

  /** Focusing a rendered chord input keeps the invariant. */
  lemma FocusKeepsInvariant(app: App, s: nat, b: nat, slot: nat)
    requires Invariant(app) && Rendered(app, Focus(s, b, slot))
    ensures Invariant(Step(app, Focus(s, b, slot)).value)
  {
    var r := Step(app, Focus(s, b, slot)).value;
    forall i | 0 <= i < |r.focus|
      ensures FocusOk(r, i)
    {
      if i == s {
        assert r.focus[i] == FocusKey.Encode(i, b, 0);
      } else {
        assert FocusOk(app, i);
        assert r.focus[i] == app.focus[i];
      }
    }
  }

  /** Every deliverable event that does not throw keeps the invariant. */
  lemma StepKeepsInvariant(app: App, ev: Event)
    requires Invariant(app) && Rendered(app, ev)
    requires Step(app, ev).Ok?
    ensures Invariant(Step(app, ev).value)
  {
    match ev
    case EditTitle(t) =>
      var r := Step(app, ev).value;
      forall i | 0 <= i < |r.focus|
        ensures FocusOk(r, i)
      {
        assert FocusOk(app, i);
      }
    case Preset(i) =>
      AddSectionKeepsInvariant(app, Presets()[i]);
    case ButtonEvent(e) =>
      var o := OverlappingButton.Step(app.button, e);
      var app' := app.(button := o.state);
      forall i | 0 <= i < |app'.focus|
        ensures FocusOk(app', i)
      {
        assert FocusOk(app, i);
      }
      if o.emitted.Some? {
        AddSectionKeepsInvariant(app', o.emitted.value);
      }
    case Focus(s, b, slot) =>
      FocusKeepsInvariant(app, s, b, slot);
    case ChordKeyUp(s, key, value) =>
      ChordKeyUpKeepsInvariant(app, s, key, value);
  }

  /**
    In a reachable state, Enter in a chord input throws exactly when no
    input of that section has been focused yet.
   */
  lemma EnterFailsOnlyUnfocused(app: App, s: nat, value: string)
    requires Invariant(app) && s < |app.song.sections|
    ensures Step(app, ChordKeyUp(s, "Enter", value)).Err? <==> app.focus[s] == ""
  {
    assert FocusOk(app, s);
    if app.focus[s] != "" {
      var b :| 0 <= b < |app.song.sections[s].bars| && app.focus[s] == FocusKey.Encode(s, b, 0);
      FocusKey.RoundTrip(s, b, 0);
    }
  }

  /** Every event of the sequence is deliverable and does not throw in the state it reaches. */
  predicate RunOk(app: App, events: seq<Event>)
    requires Wf(app)
    decreases |events|
  {
    events == []
    || (Rendered(app, events[0]) && Step(app, events[0]).Ok? && RunOk(Step(app, events[0]).value, events[1..]))
  }

  function Run(app: App, events: seq<Event>): (r: App)
    requires Wf(app) && RunOk(app, events)
    ensures Wf(r)
    decreases |events|
  {
    if events == [] then app else Run(Step(app, events[0]).value, events[1..])
  }

  /** The invariant holds after any run of deliverable events that does not throw. */
  lemma {:induction false} RunKeepsInvariant(app: App, events: seq<Event>)
    requires Invariant(app) && RunOk(app, events)
    ensures Invariant(Run(app, events))
    decreases |events|
  {
    if events != [] {
      StepKeepsInvariant(app, events[0]);
      RunKeepsInvariant(Step(app, events[0]).value, events[1..]);
    }
  }

  /**
    From the initial page, after any run: every section has a non-empty
    name, ends in an empty bar, has one bar more than it has chords, and all
    its chords last a whole bar.
   */
  lemma Reachable(events: seq<Event>)
    requires RunOk(Initial(), events)
    ensures var r := Run(Initial(), events);
      forall i :: 0 <= i < |r.song.sections| ==>
        && r.song.sections[i].name != ""
        && SectionInvariant(r.song.sections[i])
  {
    RunKeepsInvariant(Initial(), events);
  }
}
