/**
  The chord-chart store of the Chordy component: a song is a title and a
  sequence of sections, a section a name and a sequence of bars, a bar a
  sequence of chords. Edits are modelled as pure functions from the old
  store to the new one.
 */
module Chordy {
  import opened Wrappers
  import FocusKey

  /** How much of a bar a chord lasts: a whole, a half or a quarter. */
  datatype Resolution = Whole | Half | Quarter

  const WHOLE: real := 1.0
  const HALF: real := WHOLE / 2.0
  const QUARTER: real := HALF / 2.0

  /** The fraction of a bar a resolution stands for; the halvings are exact. */
  function Value(r: Resolution): (v: real)
    ensures 0.0 < v <= 1.0
    ensures r == Whole <==> v == 1.0
    ensures r == Half <==> v == 0.5
    ensures r == Quarter <==> v == 0.25
  {
    match r
    case Whole => WHOLE
    case Half => HALF
    case Quarter => QUARTER
  }

  datatype Chord = Chord(text: string, length: Resolution)

  datatype Bar = Bar(chords: seq<Chord>)

  datatype Section = Section(name: string, bars: seq<Bar>)

  datatype Song = Song(title: string, sections: seq<Section>)

  const EmptyBar: Bar := Bar([])

  /** The resolution a Section stamps on every chord entered in it: its constant `WHOLE`. */
  function EntryResolution(): (r: Resolution)
    ensures Value(r) == WHOLE
  {
    Whole
  }

  /** Number of chords over all the bars. */
  function ChordCount(bars: seq<Bar>): nat
    decreases |bars|
  {
    if bars == [] then 0 else ChordCount(bars[..|bars| - 1]) + |bars[|bars| - 1].chords|
  }

  /**
    What every section reachable from the initial song satisfies: it has a
    bar, its last bar is empty, it has exactly one bar more than it has
    chords, and all its chords are whole-bar chords.
   */
  predicate SectionInvariant(s: Section) {
    && |s.bars| >= 1
    && s.bars[|s.bars| - 1] == EmptyBar
    && ChordCount(s.bars) + 1 == |s.bars|
    && forall j, k :: 0 <= j < |s.bars| && 0 <= k < |s.bars[j].chords| ==> s.bars[j].chords[k].length == Whole
  }

  predicate SongInvariant(song: Song) {
    forall i :: 0 <= i < |song.sections| ==> SectionInvariant(song.sections[i])
  }

  /** A fresh section: the given name and a single bar without chords. */
  function CreateSection(name: string): (s: Section)
    ensures s.name == name
    ensures |s.bars| == 1 && s.bars[0].chords == []
    ensures SectionInvariant(s)
  {
    Section(name, [Bar([])])
  }

  /** The store the component starts from. */
  function InitialSong(): (s: Song)
    ensures s.title == "Title"
    ensures |s.sections| == 2
    ensures s.sections[0] == CreateSection("Verse") && s.sections[1] == CreateSection("Chorus")
    ensures s.sections[0].name == "Verse" && s.sections[1].name == "Chorus"
    ensures SongInvariant(s)
  {
    Song("Title", [CreateSection("Verse"), CreateSection("Chorus")])
  }

  /** Replaces the title by any string, the empty one included. */
  function UpdateTitle(song: Song, title: string): (r: Song)
    ensures r.title == title
    ensures r.sections == song.sections
    ensures SongInvariant(song) ==> SongInvariant(r)
  {
    song.(title := title)
  }

  /** Setting the same title twice is the same as setting it once. */
  lemma UpdateTitleIdempotent(song: Song, title: string)
    ensures UpdateTitle(UpdateTitle(song, title), title) == UpdateTitle(song, title)
  {
  }

  /** Appends a fresh section with the given name after all the existing ones. */
  function AddSection(song: Song, name: string): (r: Song)
    ensures r.title == song.title
    ensures |r.sections| == |song.sections| + 1
    ensures r.sections[..|song.sections|] == song.sections
    ensures r.sections[|song.sections|] == CreateSection(name)
    ensures SongInvariant(song) ==> SongInvariant(r)
  {
    song.(sections := song.sections + [CreateSection(name)])
  }

  /**
    `after` is `before` with one whole-bar chord carrying `text` appended to
    bar `bar`, one empty bar appended at the end, and nothing else changed.
   */
  predicate ChordAppended(before: Section, bar: nat, text: string, after: Section)
    requires bar < |before.bars|
  {
    && after.name == before.name
    && |after.bars| == |before.bars| + 1
    && after.bars[bar].chords == before.bars[bar].chords + [Chord(text, Whole)]
    && (forall j :: 0 <= j < |before.bars| && j != bar ==> after.bars[j] == before.bars[j])
    && after.bars[|before.bars|] == EmptyBar
  }

  lemma ChordCountAppend(bars: seq<Bar>, b: Bar)
    ensures ChordCount(bars + [b]) == ChordCount(bars) + |b.chords|
  {
  }

  /** Replacing one bar changes the count by the difference of the two bars' chord counts. */
  lemma {:induction false} ChordCountUpdate(bars: seq<Bar>, j: nat, b: Bar)
    requires j < |bars|
    ensures ChordCount(bars[j := b]) + |bars[j].chords| == ChordCount(bars) + |b.chords|
    decreases |bars|
  {
    var n := |bars| - 1;
    if j < n {
      ChordCountUpdate(bars[..n], j, b);
      assert bars[j := b][..n] == bars[..n][j := b];
    } else {
      assert bars[j := b][..n] == bars[..n];
    }
  }

  /** The edit the Enter key makes to the section owning the focused bar. */
  function EnterChord(s: Section, bar: nat, text: string): (r: Section)
    requires bar < |s.bars|
    ensures ChordAppended(s, bar, text, r)
    ensures SectionInvariant(s) ==> SectionInvariant(r)
  {
    var updated := Bar(s.bars[bar].chords + [Chord(text, EntryResolution())]);
    var r := s.(bars := s.bars[bar := updated] + [EmptyBar]);
    assert SectionInvariant(s) ==> SectionInvariant(r) by {
      if SectionInvariant(s) {
        ChordCountUpdate(s.bars, bar, updated);
        ChordCountAppend(s.bars[bar := updated], EmptyBar);
      }
    }
    r
  }

  /** Whether the decoded bar index names a bar of the section. */
  predicate BarInRange(s: Section, index: Option<nat>) {
    index.Some? && index.value < |s.bars|
  }

  /** Why chord entry throws: the looked-up bar is `undefined`, so pushing onto its chords fails. */
  datatype EntryError = UndefinedBar(index: Option<nat>)

  /** The chord-added callback the Chordy component hands to its sections; it does nothing. */
  function AddChord(song: Song, s: Section, sectionIndex: nat): (r: Song)
    ensures r == song
  {
    song
  }

  /**
    A key released in a chord input of section `sectionIndex`, whose focus
    key is `focusKey`, while the input holds `value`. Keys other than Enter
    change nothing; Enter enters the chord into the focused bar and adds an
    empty bar, or throws when the focus key does not name a bar.
   */
  function OnKeyUp(song: Song, sectionIndex: nat, focusKey: string, key: string, value: string)
    : (r: Result<Song, EntryError>)
    requires sectionIndex < |song.sections|
    ensures key != "Enter" ==> r == Ok(song)
    ensures key == "Enter" ==>
      (r.Ok? <==> BarInRange(song.sections[sectionIndex], FocusKey.DecodeBar(focusKey)))
    ensures r.Ok? ==>
      && r.value.title == song.title
      && |r.value.sections| == |song.sections|
      && forall i :: 0 <= i < |song.sections| && i != sectionIndex ==> r.value.sections[i] == song.sections[i]
    ensures key == "Enter" && r.Ok? ==>
      ChordAppended(song.sections[sectionIndex], FocusKey.DecodeBar(focusKey).value, value,
                    r.value.sections[sectionIndex])
    ensures r.Ok? && SongInvariant(song) ==> SongInvariant(r.value)
  {
    if key != "Enter" then Ok(song)
    else
      var s := song.sections[sectionIndex];
      var index := FocusKey.DecodeBar(focusKey);
      if BarInRange(s, index) then
        var s' := EnterChord(s, index.value, value);
        Ok(AddChord(song.(sections := song.sections[sectionIndex := s']), s', sectionIndex))
      else
        Err(UndefinedBar(index))
  }

  /** Enter in the input of bar `bar`, focused as the UI focuses it, enters the chord into that bar. */
  lemma EnterAfterFocus(song: Song, sectionIndex: nat, bar: nat, slot: nat, value: string)
    requires sectionIndex < |song.sections|
    requires bar < |song.sections[sectionIndex].bars|
    ensures var r := OnKeyUp(song, sectionIndex, FocusKey.Encode(sectionIndex, bar, slot), "Enter", value);
      && r.Ok?
      && r.value.sections[sectionIndex] == EnterChord(song.sections[sectionIndex], bar, value)
  {
    FocusKey.RoundTrip(sectionIndex, bar, slot);
  }
}
