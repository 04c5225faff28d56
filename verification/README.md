# Chordy chord-chart editor: a Dafny model of its state logic

Chordy is a browser chord-chart editor. A song has a title and a sequence of
named sections, each section has a sequence of bars, and each bar has a
sequence of chords. Every chord has a text and a resolution: a whole, half or
quarter bar. This project models the logic under the page as pure functions
over immutable datatypes:

- the song store and its edits (`Chordy`, chordy.dfy):
  - the initial store;
  - `createSection`;
  - `updateTitle`;
  - `handleAddSection`;
  - the Enter-key chord entry of a Section, with its no-op `addChord` callback.
- the focus key a Section writes when one of its chord inputs is focused,
  `"<section>-<bar>-<slot>"`, and how the Enter handler reads the bar index back
  from it. These rest on three helper modules:
  - `Decimal` (decimal.dfy): `${n}` and unary `+`;
  - `StringSplit` (split.dfy): `split` and `join`;
  - `FocusKey` (focus_key.dfy).
- the add-section button (`OverlappingButton`, overlapping_button.dfy). Its
  state is the three signals `showInput`, `sectionInput` and `valid`. It reacts
  to change, key-up and submit events. A submit hands a section name to the
  caller only in one of its four branches.
- the page as a whole (`ChordyApp`, chordy_app.dfy). Its state is the store, one
  focus key per rendered Section, and the button state. A step function applies
  every event the page can deliver. The module proves invariants that hold in
  every reachable state:
  - every section name is non-empty;
  - every section ends in an empty bar;
  - every section has one bar more than it has chords;
  - every chord lasts a whole bar;
  - a hidden add-section input is valid;
  - every non-empty focus key names an existing bar of its section.

  As a consequence, Enter in a chord input throws exactly when no input of that
  section has been focused yet.

`Wrappers` (wrappers.dfy) holds `Option` and `Result`. In this model, `None`
stands for JavaScript's `undefined` or `NaN`, and `Err` stands for a thrown
`TypeError`.

Facts about the code that shape the model:
- a new section has one empty bar (src/components/Chordy.tsx:161);
- there is no operation that appends a batch of bars;
- every chord is stamped with the Section's constant `WHOLE`
  (src/components/Chordy.tsx:57 and 70);
- the resolution signal created at src/components/Chordy.tsx:176 is never read
  or written afterwards.

## Model

| member | source | states |
|---|---|---|
| Decimal.ToDecimal | src/components/Chordy.tsx:82 | `${n}` of a natural number is a non-empty string of decimal digits with no leading zero |
| Decimal.ToNumber | src/components/Chordy.tsx:66 | unary plus gives a number exactly for digit strings; the empty string reads as 0 |
| Decimal.ToNumberToDecimal | src/components/Chordy.tsx:66 | reading back with unary plus what `${n}` wrote gives n |
| Decimal.ToDecimalDigitsValue | src/components/Chordy.tsx:82 | conversely, a canonical digit string is exactly what `${n}` writes for its value |
| StringSplit.Split | src/components/Chordy.tsx:66 | `split("-")` always yields at least one field and no field contains the separator |
| StringSplit.JoinSplit | src/components/Chordy.tsx:66 | joining the fields of a split with the separator gives back the original string |
| StringSplit.SplitJoin | src/components/Chordy.tsx:66 | splitting a join of separator-free fields gives back exactly those fields |
| FocusKey.Field | src/components/Chordy.tsx:66 | array indexing `[1]` is defined exactly for in-range indices and then yields that element |
| FocusKey.DecodeBar | src/components/Chordy.tsx:66 | an unfocused Section (key "") or a key with no '-' yields no bar index (NaN) |
| FocusKey.Encode | src/components/Chordy.tsx:82 | the key written on focus is non-empty, contains '-', and starts with the section's decimal string followed by '-' |
| FocusKey.EncodeFields | src/components/Chordy.tsx:82 | the key `"s-b-i"` splits on '-' into exactly the three decimal fields it was written from |
| FocusKey.RoundTrip | src/components/Chordy.tsx:66 | field 1 of the split of the key written on focus, read by unary plus, is the focused bar index |
| FocusKey.EncodeInjective | src/components/Chordy.tsx:79-83 | keys written on focus for different inputs are different: equal keys mean equal section, bar and slot |
| Chordy.Value | src/components/Chordy.tsx:163-169 | WHOLE, HALF = WHOLE/2 and QUARTER = HALF/2 are exactly 1, 0.5 and 0.25, and each resolution has its own value |
| Chordy.CreateSection | src/components/Chordy.tsx:161 | a new section has the given name and exactly one bar, whose chord list is empty, and satisfies the section invariant |
| Chordy.InitialSong | src/components/Chordy.tsx:172-175 | the store starts with title "Title" and exactly two sections, "Verse" then "Chorus", each a fresh section |
| Chordy.UpdateTitle | src/components/Chordy.tsx:178-181 | the title becomes the given string (empty allowed) and the sections are unchanged |
| Chordy.UpdateTitleIdempotent | src/components/Chordy.tsx:178-181 | setting the same title twice equals setting it once |
| Chordy.AddSection | src/components/Chordy.tsx:183-185 | sections grow by exactly one, the new one is last and fresh with the given name, earlier sections and the title are unchanged |
| Chordy.ChordCountUpdate | src/components/Chordy.tsx:68-72 | replacing one bar changes the total chord count by the difference of the two bars' counts |
| Chordy.EnterChord | src/components/Chordy.tsx:66-74 | the focused bar gets exactly one whole-bar chord with the input's text at its end, other bars are unchanged, one empty bar is appended, and the section invariant is kept |
| Chordy.EntryResolution | src/components/Chordy.tsx:57 | the resolution a Section stamps on entered chords is the one whose value is `WHOLE` |
| Chordy.AddChord | src/components/Chordy.tsx:187-200 | the chord-added callback leaves the song unchanged |
| Chordy.OnKeyUp | src/components/Chordy.tsx:59-77 | a key other than Enter changes nothing; Enter succeeds exactly when the decoded bar index names a bar, and then edits only that section, leaving the title and other sections untouched; otherwise it throws |
| Chordy.EnterAfterFocus | src/components/Chordy.tsx:59-84 | Enter after focusing the input of a bar enters the chord into that very bar |
| OverlappingButton.Initial | src/components/ui/OverlappingButton.tsx:8-10 | the button starts hidden, with text "" and valid, so a hidden input is valid from the start |
| OverlappingButton.OnChange | src/components/ui/OverlappingButton.tsx:13-17 | a change stores the input's value and touches no other field |
| OverlappingButton.OnKeyUp | src/components/ui/OverlappingButton.tsx:19-21 | a key-up sets valid exactly when the input's value is not the empty string, touching no other field |
| OverlappingButton.OnSubmit | src/components/ui/OverlappingButton.tsx:23-38 | the four submit branches, with their states and emissions; a text is emitted exactly in the valid, shown, non-empty case, and then it is that non-empty text; after any submit a hidden input is valid |
| OverlappingButton.Enabled | src/components/ui/OverlappingButton.tsx:47 | while the input is shown every event reaches the form; while it is hidden (disabled) only a submit does |
| OverlappingButton.Step | src/components/ui/OverlappingButton.tsx:13-38 | a change runs the change handler, a key-up runs the key-up handler, a submit runs the submit handler; only submits emit, no emitted text is empty, and deliverable events keep "hidden implies valid" |
| OverlappingButton.RunEmitsNonEmpty | src/components/ui/OverlappingButton.tsx:33-34 | over any run of events the caller's onSubmit never receives an empty string |
| OverlappingButton.RunKeepsInvariant | src/components/ui/OverlappingButton.tsx:23-47 | over any run of events the disabled-while-hidden input can deliver, a hidden input implies valid |
| OverlappingButton.OpenTypeSubmit | src/components/ui/OverlappingButton.tsx:23-38 | submit, type a text, submit again hands that text over once and returns to the initial state |
| ChordyApp.Presets | src/components/Chordy.tsx:147 | the quick-add buttons are exactly "Chorus" then "Verse", both non-empty |
| ChordyApp.Rendered | src/components/Chordy.tsx:92-150 | the page delivers: any title edit; a quick-add press only for one of the two buttons; an add-section button event only when the input is enabled or it is a submit; a focus only on slot 0 of an existing bar of an existing section; a chord key-up only in an existing section |
| ChordyApp.HandleAddSection | src/components/Chordy.tsx:183-185 | the page-level section append adds one unfocused Section and keeps every existing focus key |
| ChordyApp.Step | src/components/Chordy.tsx:171-219 | a page event throws exactly when it is Enter in a section whose focus key names no bar; a title edit applies updateTitle; a quick-add button appends its preset section; a button event installs the button's new state and appends a section exactly when the button emitted a name; a focus writes `"s-b-i"` into section s's key only; a chord entry changes only the song, as the Section's key-up handler does |
| ChordyApp.Initial | src/components/Chordy.tsx:172-175 | the page mounts with the initial store, two unfocused Sections and the initial button state, and satisfies every reachable-state invariant |
| ChordyApp.AddSectionKeepsInvariant | src/components/Chordy.tsx:139-185 | adding a section with a non-empty name keeps the invariants |
| ChordyApp.ChordKeyUpKeepsInvariant | src/components/Chordy.tsx:59-77 | chord entry keeps the invariants: bars only grow, so every focus key still names a bar |
| ChordyApp.FocusKeepsInvariant | src/components/Chordy.tsx:79-103 | focusing a rendered chord input keeps the invariants |
| ChordyApp.StepKeepsInvariant | src/components/Chordy.tsx:171-219 | every deliverable event that does not throw keeps the invariants |
| ChordyApp.EnterFailsOnlyUnfocused | src/components/Chordy.tsx:56-68 | in a reachable state, Enter in a chord input throws exactly when that section has no focused input yet |
| ChordyApp.RunKeepsInvariant | src/components/Chordy.tsx:171-219 | the invariants hold after any run of deliverable, non-throwing events |
| ChordyApp.Reachable | src/components/Chordy.tsx:161-185 | after any run of deliverable, non-throwing events from the initial page, every section has a non-empty name, ends in an empty bar, has one bar more than chords, and holds only whole-bar chords |

## Left out

- Rendering: JSX, `For` loops, CSS classes, `preventDefault` and the input elements. These are presentation only.
- Solid's reactivity: signals, the store proxy and `setState` path semantics. Edits are modelled as the code states them. The in-place mutation at src/components/Chordy.tsx:68-74 is taken to take effect on the store's section.
- Chordy.OnKeyUp: the chord text is the value of the input the key was released in. It is a parameter, because it comes from the DOM.
- OverlappingButton.OnKeyUp: `inputRef?.value` is a parameter, with `None` for an unset reference.
- The store-wide resolution signal: it is created but never read or changed, so it has no effect.
- Per-chord resolution switching and appending a batch of bars: neither exists in the code.
- The unused `chordLetters` constant.
- chrodtemp.ts: a compile-time type experiment with no runtime behaviour.
- EditableText: its blur and change callback ordering depends on DOM dispatch. The page model receives its `onChange` as a direct `EditTitle` event.
- RoundButton: it only chooses the "+" or "x" glyph and a class string.
- Decimal.ToNumber: handles only strings of decimal digits. Other strings map to NaN, although real unary plus also accepts whitespace, signs, exponents, fractions and hex. The focus keys read here are only ever written by onFocus, which produces digit fields.
- Decimal.ToDecimal: models `${n}` for every natural number as plain decimal digits. JavaScript writes exponent form from 1e21 on, and unary plus does not read digit strings above 2^53 back exactly. Both functions are applied only to section, bar and slot indices, which are array indices below 2^32, so neither case arises.
- OverlappingButton.RunKeepsInvariant: assumes the DOM delivers no key-up to a disabled input. An Enter that submits the form hides and disables the input before that key's own key-up fires. If that key-up did reach `handleKeyUp` with an empty value, `valid` would become false while the input is hidden. `OverlappingButton.Enabled` states this assumption, and `ChordyApp.Invariant` relies on it too.
- Floating point: the resolutions 1, 0.5 and 0.25 are exact reals.
