/**
  The focus key a Section writes when one of its chord inputs gains focus,
  `"<section>-<bar>-<slot>"`, and the bar index its Enter handler reads back
  from it (field 1 of the split on '-', through unary plus).
 */
module FocusKey {
  import opened Wrappers
  import opened Decimal
  import opened StringSplit

  /** The key written on focus of chord slot `slot` of bar `bar` in section `section`. */
  function Encode(section: nat, bar: nat, slot: nat): (key: string)
    ensures key != "" && '-' in key
    ensures |key| > |ToDecimal(section)| + 1
    ensures key[..|ToDecimal(section)|] == ToDecimal(section)
    ensures key[|ToDecimal(section)|] == '-'
  {
    ToDecimal(section) + "-" + ToDecimal(bar) + "-" + ToDecimal(slot)
  }

  /** Element i of an array, or None where JavaScript yields `undefined`. */
  function Field(parts: seq<string>, i: nat): (r: Option<string>)
    ensures r.Some? <==> i < |parts|
    ensures r.Some? ==> r.value == parts[i]
  {
    if i < |parts| then Some(parts[i]) else None
  }

  /**
    The bar index `+key.split("-")?.[1]`: None stands for NaN, which is what an
    unfocused Section (key "") and any key without a second field produce.
   */
  function DecodeBar(key: string): (r: Option<nat>)
    ensures key == "" ==> r == None
    ensures '-' !in key ==> r == None
  {
    assert '-' !in key ==> Split(key, '-') == [key] by {
      if '-' !in key {
        SplitJoin([key], '-');
      }
    }
    match Field(Split(key, '-'), 1)
    case None => None
    case Some(f) => ToNumber(f)
  }

  /** A digit string has no '-' in it. */
  lemma DigitsHaveNoDash(s: string)
    requires AllDigits(s)
    ensures '-' !in s
  {
  }

  /** A key splits into exactly the three decimal fields it was written from. */
  lemma EncodeFields(section: nat, bar: nat, slot: nat)
    ensures Split(Encode(section, bar, slot), '-')
         == [ToDecimal(section), ToDecimal(bar), ToDecimal(slot)]
  {
    var a, b, c := ToDecimal(section), ToDecimal(bar), ToDecimal(slot);
    DigitsHaveNoDash(a);
    DigitsHaveNoDash(b);
    DigitsHaveNoDash(c);
    var parts := [a, b, c];
    assert Join([c], '-') == c;
    assert parts[1..] == [b, c] && [b, c][1..] == [c];
    assert Join([b, c], '-') == b + "-" + c;
    assert Join(parts, '-') == a + "-" + (b + "-" + c);
    assert a + "-" + (b + "-" + c) == Encode(section, bar, slot);
    SplitJoin(parts, '-');
  }

  /** Decoding the key written on focus gives back the focused bar. */
  lemma RoundTrip(section: nat, bar: nat, slot: nat)
    ensures DecodeBar(Encode(section, bar, slot)) == Some(bar)
  {
    EncodeFields(section, bar, slot);
    ToNumberToDecimal(bar);
  }

  /** Keys written for different inputs are different: the key determines section, bar and slot. */
  lemma EncodeInjective(section: nat, bar: nat, slot: nat, section': nat, bar': nat, slot': nat)
    requires Encode(section, bar, slot) == Encode(section', bar', slot')
    ensures section == section' && bar == bar' && slot == slot'
  {
    EncodeFields(section, bar, slot);
    EncodeFields(section', bar', slot');
    var fields := Split(Encode(section, bar, slot), '-');
    assert ToDecimal(section) == fields[0] == ToDecimal(section');
    assert ToDecimal(bar) == fields[1] == ToDecimal(bar');
    assert ToDecimal(slot) == fields[2] == ToDecimal(slot');
    ToNumberToDecimal(section);
    ToNumberToDecimal(section');
    ToNumberToDecimal(bar);
    ToNumberToDecimal(bar');
    ToNumberToDecimal(slot);
    ToNumberToDecimal(slot');
  }
}
