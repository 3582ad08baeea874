/** Blankness by code points: what `str.strip` removes, and the Unicode property White_Space. */
module TextLaws {
  import opened Text

  /** White_Space of the Unicode character database. */
  predicate IsSpace(code: int) {
    || 0x9 <= code <= 0xD || code == 0x20 || code == 0x85 || code == 0xA0 || code == 0x1680
    || 0x2000 <= code <= 0x200A || code == 0x2028 || code == 0x2029 || code == 0x202F || code == 0x205F || code == 0x3000
  }

  predicate OnlySpaces(text: string) {
    forall i :: 0 <= i < |text| ==> IsSpace(text[i] as int)
  }

  /** Spaces and the four information separators, 0x1C to 0x1F. */
  predicate OnlyStripped(text: string) {
    forall i :: 0 <= i < |text| ==> IsSpace(text[i] as int) || 0x1C <= text[i] as int <= 0x1F
  }

  lemma {:induction false} SpaceIs(c: char)
    ensures IsWhiteSpace(c) <==> IsSpace(c as int)
    ensures IsStripped(c) <==> IsSpace(c as int) || 0x1C <= c as int <= 0x1F
  {
  }

  /** Field names, keys and scope fields are blank when `strip` leaves nothing of them. */
  lemma {:induction false} BlankIs(text: string)
    ensures Blank(text) <==> OnlyStripped(text)
  {
    forall i | 0 <= i < |text|
      ensures IsStripped(text[i]) <==> IsSpace(text[i] as int) || 0x1C <= text[i] as int <= 0x1F
    {
      SpaceIs(text[i]);
    }
    if Blank(text) {
      assert forall i :: 0 <= i < |text| ==> text[i] in text;
    }
  }

  /** Reasons are blank when they are White_Space only; the information separators count as text. */
  lemma {:induction false} BlankIntentIs(text: string)
    ensures BlankIntent(text) <==> OnlySpaces(text)
  {
    forall i | 0 <= i < |text|
      ensures IsWhiteSpace(text[i]) <==> IsSpace(text[i] as int)
    {
      SpaceIs(text[i]);
    }
    if BlankIntent(text) {
      assert forall i :: 0 <= i < |text| ==> text[i] in text;
    }
  }
}
