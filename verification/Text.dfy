/** Text as the program sees it: blankness, literal replacement, and UTF-8 as an exact encoding. */
module Text {
  import opened Outcomes
  import opened Bytes

  /** UTF-8 with its strict decoder. */
  datatype Utf8 = Utf8(encode: string -> seq<byte>, decode: seq<byte> -> Option<string>) {
    /** The decoder reads back every encoding and accepts nothing but encodings. */
    ghost predicate Exact() {
      && (forall s: string :: decode(encode(s)) == Some(s))
      && (forall b: seq<byte> :: decode(b).Some? ==> encode(decode(b).value) == b)
    }
  }

  lemma {:induction false} Utf8IsInjective(utf8: Utf8, a: string, b: string)
    requires utf8.Exact() && utf8.encode(a) == utf8.encode(b)
    ensures a == b
  {
    assert utf8.decode(utf8.encode(a)) == Some(a);
    assert utf8.decode(utf8.encode(b)) == Some(b);
  }

  /** The Unicode property White_Space. */
  predicate IsWhiteSpace(c: char) {
    || '\t' <= c <= '\r'
    || c in {' ', '\U{85}', '\U{A0}', '\U{1680}', '\U{2028}', '\U{2029}', '\U{202F}', '\U{205F}', '\U{3000}'}
    || '\U{2000}' <= c <= '\U{200A}'
  }

  /** What `str.strip` removes: White_Space and the four information separators. */
  predicate IsStripped(c: char) {
    IsWhiteSpace(c) || '\U{1C}' <= c <= '\U{1F}'
  }

  /** `not value.strip()` */
  predicate Blank(s: string) {
    forall c :: c in s ==> IsStripped(c)
  }

  /** Blank by the intent contract, which keeps the separators. */
  predicate BlankIntent(s: string) {
    forall c :: c in s ==> IsWhiteSpace(c)
  }

  /** `value.replace(c, by)` for one character. */
  function Replace(s: string, c: char, text: string): string {
    if s == [] then [] else (if s[0] == c then text else [s[0]]) + Replace(s[1..], c, text)
  }

  lemma {:induction false} ReplaceConcat(a: string, b: string, c: char, text: string)
    ensures Replace(a + b, c, text) == Replace(a, c, text) + Replace(b, c, text)
  {
    if a == [] {
      assert a + b == b;
    } else {
      assert (a + b)[1..] == a[1..] + b;
      ReplaceConcat(a[1..], b, c, text);
    }
  }

  /** `separator.join(parts)` */
  function Join(separator: string, parts: seq<string>): string {
    if parts == [] then [] else if |parts| == 1 then parts[0] else parts[0] + separator + Join(separator, parts[1..])
  }
}
