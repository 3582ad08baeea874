/** The value types of Business IDs: scopes, keys, definitions, plans and the errors they are refused with. */
module BusinessIdCore {
  import opened Outcomes
  import opened Bytes
  import opened Text

  datatype ErrorCode =
    | ProfileNotFound
    | DefinitionInvalid
    | RangeExhausted
    | FormatInvalid
    | Immutable
    | KeyNotFound
    | FramingOverflow  // the `struct.error` of a scope field of 2^32 bytes or more

  datatype Scope = Scope(domainRootKey: string, aggregateType: string, namespace: string, periodKey: string) {
    function Fields(): seq<string> {
      [domainRootKey, aggregateType, namespace, periodKey]
    }
  }

  /** The scope's constructor refuses blank fields. */
  function NewScope(domainRootKey: string, aggregateType: string, namespace: string,
      periodKey: string): Result<Scope, ErrorCode> {
    if Blank(domainRootKey) || Blank(aggregateType) || Blank(namespace) || Blank(periodKey) then Err(DefinitionInvalid)
    else Ok(Scope(domainRootKey, aggregateType, namespace, periodKey))
  }

  datatype EncodingKey = EncodingKey(version: nat, key: seq<byte>) {
    predicate Valid() {
      1 <= version <= 0xFFFF_FFFF && |key| == 32
    }
  }

  const DEFAULT_PROFILE := "daily-permuted-v1"
  const DEFAULT_DATE_FORMAT := "yyyyMMdd"
  const DEFAULT_DIGITS := 6

  datatype Definition = Definition(
    fieldName: string, profile: string, prefix: string, dateFormat: string, reset: string,
    digits: int, separator: string, namespace: string, policyVersion: int)
  {
    /** What the constructor accepts. */
    predicate Valid() {
      && !Blank(fieldName) && !Blank(profile) && !Blank(prefix) && !Blank(dateFormat)
      && !Blank(reset) && !Blank(separator) && !Blank(namespace)
      && (profile == DEFAULT_PROFILE ==> digits == DEFAULT_DIGITS)
      && 1 <= digits <= 18
      && policyVersion >= 1
    }
  }

  datatype Allocation = Allocation(scope: Scope, sequence: nat)

  datatype BusinessIdValue = BusinessIdValue(value: string, profile: string, policyVersion: int)

  // ----- the printable form of a scope

  /** Two replacements, one after the other, as the program writes them. */
  function Escape(s: string): string {
    Replace(Replace(s, '%', "%25"), '|', "%7C")
  }

  function CanonicalKey(scope: Scope): string {
    Join("|", [Escape(scope.domainRootKey), Escape(scope.aggregateType), Escape(scope.namespace), Escape(scope.periodKey)])
  }

  function Unescape(s: string): string {
    if s == [] then []
    else if "%25" <= s then "%" + Unescape(s[3..])
    else if "%7C" <= s then "|" + Unescape(s[3..])
    else [s[0]] + Unescape(s[1..])
  }

  /** The text before the first bar, and what follows that bar if there is one. */
  function SplitBar(s: string): (parts: seq<string>)
    ensures |parts| > 0
  {
    if s == [] then [[]]
    else if s[0] == '|' then [[]] + SplitBar(s[1..])
    else var rest := SplitBar(s[1..]); [[s[0]] + rest[0]] + rest[1..]
  }

  function ParseCanonicalKey(s: string): seq<string> {
    var parts := SplitBar(s);
    seq(|parts|, i requires 0 <= i < |parts| => Unescape(parts[i]))
  }

  /** Although the second replacement runs over the output of the first, each character is escaped on its own. */
  lemma {:induction false} EscapeStep(s: string)
    requires s != []
    ensures Escape(s) == Escape([s[0]]) + Escape(s[1..])
    ensures Escape([s[0]]) == if s[0] == '%' then "%25" else if s[0] == '|' then "%7C" else [s[0]]
  {
    var one, rest := [s[0]], s[1..];
    assert s == one + rest;
    ReplaceConcat(one, rest, '%', "%25");
    ReplaceConcat(Replace(one, '%', "%25"), Replace(rest, '%', "%25"), '|', "%7C");
    assert Replace(one, '%', "%25") == (if s[0] == '%' then "%25" else one) + Replace([], '%', "%25");
    if s[0] == '%' {
      assert Replace(one, '%', "%25") == "%25";
      assert Replace("%25", '|', "%7C") == ['%'] + Replace("25", '|', "%7C");
      assert Replace("25", '|', "%7C") == ['2'] + Replace("5", '|', "%7C");
      assert Replace("5", '|', "%7C") == ['5'] + Replace("", '|', "%7C");
    } else {
      assert Replace(one, '%', "%25") == one;
      assert Replace(one, '|', "%7C") == (if s[0] == '|' then "%7C" else one) + Replace("", '|', "%7C");
    }
  }

  lemma {:induction false} UnescapeUndoesEscape(s: string)
    ensures Unescape(Escape(s)) == s
    ensures '|' !in Escape(s)
  {
    if s == [] {
      assert Escape(s) == [];
    } else {
      EscapeStep(s);
      UnescapeUndoesEscape(s[1..]);
      UnescapeStep(s[0], Escape(s[1..]));
      assert s == [s[0]] + s[1..];
    }
  }

  lemma {:induction false} UnescapeStep(c: char, rest: string)
    ensures Unescape((if c == '%' then "%25" else if c == '|' then "%7C" else [c]) + rest) == [c] + Unescape(rest)
  {
    var head := if c == '%' then "%25" else if c == '|' then "%7C" else [c];
    var e := head + rest;
    assert e[|head|..] == rest;
    if c == '%' {
      assert e[..3] == "%25";
    } else if c == '|' {
      assert e[..3] == "%7C" && e[1] != '2';
      assert !("%25" <= e);
    } else {
      assert e[0] != '%';
    }
  }

  lemma {:induction false} SplitBarAfter(part: string, rest: string)
    requires '|' !in part
    ensures SplitBar(part) == [part]
    ensures SplitBar(part + "|" + rest) == [part] + SplitBar(rest)
  {
    var s := part + "|" + rest;
    if part == [] {
      assert s[1..] == rest;
    } else {
      SplitBarAfter(part[1..], rest);
      assert s[1..] == part[1..] + "|" + rest;
      assert part == [part[0]] + part[1..];
    }
  }

  lemma {:induction false} SplitUndoesJoin(a: string, b: string, c: string, d: string)
    requires '|' !in a && '|' !in b && '|' !in c && '|' !in d
    ensures SplitBar(Join("|", [a, b, c, d])) == [a, b, c, d]
  {
    assert Join("|", [c, d]) == c + "|" + d by { assert [c, d][1..] == [d]; }
    assert Join("|", [b, c, d]) == b + "|" + (c + "|" + d) by { assert [b, c, d][1..] == [c, d]; }
    assert Join("|", [a, b, c, d]) == a + "|" + (b + "|" + (c + "|" + d)) by { assert [a, b, c, d][1..] == [b, c, d]; }
    SplitBarAfter(d, []);
    SplitBarAfter(c, d);
    SplitBarAfter(b, c + "|" + d);
    SplitBarAfter(a, b + "|" + (c + "|" + d));
  }

  /** The escaped, bar-joined text gives the four fields back, so two scopes never share a canonical key. */
  lemma {:induction false} CanonicalKeyRecoversFields(scope: Scope)
    ensures ParseCanonicalKey(CanonicalKey(scope)) == scope.Fields()
  {
    var a, b, c, d := Escape(scope.domainRootKey), Escape(scope.aggregateType), Escape(scope.namespace), Escape(scope.periodKey);
    UnescapeUndoesEscape(scope.domainRootKey);
    UnescapeUndoesEscape(scope.aggregateType);
    UnescapeUndoesEscape(scope.namespace);
    UnescapeUndoesEscape(scope.periodKey);
    SplitUndoesJoin(a, b, c, d);
    assert SplitBar(CanonicalKey(scope)) == [a, b, c, d];
  }

  lemma {:induction false} CanonicalKeyIsInjective(s: Scope, t: Scope)
    requires CanonicalKey(s) == CanonicalKey(t)
    ensures s == t
  {
    CanonicalKeyRecoversFields(s);
    CanonicalKeyRecoversFields(t);
    assert s.Fields()[0] == t.Fields()[0] && s.Fields()[1] == t.Fields()[1];
    assert s.Fields()[2] == t.Fields()[2] && s.Fields()[3] == t.Fields()[3];
  }
}
