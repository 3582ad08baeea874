/** Six base-36 digits, most significant first. */
module Base36 {

  const ALPHABET := "0123456789ABCDEFGHIJKLMNOPQRSTUVWXYZ"
  const WIDTH := 6
  const DOMAIN_SIZE := 2_176_782_336

  function Pow36(n: nat): nat {
    if n == 0 then 1 else 36 * Pow36(n - 1)
  }

  /** The last `width` base-36 digits of `v`. */
  function Digits(v: nat, width: nat): (s: string)
    ensures |s| == width
  {
    if width == 0 then [] else Digits(v / 36, width - 1) + [ALPHABET[v % 36]]
  }

  predicate IsDigit(c: char) {
    '0' <= c <= '9' || 'A' <= c <= 'Z'
  }

  predicate AllDigits(s: string) {
    forall i :: 0 <= i < |s| ==> IsDigit(s[i])
  }

  predicate IsCode(s: string) {
    |s| == WIDTH && AllDigits(s)
  }

  function DigitValue(c: char): (d: nat)
    requires IsDigit(c)
    ensures d < 36 && ALPHABET[d] == c
  {
    if c <= '9' then c as int - '0' as int else c as int - 'A' as int + 10
  }

  function FromDigits(s: string): nat
    requires AllDigits(s)
  {
    if s == [] then 0 else 36 * FromDigits(s[..|s| - 1]) + DigitValue(s[|s| - 1])
  }

  lemma {:induction false} DigitOfValue(d: nat)
    requires d < 36
    ensures IsDigit(ALPHABET[d]) && DigitValue(ALPHABET[d]) == d
  {
    if d < 10 {
      assert ALPHABET[d] == ('0' as int + d) as char;
    } else {
      assert ALPHABET[d] == ('A' as int + (d - 10)) as char;
    }
  }

  lemma {:induction false} DigitsRoundTrip(v: nat, width: nat)
    requires v < Pow36(width)
    ensures AllDigits(Digits(v, width))
    ensures FromDigits(Digits(v, width)) == v
  {
    if width > 0 {
      DigitsRoundTrip(v / 36, width - 1);
      var s := Digits(v, width);
      assert s[..width - 1] == Digits(v / 36, width - 1);
      DigitOfValue(v % 36);
    }
  }

  lemma {:induction false} LastDigit(high: nat, low: nat, width: nat)
    requires low < 36
    ensures Digits(36 * high + low, width + 1) == Digits(high, width) + [ALPHABET[low]]
  {
    var v := 36 * high + low;
    assert v / 36 == high && v % 36 == low;
  }

  lemma {:induction false} FromDigitsRoundTrip(s: string)
    requires AllDigits(s)
    ensures FromDigits(s) < Pow36(|s|)
    ensures Digits(FromDigits(s), |s|) == s
  {
    if s != [] {
      var front, last := s[..|s| - 1], s[|s| - 1];
      FromDigitsRoundTrip(front);
      LastDigit(FromDigits(front), DigitValue(last), |front|);
      assert s == front + [last];
    }
  }

  lemma {:induction false} DomainSize()
    ensures Pow36(WIDTH) == DOMAIN_SIZE
  {
    assert Pow36(2) == 36 * Pow36(1) && Pow36(3) == 36 * Pow36(2);
    assert Pow36(4) == 36 * Pow36(3) && Pow36(5) == 36 * Pow36(4);
  }

  /** Fills a six-character buffer from the right, as the encoder does. */
  method Print(value: nat) returns (code: string)
    ensures code == Digits(value, WIDTH)
  {
    var encoded := new char[WIDTH](_ => '0');
    var candidate := value;
    for index := WIDTH downto 0
      invariant Digits(value, WIDTH) == Digits(candidate, index) + encoded[index..]
    {
      ghost var printed := encoded[index + 1..];
      encoded[index] := ALPHABET[candidate % 36];
      assert encoded[index + 1..] == printed;
      assert encoded[index..] == [ALPHABET[candidate % 36]] + printed;
      candidate := candidate / 36;
    }
    code := encoded[..];
  }
}
