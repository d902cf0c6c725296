/** Bytes and their lower-case hexadecimal text, as `hex::encode` and `hex::decode` treat them. */
module Hex {
  import opened Wrappers

  type byte = b: int | 0 <= b < 256
  type Bytes = seq<byte>

  function Digit(n: int): char
    requires 0 <= n < 16
  {
    if n < 10 then ('0' as int + n) as char else ('a' as int + n - 10) as char
  }

  function DigitValue(ch: char): (r: Option<int>)
    ensures r.Some? ==> 0 <= r.value < 16
  {
    if '0' <= ch <= '9' then Some(ch as int - '0' as int)
    else if 'a' <= ch <= 'f' then Some(ch as int - 'a' as int + 10)
    else if 'A' <= ch <= 'F' then Some(ch as int - 'A' as int + 10)
    else None
  }

  function Encode(data: Bytes): string {
    if data == [] then ""
    else [Digit(data[0] / 16), Digit(data[0] % 16)] + Encode(data[1..])
  }

  function Decode(text: string): Option<Bytes> {
    if text == "" then Some([])
    else if |text| < 2 then None
    else
      var rest := Decode(text[2..]);
      var high, low := DigitValue(text[0]), DigitValue(text[1]);
      if rest.Some? && high.Some? && low.Some?
      then Some([16 * high.value + low.value] + rest.value)
      else None
  }

  lemma {:induction false} RoundTrip(data: Bytes)
    ensures Decode(Encode(data)) == Some(data)
  {
    if data != [] {
      RoundTrip(data[1..]);
      DigitRoundTrip(data[0] / 16);
      DigitRoundTrip(data[0] % 16);
      assert Encode(data)[2..] == Encode(data[1..]);
      assert [data[0]] + data[1..] == data;
    }
  }

  lemma DigitRoundTrip(n: int)
    requires 0 <= n < 16
    ensures DigitValue(Digit(n)) == Some(n)
  {
  }

  lemma Injective(a: Bytes, b: Bytes)
    requires Encode(a) == Encode(b)
    ensures a == b
  {
    RoundTrip(a);
    RoundTrip(b);
  }

  /** The text holds hex digits only, two for each byte. */
  lemma {:induction false} EncodeShape(data: Bytes)
    ensures |Encode(data)| == 2 * |data|
    ensures forall i | 0 <= i < |Encode(data)| :: DigitValue(Encode(data)[i]).Some?
  {
    if data != [] {
      EncodeShape(data[1..]);
      DigitRoundTrip(data[0] / 16);
      DigitRoundTrip(data[0] % 16);
    }
  }

  predicate IsHexDigit(ch: char) {
    '0' <= ch <= '9' || 'a' <= ch <= 'f' || 'A' <= ch <= 'F'
  }

  /** Each byte gives its high digit and then its low one. */
  lemma {:induction false} HighDigitFirst(data: Bytes, k: nat)
    requires k < |data|
    ensures |Encode(data)| == 2 * |data|
    ensures Encode(data)[2 * k] == "0123456789abcdef"[data[k] / 16]
    ensures Encode(data)[2 * k + 1] == "0123456789abcdef"[data[k] % 16]
  {
    EncodeShape(data);
    DigitIsHex(data[k] / 16);
    DigitIsHex(data[k] % 16);
    if k > 0 {
      HighDigitFirst(data[1..], k - 1);
      assert Encode(data) == [Digit(data[0] / 16), Digit(data[0] % 16)] + Encode(data[1..]);
    }
  }

  lemma DigitIsHex(n: int)
    requires 0 <= n < 16
    ensures Digit(n) == "0123456789abcdef"[n]
  {
  }

  /** Read are exactly the texts of an even number of digits in either case. */
  lemma {:induction false} DecodeAcceptsExactly(text: string)
    ensures Decode(text).Some? <==> |text| % 2 == 0 && forall i | 0 <= i < |text| :: IsHexDigit(text[i])
  {
    if |text| >= 2 {
      DecodeAcceptsExactly(text[2..]);
      var rest := text[2..];
      assert forall i | 0 <= i < |rest| :: rest[i] == text[i + 2];
      assert forall i | 2 <= i < |text| :: text[i] == rest[i - 2];
    } else if |text| == 1 {
      assert |text| % 2 == 1;
    }
  }

  /** A digit counts the same in either case. */
  lemma CaseDoesNotMatter(n: int)
    requires 10 <= n < 16
    ensures DigitValue(('a' as int + n - 10) as char) == Some(n)
    ensures DigitValue(('A' as int + n - 10) as char) == Some(n)
  {
  }
}
