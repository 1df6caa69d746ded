/** The hexadecimal text form of packet payloads (Base16, section 8 of RFC 4648). */
module Hex {
  import opened Bytes

  function EncodeDigit(v: nat): char
    requires v < 16
  {
    "0123456789abcdef"[v]
  }

  function DecodeDigit(c: char): Option<nat> {
    if '0' <= c <= '9' then Some(c as nat - '0' as nat)
    else if 'a' <= c <= 'f' then Some(c as nat - 'a' as nat + 10)
    else if 'A' <= c <= 'F' then Some(c as nat - 'A' as nat + 10)
    else None
  }

  function Encode(bytes: seq<byte>): (text: string)
    ensures |text| == 2 * |bytes|
  {
    seq(2 * |bytes|, i requires 0 <= i < 2 * |bytes| =>
      EncodeDigit(if i % 2 == 0 then bytes[i / 2] / 16 else bytes[i / 2] % 16))
  }

  /** Decoding fails on an odd length and on any character that is not a digit of either case. */
  function Decode(text: string): (r: Option<seq<byte>>)
    ensures r.Some? ==> |text| == 2 * |r.value|
    decreases |text|
  {
    if text == "" then Some([])
    else if |text| == 1 then None
    else match (DecodeDigit(text[0]), DecodeDigit(text[1]), Decode(text[2..]))
      case (Some(hi), Some(lo), Some(rest)) =>
        assert hi < 16 && lo < 16;
        Some([hi * 16 + lo] + rest)
      case _ => None
  }

  function LowerCase(c: char): char {
    if 'A' <= c <= 'F' then (c as int - 'A' as int + 'a' as int) as char else c
  }

  /** The digits of either case, by their codes. */
  lemma DigitsAre(c: char, v: nat)
    requires v < 16
    ensures DecodeDigit(c) == Some(v) <==>
              || (v < 10 && c as int == 48 + v)
              || (v >= 10 && (c as int == 55 + v || c as int == 87 + v))
    ensures DecodeDigit(c).Some? ==> DecodeDigit(c).value < 16
  {}

  /** The high half of a byte comes first, and letters are of lower case. */
  lemma EncodedByte(bytes: seq<byte>, i: nat)
    requires i < |bytes|
    ensures Encode(bytes)[2 * i] as int == bytes[i] / 16 + if bytes[i] < 160 then 48 else 87
    ensures Encode(bytes)[2 * i + 1] as int == bytes[i] % 16 + if bytes[i] % 16 < 10 then 48 else 87
  {
    assert 2 * i / 2 == i && (2 * i + 1) / 2 == i && 2 * i % 2 == 0 && (2 * i + 1) % 2 == 1;
    DigitCode(bytes[i] / 16);
    DigitCode(bytes[i] % 16);
    hide EncodeDigit;
  }

  lemma DigitCode(v: nat)
    requires v < 16
    ensures EncodeDigit(v) as int == v + if v < 10 then 48 else 87
  {}

  lemma EncodeInverse(v: nat)
    requires v < 16
    ensures DecodeDigit(EncodeDigit(v)) == Some(v)
  {
  }

  lemma EncodeUnfolds(bytes: seq<byte>)
    requires bytes != []
    ensures Encode(bytes) == [EncodeDigit(bytes[0] / 16), EncodeDigit(bytes[0] % 16)] + Encode(bytes[1..])
  {
    forall i | 2 <= i < 2 * |bytes| ensures Encode(bytes)[i] == Encode(bytes[1..])[i - 2] {
      assert (i - 2) / 2 == i / 2 - 1 && (i - 2) % 2 == i % 2;
    }
  }

  lemma DecodePair(hi: nat, lo: nat, text: string, rest: seq<byte>)
    requires hi < 16 && lo < 16 && Decode(text) == Some(rest)
    ensures Decode([EncodeDigit(hi), EncodeDigit(lo)] + text) == Some([hi * 16 + lo] + rest)
  {
    var whole := [EncodeDigit(hi), EncodeDigit(lo)] + text;
    EncodeInverse(hi);
    EncodeInverse(lo);
    hide EncodeDigit, DecodeDigit;
    assert whole[2..] == text;
  }

  lemma DecodeByte(b: byte, text: string, rest: seq<byte>)
    requires Decode(text) == Some(rest)
    ensures Decode([EncodeDigit(b / 16), EncodeDigit(b % 16)] + text) == Some([b] + rest)
  {
    hide *;
    DecodePair(b / 16, b % 16, text, rest);
    assert b / 16 * 16 + b % 16 == b;
  }

  lemma {:induction false} DecodeEncode(bytes: seq<byte>)
    ensures Decode(Encode(bytes)) == Some(bytes)
  {
    if bytes == [] {
      assert Encode([]) == "";
    } else {
      hide *;
      DecodeEncode(bytes[1..]);
      EncodeUnfolds(bytes);
      DecodeByte(bytes[0], Encode(bytes[1..]), bytes[1..]);
      assert bytes == [bytes[0]] + bytes[1..];
    }
  }

  lemma DigitInverse(c: char)
    requires DecodeDigit(c).Some?
    ensures DecodeDigit(c).value < 16 && EncodeDigit(DecodeDigit(c).value) == LowerCase(c)
  {
  }

  /** Encoding gives back any text that decodes, in lower case: distinct lower-case texts carry
      distinct bytes. */
  lemma {:induction false} EncodeDecode(text: string)
    requires Decode(text).Some?
    ensures forall i :: 0 <= i < |text| ==> Encode(Decode(text).value)[i] == LowerCase(text[i])
    decreases |text|
  {
    if text != "" {
      EncodeDecode(text[2..]);
      FirstPair(text);
      var bytes := Decode(text).value;
      hide Encode, Decode, DecodeDigit, EncodeDigit, LowerCase;
      EncodeUnfolds(bytes);
      forall i | 2 <= i < |text| ensures Encode(bytes)[i] == LowerCase(text[i]) {
        assert text[i] == text[2..][i - 2];
      }
    }
  }

  lemma FirstPair(text: string)
    requires text != "" && Decode(text).Some?
    ensures |text| >= 2 && Decode(text[2..]) == Some(Decode(text).value[1..])
    ensures var first := Decode(text).value[0];
            EncodeDigit(first / 16) == LowerCase(text[0]) && EncodeDigit(first % 16) == LowerCase(text[1])
  {
    var bytes := Decode(text).value;
    assert bytes[1..] == Decode(text[2..]).value;
    DigitInverse(text[0]);
    DigitInverse(text[1]);
    hide DecodeDigit, EncodeDigit, LowerCase;
    assert bytes[0] / 16 == DecodeDigit(text[0]).value && bytes[0] % 16 == DecodeDigit(text[1]).value;
  }

  lemma {:induction false} DecodesIff(text: string)
    ensures Decode(text).Some? <==> |text| % 2 == 0 && forall i :: 0 <= i < |text| ==> DecodeDigit(text[i]).Some?
    decreases |text|
  {
    if |text| >= 2 {
      DecodesIff(text[2..]);
      if Decode(text).Some? {
        forall i | 0 <= i < |text| ensures DecodeDigit(text[i]).Some? {
          if i >= 2 { assert text[i] == text[2..][i - 2]; }
        }
      }
    }
  }
}
