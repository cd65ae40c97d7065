/** Hexadecimal text as the Go library writes and reads it: section 8 of RFC 4648, written in
    lower case and read in either case. */
module Hex {
  import opened Options
  import Text

  type Byte = b: int | 0 <= b < 256

  function DigitChar(n: int): char
    requires 0 <= n < 16
  {
    if n < 10 then (('0' as int) + n) as char else (('a' as int) + n - 10) as char
  }

  predicate IsDigit(c: char) {
    '0' <= c <= '9' || 'a' <= c <= 'f' || 'A' <= c <= 'F'
  }

  function DigitValue(c: char): (n: int)
    requires IsDigit(c)
    ensures 0 <= n < 16
  {
    if '0' <= c <= '9' then c as int - '0' as int
    else if 'a' <= c <= 'f' then c as int - 'a' as int + 10
    else c as int - 'A' as int + 10
  }

  function Encode(bytes: seq<Byte>): string {
    if bytes == [] then "" else [DigitChar(bytes[0] / 16), DigitChar(bytes[0] % 16)] + Encode(bytes[1..])
  }

  function Decode(s: string): Option<seq<Byte>> {
    if s == "" then Some([])
    else if |s| == 1 || !IsDigit(s[0]) || !IsDigit(s[1]) then None
    else
      match Decode(s[2..])
      case None => None
      case Some(rest) => Some([DigitValue(s[0]) * 16 + DigitValue(s[1])] + rest)
  }

  /** The digits high and low show the byte. */
  predicate Shows(high: char, low: char, byte: Byte) {
    && high in "0123456789abcdef" && low in "0123456789abcdef"
    && 16 * DigitOf(high) + DigitOf(low) == byte
  }

  lemma ByteShown(byte: Byte)
    ensures Shows(DigitChar(byte / 16), DigitChar(byte % 16), byte)
  {
    DigitShown(byte / 16);
    DigitShown(byte % 16);
    hide DigitChar, DigitOf;
  }

  lemma EncodeSplits(bytes: seq<Byte>, i: nat)
    requires 0 < i < |bytes|
    ensures |Encode(bytes)| == 2 * |bytes| && |Encode(bytes[1..])| == 2 * (|bytes| - 1)
    ensures Encode(bytes)[2 * i] == Encode(bytes[1..])[2 * (i - 1)]
    ensures Encode(bytes)[2 * i + 1] == Encode(bytes[1..])[2 * (i - 1) + 1]
  {
    EncodeLength(bytes[1..]);
  }

  /** Each byte is shown by two lower-case digits, the high one first. */
  lemma {:induction false} EncodeShows(bytes: seq<Byte>, i: nat)
    requires i < |bytes|
    ensures |Encode(bytes)| == 2 * |bytes| && Shows(Encode(bytes)[2 * i], Encode(bytes)[2 * i + 1], bytes[i])
    decreases |bytes|
  {
    EncodeLength(bytes);
    hide Shows;
    if i == 0 {
      ByteShown(bytes[0]);
    } else {
      hide Encode;
      EncodeSplits(bytes, i);
      EncodeShows(bytes[1..], i - 1);
    }
  }

  lemma {:induction false} EncodeLength(bytes: seq<Byte>)
    ensures |Encode(bytes)| == 2 * |bytes|
  {
    if bytes != [] {
      EncodeLength(bytes[1..]);
    }
  }

  /** The position of a digit in the alphabet. */
  function DigitOf(c: char): nat {
    Text.IndexOf("0123456789abcdef", c)
  }

  lemma DigitShown(n: int)
    requires 0 <= n < 16
    ensures DigitChar(n) in "0123456789abcdef" && DigitOf(DigitChar(n)) == n
  {
    var alphabet := "0123456789abcdef";
    assert alphabet[n] == DigitChar(n) && forall i | 0 <= i < n :: alphabet[i] != DigitChar(n);
  }

  lemma {:induction false} DecodeEncode(bytes: seq<Byte>)
    ensures Decode(Encode(bytes)) == Some(bytes)
  {
    if bytes != [] {
      var s := Encode(bytes);
      assert s[2..] == Encode(bytes[1..]);
      DecodeEncode(bytes[1..]);
      assert [bytes[0]] + bytes[1..] == bytes;
    }
  }

  predicate AllDigits(s: string) {
    forall i | 0 <= i < |s| :: IsDigit(s[i])
  }

  lemma AllDigitsSplit(s: string)
    requires 2 <= |s|
    ensures AllDigits(s) <==> IsDigit(s[0]) && IsDigit(s[1]) && AllDigits(s[2..])
  {
    assert forall i | 2 <= i < |s| :: s[i] == s[2..][i - 2];
  }

  lemma DigitRead(c: char)
    requires IsDigit(c)
    ensures DigitChar(DigitValue(c)) == Text.LowerChar(c)
  {
  }

  lemma PairSplits(a: int, b: int)
    requires 0 <= a < 16 && 0 <= b < 16
    ensures (a * 16 + b) / 16 == a && (a * 16 + b) % 16 == b
  {
  }

  lemma EncodeDecodePair(s: string)
    requires 2 <= |s| && IsDigit(s[0]) && IsDigit(s[1]) && Decode(s[2..]).Some?
    requires Encode(Decode(s[2..]).value) == Text.ToLower(s[2..])
    ensures Decode(s).Some? && Encode(Decode(s).value) == Text.ToLower(s)
              && |Decode(s).value| == 1 + |Decode(s[2..]).value|
  {
    hide DigitChar, DigitValue, IsDigit, Text.LowerChar;
    var a, b, rest := DigitValue(s[0]), DigitValue(s[1]), Decode(s[2..]).value;
    DigitRead(s[0]);
    DigitRead(s[1]);
    PairSplits(a, b);
    assert ([a * 16 + b] + rest)[1..] == rest;
    assert Text.ToLower(s) == [Text.LowerChar(s[0]), Text.LowerChar(s[1])] + Text.ToLower(s[2..]);
  }

  /** What decodes is exactly an even number of digits, and it encodes back in lower case. */
  lemma {:induction false} EncodeDecode(s: string)
    ensures Decode(s).Some? <==> |s| % 2 == 0 && AllDigits(s)
    ensures Decode(s).Some? ==> Encode(Decode(s).value) == Text.ToLower(s) && |s| == 2 * |Decode(s).value|
  {
    if 2 <= |s| {
      AllDigitsSplit(s);
      EncodeDecode(s[2..]);
      hide DigitValue, DigitChar, IsDigit, Encode, AllDigits;
      if IsDigit(s[0]) && IsDigit(s[1]) && Decode(s[2..]).Some? {
        EncodeDecodePair(s);
      }
    } else {
      assert Text.ToLower("") == "";
    }
  }
}
