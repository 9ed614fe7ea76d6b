/** The hexadecimal form in which the root key is stored. */
module Hex {
  import opened Wrappers

  type Byte = b: int | 0 <= b < 256

  datatype HexError = OddLength | BadHexDigit

  predicate IsHexDigit(c: char) {
    '0' <= c <= '9' || 'a' <= c <= 'f' || 'A' <= c <= 'F'
  }

  predicate IsLowerHex(c: char) {
    '0' <= c <= '9' || 'a' <= c <= 'f'
  }

  function DigitChar(n: int): (c: char)
    requires 0 <= n < 16
    ensures IsLowerHex(c) && DigitValue(c) == n
  {
    if n < 10 then ('0' as int + n) as char else ('a' as int + (n - 10)) as char
  }

  function DigitValue(c: char): (n: int)
    requires IsHexDigit(c)
    ensures 0 <= n < 16
  {
    if c <= '9' then c as int - '0' as int
    else if c <= 'F' then c as int - 'A' as int + 10
    else c as int - 'a' as int + 10
  }

  function Encode(bytes: seq<Byte>): (s: string)
    ensures |s| == 2 * |bytes|
    ensures forall i :: 0 <= i < |s| ==> IsLowerHex(s[i])
  {
    if bytes == [] then []
    else [DigitChar(bytes[0] / 16), DigitChar(bytes[0] % 16)] + Encode(bytes[1..])
  }

  /** `u8::from_str_radix` on a two-character slice: two digits, or a plus sign and one. */
  function ParsePair(a: char, b: char): Option<Byte> {
    if !IsHexDigit(b) then None
    else if a == '+' then Some(DigitValue(b))
    else if IsHexDigit(a) then Some(DigitValue(a) * 16 + DigitValue(b))
    else None
  }

  function DecodePairs(hex: string): Result<seq<Byte>, HexError>
    requires |hex| % 2 == 0
  {
    if hex == [] then Ok([])
    else
      match ParsePair(hex[0], hex[1])
      case None => Err(BadHexDigit)
      case Some(b) =>
        match DecodePairs(hex[2..])
        case Err(e) => Err(e)
        case Ok(rest) => Ok([b] + rest)
  }

  function Decode(hex: string): Result<seq<Byte>, HexError> {
    if |hex| % 2 != 0 then Err(OddLength) else DecodePairs(hex)
  }

  /** The stored root key reloads unchanged. */
  lemma {:induction false} DecodeInvertsEncode(bytes: seq<Byte>)
    ensures Decode(Encode(bytes)) == Ok(bytes)
  {
    if bytes != [] {
      DecodeInvertsEncode(bytes[1..]);
      assert Encode(bytes)[2..] == Encode(bytes[1..]);
      assert bytes == [bytes[0]] + bytes[1..];
    }
  }

  /** A text that decodes encodes back to itself exactly when it is lowercase hexadecimal;
      uppercase digits and the accepted plus sign are what does not survive. */
  lemma {:induction false} EncodeInvertsDecodeExactly(hex: string)
    requires Decode(hex).Ok?
    ensures Encode(Decode(hex).value) == hex <==> forall i :: 0 <= i < |hex| ==> IsLowerHex(hex[i])
  {
    if hex != [] {
      var b, rest := ParsePair(hex[0], hex[1]).value, DecodePairs(hex[2..]).value;
      EncodeInvertsDecodeExactly(hex[2..]);
      assert hex == [hex[0], hex[1]] + hex[2..];
      assert Decode(hex).value == [b] + rest && ([b] + rest)[1..] == rest;
      var text := Encode([b] + rest);
      assert text == [DigitChar(b / 16), DigitChar(b % 16)] + Encode(rest);
      PairSurvives(hex[0], hex[1]);
      assert text == hex ==> text[0] == hex[0] && text[1] == hex[1] && text[2..] == hex[2..];
      assert text[2..] == Encode(rest);
    }
  }

  lemma PairSurvives(a: char, b: char)
    requires ParsePair(a, b).Some?
    ensures var n := ParsePair(a, b).value;
      DigitChar(n / 16) == a && DigitChar(n % 16) == b <==> IsLowerHex(a) && IsLowerHex(b)
  {
  }

  /** Both cases of a digit stand for its value. */
  lemma DigitValues(n: nat)
    requires n < 16
    ensures IsHexDigit("0123456789abcdef"[n]) && DigitValue("0123456789abcdef"[n]) == n
    ensures IsHexDigit("0123456789ABCDEF"[n]) && DigitValue("0123456789ABCDEF"[n]) == n
  {
  }

  lemma IsHexDigitExactly(c: char)
    ensures IsHexDigit(c) <==> c in "0123456789abcdefABCDEF"
  {
    var digits := "0123456789abcdefABCDEF";
    if '0' <= c <= '9' { assert digits[c as int - '0' as int] == c; }
    if 'a' <= c <= 'f' { assert digits[c as int - 'a' as int + 10] == c; }
    if 'A' <= c <= 'F' { assert digits[c as int - 'A' as int + 16] == c; }
  }

  /** Exactly these texts decode, two characters to a byte: the second of a pair is a hexadecimal
      digit, the first one too or a plus sign. */
  lemma {:induction false} DecodesExactly(hex: string)
    ensures Decode(hex).Ok? <==>
      |hex| % 2 == 0 && forall i :: 0 <= i < |hex| ==> IsHexDigit(hex[i]) || (i % 2 == 0 && hex[i] == '+')
    ensures |hex| % 2 != 0 ==> Decode(hex) == Err(OddLength)
    ensures |hex| % 2 == 0 && Decode(hex).Err? ==> Decode(hex) == Err(BadHexDigit)
    ensures Decode(hex).Ok? ==> |Decode(hex).value| * 2 == |hex|
  {
    if |hex| % 2 == 0 && hex != [] {
      DecodesExactly(hex[2..]);
      assert forall i :: 0 <= i < |hex| - 2 ==> hex[2..][i] == hex[i + 2];
      if Decode(hex).Ok? {
        forall i | 0 <= i < |hex| ensures IsHexDigit(hex[i]) || (i % 2 == 0 && hex[i] == '+') {
          if i >= 2 { assert hex[i] == hex[2..][i - 2]; }
        }
      }
    }
  }

  /** The value of each byte. */
  lemma {:induction false} DecodedBytes(hex: string, i: nat)
    requires Decode(hex).Ok? && i < |Decode(hex).value|
    ensures 2 * i + 1 < |hex| && IsHexDigit(hex[2 * i + 1])
    ensures hex[2 * i] == '+' || IsHexDigit(hex[2 * i])
    ensures Decode(hex).value[i] ==
      DigitValue(hex[2 * i + 1]) + 16 * if hex[2 * i] == '+' then 0 else DigitValue(hex[2 * i])
  {
    if i > 0 {
      DecodedBytes(hex[2..], i - 1);
    }
  }

  /** Every even-length text of hexadecimal digits decodes. */
  lemma {:induction false} HexDigitsDecode(hex: string)
    requires |hex| % 2 == 0 && forall i :: 0 <= i < |hex| ==> IsHexDigit(hex[i])
    ensures Decode(hex).Ok? && |Decode(hex).value| == |hex| / 2
  {
    if hex != [] {
      HexDigitsDecode(hex[2..]);
    }
  }
}
