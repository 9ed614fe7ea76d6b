/** Manual pairing codes: the decoder of the 11- and 21-digit numeric form. */
module Pairing {
  import opened Wrappers
  import opened Decimal
  import Verhoeff

  datatype PairingCodeError = QrPayload | BadLength(length: nat) | BadCheckDigit | BadPasscode

  datatype Onboarding = Onboarding(passcode: nat, shortDiscriminator: nat)

  const PASSCODE_LIMIT := 0x800_0000 // 2^27

  const INVALID_PASSCODES: set<nat> :=
    {0, 11111111, 22222222, 33333333, 44444444, 55555555, 66666666, 77777777, 88888888, 99999999,
     12345678, 87654321}

  predicate Permitted(passcode: nat) {
    passcode < PASSCODE_LIMIT && passcode !in INVALID_PASSCODES
  }

  // --- the text in front of the digits ---------------------------------------

  /** Unicode White_Space. */
  predicate IsWhitespace(c: char) {
    var n := c as int;
    || 9 <= n <= 13 || n == 0x20 || n == 0x85 || n == 0xA0 || n == 0x1680
    || 0x2000 <= n <= 0x200A || n == 0x2028 || n == 0x2029 || n == 0x202F || n == 0x205F || n == 0x3000
  }

  function TrimStart(s: string): string {
    if s != [] && IsWhitespace(s[0]) then TrimStart(s[1..]) else s
  }

  function TrimEnd(s: string): string {
    if s != [] && IsWhitespace(s[|s| - 1]) then TrimEnd(s[..|s| - 1]) else s
  }

  function Trim(s: string): string {
    TrimEnd(TrimStart(s))
  }

  /** The text without whitespace and hyphens. */
  function Kept(s: string): string {
    if s == [] then [] else Keep(s[0]) + Kept(s[1..])
  }

  function Keep(c: char): string {
    if IsWhitespace(c) || c == '-' then [] else [c]
  }

  predicate AllDigits(s: string) {
    forall i :: 0 <= i < |s| ==> IsDigit(s[i])
  }

  /** Length in bytes of the UTF-8 form, which the length error reports for stray characters. */
  function Utf8Length(s: string): nat {
    if s == [] then 0
    else
      var n := s[0] as int;
      (if n < 0x80 then 1 else if n < 0x800 then 2 else if n < 0x1_0000 then 3 else 4) + Utf8Length(s[1..])
  }

  // --- decoding ----------------------------------------------------------------

  function Chunk1(code: seq<Digit>): nat requires |code| >= 10 { code[0] }

  function Chunk2(code: seq<Digit>): nat requires |code| >= 10 { Value(code[1..6]) }

  function Chunk3(code: seq<Digit>): nat requires |code| >= 10 { Value(code[6..10]) }

  /** Digit 1 gives two discriminator bits; digits 2-6 the other two and the low 14 bits of
      the passcode; digits 7-10 its high bits. The masks and shifts are remainders and
      multiples of powers of two. */
  function Extract(code: seq<Digit>): Onboarding
    requires |code| >= 10
  {
    Onboarding(
      Chunk3(code) * 0x4000 + Chunk2(code) % 0x4000,
      (Chunk1(code) % 4) * 4 + (Chunk2(code) / 0x4000) % 4)
  }

  function DecodeDigits(code: seq<Digit>): Result<Onboarding, PairingCodeError> {
    var n := |code|;
    if n != 11 && n != 21 then Err(BadLength(n))
    else if Verhoeff.Calculate(code[..n - 1]) != code[n - 1] then Err(BadCheckDigit)
    else
      var o := Extract(code);
      if o.passcode >= PASSCODE_LIMIT || o.passcode in INVALID_PASSCODES then Err(BadPasscode)
      else Ok(o)
  }

  function ParseManualCode(raw: string): Result<Onboarding, PairingCodeError> {
    var trimmed := Trim(raw);
    if "MT:" <= trimmed then Err(QrPayload)
    else if !AllDigits(Kept(trimmed)) then Err(BadLength(Utf8Length(trimmed)))
    else DecodeDigits(Digits(Kept(trimmed)))
  }

  // --- encoding, the reference the decoder is checked against --------------------

  /** Vendor and product ID, present in the long form. */
  datatype ProductId = ProductId(vendor: nat, product: nat)

  function Payload(o: Onboarding, id: Option<ProductId>): seq<Digit>
    requires o.shortDiscriminator < 16
  {
    [o.shortDiscriminator / 4 + (if id.Some? then 4 else 0)]
    + Fixed((o.shortDiscriminator % 4) * 0x4000 + o.passcode % 0x4000, 5)
    + Fixed(o.passcode / 0x4000, 4)
    + (if id.Some? then Fixed(id.value.vendor, 5) + Fixed(id.value.product, 5) else [])
  }

  function Encode(o: Onboarding, id: Option<ProductId>): (code: seq<Digit>)
    requires o.shortDiscriminator < 16
    ensures |code| == (if id.Some? then 21 else 11)
  {
    Payload(o, id) + [Verhoeff.Calculate(Payload(o, id))]
  }

  // --- lemmas about the text ------------------------------------------------------

  lemma {:induction false} KeptWithoutLast(s: string)
    requires s != [] && IsWhitespace(s[|s| - 1])
    ensures Kept(s[..|s| - 1]) == Kept(s)
  {
    if |s| > 1 {
      KeptWithoutLast(s[1..]);
      assert s[..|s| - 1][1..] == s[1..][..|s| - 2];
    }
  }

  lemma {:induction false} KeptTrimStart(s: string)
    ensures Kept(TrimStart(s)) == Kept(s)
  {
    if s != [] && IsWhitespace(s[0]) {
      KeptTrimStart(s[1..]);
    }
  }

  lemma {:induction false} KeptTrimEnd(s: string)
    ensures Kept(TrimEnd(s)) == Kept(s)
  {
    if s != [] && IsWhitespace(s[|s| - 1]) {
      KeptTrimEnd(s[..|s| - 1]);
      KeptWithoutLast(s);
    }
  }

  lemma QrIsNotNumeric(s: string)
    requires "MT:" <= s
    ensures !AllDigits(Kept(s))
  {
    assert s[0] == 'M';
    assert Keep('M') == ['M'];
    assert Kept(s)[0] == 'M';
  }

  /** Whatever separators surround and divide the digits, only the digits decide. */
  lemma OnlyDigitsDecide(raw: string)
    requires AllDigits(Kept(raw))
    ensures ParseManualCode(raw) == DecodeDigits(Digits(Kept(raw)))
  {
    KeptTrimEnd(TrimStart(raw));
    KeptTrimStart(raw);
    if "MT:" <= Trim(raw) { QrIsNotNumeric(Trim(raw)); }
  }

  /** The text between the first and the last character that is not white space. */
  lemma {:induction false} TrimMeans(s: string) returns (i: nat, j: nat)
    ensures i <= j <= |s| && Trim(s) == s[i..j]
    ensures forall k :: 0 <= k < |s| && !(i <= k < j) ==> IsWhitespace(s[k])
    ensures Trim(s) != [] ==> !IsWhitespace(Trim(s)[0]) && !IsWhitespace(Trim(s)[|Trim(s)| - 1])
  {
    hide TrimStart, TrimEnd, IsWhitespace;
    i := TrimStartMeans(s);
    var n := TrimEndMeans(TrimStart(s));
    j := i + n;
    assert s[i..j] == TrimStart(s)[..n];
    forall k | j <= k < |s| ensures IsWhitespace(s[k]) { assert s[k] == TrimStart(s)[k - i]; }
  }

  lemma {:induction false} TrimStartMeans(s: string) returns (i: nat)
    ensures i <= |s| && TrimStart(s) == s[i..] && (i < |s| ==> !IsWhitespace(s[i]))
    ensures forall k :: 0 <= k < i ==> IsWhitespace(s[k])
  {
    hide IsWhitespace;
    i := 0;
    if s != [] && IsWhitespace(s[0]) {
      i := TrimStartMeans(s[1..]);
      i := i + 1;
    }
  }

  lemma {:induction false} TrimEndMeans(s: string) returns (n: nat)
    ensures n <= |s| && TrimEnd(s) == s[..n] && (n > 0 ==> !IsWhitespace(s[n - 1]))
    ensures forall k :: n <= k < |s| ==> IsWhitespace(s[k])
  {
    hide IsWhitespace;
    n := |s|;
    if s != [] && IsWhitespace(s[|s| - 1]) {
      n := TrimEndMeans(s[..|s| - 1]);
    }
  }

  lemma {:induction false} KeptStep(s: string)
    ensures Kept(s) == if s == [] then [] else Keep(s[0]) + Kept(s[1..])
  {
  }

  lemma {:induction false} KeptConcat(a: string, b: string)
    ensures Kept(a + b) == Kept(a) + Kept(b)
  {
    hide Keep, Kept;
    KeptStep(a);
    KeptStep(a + b);
    if a == [] {
      assert a + b == b;
    } else {
      KeptConcat(a[1..], b);
      assert (a + b)[0] == a[0] && (a + b)[1..] == a[1..] + b;
    }
  }

  /** White space and hyphens are dropped, and everything else stays in its place. */
  lemma {:induction false} KeptJoins(a: string, c: char, b: string)
    ensures Kept([]) == []
    ensures Kept(a + [c] + b) == Kept(a) + (if c == '-' || IsWhitespace(c) then [] else [c]) + Kept(b)
  {
    KeptConcat(a + [c], b);
    KeptConcat(a, [c]);
    assert [c][1..] == [];
  }

  /** The 25 characters of Unicode White_Space. */
  lemma WhitespaceExactly(c: char)
    ensures IsWhitespace(c) <==> c as int in {
      0x09, 0x0A, 0x0B, 0x0C, 0x0D, 0x20, 0x85, 0xA0, 0x1680, 0x2000, 0x2001, 0x2002, 0x2003, 0x2004, 0x2005, 0x2006,
      0x2007, 0x2008, 0x2009, 0x200A, 0x2028, 0x2029, 0x202F, 0x205F, 0x3000}
  {
  }

  /** UTF-8: one byte for ASCII, two below U+0800, three in the rest of the basic plane, else four. */
  lemma {:induction false} Utf8LengthJoins(a: string, c: char, b: string)
    ensures Utf8Length([]) == 0
    ensures Utf8Length(a + [c] + b) == Utf8Length(a) + Utf8Length(b)
      + if c as int <= 0x7F then 1 else if c as int <= 0x7FF then 2 else if c as int <= 0xFFFF then 3 else 4
  {
    if a == [] {
      assert (a + [c] + b)[1..] == b;
    } else {
      Utf8LengthJoins(a[1..], c, b);
      assert (a + [c] + b)[1..] == a[1..] + [c] + b;
    }
  }

  /** One byte a character exactly for ASCII text, up to four for others. */
  lemma {:induction false} Utf8LengthMeans(s: string)
    ensures |s| <= Utf8Length(s) <= 4 * |s|
    ensures Utf8Length(s) == |s| <==> forall i :: 0 <= i < |s| ==> s[i] as int < 128
  {
    if s != [] {
      Utf8LengthMeans(s[1..]);
      assert forall i :: 0 < i < |s| ==> s[i] == s[1..][i - 1];
      assert (forall i :: 0 <= i < |s| ==> s[i] as int < 128) ==>
        forall i :: 0 <= i < |s[1..]| ==> s[1..][i] as int < 128;
    }
  }

  // --- main results -----------------------------------------------------------------

  lemma CheckDigitIsValidity(code: seq<Digit>)
    requires |code| > 0
    ensures Verhoeff.Calculate(code[..|code| - 1]) == code[|code| - 1] <==> Verhoeff.IsValid(code)
  {
    assert code == code[..|code| - 1] + [code[|code| - 1]];
    Verhoeff.CheckDigitUnique(code[..|code| - 1], code[|code| - 1]);
  }

  lemma EncodedSlices(o: Onboarding, id: Option<ProductId>)
    requires o.shortDiscriminator < 16
    ensures var code := Encode(o, id);
      && code[0] == o.shortDiscriminator / 4 + (if id.Some? then 4 else 0)
      && code[1..6] == Fixed((o.shortDiscriminator % 4) * 0x4000 + o.passcode % 0x4000, 5)
      && code[6..10] == Fixed(o.passcode / 0x4000, 4)
      && code[..|code| - 1] == Payload(o, id)
  {
  }

  lemma EncodedFields(o: Onboarding, id: Option<ProductId>)
    requires o.shortDiscriminator < 16 && o.passcode < PASSCODE_LIMIT
    ensures var code := Encode(o, id);
      && Chunk1(code) % 4 == o.shortDiscriminator / 4
      && Chunk2(code) == (o.shortDiscriminator % 4) * 0x4000 + o.passcode % 0x4000
      && Chunk3(code) == o.passcode / 0x4000
  {
    EncodedSlices(o, id);
    FieldBounds(o);
    SliceValues(Encode(o, id), (o.shortDiscriminator % 4) * 0x4000 + o.passcode % 0x4000, o.passcode / 0x4000);
  }

  lemma SliceValues(code: seq<Digit>, low: nat, high: nat)
    requires |code| >= 10 && low < 100_000 && high < 10_000
    requires code[1..6] == Fixed(low, 5) && code[6..10] == Fixed(high, 4)
    ensures Chunk2(code) == low && Chunk3(code) == high
  {
    assert Pow10(4) == 10_000 && Pow10(5) == 100_000;
    ValueOfFixed(low, 5);
    ValueOfFixed(high, 4);
  }

  lemma JoinedField(a: nat, r: nat)
    requires a < 4 && r < 0x4000
    ensures (a * 0x4000 + r) % 0x4000 == r && ((a * 0x4000 + r) / 0x4000) % 4 == a
  {
  }

  lemma FieldBounds(o: Onboarding)
    requires o.shortDiscriminator < 16
    ensures (o.shortDiscriminator / 4) % 4 == o.shortDiscriminator / 4
    ensures (o.shortDiscriminator / 4 + 4) % 4 == o.shortDiscriminator / 4
    ensures (o.shortDiscriminator % 4) * 0x4000 + o.passcode % 0x4000 < 0x1_0000
    ensures o.passcode < PASSCODE_LIMIT ==> o.passcode / 0x4000 < 8192
  {
  }

  lemma ExtractInvertsEncode(o: Onboarding, id: Option<ProductId>)
    requires o.shortDiscriminator < 16 && o.passcode < PASSCODE_LIMIT
    ensures Extract(Encode(o, id)) == o
  {
    EncodedFields(o, id);
    JoinedField(o.shortDiscriminator % 4, o.passcode % 0x4000);
  }

  lemma EncodedDecodes(o: Onboarding, id: Option<ProductId>)
    requires o.shortDiscriminator < 16 && Permitted(o.passcode)
    ensures DecodeDigits(Encode(o, id)) == Ok(o)
  {
    ExtractInvertsEncode(o, id);
    EncodedSlices(o, id);
  }

  /** Decoding inverts encoding for every discriminator and permitted passcode, in the short
      and the long form, whatever whitespace and hyphens are added to the digits. */
  lemma DecodeInvertsEncode(o: Onboarding, id: Option<ProductId>, raw: string)
    requires o.shortDiscriminator < 16 && Permitted(o.passcode)
    requires AllDigits(Kept(raw)) && Digits(Kept(raw)) == Encode(o, id)
    ensures ParseManualCode(raw) == Ok(o)
  {
    OnlyDigitsDecide(raw);
    EncodedDecodes(o, id);
  }

  /** A decoded code is one the encoder could have issued, up to the bits the masks drop:
      re-encoding the result gives a code that decodes the same and agrees with the original
      on every bit the decoder looks at. */
  lemma AcceptedMeansEncodable(code: seq<Digit>, o: Onboarding)
    requires DecodeDigits(code) == Ok(o)
    ensures Verhoeff.IsValid(code) && Permitted(o.passcode) && o.shortDiscriminator < 16
    ensures var canonical := Encode(o, None);
      && DecodeDigits(canonical) == Ok(o)
      && Chunk1(code) % 4 == Chunk1(canonical) % 4
      && Chunk2(code) % 0x1_0000 == Chunk2(canonical)
      && Chunk3(code) == Chunk3(canonical)
  {
    hide *;
    DecodedIsExtracted(code, o);
    CheckDigitIsValidity(code);
    EncodedDecodes(o, None);
    ExtractInvertsEncode(o, None);
    SamePairExactly(code, Encode(o, None));
    CanonicalSmall(o);
  }

  lemma SplitChunk2(n: nat)
    ensures n % 0x1_0000 == (n / 0x4000) % 4 * 0x4000 + n % 0x4000
  {
    var q, r := n / 0x4000, n % 0x4000;
    var q', r' := q / 4, q % 4;
    assert n == q' * 0x1_0000 + (r' * 0x4000 + r);
  }

  lemma CanonicalSmall(o: Onboarding)
    requires o.shortDiscriminator < 16 && o.passcode < PASSCODE_LIMIT
    ensures Chunk2(Encode(o, None)) % 0x1_0000 == Chunk2(Encode(o, None))
  {
    hide Encode, Chunk2;
    EncodedFields(o, None);
    FieldBounds(o);
  }

  lemma DecodedIsExtracted(code: seq<Digit>, o: Onboarding)
    requires DecodeDigits(code) == Ok(o)
    ensures |code| >= 11 && Extract(code) == o && o.shortDiscriminator < 16
    ensures Permitted(o.passcode) && o.passcode < PASSCODE_LIMIT
    ensures Verhoeff.Calculate(code[..|code| - 1]) == code[|code| - 1]
  {
  }

  /** The forbidden passcodes: zero, one digit eight times, and the two runs. */
  predicate Trivial(passcode: nat) {
    || passcode == 0 || passcode == 12345678 || passcode == 87654321
    || (passcode % 11111111 == 0 && 1 <= passcode / 11111111 <= 9)
  }

  lemma ForbiddenExactly(passcode: nat)
    ensures passcode in INVALID_PASSCODES <==> Trivial(passcode)
  {
  }

  /** What the decoder answers, for every text, in terms of the digits themselves: the check digit
      fits, digits 7-10 stay below 8192, and the passcode is not a forbidden one; otherwise the
      error that says which. */
  lemma {:induction false} ParsedExactly(raw: string)
    ensures "MT:" <= Trim(raw) ==> ParseManualCode(raw) == Err(QrPayload)
    ensures !("MT:" <= Trim(raw)) && !AllDigits(Kept(raw)) ==>
      ParseManualCode(raw) == Err(BadLength(Utf8Length(Trim(raw))))
    ensures AllDigits(Kept(raw)) && |Kept(raw)| != 11 && |Kept(raw)| != 21 ==>
      ParseManualCode(raw) == Err(BadLength(|Kept(raw)|))
    ensures AllDigits(Kept(raw)) && (|Kept(raw)| == 11 || |Kept(raw)| == 21) ==>
      var code := Digits(Kept(raw));
      var d: seq<int> := code;
      var low := d[1] * 10_000 + d[2] * 1_000 + d[3] * 100 + d[4] * 10 + d[5];
      var high := d[6] * 1_000 + d[7] * 100 + d[8] * 10 + d[9];
      var passcode := high * 16_384 + low % 16_384;
      ParseManualCode(raw) ==
        if !Verhoeff.IsValid(code) then Err(BadCheckDigit)
        else if high >= 8_192 || Trivial(passcode) then Err(BadPasscode)
        else Ok(Onboarding(passcode, d[0] % 4 * 4 + low / 16_384 % 4))
  {
    hide Kept, TrimStart, TrimEnd, Value, Verhoeff.IsValid, Verhoeff.Calculate, Extract, Trivial, Utf8Length;
    KeptTrimEnd(TrimStart(raw));
    KeptTrimStart(raw);
    if AllDigits(Kept(raw)) {
      OnlyDigitsDecide(raw);
      if |Kept(raw)| == 11 || |Kept(raw)| == 21 { DecodedExactly(Digits(Kept(raw))); }
      if "MT:" <= Trim(raw) { QrIsNotNumeric(Trim(raw)); }
    }
  }

  lemma {:induction false} DecodedExactly(code: seq<Digit>)
    requires |code| == 11 || |code| == 21
    ensures var d: seq<int> := code;
      var low := d[1] * 10_000 + d[2] * 1_000 + d[3] * 100 + d[4] * 10 + d[5];
      var high := d[6] * 1_000 + d[7] * 100 + d[8] * 10 + d[9];
      var passcode := high * 16_384 + low % 16_384;
      DecodeDigits(code) ==
        if !Verhoeff.IsValid(code) then Err(BadCheckDigit)
        else if high >= 8_192 || Trivial(passcode) then Err(BadPasscode)
        else Ok(Onboarding(passcode, d[0] % 4 * 4 + low / 16_384 % 4))
  {
    hide Value, Verhoeff.IsValid, Verhoeff.Calculate, Trivial;
    CheckDigitIsValidity(code);
    FiveDigits(code[1..6]);
    FourDigits(code[6..10]);
    BoundRejectsExactly(code);
    ForbiddenExactly(Extract(code).passcode);
  }

  lemma {:induction false} ValueStep(ds: seq<Digit>, d: Digit)
    ensures Value([]) == 0 && Value(ds + [d]) == Value(ds) * 10 + d
  {
    assert (ds + [d])[..|ds|] == ds;
  }

  lemma {:induction false} FourDigits(ds: seq<Digit>)
    requires |ds| == 4
    ensures var d: seq<int> := ds; Value(ds) == d[0] * 1_000 + d[1] * 100 + d[2] * 10 + d[3]
  {
    hide Value;
    assert ds == [] + [ds[0]] + [ds[1]] + [ds[2]] + [ds[3]];
    ValueStep([], ds[0]);
    ValueStep([] + [ds[0]], ds[1]);
    ValueStep([] + [ds[0]] + [ds[1]], ds[2]);
    ValueStep([] + [ds[0]] + [ds[1]] + [ds[2]], ds[3]);
  }

  lemma {:induction false} FiveDigits(ds: seq<Digit>)
    requires |ds| == 5
    ensures var d: seq<int> := ds; Value(ds) == d[0] * 10_000 + d[1] * 1_000 + d[2] * 100 + d[3] * 10 + d[4]
  {
    hide Value;
    assert ds == ds[..4] + [ds[4]];
    FourDigits(ds[..4]);
    ValueStep(ds[..4], ds[4]);
  }

  /** Two codes carry the same raw pair exactly when the unmasked bits agree: the decoder is
      not injective, and this is all it forgets. */
  lemma SamePairExactly(code: seq<Digit>, code': seq<Digit>)
    requires |code| >= 10 && |code'| >= 10
    ensures Extract(code) == Extract(code') <==>
      && Chunk1(code) % 4 == Chunk1(code') % 4
      && Chunk2(code) % 0x1_0000 == Chunk2(code') % 0x1_0000
      && Chunk3(code) == Chunk3(code')
  {
    SplitChunk2(Chunk2(code));
    SplitChunk2(Chunk2(code'));
  }

  /** The code with digit 1 moved by 4, which keeps the two bits the decoder reads of it, and a check
      digit to match. */
  function Twin(code: seq<Digit>): seq<Digit>
    requires |code| >= 11
  {
    var payload := code[..|code| - 1][0 := if code[0] < 6 then code[0] + 4 else code[0] - 4];
    payload + [Verhoeff.Calculate(payload)]
  }

  /** Every accepted code has a twin: another code of its length, with a right check digit too, that
      gives the same passcode and discriminator. */
  lemma TwinDecodes(code: seq<Digit>)
    requires DecodeDigits(code).Ok?
    ensures |code| >= 11 && Twin(code) != code && |Twin(code)| == |code|
    ensures DecodeDigits(Twin(code)) == DecodeDigits(code)
  {
    hide Verhoeff.Calculate, Extract, Value;
    var twin, n := Twin(code), |code|;
    assert twin[0] != code[0] && twin[0] % 4 == code[0] % 4;
    assert twin[1..6] == code[1..6] && twin[6..10] == code[6..10];
    SamePairExactly(code, twin);
    assert twin[..n - 1] == code[..n - 1][0 := twin[0]];
  }

  /** The 27-bit bound rejects exactly the codes whose digits 7-10 reach 8192. */
  lemma BoundRejectsExactly(code: seq<Digit>)
    requires |code| >= 10
    ensures Extract(code).passcode >= PASSCODE_LIMIT <==> Chunk3(code) >= 8192
  {
    assert Chunk2(code) % 0x4000 < 0x4000;
  }

  /** A typing mistake in one digit of a good code, the check digit included, is reported. */
  lemma SubstitutionRejected(raw: string, raw': string, k: nat, d: Digit)
    requires AllDigits(Kept(raw)) && AllDigits(Kept(raw'))
    requires ParseManualCode(raw).Ok? && k < |Kept(raw)| && d != Digits(Kept(raw))[k]
    requires Digits(Kept(raw')) == Digits(Kept(raw))[k := d]
    ensures ParseManualCode(raw') == Err(BadCheckDigit)
  {
    OnlyDigitsDecide(raw);
    OnlyDigitsDecide(raw');
    var code := Digits(Kept(raw));
    CheckDigitIsValidity(code);
    CheckDigitIsValidity(code[k := d]);
    Verhoeff.SubstitutionDetected(code, k, d);
  }

  /** So is a swap of two neighbouring unequal digits. */
  lemma SwapRejected(raw: string, raw': string, k: nat)
    requires AllDigits(Kept(raw)) && AllDigits(Kept(raw'))
    requires ParseManualCode(raw).Ok? && k + 1 < |Kept(raw)|
    requires Digits(Kept(raw))[k] != Digits(Kept(raw))[k + 1]
    requires Digits(Kept(raw')) == Verhoeff.Swapped(Digits(Kept(raw)), k)
    ensures ParseManualCode(raw') == Err(BadCheckDigit)
  {
    OnlyDigitsDecide(raw);
    OnlyDigitsDecide(raw');
    var code := Digits(Kept(raw));
    CheckDigitIsValidity(code);
    CheckDigitIsValidity(Verhoeff.Swapped(code, k));
    Verhoeff.SwapDetected(code, k);
  }

  lemma {:induction false} ExamplePayload()
    ensures Payload(Onboarding(20202021, 15), None) == [3, 4, 9, 7, 0, 1, 1, 2, 3, 3]
  {
    hide Fixed;
    ExampleDigits();
  }

  lemma {:induction false} ExampleDigits()
    ensures Fixed(49701, 5) == [4, 9, 7, 0, 1] && Fixed(1233, 4) == [1, 2, 3, 3]
  {
  }

  lemma {:induction false} ExampleEncodes()
    ensures Encode(Onboarding(20202021, 15), None) == [3, 4, 9, 7, 0, 1, 1, 2, 3, 3, 2]
  {
    hide Verhoeff.Calculate, Payload;
    Verhoeff.ExampleCheckDigit();
    ExamplePayload();
  }

  /** The published code 3497-011-2332, however it is spaced, is passcode 20202021 with short
      discriminator 15. */
  lemma {:induction false} PublishedCode(raw: string)
    requires Kept(raw) == "34970112332"
    ensures ParseManualCode(raw) == Ok(Onboarding(20202021, 15))
  {
    hide *;
    ExampleEncodes();
    PublishedDigits(raw);
    DecodeInvertsEncode(Onboarding(20202021, 15), None, raw);
  }

  lemma {:induction false} PublishedDigits(raw: string)
    requires Kept(raw) == "34970112332"
    ensures AllDigits(Kept(raw)) && Digits(Kept(raw)) == [3, 4, 9, 7, 0, 1, 1, 2, 3, 3, 2]
    ensures Permitted(20202021)
  {
  }
}
