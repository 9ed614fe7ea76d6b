/** Matter-epoch time, the saturating comparison of a device clock with the host, and the
    read-back verification built on it. Machine integers are ranges of `int`. */
module MatterTime {
  import opened Wrappers

  const TWO_63 := 0x8000_0000_0000_0000
  const TWO_64 := 2 * TWO_63

  type u64 = x: int | 0 <= x < TWO_64
  type i64 = x: int | -TWO_63 <= x < TWO_63
  type i128 = x: int | -TWO_63 * TWO_64 <= x < TWO_63 * TWO_64

  /** An instant on the host: nanoseconds since the Unix epoch. */
  type Timestamp = int

  const MATTER_EPOCH_UNIX_SECONDS: i64 := 946_684_800
  const MATTER_EPOCH_UNIX_MICROS: i64 := MATTER_EPOCH_UNIX_SECONDS * 1_000_000
  const EPOCH_SHIFT_DETECTION_WINDOW_MICROS: i64 := 7 * 86_400 * 1_000_000
  const VERIFY_TOLERANCE_MICROS: i64 := 5_000_000

  function Abs(x: int): nat {
    if x < 0 then -x else x
  }

  /** Whole microseconds since the Unix epoch, dropping the rest toward zero. */
  function AsMicrosecond(at: Timestamp): int {
    if at >= 0 then at / 1_000 else -(-at / 1_000)
  }

  /** Microseconds since 2000; earlier host clocks clamp to 0. */
  function FromTimestamp(at: Timestamp): nat {
    var micros := AsMicrosecond(at) - MATTER_EPOCH_UNIX_MICROS;
    if micros < 0 then 0 else micros
  }

  /** The instant a count of Matter microseconds stands for. */
  function InstantOf(micros: int): Timestamp {
    (micros + MATTER_EPOCH_UNIX_MICROS) * 1_000
  }

  const MATTER_EPOCH: Timestamp := InstantOf(0)

  function Clamp(x: i128): i64 {
    if x < -TWO_63 then -TWO_63 else if x >= TWO_63 then TWO_63 - 1 else x
  }

  function DeltaMicros(a: u64, b: u64): i64 {
    Clamp(a - b)
  }

  function SaturatingSub(a: i64, b: i64): i64 {
    if a - b < -TWO_63 then -TWO_63 else if a - b >= TWO_63 then TWO_63 - 1 else a - b
  }

  function UnsignedAbs(x: i64): u64 {
    var n: int := x;
    if n < 0 then -n else n
  }

  datatype ClockAssessment =
    | Unset
    | Offset(deltaMicros: i64, epochShifted: bool)
  {
    function EffectiveDeltaMicros(): Option<i64> {
      match this
      case Unset => None
      case Offset(delta, shifted) =>
        Some(if shifted then SaturatingSub(delta, MATTER_EPOCH_UNIX_MICROS) else delta)
    }
  }

  function Compare(device: Option<u64>, host: u64): ClockAssessment {
    match device
    case None => Unset
    case Some(d) =>
      var delta := DeltaMicros(d, host);
      var shiftError := SaturatingSub(delta, MATTER_EPOCH_UNIX_MICROS);
      Offset(delta, UnsignedAbs(shiftError) <= EPOCH_SHIFT_DETECTION_WINDOW_MICROS)
  }

  /** The read-back test of a sync: is the device within tolerance of what was written? */
  predicate Verified(after: Option<u64>, written: u64) {
    match Compare(after, written).EffectiveDeltaMicros()
    case None => false
    case Some(d) => UnsignedAbs(d) <= VERIFY_TOLERANCE_MICROS
  }

  // --- where the epoch lies ------------------------------------------------------

  predicate IsLeap(year: int) {
    year % 4 == 0 && (year % 100 != 0 || year % 400 == 0)
  }

  /** Days from the first of January of one year to that of another. */
  ghost function DaysBetween(start: int, end: int): nat
    requires start <= end
    decreases end - start
  {
    if start == end then 0 else (if IsLeap(start) then 366 else 365) + DaysBetween(start + 1, end)
  }

  lemma {:induction false} NextYear(start: int, end: int)
    requires start < end
    ensures DaysBetween(start, end) == (if IsLeap(start) then 366 else 365) + DaysBetween(start + 1, end)
    ensures DaysBetween(end, end) == 0
  {
  }

  /** Between 1901 and 2096, three common years and a leap year at a time. */
  lemma {:induction false} FourYears(start: int, end: int, cycles: nat)
    requires start % 4 == 1 && end == start + 4 * cycles && 1900 < start && end <= 2097
    ensures DaysBetween(start, end) == 1461 * cycles
    decreases cycles
  {
    hide DaysBetween, IsLeap;
    if cycles == 0 {
      NextYear(end - 1, end);
    } else {
      FourYears(start + 4, end, cycles - 1);
      LeapYears(start);
      NextYear(start, end);
      NextYear(start + 1, end);
      NextYear(start + 2, end);
      NextYear(start + 3, end);
    }
  }

  lemma LeapYears(year: int)
    requires year % 4 == 1 && 1900 < year <= 2093
    ensures !IsLeap(year) && !IsLeap(year + 1) && !IsLeap(year + 2) && IsLeap(year + 3)
  {
    assert (year + 3) % 100 == 0 ==> year + 3 == 2000;
  }

  lemma {:induction false} ThreeYears(start: int, end: int)
    requires start + 3 <= end
    ensures DaysBetween(start, end) == DaysBetween(start + 3, end) + 1095
      + (if IsLeap(start) then 1 else 0) + (if IsLeap(start + 1) then 1 else 0) + (if IsLeap(start + 2) then 1 else 0)
  {
    hide DaysBetween, IsLeap;
    NextYear(start, end);
    NextYear(start + 1, end);
    NextYear(start + 2, end);
  }

  lemma {:induction false} DaysAdd(a: int, b: int, c: int)
    requires a <= b <= c
    ensures DaysBetween(a, c) == DaysBetween(a, b) + DaysBetween(b, c)
    decreases b - a
  {
    hide IsLeap;
    if a < b {
      DaysAdd(a + 1, b, c);
    }
  }

  /** The Matter epoch is the first of January 2000, counted in days from the Unix epoch. */
  lemma {:induction false} EpochIsCounted()
    ensures MATTER_EPOCH_UNIX_SECONDS as int == DaysBetween(1970, 2000) * 86_400
    ensures MATTER_EPOCH == DaysBetween(1970, 2000) * 86_400 * 1_000_000_000
  {
    hide DaysBetween;
    FourYears(1973, 1997, 6);
    DaysAdd(1973, 1997, 2000);
    ThreeYears(1970, 2000);
    ThreeYears(1997, 2000);
    NextYear(1999, 2000);
    assert DaysBetween(1970, 2000) == 10_957;
  }

  // --- main results ------------------------------------------------------------

  /** Conversion is exact on instants of whole microseconds from 2000 on, and clamps before. */
  lemma FromTimestampMeaning(at: Timestamp)
    ensures at < MATTER_EPOCH ==> FromTimestamp(at) == 0
    ensures at >= MATTER_EPOCH ==> InstantOf(FromTimestamp(at)) <= at < InstantOf(FromTimestamp(at) + 1)
    ensures at >= MATTER_EPOCH && at % 1_000 == 0 ==> InstantOf(FromTimestamp(at)) == at
  {
    assert at >= 0 ==> at == 1_000 * (at / 1_000) + at % 1_000;
    assert MATTER_EPOCH == 946_684_800_000_000_000;
    if at < 0 {
      assert -at / 1_000 >= 0;
    } else if at < MATTER_EPOCH {
      assert at / 1_000 < 946_684_800_000_000;
    }
  }

  /** Whole microseconds, toward zero on both sides of 1970. */
  lemma AsMicrosecondTruncates(at: Timestamp)
    ensures at >= 0 ==> AsMicrosecond(at) * 1_000 <= at < (AsMicrosecond(at) + 1) * 1_000
    ensures at <= 0 ==> (AsMicrosecond(at) - 1) * 1_000 < at <= AsMicrosecond(at) * 1_000
  {
    assert at >= 0 ==> at == 1_000 * (at / 1_000) + at % 1_000;
    assert at < 0 ==> -at == 1_000 * (-at / 1_000) + -at % 1_000;
  }

  /** Signed 64-bit subtraction, stopped at the ends of the range. */
  lemma SaturatingSubExact(a: i64, b: i64)
    ensures var x, y: int := a, b;
      SaturatingSub(a, b) == if x - y < -9_223_372_036_854_775_808 then -9_223_372_036_854_775_808
                             else if x - y > 9_223_372_036_854_775_807 then 9_223_372_036_854_775_807
                             else x - y
  {
  }

  /** Saturation never changes a verdict: for every value a device can report and every value
      that can be written, verification accepts exactly when the mathematical difference is
      within the tolerance of zero or of the Unix/Matter epoch distance, and never both. */
  lemma VerificationExact(device: u64, written: u64)
    ensures var difference := device - written;
      Verified(Some(device), written) <==>
        || -5_000_000 <= difference <= 5_000_000
        || -5_000_000 <= difference - 946_684_800_000_000 <= 5_000_000
    ensures !(-5_000_000 <= device - written <= 5_000_000
              && -5_000_000 <= device - written - 946_684_800_000_000 <= 5_000_000)
    ensures !Verified(None, written)
  {
    var delta := DeltaMicros(device, written);
    assert Compare(Some(device), written).deltaMicros == delta;
  }

  /** The epoch fold is decided on the true difference too, within seven days, and folding yields the
      true error: a device flagged as shifted is reported with exactly the epoch distance taken out,
      any other device with its difference clamped to 64 bits. */
  lemma AssessmentExact(device: u64, host: u64)
    ensures var a, difference := Compare(Some(device), host), device - host;
      && (a.epochShifted <==> -604_800_000_000 <= difference - 946_684_800_000_000 <= 604_800_000_000)
      && a.EffectiveDeltaMicros() == Some(
           if a.epochShifted then difference - 946_684_800_000_000
           else if difference < -9_223_372_036_854_775_808 then -9_223_372_036_854_775_808
           else if difference > 9_223_372_036_854_775_807 then 9_223_372_036_854_775_807
           else difference)
    ensures Compare(None, host) == Unset && Unset.EffectiveDeltaMicros() == None
  {
    var delta := DeltaMicros(device, host);
    assert Compare(Some(device), host).deltaMicros == delta;
  }
}
