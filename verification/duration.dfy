/** The compact duration text of a clock error, and a reader for that notation. */
module CompactDuration {
  import opened Wrappers
  import opened Decimal

  const MILLI := 1_000
  const SECOND := 1_000_000
  const MINUTE := 60_000_000
  const HOUR := 3_600_000_000
  const DAY := 86_400_000_000

  datatype Unit = Days | Hours | Minutes | Seconds
  {
    function Letter(): char {
      match this case Days => 'd' case Hours => 'h' case Minutes => 'm' case Seconds => 's'
    }

    function Times(n: nat): nat {
      match this case Days => n * DAY case Hours => n * HOUR case Minutes => n * MINUTE case Seconds => n * SECOND
    }
  }

  /** One component of a long duration, `{n}{unit}`. */
  datatype Part = Part(n: nat, unit: Unit)
  {
    function Show(): string {
      Text(n) + [unit.Letter()]
    }
  }

  // --- display -----------------------------------------------------------------

  /** A zero component is not shown. */
  function Component(n: nat, unit: Unit): seq<Part> {
    if n > 0 then [Part(n, unit)] else []
  }

  function Join(parts: seq<Part>): string {
    if parts == [] then []
    else if |parts| == 1 then parts[0].Show()
    else parts[0].Show() + (" " + Join(parts[1..]))
  }

  function Parts(total: nat): seq<Part> {
    var days := total / 86_400;
    Component(days, Days) + Component(total % 86_400 / 3_600, Hours) + Component(total % 3_600 / 60, Minutes)
    + (if days == 0 then Component(total % 60, Seconds) else [])
  }

  function Display(micros: nat): string {
    if micros < MILLI then Text(micros) + "us"
    else if micros < SECOND then Text(micros / MILLI) + "ms"
    else if micros / SECOND < 60 then
      var tenths := micros % SECOND / 100_000;
      if tenths == 0 then Text(micros / SECOND) + "s"
      else Text(micros / SECOND) + "." + Text(tenths) + "s"
    else Join(Parts(micros / SECOND))
  }

  /** The value the text stands for: the input down to the displayed unit. */
  function RoundedDown(micros: nat): nat {
    var unit :=
      if micros < MILLI then 1
      else if micros < SECOND then MILLI
      else if micros < MINUTE then 100_000
      else if micros < DAY then SECOND
      else MINUTE;
    micros - micros % unit
  }

  // --- reading the notation back --------------------------------------------------

  function UnitOf(c: char): Option<Unit> {
    if c == 'd' then Some(Days) else if c == 'h' then Some(Hours)
    else if c == 'm' then Some(Minutes) else if c == 's' then Some(Seconds) else None
  }

  /** One component, such as "3h": a number and a unit letter. */
  function ReadPart(s: string): Option<nat> {
    var n := LeadingDigits(s);
    if n == 0 || n + 1 != |s| then None
    else
      match UnitOf(s[n])
      case None => None
      case Some(unit) => Some(unit.Times(Value(Digits(s[..n]))))
  }

  function FirstSpace(s: string): (n: nat)
    ensures n <= |s|
    ensures n < |s| ==> s[n] == ' '
  {
    if s == [] || s[0] == ' ' then 0 else 1 + FirstSpace(s[1..])
  }

  /** Components separated by single spaces, added up. */
  function ReadSum(s: string): Option<nat>
    decreases |s|
  {
    var n := FirstSpace(s);
    if n == |s| then ReadPart(s) else Plus(ReadPart(s[..n]), ReadSum(s[n + 1..]))
  }

  function Plus(a: Option<nat>, b: Option<nat>): Option<nat> {
    if a.Some? && b.Some? then Some(a.value + b.value) else None
  }

  function Read(s: string): Option<nat> {
    var n := LeadingDigits(s);
    if n == 0 then None
    else
      var whole, rest := Value(Digits(s[..n])), s[n..];
      if rest == "us" then Some(whole)
      else if rest == "ms" then Some(whole * MILLI)
      else if |rest| == 3 && rest[0] == '.' && IsDigit(rest[1]) && rest[2] == 's' then
        Some(whole * SECOND + DigitOf(rest[1]) * 100_000)
      else ReadSum(s)
  }

  // --- numbers and single components ------------------------------------------------

  lemma {:induction false} LeadingDigitsOf(t: string, rest: string)
    requires forall i :: 0 <= i < |t| ==> IsDigit(t[i])
    requires rest == [] || !IsDigit(rest[0])
    ensures LeadingDigits(t + rest) == |t|
  {
    if t == [] {
      assert t + rest == rest;
    } else {
      LeadingDigitsOf(t[1..], rest);
      assert (t + rest)[1..] == t[1..] + rest;
    }
  }

  lemma {:induction false} ReadsNumber(n: nat, rest: string)
    requires rest != [] && !IsDigit(rest[0])
    ensures var s, k := Text(n) + rest, |Text(n)|;
      LeadingDigits(s) == k > 0 && s[k..] == rest && Value(Digits(s[..k])) == n
  {
    LeadingDigitsOf(Text(n), rest);
    ValueOfText(n);
    assert (Text(n) + rest)[..|Text(n)|] == Text(n);
  }

  lemma {:induction false} PartReads(p: Part)
    ensures ReadPart(p.Show()) == Some(p.unit.Times(p.n))
  {
    ReadsNumber(p.n, [p.unit.Letter()]);
  }

  lemma {:induction false} FirstSpaceAfter(t: string, rest: string)
    requires forall i :: 0 <= i < |t| ==> t[i] != ' '
    requires rest == [] || rest[0] == ' '
    ensures FirstSpace(t + rest) == |t|
  {
    if t == [] {
      assert t + rest == rest;
    } else {
      FirstSpaceAfter(t[1..], rest);
      assert (t + rest)[1..] == t[1..] + rest;
    }
  }

  lemma {:induction false} NoSpaceIn(p: Part)
    ensures forall i :: 0 <= i < |p.Show()| ==> p.Show()[i] != ' '
  {
    forall i | 0 <= i < |p.Show()| ensures p.Show()[i] != ' ' {
      if i < |Text(p.n)| { assert IsDigit(Text(p.n)[i]); }
    }
  }

  // --- sums ------------------------------------------------------------------------

  ghost function Sum(parts: seq<Part>): nat {
    if parts == [] then 0 else parts[0].unit.Times(parts[0].n) + Sum(parts[1..])
  }

  lemma {:induction false} SumConcat(a: seq<Part>, b: seq<Part>)
    ensures Sum(a + b) == Sum(a) + Sum(b)
  {
    if a == [] {
      assert a + b == b;
    } else {
      SumConcat(a[1..], b);
      assert (a + b)[1..] == a[1..] + b;
    }
  }

  lemma {:induction false} ReadSumOfPart(head: string, value: nat)
    requires ReadPart(head) == Some(value)
    requires forall i :: 0 <= i < |head| ==> head[i] != ' '
    ensures ReadSum(head) == Some(value)
  {
    FirstSpaceAfter(head, []);
    assert head + [] == head;
  }

  lemma {:induction false} ReadSumOfMore(head: string, tail: string)
    requires forall i :: 0 <= i < |head| ==> head[i] != ' '
    ensures ReadSum(head + (" " + tail)) == Plus(ReadPart(head), ReadSum(tail))
  {
    var s := head + (" " + tail);
    FirstSpaceAfter(head, " " + tail);
    assert s[..|head|] == head && s[|head| + 1..] == tail;
  }

  lemma {:induction false} PartAndMore(p: Part, tail: string)
    ensures ReadSum(p.Show()) == Some(p.unit.Times(p.n))
    ensures ReadSum(p.Show() + (" " + tail)) == Plus(Some(p.unit.Times(p.n)), ReadSum(tail))
  {
    var head := p.Show();
    PartReads(p);
    NoSpaceIn(p);
    ReadSumOfPart(head, p.unit.Times(p.n));
    ReadSumOfMore(head, tail);
  }

  lemma {:induction false} JoinSplits(parts: seq<Part>)
    requires parts != []
    ensures Join(parts) == if |parts| == 1 then parts[0].Show() else parts[0].Show() + (" " + Join(parts[1..]))
    ensures Sum(parts) == parts[0].unit.Times(parts[0].n) + (if |parts| == 1 then 0 else Sum(parts[1..]))
  {
  }

  lemma {:induction false} ReadSumOfJoin(parts: seq<Part>)
    requires parts != []
    ensures ReadSum(Join(parts)) == Some(Sum(parts))
  {
    hide ReadSum, Join, Sum;
    var p, tail := parts[0], Join(parts[1..]);
    PartAndMore(p, tail);
    JoinSplits(parts);
    if |parts| > 1 {
      ReadSumOfJoin(parts[1..]);
    }
  }

  /** A joined text that does not start with seconds is not mistaken for a short form. */
  lemma {:induction false} JoinReadsAsSum(parts: seq<Part>)
    requires parts != [] && parts[0].unit != Seconds
    ensures Read(Join(parts)) == Some(Sum(parts))
  {
    var p := parts[0];
    var rest := if |parts| == 1 then [p.unit.Letter()] else [p.unit.Letter()] + (" " + Join(parts[1..]));
    assert Join(parts) == Text(p.n) + rest;
    assert rest != "us" && rest != "ms";
    ReadsNumber(p.n, rest);
    ReadSumOfJoin(parts);
  }

  // --- the forms of the display -------------------------------------------------------

  lemma {:induction false} MicrosRead(n: nat)
    ensures Read(Text(n) + "us") == Some(n)
  {
    ReadsNumber(n, "us");
  }

  lemma {:induction false} MillisRead(n: nat)
    ensures Read(Text(n) + "ms") == Some(n * MILLI)
  {
    ReadsNumber(n, "ms");
    assert "ms"[0] != "us"[0];
  }

  lemma {:induction false} SecondsRead(n: nat)
    ensures Read(Text(n) + "s") == Some(n * SECOND)
  {
    ReadsNumber(n, "s");
    PartReads(Part(n, Seconds));
    NoSpaceIn(Part(n, Seconds));
    ReadSumOfPart(Text(n) + "s", n * SECOND);
  }

  lemma {:induction false} TenthsRead(n: nat, tenths: nat)
    requires tenths < 10
    ensures Read(Text(n) + "." + Text(tenths) + "s") == Some(n * SECOND + tenths * 100_000)
  {
    var rest := ['.', CharOf(tenths), 's'];
    assert Text(n) + "." + Text(tenths) + "s" == Text(n) + rest;
    ReadsNumber(n, rest);
    assert |rest| != |"us"| && |rest| != |"ms"|;
  }

  lemma TenthsSplit(micros: nat)
    ensures micros % SECOND / 100_000 < 10
    ensures micros - micros % 100_000 == micros / SECOND * SECOND + micros % SECOND / 100_000 * 100_000
  {
    var r := micros % SECOND;
    assert micros == micros / SECOND * SECOND + r;
    assert micros % 100_000 == r % 100_000;
  }

  lemma {:induction false} SecondDisplay(micros: nat)
    requires SECOND <= micros < MINUTE
    ensures var whole, tenths := micros / SECOND, micros % SECOND / 100_000;
      && tenths < 10 && RoundedDown(micros) == whole * SECOND + tenths * 100_000
      && Display(micros) == if tenths == 0 then Text(whole) + "s" else Text(whole) + "." + Text(tenths) + "s"
  {
    hide Text;
    TenthsSplit(micros);
  }

  lemma {:induction false} SecondFormsRead(micros: nat)
    requires SECOND <= micros < MINUTE
    ensures Read(Display(micros)) == Some(RoundedDown(micros))
  {
    hide Read, Display, RoundedDown;
    var whole, tenths := micros / SECOND, micros % SECOND / 100_000;
    SecondDisplay(micros);
    if tenths == 0 { SecondsRead(whole); } else { TenthsRead(whole, tenths); }
  }

  lemma {:induction false} SubSecondFormsRead(micros: nat)
    requires micros < SECOND
    ensures Read(Display(micros)) == Some(RoundedDown(micros))
  {
    if micros < MILLI {
      MicrosRead(micros);
    } else {
      assert micros - micros % MILLI == micros / MILLI * MILLI;
      MillisRead(micros / MILLI);
    }
  }

  lemma InHours(n: nat, q: nat, r: nat)
    requires n == q * 3_600 + r && r < 3_600
    ensures n % 3_600 == r
  {
  }

  lemma InMinutes(n: nat, q: nat, r: nat)
    requires n == q * 60 + r && r < 60
    ensures n % 60 == r
  {
  }

  lemma HourOfDay(total: nat)
    ensures total % 86_400 % 3_600 == total % 3_600
  {
    var d, day := total / 86_400, total % 86_400;
    var h, hour := day / 3_600, day % 3_600;
    assert total == d * 86_400 + day && day == h * 3_600 + hour;
    InHours(total, 24 * d + h, hour);
  }

  lemma MinuteOfHour(total: nat)
    ensures total % 3_600 % 60 == total % 60
  {
    var h, hour := total / 3_600, total % 3_600;
    var m, minute := hour / 60, hour % 60;
    assert total == h * 3_600 + hour && hour == m * 60 + minute;
    InMinutes(total, 60 * h + m, minute);
  }

  /** Seconds into days, hours, minutes and seconds, as the display splits them. */
  lemma SplitSeconds(total: nat)
    ensures total == total / 86_400 * 86_400 + total % 86_400 / 3_600 * 3_600 + total % 3_600 / 60 * 60 + total % 60
  {
    HourOfDay(total);
    MinuteOfHour(total);
    var day, hour := total % 86_400, total % 3_600;
    assert total == total / 86_400 * 86_400 + day;
    assert day == day / 3_600 * 3_600 + hour;
    assert hour == hour / 60 * 60 + total % 60;
  }

  lemma {:induction false} SumOfOne(n: nat, unit: Unit)
    ensures Sum(Component(n, unit)) == unit.Times(n)
  {
  }

  lemma {:induction false} SumOfFour(d: nat, h: nat, m: nat, s: nat)
    ensures Sum(Component(d, Days) + Component(h, Hours) + Component(m, Minutes) + Component(s, Seconds))
         == d * DAY + h * HOUR + m * MINUTE + s * SECOND
  {
    hide Sum, Component;
    SumOfOne(d, Days);
    SumOfOne(h, Hours);
    SumOfOne(m, Minutes);
    SumOfOne(s, Seconds);
    SumConcat(Component(d, Days), Component(h, Hours));
    SumConcat(Component(d, Days) + Component(h, Hours), Component(m, Minutes));
    SumConcat(Component(d, Days) + Component(h, Hours) + Component(m, Minutes), Component(s, Seconds));
  }

  lemma {:induction false} PartsSum(total: nat)
    ensures Sum(Parts(total)) == (if total < 86_400 then total else total - total % 60) * SECOND
  {
    var d, h, m := total / 86_400, total % 86_400 / 3_600, total % 3_600 / 60;
    var s := if d == 0 then total % 60 else 0;
    SplitSeconds(total);
    assert Parts(total) == Component(d, Days) + Component(h, Hours) + Component(m, Minutes) + Component(s, Seconds);
    SumOfFour(d, h, m, s);
  }

  lemma PartsLead(total: nat)
    requires total >= 60
    ensures Parts(total) != [] && Parts(total)[0].unit != Seconds
  {
    SplitSeconds(total);
  }

  /** Largest unit first, each at most once, none of them zero, hours below a day's, minutes below an
      hour's, seconds below a minute's, and no seconds beside days. */
  lemma {:induction false} PartsOrdered(total: nat)
    ensures var parts := Parts(total);
      && (forall i, j :: 0 <= i < j < |parts| ==> parts[i].unit.Times(1) > parts[j].unit.Times(1))
      && (forall i :: 0 <= i < |parts| ==> 0 < parts[i].n)
      && (forall i :: 0 <= i < |parts| && !parts[i].unit.Days? ==>
            parts[i].n < if parts[i].unit.Hours? then 24 else 60)
      && (total >= 86_400 ==> forall i :: 0 <= i < |parts| ==> !parts[i].unit.Seconds?)
  {
  }

  lemma {:induction false} LongFormsRead(micros: nat)
    requires micros >= MINUTE
    ensures Read(Display(micros)) == Some(RoundedDown(micros))
  {
    var total := micros / SECOND;
    PartsLead(total);
    PartsSum(total);
    JoinReadsAsSum(Parts(total));
    LongRounding(micros);
  }

  lemma LongRounding(micros: nat)
    requires micros >= MINUTE
    ensures var total := micros / SECOND;
      RoundedDown(micros) == (if total < 86_400 then total else total - total % 60) * SECOND
  {
    var total := micros / SECOND;
    assert micros % SECOND == micros - total * SECOND;
    if micros >= DAY {
      assert total >= 86_400;
      assert micros % MINUTE == total % 60 * SECOND + micros % SECOND;
    }
  }

  /** Which unit is shown: microseconds, milliseconds, seconds with at most one decimal, and from a
      minute on the long form. */
  lemma {:induction false} DisplayUnit(micros: nat)
    ensures micros < 1_000 ==> Display(micros) == Text(micros) + "us"
    ensures 1_000 <= micros < 1_000_000 ==> Display(micros) == Text(micros / 1_000) + "ms"
    ensures 1_000_000 <= micros < 60_000_000 ==>
      exists tail ::
        Display(micros) == Text(micros / 1_000_000) + tail + "s" && (tail == [] || (|tail| == 2 && tail[0] == '.'))
    ensures micros >= 60_000_000 ==>
      var parts := Parts(micros / 1_000_000); parts != [] && Display(micros) == Join(parts)
  {
    if 1_000_000 <= micros < 60_000_000 {
      SecondDisplay(micros);
      var whole, tenths := micros / SECOND, micros % SECOND / 100_000;
      if tenths == 0 {
        assert Display(micros) == Text(whole) + [] + "s";
      } else {
        assert Display(micros) == Text(whole) + ("." + Text(tenths)) + "s";
      }
    }
    if micros >= 60_000_000 { PartsLead(micros / SECOND); }
  }

  /** Reading the text back gives the value rounded down to the unit displayed, for every
      duration, so no component is lost, swapped or mislabelled; and there is always a text. */
  lemma {:induction false} ReadInvertsDisplay(micros: nat)
    ensures Read(Display(micros)) == Some(RoundedDown(micros)) && Display(micros) != []
    ensures var unit := if micros < 1_000 then 1 else if micros < 1_000_000 then 1_000
                        else if micros < 60_000_000 then 100_000
                        else if micros < 86_400_000_000 then 1_000_000 else 60_000_000;
      RoundedDown(micros) == micros - micros % unit
  {
    if micros < SECOND { SubSecondFormsRead(micros); }
    else if micros < MINUTE { SecondFormsRead(micros); }
    else { LongFormsRead(micros); }
  }
}
