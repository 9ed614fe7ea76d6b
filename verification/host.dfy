/** Trust in the host clock: one SNTP exchange, the gate over several servers, and what a
    trusted clock and a verified write together say about the device. Floating-point seconds
    are reals. */
module HostClock {
  import opened Wrappers
  import opened MatterTime
  import opened Hex

  const PACKET := 48
  const NTP_UNIX_OFFSET: real := 2_208_988_800.0
  const NTP_FRACTION_SCALE: real := 4_294_967_296.0
  const MAX_OFFSET_SECONDS: real := 1.0

  function AbsReal(x: real): real {
    if x < 0.0 then -x else x
  }

  /** Four big-endian bytes. */
  function U32(b: seq<Byte>): (n: nat)
    requires |b| == 4
    ensures n < 0x1_0000_0000
  {
    var b0: int, b1: int, b2: int, b3: int := b[0], b[1], b[2], b[3];
    ((b0 * 256 + b1) * 256 + b2) * 256 + b3
  }

  /** The server's transmit time, in seconds since the Unix epoch. */
  function TransmitTime(packet: seq<Byte>): real
    requires |packet| == PACKET
  {
    U32(packet[40..44]) as real + U32(packet[44..48]) as real / NTP_FRACTION_SCALE - NTP_UNIX_OFFSET
  }

  /** A synchronized server's answer to our own request. */
  predicate Acceptable(packet: seq<Byte>, nonce: seq<Byte>)
    requires |packet| == PACKET
  {
    && packet[0] % 8 == 4 && packet[0] / 64 != 3
    && 1 <= packet[1] <= 15
    && packet[24..32] == nonce
    && TransmitTime(packet) > 0.0
  }

  /** A datagram cut to the receive buffer. */
  function Received(datagram: seq<Byte>): seq<Byte> {
    if |datagram| <= PACKET then datagram else datagram[..PACKET]
  }

  function OffsetOf(datagram: seq<Byte>, nonce: seq<Byte>, sentAt: real, receivedAt: real): Option<real> {
    var packet := Received(datagram);
    if |packet| < PACKET || !Acceptable(packet, nonce) then None
    else Some((sentAt + receivedAt) / 2.0 - TransmitTime(packet))
  }

  method Request(nonce: seq<Byte>) returns (request: array<Byte>)
    requires |nonce| == 8
    ensures fresh(request) && request[..] == [0x23] + seq(39, _ => 0) + nonce
  {
    request := new Byte[PACKET](_ => 0);
    request[0] := 0x23;
    for i := 0 to 8
      invariant request[..] == [0x23] + seq(39, _ => 0) + nonce[..i] + seq(8 - i, _ => 0)
    {
      request[40 + i] := nonce[i];
    }
    assert nonce[..8] == nonce;
  }

  /** The receive buffer, and how much of it the datagram filled. */
  method Receive(datagram: seq<Byte>) returns (response: array<Byte>, len: nat)
    ensures fresh(response) && response.Length == PACKET && len <= PACKET
    ensures response[..len] == Received(datagram)
  {
    response := new Byte[PACKET](_ => 0);
    len := if |datagram| < PACKET then |datagram| else PACKET;
    for i := 0 to len
      invariant response[..i] == datagram[..i]
    {
      response[i] := datagram[i];
    }
  }

  method SntpOffset(nonce: seq<Byte>, datagram: seq<Byte>, sentAt: real, receivedAt: real)
    returns (offset: Option<real>)
    ensures offset == OffsetOf(datagram, nonce, sentAt, receivedAt)
  {
    var response, len := Receive(datagram);
    if len < PACKET {
      return None;
    }
    var leap, mode, stratum := response[0] / 64, response[0] % 8, response[1];
    if mode != 4 || leap == 3 || !(1 <= stratum <= 15) {
      return None;
    }
    var packet := response[..];
    assert packet == response[..len] == Received(datagram);
    if packet[24..32] != nonce {
      return None;
    }
    var seconds, fraction := U32(packet[40..44]) as real, U32(packet[44..48]) as real / NTP_FRACTION_SCALE;
    var serverTime := seconds + fraction - NTP_UNIX_OFFSET;
    if serverTime <= 0.0 {
      return None;
    }
    return Some((sentAt + receivedAt) / 2.0 - serverTime);
  }

  /** One server's exchange: what was sent when, and the datagram that came back, if any did. */
  datatype Query = Query(nonce: seq<Byte>, datagram: Option<seq<Byte>>, sentAt: real, receivedAt: real)

  function Measured(q: Query): Option<real> {
    match q.datagram
    case None => None
    case Some(datagram) => OffsetOf(datagram, q.nonce, q.sentAt, q.receivedAt)
  }

  /** The first server whose answer can be used. */
  function FirstAnswer(queries: seq<Query>): (first: Option<nat>)
    ensures first.Some? ==> first.value < |queries| && Measured(queries[first.value]).Some?
    ensures forall i :: 0 <= i < |queries| && Measured(queries[i]).Some? ==> first.Some? && first.value <= i
  {
    if queries == [] then None
    else if Measured(queries[0]).Some? then Some(0)
    else
      var rest := FirstAnswer(queries[1..]);
      if rest.Some? then Some(rest.value + 1) else None
  }

  /** The verdict: the first usable answer's offset; the operating system's word if there is none. */
  predicate Trusts(queries: seq<Query>, systemVerdict: bool) {
    match FirstAnswer(queries)
    case None => systemVerdict
    case Some(i) => AbsReal(Measured(queries[i]).value) <= MAX_OFFSET_SECONDS
  }

  /** The first server that answers decides, whatever later ones would say; with no answer the
      operating system's verdict does. */
  method ClockIsNtpSynchronized(queries: seq<Query>, systemVerdict: bool) returns (trusted: bool)
    ensures trusted == Trusts(queries, systemVerdict)
  {
    for i := 0 to |queries|
      invariant forall j :: 0 <= j < i ==> Measured(queries[j]).None?
    {
      if queries[i].datagram.Some? {
        var offset := SntpOffset(queries[i].nonce, queries[i].datagram.value, queries[i].sentAt, queries[i].receivedAt);
        if offset.Some? {
          return AbsReal(offset.value) <= MAX_OFFSET_SECONDS;
        }
      }
    }
    return systemVerdict;
  }

  // --- main results ------------------------------------------------------------------

  function Bytes4(n: nat): (b: seq<Byte>)
    requires n < 0x1_0000_0000
    ensures |b| == 4 && U32(b) == n
  {
    var high, middle, low := n / 256 / 256 / 256, n / 256 / 256, n / 256;
    assert n == low * 256 + n % 256 && low == middle * 256 + low % 256 && middle == high * 256 + middle % 256;
    [high, middle % 256, low % 256, n % 256]
  }

  /** A server's answer: its mode and stratum, the client's transmit field echoed as the originate
      field, and its own transmit time. `middle` and `received` are fields the client ignores. */
  function ServerReply(request: seq<Byte>, leap: nat, stratum: Byte, middle: seq<Byte>, received: seq<Byte>,
                       seconds: nat, fraction: nat): seq<Byte>
    requires |request| == PACKET && leap < 4 && |middle| == 22 && |received| == 8
    requires seconds < 0x1_0000_0000 && fraction < 0x1_0000_0000
  {
    [leap * 64 + 4 * 8 + 4, stratum] + middle + request[40..48] + received + Bytes4(seconds) + Bytes4(fraction)
  }

  /** Client and server fields line up: a synchronized server's answer to our request is accepted,
      and measured against exactly the time it carries. */
  lemma HonestReplyMeasured(nonce: seq<Byte>, request: seq<Byte>, leap: nat, stratum: Byte, middle: seq<Byte>,
                            received: seq<Byte>, seconds: nat, fraction: nat, sentAt: real, receivedAt: real)
    requires |nonce| == 8 && request == [0x23] + seq(39, _ => 0) + nonce
    requires leap < 3 && 1 <= stratum <= 15 && |middle| == 22 && |received| == 8
    requires seconds < 0x1_0000_0000 && fraction < 0x1_0000_0000
    requires seconds as real + fraction as real / NTP_FRACTION_SCALE > NTP_UNIX_OFFSET
    ensures var reply := ServerReply(request, leap, stratum, middle, received, seconds, fraction);
      var stamp := seconds as real + fraction as real / NTP_FRACTION_SCALE - NTP_UNIX_OFFSET;
      OffsetOf(reply, nonce, sentAt, receivedAt) == Some((sentAt + receivedAt) / 2.0 - stamp)
  {
    var packet := ServerReply(request, leap, stratum, middle, received, seconds, fraction);
    assert request[40..48] == nonce;
    assert packet[24..32] == nonce;
    assert packet[40..44] == Bytes4(seconds) && packet[44..48] == Bytes4(fraction);
    var first: int := packet[0];
    assert first == leap * 64 + 36;
  }

  /** Which datagrams are measured at all, on their bytes: full length, server mode, not the
      unsynchronized leap, stratum 1 to 15, our nonce in the originate field, and a transmit stamp
      after 1970. Everything else, a kiss of death or a stale reply, gives no offset. */
  lemma MeasuredExactly(datagram: seq<Byte>, nonce: seq<Byte>, sentAt: real, receivedAt: real)
    ensures OffsetOf(datagram, nonce, sentAt, receivedAt).Some? <==>
      && |datagram| >= 48 && datagram[0] % 8 == 4 && datagram[0] / 64 != 3 && 1 <= datagram[1] && datagram[1] < 16
      && datagram[24..32] == nonce
      && (Seconds(datagram[40..48]) > 2_208_988_800.0)
    ensures OffsetOf(datagram, nonce, sentAt, receivedAt).Some? ==>
      OffsetOf(datagram, nonce, sentAt, receivedAt).value
        == (sentAt + receivedAt) / 2.0 - (Seconds(datagram[40..48]) - 2_208_988_800.0)
  {
    if |datagram| >= 48 {
      var packet, stamp := Received(datagram), datagram[40..48];
      assert packet[24..32] == datagram[24..32];
      assert packet[40..44] == stamp[..4] && packet[44..48] == stamp[4..];
      SecondsAre(stamp);
    }
  }

  /** NTP counts from the first of January 1900. */
  lemma NtpEpochIsCounted()
    ensures NTP_UNIX_OFFSET == (DaysBetween(1900, 1970) * 86_400) as real
  {
    hide DaysBetween;
    FourYears(1901, 1969, 17);
    DaysAdd(1901, 1969, 1970);
    NextYear(1900, 1970);
    NextYear(1969, 1970);
    assert DaysBetween(1900, 1970) == 25_567;
  }

  /** Eight bytes as seconds since 1900 in 32.32 fixed point: each byte weighs 256 of the next. */
  ghost function Seconds(stamp: seq<Byte>): real
    requires |stamp| == 8
  {
    BigEndian(stamp) as real / 4_294_967_296.0
  }

  ghost function BigEndian(b: seq<Byte>): nat {
    if b == [] then 0 else BigEndian(b[..|b| - 1]) * 256 + b[|b| - 1]
  }

  lemma {:induction false} FourBytes(b: seq<Byte>)
    requires |b| == 4
    ensures BigEndian(b) == U32(b)
  {
    assert b[..3][..2] == b[..2] && b[..2][..1] == b[..1] && b[..1][..0] == [];
    assert BigEndian(b[..1]) == b[0];
    assert BigEndian(b[..2]) == BigEndian(b[..1]) * 256 + b[1];
    assert BigEndian(b[..3]) == BigEndian(b[..2]) * 256 + b[2];
  }

  lemma {:induction false} BigEndianJoins(a: seq<Byte>, b: seq<Byte>)
    requires |b| == 4
    ensures BigEndian(a + b) == BigEndian(a) * 4_294_967_296 + U32(b)
  {
    assert a + b == a + [b[0]] + [b[1]] + [b[2]] + [b[3]];
    AppendByte(a, b[0]);
    AppendByte(a + [b[0]], b[1]);
    AppendByte(a + [b[0]] + [b[1]], b[2]);
    AppendByte(a + [b[0]] + [b[1]] + [b[2]], b[3]);
  }

  lemma {:induction false} AppendByte(a: seq<Byte>, x: Byte)
    ensures BigEndian(a + [x]) == BigEndian(a) * 256 + x
  {
    assert (a + [x])[..|a|] == a;
  }

  lemma {:induction false} SecondsAre(stamp: seq<Byte>)
    requires |stamp| == 8
    ensures Seconds(stamp) == U32(stamp[..4]) as real + U32(stamp[4..]) as real / 4_294_967_296.0
  {
    assert stamp == stamp[..4] + stamp[4..];
    BigEndianJoins(stamp[..4], stamp[4..]);
    FourBytes(stamp[..4]);
  }

  /** The verdict in terms of the exchanges: with no usable answer it is the operating system's, and
      otherwise the first usable answer's offset decides, whatever the system and later servers say. */
  lemma TrustsExactly(queries: seq<Query>, systemVerdict: bool)
    ensures forall q: Query :: q.datagram.None? ==> Measured(q) == None
    ensures forall q: Query :: q.datagram.Some? ==>
      Measured(q) == OffsetOf(q.datagram.value, q.nonce, q.sentAt, q.receivedAt)
    ensures (forall i :: 0 <= i < |queries| ==> Measured(queries[i]).None?) ==>
      (Trusts(queries, systemVerdict) <==> systemVerdict)
    ensures forall i :: 0 <= i < |queries| && Measured(queries[i]).Some? ==>
      (forall j :: 0 <= j < i ==> Measured(queries[j]).None?) ==>
      (Trusts(queries, systemVerdict) <==> -1.0 <= Measured(queries[i]).value <= 1.0)
  {
  }

  /** Midpoint argument: if the host runs a constant `error` ahead, and the server stamped its
      reply between the true sending time `a` and the true arrival time `b`, the measured offset
      is off by at most half the round trip. */
  lemma MidpointBound(datagram: seq<Byte>, nonce: seq<Byte>, a: real, b: real, error: real)
    requires OffsetOf(datagram, nonce, a + error, b + error).Some?
    requires a <= TransmitTime(Received(datagram)) <= b
    ensures -(b - a) / 2.0 <= OffsetOf(datagram, nonce, a + error, b + error).value - error <= (b - a) / 2.0
  {
    var stamp := TransmitTime(Received(datagram));
    assert OffsetOf(datagram, nonce, a + error, b + error).value == ((a + error) + (b + error)) / 2.0 - stamp;
    assert ((a + error) + (b + error)) / 2.0 == (a + b) / 2.0 + error;
  }

  /** True time, in Matter microseconds, at `x` seconds since the Unix epoch. */
  function TrueMicros(x: real): real {
    x * 1_000_000.0 - MATTER_EPOCH_UNIX_MICROS as real
  }

  /** The device clock with a detected epoch shift folded out. */
  function Folded(device: u64, written: u64): int {
    if Compare(Some(device), written).epochShifted then device - MATTER_EPOCH_UNIX_MICROS else device
  }

  /** The whole chain for a sync trusted through SNTP: the exchange ran between true times `a`
      and `b`, the host (constant `error` ahead) read `hostNanos` at true time `w` and wrote it,
      and the device answered `device` at true time `r`. Then the device clock is within the
      sum of the single tolerances of true time. */
  lemma EndToEndBound(datagram: seq<Byte>, nonce: seq<Byte>, a: real, b: real, error: real,
                      hostNanos: Timestamp, w: real, r: real, device: u64)
    requires OffsetOf(datagram, nonce, a + error, b + error).Some?
    requires -1.0 <= OffsetOf(datagram, nonce, a + error, b + error).value <= 1.0
    requires a <= TransmitTime(Received(datagram)) <= b
    requires hostNanos as real == (w + error) * 1_000_000_000.0 && w <= r
    requires hostNanos >= MATTER_EPOCH && FromTimestamp(hostNanos) < TWO_64
    requires Verified(Some(device), FromTimestamp(hostNanos))
    ensures var bound := 5_000_000.0 + 1_000_000.0 + (b - a) / 2.0 * 1_000_000.0 + (r - w) * 1_000_000.0 + 1.0;
      -bound <= Folded(device, FromTimestamp(hostNanos)) as real - TrueMicros(r) <= bound
  {
    var written := FromTimestamp(hostNanos);
    MidpointBound(datagram, nonce, a, b, error);
    assert -1.0 - (b - a) / 2.0 <= error <= 1.0 + (b - a) / 2.0;
    FromTimestampMeaning(hostNanos);
    WriteTruncation(written, hostNanos, w + error);
    AssessmentExact(device, written);
    VerificationExact(device, written);
    var folded := Folded(device, written);
    assert -5_000_000 <= folded - written <= 5_000_000;
    assert -5_000_000.0 <= folded as real - written as real <= 5_000_000.0;
  }

  /** Truncation to microseconds costs less than one of them. */
  lemma WriteTruncation(written: nat, hostNanos: Timestamp, reading: real)
    requires InstantOf(written) <= hostNanos < InstantOf(written + 1)
    requires hostNanos as real == reading * 1_000_000_000.0
    ensures 0.0 <= TrueMicros(reading) - written as real < 1.0
  {
    var low := written + MATTER_EPOCH_UNIX_MICROS;
    assert low * 1_000 <= hostNanos < (low + 1) * 1_000;
    assert low as real * 1_000.0 <= hostNanos as real < (low + 1) as real * 1_000.0;
  }
}
