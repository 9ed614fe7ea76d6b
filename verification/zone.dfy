/** The DST list compiler: a zone's transition table becomes a short list a device adds to
    its standard offset. */
module Zones {
  import opened Wrappers
  import opened MatterTime

  /** From `at` on, the zone is `offset` seconds from UTC. */
  datatype Transition = Transition(at: Timestamp, offset: int)

  datatype Zone = Zone(initial: int, transitions: seq<Transition>)
  {
    /** tzdb order, on instants a microsecond can express. Offsets may repeat. */
    ghost predicate Valid() {
      Ordered(transitions)
    }
  }

  ghost predicate Ordered(ts: seq<Transition>) {
    && (forall i, j :: 0 <= i < j < |ts| ==> ts[i].at < ts[j].at)
    && (forall i :: 0 <= i < |ts| ==> ts[i].at % 1_000 == 0)
  }

  /** The offset in force at `t`, starting from `initial`. */
  function OffsetAt(initial: int, ts: seq<Transition>, t: Timestamp): int
    decreases |ts|
  {
    if ts == [] || t < ts[0].at then initial else OffsetAt(ts[0].offset, ts[1..], t)
  }

  function ToOffset(zone: Zone, t: Timestamp): int {
    OffsetAt(zone.initial, zone.transitions, t)
  }

  /** The transitions strictly after `from`. */
  function Following(ts: seq<Transition>, from: Timestamp): seq<Transition> {
    if ts == [] || from < ts[0].at then ts else Following(ts[1..], from)
  }

  /** Index of the first transition to another offset, or the end. */
  function FirstChange(ts: seq<Transition>, current: int): (k: nat)
    ensures k <= |ts|
    ensures k < |ts| ==> ts[k].offset != current
    ensures forall i :: 0 <= i < k ==> ts[i].offset == current
  {
    if ts == [] || ts[0].offset != current then 0 else 1 + FirstChange(ts[1..], current)
  }

  datatype OffsetChange = OffsetChange(at: Timestamp, before: int, after: int)

  function NextOffsetTransition(zone: Zone, from: Timestamp): Option<OffsetChange> {
    var before := ToOffset(zone, from);
    var rest := Following(zone.transitions, from);
    var k := FirstChange(rest, before);
    if k == |rest| then None else Some(OffsetChange(rest[k].at, before, rest[k].offset))
  }

  /** The two instants, in January and July of the year, at which the offset is probed. */
  datatype Probes = Probes(january: Timestamp, july: Timestamp)

  function StandardOffset(zone: Zone, probes: Probes): int {
    var a, b := ToOffset(zone, probes.january), ToOffset(zone, probes.july);
    if a <= b then a else b
  }

  /** One DST period; an absent end means "until further notice". */
  datatype DstEntry = DstEntry(offset: int, validStarting: nat, validUntil: Option<nat>)

  /** The list the builder's loop produces from a current offset, the transitions ahead, the
      start of the next entry and the room left. */
  function DstList(current: int, rest: seq<Transition>, starting: nat, limit: nat, standard: int): seq<DstEntry>
    decreases limit
  {
    if limit == 0 then []
    else
      var k := FirstChange(rest, current);
      if k == |rest| then [DstEntry(current - standard, starting, None)]
      else
        var until := FromTimestamp(rest[k].at);
        [DstEntry(current - standard, starting, Some(until))]
        + DstList(rest[k].offset, rest[k + 1..], until, limit - 1, standard)
  }

  /** One step of the builder's loop. */
  lemma {:induction false} ListStep(current: int, rest: seq<Transition>, starting: nat, limit: nat, standard: int)
    ensures var list, k := DstList(current, rest, starting, limit, standard), FirstChange(rest, current);
      && (limit == 0 ==> list == [])
      && (limit > 0 && k == |rest| ==> list == [DstEntry(current - standard, starting, None)])
      && (limit > 0 && k < |rest| ==>
            var until := FromTimestamp(rest[k].at);
            list == [DstEntry(current - standard, starting, Some(until))]
                    + DstList(rest[k].offset, rest[k + 1..], until, limit - 1, standard))
  {
  }

  function Limit(maxEntries: nat): nat {
    if maxEntries == 0 then 1 else maxEntries
  }

  function DstListFrom(zone: Zone, probes: Probes, maxEntries: nat, from: Timestamp): seq<DstEntry> {
    DstList(ToOffset(zone, from), Following(zone.transitions, from), 0, Limit(maxEntries), StandardOffset(zone, probes))
  }

  method BuildDstOffsetList(zone: Zone, probes: Probes, maxEntries: nat, from: Timestamp)
    returns (entries: seq<DstEntry>)
    requires zone.Valid()
    ensures entries == DstListFrom(zone, probes, maxEntries, from)
    ensures if maxEntries == 0 then |entries| == 1 else 1 <= |entries| <= maxEntries
    ensures |entries| < maxEntries ==> entries[|entries| - 1].validUntil.None?
    ensures Contiguous(entries, 0)
    ensures Faithful(zone, StandardOffset(zone, probes), entries, from)
  {
    hide Faithful, OffsetAt, ToOffset, StandardOffset, Following, Contiguous;
    var limit := Limit(maxEntries);
    var standard := StandardOffset(zone, probes);
    entries := [];
    var currentOffset := ToOffset(zone, from);
    var validStarting := 0;
    var transitions := Following(zone.transitions, from);
    ghost var whole := Extended(entries, currentOffset, transitions, 0, limit, standard);
    ExtendedAppends(entries, currentOffset, transitions, 0, limit, standard);
    while |entries| < limit
      invariant |entries| <= limit
      invariant Extended(entries, currentOffset, transitions, validStarting, limit, standard) == whole
    {
      var next := FirstChange(transitions, currentOffset);
      if next < |transitions| {
        var until := FromTimestamp(transitions[next].at);
        entries := entries + [DstEntry(currentOffset - standard, validStarting, Some(until))];
        validStarting := until;
        currentOffset := transitions[next].offset;
        transitions := transitions[next + 1..];
      } else {
        entries := entries + [DstEntry(currentOffset - standard, validStarting, None)];
        break;
      }
    }
    assert entries == whole;
    FaithfulEverywhere(zone, probes, maxEntries, from);
  }

  /** What the rest of the loop makes of the entries so far. */
  function Extended(entries: seq<DstEntry>, current: int, rest: seq<Transition>, starting: nat, limit: nat,
                    standard: int): seq<DstEntry>
    decreases limit - |entries|
  {
    if |entries| >= limit then entries
    else
      var k := FirstChange(rest, current);
      if k == |rest| then entries + [DstEntry(current - standard, starting, None)]
      else
        var until := FromTimestamp(rest[k].at);
        Extended(entries + [DstEntry(current - standard, starting, Some(until))], rest[k].offset, rest[k + 1..],
                 until, limit, standard)
  }

  lemma {:induction false} ExtendedAppends(entries: seq<DstEntry>, current: int, rest: seq<Transition>, starting: nat,
                                           limit: nat, standard: int)
    requires |entries| <= limit
    ensures Extended(entries, current, rest, starting, limit, standard)
         == entries + DstList(current, rest, starting, limit - |entries|, standard)
    decreases limit - |entries|
  {
    hide FromTimestamp, FirstChange, DstList;
    var k := FirstChange(rest, current);
    ListStep(current, rest, starting, limit - |entries|, standard);
    if |entries| < limit && k < |rest| {
      var until := FromTimestamp(rest[k].at);
      var entry := [DstEntry(current - standard, starting, Some(until))];
      var tail := DstList(rest[k].offset, rest[k + 1..], until, limit - |entries| - 1, standard);
      ExtendedAppends(entries + entry, rest[k].offset, rest[k + 1..], until, limit, standard);
      assert (entries + entry) + tail == entries + (entry + tail);
    }
  }

  // --- how a device reads a list -----------------------------------------------------

  predicate Active(e: DstEntry, u: nat) {
    e.validStarting <= u && (e.validUntil.None? || u < e.validUntil.value)
  }

  /** The DST offset in force; standard time when no entry applies. */
  function DstAt(list: seq<DstEntry>, u: nat): int {
    if list == [] then 0 else if Active(list[0], u) then list[0].offset else DstAt(list[1..], u)
  }

  /** The list has not expired. */
  predicate Covers(list: seq<DstEntry>, u: nat) {
    list != [] && (list[|list| - 1].validUntil.None? || u < list[|list| - 1].validUntil.value)
  }

  ghost predicate ExactlyOneActive(list: seq<DstEntry>, u: nat) {
    exists i :: 0 <= i < |list| && Active(list[i], u)
      && forall j :: 0 <= j < |list| && j != i ==> !Active(list[j], u)
  }

  /** An instant as a device can tell it: everything before the Matter epoch is the epoch. */
  function Clamped(t: Timestamp): Timestamp {
    if t < MATTER_EPOCH then MATTER_EPOCH else t
  }

  /** From `from` on, until the list expires, exactly one entry is active and the device's sum is
      the zone's offset, as far as Matter time can tell instants apart. */
  ghost predicate Faithful(zone: Zone, standard: int, list: seq<DstEntry>, from: Timestamp) {
    forall t: Timestamp :: from <= t && Covers(list, FromTimestamp(t)) ==>
      ExactlyOneActive(list, FromTimestamp(t)) && standard + DstAt(list, FromTimestamp(t)) == ToOffset(zone, Clamped(t))
  }

  // --- zones ---------------------------------------------------------------------------

  lemma {:induction false} FollowingIsLater(ts: seq<Transition>, from: Timestamp)
    requires Ordered(ts)
    ensures var rest := Following(ts, from); Ordered(rest) && forall i :: 0 <= i < |rest| ==> from < rest[i].at
  {
    if ts != [] && ts[0].at <= from {
      FollowingIsLater(ts[1..], from);
    }
  }

  /** Restarting at `from` with the offset in force there loses nothing about later instants. */
  lemma {:induction false} RestartAt(initial: int, ts: seq<Transition>, from: Timestamp, t: Timestamp)
    requires from <= t
    ensures OffsetAt(initial, ts, t) == OffsetAt(OffsetAt(initial, ts, from), Following(ts, from), t)
    decreases |ts|
  {
    if ts != [] && ts[0].at <= from {
      RestartAt(ts[0].offset, ts[1..], from, t);
    }
  }

  /** Transitions to the offset already in force can be skipped. */
  lemma {:induction false} SkipRepeats(current: int, ts: seq<Transition>, k: nat, t: Timestamp)
    requires Ordered(ts) && k <= |ts|
    requires forall i :: 0 <= i < k ==> ts[i].offset == current
    ensures (k == |ts| || t < ts[k].at) ==> OffsetAt(current, ts, t) == current
    ensures k < |ts| && ts[k].at <= t ==> OffsetAt(current, ts, t) == OffsetAt(ts[k].offset, ts[k + 1..], t)
  {
    if k > 0 {
      SkipRepeats(current, ts[1..], k - 1, t);
      if k < |ts| {
        assert ts[1..][k..] == ts[k + 1..];
      }
    }
  }

  /** The reported transition is the first instant after `from` with another offset. */
  lemma NextTransitionIsFirstChange(zone: Zone, from: Timestamp, t: Timestamp)
    requires zone.Valid() && from <= t
    ensures match NextOffsetTransition(zone, from)
      case None => ToOffset(zone, t) == ToOffset(zone, from)
      case Some(c) =>
        && from < c.at && c.before == ToOffset(zone, from) != c.after == ToOffset(zone, c.at)
        && (t < c.at ==> ToOffset(zone, t) == c.before)
  {
    var before, rest := ToOffset(zone, from), Following(zone.transitions, from);
    var k := FirstChange(rest, before);
    FollowingIsLater(zone.transitions, from);
    RestartAt(zone.initial, zone.transitions, from, t);
    SkipRepeats(before, rest, k, t);
    if k < |rest| {
      var at := rest[k].at;
      RestartAt(zone.initial, zone.transitions, from, at);
      SkipRepeats(before, rest, k, at);
      AtTransition(rest, k);
    }
  }

  lemma AtTransition(ts: seq<Transition>, k: nat)
    requires Ordered(ts) && k < |ts|
    ensures OffsetAt(ts[k].offset, ts[k + 1..], ts[k].at) == ts[k].offset
  {
  }

  // --- the shape of a list ----------------------------------------------------------------

  /** How often the offset really changes. */
  function Changes(current: int, ts: seq<Transition>): nat
    decreases |ts|
  {
    var k := FirstChange(ts, current);
    if k == |ts| then 0 else 1 + Changes(ts[k].offset, ts[k + 1..])
  }

  function Min(a: nat, b: nat): nat {
    if a <= b then a else b
  }

  /** Contiguous run-length form, open exactly where it says. */
  ghost predicate Contiguous(list: seq<DstEntry>, starting: nat) {
    && list != [] && list[0].validStarting == starting
    && (forall i :: 0 <= i < |list| - 1 ==> list[i].validUntil == Some(list[i + 1].validStarting))
    && (forall i :: 0 <= i < |list| - 1 ==> list[i].offset != list[i + 1].offset)
  }

  ghost predicate StrictlyIncreasing(list: seq<DstEntry>) {
    forall i :: 0 <= i < |list| ==> list[i].validUntil.None? || list[i].validStarting < list[i].validUntil.value
  }

  /** Contiguous, adjacent offsets distinct, as long as room and changes allow, and open-ended
      exactly when the changes run out before the room does. */
  lemma {:induction false} ListShape(current: int, rest: seq<Transition>, starting: nat, limit: nat, standard: int)
    requires limit > 0
    ensures var list := DstList(current, rest, starting, limit, standard);
      && |list| == Min(limit, Changes(current, rest) + 1)
      && Contiguous(list, starting) && list[0].offset == current - standard
      && (list[|list| - 1].validUntil.None? <==> Changes(current, rest) < limit)
    decreases limit
  {
    var k := FirstChange(rest, current);
    var list := DstList(current, rest, starting, limit, standard);
    if k < |rest| && limit > 1 {
      var until := FromTimestamp(rest[k].at);
      ListShape(rest[k].offset, rest[k + 1..], until, limit - 1, standard);
      var tail := DstList(rest[k].offset, rest[k + 1..], until, limit - 1, standard);
      assert list == [DstEntry(current - standard, starting, Some(until))] + tail;
    } else if k < |rest| {
      var until := FromTimestamp(rest[k].at);
      assert DstList(rest[k].offset, rest[k + 1..], until, 0, standard) == [];
    }
  }

  lemma {:induction false} FirstEntryIs(current: int, rest: seq<Transition>, starting: nat, limit: nat, standard: int)
    requires limit > 0
    ensures var list, k := DstList(current, rest, starting, limit, standard), FirstChange(rest, current);
      list != [] && list[0] == DstEntry(current - standard, starting,
                                        if k == |rest| then None else Some(FromTimestamp(rest[k].at)))
      && (k == |rest| ==> |list| == 1)
  {
  }

  /** After its first entry, a list is the list that starts at the first change. */
  lemma {:induction false} RestOfList(current: int, rest: seq<Transition>, starting: nat, limit: nat, standard: int)
    requires limit > 0 && FirstChange(rest, current) < |rest|
    ensures var k := FirstChange(rest, current);
      var list := DstList(current, rest, starting, limit, standard);
      && list[1..] == DstList(rest[k].offset, rest[k + 1..], FromTimestamp(rest[k].at), limit - 1, standard)
      && (limit == 1 ==> |list| == 1)
  {
  }

  /** After the Matter epoch, conversion keeps instants apart. */
  lemma LaterStaysLater(starting: nat, at: Timestamp)
    requires at % 1_000 == 0 && at > InstantOf(starting)
    ensures FromTimestamp(at) > starting && InstantOf(FromTimestamp(at)) == at
  {
    FromTimestampMeaning(at);
  }

  ghost predicate AllAfter(ts: seq<Transition>, t: Timestamp) {
    forall i :: 0 <= i < |ts| ==> t < ts[i].at
  }

  lemma NextIsLater(ts: seq<Transition>, k: nat, starting: nat)
    requires Ordered(ts) && k < |ts| && AllAfter(ts, InstantOf(starting))
    ensures starting < FromTimestamp(ts[k].at)
    ensures Ordered(ts[k + 1..]) && AllAfter(ts[k + 1..], InstantOf(FromTimestamp(ts[k].at)))
  {
    hide FromTimestamp;
    LaterStaysLater(starting, ts[k].at);
  }

  lemma MoreIncreases(e: DstEntry, tail: seq<DstEntry>)
    requires StrictlyIncreasing(tail) && (e.validUntil.None? || e.validStarting < e.validUntil.value)
    ensures StrictlyIncreasing([e] + tail)
  {
  }

  lemma {:induction false} ListIncreases(current: int, rest: seq<Transition>, starting: nat, limit: nat, standard: int)
    requires Ordered(rest) && AllAfter(rest, InstantOf(starting))
    ensures StrictlyIncreasing(DstList(current, rest, starting, limit, standard))
    decreases limit
  {
    hide FromTimestamp, DstList, Ordered, AllAfter, FirstChange;
    var k := FirstChange(rest, current);
    ListStep(current, rest, starting, limit, standard);
    if limit > 0 && k < |rest| {
      NextIsLater(rest, k, starting);
      var until := FromTimestamp(rest[k].at);
      ListIncreases(rest[k].offset, rest[k + 1..], until, limit - 1, standard);
      MoreIncreases(DstEntry(current - standard, starting, Some(until)),
                    DstList(rest[k].offset, rest[k + 1..], until, limit - 1, standard));
    }
  }

  /** A smaller capacity yields a prefix of the list for a larger one. */
  lemma {:induction false} SmallerIsPrefix(current: int, rest: seq<Transition>, starting: nat, a: nat, b: nat,
                                           standard: int)
    requires a <= b
    ensures DstList(current, rest, starting, a, standard) <= DstList(current, rest, starting, b, standard)
    decreases a
  {
    hide FromTimestamp, DstList, FirstChange;
    var k := FirstChange(rest, current);
    ListStep(current, rest, starting, a, standard);
    ListStep(current, rest, starting, b, standard);
    if a > 0 && k < |rest| {
      SmallerIsPrefix(rest[k].offset, rest[k + 1..], FromTimestamp(rest[k].at), a - 1, b - 1, standard);
    }
  }

  /** The canonical form of a built list, for every zone, capacity and start. */
  lemma CanonicalForm(zone: Zone, probes: Probes, maxEntries: nat, from: Timestamp)
    requires zone.Valid()
    ensures var list := DstListFrom(zone, probes, maxEntries, from);
      var changes := Changes(ToOffset(zone, from), Following(zone.transitions, from));
      var room := if maxEntries == 0 then 1 else maxEntries;
      && Contiguous(list, 0)
      && |list| == (if changes < room then changes + 1 else room)
      && (list[|list| - 1].validUntil.None? <==> changes < room)
      && (from >= MATTER_EPOCH ==> StrictlyIncreasing(list))
      && (forall larger: nat :: room <= larger ==> list <= DstListFrom(zone, probes, larger, from))
  {
    var current, rest := ToOffset(zone, from), Following(zone.transitions, from);
    var standard := StandardOffset(zone, probes);
    hide DstList, ToOffset, StandardOffset, Changes, Following, FromTimestamp;
    ListShape(current, rest, 0, Limit(maxEntries), standard);
    FollowingIsLater(zone.transitions, from);
    if from >= MATTER_EPOCH {
      ListIncreases(current, rest, 0, Limit(maxEntries), standard);
    }
    forall larger: nat | Limit(maxEntries) <= larger
      ensures DstListFrom(zone, probes, maxEntries, from) <= DstListFrom(zone, probes, larger, from)
    {
      SmallerIsPrefix(current, rest, 0, Limit(maxEntries), larger, standard);
    }
  }

  lemma {:induction false} IncreasesFromFirstChange(current: int, rest: seq<Transition>, limit: nat, standard: int)
    requires Ordered(rest) && limit > 0
    requires var k := FirstChange(rest, current); k < |rest| ==> rest[k].at > MATTER_EPOCH
    ensures StrictlyIncreasing(DstList(current, rest, 0, limit, standard))
  {
    hide FromTimestamp, DstList, FirstChange;
    var k := FirstChange(rest, current);
    ListStep(current, rest, 0, limit, standard);
    if k < |rest| {
      LaterStaysLater(0, rest[k].at);
      var until := FromTimestamp(rest[k].at);
      ListIncreases(rest[k].offset, rest[k + 1..], until, limit - 1, standard);
      MoreIncreases(DstEntry(current - standard, 0, Some(until)),
                    DstList(rest[k].offset, rest[k + 1..], until, limit - 1, standard));
    }
  }

  /** Strict order fails exactly when the next offset change lies at or before the Matter
      epoch, where conversion clamps: the first entry is then empty. */
  lemma StrictOrderExactly(zone: Zone, probes: Probes, maxEntries: nat, from: Timestamp)
    requires zone.Valid()
    ensures StrictlyIncreasing(DstListFrom(zone, probes, maxEntries, from)) <==>
      (var next := NextOffsetTransition(zone, from); next.None? || next.value.at > MATTER_EPOCH)
  {
    var current, rest := ToOffset(zone, from), Following(zone.transitions, from);
    var standard := StandardOffset(zone, probes);
    hide DstList, ToOffset, StandardOffset;
    var k := FirstChange(rest, current);
    FollowingIsLater(zone.transitions, from);
    FirstEntryIs(current, rest, 0, Limit(maxEntries), standard);
    if k < |rest| && rest[k].at <= MATTER_EPOCH {
      FromTimestampMeaning(rest[k].at);
    } else {
      IncreasesFromFirstChange(current, rest, Limit(maxEntries), standard);
    }
  }

  // --- the meaning of a list ------------------------------------------------------------------

  /** Conversion keeps order, and tells an instant from a later change exactly as far as the
      device can. */
  lemma ConversionKeepsOrder(t: Timestamp, at: Timestamp)
    ensures t <= at ==> FromTimestamp(t) <= FromTimestamp(at)
    ensures at % 1_000 == 0 ==> (FromTimestamp(t) < FromTimestamp(at) <==> Clamped(t) < at)
  {
    FromTimestampMeaning(t);
    FromTimestampMeaning(at);
  }

  /** No change ahead converts to less than `starting`. */
  ghost predicate StartsBy(ts: seq<Transition>, starting: nat) {
    forall i :: 0 <= i < |ts| ==> starting <= FromTimestamp(ts[i].at)
  }

  lemma StartsByAt(ts: seq<Transition>, starting: nat, k: nat)
    requires StartsBy(ts, starting) && k < |ts|
    ensures starting <= FromTimestamp(ts[k].at)
  {
  }

  lemma StartsByNext(ts: seq<Transition>, k: nat)
    requires Ordered(ts) && k < |ts|
    ensures Ordered(ts[k + 1..]) && StartsBy(ts[k + 1..], FromTimestamp(ts[k].at))
  {
    forall i | k < i < |ts| ensures FromTimestamp(ts[k].at) <= FromTimestamp(ts[i].at) {
      ConversionKeepsOrder(ts[k].at, ts[i].at);
    }
  }

  /** Entries may be empty before the epoch, never reversed. */
  ghost predicate Increasing(list: seq<DstEntry>) {
    forall i :: 0 <= i < |list| ==> list[i].validUntil.None? || list[i].validStarting <= list[i].validUntil.value
  }

  lemma MoreGrows(e: DstEntry, tail: seq<DstEntry>)
    requires Increasing(tail) && (e.validUntil.None? || e.validStarting <= e.validUntil.value)
    ensures Increasing([e] + tail)
  {
  }

  lemma {:induction false} ListGrows(current: int, rest: seq<Transition>, starting: nat, limit: nat, standard: int)
    requires Ordered(rest) && StartsBy(rest, starting)
    ensures Increasing(DstList(current, rest, starting, limit, standard))
    decreases limit
  {
    hide FromTimestamp, DstList, Ordered, StartsBy, FirstChange;
    var k := FirstChange(rest, current);
    ListStep(current, rest, starting, limit, standard);
    if limit > 0 && k < |rest| {
      StartsByAt(rest, starting, k);
      StartsByNext(rest, k);
      var until := FromTimestamp(rest[k].at);
      ListGrows(rest[k].offset, rest[k + 1..], until, limit - 1, standard);
      MoreGrows(DstEntry(current - standard, starting, Some(until)),
                DstList(rest[k].offset, rest[k + 1..], until, limit - 1, standard));
    }
  }

  lemma {:induction false} NoneActiveBefore(list: seq<DstEntry>, starting: nat, u: nat)
    requires Contiguous(list, starting) && Increasing(list) && u < starting
    ensures forall j :: 0 <= j < |list| ==> !Active(list[j], u)
  {
    if |list| > 1 {
      assert Contiguous(list[1..], list[1].validStarting);
      NoneActiveBefore(list[1..], list[1].validStarting, u);
      forall j | 0 <= j < |list| ensures !Active(list[j], u) {
        if j > 0 { assert list[j] == list[1..][j - 1]; }
      }
    }
  }

  lemma FirstOnly(list: seq<DstEntry>, starting: nat, u: nat)
    requires Contiguous(list, starting) && Increasing(list) && Active(list[0], u)
    ensures ExactlyOneActive(list, u)
  {
    if |list| > 1 {
      assert Contiguous(list[1..], list[1].validStarting);
      NoneActiveBefore(list[1..], list[1].validStarting, u);
      forall j | 0 <= j < |list| && j != 0 ensures !Active(list[j], u) {
        assert list[j] == list[1..][j - 1];
      }
    }
  }

  lemma RestOnly(list: seq<DstEntry>, u: nat)
    requires list != [] && !Active(list[0], u) && ExactlyOneActive(list[1..], u)
    ensures ExactlyOneActive(list, u)
  {
    var tail := list[1..];
    var i :| 0 <= i < |tail| && Active(tail[i], u) && forall j :: 0 <= j < |tail| && j != i ==> !Active(tail[j], u);
    forall j | 0 <= j < |list| && j != i + 1 ensures !Active(list[j], u) {
      if j > 0 { assert list[j] == tail[j - 1]; }
    }
    assert Active(list[i + 1], u);
  }

  /** Exactly one entry is active wherever the list reaches, and with it the sum is the zone's. */
  lemma {:induction false} ListMeaningFrom(current: int, rest: seq<Transition>, starting: nat, limit: nat,
                                           standard: int, t: Timestamp)
    requires Ordered(rest) && StartsBy(rest, starting)
    requires limit > 0 && starting <= FromTimestamp(t)
    requires Covers(DstList(current, rest, starting, limit, standard), FromTimestamp(t))
    ensures var list, u := DstList(current, rest, starting, limit, standard), FromTimestamp(t);
      ExactlyOneActive(list, u) && standard + DstAt(list, u) == OffsetAt(current, rest, Clamped(t))
    decreases limit
  {
    hide DstList, OffsetAt, Changes, ExactlyOneActive, StartsBy;
    var list, u := DstList(current, rest, starting, limit, standard), FromTimestamp(t);
    var k := FirstChange(rest, current);
    FirstEntryIs(current, rest, starting, limit, standard);
    ListShape(current, rest, starting, limit, standard);
    ListGrows(current, rest, starting, limit, standard);
    SkipRepeats(current, rest, k, Clamped(t));
    if k < |rest| { ConversionKeepsOrder(t, rest[k].at); }
    if k == |rest| || Clamped(t) < rest[k].at {
      FirstOnly(list, starting, u);
    } else {
      assert |list| > 1;
      StartsByNext(rest, k);
      RestOfList(current, rest, starting, limit, standard);
      ListMeaningFrom(rest[k].offset, rest[k + 1..], FromTimestamp(rest[k].at), limit - 1, standard, t);
      RestOnly(list, u);
    }
  }

  /** For every zone, capacity and start: from the start until the list expires, each instant lies
      in exactly one entry, and standard offset plus that entry's offset is the zone's true offset,
      whatever the probes returned. Instants before the Matter epoch, which a device cannot tell
      apart, get the epoch's offset: right exactly when that is theirs too. */
  lemma ListMeaning(zone: Zone, probes: Probes, maxEntries: nat, from: Timestamp, t: Timestamp)
    requires zone.Valid() && from <= t
    requires Covers(DstListFrom(zone, probes, maxEntries, from), FromTimestamp(t))
    ensures var list, u := DstListFrom(zone, probes, maxEntries, from), FromTimestamp(t);
      && ExactlyOneActive(list, u)
      && StandardOffset(zone, probes) + DstAt(list, u) == ToOffset(zone, Clamped(t))
      && (StandardOffset(zone, probes) + DstAt(list, u) == ToOffset(zone, t) <==>
            t >= MATTER_EPOCH || ToOffset(zone, t) == ToOffset(zone, MATTER_EPOCH))
  {
    hide DstAt, OffsetAt, ExactlyOneActive, Covers, StandardOffset;
    FollowingIsLater(zone.transitions, from);
    RestartAt(zone.initial, zone.transitions, from, Clamped(t));
    ListMeaningFrom(ToOffset(zone, from), Following(zone.transitions, from), 0, Limit(maxEntries),
                    StandardOffset(zone, probes), t);
  }

  lemma FaithfulEverywhere(zone: Zone, probes: Probes, maxEntries: nat, from: Timestamp)
    requires zone.Valid()
    ensures var list := DstListFrom(zone, probes, maxEntries, from);
      && (if maxEntries == 0 then |list| == 1 else 1 <= |list| <= maxEntries)
      && (|list| < maxEntries ==> list[|list| - 1].validUntil.None?)
      && Contiguous(list, 0) && Faithful(zone, StandardOffset(zone, probes), list, from)
  {
    hide StandardOffset, ToOffset, DstAt, Covers;
    var list := DstListFrom(zone, probes, maxEntries, from);
    ListShape(ToOffset(zone, from), Following(zone.transitions, from), 0, Limit(maxEntries),
              StandardOffset(zone, probes));
    forall t: Timestamp | from <= t && Covers(list, FromTimestamp(t))
      ensures ExactlyOneActive(list, FromTimestamp(t))
      ensures StandardOffset(zone, probes) + DstAt(list, FromTimestamp(t)) == ToOffset(zone, Clamped(t))
    {
      ListMeaning(zone, probes, maxEntries, from, t);
    }
  }

  // --- how far a list reaches, in the zone's own terms ------------------------------------------

  /** How often the offset has really changed by `t`. */
  function ChangesBy(current: int, ts: seq<Transition>, t: Timestamp): nat
    decreases |ts|
  {
    var k := FirstChange(ts, current);
    if k == |ts| || t < ts[k].at then 0 else 1 + ChangesBy(ts[k].offset, ts[k + 1..], t)
  }

  function ChangesBetween(zone: Zone, from: Timestamp, t: Timestamp): nat {
    ChangesBy(ToOffset(zone, from), Following(zone.transitions, from), t)
  }

  lemma {:induction false} ChangesByIs(current: int, ts: seq<Transition>, t: Timestamp)
    requires Ordered(ts)
    ensures var k := FirstChange(ts, current);
      ChangesBy(current, ts, t) == if k == |ts| || t < ts[k].at then 0 else 1 + ChangesBy(ts[k].offset, ts[k + 1..], t)
    ensures (forall i :: 0 <= i < |ts| ==> t < ts[i].at) ==> ChangesBy(current, ts, t) == 0
  {
  }

  lemma {:induction false} ReachFrom(current: int, rest: seq<Transition>, starting: nat, limit: nat, standard: int,
                                     t: Timestamp)
    requires Ordered(rest) && limit > 0
    ensures Covers(DstList(current, rest, starting, limit, standard), FromTimestamp(t))
      <==> ChangesBy(current, rest, Clamped(t)) < limit
    decreases limit
  {
    hide DstList, ChangesBy, FromTimestamp, FirstChange, Clamped;
    var list, k := DstList(current, rest, starting, limit, standard), FirstChange(rest, current);
    FirstEntryIs(current, rest, starting, limit, standard);
    ChangesByIs(current, rest, Clamped(t));
    if k < |rest| {
      ConversionKeepsOrder(t, rest[k].at);
      RestOfList(current, rest, starting, limit, standard);
      ChangesByIs(rest[k].offset, rest[k + 1..], Clamped(t));
      if limit > 1 {
        FirstEntryIs(rest[k].offset, rest[k + 1..], FromTimestamp(rest[k].at), limit - 1, standard);
        assert list[|list| - 1] == list[1..][|list| - 2];
        ReachFrom(rest[k].offset, rest[k + 1..], FromTimestamp(rest[k].at), limit - 1, standard, t);
      }
    }
  }

  /** A list has expired exactly when as many offset changes have passed as it has room for. */
  lemma CoversExactly(zone: Zone, probes: Probes, maxEntries: nat, from: Timestamp, t: Timestamp)
    requires zone.Valid()
    ensures Covers(DstListFrom(zone, probes, maxEntries, from), FromTimestamp(t))
      <==> ChangesBetween(zone, from, Clamped(t)) < if maxEntries == 0 then 1 else maxEntries
  {
    FollowingIsLater(zone.transitions, from);
    ReachFrom(ToOffset(zone, from), Following(zone.transitions, from), 0, Limit(maxEntries),
              StandardOffset(zone, probes), t);
  }

  /** A device that is not refreshed falls back to standard time when its list expires. */
  lemma ExpiredIsStandard(zone: Zone, probes: Probes, maxEntries: nat, from: Timestamp, t: Timestamp)
    requires zone.Valid() && !Covers(DstListFrom(zone, probes, maxEntries, from), FromTimestamp(t))
    ensures var list := DstListFrom(zone, probes, maxEntries, from);
      && DstAt(list, FromTimestamp(t)) == 0
      && Clock(StandardOffset(zone, probes), list).LocalOffset(t) == StandardOffset(zone, probes)
  {
    hide DstList, OffsetAt, StandardOffset, FromTimestamp;
    var list, u := DstListFrom(zone, probes, maxEntries, from), FromTimestamp(t);
    var current, rest := ToOffset(zone, from), Following(zone.transitions, from);
    FollowingIsLater(zone.transitions, from);
    ListShape(current, rest, 0, Limit(maxEntries), StandardOffset(zone, probes));
    ListGrows(current, rest, 0, Limit(maxEntries), StandardOffset(zone, probes));
    NoneActiveAfter(list, u);
    NoneActive(list, u);
  }

  lemma {:induction false} NoneActiveAfter(list: seq<DstEntry>, u: nat)
    requires list != [] && Contiguous(list, list[0].validStarting) && Increasing(list) && !Covers(list, u)
    ensures forall j :: 0 <= j < |list| ==> !Active(list[j], u)
    ensures list[0].validUntil.Some? && list[0].validUntil.value <= u
  {
    if |list| > 1 {
      NoneActiveAfter(list[1..], u);
      assert list[1] == list[1..][0];
      forall j | 0 <= j < |list| ensures !Active(list[j], u) {
        if j > 0 { assert list[j] == list[1..][j - 1]; }
      }
    }
  }

  lemma {:induction false} NoneActive(list: seq<DstEntry>, u: nat)
    requires forall j :: 0 <= j < |list| ==> !Active(list[j], u)
    ensures DstAt(list, u) == 0
  {
    if list != [] { NoneActive(list[1..], u); }
  }

  /** The entry numbered by the changes passed carries the offset in force. */
  lemma {:induction false} EntryAfterChanges(current: int, rest: seq<Transition>, starting: nat, limit: nat,
                                             standard: int, t: Timestamp)
    requires Ordered(rest) && ChangesBy(current, rest, t) < limit
    ensures var list, n := DstList(current, rest, starting, limit, standard), ChangesBy(current, rest, t);
      n < |list| && standard + list[n].offset == OffsetAt(current, rest, t)
    decreases limit
  {
    hide OffsetAt;
    var k := FirstChange(rest, current);
    SkipRepeats(current, rest, k, t);
    if k < |rest| && rest[k].at <= t {
      EntryAfterChanges(rest[k].offset, rest[k + 1..], FromTimestamp(rest[k].at), limit - 1, standard, t);
    }
  }

  /** Every entry speaks for some instant: that of the change before it. */
  lemma {:induction false} EntryInstant(current: int, rest: seq<Transition>, starting: nat, limit: nat, standard: int,
                                        from: Timestamp, i: nat) returns (t: Timestamp)
    requires Ordered(rest) && AllAfter(rest, from)
    requires i < limit && i < |DstList(current, rest, starting, limit, standard)|
    ensures from <= t && ChangesBy(current, rest, t) == i
    decreases limit
  {
    hide DstList, ChangesBy, FromTimestamp;
    t := from;
    var k := FirstChange(rest, current);
    FirstEntryIs(current, rest, starting, limit, standard);
    if i > 0 {
      if k < |rest| { RestOfList(current, rest, starting, limit, standard); }
      var at := rest[k].at;
      t := EntryInstant(rest[k].offset, rest[k + 1..], FromTimestamp(at), limit - 1, standard, at, i - 1);
    }
    ChangesByIs(current, rest, t);
  }

  /** The standard offset is the smaller probe. A list has no negative entry exactly when, until as
      many offset changes have passed as it has room for, the zone never dips below both probes. */
  lemma {:induction false} NonNegativeExactly(zone: Zone, probes: Probes, maxEntries: nat, from: Timestamp)
    requires zone.Valid()
    ensures var list := DstListFrom(zone, probes, maxEntries, from);
      var january, july := ToOffset(zone, probes.january), ToOffset(zone, probes.july);
      var room := if maxEntries == 0 then 1 else maxEntries;
      (forall i :: 0 <= i < |list| ==> list[i].offset >= 0) <==>
      (forall t: Timestamp :: from <= t && ChangesBetween(zone, from, t) < room ==>
         ToOffset(zone, t) >= january || ToOffset(zone, t) >= july)
  {
    hide OffsetAt, Following, DstList, ChangesBy;
    var list, standard := DstListFrom(zone, probes, maxEntries, from), StandardOffset(zone, probes);
    var current, rest, limit := ToOffset(zone, from), Following(zone.transitions, from), Limit(maxEntries);
    FollowingIsLater(zone.transitions, from);
    ListShape(current, rest, 0, limit, standard);
    forall t: Timestamp | from <= t && ChangesBetween(zone, from, t) < limit
      ensures var n := ChangesBetween(zone, from, t); n < |list| && standard + list[n].offset == ToOffset(zone, t)
    {
      RestartAt(zone.initial, zone.transitions, from, t);
      EntryAfterChanges(current, rest, 0, limit, standard, t);
    }
    if i: nat :| i < |list| && list[i].offset < 0 {
      var t := EntryInstant(current, rest, 0, limit, standard, from, i);
      assert ChangesBetween(zone, from, t) == i;
    }
  }

  /** Morocco in 2025: one hour ahead except in Ramadan, when it falls back to zero. */
  const CASABLANCA :=
    Zone(3600, [Transition(1_740_276_000_000_000_000, 0), Transition(1_743_904_800_000_000_000, 3600)])
  const PROBES_2025 := Probes(1_736_899_200_000_000_000, 1_752_537_600_000_000_000)

  /** Both probes see summer, so Ramadan is a negative entry. */
  lemma {:induction false} RamadanIsNegative(maxEntries: nat)
    requires maxEntries >= 2
    ensures CASABLANCA.Valid() && StandardOffset(CASABLANCA, PROBES_2025) == 3600
    ensures var list := DstListFrom(CASABLANCA, PROBES_2025, maxEntries, PROBES_2025.january);
      |list| >= 2 && list[1].offset == -3600
  {
    hide DstList, FromTimestamp;
    var ts, from, limit := CASABLANCA.transitions, PROBES_2025.january, Limit(maxEntries);
    assert ts[1..] == [ts[1]] && ts[1..][1..] == [];
    assert ToOffset(CASABLANCA, PROBES_2025.july) == OffsetAt(0, ts[1..], PROBES_2025.july) == 3600;
    assert ToOffset(CASABLANCA, from) == 3600 && Following(ts, from) == ts;
    FirstEntryIs(0, ts[1..], FromTimestamp(ts[0].at), limit - 1, 3600);
    FirstEntryIs(3600, ts, 0, limit, 3600);
    RestOfList(3600, ts, 0, limit, 3600);
    var list := DstList(3600, ts, 0, limit, 3600);
    assert list[1..] != [] && list[1] == list[1..][0];
  }

  /** Germany in 1999, the last change before the epoch: a host clock that old makes the first entry
      empty, because its end clamps to the start of Matter time. */
  lemma {:induction false} EmptyBeforeEpoch(probes: Probes, maxEntries: nat)
    ensures var berlin, summer1999 := Zone(7200, [Transition(941_331_600_000_000_000, 3600)]), 930_787_200_000_000_000;
      var list := DstListFrom(berlin, probes, maxEntries, summer1999);
      && berlin.Valid() && !StrictlyIncreasing(list)
      && list[0] == DstEntry(7200 - StandardOffset(berlin, probes), 0, Some(0))
  {
    var berlin, summer1999 := Zone(7200, [Transition(941_331_600_000_000_000, 3600)]), 930_787_200_000_000_000;
    FromTimestampMeaning(941_331_600_000_000_000);
    FirstEntryIs(7200, berlin.transitions, 0, Limit(maxEntries), StandardOffset(berlin, probes));
  }

  // --- runs of syncs -------------------------------------------------------------------------------

  /** One sync: the zone offset is in force on the device from `zoneWritten`; the list, built for
      `from`, from `listWritten`, or never if the device declined it or the exchange failed. */
  datatype ZoneSync = ZoneSync(from: Timestamp, zoneWritten: Timestamp, listWritten: Option<Timestamp>,
                               probes: Probes, maxEntries: nat)

  /** What a device holds: its zone offset and its DST list. */
  datatype Clock = Clock(zoneOffset: int, dst: seq<DstEntry>)
  {
    function LocalOffset(t: Timestamp): int {
      zoneOffset + DstAt(dst, FromTimestamp(t))
    }
  }

  function ListOf(zone: Zone, s: ZoneSync): seq<DstEntry> {
    DstListFrom(zone, s.probes, s.maxEntries, s.from)
  }

  function StandardOf(zone: Zone, s: ZoneSync): int {
    StandardOffset(zone, s.probes)
  }

  /** The sync whose zone offset is in force at `t`. */
  function ZoneAt(syncs: seq<ZoneSync>, t: Timestamp): ZoneSync
    requires syncs != []
  {
    var last := syncs[|syncs| - 1];
    if |syncs| == 1 || last.zoneWritten <= t then last else ZoneAt(syncs[..|syncs| - 1], t)
  }

  /** The sync whose list is in force at `t`. */
  function ListAt(syncs: seq<ZoneSync>, t: Timestamp): ZoneSync
    requires syncs != []
  {
    var last := syncs[|syncs| - 1];
    if |syncs| == 1 || (last.listWritten.Some? && last.listWritten.value <= t) then last
    else ListAt(syncs[..|syncs| - 1], t)
  }

  function HeldAt(zone: Zone, syncs: seq<ZoneSync>, t: Timestamp): Clock
    requires syncs != []
  {
    Clock(StandardOf(zone, ZoneAt(syncs, t)), ListOf(zone, ListAt(syncs, t)))
  }

  /** The last sync that wrote its list. */
  function LastList(syncs: seq<ZoneSync>): ZoneSync
    requires syncs != []
  {
    var last := syncs[|syncs| - 1];
    if |syncs| == 1 || last.listWritten.Some? then last else LastList(syncs[..|syncs| - 1])
  }

  /** Each list is written after the instant it was built for, and before the list in force
      expires. Syncs in between may have failed halfway. */
  ghost predicate Punctual(zone: Zone, syncs: seq<ZoneSync>) {
    && syncs != []
    && (syncs[0].listWritten.Some?)
    && (forall i :: 0 <= i < |syncs| && syncs[i].listWritten.Some? ==>
          && syncs[i].from <= syncs[i].zoneWritten <= syncs[i].listWritten.value
          && (i > 0 ==> Covers(ListOf(zone, LastList(syncs[..i])), FromTimestamp(syncs[i].listWritten.value))))
  }

  lemma CoversEarlier(list: seq<DstEntry>, t: Timestamp, t': Timestamp)
    requires t <= t' && Covers(list, FromTimestamp(t'))
    ensures Covers(list, FromTimestamp(t))
  {
    ConversionKeepsOrder(t, t');
  }

  lemma {:induction false} PunctualBefore(zone: Zone, syncs: seq<ZoneSync>)
    requires Punctual(zone, syncs) && |syncs| > 1
    ensures Punctual(zone, syncs[..|syncs| - 1])
  {
    hide ListOf, Covers, LastList;
    var earlier := syncs[..|syncs| - 1];
    forall i | 0 <= i < |earlier| ensures earlier[i] == syncs[i] && earlier[..i] == syncs[..i] {}
  }

  /** Whatever syncs failed halfway: in a punctual run the list in force never expires before the
      last one does. */
  lemma {:induction false} ListInForce(zone: Zone, syncs: seq<ZoneSync>, t: Timestamp)
    requires Punctual(zone, syncs) && syncs[0].listWritten.value <= t
    requires Covers(ListOf(zone, LastList(syncs)), FromTimestamp(t))
    ensures var s := ListAt(syncs, t);
      s.listWritten.Some? && s.from <= s.listWritten.value <= t && Covers(ListOf(zone, s), FromTimestamp(t))
    decreases |syncs|
  {
    hide ListOf, Covers;
    var n := |syncs| - 1;
    var last := syncs[n];
    if n > 0 && !(last.listWritten.Some? && last.listWritten.value <= t) {
      if last.listWritten.Some? {
        CoversEarlier(ListOf(zone, LastList(syncs[..n])), t, last.listWritten.value);
      }
      PunctualBefore(zone, syncs);
      ListInForce(zone, syncs[..n], t);
    }
  }

  /** A zone offset of one sync beside a list of another: off by the difference of the two standard
      offsets, so right exactly when these agree. */
  lemma DeclinedListExactly(zone: Zone, prior: ZoneSync, probes: Probes, t: Timestamp)
    requires zone.Valid() && prior.from <= t
    requires Covers(ListOf(zone, prior), FromTimestamp(t))
    ensures var clock, standard := Clock(StandardOffset(zone, probes), ListOf(zone, prior)), StandardOf(zone, prior);
      && clock.LocalOffset(t) == ToOffset(zone, Clamped(t)) + StandardOffset(zone, probes) - standard
      && (t >= MATTER_EPOCH ==>
            (clock.LocalOffset(t) == ToOffset(zone, t) <==> StandardOffset(zone, probes) == standard))
  {
    ListMeaning(zone, prior.probes, prior.maxEntries, prior.from, t);
  }

  /** Every sync begun by `t` has finished both writes. */
  ghost predicate NoneUnderway(syncs: seq<ZoneSync>, t: Timestamp) {
    forall s :: s in syncs && s.zoneWritten <= t ==> s.listWritten.Some? && s.listWritten.value <= t
  }

  lemma {:induction false} SameInForce(zone: Zone, syncs: seq<ZoneSync>, t: Timestamp)
    requires Punctual(zone, syncs) && NoneUnderway(syncs, t)
    ensures ZoneAt(syncs, t) == ListAt(syncs, t)
    decreases |syncs|
  {
    hide ListOf, Covers, LastList;
    if |syncs| > 1 {
      assert syncs[|syncs| - 1] in syncs;
      PunctualBefore(zone, syncs);
      SameInForce(zone, syncs[..|syncs| - 1], t);
    }
  }

  /** Over any punctual run of syncs, however many failed halfway: at every instant from the first
      list on until the last list expires, the device shows the tzdb offset exactly when the zone
      offset and the list in force come from the same standard offset, and is otherwise off by
      their difference. There is no gap and no stale hour wherever every sync begun has finished, nor
      anywhere while the standard offset never changes. */
  lemma {:induction false} DeviceFollowsZone(zone: Zone, syncs: seq<ZoneSync>, t: Timestamp)
    requires zone.Valid() && Punctual(zone, syncs) && syncs[0].listWritten.value <= t
    requires Covers(ListOf(zone, LastList(syncs)), FromTimestamp(t))
    ensures var shown, z, l := HeldAt(zone, syncs, t).LocalOffset(t), ZoneAt(syncs, t), ListAt(syncs, t);
      && shown == ToOffset(zone, Clamped(t)) + StandardOf(zone, z) - StandardOf(zone, l)
      && (t >= MATTER_EPOCH ==> (shown == ToOffset(zone, t) <==> StandardOf(zone, z) == StandardOf(zone, l)))
    ensures t >= MATTER_EPOCH && (forall s :: s in syncs ==> StandardOf(zone, s) == StandardOf(zone, syncs[0])) ==>
      HeldAt(zone, syncs, t).LocalOffset(t) == ToOffset(zone, t)
    ensures t >= MATTER_EPOCH && NoneUnderway(syncs, t) ==> HeldAt(zone, syncs, t).LocalOffset(t) == ToOffset(zone, t)
  {
    hide StandardOf, ListOf, ToOffset, ZoneAt, ListAt, LastList, Covers;
    ListInForce(zone, syncs, t);
    var z, l := ZoneAt(syncs, t), ListAt(syncs, t);
    DeclinedListExactly(zone, l, z.probes, t);
    assert StandardOf(zone, z) == StandardOffset(zone, z.probes) by { StandardOfIs(zone, z); }
    InForceAreSyncs(syncs, t);
    if NoneUnderway(syncs, t) { SameInForce(zone, syncs, t); }
  }

  lemma StandardOfIs(zone: Zone, s: ZoneSync)
    ensures StandardOf(zone, s) == StandardOffset(zone, s.probes)
  {
  }

  lemma {:induction false} InForceAreSyncs(syncs: seq<ZoneSync>, t: Timestamp)
    requires syncs != []
    ensures ZoneAt(syncs, t) in syncs && ListAt(syncs, t) in syncs
    decreases |syncs|
  {
    if |syncs| > 1 { InForceAreSyncs(syncs[..|syncs| - 1], t); }
  }
}
