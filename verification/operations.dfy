/** The on-wire operations as loops over devices and ordered writes to the state files. What
    devices answer, and when, is input. */
module Operations {
  import opened Wrappers
  import opened MatterTime
  import opened FileSystem
  import opened Documents
  import opened Storage
  import opened Paths
  import Zones

  datatype StateError = StateWriteFailed

  // --- one device: sync ----------------------------------------------------------------

  datatype Answer<T> = Got(value: T) | Lost(error: string)

  datatype FeatureRead = Features(map': nat) | NoCluster | FeatureReadFailed(error: string)

  /** What one device answers to the steps of a sync, in order, and the host time at the write. */
  datatype Conversation = Conversation(
    features: FeatureRead,
    before: Answer<Option<u64>>,
    hostAtWrite: u64,
    setUtcTime: Answer<()>,
    zoneAndDst: Answer<nat>,
    after: Answer<Option<u64>>)

  datatype SyncOutcome = SyncOutcome(
    nodeId: nat, success: bool, skipped: bool, error: Option<string>,
    utcTimeWritten: Option<u64>, dstEntriesWritten: nat, deltaAfter: Option<i64>, verified: bool)

  function Failed(node: nat, error: string): SyncOutcome {
    SyncOutcome(node, false, false, Some(error), None, 0, None, false)
  }

  function Skipped(node: nat, reason: string): SyncOutcome {
    SyncOutcome(node, false, true, Some(reason), None, 0, None, false)
  }

  /** Bit 0 of the feature map. */
  predicate HasTimeZone(features: nat) {
    features % 2 == 1
  }

  const NO_CLUSTER := "no Time Synchronization cluster"
  const VERIFICATION_FAILED := "read-back verification failed"

  /** The time given by the operator, or the host's. */
  function ToWrite(c: Conversation, manual: Option<u64>): u64 {
    match manual case Some(t) => t case None => c.hostAtWrite
  }

  function SyncOne(node: nat, c: Conversation, manual: Option<u64>): Result<SyncOutcome, string> {
    match c.features
    case NoCluster => Ok(Skipped(node, NO_CLUSTER))
    case FeatureReadFailed(e) => Err(e)
    case Features(features) =>
      match c.before
      case Lost(e) => Err(e)
      case Got(_) =>
        var utc := ToWrite(c, manual);
        match c.setUtcTime
        case Lost(e) => Err(e)
        case Got(_) =>
          if HasTimeZone(features) && c.zoneAndDst.Lost? then Err(c.zoneAndDst.error)
          else
            match c.after
            case Lost(e) => Err(e)
            case Got(reading) =>
              var delta := Compare(reading, utc).EffectiveDeltaMicros();
              var verified := delta.Some? && UnsignedAbs(delta.value) <= VERIFY_TOLERANCE_MICROS;
              if !verified then Err(VERIFICATION_FAILED)
              else
                Ok(SyncOutcome(node, true, false, None, Some(utc),
                               if HasTimeZone(features) then c.zoneAndDst.value else 0, delta, true))
  }

  /** An error becomes this device's own outcome; it never reaches the others. */
  function OutcomeOf(node: nat, c: Conversation, manual: Option<u64>): SyncOutcome {
    match SyncOne(node, c, manual) case Ok(o) => o case Err(e) => Failed(node, e)
  }

  /** Every exchange a sync needs was answered, and the clock read back lies within five seconds of
      the written value, as numbers, or of that value shifted by the Unix/Matter epoch distance. */
  predicate AnsweredAndTrue(c: Conversation, manual: Option<u64>) {
    && c.features.Features? && c.before.Got? && c.setUtcTime.Got?
    && (c.features.map' % 2 == 1 ==> c.zoneAndDst.Got?)
    && c.after.Got? && c.after.value.Some?
    && var difference := c.after.value.value - if manual.Some? then manual.value else c.hostAtWrite;
       || -5_000_000 <= difference <= 5_000_000
       || -5_000_000 <= difference - 946_684_800_000_000 <= 5_000_000
  }

  /** A sync succeeds exactly then, saturating arithmetic notwithstanding. What is written and
      verified against is the operator's time if there is one, whatever the host clock says, and
      the host's otherwise; a successful outcome reports it with the entries written and the true
      difference, folded where only the folded one is within tolerance. */
  lemma SyncSucceedsExactly(node: nat, c: Conversation, manual: Option<u64>)
    ensures OutcomeOf(node, c, manual).success <==> AnsweredAndTrue(c, manual)
    ensures OutcomeOf(node, c, manual).success ==>
      var written := if manual.Some? then manual.value else c.hostAtWrite;
      var difference := c.after.value.value - written;
      OutcomeOf(node, c, manual) == SyncOutcome(
        node, true, false, None, Some(written), if c.features.map' % 2 == 1 then c.zoneAndDst.value else 0,
        Some(if -5_000_000 <= difference <= 5_000_000 then difference else difference - 946_684_800_000_000), true)
  {
    if c.after.Got? && c.after.value.Some? {
      VerificationExact(c.after.value.value, ToWrite(c, manual));
      AssessmentExact(c.after.value.value, ToWrite(c, manual));
    }
  }

  /** A device without the cluster is skipped, and asked nothing else; any other failure carries the
      text of the first exchange that went wrong, or of the verification. */
  lemma SyncFailsWith(node: nat, c: Conversation, manual: Option<u64>)
    requires !OutcomeOf(node, c, manual).success
    ensures var o := OutcomeOf(node, c, manual);
      o == SyncOutcome(node, false, c.features.NoCluster?, o.error, None, 0, None, false)
    ensures OutcomeOf(node, c, manual).error == Some(
      if c.features.NoCluster? then "no Time Synchronization cluster"
      else if c.features.FeatureReadFailed? then c.features.error
      else if c.before.Lost? then c.before.error
      else if c.setUtcTime.Lost? then c.setUtcTime.error
      else if c.features.map' % 2 == 1 && c.zoneAndDst.Lost? then c.zoneAndDst.error
      else if c.after.Lost? then c.after.error
      else "read-back verification failed")
  {
  }

  // --- the sync loop ------------------------------------------------------------------------

  /** The readings of the host clock around one device. */
  datatype Stamps = Stamps(attempted: Timestamp, synced: Timestamp, connected: Timestamp)

  function AttemptPatch(s: Stamps): Patch {
    (d: DeviceRecord) => d.(lastAttemptedSync := Some(s.attempted))
  }

  function OutcomePatch(o: SyncOutcome, s: Stamps): Patch {
    (d: DeviceRecord) =>
      if o.success then
        d.(lastSuccessfulSync := Some(s.synced), lastSuccessfulConnection := Some(s.connected), lastError := None)
      else d.(lastError := o.error)
  }

  function AfterOne(registry: Registry, o: SyncOutcome, s: Stamps): Registry {
    Merged(Merged(registry, o.nodeId, AttemptPatch(s)), o.nodeId, OutcomePatch(o, s))
  }

  /** The registry after a batch: one merge per device, in order. */
  function AfterSync(registry: Registry, outcomes: seq<SyncOutcome>, stamps: seq<Stamps>): Registry
    requires |outcomes| == |stamps|
    decreases |outcomes|
  {
    if outcomes == [] then registry
    else
      var n := |outcomes| - 1;
      AfterOne(AfterSync(registry, outcomes[..n], stamps[..n]), outcomes[n], stamps[n])
  }

  /** Only the registry ever changed: identity and fabrics are as before at every crash point. */
  ghost predicate RegistryOnly(h: seq<Disk<Token>>, from: nat, v: View) {
    forall i :: from <= i < |h| ==> Sane(h[i]) && Seen(h[i]).(registry := v.registry) == v
  }

  lemma StaysRegistryOnly(h: seq<Disk<Token>>, h': seq<Disk<Token>>, from: nat, v: View, a: View, b: View)
    requires from <= |h| && h <= h' && RegistryOnly(h, from, v) && Shows(h', |h|, a, b)
    requires a.(registry := v.registry) == v && b.(registry := v.registry) == v
    ensures RegistryOnly(h', from, v)
  {
    forall i | from <= i < |h'| ensures Sane(h'[i]) && Seen(h'[i]).(registry := v.registry) == v {
      if i < |h| { assert h'[i] == h[i]; }
    }
  }

  method RunSync(volume: Volume<Token>, targets: seq<nat>, conversations: seq<Conversation>, manual: Option<u64>,
                 stamps: seq<Stamps>) returns (r: Result<seq<SyncOutcome>, StateError>)
    requires volume.newline == EndOfLine && Sane(volume.disk)
    requires |conversations| == |stamps| == |targets|
    modifies volume
    ensures Sane(volume.disk)
    ensures old(volume.faults) <= volume.faults && (r.Ok? <==> volume.faults == old(volume.faults))
    ensures r.Ok? ==>
      && |r.value| == |targets|
      && (forall i :: 0 <= i < |targets| ==> r.value[i] == OutcomeOf(targets[i], conversations[i], manual))
      && var before := old(Seen(volume.disk));
         Seen(volume.disk) == before.(registry := AfterSync(before.registry, r.value, stamps))
    ensures old(volume.history) <= volume.history
    ensures RegistryOnly(volume.history, |old(volume.history)|, old(Seen(volume.disk)))
  {
    hide Sane, Seen, Shows, RegistryOnly, Merged, OutcomeOf, AttemptPatch, OutcomePatch;
    ghost var v, from := Seen(volume.disk), |volume.history|;
    NothingRecorded(volume.history, v);
    var outcomes := [];
    for i := 0 to |targets|
      invariant Sane(volume.disk) && volume.faults == old(volume.faults)
      invariant |outcomes| == i
      invariant forall j :: 0 <= j < i ==> outcomes[j] == OutcomeOf(targets[j], conversations[j], manual)
      invariant Seen(volume.disk) == v.(registry := AfterSync(v.registry, outcomes, stamps[..i]))
      invariant old(volume.history) <= volume.history
      invariant RegistryOnly(volume.history, from, v)
    {
      var node := targets[i];
      ghost var v0, h := Seen(volume.disk), volume.history;
      var ok := UpdateDevice(volume, node, AttemptPatch(stamps[i]));
      ghost var v1 := v0.(registry := Merged(v0.registry, node, AttemptPatch(stamps[i])));
      StaysRegistryOnly(h, volume.history, from, v, v0, v1);
      if !ok { return Err(StateWriteFailed); }
      var outcome := OutcomeOf(node, conversations[i], manual);
      h := volume.history;
      ok := UpdateDevice(volume, node, OutcomePatch(outcome, stamps[i]));
      ghost var v2 := v1.(registry := Merged(v1.registry, node, OutcomePatch(outcome, stamps[i])));
      StaysRegistryOnly(h, volume.history, from, v, v1, v2);
      if !ok { return Err(StateWriteFailed); }
      OutcomeNames(node, conversations[i], manual);
      ExtendSync(v.registry, outcomes, stamps[..i], outcome, stamps[i]);
      assert stamps[..i + 1] == stamps[..i] + [stamps[i]];
      outcomes := outcomes + [outcome];
    }
    assert stamps[..|targets|] == stamps;
    return Ok(outcomes);
  }

  lemma NothingRecorded(h: seq<Disk<Token>>, v: View)
    ensures RegistryOnly(h, |h|, v)
  {
  }

  lemma OutcomeNames(node: nat, c: Conversation, manual: Option<u64>)
    ensures OutcomeOf(node, c, manual).nodeId == node
  {
  }

  lemma {:induction false} ExtendSync(registry: Registry, outcomes: seq<SyncOutcome>, stamps: seq<Stamps>,
                                      o: SyncOutcome, s: Stamps)
    requires |outcomes| == |stamps|
    ensures AfterSync(registry, outcomes + [o], stamps + [s]) == AfterOne(AfterSync(registry, outcomes, stamps), o, s)
  {
    assert (outcomes + [o])[..|outcomes|] == outcomes && (stamps + [s])[..|stamps|] == stamps;
  }

  ghost predicate Names(outcomes: seq<SyncOutcome>, node: nat) {
    exists i :: 0 <= i < |outcomes| && outcomes[i].nodeId == node
  }

  /** The registry gains exactly the targets. */
  lemma {:induction false} SyncKeys(registry: Registry, outcomes: seq<SyncOutcome>, stamps: seq<Stamps>)
    requires |outcomes| == |stamps|
    ensures forall node :: node in AfterSync(registry, outcomes, stamps) <==> node in registry || Names(outcomes, node)
    decreases |outcomes|
  {
    if outcomes != [] {
      var n := |outcomes| - 1;
      SyncKeys(registry, outcomes[..n], stamps[..n]);
      forall node ensures Names(outcomes, node) <==> Names(outcomes[..n], node) || node == outcomes[n].nodeId {
        if Names(outcomes, node) {
          var i :| 0 <= i < |outcomes| && outcomes[i].nodeId == node;
          if i < n { assert outcomes[..n][i].nodeId == node; }
        }
        if Names(outcomes[..n], node) {
          var i :| 0 <= i < n && outcomes[..n][i].nodeId == node;
          assert outcomes[i].nodeId == node;
        }
        assert outcomes[n].nodeId == outcomes[n].nodeId;
      }
    }
  }

  /** A sync adds no device exactly when every target, chosen before the lock was taken, is still
      recorded when it runs; a device decommissioned in between comes back as a record. */
  lemma {:induction false} SyncAddsNothingExactly(registry: Registry, outcomes: seq<SyncOutcome>, stamps: seq<Stamps>)
    requires |outcomes| == |stamps|
    ensures AfterSync(registry, outcomes, stamps).Keys == registry.Keys
      <==> forall i :: 0 <= i < |outcomes| ==> outcomes[i].nodeId in registry
  {
    SyncKeys(registry, outcomes, stamps);
    var after := AfterSync(registry, outcomes, stamps);
    if after.Keys == registry.Keys {
      forall i | 0 <= i < |outcomes| ensures outcomes[i].nodeId in registry {
        assert Names(outcomes, outcomes[i].nodeId);
        assert outcomes[i].nodeId in after;
      }
    }
    assert (forall i :: 0 <= i < |outcomes| ==> outcomes[i].nodeId in registry) ==>
        forall n :: n in after <==> n in registry;
  }

  /** Devices that were not targets keep their records. */
  lemma {:induction false} SyncLeavesOthers(registry: Registry, outcomes: seq<SyncOutcome>, stamps: seq<Stamps>,
                                            node: nat)
    requires |outcomes| == |stamps| && !Names(outcomes, node)
    ensures node in registry <==> node in AfterSync(registry, outcomes, stamps)
    ensures node in registry ==> AfterSync(registry, outcomes, stamps)[node] == registry[node]
    decreases |outcomes|
  {
    if outcomes != [] {
      var n := |outcomes| - 1;
      assert outcomes[n].nodeId != node;
      assert !Names(outcomes[..n], node) by {
        forall i | 0 <= i < n ensures outcomes[..n][i].nodeId != node { assert outcomes[i].nodeId != node; }
      }
      SyncLeavesOthers(registry, outcomes[..n], stamps[..n], node);
    }
  }

  /** What a sync writes about a device that is one target: the attempt is stamped, the success
      and connection times advance exactly on success, a success clears the error and anything
      else records one, and the cached names stay. */
  lemma {:induction false} SyncRecordsTarget(registry: Registry, outcomes: seq<SyncOutcome>, stamps: seq<Stamps>,
                                             k: nat)
    requires |outcomes| == |stamps| && k < |outcomes|
    requires forall i :: 0 <= i < |outcomes| && i != k ==> outcomes[i].nodeId != outcomes[k].nodeId
    ensures var o := outcomes[k];
      var was := if o.nodeId in registry then registry[o.nodeId] else DeviceRecord(None, None, None, None, None, None);
      o.nodeId in AfterSync(registry, outcomes, stamps)
      && AfterSync(registry, outcomes, stamps)[o.nodeId] == DeviceRecord(
           was.vendorName, was.productName,
           if o.success then Some(stamps[k].connected) else was.lastSuccessfulConnection,
           if o.success then Some(stamps[k].synced) else was.lastSuccessfulSync,
           Some(stamps[k].attempted),
           if o.success then None else o.error)
    decreases |outcomes|
  {
    var n := |outcomes| - 1;
    var node := outcomes[k].nodeId;
    var earlier := AfterSync(registry, outcomes[..n], stamps[..n]);
    if k == n {
      assert !Names(outcomes[..n], node) by {
        forall i | 0 <= i < n ensures outcomes[..n][i].nodeId != node { assert outcomes[i].nodeId != node; }
      }
      SyncLeavesOthers(registry, outcomes[..n], stamps[..n], node);
      assert RecordOf(earlier, node) == RecordOf(registry, node);
    } else {
      assert outcomes[..n][k] == outcomes[k];
      SyncRecordsTarget(registry, outcomes[..n], stamps[..n], k);
      assert outcomes[n].nodeId != node;
    }
  }

  // --- zone and DST -----------------------------------------------------------------------------

  class TimeSyncDevice {
    var clock: Zones.Clock

    constructor (clock: Zones.Clock)
      ensures this.clock == clock
    {
      this.clock := clock;
    }

    /** SetTimeZone, then, unless the device declines it, the capacity read and SetDSTOffset. Any of
        the three may fail, before or after it took effect. Both lists are built for one instant. */
    method WriteZoneAndDst(zone: Zones.Zone, probes: Zones.Probes, now: Timestamp, setZone: Exchange<bool>,
                           maxEntries: Answer<nat>, setDst: Exchange<()>) returns (r: Answer<nat>)
      requires zone.Valid()
      modifies this
      ensures clock.zoneOffset == if setZone.Unsent? then old(clock).zoneOffset else Zones.StandardOffset(zone, probes)
      ensures setZone.Answered? && setZone.value && maxEntries.Got? && !setDst.Unsent? ==>
        && Zones.Faithful(zone, clock.zoneOffset, clock.dst, now) && Zones.Contiguous(clock.dst, 0)
        && (if maxEntries.value == 0 then |clock.dst| == 1 else |clock.dst| <= maxEntries.value)
        && (|clock.dst| < maxEntries.value ==> clock.dst[|clock.dst| - 1].validUntil.None?)
        && clock.dst == Zones.DstListFrom(zone, probes, maxEntries.value, now)
      ensures !setZone.Answered? || !setZone.value || maxEntries.Lost? || setDst.Unsent? ==>
        clock.dst == old(clock).dst
      ensures r.Got? <==> setZone.Answered? && (setZone.value ==> maxEntries.Got? && setDst.Answered?)
      ensures r.Got? ==> r.value == if setZone.value then |clock.dst| else 0
      ensures r.Lost? ==> r.error == if !setZone.Answered? then setZone.error
                                     else if maxEntries.Lost? then maxEntries.error else setDst.error
    {
      var zoneOffset := Zones.StandardOffset(zone, probes);
      if setZone.Unsent? { return Lost(setZone.error); }
      clock := clock.(zoneOffset := zoneOffset);
      if setZone.Unanswered? { return Lost(setZone.error); }
      if !setZone.value { return Got(0); }
      if maxEntries.Lost? { return Lost(maxEntries.error); }
      var list := Zones.BuildDstOffsetList(zone, probes, maxEntries.value, now);
      if setDst.Unsent? { return Lost(setDst.error); }
      clock := clock.(dst := list);
      if setDst.Unanswered? { return Lost(setDst.error); }
      return Got(|list|);
    }
  }

  /** A command sent to a device: it may never arrive, or arrive and its answer be lost. */
  datatype Exchange<T> = Unsent(error: string) | Unanswered(error: string) | Answered(value: T)

  /** What a sync leaves of a device that an earlier sync had set right: untouched it stays right;
      with both writes it is right for the new list's life; with the zone offset alone, because the
      device declined the list or the exchange broke off, it stays right exactly when the standard
      offset is what it was. */
  lemma BrokenOffExactly(zone: Zones.Zone, prior: Zones.ZoneSync, probes: Zones.Probes, now: Timestamp, room: nat,
                         t: Timestamp)
    requires zone.Valid() && MATTER_EPOCH <= t && prior.from <= t && now <= t
    ensures var before := Zones.Clock(Zones.StandardOf(zone, prior), Zones.ListOf(zone, prior));
      var standard := Zones.StandardOffset(zone, probes);
      Zones.Covers(before.dst, FromTimestamp(t)) ==>
        && before.LocalOffset(t) == Zones.ToOffset(zone, t)
        && (Zones.Clock(standard, before.dst).LocalOffset(t) == Zones.ToOffset(zone, t)
            <==> standard == Zones.StandardOf(zone, prior))
    ensures var list := Zones.DstListFrom(zone, probes, room, now);
      Zones.Covers(list, FromTimestamp(t)) ==>
        Zones.Clock(Zones.StandardOffset(zone, probes), list).LocalOffset(t) == Zones.ToOffset(zone, t)
  {
    if Zones.Covers(Zones.ListOf(zone, prior), FromTimestamp(t)) {
      Zones.DeclinedListExactly(zone, prior, prior.probes, t);
      Zones.DeclinedListExactly(zone, prior, probes, t);
    }
    if Zones.Covers(Zones.DstListFrom(zone, probes, room, now), FromTimestamp(t)) {
      Zones.ListMeaning(zone, probes, room, now, t);
    }
  }

  // --- commissioning --------------------------------------------------------------------------------

  /** The device was certified and completed; record it, then advance the next node ID. */
  method FinishCommission(volume: Volume<Token>, identity: Identity, vendorName: Option<string>,
                          productName: Option<string>, connected: Timestamp) returns (r: Result<nat, StateError>)
    requires volume.newline == EndOfLine && Sane(volume.disk)
    requires Seen(volume.disk).identity == Holds(identity)
    modifies volume
    ensures Sane(volume.disk)
    ensures old(volume.faults) <= volume.faults && (r.Ok? <==> volume.faults == old(volume.faults))
    ensures r.Ok? ==>
      var node, was, now := identity.nextDeviceNodeId, old(Seen(volume.disk)).registry, Seen(volume.disk).registry;
      && r.value == node && now.Keys == was.Keys + {node} && (forall n :: n in was && n != node ==> now[n] == was[n])
      && now[node] == (if node in was then was[node] else DeviceRecord(None, None, None, None, None, None)).(
           vendorName := vendorName, productName := productName, lastSuccessfulConnection := Some(connected))
    ensures var before, node := old(Seen(volume.disk)), identity.nextDeviceNodeId;
      var recorded := before.(registry := Merged(before.registry, node, NamePatch(vendorName, productName, connected)));
      var advanced := recorded.(identity := Holds(identity.(nextDeviceNodeId := node + 1)));
      && (r.Ok? ==> r.value == node && Seen(volume.disk) == advanced)
      && (forall i :: |old(volume.history)| <= i < |volume.history| ==>
            Sane(volume.history[i]) && Seen(volume.history[i]) in [before, recorded, advanced])
    ensures old(volume.history) <= volume.history
  {
    hide Sane, Seen, Merged;
    var node := identity.nextDeviceNodeId;
    var ok := UpdateDevice(volume, node, NamePatch(vendorName, productName, connected));
    if !ok { return Err(StateWriteFailed); }
    ghost var h := volume.history;
    ok := StoreDoc(volume, IdentityJson, IdentityDoc(identity.(nextDeviceNodeId := node + 1)));
    forall i | |old(volume.history)| <= i < |h| ensures volume.history[i] == h[i] {}
    if !ok { return Err(StateWriteFailed); }
    return Ok(node);
  }

  function NamePatch(vendorName: Option<string>, productName: Option<string>, connected: Timestamp): Patch {
    (d: DeviceRecord) =>
      d.(vendorName := vendorName, productName := productName, lastSuccessfulConnection := Some(connected))
  }

  // --- decommissioning ----------------------------------------------------------------------------------

  /** A device's fabric table: index to administrator. */
  type FabricTable = map<nat, nat>

  /** How a decommissioning of one device goes: is the table read, does the removal reach the
      device, does its answer come back. */
  datatype Link = Link(readable: bool, delivered: bool, answered: bool)

  datatype DecommissionOutcome = DecommissionOutcome(nodeId: nat, success: bool)

  class Network {
    var tables: map<nat, FabricTable>
    /** Our own administrator. */
    const ours: nat

    constructor (tables: map<nat, FabricTable>, ours: nat)
      ensures this.tables == tables && this.ours == ours
    {
      this.tables, this.ours := tables, ours;
    }

    /** A fabric-filtered read lists only our own rows; the last one listed is kept. */
    method ReadOurFabricIndex(node: nat, link: Link) returns (r: Result<Option<nat>, string>)
      ensures r.Ok? <==> node in tables && link.readable
      ensures r.Ok? && r.value.Some? ==> r.value.value in tables[node] && tables[node][r.value.value] == ours
      ensures r.Ok? && r.value.None? ==> ours !in tables[node].Values
    {
      if node !in tables || !link.readable {
        return Err("unreachable");
      }
      var rows := set i | i in tables[node] && tables[node][i] == ours;
      var index: Option<nat> := None;
      ghost var all := rows;
      while rows != {}
        invariant rows <= all
        invariant index.Some? ==> index.value in all
        invariant index.None? ==> rows == all
        decreases rows
      {
        var i :| i in rows;
        index := Some(i);
        rows := rows - {i};
      }
      assert forall i :: i in tables[node] && tables[node][i] == ours ==> i in all;
      return Ok(index);
    }

    /** The device drops the row if the command arrives. */
    method RemoveFabric(node: nat, index: nat, link: Link) returns (ok: bool)
      requires node in tables
      modifies this`tables
      ensures tables == if link.delivered then old(tables)[node := old(tables)[node] - {index}] else old(tables)
      ensures ok == (link.delivered && link.answered)
    {
      if link.delivered {
        tables := tables[node := tables[node] - {index}];
      }
      return link.delivered && link.answered;
    }

    method DecommissionOne(node: nat, link: Link) returns (ok: bool)
      modifies this`tables
      ensures Attempted(old(tables), tables, ours, node, link, ok)
    {
      var index := ReadOurFabricIndex(node, link);
      if index.Err? || index.value.None? {
        return false;
      }
      assert tables[node][index.value.value] in tables[node].Values;
      ghost var table := tables[node];
      ok := RemoveFabric(node, index.value.value, link);
      assert ok ==> RowDropped(table, tables[node], ours, index.value.value);
    }
  }

  /** One attempt: at most a row of ours on that device is gone; it succeeds exactly when there was
      one and the whole exchange went through, and then that row is gone and nothing else. */
  ghost predicate Attempted(before: map<nat, FabricTable>, after: map<nat, FabricTable>, ours: nat, node: nat,
                            link: Link, ok: bool)
  {
    && OnlyOursRemoved(before, after, ours, {node})
    && (ok ==> node in before && node in after && exists i :: RowDropped(before[node], after[node], ours, i))
    && (!ok && !link.delivered ==> after == before)
    && (ok <==> node in before && link == Link(true, true, true) && ours in before[node].Values)
  }

  /** One of our rows is gone, and nothing else. */
  ghost predicate RowDropped(before: FabricTable, after: FabricTable, ours: nat, i: nat) {
    i in before && before[i] == ours && after == before - {i}
  }

  /** A device has at most one row of ours; then dropping it leaves none. */
  lemma DroppedMeansGone(before: FabricTable, after: FabricTable, ours: nat, i: nat)
    requires RowDropped(before, after, ours, i)
    requires forall a, b :: a in before && b in before && before[a] == ours && before[b] == ours ==> a == b
    ensures ours !in after.Values
  {
    assert forall j :: j in after ==> j != i && after[j] == before[j];
  }

  /** Nothing was added anywhere, no row of another administrator changed, and devices outside
      `targets` were not touched. */
  ghost predicate OnlyOursRemoved(before: map<nat, FabricTable>, after: map<nat, FabricTable>, ours: nat,
                                  targets: set<nat>)
  {
    && after.Keys == before.Keys
    && (forall n :: n in before && n !in targets ==> after[n] == before[n])
    && (forall n, i :: n in before && i in after[n] ==> i in before[n] && after[n][i] == before[n][i])
    && (forall n, i :: n in before && i in before[n] && before[n][i] != ours ==> i in after[n])
  }

  /** A row of ours that the device had is no longer there. */
  ghost predicate Dropped(before: map<nat, FabricTable>, after: map<nat, FabricTable>, ours: nat, node: nat) {
    node in before && node in after && exists k :: k in before[node] && before[node][k] == ours && k !in after[node]
  }

  lemma DroppedStays(a: map<nat, FabricTable>, b: map<nat, FabricTable>, c: map<nat, FabricTable>, ours: nat,
                     t: set<nat>, node: nat)
    requires Dropped(a, b, ours, node) && OnlyOursRemoved(b, c, ours, t)
    ensures Dropped(a, c, ours, node)
  {
    var k :| k in a[node] && a[node][k] == ours && k !in b[node];
    assert k !in c[node];
  }

  lemma DroppedNow(a: map<nat, FabricTable>, b: map<nat, FabricTable>, c: map<nat, FabricTable>, ours: nat,
                   s: set<nat>, node: nat)
    requires OnlyOursRemoved(a, b, ours, s) && node in b && node in c
    requires exists k :: RowDropped(b[node], c[node], ours, k)
    ensures Dropped(a, c, ours, node)
  {
    var k :| RowDropped(b[node], c[node], ours, k);
    assert k in a[node] && a[node][k] == ours;
  }

  lemma OnlyOursRemovedTwice(a: map<nat, FabricTable>, b: map<nat, FabricTable>, c: map<nat, FabricTable>, ours: nat,
                             s: set<nat>, t: set<nat>)
    requires OnlyOursRemoved(a, b, ours, s) && OnlyOursRemoved(b, c, ours, t)
    ensures OnlyOursRemoved(a, c, ours, s + t)
  {
    forall n, i | n in a && i in a[n] && a[n][i] != ours ensures i in c[n] {
      assert i in b[n] && b[n][i] == a[n][i];
    }
    forall n, i | n in a && i in c[n] ensures i in a[n] && c[n][i] == a[n][i] {
      assert i in b[n] && c[n][i] == b[n][i];
    }
  }

  function Succeeded(outcomes: seq<DecommissionOutcome>): set<nat> {
    set i | 0 <= i < |outcomes| && outcomes[i].success :: outcomes[i].nodeId
  }

  function TargetSet(targets: seq<nat>): set<nat> {
    set t | t in targets
  }

  /** The first attempt at a device succeeds exactly when it had a row of ours and the whole
      exchange went through; other devices' failures play no part. */
  ghost predicate SuccessesExact(outcomes: seq<DecommissionOutcome>, targets: seq<nat>, links: seq<Link>,
                                 tables: map<nat, FabricTable>, ours: nat)
    requires |outcomes| <= |targets| == |links|
  {
    forall i :: 0 <= i < |outcomes| && targets[i] !in targets[..i] ==>
      (outcomes[i].success <==>
        targets[i] in tables && links[i] == Link(true, true, true) && ours in tables[targets[i]].Values)
  }

  /** Where a batch stands after some outcomes. */
  ghost predicate Underway(outcomes: seq<DecommissionOutcome>, targets: seq<nat>, links: seq<Link>,
                           tables: map<nat, FabricTable>, now: map<nat, FabricTable>, ours: nat)
  {
    && |outcomes| <= |targets| == |links|
    && (forall i :: 0 <= i < |outcomes| ==> outcomes[i].nodeId == targets[i])
    && OnlyOursRemoved(tables, now, ours, TargetSet(targets[..|outcomes|]))
    && SuccessesExact(outcomes, targets, links, tables, ours)
    && (forall i :: 0 <= i < |outcomes| && outcomes[i].success ==> Dropped(tables, now, ours, targets[i]))
  }

  lemma UnderwayStarts(targets: seq<nat>, links: seq<Link>, tables: map<nat, FabricTable>, ours: nat)
    requires |targets| == |links|
    ensures Underway([], targets, links, tables, tables, ours)
  {
  }

  lemma UnderwayStep(outcomes: seq<DecommissionOutcome>, targets: seq<nat>, links: seq<Link>,
                     tables: map<nat, FabricTable>, now: map<nat, FabricTable>, next: map<nat, FabricTable>,
                     ours: nat, ok: bool)
    requires |outcomes| < |targets| && Underway(outcomes, targets, links, tables, now, ours)
    requires Attempted(now, next, ours, targets[|outcomes|], links[|outcomes|], ok)
    ensures Underway(outcomes + [DecommissionOutcome(targets[|outcomes|], ok)], targets, links, tables, next, ours)
  {
    hide OnlyOursRemoved, Dropped, RowDropped, TargetSet;
    var i := |outcomes|;
    var node, longer := targets[i], outcomes + [DecommissionOutcome(targets[i], ok)];
    UntouchedSoFar(tables, now, ours, targets, i);
    OnlyOursRemovedTwice(tables, now, next, ours, TargetSet(targets[..i]), {node});
    TargetSetGrows(targets, i);
    forall j | 0 <= j < |longer| && longer[j].success ensures Dropped(tables, next, ours, targets[j]) {
      if j < i {
        DroppedStays(tables, now, next, ours, {node}, targets[j]);
      } else {
        DroppedNow(tables, now, next, ours, TargetSet(targets[..i]), node);
      }
    }
  }

  method RunDecommission(volume: Volume<Token>, network: Network, targets: seq<nat>, links: seq<Link>)
    returns (r: Result<seq<DecommissionOutcome>, StateError>)
    requires volume.newline == EndOfLine && Sane(volume.disk) && |links| == |targets|
    modifies volume, network`tables
    ensures Sane(volume.disk)
    ensures old(volume.faults) <= volume.faults && (r.Ok? <==> volume.faults == old(volume.faults))
    ensures OnlyOursRemoved(old(network.tables), network.tables, network.ours, TargetSet(targets))
    ensures r.Ok? ==>
      && |r.value| == |targets|
      && Underway(r.value, targets, links, old(network.tables), network.tables, network.ours)
      && Seen(volume.disk) == old(Seen(volume.disk)).(registry := old(Seen(volume.disk)).registry - Succeeded(r.value))
    ensures old(volume.history) <= volume.history
    ensures RegistryOnly(volume.history, |old(volume.history)|, old(Seen(volume.disk)))
  {
    hide Sane, Seen, Shows, RegistryOnly, OnlyOursRemoved, Succeeded, TargetSet, Underway, Attempted;
    ghost var v, from, tables := Seen(volume.disk), |volume.history|, network.tables;
    NothingRecorded(volume.history, v);
    UnderwayStarts(targets, links, tables, network.ours);
    NoneSucceeded(v.registry);
    var outcomes: seq<DecommissionOutcome> := [];
    for i := 0 to |targets|
      invariant Sane(volume.disk) && volume.faults == old(volume.faults)
      invariant |outcomes| == i
      invariant Underway(outcomes, targets, links, tables, network.tables, network.ours)
      invariant Seen(volume.disk) == v.(registry := v.registry - Succeeded(outcomes))
      invariant old(volume.history) <= volume.history
      invariant RegistryOnly(volume.history, from, v)
    {
      var node := targets[i];
      ghost var midway := network.tables;
      var ok := network.DecommissionOne(node, links[i]);
      UnderwayStep(outcomes, targets, links, tables, midway, network.tables, network.ours, ok);
      SucceededGrows(outcomes, DecommissionOutcome(node, ok));
      ghost var done := outcomes + [DecommissionOutcome(node, ok)];
      if ok {
        ghost var v0, h := Seen(volume.disk), volume.history;
        var written := RemoveDevice(volume, node);
        StaysRegistryOnly(h, volume.history, from, v, v0, v0.(registry := v0.registry - {node}));
        if !written {
          UnderwayBounds(done, targets, links, tables, network.tables, network.ours);
          return Err(StateWriteFailed);
        }
        assert v.registry - Succeeded(outcomes) - {node} == v.registry - (Succeeded(outcomes) + {node});
      }
      outcomes := outcomes + [DecommissionOutcome(node, ok)];
    }
    UnderwayBounds(outcomes, targets, links, tables, network.tables, network.ours);
    return Ok(outcomes);
  }

  lemma UnderwayBounds(outcomes: seq<DecommissionOutcome>, targets: seq<nat>, links: seq<Link>,
                       tables: map<nat, FabricTable>, now: map<nat, FabricTable>, ours: nat)
    requires Underway(outcomes, targets, links, tables, now, ours)
    ensures OnlyOursRemoved(tables, now, ours, TargetSet(targets))
  {
    assert TargetSet(targets[..|outcomes|]) <= TargetSet(targets);
  }

  lemma NoneSucceeded(registry: Registry)
    ensures registry - Succeeded([]) == registry
  {
    assert Succeeded([]) == {};
  }

  lemma TargetSetGrows(targets: seq<nat>, i: nat)
    requires i < |targets|
    ensures TargetSet(targets[..i + 1]) == TargetSet(targets[..i]) + {targets[i]}
  {
    assert targets[..i + 1] == targets[..i] + [targets[i]];
  }

  lemma SucceededGrows(outcomes: seq<DecommissionOutcome>, o: DecommissionOutcome)
    ensures Succeeded(outcomes + [o]) == Succeeded(outcomes) + (if o.success then {o.nodeId} else {})
  {
    var longer := outcomes + [o];
    forall n ensures n in Succeeded(longer) <==> n in Succeeded(outcomes) + (if o.success then {o.nodeId} else {}) {
      if n in Succeeded(outcomes) {
        var i :| 0 <= i < |outcomes| && outcomes[i].success && outcomes[i].nodeId == n;
        assert longer[i].success && longer[i].nodeId == n;
      }
      if o.success && n == o.nodeId { assert longer[|outcomes|] == o; }
    }
  }

  lemma UntouchedSoFar(before: map<nat, FabricTable>, now: map<nat, FabricTable>, ours: nat, targets: seq<nat>, i: nat)
    requires i < |targets| && OnlyOursRemoved(before, now, ours, TargetSet(targets[..i]))
    ensures targets[i] in before <==> targets[i] in now
    ensures targets[i] !in targets[..i] && targets[i] in before ==> now[targets[i]] == before[targets[i]]
  {
  }
}
