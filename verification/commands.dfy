/** The commands: target selection, the time gate, and the exit code. */
module Commands {
  import opened Wrappers
  import opened MatterTime
  import opened FileSystem
  import opened Documents
  import opened Storage
  import opened Operations
  import opened HostClock
  import opened Paths
  import FabricBootstrap

  datatype TargetError = NotCommissioned(node: nat) | NothingCommissioned

  /** `--node` on a device-connecting command, against the registry's node IDs in order. */
  function ResolveOrEmpty(known: seq<nat>, node: Option<nat>): Result<seq<nat>, TargetError> {
    match node
    case None => Ok(known)
    case Some(n) => if n in known then Ok([n]) else Err(NotCommissioned(n))
  }

  function Resolve(known: seq<nat>, node: Option<nat>): Result<seq<nat>, TargetError> {
    match ResolveOrEmpty(known, node)
    case Err(e) => Err(e)
    case Ok(targets) => if targets == [] then Err(NothingCommissioned) else Ok(targets)
  }

  datatype Output =
    | Status
    | Commissioned
    | Inspection(errors: seq<Option<string>>)
    | SyncReport(hostNtpSynchronized: bool, manualTime: Option<u64>, nodes: seq<SyncOutcome>)
    | Decommission(nodes': seq<DecommissionOutcome>)
    | Error(why: Failure)

  datatype Failure =
    | BadTarget(target: TargetError)
    | StorageBusy
    | NoFabric(fabric: FabricBootstrap.EnsureError)
    | StateNotWritten

  function ExitCode(o: Output): nat {
    var ok :=
      match o
      case Status => true
      case Commissioned => true
      case Inspection(errors) => forall e :: e in errors ==> e.None?
      case SyncReport(ntp, manual, nodes) => (ntp || manual.Some?) && forall n :: n in nodes ==> n.success || n.skipped
      case Decommission(nodes) => forall n :: n in nodes ==> n.success
      case Error(_) => false;
    if ok then 0 else 1
  }

  /** The registry's node IDs, each once. */
  method NodeIds(registry: Registry) returns (known: seq<nat>)
    ensures forall n :: n in known <==> n in registry
    ensures |known| == |registry|
  {
    known := [];
    var left := registry.Keys;
    while left != {}
      invariant forall n :: n in known <==> n in registry && n !in left
      invariant left <= registry.Keys && |known| + |left| == |registry.Keys|
      decreases left
    {
      var n :| n in left;
      known, left := known + [n], left - {n};
    }
  }

  /** Whom a command with or without `--node` is for. */
  function TargetsIn(registry: Registry, node: Option<nat>): set<nat> {
    match node case None => registry.Keys case Some(n) => registry.Keys * {n}
  }

  function StampsOf(nodes: seq<SyncOutcome>, readings: nat -> Stamps): seq<Stamps> {
    seq(|nodes|, i requires 0 <= i < |nodes| => readings(nodes[i].nodeId))
  }

  ghost predicate AreOutcomes(nodes: seq<SyncOutcome>, targets: seq<nat>, talk: nat -> Conversation,
                              manual: Option<u64>)
  {
    && |nodes| == |targets|
    && forall i :: 0 <= i < |targets| ==> nodes[i] == OutcomeOf(targets[i], talk(targets[i]), manual)
  }

  /** Every outcome is its own device's, every target has one. */
  ghost predicate OutcomesOf(nodes: seq<SyncOutcome>, targets: set<nat>, talk: nat -> Conversation,
                             manual: Option<u64>)
  {
    && (forall i :: 0 <= i < |nodes| ==>
          nodes[i].nodeId in targets && nodes[i] == OutcomeOf(nodes[i].nodeId, talk(nodes[i].nodeId), manual))
    && (forall n :: n in targets ==> Operations.Names(nodes, n))
  }

  /** A sync under the storage lock: the fabric is loaded or created first. */
  method RunLocked(volume: Volume<Token>, fabricLabel: string, mint: FabricBootstrap.Mint, targets: seq<nat>,
                   manual: Option<u64>, lockFree: bool, talk: nat -> Conversation, readings: nat -> Stamps)
    returns (r: Result<seq<SyncOutcome>, Failure>)
    requires volume.newline == EndOfLine && Sane(volume.disk)
    modifies volume
    ensures Sane(volume.disk)
    ensures r.Ok? ==>
      && lockFree && AreOutcomes(r.value, targets, talk, manual)
      && Seen(volume.disk).registry == AfterSync(old(Seen(volume.disk)).registry, r.value, StampsOf(r.value, readings))
    ensures r.Ok? ==> exists key, identity ::
      FabricBootstrap.Achieved(old(Seen(volume.disk)), Seen(volume.disk).(registry := old(Seen(volume.disk)).registry),
                               mint, fabricLabel, Ok((key, identity)))
    ensures old(volume.faults) <= volume.faults && (!lockFree ==> r == Err(StorageBusy))
    ensures r.Err? ==> match r.error
      case BadTarget(_) => false
      case StorageBusy => !lockFree && volume.disk == old(volume.disk)
      case NoFabric(Refused(why)) => PlanFor(old(Seen(volume.disk))) == Refuse(why)
      case NoFabric(TableFull) => {mint.key} < old(Seen(volume.disk)).fabrics.Keys
      case NoFabric(StorageFailed) => volume.faults > old(volume.faults)
      case StateNotWritten => volume.faults > old(volume.faults)
  {
    hide Sane, Seen, OutcomeOf, AfterSync, PlanFor;
    if !lockFree {
      return Err(StorageBusy);
    }
    ghost var v := Seen(volume.disk);
    var controller := new FabricBootstrap.Controller(volume, fabricLabel);
    controller.LoadPersist();
    var ensured := controller.EnsureFabric(mint);
    if ensured.Err? {
      return Err(NoFabric(ensured.error));
    }
    AchievedKeepsRegistry(v, Seen(volume.disk), mint, fabricLabel, ensured);
    ghost var ready := Seen(volume.disk);
    var conversations := seq(|targets|, i requires 0 <= i < |targets| => talk(targets[i]));
    var stamps := seq(|targets|, i requires 0 <= i < |targets| => readings(targets[i]));
    var run := RunSync(volume, targets, conversations, manual, stamps);
    if run.Err? {
      return Err(StateNotWritten);
    }
    assert Seen(volume.disk).(registry := v.registry) == ready;
    StampsMatch(run.value, targets, talk, manual, readings);
    return Ok(run.value);
  }

  /** The sync command: the time gate, the targets, the run. `talk` is what each device answers,
      `readings` the host clock around it. */
  method SyncCommand(volume: Volume<Token>, fabricLabel: string, mint: FabricBootstrap.Mint, queries: seq<Query>,
                     systemVerdict: bool, manual: Option<u64>, node: Option<nat>, lockFree: bool,
                     talk: nat -> Conversation, readings: nat -> Stamps) returns (o: Output)
    requires volume.newline == EndOfLine && Sane(volume.disk)
    modifies volume
    ensures Sane(volume.disk)
    ensures var v, targets := old(Seen(volume.disk)), TargetsIn(old(Seen(volume.disk)).registry, node);
      var gate := Trusts(queries, systemVerdict) || manual.Some?;
      && (ExitCode(o) == 0 <==>
            gate && targets != {} && !o.Error?
            && forall n :: n in targets ==> talk(n).features.NoCluster? || AnsweredAndTrue(talk(n), manual))
      && (!gate ==> o == SyncReport(false, None, []) && volume.disk == old(volume.disk))
      && (gate && !o.Error? ==>
            && o.SyncReport? && OutcomesOf(o.nodes, targets, talk, manual)
            && Seen(volume.disk).registry == AfterSync(v.registry, o.nodes, StampsOf(o.nodes, readings)))
      && (o.SyncReport? ==> o.manualTime == manual && o.hostNtpSynchronized == Trusts(queries, systemVerdict))
      && (o.SyncReport? ==> forall i :: 0 <= i < |o.nodes| && o.nodes[i].success ==>
            var c, written := talk(o.nodes[i].nodeId), o.nodes[i].utcTimeWritten;
            && written == (if manual.Some? then manual else Some(c.hostAtWrite))
            && c.after.Got? && c.after.value.Some?
            && (|| -5_000_000 <= c.after.value.value - written.value <= 5_000_000
                || -5_000_000 <= c.after.value.value - written.value - 946_684_800_000_000 <= 5_000_000))
    ensures (Trusts(queries, systemVerdict) || manual.Some?) && !o.Error? ==> exists key, identity ::
      FabricBootstrap.Achieved(old(Seen(volume.disk)), Seen(volume.disk).(registry := old(Seen(volume.disk)).registry),
                               mint, fabricLabel, Ok((key, identity)))
    ensures var v, targets := old(Seen(volume.disk)), TargetsIn(old(Seen(volume.disk)).registry, node);
      var gate := Trusts(queries, systemVerdict) || manual.Some?;
      && (o.Error? && o.why.BadTarget? <==> gate && targets == {})
      && (o == Error(StorageBusy) <==> gate && targets != {} && !lockFree)
      && (o.Error? && o.why.NoFabric? && o.why.fabric.Refused? ==> PlanFor(v) == Refuse(o.why.fabric.why))
      && (o.Error? ==>
            || targets == {} || !lockFree || volume.faults > old(volume.faults)
            || PlanFor(v).Refuse? || {mint.key} < v.fabrics.Keys)
  {
    hide Sane, Seen, OutcomeOf, AfterSync, AnsweredAndTrue, OutcomesOf, AreOutcomes, StampsOf, PlanFor, Trusts;
    var trusted := ClockIsNtpSynchronized(queries, systemVerdict);
    if !trusted && manual.None? {
      return SyncReport(false, None, []);
    }
    var registry := LoadRegistry(volume);
    var known := NodeIds(registry);
    ResolvedAreKnown(known, node);
    var resolved := Resolve(known, node);
    TargetsAre(registry, known, node);
    if resolved.Err? {
      return Error(BadTarget(resolved.error));
    }
    var targets := resolved.value;
    var run := RunLocked(volume, fabricLabel, mint, targets, manual, lockFree, talk, readings);
    if run.Err? {
      return Error(run.error);
    }
    ReportIsExact(trusted, manual, targets, run.value, talk);
    return SyncReport(trusted, manual, run.value);
  }

  /** What makes a report a failure: for each kind of output, in its own terms. */
  lemma ExitCodeExactly(o: Output)
    ensures ExitCode(o) == 0 || ExitCode(o) == 1
    ensures ExitCode(o) == 0 <==>
      match o
      case Status => true
      case Commissioned => true
      case Inspection(errors) => forall i :: 0 <= i < |errors| ==> errors[i] == None
      case SyncReport(ntp, manual, nodes) =>
        (ntp || manual != None) && forall i :: 0 <= i < |nodes| ==> nodes[i].success || nodes[i].skipped
      case Decommission(nodes) => forall i :: 0 <= i < |nodes| ==> nodes[i].success
      case Error(_) => false
  {
    match o
    case Inspection(errors) =>
      assert forall i :: 0 <= i < |errors| ==> errors[i] in errors;
    case SyncReport(_, _, nodes) =>
      assert forall i :: 0 <= i < |nodes| ==> nodes[i] in nodes;
    case Decommission(nodes) =>
      assert forall i :: 0 <= i < |nodes| ==> nodes[i] in nodes;
    case _ =>
  }

  // --- main results ----------------------------------------------------------------------

  /** Targets are commissioned devices, all of them or the one asked for, and never none. */
  lemma ResolvedAreKnown(known: seq<nat>, node: Option<nat>)
    ensures Resolve(known, node).Ok? <==> known != [] && (node.None? || node.value in known)
    ensures Resolve(known, node).Ok? ==>
      var targets := Resolve(known, node).value;
      targets == (if node.None? then known else [node.value]) && forall t :: t in targets ==> t in known
  {
  }

  /** Nothing but the fabric and the identity is touched on the way. */
  lemma AchievedKeepsRegistry(before: View, after: View, mint: FabricBootstrap.Mint, fabricLabel: string,
                              r: Result<(Key, Identity), FabricBootstrap.EnsureError>)
    requires FabricBootstrap.Achieved(before, after, mint, fabricLabel, r) && r.Ok?
    ensures after.registry == before.registry
  {
  }

  lemma StampsMatch(nodes: seq<SyncOutcome>, targets: seq<nat>, talk: nat -> Conversation, manual: Option<u64>,
                    readings: nat -> Stamps)
    requires AreOutcomes(nodes, targets, talk, manual)
    ensures StampsOf(nodes, readings) == seq(|targets|, i requires 0 <= i < |targets| => readings(targets[i]))
  {
    forall i | 0 <= i < |targets| ensures nodes[i].nodeId == targets[i] {
      OutcomeNames(targets[i], talk(targets[i]), manual);
    }
  }

  /** The resolved targets are exactly the devices the command is for. */
  lemma TargetsAre(registry: Registry, known: seq<nat>, node: Option<nat>)
    requires forall n :: n in known <==> n in registry
    ensures Resolve(known, node).Ok? <==> TargetsIn(registry, node) != {}
    ensures Resolve(known, node).Ok? ==> TargetSet(Resolve(known, node).value) == TargetsIn(registry, node)
  {
    ResolvedAreKnown(known, node);
    match node
    case None =>
      if known != [] { assert known[0] in registry.Keys; }
      if n :| n in registry { assert n in known; }
    case Some(n) => assert n in known ==> n in registry.Keys * {n};
  }

  /** A report of outcomes exits 0 exactly when the host clock was trusted or the operator gave the
      time, and every target either has no Time Synchronization cluster or answered everything and
      its clock read back true. */
  lemma {:induction false} ReportIsExact(ntp: bool, manual: Option<u64>, targets: seq<nat>, nodes: seq<SyncOutcome>,
                                         talk: nat -> Conversation)
    requires AreOutcomes(nodes, targets, talk, manual)
    ensures ExitCode(SyncReport(ntp, manual, nodes)) == 0 <==>
      && (ntp || manual.Some?)
      && forall n :: n in TargetSet(targets) ==> talk(n).features.NoCluster? || AnsweredAndTrue(talk(n), manual)
    ensures OutcomesOf(nodes, TargetSet(targets), talk, manual)
    ensures forall i :: 0 <= i < |nodes| && nodes[i].success ==>
      var c, written := talk(nodes[i].nodeId), nodes[i].utcTimeWritten;
      && written == (if manual.Some? then manual else Some(c.hostAtWrite))
      && c.after.Got? && c.after.value.Some?
      && (|| -5_000_000 <= c.after.value.value - written.value <= 5_000_000
          || -5_000_000 <= c.after.value.value - written.value - 946_684_800_000_000 <= 5_000_000)
  {
    hide OutcomeOf;
    forall i | 0 <= i < |targets|
      ensures nodes[i].nodeId == targets[i] && nodes[i] in nodes
      ensures nodes[i].success || nodes[i].skipped <==>
        talk(targets[i]).features.NoCluster? || AnsweredAndTrue(talk(targets[i]), manual)
    {
      OutcomeNames(targets[i], talk(targets[i]), manual);
      SyncSucceedsExactly(targets[i], talk(targets[i]), manual);
      if !nodes[i].success { SyncFailsWith(targets[i], talk(targets[i]), manual); }
    }
    forall i | 0 <= i < |targets| && nodes[i].success ensures AnsweredAndTrue(talk(targets[i]), manual)
      && nodes[i].utcTimeWritten == (if manual.Some? then manual else Some(talk(targets[i]).hostAtWrite))
    {
      SyncSucceedsExactly(targets[i], talk(targets[i]), manual);
    }
    forall n | n in targets ensures Operations.Names(nodes, n) {
      var i :| 0 <= i < |targets| && targets[i] == n;
      assert nodes[i].nodeId == n;
    }
  }

  /** End to end: after a successful sync that the gate let through on a server's answer, with no
      manual time, the device clock at read-back, with a detected epoch shift folded out, is within
      5 s + 1 s + half that server's round trip + the write-to-read-back delay + 1 us of true time.
      The exchange ran from true time `a` to `b`; the host runs a constant `error` ahead. */
  lemma SyncedClockIsTrue(node: nat, c: Conversation, queries: seq<Query>, systemVerdict: bool,
                          a: real, b: real, error: real, hostNanos: Timestamp, w: real, r: real)
    requires Trusts(queries, systemVerdict) && FirstAnswer(queries).Some?
    requires var q := queries[FirstAnswer(queries).value];
      q.sentAt == a + error && q.receivedAt == b + error && a <= TransmitTime(Received(q.datagram.value)) <= b
    requires hostNanos as real == (w + error) * 1_000_000_000.0 && w <= r
    requires hostNanos >= MATTER_EPOCH && c.hostAtWrite == FromTimestamp(hostNanos)
    requires OutcomeOf(node, c, None).success
    ensures c.after.Got? && c.after.value.Some?
    ensures var bound := 5_000_000.0 + 1_000_000.0 + (b - a) / 2.0 * 1_000_000.0 + (r - w) * 1_000_000.0 + 1.0;
      -bound <= Folded(c.after.value.value, c.hostAtWrite) as real - TrueMicros(r) <= bound
  {
    var q := queries[FirstAnswer(queries).value];
    SyncSucceedsExactly(node, c, None);
    VerificationExact(c.after.value.value, c.hostAtWrite);
    EndToEndBound(q.datagram.value, q.nonce, a, b, error, hostNanos, w, r, c.after.value.value);
  }
}
