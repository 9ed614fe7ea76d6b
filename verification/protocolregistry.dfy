/** What the registry can name: only devices that completed their commissioning, although targets
    are resolved before the lock is taken and a sync may re-create a decommissioned record. */
module ProtocolRegistry {
  import opened Wrappers
  import opened FileSystem
  import opened Documents
  import opened Storage
  import opened Protocol
  import opened ProtocolProofs

  /** Some device was given this ID and completed its commissioning with it. */
  ghost predicate CompletedWith(log: seq<Entry>, node: nat) {
    exists e :: 0 <= e < |log| && log[e].node == node && !log[e].status.Installed?
  }

  ghost predicate AllCompleted(log: seq<Entry>, nodes: set<nat>) {
    forall n :: n in nodes ==> CompletedWith(log, n)
  }

  /** The devices a command works on once it holds the lock. */
  function TargetsOf(kind: Kind): set<nat> {
    match kind
    case Commission => {}
    case Sync(targets) => set t | t in targets
    case Decommission(targets) => set t | t in targets
  }

  /** The devices a process may still write into the registry. */
  function MayWrite(pc: Pc): set<nat>
    decreases pc
  {
    match pc
    case Starting(job) => TargetsOf(job.kind)
    case Loading(job) => TargetsOf(job.kind)
    case Registering(job, _) => TargetsOf(job.kind)
    case Reading(job, _, _) => TargetsOf(job.kind)
    case Discarding(job, _, _, _) => TargetsOf(job.kind)
    case Guarding(job, _, _) => TargetsOf(job.kind)
    case Ready(job, _, _) => TargetsOf(job.kind)
    case Syncing(targets, _) => set t | t in targets
    case Writing(_, doc, _, next) => (if doc.RegistryDoc? then doc.registry.Keys else {}) + MayWrite(next)
    case _ => {}
  }

  ghost predicate RecordsOk(w: World) {
    AllCompleted(w.log, Seen(w.disk).registry.Keys) && AllCompleted(w.log, MayWrite(w.pc))
  }

  /** Of every process, not just the lock holder. */
  ghost predicate AllRecordsOk(s: State) {
    && AllCompleted(s.log, Seen(s.disk).registry.Keys)
    && forall p :: p in s.procs ==> AllCompleted(s.log, MayWrite(s.procs[p]))
  }

  lemma {:induction false} CompletedStays(log: seq<Entry>, log': seq<Entry>, nodes: set<nat>)
    requires LogGrows(log, log') && AllCompleted(log, nodes)
    ensures AllCompleted(log', nodes)
  {
    forall n | n in nodes ensures CompletedWith(log', n) {
      var e :| 0 <= e < |log| && log[e].node == n && !log[e].status.Installed?;
      assert log'[e].node == n && !log'[e].status.Installed?;
    }
  }

  /** A decision names no device but targets, those recorded, and the one just completed. */
  lemma {:induction false} DecisionNames(pc: Pc, v: View, log: seq<Entry>, c: Choice)
    requires Critical(pc) && !pc.Discarding? && !pc.Writing?
    requires pc.Reading? ==> pc.fabrics == map[] || c.key in pc.fabrics
    requires PcOk(pc, v, log)
    requires AllCompleted(log, v.registry.Keys) && AllCompleted(log, MayWrite(pc))
    ensures AllCompleted(log, MayWrite(NextPc(pc, v, c)))
  {
    hide Consistent, LogOk, KeepsIdentity;
    var pc' := NextPc(pc, v, c);
    match pc
    case Recording(identity) =>
      assert CompletedWith(log, identity.nextDeviceNodeId);
      assert MayWrite(pc'.next.next) == {} && MayWrite(pc'.next) == {};
    case Guarding(job, _, _) =>
      if pc'.Writing? { assert MayWrite(pc'.next) == MayWrite(pc'.next.next) == TargetsOf(job.kind); }
    case Reading(job, _, _) =>
      if pc'.Writing? { assert MayWrite(pc'.next) == TargetsOf(job.kind); }
    case Syncing(targets, _) =>
      if pc'.Writing? { assert MayWrite(pc'.next) <= MayWrite(pc); }
    case Decommissioning(_) =>
      if pc'.Writing? { assert MayWrite(pc'.next) == {}; }
    case _ =>
  }

  lemma {:induction false} WorkNames(w: World, c: Choice)
    requires WorldOk(w) && CanWork(w, c) && RecordsOk(w)
    ensures RecordsOk(Work(w, c))
  {
    hide Settled, OnlyFabrics, Sound, StageOk, Seen;
    WorkKeeps(w, c);
    var w' := Work(w, c);
    var v, v' := Seen(w.disk), Seen(w'.disk);
    if w.pc.Discarding? {
      DiscardDisk(w.disk, w.pc.key);
    } else if w.pc.Writing? {
      WriteJustified(w.pc, v, w.log);
      WriteDisk(w.disk, w.pc);
    } else {
      DecisionNames(w.pc, v, w.log, c);
    }
    CompletedStays(w.log, w'.log, v'.registry.Keys);
    CompletedStays(w.log, w'.log, MayWrite(w'.pc));
  }

  lemma {:induction false} StepRecords(s: State, p: nat, choice: Choice)
    requires Inv(s) && AllRecordsOk(s) && Enabled(s, Step(p, choice))
    ensures AllRecordsOk(After(s, Step(p, choice)))
  {
    hide WorldOk, Work, CanWork, Seen, AllCompleted, MayWrite, Keeps;
    assert Holder(s) == World(s.disk, s.log, ProcOf(s, p));
    var s' := After(s, Step(p, choice));
    WorkNames(Holder(s), choice);
    StepInv(s, p, choice);
    forall q | q in s'.procs ensures AllCompleted(s'.log, MayWrite(s'.procs[q])) {
      if q != p { StaysCompleted(s, s', MayWrite(s.procs[q])); }
    }
  }

  lemma {:induction false} StaysCompleted(s: State, s': State, nodes: set<nat>)
    requires Keeps(s.disk, s.log, s'.disk, s'.log) && AllCompleted(s.log, nodes)
    ensures AllCompleted(s'.log, nodes)
  {
    CompletedStays(s.log, s'.log, nodes);
  }

  lemma {:induction false} OtherRecords(s: State, a: Action)
    requires Inv(s) && AllRecordsOk(s) && Enabled(s, a) && !a.Step?
    ensures AllRecordsOk(After(s, a))
  {
    hide Settled, OnlyFabrics, Sound, StageOk, PcOk, AllCompleted, Committed, ViewOf;
    match a
    case Start(p, job) => assert AllCompleted(s.log, TargetsOf(job.kind)) by { ResolvedCompleted(s, job.kind); }
    case Acquire(_) =>
    case Contend(_) => NoneToComplete(s.log);
    case Die(p, left) =>
      NoneToComplete(s.log);
      if s.lock == Some(p) { CrashKeepsCommitted(s.disk, left); }
    case PowerLoss(left) => CrashKeepsCommitted(s.disk, left);
    case LoseRegistry(junk) =>
      LossView(s.disk, After(s, a).disk, junk);
      NoneToComplete(s.log);
      assert Seen(After(s, a).disk).registry.Keys == {};
  }

  lemma NoneToComplete(log: seq<Entry>)
    ensures AllCompleted(log, {}) && AllCompleted(log, MayWrite(Stopped))
  {
  }

  lemma ResolvedCompleted(s: State, kind: Kind)
    requires AllRecordsOk(s) && Resolved(kind, RegistryOf(Committed(s.disk)))
    ensures AllCompleted(s.log, TargetsOf(kind))
  {
  }

  lemma {:induction false} RunRecords(run: seq<State>, i: nat)
    requires IsRun(run) && i < |run|
    ensures AllRecordsOk(run[i])
  {
    hide Inv, Enabled, After, AllRecordsOk;
    if i == 0 {
      NoRecords(run[0]);
    } else {
      RunRecords(run, i - 1);
      RunInv(run, i - 1);
      assert Next(run[i - 1], run[i]);
      var a :| Enabled(run[i - 1], a) && run[i] == After(run[i - 1], a);
      if a.Step? { StepRecords(run[i - 1], a.p, a.choice); } else { OtherRecords(run[i - 1], a); }
    }
  }

  lemma NoRecords(s: State)
    requires Init(s)
    ensures AllRecordsOk(s)
  {
  }

  /** In every run, whatever is recorded, and whatever any process is about to record, is a device
      that was handed this node ID and completed its commissioning, with a certificate of the
      authority now on disk: a decommissioned record may come back, an invented one never does. */
  lemma {:induction false} RecordsAreDevices(run: seq<State>, i: nat, node: nat)
    requires IsRun(run) && i < |run|
    requires node in Seen(run[i].disk).registry
      || exists p :: p in run[i].procs && node in MayWrite(run[i].procs[p])
    ensures Seen(run[i].disk).identity.Holds?
    ensures exists e: nat ::
      e < |run[i].log| && run[i].log[e].node == node && !run[i].log[e].status.Installed?
      && run[i].log[e].core == Seen(run[i].disk).identity.identity.core
  {
    hide Inv, MayWrite, IsRun;
    RunRecords(run, i);
    assert CompletedWith(run[i].log, node);
    var e :| 0 <= e < |run[i].log| && run[i].log[e].node == node && !run[i].log[e].status.Installed?;
    NoOrphans(run, i, i, e);
  }

  // --- what the loops over targets do to the registry ------------------------------------------------

  /** The lock holder works alone through `solo`, with the environment's choices. */
  ghost predicate Works(solo: seq<World>, choices: seq<Choice>) {
    && |solo| == |choices| + 1
    && forall i :: 0 <= i < |choices| ==> CanWork(solo[i], choices[i]) && solo[i + 1] == Work(solo[i], choices[i])
  }

  /** Whatever the environment chooses, a store takes five operations and then its document is in
      place. */
  lemma {:induction false} StoreEnds(solo: seq<World>, choices: seq<Choice>)
    requires Works(solo, choices) && WorldOk(solo[0]) && solo[0].pc.Writing?
    requires |choices| == StagesLeft(solo[0].pc.stage)
    ensures WellTyped(solo[0].pc.name, solo[0].pc.doc)
    ensures var pc, end := solo[0].pc, solo[|choices|];
      && WorldOk(end) && end.pc == pc.next && end.log == solo[0].log
      && Seen(end.disk) == Committing(Seen(solo[0].disk), pc.name, pc.doc)
    decreases |choices|
  {
    hide Sound, Consistent, LogOk, Settled, OnlyFabrics, KeepsIdentity, Seen, AfterStage, StageOk, PcOk;
    var w, w' := solo[0], solo[1];
    assert CanWork(w, choices[0]) && w' == Work(w, choices[0]);
    WorkKeeps(w, choices[0]);
    WriteJustified(w.pc, Seen(w.disk), w.log);
    WriteDisk(w.disk, w.pc);
    if !w.pc.stage.Swap? {
      forall i | 0 <= i < |choices| - 1
        ensures CanWork(solo[1..][i], choices[1..][i]) && solo[1..][i + 1] == Work(solo[1..][i], choices[1..][i])
      {
        assert CanWork(solo[i + 1], choices[i + 1]) && solo[i + 2] == Work(solo[i + 1], choices[i + 1]);
      }
      StoreEnds(solo[1..], choices[1..]);
    }
  }

  lemma {:induction false} WorksSlice(solo: seq<World>, choices: seq<Choice>, i: nat, j: nat)
    requires Works(solo, choices) && i <= j <= |choices|
    ensures Works(solo[i..j + 1], choices[i..j])
  {
    hide Work, CanWork;
    forall k | 0 <= k < j - i
      ensures CanWork(solo[i..j + 1][k], choices[i..j][k])
      ensures solo[i..j + 1][k + 1] == Work(solo[i..j + 1][k], choices[i..j][k])
    {
      assert CanWork(solo[i + k], choices[i + k]) && solo[i + k + 1] == Work(solo[i + k], choices[i + k]);
    }
  }

  /** A decision to store, and the store: six steps. */
  lemma {:induction false} DecideAndStore(solo: seq<World>, choices: seq<Choice>)
    requires Works(solo, choices) && |choices| == 6 && WorldOk(solo[0])
    requires var pc := Work(solo[0], choices[0]).pc; pc.Writing? && pc.stage.Opening?
    requires solo[0].pc.Syncing? || solo[0].pc.Decommissioning?
    ensures var pc := Work(solo[0], choices[0]).pc;
      && WellTyped(pc.name, pc.doc) && WorldOk(solo[6]) && solo[6].pc == pc.next && solo[6].log == solo[0].log
      && Seen(solo[6].disk) == Committing(Seen(solo[0].disk), pc.name, pc.doc)
  {
    hide WorldOk, Seen;
    assert CanWork(solo[0], choices[0]) && solo[1] == Work(solo[0], choices[0]);
    WorkKeeps(solo[0], choices[0]);
    WorksSlice(solo, choices, 1, 6);
    StoreEnds(solo[1..7], choices[1..6]);
  }

  /** Syncing one device, whatever the environment chooses: the attempt is merged, then the outcome,
      into that device's record and no other, and the next target is up. */
  lemma {:induction false} SyncOfOneTarget(solo: seq<World>, choices: seq<Choice>)
    requires Works(solo, choices) && |choices| == 12 && WorldOk(solo[0])
    requires solo[0].pc.Syncing? && solo[0].pc.targets != [] && !solo[0].pc.attempted
    ensures var v, targets := Seen(solo[0].disk), solo[0].pc.targets;
      && Seen(solo[6].disk) == v.(registry := v.registry[targets[0] := choices[0].record])
      && Seen(solo[12].disk) == v.(registry := v.registry[targets[0] := choices[6].record])
      && solo[12].pc == Syncing(targets[1..], false) && solo[12].log == solo[0].log && WorldOk(solo[12])
  {
    hide WorldOk, Seen;
    assert CanWork(solo[0], choices[0]);
    WorksSlice(solo, choices, 0, 6);
    DecideAndStore(solo[0..7], choices[0..6]);
    WorksSlice(solo, choices, 6, 12);
    assert solo[6..13][0] == solo[6] && choices[6..12][0] == choices[6];
    assert CanWork(solo[6], choices[6]);
    DecideAndStore(solo[6..13], choices[6..12]);
    var v, t := Seen(solo[0].disk), solo[0].pc.targets[0];
    assert v.registry[t := choices[0].record][t := choices[6].record] == v.registry[t := choices[6].record];
  }

  /** Decommissioning one device: its record goes exactly if it answered, no other ever does, and the
      next target is up. */
  lemma {:induction false} DecommissionOfOneTarget(solo: seq<World>, choices: seq<Choice>)
    requires Works(solo, choices) && |choices| == 6 && WorldOk(solo[0])
    requires solo[0].pc.Decommissioning? && solo[0].pc.targets != []
    ensures var v, targets := Seen(solo[0].disk), solo[0].pc.targets;
      if choices[0].answered then
        && Seen(solo[6].disk) == v.(registry := v.registry - {targets[0]})
        && solo[6].pc == Decommissioning(targets[1..]) && solo[6].log == solo[0].log && WorldOk(solo[6])
      else
        solo[1] == World(solo[0].disk, solo[0].log, Decommissioning(targets[1..]))
  {
    hide WorldOk, Seen;
    assert CanWork(solo[0], choices[0]) && solo[1] == Work(solo[0], choices[0]);
    if choices[0].answered {
      DecideAndStore(solo, choices);
    }
  }

  /** With no targets left, either loop ends and gives the lock back. */
  lemma LoopsEnd(w: World, c: Choice)
    requires CanWork(w, c) && (w.pc.Syncing? || w.pc.Decommissioning?) && w.pc.targets == []
    ensures Work(w, c) == World(w.disk, w.log, Stopped) && !Critical(Work(w, c).pc)
  {
  }
}
