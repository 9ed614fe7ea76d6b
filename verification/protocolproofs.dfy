/** The protocol's invariant, step by step, and what it means over whole runs. */
module ProtocolProofs {
  import opened Wrappers
  import opened Paths
  import opened FileSystem
  import opened Documents
  import opened Storage
  import opened Protocol

  // --- single steps of the lock holder ---------------------------------------------------

  /** What a decision step must establish: the view is still sound with the new log, and the new
      position is justified. */
  ghost predicate DecisionOk(v: View, log: seq<Entry>, log': seq<Entry>, pc': Pc) {
    && Sound(v, log') && LogGrows(log, log') && PcOk(pc', v, log')
    && (pc'.Writing? ==> pc'.stage.Opening?)
  }

  lemma {:induction false} ReadingOk(pc: Pc, v: View, log: seq<Entry>, c: Choice)
    requires pc.Reading? && Sound(v, log) && PcOk(pc, v, log)
    requires pc.fabrics == map[] || c.key in pc.fabrics
    ensures DecisionOk(v, log, log, NextPc(pc, v, c))
  {
    if pc.fabrics != map[] {
      forall k | k in v.fabrics ensures k == c.key {}
      assert v.fabrics.Keys == {c.key};
      if v.identity.Holds? {
        RelabelOk(v, log, c.key, pc.job);
      }
    }
  }

  lemma {:induction false} RelabelOk(v: View, log: seq<Entry>, key: Key, job: Job)
    requires Sound(v, log) && v.identity.Holds? && v.fabrics.Keys == {key}
    ensures v.fabrics[key].core == v.identity.identity.core
    ensures PcOk(Writing(Blob(key), FabricDoc(v.fabrics[key].(fabricLabel := job.fabricLabel)), Opening,
                         Ready(job, key, v.identity.identity)), v, log)
  {
    var v' := Committing(v, Blob(key), FabricDoc(v.fabrics[key].(fabricLabel := job.fabricLabel)));
    assert key in v'.fabrics && v'.fabrics[key].core == v.identity.identity.core;
    assert v'.fabrics.Keys == {key};
    assert Consistent(v');
  }

  lemma {:induction false} BootstrapOk(v: View, job: Job, key: Key, core: Core, fabricLabel: string)
    requires v.identity.Absent? && v.fabrics == map[] && v.registry == map[]
    ensures PcOk(Bootstrap(job, key, core, fabricLabel), v, [])
  {
    var identity := Identity(core, 1);
    var v1 := Committing(v, Blob(key), FabricDoc(Fabric(core, fabricLabel)));
    assert v1.fabrics.Keys == {key} && v1.fabrics[key].core == core;
    var v2 := Committing(v1, IdentityJson, IdentityDoc(identity));
    assert Consistent(v2);
  }

  lemma {:induction false} GuardingOk(pc: Pc, v: View, log: seq<Entry>, c: Choice)
    requires pc.Guarding? && Sound(v, log) && PcOk(pc, v, log)
    ensures DecisionOk(v, log, log, NextPc(pc, v, c))
  {
    assert v.identity.Absent? && v.registry == map[] && log == [];
    BootstrapOk(v, pc.job, c.key, c.core, c.fabricLabel);
  }

  /** A registry write under an existing identity. */
  lemma RegistryWriteOk(v: View, log: seq<Entry>, registry: Registry)
    requires Sound(v, log) && v.identity.Holds?
    ensures Sound(Committing(v, DevicesJson, RegistryDoc(registry)), log)
    ensures KeepsIdentity(v, Committing(v, DevicesJson, RegistryDoc(registry)))
  {
  }

  lemma AdvanceOk(v: View, log: seq<Entry>)
    requires Sound(v, log) && v.identity.Holds?
    ensures var i := v.identity.identity;
      var v' := Committing(v, IdentityJson, IdentityDoc(i.(nextDeviceNodeId := i.nextDeviceNodeId + 1)));
      Sound(v', log) && KeepsIdentity(v, v')
  {
  }

  lemma MarkKeepsLog(file: IdentityFile, log: seq<Entry>, status: Status)
    requires LogOk(file, log) && log != []
    requires status.Finished? ==> file.Holds? && log[|log| - 1].node < file.identity.nextDeviceNodeId
    requires !status.Installed? && (log[|log| - 1].status.Finished? ==> status.Finished?)
    ensures LogOk(file, Marked(log, status)) && LogGrows(log, Marked(log, status))
  {
  }

  lemma InstallKeepsLog(file: IdentityFile, log: seq<Entry>)
    requires LogOk(file, log) && file.Holds?
    ensures var i := file.identity;
      var log' := log + [Entry(i.core, i.nextDeviceNodeId, Installed)];
      LogOk(file, log') && LogGrows(log, log') && LastIs(log', i.nextDeviceNodeId, Installed)
  {
  }

  lemma {:induction false} CommissionOk(pc: Pc, v: View, log: seq<Entry>, c: Choice)
    requires Sound(v, log) && PcOk(pc, v, log)
    requires pc.Certified? || pc.Recording? || pc.Finishing?
    ensures DecisionOk(v, log, NextLog(pc, log), NextPc(pc, v, c))
  {
    match pc
    case Certified(_) => MarkKeepsLog(v.identity, log, Completed);
    case Recording(identity) => RecordingOk(v, log, identity, c.record);
    case Finishing => MarkKeepsLog(v.identity, log, Finished);
  }

  lemma {:induction false} RecordingOk(v: View, log: seq<Entry>, identity: Identity, record: DeviceRecord)
    requires Sound(v, log) && v.identity == Holds(identity) && LastIs(log, identity.nextDeviceNodeId, Completed)
    ensures var node := identity.nextDeviceNodeId;
      PcOk(Writing(DevicesJson, RegistryDoc(v.registry[node := record]), Opening,
                   Writing(IdentityJson, IdentityDoc(identity.(nextDeviceNodeId := node + 1)), Opening, Finishing)),
           v, log)
  {
    var doc := RegistryDoc(v.registry[identity.nextDeviceNodeId := record]);
    RegistryWriteOk(v, log, doc.registry);
    AdvanceOk(Committing(v, DevicesJson, doc), log);
  }

  lemma {:induction false} ReadyOk(pc: Pc, v: View, log: seq<Entry>, c: Choice)
    requires Sound(v, log) && PcOk(pc, v, log) && pc.Ready?
    ensures DecisionOk(v, log, NextLog(pc, log), NextPc(pc, v, c))
  {
    InstallKeepsLog(v.identity, log);
  }

  lemma {:induction false} RegistryStepOk(pc: Pc, v: View, log: seq<Entry>, c: Choice)
    requires Sound(v, log) && PcOk(pc, v, log) && (pc.Syncing? || pc.Decommissioning?)
    ensures DecisionOk(v, log, log, NextPc(pc, v, c))
  {
    var targets := pc.targets;
    if targets != [] {
      RegistryWriteOk(v, log, v.registry[targets[0] := c.record]);
      RegistryWriteOk(v, log, v.registry - {targets[0]});
    }
  }

  lemma {:induction false} DecisionsOk(pc: Pc, v: View, log: seq<Entry>, c: Choice)
    requires Critical(pc) && !pc.Discarding? && !pc.Writing?
    requires pc.Reading? ==> pc.fabrics == map[] || c.key in pc.fabrics
    requires Sound(v, log) && PcOk(pc, v, log)
    ensures DecisionOk(v, log, NextLog(pc, log), NextPc(pc, v, c))
  {
    match pc
    case Loading(_) =>
    case Registering(_, _) =>
    case Reading(_, _, _) => ReadingOk(pc, v, log, c);
    case Guarding(_, _, _) => GuardingOk(pc, v, log, c);
    case Ready(_, _, _) => ReadyOk(pc, v, log, c);
    case Syncing(_, _) => RegistryStepOk(pc, v, log, c);
    case Decommissioning(_) => RegistryStepOk(pc, v, log, c);
    case _ => CommissionOk(pc, v, log, c);
  }

  lemma DiscardOk(v: View, log: seq<Entry>, key: Key)
    requires Sound(v, log) && v.identity.Absent? && key in v.fabrics
    ensures v.fabrics - {key} == map[] && Sound(v.(fabrics := v.fabrics - {key}), log)
  {
    forall k | k in v.fabrics ensures k == key {}
  }

  lemma DiscardDisk(d: Disk<Token>, key: Key)
    requires Settled(d) && OnlyFabrics(Committed(d))
    ensures var d' := d - {Real(Blob(key))};
      && Settled(d') && OnlyFabrics(Committed(d'))
      && Seen(d') == Seen(d).(fabrics := Seen(d).fabrics - {key})
  {
    RemovalCommits(d, Blob(key));
    RemoveView(Committed(d), key);
  }

  lemma {:induction false} DiscardStep(d: Disk<Token>, v: View, log: seq<Entry>, pc: Pc, d': Disk<Token>)
    requires InOrder(d, v, log, pc) && pc.Discarding?
    requires Settled(d') && OnlyFabrics(Committed(d'))
    ensures InOrder(d', v.(fabrics := v.fabrics - {pc.key}), log, Guarding(pc.job, pc.fabrics, pc.registry))
    ensures KeepsIdentity(v, v.(fabrics := v.fabrics - {pc.key}))
  {
    DiscardOk(v, log, pc.key);
  }

  /** Justification of a store in progress, with and without the rename still ahead. */
  lemma {:induction false} WriteJustified(pc: Pc, v: View, log: seq<Entry>)
    requires pc.Writing? && PcOk(pc, v, log) && Sound(v, log)
    ensures WellTyped(pc.name, pc.doc) && (pc.next.Writing? ==> pc.next.stage.Opening?)
    ensures var v' := Committing(v, pc.name, pc.doc);
      Sound(v', log) && KeepsIdentity(v, v') && AdvancesByOne(v, v') && PcOk(pc.next, v', log)
    ensures !pc.stage.Swap? ==> PcOk(AfterWrite(pc), v, log)
  {
  }

  /** What the rename does to the view; earlier stages leave it alone. */
  function AfterWriteView(pc: Pc, v: View): View
    requires pc.Writing? && WellTyped(pc.name, pc.doc)
  {
    if pc.stage.Swap? then Committing(v, pc.name, pc.doc) else v
  }

  lemma WriteDisk(d: Disk<Token>, pc: Pc)
    requires Settled(d) && OnlyFabrics(Committed(d))
    requires pc.Writing? && WellTyped(pc.name, pc.doc) && StageOk(d, pc.name, [pc.doc], EndOfLine, pc.stage)
    ensures var d' := AfterStage(d, pc.name, [pc.doc], EndOfLine, pc.stage);
      && Settled(d') && OnlyFabrics(Committed(d')) && Seen(d') == AfterWriteView(pc, Seen(d))
      && (!pc.stage.Swap? ==> StageOk(d', pc.name, [pc.doc], EndOfLine, NextStage(pc.stage)))
  {
    StageRefines(d, pc.name, [pc.doc], EndOfLine, pc.stage);
    assert [pc.doc] + [EndOfLine] == [pc.doc, EndOfLine];
    CommitView(Committed(d), pc.name, pc.doc);
  }

  lemma {:induction false} WriteStep(d: Disk<Token>, v: View, log: seq<Entry>, pc: Pc, d': Disk<Token>)
    requires InOrder(d, v, log, pc) && pc.Writing?
    requires Settled(d') && OnlyFabrics(Committed(d'))
    requires !pc.stage.Swap? ==> StageOk(d', pc.name, [pc.doc], EndOfLine, NextStage(pc.stage))
    ensures WellTyped(pc.name, pc.doc)
    ensures InOrder(d', AfterWriteView(pc, v), log, AfterWrite(pc)) && KeepsIdentity(v, AfterWriteView(pc, v))
  {
    WriteJustified(pc, v, log);
  }

  lemma {:induction false} WorkKeeps(w: World, c: Choice)
    requires WorldOk(w) && CanWork(w, c)
    ensures WorldOk(Work(w, c)) && Keeps(w.disk, w.log, Work(w, c).disk, Work(w, c).log)
  {
    var d', v := Work(w, c).disk, Seen(w.disk);
    if w.pc.Discarding? {
      DiscardDisk(w.disk, w.pc.key);
      DiscardStep(w.disk, v, w.log, w.pc, d');
    } else if w.pc.Writing? {
      WriteJustified(w.pc, v, w.log);
      WriteDisk(w.disk, w.pc);
      WriteStep(w.disk, v, w.log, w.pc, d');
    } else {
      DecisionsOk(w.pc, v, w.log, c);
    }
  }

  // --- steps of the environment --------------------------------------------------------------

  lemma {:induction false} CrashKeeps(w: World, left: Disk<Token>)
    requires WorldOk(w) && Survives(w.disk, left)
    ensures WorldOk(World(left, w.log, Stopped)) && Keeps(w.disk, w.log, left, w.log)
  {
    CrashKeepsCommitted(w.disk, left);
  }

  /** No process relies on the registry file staying what it was. */
  lemma {:induction false} LossKeepsPc(pc: Pc, v: View, log: seq<Entry>)
    requires PcOk(pc, v, log) && Sound(v, log)
    ensures PcOk(pc, v.(registry := map[]), log) && Sound(v.(registry := map[]), log)
    decreases pc
  {
    if pc.Writing? {
      var v', lost := Committing(v, pc.name, pc.doc), v.(registry := map[]);
      LossKeepsPc(pc.next, v', log);
      if pc.name.DevicesJson? {
        assert Committing(lost, pc.name, pc.doc) == v';
      } else {
        assert Committing(lost, pc.name, pc.doc) == v'.(registry := map[]);
      }
    }
  }

  lemma {:induction false} LossStep(d: Disk<Token>, v: View, log: seq<Entry>, pc: Pc, d': Disk<Token>)
    requires InOrder(d, v, log, pc)
    requires Settled(d') && OnlyFabrics(Committed(d'))
    requires forall n :: Temp(n) in d ==> Temp(n) in d' && d'[Temp(n)] == d[Temp(n)]
    ensures InOrder(d', v.(registry := map[]), log, pc) && KeepsIdentity(v, v.(registry := map[]))
  {
    LossKeepsPc(pc, v, log);
  }

  lemma {:induction false} LossKeeps(w: World, d: Disk<Token>, junk: Option<seq<Token>>)
    requires WorldOk(w)
    requires junk.None? || (Parsed(junk.value).Some? ==> !Parsed(junk.value).value.RegistryDoc?)
    requires var file := Real(DevicesJson);
      d == if junk.Some? then w.disk[file := File(junk.value, true)] else w.disk - {file}
    ensures WorldOk(w.(disk := d)) && Keeps(w.disk, w.log, d, w.log)
  {
    hide Committed, ViewOf, Sound, PcOk, StageOk, Settled, KeepsIdentity;
    LossView(w.disk, d, junk);
    LossStep(w.disk, Seen(w.disk), w.log, w.pc, d);
  }

  lemma {:induction false} LossView(before: Disk<Token>, d: Disk<Token>, junk: Option<seq<Token>>)
    requires Settled(before) && OnlyFabrics(Committed(before))
    requires junk.None? || (Parsed(junk.value).Some? ==> !Parsed(junk.value).value.RegistryDoc?)
    requires var file := Real(DevicesJson);
      d == if junk.Some? then before[file := File(junk.value, true)] else before - {file}
    ensures Settled(d) && OnlyFabrics(Committed(d))
    ensures Seen(d) == Seen(before).(registry := map[])
  {
    hide Consistent, Committing;
    var m, m' := Committed(before), Committed(d);
    if junk.Some? {
      assert m'.Keys == m[DevicesJson := junk.value].Keys;
      assert m' == m[DevicesJson := junk.value];
      OtherCommit(m, DevicesJson, junk.value);
    } else {
      RemovalCommits(before, DevicesJson);
      OtherCommit(m, DevicesJson, []);
    }
  }

  // --- the invariant -----------------------------------------------------------------------------

  lemma InitInv(s: State)
    requires Init(s)
    ensures Inv(s)
  {
  }

  /** The lock holder's world. */
  function Holder(s: State): World {
    World(s.disk, s.log, if s.lock.Some? then ProcOf(s, s.lock.value) else Stopped)
  }

  /** A process outside the critical section, or just entering it, asks nothing of the disk. */
  lemma {:induction false} IdleOk(w: World, pc: Pc)
    requires WorldOk(w) && (!Critical(pc) || pc.Loading?)
    ensures WorldOk(w.(pc := pc))
  {
    hide Sound, Settled, OnlyFabrics, StageOk, Seen, KeepsIdentity, AdvancesByOne, WellTyped, Committing;
  }

  lemma {:induction false} LockInv(s: State, a: Action)
    requires Inv(s) && Enabled(s, a) && (a.Start? || a.Acquire? || a.Contend?)
    ensures Inv(After(s, a)) && Keeps(s.disk, s.log, After(s, a).disk, After(s, a).log)
  {
    hide WorldOk, Seen;
    var s' := After(s, a);
    if Holder(s').pc != Holder(s).pc { IdleOk(Holder(s), Holder(s').pc); }
  }

  lemma {:induction false} StepInv(s: State, p: nat, choice: Choice)
    requires Inv(s) && Enabled(s, Step(p, choice))
    ensures var s' := After(s, Step(p, choice)); Inv(s') && Keeps(s.disk, s.log, s'.disk, s'.log)
  {
    hide Work, CanWork, WorldOk, Keeps;
    assert s.lock == Some(p);
    WorkKeeps(Holder(s), choice);
    var s', w' := After(s, Step(p, choice)), Work(Holder(s), choice);
    if Critical(w'.pc) { assert Holder(s') == w'; } else { IdleOk(w', Stopped); }
  }

  lemma {:induction false} CrashInv(s: State, a: Action)
    requires Inv(s) && Enabled(s, a) && (a.Die? || a.PowerLoss?)
    ensures Inv(After(s, a)) && Keeps(s.disk, s.log, After(s, a).disk, After(s, a).log)
  {
    hide WorldOk, Seen;
    var s' := After(s, a);
    if a.PowerLoss? || s.lock == Some(a.p) {
      CrashKeeps(Holder(s), s'.disk);
    } else {
      assert Holder(s').pc == Holder(s).pc;
    }
  }

  lemma {:induction false} LossInv(s: State, a: Action)
    requires Inv(s) && Enabled(s, a) && a.LoseRegistry?
    ensures Inv(After(s, a)) && Keeps(s.disk, s.log, After(s, a).disk, After(s, a).log)
  {
    hide WorldOk, Keeps;
    LossKeeps(Holder(s), After(s, a).disk, a.junk);
    assert Holder(After(s, a)) == Holder(s).(disk := After(s, a).disk);
  }

  lemma {:induction false} NextInv(s: State, s': State)
    requires Inv(s) && Next(s, s')
    ensures Inv(s') && Keeps(s.disk, s.log, s'.disk, s'.log)
  {
    hide WorldOk, Inv, Keeps;
    var a :| Enabled(s, a) && s' == After(s, a);
    match a
    case Step(p, choice) => StepInv(s, p, choice);
    case Die(_, _) => CrashInv(s, a);
    case PowerLoss(_) => CrashInv(s, a);
    case LoseRegistry(_) => LossInv(s, a);
    case _ => LockInv(s, a);
  }

  lemma {:induction false} RunInv(run: seq<State>, i: nat)
    requires IsRun(run) && i < |run|
    ensures Inv(run[i])
  {
    if i == 0 {
      InitInv(run[0]);
    } else {
      RunInv(run, i - 1);
      NextInv(run[i - 1], run[i]);
    }
  }

  lemma {:induction false} RunKeeps(run: seq<State>, i: nat, j: nat)
    requires IsRun(run) && i <= j < |run|
    ensures Keeps(run[i].disk, run[i].log, run[j].disk, run[j].log)
    decreases j - i
  {
    if i < j {
      RunInv(run, i);
      NextInv(run[i], run[i + 1]);
      RunKeeps(run, i + 1, j);
    }
  }

  // --- main results ---------------------------------------------------------------------------------

  /** One fabric, ever. In every interleaving of processes, with crashes, power losses and I/O
      failures between any two file operations and with the registry lost or scratched at any
      time: once an identity is on disk, the same fabric ID, controller node ID and root key are
      on disk at every later moment, with exactly one fabric blob, and that blob matches. */
  lemma OneFabricEver(run: seq<State>, i: nat, j: nat)
    requires IsRun(run) && i <= j < |run|
    requires IdentityOf(Committed(run[i].disk)).Holds?
    ensures var before, after := Seen(run[i].disk), Seen(run[j].disk);
      && after.identity.Holds? && after.identity.identity.core == before.identity.identity.core
      && |after.fabrics| == 1
      && forall k :: k in after.fabrics ==> after.fabrics[k].core == before.identity.identity.core
  {
    RunInv(run, j);
    RunKeeps(run, i, j);
    var after := Seen(run[j].disk);
    var k :| k in after.fabrics && after.fabrics[k].core == after.identity.identity.core;
    assert after.fabrics.Keys == {k} by {
      forall a | a in after.fabrics ensures a == k {}
    }
    assert |after.fabrics| == |after.fabrics.Keys|;
  }

  /** No device is orphaned: whatever certificate was ever installed on a device, the key that
      signed it is the root key in the identity file at every later moment. */
  lemma NoOrphans(run: seq<State>, i: nat, j: nat, e: nat)
    requires IsRun(run) && i <= j < |run| && e < |run[i].log|
    ensures var after := Seen(run[j].disk);
      && after.identity.Holds? && after.identity.identity.core == run[i].log[e].core
      && exists k :: k in after.fabrics && after.fabrics[k].core == run[i].log[e].core
  {
    RunInv(run, i);
    RunInv(run, j);
    RunKeeps(run, i, j);
  }

  /** The lock admits one process at a time into the storage directory. */
  lemma MutualExclusion(run: seq<State>, i: nat, p: nat, q: nat)
    requires IsRun(run) && i < |run|
    requires Critical(ProcOf(run[i], p)) && Critical(ProcOf(run[i], q))
    ensures p == q
  {
    RunInv(run, i);
  }

  lemma {:induction false} LockStep(s: State, s': State)
    requires Inv(s) && Next(s, s') && (s.lock.Some? ==> Critical(ProcOf(s, s.lock.value)))
    ensures s'.lock.Some? ==> Critical(ProcOf(s', s'.lock.value))
  {
    hide WorldOk, Work, CanWork, Committed;
    var a :| Enabled(s, a) && s' == After(s, a);
  }

  /** No stale lock: whoever holds it is at work; it is free as soon as its holder ends or dies. */
  lemma {:induction false} LockIsHeld(run: seq<State>, i: nat)
    requires IsRun(run) && i < |run|
    ensures run[i].lock.Some? ==> Critical(ProcOf(run[i], run[i].lock.value))
  {
    hide Inv, Next;
    if i > 0 {
      LockIsHeld(run, i - 1);
      RunInv(run, i - 1);
      LockStep(run[i - 1], run[i]);
    }
  }

  /** A process that finds the lock taken ends, and leaves everything as it was. */
  lemma ContenderLeaves(s: State, p: nat)
    requires Enabled(s, Contend(p))
    ensures var s' := After(s, Contend(p));
      && ProcOf(s', p).Stopped? && s'.disk == s.disk && s'.log == s.log && s'.lock == s.lock
      && forall q :: q != p ==> ProcOf(s', q) == ProcOf(s, q)
  {
  }

  /** No process is ever refused: the guards against damage never fire on storage that only this
      tool, crashes and registry losses have touched. */
  lemma NeverRefused(run: seq<State>, i: nat, p: nat)
    requires IsRun(run) && i < |run|
    ensures !ProcOf(run[i], p).Refused?
  {
    RunInv(run, i);
  }

  /** Node IDs: every ID handed out is at most the next one, strictly below it once its
      commissioning finished; later ones are never smaller, and never equal to a finished one,
      whatever was decommissioned in between. */
  lemma NodeIdsNeverReused(run: seq<State>, i: nat, a: nat, b: nat)
    requires IsRun(run) && i < |run| && a < b < |run[i].log|
    ensures var log, file := run[i].log, IdentityOf(Committed(run[i].disk));
      && log[a].node <= log[b].node
      && (log[a].status.Finished? ==> log[a].node < log[b].node)
      && file.Holds? && log[b].node <= file.identity.nextDeviceNodeId
      && (log[b].status.Finished? ==> log[b].node < file.identity.nextDeviceNodeId)
  {
    RunInv(run, i);
  }
  // --- when a node ID is handed out again -----------------------------------------------------------

  lemma {:induction false} WorkLog(w: World, c: Choice)
    requires WorldOk(w) && CanWork(w, c)
    ensures |w.log| <= |Work(w, c).log| <= |w.log| + 1
    ensures |Work(w, c).log| > |w.log| ==>
      && Seen(w.disk).identity.Holds?
      && var i := Seen(w.disk).identity.identity;
         Work(w, c).log == w.log + [Entry(i.core, i.nextDeviceNodeId, Installed)]
  {
    hide Sound, Seen, Settled, OnlyFabrics;
  }

  /** A step hands out one ID at most, and then the next one on disk. */
  lemma {:induction false} NextLogGrows(s: State, s': State)
    requires Inv(s) && Next(s, s')
    ensures |s.log| <= |s'.log| <= |s.log| + 1
    ensures |s'.log| > |s.log| ==>
      && Seen(s.disk).identity.Holds?
      && var i := Seen(s.disk).identity.identity;
         s'.log == s.log + [Entry(i.core, i.nextDeviceNodeId, Installed)]
  {
    hide Work, CanWork, WorldOk, Seen;
    var a :| Enabled(s, a) && s' == After(s, a);
    if a.Step? {
      assert Holder(s) == World(s.disk, s.log, ProcOf(s, a.p));
      WorkLog(Holder(s), a.choice);
    }
  }

  /** The step from `run[t]` hands out the ID of log entry `b`. */
  predicate HandsOut(run: seq<State>, t: nat, b: nat) {
    t + 1 < |run| && |run[t].log| == b && |run[t + 1].log| == b + 1
  }

  /** Every entry was handed out at exactly one moment. */
  lemma {:induction false} HandOutMoment(run: seq<State>, i: nat, b: nat) returns (t: nat)
    requires IsRun(run) && i < |run| && b < |run[i].log|
    ensures t < i && HandsOut(run, t, b)
    ensures forall t': nat :: HandsOut(run, t', b) ==> t' == t
  {
    hide Inv, Next, Seen;
    t := i;
    while |run[t].log| > b
      invariant t <= i
      invariant t < i ==> |run[t + 1].log| > b
      decreases t
    {
      RunInv(run, t - 1);
      NextLogGrows(run[t - 1], run[t]);
      t := t - 1;
    }
    RunInv(run, t);
    NextLogGrows(run[t], run[t + 1]);
    forall t': nat | HandsOut(run, t', b) ensures t' == t {
      if t' < t { RunKeeps(run, t' + 1, t); }
      if t < t' { RunKeeps(run, t + 1, t'); }
    }
  }

  /** Every ID is handed out at one moment and is the next ID in the identity file then. So an earlier
      one is handed out again exactly when that file has not moved past it; otherwise the new one is
      larger. `UsedUpExactly` says when the file moves. */
  lemma {:induction false} ReusedExactly(run: seq<State>, i: nat, a: nat, b: nat) returns (t: nat)
    requires IsRun(run) && i < |run| && a < b < |run[i].log|
    ensures t < i && HandsOut(run, t, b) && forall t': nat :: HandsOut(run, t', b) ==> t' == t
    ensures var log, file := run[i].log, IdentityOf(Committed(run[t].disk));
      && file.Holds? && log[b].node == file.identity.nextDeviceNodeId
      && (log[a].node == log[b].node <==> file.identity.nextDeviceNodeId == log[a].node)
      && (log[a].node < log[b].node <==> log[a].node < file.identity.nextDeviceNodeId)
  {
    hide Inv, Next;
    t := HandOutMoment(run, i, b);
    RunInv(run, t);
    NextLogGrows(run[t], run[t + 1]);
    RunKeeps(run, t + 1, i);
    NodeIdsNeverReused(run, i, a, b);
  }

  /** The lock holder is about to rename a new identity file into place. */
  predicate AtIdentityRename(pc: Pc) {
    pc.Writing? && pc.name.IdentityJson? && pc.stage.Swap?
  }

  /** The next node ID on disk moves only by a rename of the identity file, and by one. */
  ghost predicate IdMoves(v: View, v': View, pc: Pc) {
    v.identity.Holds? ==>
      && v'.identity.Holds?
      && var n, n' := v.identity.identity.nextDeviceNodeId, v'.identity.identity.nextDeviceNodeId;
         n' == n || (n' == n + 1 && AtIdentityRename(pc))
  }

  lemma {:induction false} WorkMovesId(w: World, c: Choice)
    requires WorldOk(w) && CanWork(w, c)
    ensures IdMoves(Seen(w.disk), Seen(Work(w, c).disk), w.pc)
  {
    hide Sound, Seen, Settled, OnlyFabrics, StageOk, AfterStage;
    if w.pc.Discarding? {
      DiscardDisk(w.disk, w.pc.key);
    } else if w.pc.Writing? {
      WriteJustified(w.pc, Seen(w.disk), w.log);
      WriteDisk(w.disk, w.pc);
    }
  }

  lemma {:induction false} NextMovesId(s: State, s': State)
    requires Inv(s) && Next(s, s')
    ensures IdMoves(Seen(s.disk), Seen(s'.disk), Holder(s).pc)
  {
    hide Work, CanWork, IdMoves, Committed, ViewOf, PcOk, Sound;
    var a :| Enabled(s, a) && s' == After(s, a);
    SameMoves(Seen(s.disk), Holder(s).pc);
    match a
    case Step(p, choice) =>
      assert Holder(s) == World(s.disk, s.log, ProcOf(s, p));
      WorkMovesId(Holder(s), choice);
    case Die(p, left) => if s.lock == Some(p) { CrashKeepsCommitted(s.disk, left); }
    case PowerLoss(left) => CrashKeepsCommitted(s.disk, left);
    case LoseRegistry(junk) =>
      LossView(s.disk, s'.disk, junk);
      LostRegistryMoves(Seen(s.disk), Holder(s).pc);
    case _ =>
  }

  lemma SameMoves(v: View, pc: Pc)
    ensures IdMoves(v, v, pc)
  {
  }

  lemma LostRegistryMoves(v: View, pc: Pc)
    ensures IdMoves(v, v.(registry := map[]), pc)
  {
  }

  /** At `run[m]` the identity file is renamed into place that takes the next ID from `n` to the one
      after. */
  ghost predicate MovesPast(run: seq<State>, m: nat, n: nat) {
    && m + 1 < |run| && AtIdentityRename(Holder(run[m]).pc)
    && Seen(run[m].disk).identity.Holds? && Seen(run[m].disk).identity.identity.nextDeviceNodeId == n
    && Seen(run[m + 1].disk).identity.Holds? && Seen(run[m + 1].disk).identity.identity.nextDeviceNodeId == n + 1
  }

  function NextIdAt(s: State): nat {
    var file := Seen(s.disk).identity;
    if file.Holds? then file.identity.nextDeviceNodeId else 0
  }

  /** While the next ID leaves `n` behind, some rename takes it from `n` to the one after. */
  lemma {:induction false} FindMove(run: seq<State>, i: nat, j: nat) returns (m: nat)
    requires IsRun(run) && i <= j < |run| && Seen(run[i].disk).identity.Holds?
    requires NextIdAt(run[i]) != NextIdAt(run[j])
    ensures i <= m < j && MovesPast(run, m, NextIdAt(run[i]))
    decreases j - i
  {
    hide Inv, Seen, Next;
    RunInv(run, i);
    assert Next(run[i], run[i + 1]);
    NextMovesId(run[i], run[i + 1]);
    if NextIdAt(run[i + 1]) != NextIdAt(run[i]) {
      m := i;
    } else {
      m := FindMove(run, i + 1, j);
    }
  }

  /** When an ID is used up: a later hand-out gives another ID exactly when, between the two
      hand-outs, a rename of the identity file took the next ID from the earlier to the one after. */
  lemma {:induction false} UsedUpExactly(run: seq<State>, i: nat, a: nat, b: nat) returns (ta: nat, tb: nat)
    requires IsRun(run) && i < |run| && a < b < |run[i].log|
    ensures HandsOut(run, ta, a) && HandsOut(run, tb, b) && ta < tb < i
    ensures run[i].log[a].node != run[i].log[b].node <==>
      exists m: nat :: ta < m < tb && MovesPast(run, m, run[i].log[a].node)
  {
    hide Inv, Next, IdMoves, Seen;
    var log := run[i].log;
    ta := HandOutMoment(run, i, a);
    tb := HandOutMoment(run, i, b);
    HandedOut(run, ta, i, a);
    HandedOut(run, tb, i, b);
    if tb <= ta { RunKeeps(run, tb + 1, ta + 1); }
    if log[a].node != log[b].node {
      var m := FindMove(run, ta, tb);
      NotWhileHandingOut(run, ta);
    }
    if m: nat :| ta < m < tb && MovesPast(run, m, log[a].node) {
      RunKeeps(run, m + 1, tb);
    }
  }

  lemma {:induction false} HandedOut(run: seq<State>, t: nat, i: nat, b: nat)
    requires IsRun(run) && HandsOut(run, t, b) && t < i < |run|
    ensures b < |run[i].log| && Seen(run[t].disk).identity.Holds? && run[i].log[b].node == NextIdAt(run[t])
  {
    hide Inv, Next;
    RunInv(run, t);
    assert Next(run[t], run[t + 1]);
    NextLogGrows(run[t], run[t + 1]);
    RunKeeps(run, t + 1, i);
  }

  /** A step that hands out an ID does not move it. */
  lemma {:induction false} NotWhileHandingOut(run: seq<State>, t: nat)
    requires IsRun(run) && t + 1 < |run| && |run[t + 1].log| > |run[t].log|
    ensures !AtIdentityRename(Holder(run[t]).pc)
  {
    hide Inv, WorldOk, Seen;
    assert Next(run[t], run[t + 1]);
    RunInv(run, t);
    HandingOutIsReady(run[t], run[t + 1]);
  }

  lemma {:induction false} HandingOutIsReady(s: State, s': State)
    requires Inv(s) && Next(s, s') && |s'.log| > |s.log|
    ensures Holder(s).pc.Ready?
  {
    hide WorldOk, Seen;
    var a :| Enabled(s, a) && s' == After(s, a);
  }

  // --- when renames are not yet durable --------------------------------------------------------------

  /** If a power loss also undoes the latest renames, back to the files of an earlier moment, the
      invariant of that moment holds again and no run is refused; but a device certified since then
      keeps its authority exactly when the identity file was already in place at that moment. */
  lemma {:induction false} UndoneRenames(run: seq<State>, i: nat, j: nat, left: Disk<Token>, e: nat)
    requires IsRun(run) && j <= i < |run| && e < |run[i].log|
    requires Settled(left) && Committed(left) == Committed(run[j].disk)
    ensures Inv(State(left, run[j].log, None, map[])) && !PlanFor(Seen(left)).Refuse?
    ensures var file := Seen(left).identity;
      && ((file.Holds? && file.identity.core == run[i].log[e].core) == file.Holds?)
      && (!file.Holds? ==> e >= |run[j].log|)
  {
    hide WorldOk, Seen;
    RunInv(run, j);
    RunInv(run, i);
    RunKeeps(run, j, i);
    SameFiles(Holder(run[j]), left);
    SoundOf(Holder(run[i]));
  }

  lemma {:induction false} SameFiles(w: World, left: Disk<Token>)
    requires WorldOk(w) && Settled(left) && Committed(left) == Committed(w.disk)
    ensures WorldOk(World(left, w.log, Stopped)) && Seen(left) == Seen(w.disk)
    ensures Sound(Seen(left), w.log)
  {
  }

  lemma {:induction false} SoundOf(w: World)
    requires WorldOk(w)
    ensures Sound(Seen(w.disk), w.log)
  {
  }
}
