/** No stuck state: whatever a crash left behind, the next uninterrupted start completes. */
module ProtocolProgress {
  import opened Wrappers
  import opened Paths
  import opened FileSystem
  import opened Documents
  import opened Storage
  import opened Protocol
  import opened ProtocolProofs

  /** Between taking the lock and having a fabric with its identity. */
  predicate Ensuring(pc: Pc)
    decreases pc
  {
    match pc
    case Loading(_) => true
    case Registering(_, _) => true
    case Reading(_, _, _) => true
    case Discarding(_, _, _, _) => true
    case Guarding(_, _, _) => true
    case Ready(_, _, _) => true
    case Writing(_, _, _, next) => Ensuring(next)
    case _ => false
  }

  /** How many steps are left at most: fifteen from the lock to the end of a bootstrap. */
  function StepsLeft(pc: Pc): nat
    decreases pc
  {
    match pc
    case Loading(_) => 15
    case Registering(_, _) => 14
    case Reading(_, _, _) => 13
    case Discarding(_, _, _, _) => 12
    case Guarding(_, _, _) => 11
    case Writing(_, _, stage, next) => StagesLeft(stage) + StepsLeft(next)
    case _ => 0
  }

  lemma {:induction false} DecisionAdvances(pc: Pc, v: View, log: seq<Entry>, c: Choice)
    requires Ensuring(pc) && !pc.Ready? && !pc.Discarding? && !pc.Writing?
    requires pc.Reading? ==> pc.fabrics == map[] || c.key in pc.fabrics
    requires Sound(v, log) && PcOk(pc, v, log)
    ensures NextLog(pc, log) == log
    ensures Ensuring(NextPc(pc, v, c)) && StepsLeft(NextPc(pc, v, c)) < StepsLeft(pc)
  {
    hide Sound;
    DecisionsOk(pc, v, log, c);
    if pc.Guarding? {
      BootstrapLength(pc.job, c.key, c.core, c.fabricLabel);
    }
  }

  lemma {:induction false} BootstrapLength(job: Job, key: Key, core: Core, fabricLabel: string)
    ensures Ensuring(Bootstrap(job, key, core, fabricLabel)) && StepsLeft(Bootstrap(job, key, core, fabricLabel)) == 10
  {
    var second := Writing(IdentityJson, IdentityDoc(Identity(core, 1)), Opening, Ready(job, key, Identity(core, 1)));
    assert Ensuring(second) && StepsLeft(second) == 5;
  }

  /** Every step of the lock holder, whatever the environment chooses, brings it closer; it is
      never refused and tells the outside world nothing yet. */
  lemma {:induction false} EveryStepAdvances(w: World, c: Choice)
    requires WorldOk(w) && CanWork(w, c) && Ensuring(w.pc) && !w.pc.Ready?
    ensures var w' := Work(w, c);
      WorldOk(w') && w'.log == w.log && Ensuring(w'.pc) && StepsLeft(w'.pc) < StepsLeft(w.pc)
  {
    hide Sound, Consistent, LogOk, Settled, OnlyFabrics, StageOk, KeepsIdentity, Seen, AfterStage;
    WorkKeeps(w, c);
    if !w.pc.Discarding? && !w.pc.Writing? {
      DecisionAdvances(w.pc, Seen(w.disk), w.log, c);
    }
  }

  /** The environment never blocks it. */
  lemma {:induction false} SomeStep(w: World) returns (c: Choice)
    requires WorldOk(w) && Ensuring(w.pc) && !w.pc.Ready?
    ensures CanWork(w, c)
  {
    hide Sound, Seen;
    var key: Key := 1;
    if w.pc.Reading? && w.pc.fabrics != map[] {
      var k :| k in w.pc.fabrics;
      key := k;
    }
    c := Choice(key, Core(0, 0, 0), "", BLANK_RECORD, true);
  }

  /** Ready means ready: exactly one fabric, and the identity that belongs to it. */
  ghost predicate OneFabricReady(w: World) {
    && w.pc.Ready?
    && Seen(w.disk).identity == Holds(w.pc.identity)
    && Seen(w.disk).fabrics.Keys == {w.pc.key}
    && Seen(w.disk).fabrics[w.pc.key].core == w.pc.identity.core
  }

  ghost predicate SoloStep(w: World, w': World) {
    exists c :: CanWork(w, c) && w' == Work(w, c)
  }

  lemma {:induction false} EnsureCompletes(w: World) returns (solo: seq<World>)
    requires WorldOk(w) && Ensuring(w.pc)
    ensures 1 <= |solo| <= StepsLeft(w.pc) + 1 && solo[0] == w
    ensures forall i :: 0 <= i < |solo| - 1 ==> Critical(solo[i].pc) && SoloStep(solo[i], solo[i + 1])
    ensures OneFabricReady(solo[|solo| - 1]) && WorldOk(solo[|solo| - 1]) && solo[|solo| - 1].log == w.log
    decreases StepsLeft(w.pc)
  {
    hide Work, CanWork, WorldOk, Ensuring;
    if w.pc.Ready? {
      ReadyMeans(w);
      return [w];
    }
    EnsuringIsCritical(w.pc);
    var c := SomeStep(w);
    EveryStepAdvances(w, c);
    var rest := EnsureCompletes(Work(w, c));
    solo := [w] + rest;
    assert SoloStep(w, rest[0]);
    forall i | 0 <= i < |solo| - 1 ensures Critical(solo[i].pc) && SoloStep(solo[i], solo[i + 1]) {
      if i > 0 { assert SoloStep(rest[i - 1], rest[i]); }
    }
  }

  lemma {:induction false} ReadyMeans(w: World)
    requires WorldOk(w) && w.pc.Ready?
    ensures OneFabricReady(w)
  {
  }

  lemma {:induction false} EnsuringIsCritical(pc: Pc)
    requires Ensuring(pc)
    ensures Critical(pc)
  {
  }

  // --- in the whole system -----------------------------------------------------------------

  /** The system with the lock holder in the given world. */
  function WithHolder(s: State, p: nat, w: World): State {
    State(w.disk, w.log, Some(p), s.procs[p := w.pc])
  }

  lemma {:induction false} SoloStepIsNext(s: State, p: nat, w: World, w': World)
    requires Critical(w.pc) && Critical(w'.pc) && SoloStep(w, w')
    ensures Next(WithHolder(s, p, w), WithHolder(s, p, w'))
  {
    hide Work, CanWork;
    var c :| CanWork(w, c) && w' == Work(w, c);
    var t := WithHolder(s, p, w);
    assert World(t.disk, t.log, ProcOf(t, p)) == w;
    assert Enabled(t, Step(p, c));
    assert After(t, Step(p, c)) == WithHolder(s, p, w') by {
      assert t.procs[p := w'.pc] == s.procs[p := w'.pc];
    }
  }

  lemma {:induction false} Continue(run: seq<State>, s: State)
    requires IsRun(run) && Next(run[|run| - 1], s)
    ensures IsRun(run + [s])
  {
    hide Next, Init;
    var longer := run + [s];
    forall i | 0 <= i < |longer| - 1 ensures Next(longer[i], longer[i + 1]) {
      if i < |run| - 1 { assert Next(run[i], run[i + 1]); }
    }
  }

  lemma {:induction false} ContinueSolo(run: seq<State>, s: State, p: nat, solo: seq<World>)
    returns (longer: seq<State>)
    requires solo != [] && Critical(solo[|solo| - 1].pc)
    requires forall i :: 0 <= i < |solo| - 1 ==> Critical(solo[i].pc) && SoloStep(solo[i], solo[i + 1])
    requires IsRun(run) && run[|run| - 1] == WithHolder(s, p, solo[0])
    ensures IsRun(longer) && run <= longer && longer[|longer| - 1] == WithHolder(s, p, solo[|solo| - 1])
    ensures |longer| == |run| + |solo| - 1
    decreases |solo|
  {
    hide IsRun, SoloStep, Next;
    if |solo| == 1 {
      return run;
    }
    assert Critical(solo[1].pc) by { assert |solo| > 2 ==> Critical(solo[1].pc); }
    SoloStepIsNext(s, p, solo[0], solo[1]);
    Continue(run, WithHolder(s, p, solo[1]));
    forall i | 0 <= i < |solo| - 2 ensures Critical(solo[1..][i].pc) && SoloStep(solo[1..][i], solo[1..][i + 1]) {
      assert SoloStep(solo[i + 1], solo[i + 2]);
    }
    longer := ContinueSolo(run + [WithHolder(s, p, solo[1])], s, p, solo[1..]);
  }

  /** From every state any run can reach, after any crashes, a process that finds the lock free
      and is left alone for at most sixteen steps has the one fabric with its matching identity;
      it is never refused on the way. */
  lemma {:induction false} NoStuckState(run: seq<State>, p: nat) returns (longer: seq<State>)
    requires IsRun(run) && run[|run| - 1].lock.None? && ProcOf(run[|run| - 1], p).Starting?
    ensures IsRun(longer) && run <= longer && |longer| <= |run| + 16
    ensures var last := longer[|longer| - 1];
      last.lock == Some(p) && last.log == run[|run| - 1].log
      && OneFabricReady(World(last.disk, last.log, ProcOf(last, p)))
  {
    hide IsRun, SoloStep, WorldOk, OneFabricReady, Work, CanWork, Next;
    RunIsNonEmpty(run);
    var s := run[|run| - 1];
    RunInv(run, |run| - 1);
    AcquireIsNext(s, p);
    var w := World(s.disk, s.log, Loading(ProcOf(s, p).job));
    IdleOk(Holder(s), w.pc);
    Continue(run, WithHolder(s, p, w));
    var solo := EnsureCompletes(w);
    var end := solo[|solo| - 1];
    ReadyIsCritical(end);
    longer := ContinueSolo(run + [WithHolder(s, p, w)], s, p, solo);
    assert World(end.disk, end.log, ProcOf(WithHolder(s, p, end), p)) == end;
  }

  lemma ReadyIsCritical(w: World)
    requires OneFabricReady(w)
    ensures Critical(w.pc)
  {
  }

  lemma RunIsNonEmpty(run: seq<State>)
    requires IsRun(run)
    ensures run != []
  {
  }

  lemma {:induction false} AcquireIsNext(s: State, p: nat)
    requires s.lock.None? && ProcOf(s, p).Starting?
    ensures Next(s, WithHolder(s, p, World(s.disk, s.log, Loading(ProcOf(s, p).job))))
  {
    assert Enabled(s, Acquire(p));
    assert After(s, Acquire(p)) == WithHolder(s, p, World(s.disk, s.log, Loading(ProcOf(s, p).job)));
  }

  // --- every run of a process left alone ----------------------------------------------------------

  ghost predicate SoloNext(s: State, s': State, p: nat) {
    exists c :: Enabled(s, Step(p, c)) && s' == After(s, Step(p, c))
  }

  lemma {:induction false} SoloAdvances(s: State, s': State, p: nat)
    requires Inv(s) && SoloNext(s, s', p) && Ensuring(ProcOf(s, p)) && !ProcOf(s, p).Ready?
    ensures Inv(s') && s'.log == s.log
    ensures Ensuring(ProcOf(s', p)) && StepsLeft(ProcOf(s', p)) < StepsLeft(ProcOf(s, p))
  {
    hide Work, CanWork, WorldOk, Keeps, Ensuring;
    var c :| Enabled(s, Step(p, c)) && s' == After(s, Step(p, c));
    StepInv(s, p, c);
    assert Holder(s) == World(s.disk, s.log, ProcOf(s, p));
    EveryStepAdvances(Holder(s), c);
  }

  /** From `run[i]` on, the process works alone until `run[j]`. */
  ghost predicate Alone(run: seq<State>, i: nat, j: nat, p: nat) {
    i <= j < |run| && forall k :: i <= k < j ==> SoloNext(run[k], run[k + 1], p)
  }

  ghost predicate ReadyAt(s: State, p: nat) {
    OneFabricReady(World(s.disk, s.log, ProcOf(s, p)))
  }

  lemma {:induction false} ReadyOrCloser(run: seq<State>, i: nat, j: nat, p: nat) returns (k: nat)
    requires Alone(run, i, j, p) && Inv(run[i]) && Ensuring(ProcOf(run[i], p)) && run[i].lock == Some(p)
    ensures i <= k <= j && run[k].log == run[i].log
    ensures ReadyAt(run[k], p) || (
      k == j && Inv(run[j]) && run[j].lock == Some(p) && Ensuring(ProcOf(run[j], p)) && !ProcOf(run[j], p).Ready?
      && StepsLeft(ProcOf(run[j], p)) + (j - i) <= StepsLeft(ProcOf(run[i], p)))
    decreases j - i
  {
    hide Inv, Ensuring, SoloNext, ReadyAt;
    k := i;
    if ProcOf(run[i], p).Ready? {
      HolderIsReady(run[i], p);
    } else if i < j {
      SoloAdvances(run[i], run[i + 1], p);
      EnsuringIsCritical(ProcOf(run[i + 1], p));
      CriticalHolds(run[i + 1], p);
      k := ReadyOrCloser(run, i + 1, j, p);
    }
  }

  lemma {:induction false} EnsuringLeft(pc: Pc)
    requires Ensuring(pc) && !pc.Ready?
    ensures StepsLeft(pc) > 0
  {
  }

  lemma CriticalHolds(s: State, p: nat)
    requires Inv(s) && Critical(ProcOf(s, p))
    ensures s.lock == Some(p)
  {
  }

  lemma HolderIsReady(s: State, p: nat)
    requires Inv(s) && s.lock == Some(p) && ProcOf(s, p).Ready?
    ensures ReadyAt(s, p)
  {
    hide WorldOk, OneFabricReady;
    ReadyMeans(Holder(s));
  }

  lemma {:induction false} CanStep(s: State, p: nat) returns (c: Choice)
    requires Inv(s) && s.lock == Some(p) && Ensuring(ProcOf(s, p)) && !ProcOf(s, p).Ready?
    ensures Enabled(s, Step(p, c))
  {
    hide WorldOk, CanWork, Ensuring;
    EnsuringIsCritical(ProcOf(s, p));
    c := SomeStep(Holder(s));
  }

  /** Whatever the environment chooses, in every run in which a process takes the free lock and then
      works alone: it has had the one fabric with its matching identity, and told the outside world
      nothing before; or fewer than fifteen steps have passed, and it can take another. */
  lemma {:induction false} EverySoloRunIsReady(run: seq<State>, i: nat, j: nat, p: nat) returns (k: nat)
    requires IsRun(run) && i + 1 < |run| && Alone(run, i + 1, j, p)
    requires run[i].lock.None? && ProcOf(run[i], p).Starting? && run[i + 1] == After(run[i], Acquire(p))
    ensures i < k <= j && run[k].log == run[i].log
    ensures ReadyAt(run[k], p) || (k == j < i + 16 && exists c :: Enabled(run[j], Step(p, c)))
  {
    hide IsRun, Alone, ReadyAt, Inv, Enabled;
    RunInv(run, i + 1);
    AloneIsInside(run, i + 1, j, p);
    k := ReadyOrCloser(run, i + 1, j, p);
    if !ReadyAt(run[k], p) {
      EnsuringLeft(ProcOf(run[j], p));
      var c := CanStep(run[j], p);
    }
  }

  lemma AloneIsInside(run: seq<State>, i: nat, j: nat, p: nat)
    requires Alone(run, i, j, p)
    ensures i <= j < |run|
  {
  }

  // --- why an unfinished node ID may be handed out again ----------------------------------------

  lemma {:induction false} Act(run: seq<State>, a: Action)
    requires IsRun(run) && Enabled(run[|run| - 1], a)
    ensures IsRun(run + [After(run[|run| - 1], a)])
  {
    hide IsRun, Enabled, After;
    RunIsNonEmpty(run);
    Continue(run, After(run[|run| - 1], a));
  }

  lemma {:induction false} SoloKeeps(solo: seq<World>, k: nat)
    requires k < |solo| && WorldOk(solo[0])
    requires forall i :: 0 <= i < |solo| - 1 ==> SoloStep(solo[i], solo[i + 1])
    ensures WorldOk(solo[k])
  {
    hide Work, CanWork, WorldOk, Keeps;
    if k > 0 {
      SoloKeeps(solo, k - 1);
      assert SoloStep(solo[k - 1], solo[k]);
      var c :| CanWork(solo[k - 1], c) && solo[k] == Work(solo[k - 1], c);
      WorkKeeps(solo[k - 1], c);
    }
  }

  /** A store left alone runs to its end. */
  lemma {:induction false} FinishStore(w: World) returns (solo: seq<World>)
    requires WorldOk(w) && w.pc.Writing? && Critical(w.pc.next)
    ensures solo != [] && solo[0] == w
    ensures forall i :: 0 <= i < |solo| - 1 ==> Critical(solo[i].pc) && SoloStep(solo[i], solo[i + 1])
    ensures WellTyped(w.pc.name, w.pc.doc)
    ensures var end := solo[|solo| - 1];
      && end.pc == w.pc.next && end.log == w.log
      && Seen(end.disk) == Committing(Seen(w.disk), w.pc.name, w.pc.doc)
    decreases StagesLeft(w.pc.stage)
  {
    hide Sound, Consistent, LogOk, Settled, OnlyFabrics, KeepsIdentity, Seen, AfterStage;
    var c := Choice(1, Core(0, 0, 0), "", BLANK_RECORD, true);
    assert CanWork(w, c);
    var w' := Work(w, c);
    assert SoloStep(w, w');
    WorkKeeps(w, c);
    WriteJustified(w.pc, Seen(w.disk), w.log);
    WriteDisk(w.disk, w.pc);
    if w.pc.stage.Swap? {
      return [w, w'];
    }
    var rest := FinishStore(w');
    solo := [w] + rest;
    forall i | 0 <= i < |solo| - 1 ensures Critical(solo[i].pc) && SoloStep(solo[i], solo[i + 1]) {
      if i > 0 { assert SoloStep(rest[i - 1], rest[i]); }
    }
  }

  /** With one fabric and its identity on disk, a process that wants the label it already has goes
      straight through to a completed device, and starts recording it. */
  lemma {:induction false} DirectCommission(d: Disk<Token>, log: seq<Entry>, key: Key, identity: Identity)
    returns (job: Job, solo: seq<World>)
    requires Seen(d).identity == Holds(identity) && Seen(d).fabrics.Keys == {key}
    ensures job.kind.Commission? && |solo| == 7 && solo[0] == World(d, log, Loading(job))
    ensures forall i :: 0 <= i < 6 ==> Critical(solo[i].pc) && SoloStep(solo[i], solo[i + 1])
    ensures solo[6].log == log + [Entry(identity.core, identity.nextDeviceNodeId, Completed)] && solo[6].disk == d
    ensures var pc, node := solo[6].pc, identity.nextDeviceNodeId;
      && pc.Writing? && pc.name == DevicesJson && pc.doc == RegistryDoc(Seen(d).registry[node := BLANK_RECORD])
      && pc.next.Writing?
  {
    hide Seen;
    var v := Seen(d);
    job := Job(Commission, v.fabrics[key].fabricLabel);
    var c := Choice(key, identity.core, "", BLANK_RECORD, true);
    var w0 := World(d, log, Loading(job));
    var w1 := World(d, log, Registering(job, v.fabrics));
    var w2 := World(d, log, Reading(job, v.fabrics, v.registry));
    var w3 := World(d, log, Ready(job, key, identity));
    assert v.fabrics != map[];
    assert SoloStep(w0, w1) by { assert CanWork(w0, c) && w1 == Work(w0, c); }
    assert SoloStep(w1, w2) by { assert CanWork(w1, c) && w2 == Work(w1, c); }
    assert SoloStep(w2, w3) by { assert CanWork(w2, c) && w3 == Work(w2, c); }
    var w4, w5, w6 := CertifyAndComplete(w3, c);
    solo := [w0, w1, w2, w3, w4, w5, w6];
  }

  /** From ready to completed: the device is certified, completes, and is about to be recorded. */
  lemma {:induction false} CertifyAndComplete(w: World, c: Choice) returns (w1: World, w2: World, w3: World)
    requires w.pc.Ready? && w.pc.job.kind.Commission?
    ensures SoloStep(w, w1) && Critical(w1.pc) && SoloStep(w1, w2) && Critical(w2.pc) && SoloStep(w2, w3)
    ensures w3.disk == w.disk
    ensures w3.log == w.log + [Entry(w.pc.identity.core, w.pc.identity.nextDeviceNodeId, Completed)]
    ensures var pc, node := w3.pc, w.pc.identity.nextDeviceNodeId;
      && pc.Writing? && pc.name == DevicesJson && pc.doc == RegistryDoc(Seen(w.disk).registry[node := c.record])
      && pc.next.Writing?
  {
    hide Seen;
    var identity := w.pc.identity;
    w1 := World(w.disk, w.log + [Entry(identity.core, identity.nextDeviceNodeId, Installed)], Certified(identity));
    assert CanWork(w, c) && w1 == Work(w, c);
    w2 := World(w.disk, w.log + [Entry(identity.core, identity.nextDeviceNodeId, Completed)], Recording(identity));
    assert CanWork(w1, c) && w2 == Work(w1, c);
    assert CanWork(w2, c);
    w3 := Work(w2, c);
  }

  /** A process starts, takes the lock, and commissions a device with the next node ID as far as its
      record on disk; the next node ID is not advanced yet. */
  lemma {:induction false} HandOut(run: seq<State>, p: nat, key: Key, identity: Identity) returns (longer: seq<State>)
    requires IsRun(run)
    requires var s := run[|run| - 1];
      s.lock.None? && ProcOf(s, p).Stopped?
      && Seen(s.disk).identity == Holds(identity) && Seen(s.disk).fabrics.Keys == {key}
    ensures IsRun(longer) && run <= longer
    ensures var s, t, node := run[|run| - 1], longer[|longer| - 1], identity.nextDeviceNodeId;
      && t.lock == Some(p)
      && Seen(t.disk) == Seen(s.disk).(registry := Seen(s.disk).registry[node := BLANK_RECORD])
      && t.log == s.log + [Entry(identity.core, node, Completed)]
  {
    hide IsRun, Next, SoloStep, Seen, Work, CanWork, WorldOk;
    RunIsNonEmpty(run);
    var s := run[|run| - 1];
    var job, solo := DirectCommission(s.disk, s.log, key, identity);
    var entered := Enter(run, p, job);
    SoloKeeps(solo, 6);
    longer := ContinueSolo(entered, s, p, solo);
    var store := FinishStore(solo[6]);
    longer := ContinueSolo(longer, s, p, store);
  }

  /** A commissioning process starts and takes the free lock. */
  lemma {:induction false} Enter(run: seq<State>, p: nat, job: Job) returns (longer: seq<State>)
    requires IsRun(run) && run[|run| - 1].lock.None? && ProcOf(run[|run| - 1], p).Stopped? && job.kind.Commission?
    ensures IsRun(longer) && longer != [] && run <= longer
    ensures var s := run[|run| - 1];
      var w := World(s.disk, s.log, Loading(job));
      longer[|longer| - 1] == WithHolder(s, p, w) && WorldOk(w)
  {
    hide IsRun, Next, Seen, WorldOk;
    RunIsNonEmpty(run);
    var s := run[|run| - 1];
    var started := s.(procs := s.procs[p := Starting(job)]);
    Act(run, Start(p, job));
    Act(run + [started], Acquire(p));
    var w := World(s.disk, s.log, Loading(job));
    assert started.procs[p := Loading(job)] == s.procs[p := Loading(job)];
    longer := run + [started] + [WithHolder(s, p, w)];
    RunInv(longer, |longer| - 1);
    assert Holder(WithHolder(s, p, w)) == w;
  }

  /** Strict uniqueness fails: a process dies after its device was certified, completed and recorded,
      and before the identity file with the advanced next node ID was renamed into place, and the
      same ID goes to the next device. `ReusedExactly` is the condition. */
  lemma {:induction false} UnfinishedIdIsReused() returns (run: seq<State>, died: nat, a: nat, b: nat)
    ensures IsRun(run) && died < |run|
    ensures var log := run[|run| - 1].log;
      a < b < |log| && log[a].node == log[b].node && log[a].status.Completed? && log[b].status.Completed?
    ensures |run[died].log| == b && run[died].log[a].status.Completed?
    ensures run[died].log[a].node in Seen(run[died].disk).registry && run[died].lock.None?
  {
    hide Next, SoloStep, Seen, Work, CanWork, Enabled, After;
    var s0 := State(map[], [], None, map[]);
    run := [s0];
    assert IsRun(run);
    hide IsRun;
    var job := Job(Commission, "");
    FirstStart(s0, job);
    Act(run, Start(0, job));
    run := NoStuckState(run + [s0.(procs := map[0 := Starting(job)])], 0);
    RunIsNonEmpty(run);
    var s1 := run[|run| - 1];
    var w := World(s1.disk, s1.log, ProcOf(s1, 0));
    var key, identity := w.pc.key, w.pc.identity;
    CleanDeath(s1, 0);
    Act(run, Die(0, s1.disk));
    run := HandOut(run + [Dead(s1, 0)], 0, key, identity);
    RunIsNonEmpty(run);
    var s2 := run[|run| - 1];
    CleanDeath(s2, 0);
    Act(run, Die(0, s2.disk));
    died := |run|;
    run := HandOut(run + [Dead(s2, 0)], 0, key, identity);
    a, b := |s1.log|, |s1.log| + 1;
  }

  function Dead(s: State, p: nat): State {
    State(s.disk, s.log, None, s.procs[p := Stopped])
  }

  lemma CleanDeath(s: State, p: nat)
    requires s.lock == Some(p)
    ensures Enabled(s, Die(p, s.disk)) && After(s, Die(p, s.disk)) == Dead(s, p)
  {
  }

  lemma FirstStart(s: State, job: Job)
    requires s == State(map[], [], None, map[]) && job.kind.Commission?
    ensures Enabled(s, Start(0, job)) && After(s, Start(0, job)) == s.(procs := map[0 := Starting(job)])
  {
  }
}
