/** "One fabric, ever" as a step system: any number of processes, one advisory lock, one step
    per file operation, and crashes and failures between any two of them. */
module Protocol {
  import opened Wrappers
  import opened Paths
  import opened FileSystem
  import opened Documents
  import opened Storage

  // --- the outside world: what devices hold -------------------------------------------

  /** How far a commissioning got: the device holds a certificate, the device completed, the
      process advanced the next node ID and returned. */
  datatype Status = Installed | Completed | Finished

  /** One node ID given to a device, with the certificate authority that signed for it. */
  datatype Entry = Entry(core: Core, node: nat, status: Status)

  // --- processes ------------------------------------------------------------------------

  datatype Kind = Commission | Sync(targets: seq<nat>) | Decommission(targets: seq<nat>)

  datatype Job = Job(kind: Kind, fabricLabel: string)

  /** Where a process is, with the values it has read so far. `Writing` is a store in progress
      and what follows it. */
  datatype Pc =
    | Stopped
    | Starting(job: Job)
    | Loading(job: Job)
    | Registering(job: Job, fabrics: map<Key, Fabric>)
    | Reading(job: Job, fabrics: map<Key, Fabric>, registry: Registry)
    | Discarding(job: Job, fabrics: map<Key, Fabric>, registry: Registry, key: Key)
    | Guarding(job: Job, fabrics: map<Key, Fabric>, registry: Registry)
    | Refused(why: Refusal)
    | Ready(job: Job, key: Key, identity: Identity)
    | Certified(identity: Identity)
    | Recording(identity: Identity)
    | Finishing
    | Syncing(targets: seq<nat>, attempted: bool)
    | Decommissioning(targets: seq<nat>)
    | Writing(name: Name, doc: Token, stage: Stage, next: Pc)

  /** What the environment decides: a table slot, fresh identifiers and keys, the label the
      stack accepted, a device record, and whether a device answered. */
  datatype Choice = Choice(key: Key, core: Core, fabricLabel: string, record: DeviceRecord, answered: bool)

  datatype World = World(disk: Disk<Token>, log: seq<Entry>, pc: Pc)

  predicate Critical(pc: Pc) {
    !pc.Stopped? && !pc.Starting?
  }

  function Marked(log: seq<Entry>, status: Status): seq<Entry>
    requires log != []
  {
    log[|log| - 1 := log[|log| - 1].(status := status)]
  }

  predicate CanWork(w: World, c: Choice) {
    match w.pc
    case Stopped => false
    case Starting(_) => false
    case Reading(_, fabrics, _) => fabrics == map[] || c.key in fabrics
    case Guarding(_, fabrics, _) => c.key !in fabrics
    case Certified(_) => w.log != []
    case Finishing => w.log != []
    case Writing(name, _, stage, _) => stage.Opening? || Temp(name) in w.disk
    case _ => true
  }

  /** One step of the lock holder: a file operation, or a decision on what the files hold. */
  function Work(w: World, c: Choice): World
    requires CanWork(w, c)
  {
    var pc := w.pc;
    if pc.Discarding? then
      World(w.disk - {Real(Blob(pc.key))}, w.log, Guarding(pc.job, pc.fabrics, pc.registry))
    else if pc.Writing? then
      World(AfterStage(w.disk, pc.name, [pc.doc], EndOfLine, pc.stage), w.log, AfterWrite(pc))
    else
      World(w.disk, NextLog(pc, w.log), NextPc(pc, Seen(w.disk), c))
  }

  function AfterWrite(pc: Pc): Pc
    requires pc.Writing?
  {
    if pc.stage.Swap? then pc.next else pc.(stage := NextStage(pc.stage))
  }

  /** What the step tells the outside world. */
  function NextLog(pc: Pc, log: seq<Entry>): seq<Entry>
    requires pc.Certified? || pc.Finishing? ==> log != []
  {
    match pc
    case Ready(job, _, identity) =>
      if job.kind.Commission? then log + [Entry(identity.core, identity.nextDeviceNodeId, Installed)] else log
    case Certified(_) => Marked(log, Completed)
    case Finishing => Marked(log, Finished)
    case _ => log
  }

  /** Where the process goes next, given what it reads. */
  function NextPc(pc: Pc, v: View, c: Choice): Pc
    requires Critical(pc) && !pc.Discarding? && !pc.Writing?
    requires pc.Reading? ==> pc.fabrics == map[] || c.key in pc.fabrics
  {
    match pc
    case Loading(job) => Registering(job, v.fabrics)
    case Registering(job, fabrics) => Reading(job, fabrics, v.registry)
    case Reading(job, fabrics, registry) =>
      if fabrics == map[] then Guarding(job, fabrics, registry)
      else AfterIdentity(v.identity, job, fabrics, registry, c.key)
    case Guarding(job, fabrics, registry) =>
      if !v.identity.Absent? then Refused(IdentityWithoutFabric)
      else if registry != map[] then Refused(RegistryWithoutFabric)
      else Bootstrap(job, c.key, c.core, c.fabricLabel)
    case Ready(job, _, identity) => (
      match job.kind
      case Commission => Certified(identity)
      case Sync(targets) => Syncing(targets, false)
      case Decommission(targets) => Decommissioning(targets))
    case Certified(identity) => Recording(identity)
    case Recording(identity) =>
      var node := identity.nextDeviceNodeId;
      Writing(DevicesJson, RegistryDoc(v.registry[node := c.record]), Opening,
              Writing(IdentityJson, IdentityDoc(identity.(nextDeviceNodeId := node + 1)), Opening, Finishing))
    case Syncing(targets, attempted) =>
      if targets == [] then Stopped
      else Writing(DevicesJson, RegistryDoc(v.registry[targets[0] := c.record]), Opening,
                   if attempted then Syncing(targets[1..], false) else Syncing(targets, true))
    case Decommissioning(targets) =>
      if targets == [] then Stopped
      else if !c.answered then Decommissioning(targets[1..])
      else Writing(DevicesJson, RegistryDoc(v.registry - {targets[0]}), Opening, Decommissioning(targets[1..]))
    case Refused(_) => Stopped
    case Finishing => Stopped
  }

  /** A fabric was loaded: keep it with its identity, discard it, or refuse. */
  function AfterIdentity(file: IdentityFile, job: Job, fabrics: map<Key, Fabric>, registry: Registry, key: Key): Pc
    requires key in fabrics
  {
    match file
    case Holds(identity) =>
      if fabrics[key].fabricLabel == job.fabricLabel then Ready(job, key, identity)
      else Writing(Blob(key), FabricDoc(fabrics[key].(fabricLabel := job.fabricLabel)), Opening,
                   Ready(job, key, identity))
    case Unparsable => Refused(IdentityUnparsable)
    case Absent =>
      if registry == map[] then Discarding(job, fabrics - {key}, registry, key) else Refused(RegistryWithoutIdentity)
  }

  /** The fabric blob first, the identity file after it. */
  function Bootstrap(job: Job, key: Key, core: Core, fabricLabel: string): Pc {
    var identity := Identity(core, 1);
    Writing(Blob(key), FabricDoc(Fabric(core, fabricLabel)), Opening,
            Writing(IdentityJson, IdentityDoc(identity), Opening, Ready(job, key, identity)))
  }

  // --- the whole system ---------------------------------------------------------------------

  datatype State = State(disk: Disk<Token>, log: seq<Entry>, lock: Option<nat>, procs: map<nat, Pc>)

  function ProcOf(s: State, p: nat): Pc {
    if p in s.procs then s.procs[p] else Stopped
  }

  /** Targets are read from the registry before the lock is taken. */
  predicate Resolved(kind: Kind, registry: Registry) {
    match kind
    case Commission => true
    case Sync(targets) => forall t :: t in targets ==> t in registry
    case Decommission(targets) => forall t :: t in targets ==> t in registry
  }

  datatype Action =
    | Start(p: nat, job: Job)
    | Acquire(p: nat)
    | Contend(p: nat)
    | Step(p: nat, choice: Choice)
    | Die(p: nat, left: Disk<Token>)
    | PowerLoss(left: Disk<Token>)
    | LoseRegistry(junk: Option<seq<Token>>)

  ghost predicate Enabled(s: State, a: Action) {
    match a
    case Start(p, job) => ProcOf(s, p).Stopped? && Resolved(job.kind, RegistryOf(Committed(s.disk)))
    case Acquire(p) => ProcOf(s, p).Starting? && s.lock.None?
    case Contend(p) => ProcOf(s, p).Starting? && s.lock.Some?
    case Step(p, choice) => Critical(ProcOf(s, p)) && CanWork(World(s.disk, s.log, ProcOf(s, p)), choice)
    case Die(p, left) => if s.lock == Some(p) then Survives(s.disk, left) else left == s.disk
    case PowerLoss(left) => Survives(s.disk, left)
    case LoseRegistry(junk) => junk.None? || (Parsed(junk.value).Some? ==> !Parsed(junk.value).value.RegistryDoc?)
  }

  ghost function After(s: State, a: Action): State
    requires Enabled(s, a)
  {
    match a
    case Start(p, job) => s.(procs := s.procs[p := Starting(job)])
    case Acquire(p) => s.(lock := Some(p), procs := s.procs[p := Loading(ProcOf(s, p).job)])
    case Contend(p) => s.(procs := s.procs[p := Stopped])
    case Step(p, choice) =>
      var w := Work(World(s.disk, s.log, ProcOf(s, p)), choice);
      State(w.disk, w.log, if Critical(w.pc) then s.lock else None, s.procs[p := w.pc])
    case Die(p, left) => State(left, s.log, if s.lock == Some(p) then None else s.lock, s.procs[p := Stopped])
    case PowerLoss(left) => State(left, s.log, None, map[])
    case LoseRegistry(junk) =>
      var file := Real(DevicesJson);
      s.(disk := if junk.Some? then s.disk[file := File(junk.value, true)] else s.disk - {file})
  }

  ghost predicate Next(s: State, s': State) {
    exists a :: Enabled(s, a) && s' == After(s, a)
  }

  /** Virgin storage and no process running. */
  predicate Init(s: State) {
    s.disk == map[] && s.log == [] && s.lock == None && s.procs == map[]
  }

  ghost predicate IsRun(run: seq<State>) {
    run != [] && Init(run[0]) && forall i :: 0 <= i < |run| - 1 ==> Next(run[i], run[i + 1])
  }

  // --- the invariant ----------------------------------------------------------------------------

  /** Everything handed out was signed by the identity on disk, below or at its next node ID,
      strictly below once finished; and no ID is handed out again after a finished one. */
  ghost predicate LogOk(file: IdentityFile, log: seq<Entry>) {
    && (!file.Holds? ==> log == [])
    && (forall i :: file.Holds? && 0 <= i < |log| ==>
          && log[i].core == file.identity.core
          && log[i].node <= file.identity.nextDeviceNodeId
          && (log[i].status.Finished? ==> log[i].node < file.identity.nextDeviceNodeId))
    && (forall i, j :: 0 <= i < j < |log| ==>
          log[i].node <= log[j].node && (log[i].status.Finished? ==> log[i].node < log[j].node))
  }

  ghost predicate Sound(v: View, log: seq<Entry>) {
    Consistent(v) && LogOk(v.identity, log)
  }

  ghost predicate LastIs(log: seq<Entry>, node: nat, status: Status) {
    log != [] && log[|log| - 1].node == node && log[|log| - 1].status == status
  }

  /** From `v` to `v'` the next node ID moves on by one at most. */
  ghost predicate AdvancesByOne(v: View, v': View) {
    v.identity.Holds? && v'.identity.Holds? ==>
      v'.identity.identity.nextDeviceNodeId <= v.identity.identity.nextDeviceNodeId + 1
  }

  /** What the lock holder may rely on. A store in progress is fine if its effect is, and if what
      follows is fine after it. */
  ghost predicate PcOk(pc: Pc, v: View, log: seq<Entry>)
    decreases pc
  {
    match pc
    case Stopped => true
    case Starting(_) => true
    case Loading(_) => true
    case Registering(_, fabrics) => fabrics == v.fabrics
    case Reading(_, fabrics, registry) => fabrics == v.fabrics && (registry != map[] ==> v.identity.Holds?)
    case Discarding(_, fabrics, registry, key) =>
      v.identity.Absent? && key in v.fabrics && fabrics == v.fabrics - {key} && registry == map[]
    case Guarding(_, fabrics, registry) =>
      fabrics == v.fabrics == map[] && (registry != map[] ==> v.identity.Holds?)
    case Refused(_) => false
    case Ready(_, key, identity) =>
      v.identity == Holds(identity) && v.fabrics.Keys == {key} && v.fabrics[key].core == identity.core
    case Certified(identity) => v.identity == Holds(identity) && LastIs(log, identity.nextDeviceNodeId, Installed)
    case Recording(identity) => v.identity == Holds(identity) && LastIs(log, identity.nextDeviceNodeId, Completed)
    case Finishing =>
      v.identity.Holds? && log != [] && log[|log| - 1].node < v.identity.identity.nextDeviceNodeId
    case Syncing(_, _) => v.identity.Holds?
    case Decommissioning(_) => v.identity.Holds?
    case Writing(name, doc, _, next) =>
      && WellTyped(name, doc) && (next.Writing? ==> next.stage.Opening?)
      && var v' := Committing(v, name, doc);
         Sound(v', log) && KeepsIdentity(v, v') && AdvancesByOne(v, v') && PcOk(next, v', log)
  }

  /** The world is in order, where `v` is what its disk holds. */
  ghost predicate InOrder(d: Disk<Token>, v: View, log: seq<Entry>, pc: Pc) {
    && Settled(d) && OnlyFabrics(Committed(d))
    && Sound(v, log) && PcOk(pc, v, log)
    && (pc.Writing? ==> StageOk(d, pc.name, [pc.doc], EndOfLine, pc.stage))
  }

  ghost predicate WorldOk(w: World) {
    InOrder(w.disk, Seen(w.disk), w.log, w.pc)
  }

  ghost predicate Inv(s: State) {
    && WorldOk(World(s.disk, s.log, if s.lock.Some? then ProcOf(s, s.lock.value) else Stopped))
    && (forall p :: p in s.procs && Critical(s.procs[p]) ==> s.lock == Some(p))
  }

  /** Nothing handed out is forgotten or reassigned. */
  ghost predicate LogGrows(log: seq<Entry>, log': seq<Entry>) {
    |log| <= |log'| && forall i :: 0 <= i < |log| ==>
      && log'[i].core == log[i].core && log'[i].node == log[i].node
      && (log[i].status.Finished? ==> log'[i].status.Finished?)
      && (log'[i].status.Installed? ==> log[i].status.Installed?)
  }

  ghost predicate Keeps(d: Disk<Token>, log: seq<Entry>, d': Disk<Token>, log': seq<Entry>) {
    KeepsIdentity(Seen(d), Seen(d')) && LogGrows(log, log')
  }
}
