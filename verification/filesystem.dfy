/** A small file-system machine and the temp-file, write, sync, rename protocol on it.

    Fault model: an operation can fail and a write can be cut short. A crash keeps what was
    synced; a file not synced since its last write may hold anything afterwards, or be gone.
    Renames and removals are durable at once. A read fails only on an absent file. */
module FileSystem {
  import opened Wrappers
  import opened Paths

  datatype File<T> = File(data: seq<T>, synced: bool)

  type Disk<T> = map<Path, File<T>>

  // --- single operations -----------------------------------------------------------

  function Created<T>(d: Disk<T>, p: Path): Disk<T> {
    d[p := File([], false)]
  }

  function Appended<T>(d: Disk<T>, p: Path, more: seq<T>): Disk<T>
    requires p in d
  {
    d[p := File(d[p].data + more, false)]
  }

  function Synced<T>(d: Disk<T>, p: Path): Disk<T>
    requires p in d
  {
    d[p := d[p].(synced := true)]
  }

  function Renamed<T>(d: Disk<T>, from: Path, to: Path): Disk<T>
    requires from in d
  {
    (d - {from})[to := d[from]]
  }

  ghost predicate Survives<T(!new)>(d: Disk<T>, d': Disk<T>) {
    && (forall p :: p in d && d[p].synced ==> p in d' && d'[p] == d[p])
    && (forall p :: p in d' ==> p in d)
  }

  // --- the atomic map a disk stands for ------------------------------------------------

  function Names<T>(d: Disk<T>): (names: set<Name>)
    ensures forall n :: n in names <==> Real(n) in d
  {
    var reals := set p | p in d && p.Real?;
    var names := set p | p in reals :: p.name;
    assert forall n :: Real(n) in d ==> Real(n) in reals && Real(n).name in names;
    names
  }

  /** The committed files and their contents; temporary files are invisible here. */
  function Committed<T>(d: Disk<T>): (m: map<Name, seq<T>>)
    ensures forall n :: n in m <==> Real(n) in d
    ensures forall n :: n in m ==> m[n] == d[Real(n)].data
  {
    map n | n in Names(d) :: d[Real(n)].data
  }

  /** Everything committed is durable. */
  ghost predicate Settled<T>(d: Disk<T>) {
    forall n :: Real(n) in d ==> d[Real(n)].synced
  }

  lemma CrashKeepsCommitted<T(!new)>(d: Disk<T>, d': Disk<T>)
    requires Settled(d) && Survives(d, d')
    ensures Settled(d') && Committed(d') == Committed(d)
  {
    forall n ensures Real(n) in d' <==> Real(n) in d {}
    forall n | Real(n) in d' ensures d'[Real(n)] == d[Real(n)] {}
    assert Committed(d').Keys == Committed(d).Keys;
  }

  // --- one store, step by step -----------------------------------------------------------

  /** What a store does next. */
  datatype Stage = Opening | Body | Newline | Flush | Swap

  ghost predicate StageOk<T>(d: Disk<T>, name: Name, body: seq<T>, newline: T, stage: Stage) {
    var tmp := Temp(name);
    && (!stage.Opening? ==> tmp in d)
    && (stage.Body? ==> d[tmp].data == [])
    && (stage.Newline? ==> d[tmp].data == body)
    && (stage.Flush? ==> d[tmp].data == body + [newline])
    && (stage.Swap? ==> d[tmp] == File(body + [newline], true))
  }

  function AfterStage<T>(d: Disk<T>, name: Name, body: seq<T>, newline: T, stage: Stage): Disk<T>
    requires !stage.Opening? ==> Temp(name) in d
  {
    match stage
    case Opening => Created(d, Temp(name))
    case Body => Appended(d, Temp(name), body)
    case Newline => Appended(d, Temp(name), [newline])
    case Flush => Synced(d, Temp(name))
    case Swap => Renamed(d, Temp(name), Real(name))
  }

  function NextStage(stage: Stage): Stage
    requires !stage.Swap?
  {
    match stage case Opening => Body case Body => Newline case Newline => Flush case Flush => Swap
  }

  /** How many operations a store still takes. */
  function StagesLeft(stage: Stage): nat {
    match stage case Opening => 5 case Body => 4 case Newline => 3 case Flush => 2 case Swap => 1
  }

  lemma TempWriteInvisible<T>(d: Disk<T>, name: Name, f: File<T>)
    ensures Committed(d[Temp(name) := f]) == Committed(d)
    ensures Settled(d) ==> Settled(d[Temp(name) := f])
  {
    assert Committed(d[Temp(name) := f]).Keys == Committed(d).Keys;
  }

  lemma RenameCommits<T>(d: Disk<T>, name: Name)
    requires Temp(name) in d
    ensures Committed(Renamed(d, Temp(name), Real(name))) == Committed(d)[name := d[Temp(name)].data]
    ensures Settled(d) && d[Temp(name)].synced ==> Settled(Renamed(d, Temp(name), Real(name)))
  {
    assert Committed(Renamed(d, Temp(name), Real(name))).Keys == Committed(d).Keys + {name};
  }

  lemma RemovalCommits<T>(d: Disk<T>, name: Name)
    ensures Committed(d - {Real(name)}) == Committed(d) - {name}
    ensures Settled(d) ==> Settled(d - {Real(name)})
  {
    assert Committed(d - {Real(name)}).Keys == Committed(d).Keys - {name};
  }

  /** Every step but the rename is invisible; the rename is one atomic update. */
  lemma StageRefines<T>(d: Disk<T>, name: Name, body: seq<T>, newline: T, stage: Stage)
    requires Settled(d) && StageOk(d, name, body, newline, stage)
    ensures var d' := AfterStage(d, name, body, newline, stage);
      && Settled(d')
      && (!stage.Swap? ==> StageOk(d', name, body, newline, NextStage(stage)) && Committed(d') == Committed(d))
      && (stage.Swap? ==> Committed(d') == Committed(d)[name := body + [newline]])
  {
    var d' := AfterStage(d, name, body, newline, stage);
    if stage.Swap? {
      RenameCommits(d, name);
    } else {
      TempWriteInvisible(d, name, d'[Temp(name)]);
    }
  }

  /** At `d`, a crash leaves the committed files as they were before the store, or after it. */
  ghost predicate AllOrNothing<T(!new)>(before: map<Name, seq<T>>, after: map<Name, seq<T>>, d: Disk<T>) {
    forall d' :: Survives(d, d') ==> Settled(d') && (Committed(d') == before || Committed(d') == after)
  }

  lemma SettledIsAllOrNothing<T(!new)>(before: map<Name, seq<T>>, after: map<Name, seq<T>>, d: Disk<T>)
    requires Settled(d) && (Committed(d) == before || Committed(d) == after)
    ensures AllOrNothing(before, after, d)
  {
    forall d' | Survives(d, d') ensures Settled(d') && (Committed(d') == before || Committed(d') == after) {
      CrashKeepsCommitted(d, d');
    }
  }

  // --- the volume a process works on ----------------------------------------------------------

  class Volume<T(!new)> {
    var disk: Disk<T>
    const newline: T
    /** Every disk state passed through, the last one current: where a crash can strike. */
    ghost var history: seq<Disk<T>>
    /** How many operations have failed. */
    ghost var faults: nat

    constructor (d: Disk<T>, newline: T)
      ensures disk == d && this.newline == newline && history == [d] && faults == 0
    {
      this.disk, this.newline, this.history, this.faults := d, newline, [d], 0;
    }

    method Open(name: Name) returns (ok: bool)
      requires Settled(disk)
      modifies this
      ensures Settled(disk) && Committed(disk) == old(Committed(disk))
      ensures disk == if ok then Created(old(disk), Temp(name)) else old(disk)
      ensures history == old(history) + [disk]
      ensures faults == old(faults) + (if ok then 0 else 1)
    {
      ok := *;
      TempWriteInvisible(disk, name, File([], false));
      if ok { disk := Created(disk, Temp(name)); }
      history := history + [disk];
      if !ok { faults := faults + 1; }
    }

    /** On failure any part of the bytes may have been written. */
    method Write(name: Name, bytes: seq<T>) returns (ok: bool)
      requires Settled(disk) && Temp(name) in disk
      modifies this
      ensures Settled(disk) && Committed(disk) == old(Committed(disk)) && Temp(name) in disk
      ensures ok ==> disk == Appended(old(disk), Temp(name), bytes)
      ensures history == old(history) + [disk]
      ensures faults == old(faults) + (if ok then 0 else 1)
    {
      ok := *;
      var n := |bytes|;
      if !ok { n :| 0 <= n <= |bytes|; }
      var f := File(disk[Temp(name)].data + bytes[..n], false);
      TempWriteInvisible(disk, name, f);
      disk := disk[Temp(name) := f];
      history := history + [disk];
      if !ok { faults := faults + 1; }
      assert bytes[..|bytes|] == bytes;
    }

    method SyncAll(name: Name) returns (ok: bool)
      requires Settled(disk) && Temp(name) in disk
      modifies this
      ensures Settled(disk) && Committed(disk) == old(Committed(disk))
      ensures disk == if ok then Synced(old(disk), Temp(name)) else old(disk)
      ensures history == old(history) + [disk]
      ensures faults == old(faults) + (if ok then 0 else 1)
    {
      ok := *;
      TempWriteInvisible(disk, name, disk[Temp(name)].(synced := true));
      if ok { disk := Synced(disk, Temp(name)); }
      history := history + [disk];
      if !ok { faults := faults + 1; }
    }

    method Rename(name: Name) returns (ok: bool)
      requires Settled(disk) && Temp(name) in disk && disk[Temp(name)].synced
      modifies this
      ensures Settled(disk)
      ensures Committed(disk) ==
        if ok then old(Committed(disk))[name := old(disk)[Temp(name)].data] else old(Committed(disk))
      ensures disk == if ok then Renamed(old(disk), Temp(name), Real(name)) else old(disk)
      ensures history == old(history) + [disk]
      ensures faults == old(faults) + (if ok then 0 else 1)
    {
      ok := *;
      RenameCommits(disk, name);
      if ok { disk := Renamed(disk, Temp(name), Real(name)); }
      history := history + [disk];
      if !ok { faults := faults + 1; }
    }

    /** Removing an absent file is an error of its own kind, reported as `missing`, and no fault. */
    method Remove(name: Name) returns (ok: bool, missing: bool)
      requires Settled(disk)
      modifies this
      ensures missing <==> name !in old(Committed(disk))
      ensures missing ==> !ok
      ensures Settled(disk)
      ensures Committed(disk) == if ok then old(Committed(disk)) - {name} else old(Committed(disk))
      ensures disk == if ok then old(disk) - {Real(name)} else old(disk)
      ensures history == old(history) + [disk]
      ensures faults == old(faults) + (if ok || missing then 0 else 1)
    {
      missing := Real(name) !in disk;
      ok := *;
      ok := ok && !missing;
      RemovalCommits(disk, name);
      if ok { disk := disk - {Real(name)}; }
      history := history + [disk];
      if !ok && !missing { faults := faults + 1; }
    }

    method Read(name: Name) returns (r: Option<seq<T>>)
      ensures r == if name in Committed(disk) then Some(Committed(disk)[name]) else None
    {
      r := if Real(name) in disk then Some(disk[Real(name)].data) else None;
    }

    /** Truncate, write the bytes and a newline, sync. Touches nothing but that file. */
    method WritePrivate(name: Name, bytes: seq<T>) returns (ok: bool)
      requires Settled(disk)
      modifies this
      ensures Settled(disk) && Committed(disk) == old(Committed(disk))
      ensures ok ==> Temp(name) in disk && disk[Temp(name)] == File(bytes + [newline], true)
      ensures old(faults) <= faults && (ok <==> faults == old(faults))
      ensures old(history) < history && history[|history| - 1] == disk
      ensures Only(history, |old(history)|, old(Committed(disk)), old(Committed(disk)))
    {
      ghost var m, n := Committed(disk), |history|;
      ok := Open(name);
      OnlyGrows(old(history), n, m, m, disk);
      if !ok { return; }
      ghost var h := history;
      ok := Write(name, bytes);
      OnlyGrows(h, n, m, m, disk);
      if !ok { return; }
      assert disk[Temp(name)].data == bytes;
      h := history;
      ok := Write(name, [newline]);
      OnlyGrows(h, n, m, m, disk);
      if !ok { return; }
      h := history;
      ok := SyncAll(name);
      OnlyGrows(h, n, m, m, disk);
    }

    /** A store, used for both state files and for blobs: all or nothing at every crash point,
        successful or not, with every other file unchanged. */
    method Store(name: Name, bytes: seq<T>) returns (ok: bool)
      requires Settled(disk)
      modifies this
      ensures Settled(disk)
      ensures Committed(disk) ==
        if ok then old(Committed(disk))[name := bytes + [newline]] else old(Committed(disk))
      ensures old(faults) <= faults && (ok <==> faults == old(faults))
      ensures old(history) < history && history[|history| - 1] == disk
      ensures Only(history, |old(history)|, old(Committed(disk)), old(Committed(disk))[name := bytes + [newline]])
    {
      ok := WritePrivate(name, bytes);
      if !ok { return; }
      ghost var h := history;
      ok := Rename(name);
      OnlyGrows(h, |old(history)|, old(Committed(disk)), old(Committed(disk))[name := bytes + [newline]], disk);
    }
  }

  /** From index `from` on, the recorded disks commit to one of two maps. */
  ghost predicate Only<T>(h: seq<Disk<T>>, from: nat, a: map<Name, seq<T>>, b: map<Name, seq<T>>) {
    forall i :: from <= i < |h| ==> Settled(h[i]) && (Committed(h[i]) == a || Committed(h[i]) == b)
  }

  lemma OnlyGrows<T>(h: seq<Disk<T>>, from: nat, a: map<Name, seq<T>>, b: map<Name, seq<T>>, d: Disk<T>)
    requires Only(h, from, a, b) && Settled(d) && (Committed(d) == a || Committed(d) == b)
    ensures Only(h + [d], from, a, b)
  {
  }
}

/** The key-value store of the fabric records. */
module KvBlobStore {
  import opened Wrappers
  import opened Paths
  import opened Hex
  import opened FileSystem

  const NEWLINE: Byte := 10

  datatype KvError = NoSpace | StdIoError

  type Records = map<Name, seq<Byte>>

  /** What a load returns, as a function of the committed files alone. */
  function Loaded(m: Records, key: Key, room: nat): Result<Option<seq<Byte>>, KvError> {
    if Blob(key) !in m then Ok(None)
    else if |m[Blob(key)]| <= room then Ok(Some(m[Blob(key)]))
    else Err(NoSpace)
  }

  function Put(m: Records, key: Key, data: seq<Byte>): Records {
    m[Blob(key) := data + [NEWLINE]]
  }

  class AtomicKvBlobStore {
    const volume: Volume<Byte>

    constructor (volume: Volume<Byte>)
      requires volume.newline == NEWLINE
      ensures this.volume == volume
    {
      this.volume := volume;
    }

    method Load(key: Key, room: nat) returns (r: Result<Option<seq<Byte>>, KvError>)
      ensures r == Loaded(Committed(volume.disk), key, room)
    {
      var data := volume.Read(Blob(key));
      if data.None? {
        r := Ok(None);
      } else if |data.value| > room {
        r := Err(NoSpace);
      } else {
        r := Ok(Some(data.value));
      }
    }

    method Store(key: Key, data: seq<Byte>) returns (r: Result<(), KvError>)
      requires volume.newline == NEWLINE && Settled(volume.disk)
      modifies volume
      ensures Settled(volume.disk)
      ensures r.Err? ==> r.error == StdIoError && Committed(volume.disk) == old(Committed(volume.disk))
      ensures r.Ok? ==> Committed(volume.disk) == Put(old(Committed(volume.disk)), key, data)
      ensures old(volume.faults) <= volume.faults && (r.Ok? <==> volume.faults == old(volume.faults))
      ensures old(volume.history) <= volume.history
      ensures forall i :: |old(volume.history)| <= i < |volume.history| ==>
        AllOrNothing(old(Committed(volume.disk)), Put(old(Committed(volume.disk)), key, data), volume.history[i])
    {
      var ok := volume.Store(Blob(key), data);
      ghost var before := old(Committed(volume.disk));
      forall i | |old(volume.history)| <= i < |volume.history|
        ensures AllOrNothing(before, Put(before, key, data), volume.history[i])
      {
        SettledIsAllOrNothing(before, Put(before, key, data), volume.history[i]);
      }
      r := if ok then Ok(()) else Err(StdIoError);
    }

    method Remove(key: Key) returns (r: Result<(), KvError>)
      requires Settled(volume.disk)
      modifies volume
      ensures Settled(volume.disk)
      ensures r.Ok? ==> Committed(volume.disk) == old(Committed(volume.disk)) - {Blob(key)}
      ensures r.Err? ==> r.error == StdIoError && Committed(volume.disk) == old(Committed(volume.disk))
      ensures old(volume.faults) <= volume.faults && (r.Ok? <==> volume.faults == old(volume.faults))
    {
      var ok, missing := volume.Remove(Blob(key));
      r := if ok || missing then Ok(()) else Err(StdIoError);
    }
  }

  // --- runs with crashes ----------------------------------------------------------------

  datatype Operation = PutOp(key: Key, data: seq<Byte>) | RemoveOp(key: Key)

  datatype Writer = Idle | Busy(key: Key, data: seq<Byte>, stage: Stage)

  /** The store at a point of a run, with the operations that have taken effect, in order: a store
      with its rename, a removal with the removal of the file. A store that returned success is
      among them; one that failed or was cut off before its rename is not. */
  datatype System = System(disk: Disk<Byte>, writer: Writer, done: seq<Operation>)

  ghost predicate Begins(s: System, s': System, key: Key, data: seq<Byte>) {
    s.writer.Idle? && s' == s.(writer := Busy(key, data, Opening))
  }

  ghost predicate Removes(s: System, s': System, key: Key) {
    s.writer.Idle? && s' == s.(disk := s.disk - {Real(Blob(key))}, done := s.done + [RemoveOp(key)])
  }

  ghost predicate Advances(s: System, s': System) {
    && s.writer.Busy?
    && var name, stage := Blob(s.writer.key), s.writer.stage;
       && (!stage.Opening? ==> Temp(name) in s.disk)
       && s'.disk == AfterStage(s.disk, name, s.writer.data, NEWLINE, stage)
       && s'.writer == (if stage.Swap? then Idle else s.writer.(stage := NextStage(stage)))
       && s'.done == (if stage.Swap? then s.done + [PutOp(s.writer.key, s.writer.data)] else s.done)
  }

  /** A file operation fails: the store gives up, its temporary file holding anything. */
  ghost predicate Fails(s: System, s': System, junk: seq<Byte>) {
    && s.writer.Busy?
    && (s'.disk == s.disk || s'.disk == s.disk[Temp(Blob(s.writer.key)) := File(junk, false)])
    && s'.writer == Idle && s'.done == s.done
  }

  ghost predicate Crashes(s: System, s': System) {
    Survives(s.disk, s'.disk) && s'.writer == Idle && s'.done == s.done
  }

  ghost predicate Next(s: System, s': System) {
    || (exists key, data :: Begins(s, s', key, data))
    || (exists key :: Removes(s, s', key))
    || Advances(s, s')
    || (exists junk :: Fails(s, s', junk))
    || Crashes(s, s')
  }

  function Applied(m: Records, op: Operation): Records {
    match op case PutOp(key, data) => Put(m, key, data) case RemoveOp(key) => m - {Blob(key)}
  }

  /** The atomic map: the operations performed one after the other. */
  function Performed(m: Records, ops: seq<Operation>): Records
    decreases |ops|
  {
    if ops == [] then m else Applied(Performed(m, ops[..|ops| - 1]), ops[|ops| - 1])
  }

  ghost predicate Refines(m: Records, s: System) {
    && Settled(s.disk)
    && Committed(s.disk) == Performed(m, s.done)
    && (s.writer.Busy? ==> StageOk(s.disk, Blob(s.writer.key), s.writer.data, NEWLINE, s.writer.stage))
  }

  lemma {:induction false} PerformedOneMore(m: Records, ops: seq<Operation>, op: Operation)
    ensures Performed(m, ops + [op]) == Applied(Performed(m, ops), op)
  {
    assert (ops + [op])[..|ops|] == ops;
  }

  lemma {:induction false} AdvanceRefines(m: Records, s: System, s': System)
    requires Refines(m, s) && Advances(s, s')
    ensures Refines(m, s')
  {
    var Busy(key, data, stage) := s.writer;
    StageRefines(s.disk, Blob(key), data, NEWLINE, stage);
    PerformedOneMore(m, s.done, PutOp(key, data));
  }

  lemma {:induction false} NextRefines(m: Records, s: System, s': System)
    requires Refines(m, s) && Next(s, s')
    ensures Refines(m, s')
  {
    if key :| Removes(s, s', key) {
      RemovalCommits(s.disk, Blob(key));
      PerformedOneMore(m, s.done, RemoveOp(key));
    } else if Advances(s, s') {
      AdvanceRefines(m, s, s');
    } else if junk :| Fails(s, s', junk) {
      TempWriteInvisible(s.disk, Blob(s.writer.key), File(junk, false));
    } else if Crashes(s, s') {
      CrashKeepsCommitted(s.disk, s'.disk);
    }
  }

  ghost predicate IsRun(run: seq<System>) {
    && run != [] && run[0].writer == Idle && run[0].done == [] && Settled(run[0].disk)
    && forall j :: 0 <= j < |run| - 1 ==> Next(run[j], run[j + 1])
  }

  /** Refinement of an atomic map over whole runs: wherever failures and crashes strike, the
      committed files are exactly what the operations that took effect give, in their order. No
      store that returned success is lost, and none that did not reach its rename shows. */
  lemma {:induction false} RunRefinesMap(run: seq<System>, i: nat)
    requires IsRun(run) && i < |run|
    ensures Refines(Committed(run[0].disk), run[i])
    ensures Committed(run[i].disk) == Performed(Committed(run[0].disk), run[i].done)
  {
    if i > 0 {
      RunRefinesMap(run, i - 1);
      NextRefines(Committed(run[0].disk), run[i - 1], run[i]);
    }
  }

  /** What took effect stays in effect. */
  lemma {:induction false} DoneStaysDone(run: seq<System>, i: nat, j: nat)
    requires IsRun(run) && i <= j < |run|
    ensures run[i].done <= run[j].done
    decreases j - i
  {
    if i < j {
      DoneStaysDone(run, i + 1, j);
    }
  }

  /** What the last operation on a key makes of it; absent if there is none. */
  function LastWrite(ops: seq<Operation>, key: Key): Option<Operation>
    decreases |ops|
  {
    if ops == [] then None
    else if ops[|ops| - 1].key == key then Some(ops[|ops| - 1])
    else LastWrite(ops[..|ops| - 1], key)
  }

  lemma {:induction false} LastWriteDecides(m: Records, ops: seq<Operation>, key: Key, room: nat)
    ensures Loaded(Performed(m, ops), key, room) ==
      match LastWrite(ops, key)
      case None => Loaded(m, key, room)
      case Some(PutOp(_, data)) => if |data| + 1 <= room then Ok(Some(data + [10])) else Err(NoSpace)
      case Some(RemoveOp(_)) => Ok(None)
    decreases |ops|
  {
    if ops != [] {
      LastWriteDecides(m, ops[..|ops| - 1], key, room);
    }
  }

  /** At any point of any run, a load returns the bytes of the last store of that key that took
      effect and one newline, nothing if a removal came after it, and otherwise what was there
      at the start. */
  lemma {:induction false} LoadAfterRun(run: seq<System>, i: nat, key: Key, room: nat)
    requires IsRun(run) && i < |run|
    ensures Loaded(Committed(run[i].disk), key, room) ==
      match LastWrite(run[i].done, key)
      case None => Loaded(Committed(run[0].disk), key, room)
      case Some(PutOp(_, data)) => if |data| + 1 <= room then Ok(Some(data + [10])) else Err(NoSpace)
      case Some(RemoveOp(_)) => Ok(None)
  {
    RunRefinesMap(run, i);
    LastWriteDecides(Committed(run[0].disk), run[i].done, key, room);
  }

  /** A load after a store returns the stored bytes and one newline whenever they fit, and other
      keys read as before. Loads never see a temporary file: they are functions of the
      committed files. */
  lemma LoadAfterStore(m: Records, key: Key, data: seq<Byte>, other: Key, room: nat)
    ensures |data| + 1 <= room ==> Loaded(Put(m, key, data), key, room) == Ok(Some(data + [10]))
    ensures |data| + 1 > room ==> Loaded(Put(m, key, data), key, room) == Err(NoSpace)
    ensures other != key ==> Loaded(Put(m, key, data), other, room) == Loaded(m, other, room)
  {
  }
}
