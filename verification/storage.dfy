/** The state files on a volume: lenient reads, atomic writes, per-device merges. */
module Storage {
  import opened Wrappers
  import opened Paths
  import opened FileSystem
  import opened Documents

  /** What a disk holds, as far as the protocol is concerned. */
  function Seen(d: Disk<Token>): View {
    ViewOf(Committed(d))
  }

  /** Everything committed is durable, and every blob is a fabric record. */
  ghost predicate Sane(d: Disk<Token>) {
    Settled(d) && OnlyFabrics(Committed(d))
  }

  /** From index `from` on, every recorded disk shows one of two views. */
  ghost predicate Shows(h: seq<Disk<Token>>, from: nat, a: View, b: View) {
    forall i :: from <= i < |h| ==> Sane(h[i]) && (Seen(h[i]) == a || Seen(h[i]) == b)
  }

  lemma {:induction false} OnlyShows(h: seq<Disk<Token>>, from: nat, m: Files, name: Name, doc: Token)
    requires WellTyped(name, doc) && OnlyFabrics(m)
    requires Only(h, from, m, m[name := [doc] + [EndOfLine]])
    ensures Shows(h, from, ViewOf(m), Committing(ViewOf(m), name, doc))
  {
    hide ViewOf, Committing, Settled, Committed;
    assert [doc] + [EndOfLine] == [doc, EndOfLine];
    CommitView(m, name, doc);
  }

  /** Serialize a document into its file: before or after at every crash point, the rest of the
      storage unchanged. */
  method StoreDoc(volume: Volume<Token>, name: Name, doc: Token) returns (ok: bool)
    requires volume.newline == EndOfLine && Sane(volume.disk) && WellTyped(name, doc)
    modifies volume
    ensures Sane(volume.disk)
    ensures old(volume.faults) <= volume.faults && (ok <==> volume.faults == old(volume.faults))
    ensures Seen(volume.disk) == if ok then Committing(old(Seen(volume.disk)), name, doc) else old(Seen(volume.disk))
    ensures old(volume.history) < volume.history && volume.history[|volume.history| - 1] == volume.disk
    ensures var before := old(Seen(volume.disk));
      Shows(volume.history, |old(volume.history)|, before, Committing(before, name, doc))
  {
    hide ViewOf, Committing, Settled, OnlyFabrics, Only, Shows;
    ghost var m := Committed(volume.disk);
    ok := volume.Store(name, [doc]);
    OnlyShows(volume.history, |old(volume.history)|, m, name, doc);
    assert [doc] + [EndOfLine] == [doc, EndOfLine];
    CommitView(m, name, doc);
  }

  lemma ShowsOne(h: seq<Disk<Token>>, d: Disk<Token>, a: View, b: View)
    requires Sane(d) && (Seen(d) == a || Seen(d) == b)
    ensures Shows(h + [d], |h|, a, b)
  {
  }

  lemma RemoveSeen(d: Disk<Token>, key: Key)
    requires Sane(d)
    ensures var d' := d - {Real(Blob(key))};
      Sane(d') && Seen(d') == Seen(d).(fabrics := Seen(d).fabrics - {key})
    ensures Real(Blob(key)) !in d ==> key !in Seen(d).fabrics
  {
    RemovalCommits(d, Blob(key));
    RemoveView(Committed(d), key);
  }

  /** Remove a fabric record; an absent file is as good as a removed one. */
  method RemoveBlob(volume: Volume<Token>, key: Key) returns (ok: bool)
    requires Sane(volume.disk)
    modifies volume
    ensures Sane(volume.disk)
    ensures old(volume.faults) <= volume.faults && (ok <==> volume.faults == old(volume.faults))
    ensures var before := old(Seen(volume.disk));
      var after := before.(fabrics := before.fabrics - {key});
      && Seen(volume.disk) == (if ok then after else before)
      && Shows(volume.history, |old(volume.history)|, before, after)
    ensures old(volume.history) <= volume.history
  {
    hide Seen, OnlyFabrics, Committed, Shows;
    ghost var before := volume.disk;
    RemoveSeen(before, key);
    var removed, missing := volume.Remove(Blob(key));
    ok := removed || missing;
    ShowsOne(old(volume.history), volume.disk, Seen(before), Seen(before).(fabrics := Seen(before).fabrics - {key}));
    if missing {
      assert Seen(before).fabrics - {key} == Seen(before).fabrics;
    }
  }

  method LoadRegistry(volume: Volume<Token>) returns (registry: Registry)
    ensures registry == Seen(volume.disk).registry
  {
    var raw := volume.Read(DevicesJson);
    registry := map[];
    if raw.Some? {
      var t := Parsed(raw.value);
      if t.Some? && t.value.RegistryDoc? { registry := t.value.registry; }
    }
  }

  type Patch = DeviceRecord -> DeviceRecord

  function RecordOf(registry: Registry, node: nat): DeviceRecord {
    if node in registry then registry[node] else BLANK_RECORD
  }

  /** A patch merges into one record, creating it if need be. */
  function Merged(registry: Registry, node: nat, patch: Patch): Registry {
    registry[node := patch(RecordOf(registry, node))]
  }

  method UpdateDevice(volume: Volume<Token>, node: nat, patch: Patch) returns (ok: bool)
    requires volume.newline == EndOfLine && Sane(volume.disk)
    modifies volume
    ensures Sane(volume.disk)
    ensures old(volume.faults) <= volume.faults && (ok <==> volume.faults == old(volume.faults))
    ensures var before := old(Seen(volume.disk));
      var after := before.(registry := Merged(before.registry, node, patch));
      && Seen(volume.disk) == (if ok then after else before)
      && Shows(volume.history, |old(volume.history)|, before, after)
    ensures ok ==>
      var was, now := old(Seen(volume.disk)).registry, Seen(volume.disk).registry;
      && now.Keys == was.Keys + {node} && (forall n :: n in was && n != node ==> now[n] == was[n])
      && now[node] == patch(if node in was then was[node] else DeviceRecord(None, None, None, None, None, None))
    ensures old(volume.history) < volume.history && volume.history[|volume.history| - 1] == volume.disk
  {
    hide Sane, Shows, Seen;
    var registry := LoadRegistry(volume);
    ok := StoreDoc(volume, DevicesJson, RegistryDoc(Merged(registry, node, patch)));
  }

  method RemoveDevice(volume: Volume<Token>, node: nat) returns (ok: bool)
    requires volume.newline == EndOfLine && Sane(volume.disk)
    modifies volume
    ensures Sane(volume.disk)
    ensures old(volume.faults) <= volume.faults && (ok <==> volume.faults == old(volume.faults))
    ensures var before := old(Seen(volume.disk));
      var after := before.(registry := before.registry - {node});
      && Seen(volume.disk) == (if ok then after else before)
      && Shows(volume.history, |old(volume.history)|, before, after)
    ensures old(volume.history) < volume.history && volume.history[|volume.history| - 1] == volume.disk
  {
    hide Sane, Shows, Seen, Merged;
    var registry := LoadRegistry(volume);
    ok := StoreDoc(volume, DevicesJson, RegistryDoc(registry - {node}));
  }
}
