/** Loading or creating the controller fabric, as the program does it: read, decide, write in
    order, on storage where any operation can fail. */
module FabricBootstrap {
  import opened Wrappers
  import opened Paths
  import opened FileSystem
  import opened Documents
  import opened Storage
  import Protocol

  /** Fresh material for a bootstrap: identifiers and keys, the table slot the stack picks, and
      the label it takes over (setting it may fail silently). A slot that is taken stands for a
      table without a free one. */
  datatype Mint = Mint(core: Core, key: Key, fabricLabel: string)

  datatype EnsureError = Refused(why: Refusal) | TableFull | StorageFailed

  /** The storage after a successful run; `dropped` is the interrupted fabric, if one was. */
  function Ensured(v: View, dropped: set<Key>, mint: Mint): View {
    var fabrics := (v.fabrics - dropped)[mint.key := Fabric(mint.core, mint.fabricLabel)];
    View(Holds(Identity(mint.core, 1)), fabrics, v.registry)
  }

  function Discarded(v: View, key: Key): View {
    v.(fabrics := v.fabrics - {key})
  }

  function Relabelled(v: View, key: Key, fabricLabel: string): View
    requires key in v.fabrics
  {
    v.(fabrics := v.fabrics[key := v.fabrics[key].(fabricLabel := fabricLabel)])
  }

  /** Every disk recorded since `from` is consistent and keeps the identity there was. */
  ghost predicate Safe(h: seq<Disk<Token>>, from: nat, start: View) {
    forall i :: from <= i < |h| ==> Sane(h[i]) && Consistent(Seen(h[i])) && KeepsIdentity(start, Seen(h[i]))
  }

  lemma StepStaysSafe(h: seq<Disk<Token>>, h': seq<Disk<Token>>, from: nat, start: View, a: View, b: View)
    requires from <= |h| && h <= h' && Safe(h, from, start) && Shows(h', |h|, a, b)
    requires Consistent(a) && KeepsIdentity(start, a) && Consistent(b) && KeepsIdentity(start, b)
    ensures Safe(h', from, start)
  {
    forall i | from <= i < |h'| ensures Sane(h'[i]) && Consistent(Seen(h'[i])) && KeepsIdentity(start, Seen(h'[i])) {
      if i < |h| { assert h'[i] == h[i]; }
    }
  }

  /** What the call achieves, success or failure, on any storage whose blobs are fabric records. */
  ghost predicate Achieved(before: View, after: View, mint: Mint, fabricLabel: string,
                           r: Result<(Key, Identity), EnsureError>) {
    match r
    case Err(Refused(why)) => PlanFor(before) == Refuse(why) && after == before
    case Err(TableFull) =>
      PlanFor(before) == DiscardAndBootstrap
      && exists k :: k in before.fabrics && after == Discarded(before, k) && mint.key in after.fabrics
    case Err(StorageFailed) => !PlanFor(before).Refuse?
    case Ok((key, identity)) =>
      match PlanFor(before)
      case Refuse(_) => false
      case Keep =>
        key in before.fabrics && before.identity == Holds(identity) && after == Relabelled(before, key, fabricLabel)
      case BootstrapOnly =>
        key == mint.key && identity == Identity(mint.core, 1) && after == Ensured(before, {}, mint)
      case DiscardAndBootstrap =>
        key == mint.key && identity == Identity(mint.core, 1)
        && exists k ::
             k in before.fabrics && mint.key !in Discarded(before, k).fabrics && after == Ensured(before, {k}, mint)
  }

  class Controller {
    const volume: Volume<Token>
    const fabricLabel: string
    /** The fabrics in memory. */
    var fabrics: map<Key, Fabric>

    constructor (volume: Volume<Token>, fabricLabel: string)
      ensures this.volume == volume && this.fabricLabel == fabricLabel && fabrics == map[]
    {
      this.volume, this.fabricLabel, this.fabrics := volume, fabricLabel, map[];
    }

    ghost predicate Loaded()
      reads this, volume
    {
      volume.newline == EndOfLine && Sane(volume.disk) && fabrics == Seen(volume.disk).fabrics
    }

    method LoadPersist()
      requires volume.newline == EndOfLine && Sane(volume.disk)
      modifies this
      ensures Loaded()
    {
      fabrics := FabricsOf(Committed(volume.disk));
    }

    method PersistFabric(key: Key) returns (ok: bool)
      requires volume.newline == EndOfLine && Sane(volume.disk) && key in fabrics
      modifies volume
      ensures Sane(volume.disk)
      ensures old(volume.faults) <= volume.faults && (ok <==> volume.faults == old(volume.faults))
      ensures var before := old(Seen(volume.disk));
        var after := before.(fabrics := before.fabrics[key := fabrics[key]]);
        && Seen(volume.disk) == (if ok then after else before)
        && Shows(volume.history, |old(volume.history)|, before, after)
      ensures old(volume.history) < volume.history
    {
      hide Sane, Seen, Shows;
      ok := StoreDoc(volume, Blob(key), FabricDoc(fabrics[key]));
    }

    method ReconcileLabel(key: Key) returns (ok: bool)
      requires Loaded() && key in fabrics
      modifies this`fabrics, volume
      ensures Sane(volume.disk)
      ensures old(volume.faults) <= volume.faults && (ok <==> volume.faults == old(volume.faults))
      ensures var before := old(Seen(volume.disk));
        && Seen(volume.disk) == (if ok then Relabelled(before, key, fabricLabel) else before)
        && Shows(volume.history, |old(volume.history)|, before, Relabelled(before, key, fabricLabel))
      ensures old(fabrics)[key].fabricLabel == fabricLabel ==> ok && unchanged(volume)
      ensures ok ==> Loaded()
      ensures old(volume.history) <= volume.history
    {
      hide Sane, Seen, Shows;
      if fabrics[key].fabricLabel == fabricLabel {
        assert Relabelled(Seen(volume.disk), key, fabricLabel) == Seen(volume.disk);
        NothingNew(volume.history, Seen(volume.disk));
        return true;
      }
      fabrics := fabrics[key := fabrics[key].(fabricLabel := fabricLabel)];
      ok := PersistFabric(key);
    }

    /** The fabric first, the identity after it. */
    method Bootstrap(mint: Mint) returns (r: Result<(Key, Identity), EnsureError>)
      requires Loaded()
      modifies this`fabrics, volume
      ensures Sane(volume.disk)
      ensures old(volume.faults) <= volume.faults && (r != Err(StorageFailed) <==> volume.faults == old(volume.faults))
      ensures r.Ok? ==> Loaded() && r == Ok((mint.key, Identity(mint.core, 1)))
      ensures r.Ok? ==> Seen(volume.disk) == Ensured(old(Seen(volume.disk)), {}, mint)
      ensures r.Err? ==> r.error == StorageFailed || r.error == TableFull
      ensures r == Err(TableFull) <==> mint.key in old(fabrics)
      ensures r == Err(TableFull) ==> volume.disk == old(volume.disk)
      ensures old(volume.history) <= volume.history
      ensures Consistent(old(Seen(volume.disk))) && old(Seen(volume.disk)).fabrics == map[] ==>
        Safe(volume.history, |old(volume.history)|, old(Seen(volume.disk)))
    {
      hide Sane, Seen, Shows, Safe, Consistent, KeepsIdentity, PlanFor;
      ghost var v, h := Seen(volume.disk), volume.history;
      ghost var n := |h|;
      if Consistent(v) && v.fabrics == map[] { BootstrapViews(v, mint); NothingYet(h, v); }
      if mint.key in fabrics { return Err(TableFull); }
      var identity := Identity(mint.core, 1);
      fabrics := fabrics[mint.key := Fabric(mint.core, mint.fabricLabel)];
      ghost var v1 := v.(fabrics := v.fabrics[mint.key := fabrics[mint.key]]);
      ghost var fresh' := Consistent(v) && v.fabrics == map[];
      var ok := PersistFabric(mint.key);
      if fresh' { StepStaysSafe(h, volume.history, n, v, v, v1); }
      if !ok { return Err(StorageFailed); }
      h := volume.history;
      ok := StoreDoc(volume, IdentityJson, IdentityDoc(identity));
      if fresh' { StepStaysSafe(h, volume.history, n, v, v1, v1.(identity := Holds(identity))); }
      if !ok { return Err(StorageFailed); }
      assert v.fabrics - {} == v.fabrics;
      return Ok((mint.key, identity));
    }

    /** On every disk state, the outcome is the planned one: a refusal changes nothing, an existing
        identity is returned as it is, a bootstrap installs exactly the minted fabric and identity.
        On consistent storage every disk state passed through, whether or not an operation fails,
        is consistent and keeps the identity, so a crash at any point does too. */
    method EnsureFabric(mint: Mint) returns (r: Result<(Key, Identity), EnsureError>)
      requires Loaded()
      modifies this`fabrics, volume
      ensures Sane(volume.disk)
      ensures old(volume.faults) <= volume.faults && (r != Err(StorageFailed) <==> volume.faults == old(volume.faults))
      ensures Achieved(old(Seen(volume.disk)), Seen(volume.disk), mint, fabricLabel, r)
      ensures volume.faults == old(volume.faults) && Consistent(old(Seen(volume.disk))) ==> r.Ok?
      ensures volume.faults == old(volume.faults) && !PlanFor(old(Seen(volume.disk))).Refuse? ==>
        r.Ok? || {mint.key} < old(Seen(volume.disk)).fabrics.Keys
      ensures old(Seen(volume.disk)).identity.Holds? && old(fabrics) != map[] ==>
        (forall k :: k in old(fabrics) ==> old(fabrics)[k].fabricLabel == fabricLabel) ==> r.Ok? && unchanged(volume)
      ensures r.Ok? ==> Loaded()
      ensures old(volume.history) <= volume.history
      ensures Consistent(old(Seen(volume.disk))) ==>
        Safe(volume.history, |old(volume.history)|, old(Seen(volume.disk)))
    {
      hide Sane, Seen, Shows, Safe, Consistent, KeepsIdentity;
      ghost var v := Seen(volume.disk);
      NothingYet(volume.history, v);
      var registry := LoadRegistry(volume);
      if fabrics != map[] {
        var key :| key in fabrics;
        r := WithExisting(key, registry, mint);
      } else {
        var found := IdentityExists();
        if found {
          r := Err(Refused(IdentityWithoutFabric));
        } else if registry != map[] {
          r := Err(Refused(RegistryWithoutFabric));
        } else {
          r := Bootstrap(mint);
        }
      }
      if r != Err(StorageFailed) { WhatCanFail(v, Seen(volume.disk), mint, fabricLabel, r); }
    }

    method IdentityExists() returns (found: bool)
      ensures found == !Seen(volume.disk).identity.Absent?
    {
      var raw := volume.Read(IdentityJson);
      found := raw.Some?;
    }

    method ReadIdentity() returns (file: IdentityFile)
      ensures file == Seen(volume.disk).identity
    {
      var raw := volume.Read(IdentityJson);
      if raw.None? { return Absent; }
      var t := Parsed(raw.value);
      file := if t.Some? && t.value.IdentityDoc? then Holds(t.value.identity) else Unparsable;
    }

    /** A fabric was loaded: go by its identity file. */
    method WithExisting(key: Key, registry: Registry, mint: Mint) returns (r: Result<(Key, Identity), EnsureError>)
      requires Loaded() && key in fabrics && registry == Seen(volume.disk).registry
      modifies this`fabrics, volume
      ensures Sane(volume.disk)
      ensures old(volume.faults) <= volume.faults && (r != Err(StorageFailed) <==> volume.faults == old(volume.faults))
      ensures Achieved(old(Seen(volume.disk)), Seen(volume.disk), mint, fabricLabel, r)
      ensures old(Seen(volume.disk)).identity.Holds? && old(fabrics) != map[] ==>
        (forall k :: k in old(fabrics) ==> old(fabrics)[k].fabricLabel == fabricLabel) ==> r.Ok? && unchanged(volume)
      ensures r.Ok? ==> Loaded()
      ensures old(volume.history) <= volume.history
      ensures Consistent(old(Seen(volume.disk))) ==>
        Safe(volume.history, |old(volume.history)|, old(Seen(volume.disk)))
    {
      hide Sane, Seen, Shows, Safe, Consistent, KeepsIdentity;
      ghost var v, h := Seen(volume.disk), volume.history;
      NothingYet(h, v);
      var file := ReadIdentity();
      match file
      case Holds(identity) =>
        var ok := ReconcileLabel(key);
        if Consistent(v) {
          RelabelConsistent(v, key, fabricLabel);
          StepStaysSafe(h, volume.history, |h|, v, v, Relabelled(v, key, fabricLabel));
        }
        r := if ok then Ok((key, identity)) else Err(StorageFailed);
      case Unparsable =>
        r := Err(Refused(IdentityUnparsable));
      case Absent =>
        if registry != map[] {
          return Err(Refused(RegistryWithoutIdentity));
        }
        fabrics := fabrics - {key};
        r := DiscardThenBootstrap(key, mint);
    }

    /** The in-memory fabric is already gone; remove its blob, then start afresh. */
    method DiscardThenBootstrap(key: Key, mint: Mint) returns (r: Result<(Key, Identity), EnsureError>)
      requires volume.newline == EndOfLine && Sane(volume.disk)
      requires key in Seen(volume.disk).fabrics && fabrics == Seen(volume.disk).fabrics - {key}
      requires PlanFor(Seen(volume.disk)) == DiscardAndBootstrap
      modifies this`fabrics, volume
      ensures Sane(volume.disk)
      ensures old(volume.faults) <= volume.faults && (r != Err(StorageFailed) <==> volume.faults == old(volume.faults))
      ensures Achieved(old(Seen(volume.disk)), Seen(volume.disk), mint, fabricLabel, r)
      ensures r.Ok? ==> Loaded()
      ensures old(volume.history) <= volume.history
      ensures Consistent(old(Seen(volume.disk))) ==>
        Safe(volume.history, |old(volume.history)|, old(Seen(volume.disk)))
    {
      hide Sane, Shows, Safe, Consistent, KeepsIdentity, Seen;
      ghost var v, h := Seen(volume.disk), volume.history;
      ghost var n := |h|;
      ghost var v1 := Discarded(v, key);
      NothingYet(h, v);
      var ok := RemoveBlob(volume, key);
      if Consistent(v) {
        DiscardConsistent(v, key);
        StepStaysSafe(h, volume.history, n, v, v, v1);
      }
      if !ok { return Err(StorageFailed); }
      h := volume.history;
      r := Bootstrap(mint);
      if Consistent(v) {
        SafeFrom(h, volume.history, n, v, v1);
      }
      if r.Ok? { EnsuredTwice(v, key, mint); }
    }
  }

  // --- lemmas behind the methods ------------------------------------------------------------

  lemma NothingNew(h: seq<Disk<Token>>, v: View)
    ensures Shows(h, |h|, v, v)
  {
  }

  lemma NothingYet(h: seq<Disk<Token>>, v: View)
    ensures Safe(h, |h|, v)
  {
  }

  lemma RelabelConsistent(v: View, key: Key, fabricLabel: string)
    requires Consistent(v) && key in v.fabrics
    ensures Consistent(Relabelled(v, key, fabricLabel)) && KeepsIdentity(v, Relabelled(v, key, fabricLabel))
    ensures KeepsIdentity(v, v)
  {
    if v.identity.Holds? {
      assert Relabelled(v, key, fabricLabel).fabrics[key].core == v.identity.identity.core;
    }
  }

  lemma DiscardConsistent(v: View, key: Key)
    requires Consistent(v) && v.identity.Absent? && key in v.fabrics
    ensures var v1 := v.(fabrics := v.fabrics - {key});
      Consistent(v1) && v1.fabrics == map[] && KeepsIdentity(v, v1) && KeepsIdentity(v, v)
  {
    forall k | k in v.fabrics ensures k == key {}
  }

  lemma BootstrapViews(v: View, mint: Mint)
    requires Consistent(v) && v.fabrics == map[]
    ensures var v1 := v.(fabrics := v.fabrics[mint.key := Fabric(mint.core, mint.fabricLabel)]);
      var v2 := v1.(identity := Holds(Identity(mint.core, 1)));
      && KeepsIdentity(v, v) && Consistent(v1) && KeepsIdentity(v, v1) && Consistent(v2) && KeepsIdentity(v, v2)
  {
    var v1 := v.(fabrics := v.fabrics[mint.key := Fabric(mint.core, mint.fabricLabel)]);
    assert v1.fabrics.Keys == {mint.key} && v1.fabrics[mint.key].core == mint.core;
  }

  lemma SafeFrom(h: seq<Disk<Token>>, h': seq<Disk<Token>>, from: nat, v: View, v1: View)
    requires from <= |h| && h <= h' && Safe(h, from, v) && Safe(h', |h|, v1)
    requires v.identity.Absent?
    ensures Safe(h', from, v)
  {
    forall i | from <= i < |h'| ensures Sane(h'[i]) && Consistent(Seen(h'[i])) && KeepsIdentity(v, Seen(h'[i])) {
      if i < |h| { assert h'[i] == h[i]; }
    }
  }

  lemma EnsuredTwice(v: View, key: Key, mint: Mint)
    ensures Ensured(v.(fabrics := v.fabrics - {key}), {}, mint) == Ensured(v, {key}, mint)
  {
    assert (v.fabrics - {key}) - {} == v.fabrics - {key};
  }

  // --- main results ----------------------------------------------------------------------------

  /** A crash during the call: whatever the disk then holds is consistent with the identity kept. */
  lemma CrashStaysSafe(h: seq<Disk<Token>>, from: nat, start: View, i: nat, left: Disk<Token>)
    requires Safe(h, from, start) && from <= i < |h| && Survives(h[i], left)
    ensures Sane(left) && Consistent(Seen(left)) && KeepsIdentity(start, Seen(left))
  {
    CrashKeepsCommitted(h[i], left);
  }

  /** With healthy storage, only a refusal and a full table make a call fail. */
  lemma WhatCanFail(before: View, after: View, mint: Mint, fabricLabel: string,
                    r: Result<(Key, Identity), EnsureError>)
    requires Achieved(before, after, mint, fabricLabel, r) && r != Err(StorageFailed)
    ensures Consistent(before) ==> r.Ok?
    ensures !PlanFor(before).Refuse? ==> r.Ok? || {mint.key} < before.fabrics.Keys
  {
    hide PlanFor, Consistent;
    if Consistent(before) && r.Err? {
      OnlyStorageFails(before, after, mint, fabricLabel, r.error);
    }
    if r == Err(TableFull) {
      var k :| k in before.fabrics && mint.key in Discarded(before, k).fabrics;
      assert k in before.fabrics.Keys && mint.key in before.fabrics.Keys && mint.key != k;
    }
  }

  /** On consistent storage nothing but a failing file operation makes a call fail. */
  lemma OnlyStorageFails(before: View, after: View, mint: Mint, fabricLabel: string, error: EnsureError)
    requires Consistent(before) && Achieved(before, after, mint, fabricLabel, Err(error))
    ensures error == StorageFailed
  {
    ConsistentIsNeverRefused(before);
  }

  /** On consistent storage a successful call ends with exactly one fabric, and the identity it
      returns is the one on disk and belongs to that fabric. */
  lemma SuccessMeansOneFabric(before: View, after: View, mint: Mint, fabricLabel: string, key: Key, identity: Identity)
    requires Consistent(before) && Achieved(before, after, mint, fabricLabel, Ok((key, identity)))
    ensures Consistent(after) && KeepsIdentity(before, after)
    ensures after.fabrics.Keys == {key} && after.identity == Holds(identity) && after.fabrics[key].core == identity.core
  {
    match PlanFor(before)
    case Keep =>
      RelabelConsistent(before, key, fabricLabel);
      assert after.fabrics.Keys == {key} by {
        forall k | k in after.fabrics ensures k == key {}
      }
    case BootstrapOnly => assert after.fabrics.Keys == {key};
    case DiscardAndBootstrap =>
      var k :| k in before.fabrics && after == Ensured(before, {k}, mint);
      DiscardConsistent(before, k);
      assert after.fabrics.Keys == {key};
  }

  /** The step system takes its decisions by the same plan. */
  lemma {:induction false} ProtocolFollowsPlan(job: Protocol.Job, v: View, c: Protocol.Choice)
    requires v.fabrics == map[] || c.key in v.fabrics
    ensures var pc := Protocol.NextPc(Protocol.Reading(job, v.fabrics, v.registry), v, c);
      match PlanFor(v)
      case Keep =>
        var ready := Protocol.Ready(job, c.key, v.identity.identity);
        if v.fabrics[c.key].fabricLabel == job.fabricLabel then pc == ready
        else pc.Writing? && pc.next == ready && Committing(v, pc.name, pc.doc) == Relabelled(v, c.key, job.fabricLabel)
      case DiscardAndBootstrap => pc.Discarding? && pc.key == c.key && pc.fabrics == v.fabrics - {c.key}
      case BootstrapOnly =>
        pc.Guarding? && Protocol.NextPc(pc, v, c) == Protocol.Bootstrap(job, c.key, c.core, c.fabricLabel)
      case Refuse(why) =>
        pc == Protocol.Refused(why) || (pc.Guarding? && Protocol.NextPc(pc, v, c) == Protocol.Refused(why))
  {
  }
}
