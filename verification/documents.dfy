/** What the storage directory holds, and the consistency that makes one fabric last. */
module Documents {
  import opened Wrappers
  import opened Paths
  import opened MatterTime

  /** What must never change once a device may depend on it: the key is an opaque identifier. */
  datatype Core = Core(fabricId: nat, controllerNodeId: nat, rootKey: nat)

  datatype Identity = Identity(core: Core, nextDeviceNodeId: nat)

  /** A persisted fabric record; its certificates are those of the core. */
  datatype Fabric = Fabric(core: Core, fabricLabel: string)

  datatype DeviceRecord = DeviceRecord(
    vendorName: Option<string>, productName: Option<string>, lastSuccessfulConnection: Option<Timestamp>,
    lastSuccessfulSync: Option<Timestamp>, lastAttemptedSync: Option<Timestamp>, lastError: Option<string>)

  const BLANK_RECORD := DeviceRecord(None, None, None, None, None, None)

  type Registry = map<nat, DeviceRecord>

  /** File contents: a serialized document is one token, which serialization and parsing
      carry across unchanged; anything else does not parse. */
  datatype Token =
    | IdentityDoc(identity: Identity)
    | RegistryDoc(registry: Registry)
    | FabricDoc(fabric: Fabric)
    | EndOfLine
    | Junk(n: nat)

  type Files = map<Name, seq<Token>>

  /** The document a file parses to; a final newline is white space. */
  function Parsed(data: seq<Token>): Option<Token> {
    if |data| == 1 || (|data| == 2 && data[1] == EndOfLine) then Some(data[0]) else None
  }

  lemma FinalNewlineIsOptional(doc: Token, t: Token)
    ensures Parsed([doc]) == Some(doc) == Parsed([doc, EndOfLine])
    ensures t != EndOfLine ==> Parsed([doc, t]) == None
  {
  }

  datatype IdentityFile = Absent | Unparsable | Holds(identity: Identity)

  function IdentityOf(m: Files): IdentityFile {
    if IdentityJson !in m then Absent
    else
      var t := Parsed(m[IdentityJson]);
      if t.Some? && t.value.IdentityDoc? then Holds(t.value.identity) else Unparsable
  }

  /** Lenient: a missing or corrupt registry reads as empty. */
  function RegistryOf(m: Files): Registry {
    if DevicesJson !in m then map[]
    else
      var t := Parsed(m[DevicesJson]);
      if t.Some? && t.value.RegistryDoc? then t.value.registry else map[]
  }

  predicate IsFabric(data: seq<Token>) {
    Parsed(data).Some? && Parsed(data).value.FabricDoc?
  }

  function BlobKeys(m: Files): (keys: set<Key>)
    ensures forall k :: k in keys <==> Blob(k) in m
  {
    var blobs := set n | n in m && n.Blob?;
    var keys := set n | n in blobs :: n.key;
    assert forall k :: Blob(k) in m ==> Blob(k) in blobs && Blob(k).key in keys;
    keys
  }

  /** Every blob is a fabric record. */
  ghost predicate OnlyFabrics(m: Files) {
    forall k :: Blob(k) in m ==> IsFabric(m[Blob(k)])
  }

  /** The fabrics the stack loads. */
  function FabricsOf(m: Files): (f: map<Key, Fabric>)
    ensures forall k :: k in f <==> Blob(k) in m && IsFabric(m[Blob(k)])
    ensures forall k :: k in f ==> Parsed(m[Blob(k)]) == Some(FabricDoc(f[k]))
  {
    map k | k in BlobKeys(m) && IsFabric(m[Blob(k)]) :: Parsed(m[Blob(k)]).value.fabric
  }

  /** All that the protocol depends on. */
  datatype View = View(identity: IdentityFile, fabrics: map<Key, Fabric>, registry: Registry)

  function ViewOf(m: Files): View {
    View(IdentityOf(m), FabricsOf(m), RegistryOf(m))
  }

  predicate WellTyped(name: Name, doc: Token) {
    match name case IdentityJson => doc.IdentityDoc? case DevicesJson => doc.RegistryDoc? case Blob(_) => doc.FabricDoc?
  }

  function Committing(v: View, name: Name, doc: Token): View
    requires WellTyped(name, doc)
  {
    match name
    case IdentityJson => v.(identity := Holds(doc.identity))
    case DevicesJson => v.(registry := doc.registry)
    case Blob(k) => v.(fabrics := v.fabrics[k := doc.fabric])
  }

  /** The three artifacts fit together: at most one fabric; an identity always has its fabric;
      recorded devices always have an identity. */
  ghost predicate Consistent(v: View) {
    && !v.identity.Unparsable?
    && (forall a, b :: a in v.fabrics && b in v.fabrics ==> a == b)
    && (v.identity.Holds? ==> exists k :: k in v.fabrics && v.fabrics[k].core == v.identity.identity.core)
    && (v.registry != map[] ==> v.identity.Holds?)
  }

  /** From `v` on, the identity is the same one and its next node ID never goes back. */
  ghost predicate KeepsIdentity(v: View, v': View) {
    v.identity.Holds? ==>
      && v'.identity.Holds?
      && v'.identity.identity.core == v.identity.identity.core
      && v'.identity.identity.nextDeviceNodeId >= v.identity.identity.nextDeviceNodeId
  }

  lemma CommitView(m: Files, name: Name, doc: Token)
    requires WellTyped(name, doc)
    ensures ViewOf(m[name := [doc, EndOfLine]]) == Committing(ViewOf(m), name, doc)
    ensures OnlyFabrics(m) ==> OnlyFabrics(m[name := [doc, EndOfLine]])
  {
    var data := [doc, EndOfLine];
    assert Parsed(data) == Some(doc);
    if name.Blob? {
      BlobCommit(m, name.key, data, doc.fabric);
    } else {
      OtherCommit(m, name, data);
    }
  }

  /** The fabrics are determined key by key. */
  lemma FabricsAre(m: Files, f: map<Key, Fabric>)
    requires forall k :: k in f <==> Blob(k) in m && IsFabric(m[Blob(k)])
    requires forall k :: k in f ==> Parsed(m[Blob(k)]) == Some(FabricDoc(f[k]))
    ensures FabricsOf(m) == f
  {
    var g := FabricsOf(m);
    assert g.Keys == f.Keys;
    forall k | k in f ensures f[k] == g[k] {
      assert Some(FabricDoc(f[k])) == Some(FabricDoc(g[k]));
    }
  }

  lemma BlobCommit(m: Files, k: Key, data: seq<Token>, f: Fabric)
    requires Parsed(data) == Some(FabricDoc(f))
    ensures FabricsOf(m[Blob(k) := data]) == FabricsOf(m)[k := f]
  {
    FabricsAre(m[Blob(k) := data], FabricsOf(m)[k := f]);
  }

  lemma OtherCommit(m: Files, name: Name, data: seq<Token>)
    requires !name.Blob?
    ensures FabricsOf(m[name := data]) == FabricsOf(m) == FabricsOf(m - {name})
  {
    FabricsAre(m[name := data], FabricsOf(m));
    FabricsAre(m - {name}, FabricsOf(m));
  }

  lemma BlobRemoval(m: Files, k: Key)
    ensures FabricsOf(m - {Blob(k)}) == FabricsOf(m) - {k}
  {
    FabricsAre(m - {Blob(k)}, FabricsOf(m) - {k});
  }

  lemma RemoveView(m: Files, k: Key)
    ensures ViewOf(m - {Blob(k)}) == ViewOf(m).(fabrics := FabricsOf(m) - {k})
    ensures OnlyFabrics(m) ==> OnlyFabrics(m - {Blob(k)})
  {
    BlobRemoval(m, k);
  }

  // --- what to do with what is found ------------------------------------------------------

  datatype Refusal =
    | IdentityUnparsable
    | RegistryWithoutIdentity
    | IdentityWithoutFabric
    | RegistryWithoutFabric

  datatype Plan = Keep | DiscardAndBootstrap | BootstrapOnly | Refuse(why: Refusal)

  /** What a run must do, from what is on disk: never overwrite what a device may depend on. */
  function PlanFor(v: View): Plan {
    if v.fabrics != map[] then
      match v.identity
      case Holds(_) => Keep
      case Unparsable => Refuse(IdentityUnparsable)
      case Absent => if v.registry == map[] then DiscardAndBootstrap else Refuse(RegistryWithoutIdentity)
    else if !v.identity.Absent? then Refuse(IdentityWithoutFabric)
    else if v.registry != map[] then Refuse(RegistryWithoutFabric)
    else BootstrapOnly
  }

  /** On storage this tool left consistent, no run is refused. */
  lemma ConsistentIsNeverRefused(v: View)
    requires Consistent(v)
    ensures !PlanFor(v).Refuse?
  {
  }

  // --- the status command ----------------------------------------------------------------

  datatype Inconsistency = FabricMissing | IdentityMissing

  datatype IdentityStatus =
    | NotCreated
    | Created(fabricId: nat, controllerNodeId: nat)
    | Unreadable
    | Inconsistent(what: Inconsistency)

  /** Identity file present? Any committed blob present? Only then is the identity parsed. */
  function StatusOf(m: Files): IdentityStatus {
    var identityExists := IdentityJson in m;
    var fabricExists := BlobKeys(m) != {};
    if !identityExists && !fabricExists then NotCreated
    else if identityExists && !fabricExists then Inconsistent(FabricMissing)
    else if !identityExists then Inconsistent(IdentityMissing)
    else
      match IdentityOf(m)
      case Holds(i) => Created(i.core.fabricId, i.core.controllerNodeId)
      case Absent => Unreadable
      case Unparsable => Unreadable
  }

  /** The status report foretells the next run: on every disk state whose blobs are all fabric
      records, a reported identity will be kept, a missing fabric refused, a missing identity
      discarded and replaced exactly when no device is recorded, and fresh storage set up exactly
      when no device is recorded; an unreadable identity is refused. */
  lemma StatusForetellsRun(m: Files)
    requires OnlyFabrics(m)
    ensures var plan, noDevices := PlanFor(ViewOf(m)), RegistryOf(m) == map[];
      match StatusOf(m)
      case Created(fabricId, controllerNodeId) =>
        plan == Keep && IdentityOf(m).Holds?
        && IdentityOf(m).identity.core.fabricId == fabricId
        && IdentityOf(m).identity.core.controllerNodeId == controllerNodeId
      case Unreadable => plan == Refuse(IdentityUnparsable)
      case Inconsistent(FabricMissing) => plan == Refuse(IdentityWithoutFabric)
      case Inconsistent(IdentityMissing) =>
        plan == if noDevices then DiscardAndBootstrap else Refuse(RegistryWithoutIdentity)
      case NotCreated => plan == if noDevices then BootstrapOnly else Refuse(RegistryWithoutFabric)
  {
    assert FabricsOf(m).Keys == BlobKeys(m);
  }
}
