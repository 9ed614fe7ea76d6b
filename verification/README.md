# A verified model of mattertimectl

mattertimectl is a one-shot Matter controller: each invocation loads a persistent fabric identity,
does one operation on the devices of that fabric, and exits. This project models its parts in Dafny
and proves what they promise.

| file | what it models |
|---|---|
| `paths.dfy` | the files under the storage directory, and that their names keep them apart |
| `filesystem.dfy` | a file system with failing operations and crashes; the temp-file, write, sync, rename store; the key-value store of fabric records, refined to an atomic map |
| `documents.dfy`, `storage.dfy` | identity, registry and fabric records as file contents; lenient reads and atomic writes; the status report |
| `fabric.dfy` | `ensure_fabric` and `bootstrap_fabric` as methods on fallible storage |
| `protocol.dfy`, `protocolproofs.dfy`, `protocolprogress.dfy`, `protocolregistry.dfy`, `protocolcrashfree.dfy` | "one fabric, ever" as a step system: any number of processes, the lock, one step per file operation, crashes, power loss and registry loss anywhere |
| `zone.dfy` | the DST list compiler, how a device reads its list, and runs of repeated syncs |
| `clock.dfy`, `host.dfy` | Matter time, saturating clock comparison, read-back verification; the SNTP exchange and the end-to-end clock bound |
| `verhoeff.dfy`, `pairing.dfy` | the check digit over D5 (section 5.1.4.1 of the Matter Core Specification) and the manual code decoder |
| `operations.dfy`, `commands.dfy` | sync, commission and decommission over many devices; targets, time gate, exit codes |
| `duration.dfy`, `hex.dfy`, `decimal.dfy`, `wrappers.dfy` | duration text, hexadecimal keys, decimal digits, option and result types |

`dafny verify dfyconfig.toml` verifies all of it.

## How the system is modelled

**Storage.** A disk maps paths to contents with a flag for "synced since the last write". A crash keeps
synced files exactly; any other file may hold anything afterwards or be gone. Renames and removals
are durable at once. That is more than a system promises to a program that never syncs directories:
a power loss may undo the latest of them. `ProtocolProofs.UndoneRenames` says what then remains. Undone
to the files of an earlier moment, storage is as sound as it was at that moment and no run is refused;
a device certified since keeps its authority exactly when `identity.json` was in place by then, so a
device is orphaned only if the rename of the very first identity is undone after it was certified. The
next node ID may then go back too. A read fails only when
the file is absent: `ensure_fabric` takes any read error on `identity.json` for absence
(src/controller/mod.rs:370), so an existing but unreadable identity next to an empty registry would
cost the blob; that fault is excluded. Documents are single tokens, which assumes that JSON and TLV
serialization round-trip.

**Processes.** The step system starts on virgin storage. A process resolves its targets before it
takes the lock; the lock holder reads, decides and writes one file operation at a time. It may die at
any point, its unsynced file left in any state, which also covers every failed operation. The power
can fail, and `devices.json` can be lost or scratched at any moment. What devices hold is a log of
node IDs with the authority that signed for them. A certificate counts from the moment it reaches
the device, before commissioning completes.

**Two views of `ensure_fabric`.** `FabricBootstrap.Controller` is the imperative code on one volume;
its contract covers every disk whose blobs are fabric records and every crash point of one call. The step
system interleaves the same decisions with other processes. `FabricBootstrap.ProtocolFollowsPlan` ties
both to one plan.

**An interrupted first run.** A comment at src/controller/mod.rs:487-489 says that a fabric without
`identity.json` is reported loudly by the next run. The code (src/controller/mod.rs:370-379) discards
that fabric and creates a new identity when no device is recorded, and refuses otherwise. The model
follows the code.

**Strict node ID uniqueness is false.** The registry record is written before the next node ID is
advanced (src/controller/ops.rs:133-141). `ProtocolProgress.UnfinishedIdIsReused` builds a run in which a
process dies in between: its device is certified, completed and recorded, and the next device completes
with the same ID. `ProtocolProofs.ReusedExactly` and `ProtocolProofs.UsedUpExactly` are the exact condition:
an ID is the next one in `identity.json` at the one moment it is handed out, so a later device gets an
earlier one's ID exactly when that file has not moved past it; and it has exactly when, between the two
hand-outs, a rename of `identity.json` took the next ID from the earlier one to the one after. Nothing else
ever moves it once it is there. A finished commissioning has always done so (`ProtocolProofs.NodeIdsNeverReused`).

**Time.** Instants are nanoseconds, machine integers are ranges of `int`, floating-point seconds are
reals. tzdb transitions are strictly increasing and fall on whole microseconds. The January and July
instants at which the standard offset is probed are inputs.

**DST lists.** The documentation says DST increases the offset in every zone (src/tz.rs:43-45). That is
false of Morocco, whose list has a negative entry in Ramadan (`Zones.RamadanIsNegative`);
`Zones.NonNegativeExactly` is the condition, in terms of the zone and the capacity, and the sum a device
computes is exact regardless. A list can be built on a host whose clock is before 2000, because `--time`
skips the time gate while the list still starts at the host's "now" (src/controller/ops.rs:343). Its
first entry may then be empty (`Zones.EmptyBeforeEpoch`); `Zones.StrictOrderExactly` is the condition.
The zone offset and the list are two writes; either can fail, and `Operations.BrokenOffExactly` and
`Zones.DeviceFollowsZone` say what the device shows in between.

**Devices.** A device is a fabric table, a clock and its offset lists. What a device answers is input.
Fabric-filtered reads list only our rows, and a device that receives RemoveFabric obeys it.

## Model

| member | source | states |
|---|---|---|
| ProtocolProofs.OneFabricEver | src/controller/mod.rs:344-497 | in every interleaving of processes with crashes, failures and registry loss, once an identity is on disk its fabric ID, controller node ID and root key never change, and exactly one fabric blob exists and matches |
| ProtocolProofs.NoOrphans | src/controller/ops.rs:86-141 | whatever certificate was ever installed on a device, the authority that signed it is the identity on disk at every later moment, with its fabric blob |
| ProtocolProofs.NeverRefused | src/controller/mod.rs:380-413 | on storage only this tool, crashes and registry losses touched, the guards against damage never fire in any run |
| ProtocolProofs.NodeIdsNeverReused | src/controller/ops.rs:133-141 | IDs are handed out in order, never again after a finished commissioning whatever was decommissioned since, at most the next ID and strictly below it once finished |
| ProtocolProofs.ReusedExactly | src/controller/ops.rs:86-100 | in every run each ID was handed out at exactly one moment, as the next ID on disk then; so it equals an earlier one exactly when that file had not moved past it |
| ProtocolProofs.UsedUpExactly | src/controller/ops.rs:139-141 | a later ID differs from an earlier one exactly when, between the two hand-outs, a rename of the identity file took the next ID from the earlier one to the one after |
| ProtocolProofs.NextLogGrows | src/controller/ops.rs:86-100 | a step hands out at most one ID, the next one in the identity file, signed by the identity there |
| ProtocolRegistry.RecordsAreDevices | src/main.rs:211-235 | in every run, every node recorded or about to be recorded by any process completed its commissioning with that ID under the authority on disk, although targets are resolved before the lock and syncs re-create decommissioned records |
| ProtocolRegistry.SyncOfOneTarget | src/controller/ops.rs:311-327 | whatever the environment chooses, syncing one device in the step system merges the attempt and then the outcome into that record and no other, and goes on with the next target |
| ProtocolRegistry.DecommissionOfOneTarget | src/controller/ops.rs:582-606 | decommissioning one device in the step system drops its record exactly if it answered, and goes on with the next target |
| ProtocolProofs.UndoneRenames | src/state.rs:61-68 | if a power loss also undoes the latest renames, the invariant of that earlier moment holds again, no run is refused, and a device certified since keeps its authority exactly when the identity file was in place by then |
| ProtocolCrashFree.CrashFreeIdsIncrease | src/controller/ops.rs:86-141 | with no crash and no failing command, node IDs strictly increase from one commissioning to the next |
| ProtocolProofs.MutualExclusion | src/controller/mod.rs:554-566 | one process at a time works on the storage directory |
| ProtocolProofs.LockIsHeld | src/controller/mod.rs:259-267 | the lock is held only by a process at work: it is free as soon as its holder ends or dies |
| ProtocolProofs.NextInv | src/controller/mod.rs:259-497 | every step of every process and of the environment keeps the whole invariant and never changes an identity or forgets a handed-out ID |
| ProtocolProofs.WorkKeeps | src/controller/ops.rs:86-141 | every step of the lock holder, from loading to recording a device, keeps the invariant |
| ProtocolProofs.LossKeeps | src/state.rs:50-58 | losing or corrupting the registry at any moment, even during a store, breaks nothing a process relies on |
| ProtocolProgress.NoStuckState | src/controller/mod.rs:344-416 | from every state any run reaches there is a continuation in which a process that finds the lock free ends, within sixteen steps and without refusal, with exactly one fabric and its matching identity |
| ProtocolProgress.EverySoloRunIsReady | src/controller/mod.rs:344-416 | whatever the environment chooses: in every run in which a process takes the free lock and works alone it has become ready with one fabric and its matching identity, or fewer than fifteen steps have passed and it can take another |
| ProtocolProgress.EveryStepAdvances | src/controller/mod.rs:344-497 | whatever the environment chooses, each step between lock and readiness brings the process closer, from any state a crash leaves |
| ProtocolProgress.EnsureCompletes | src/controller/mod.rs:344-497 | an uninterrupted run from any sound state reaches readiness in a bounded number of steps |
| ProtocolProgress.UnfinishedIdIsReused | src/controller/ops.rs:133-141 | a concrete run in which two devices complete their commissioning with one node ID, because a process died after recording the first and before advancing the next node ID |
| FabricBootstrap.Controller.EnsureFabric | src/controller/mod.rs:344-416 | on every disk whose blobs are fabric records the outcome is the planned one: refusals change nothing, an existing identity is returned, a bootstrap installs exactly the minted pair in a free slot; with no failed operation the call succeeds unless the plan refuses or the table is full, and it reports failed storage exactly when an operation failed; with identity and label in place it writes nothing; on consistent storage every recorded disk state stays consistent and keeps the identity |
| FabricBootstrap.Controller.WithExisting | src/controller/mod.rs:354-388 | a loaded fabric is kept with its identity, discarded when no identity and no device exist, and otherwise left untouched |
| FabricBootstrap.Controller.DiscardThenBootstrap | src/controller/mod.rs:370-379 | the interrupted fabric is removed and replaced, safely at every crash point |
| FabricBootstrap.Controller.Bootstrap | src/controller/mod.rs:425-497 | fabric blob first, identity after it: every state in between is consistent |
| FabricBootstrap.Controller.ReconcileLabel | src/controller/mod.rs:499-522 | only the label of the stored fabric changes, atomically; the right label is not written again |
| FabricBootstrap.SuccessMeansOneFabric | src/controller/mod.rs:344-416 | on consistent storage success means exactly one fabric, matching the identity on disk |
| FabricBootstrap.WhatCanFail | src/controller/mod.rs:344-416 | with no failed operation a call succeeds on consistent storage, and on any other unless the plan refuses or the table is full |
| FabricBootstrap.OnlyStorageFails | src/controller/mod.rs:344-416 | on consistent storage no refusal and no full table make the call fail |
| FabricBootstrap.CrashStaysSafe | src/controller/mod.rs:485-490 | whatever a crash during the call leaves is consistent and keeps the identity |
| FabricBootstrap.ProtocolFollowsPlan | src/controller/mod.rs:354-413 | the step system decides by the same plan as the method |
| Documents.ConsistentIsNeverRefused | src/controller/mod.rs:380-413 | consistent storage is never refused |
| Documents.StatusForetellsRun | src/controller/mod.rs:102-134 | the status report predicts the next run on every disk whose blobs are fabric records |
| Paths.StatusSeesCommittedBlobs | src/controller/mod.rs:105-114 | the status test recognises committed blobs and never their temporary files |
| Paths.RenderInjective | src/controller/mod.rs:136-142 | no two files share a name: temporary files cannot be taken for committed ones, nor one key's file for another's |
| Paths.TempNames | src/state.rs:64 | the temporary name is the file name with ".tmp" added, for all three kinds of file |
| FileSystem.StageRefines | src/state.rs:71-87 | every file operation of a store but the rename is invisible, the rename is one atomic update |
| FileSystem.CrashKeepsCommitted | src/state.rs:82-86 | a crash changes no committed file |
| FileSystem.Volume.WritePrivate | src/state.rs:71-87 | on success the temporary file is durable with the bytes and a newline; committed files are untouched at every point, successful or not |
| FileSystem.Volume.Store | src/state.rs:61-68 | a store is all or nothing, in its result and at every recorded disk state; other files are unchanged; it fails exactly when one of its operations does |
| KvBlobStore.RunRefinesMap | src/controller/mod.rs:198-237 | over whole runs with failures and crashes the committed files are those of an atomic map after exactly the stores whose rename took effect and the removals performed, in their order: none of them is lost, no other one shows |
| KvBlobStore.DoneStaysDone | src/controller/mod.rs:219-236 | whatever took effect at one moment of a run is still in effect, in the same order, at every later one |
| KvBlobStore.LoadAfterRun | src/controller/mod.rs:198-237 | at any moment of any run a load gives the bytes of the last store of that key that took effect plus one newline, nothing after a removal, and the initial content if neither happened |
| KvBlobStore.AtomicKvBlobStore.Store | src/controller/mod.rs:219-228 | at every crash point of a store the key holds its old or its complete new content and other keys theirs; it fails exactly when an operation does |
| KvBlobStore.AtomicKvBlobStore.Load | src/controller/mod.rs:205-217 | a load is a function of the committed files: absent, too long for the buffer, or the content |
| KvBlobStore.AtomicKvBlobStore.Remove | src/controller/mod.rs:230-236 | removes exactly that key; an absent one counts as removed, and only a failed operation fails |
| KvBlobStore.LoadAfterStore | src/controller/mod.rs:205-228 | a load after a store gives the bytes plus one newline when they fit, an error when they do not; other keys read as before |
| Storage.UpdateDevice | src/state.rs:95-103 | patches one record, a blank one if there is none, leaves all others, atomically at every crash point; fails exactly when an operation does |
| Storage.RemoveDevice | src/state.rs:106-110 | drops one record, atomically at every crash point |
| Storage.LoadRegistry | src/state.rs:53-58 | a missing or corrupt registry reads as empty |
| Operations.SyncSucceedsExactly | src/controller/ops.rs:337-432 | a device's sync succeeds exactly when all needed exchanges were answered and the clock read back is within 5 s of what was written or of that one epoch distance later; written is the operator's time whenever there is one and the host's otherwise; the whole successful outcome is given |
| Operations.SyncFailsWith | src/controller/ops.rs:337-415 | a device without the cluster is skipped; any other failure carries the error of the first exchange that failed, or the verification's |
| Operations.RunSync | src/controller/ops.rs:308-334 | one outcome per target in order, each depending on its own device alone; the registry is the fold of per-device merges; identity and fabrics are unchanged at every recorded disk state; it fails exactly when a state write does |
| Operations.SyncRecordsTarget | src/controller/ops.rs:312-327 | the whole record of a target: success and connection times advance exactly on success, the error is cleared or recorded, the attempt is stamped, names already recorded stay |
| Operations.SyncLeavesOthers | src/state.rs:95-103 | devices that were not targets keep their records |
| Operations.SyncAddsNothingExactly | src/controller/ops.rs:311-319 | a sync adds no device exactly when every target, chosen before the lock, is still recorded |
| Operations.TimeSyncDevice.WriteZoneAndDst | src/controller/ops.rs:437-504 | the zone offset is written unless SetTimeZone never arrived; the list exactly when the device asked for it, its capacity was read and SetDSTOffset arrived, answered or not, and is then contiguous, within that capacity, as long as it can be and true to the zone; every result and error text follows from the exchanges |
| Operations.BrokenOffExactly | src/controller/ops.rs:437-504 | a device an earlier sync had set right stays right untouched, is right with both new writes, and with the new zone offset alone exactly when the standard offset is what it was |
| Operations.FinishCommission | src/controller/ops.rs:131-141 | the device is recorded with its names and connection time, then the next node ID advances; a crash sees none, the first or both of these; it fails exactly when a write does |
| Operations.RunDecommission | src/controller/ops.rs:582-606 | outcomes in order, failures isolated, the registry loses exactly the successful targets, no other administrator's row changes, and every success dropped a row of ours; it fails exactly when a state write does |
| Operations.Network.DecommissionOne | src/controller/ops.rs:612-629 | succeeds exactly when the device listed a row of ours and the exchange went through; nothing but that row is removed |
| Operations.Network.ReadOurFabricIndex | src/controller/ops.rs:520-541 | the index found is of a row of ours, and none is found only if there is none |
| Operations.DroppedMeansGone | src/controller/ops.rs:609-628 | where the device had one row of ours, a successful decommission leaves none |
| Commands.SyncCommand | src/main.rs:324-352 | exit 0 exactly when the time gate passed, there are targets, nothing failed, and every target has no cluster or answered everything with its clock within 5 s of the written value or of that one epoch distance later, the operator's time being the written one whenever given; a failed gate touches nothing; a failure is a missing target, a taken lock, a failed operation, a planned refusal or a full table; otherwise the fabric is the planned one |
| Commands.ExitCodeExactly | src/output.rs:174-192 | for every kind of output, which entries make the exit code 1 |
| Commands.ReportIsExact | src/output.rs:174-192 | a report of outcomes exits 0 exactly when the clock was trusted or the time given, and every target is without the cluster or verified |
| Commands.ResolvedAreKnown | src/main.rs:207-235 | targets are all commissioned devices or the requested one, never none |
| Commands.SyncedClockIsTrue | src/controller/ops.rs:379-415 | after a sync let through by the gate on a server's answer, the device clock is within 5 s + 1 s + half that server's round trip + the delay + 1 us of true time |
| HostClock.EndToEndBound | src/host.rs:41-94 | the same bound from one accepted SNTP exchange, one write and one verified read-back |
| HostClock.MidpointBound | src/host.rs:41-94 | the measured offset is off by at most half the round trip |
| HostClock.HonestReplyMeasured | src/host.rs:58-94 | a synchronized server's answer to our request is accepted and measured against exactly the time it carries |
| HostClock.SntpOffset | src/host.rs:53-95 | an offset is reported exactly for a full-length, nonce-echoing answer of a synchronized server, from the four byte fields |
| HostClock.Request | src/host.rs:58-63 | the request is the client header, zeros, and the nonce in its last eight bytes |
| HostClock.ClockIsNtpSynchronized | src/host.rs:25-39 | the first server that answers decides; the system's verdict only when none does |
| HostClock.TrustsExactly | src/host.rs:25-39 | with no usable answer the verdict is the system's; otherwise exactly whether the first usable answer is within one second either way |
| HostClock.MeasuredExactly | src/host.rs:72-94 | on the bytes: which datagrams give an offset, and that it is the midpoint less the 64-bit stamp they carry |
| HostClock.NtpEpochIsCounted | src/host.rs:19-20 | the NTP offset is the days from 1900 to 1970 |
| MatterTime.VerificationExact | src/controller/ops.rs:409-415 | for all 64-bit values the saturating verification accepts exactly the mathematical intervals, which are disjoint |
| MatterTime.AssessmentExact | src/time.rs:86-112 | epoch folding is decided within seven days of the epoch distance, on the true difference, and yields it; other differences saturate |
| MatterTime.FromTimestampMeaning | src/time.rs:29-32 | conversion is exact to the microsecond from 2000 on and clamps before |
| MatterTime.EpochIsCounted | src/time.rs:13-14 | the epoch distance is the days from 1970 to 2000 |
| MatterTime.SaturatingSubExact | src/time.rs:86-95 | saturating subtraction is the difference stopped at the ends of 64 bits |
| Zones.ListMeaning | src/tz.rs:69-117 | for every start, from it until the list expires each instant lies in exactly one entry, and standard offset plus that entry is the zone's offset, whatever the probes returned; before 2000 exactly when the offset is that of the Matter epoch |
| Zones.BuildDstOffsetList | src/tz.rs:76-117 | the loop builds that list, with at most the given entries and one where none are given, open-ended if there was room left, and faithful to the zone from every start |
| Zones.CoversExactly | src/tz.rs:81-104 | a list has expired exactly when as many offset changes have passed since its start as it has room for |
| Zones.ExpiredIsStandard | src/tz.rs:69-75 | once its list has expired, a device shows standard time |
| Zones.DeviceFollowsZone | src/controller/ops.rs:443-503 | over any run of punctual syncs, however many failed halfway, at every instant from the first list to the last expiry the device shows the tzdb offset exactly when zone offset and list come from the same standard offset, and is off by the difference otherwise; so it is right wherever every sync begun has finished |
| Zones.CanonicalForm | src/tz.rs:81-116 | contiguous run-length form, one entry more than there are offset changes ahead as far as the capacity allows, open end exactly when changes run out first, smaller capacities give prefixes |
| Zones.StrictOrderExactly | src/tz.rs:86-104 | entries are strictly ordered exactly when the next change lies after the Matter epoch |
| Zones.NonNegativeExactly | src/tz.rs:42-57 | no DST entry is negative exactly when the zone never dips below both probes until as many offset changes have passed as the list has room for |
| Zones.RamadanIsNegative | src/tz.rs:42-57 | Morocco in 2025: both probes agree and the dip between them is a negative entry, at every capacity from 2 |
| Zones.EmptyBeforeEpoch | src/tz.rs:95-104 | a start in 1999: the first entry begins and ends at 0, so the list is not strictly ordered |
| Zones.NextTransitionIsFirstChange | src/tz.rs:34-40 | the reported transition is the first instant with another offset; none is reported only if the offset never changes again |
| Zones.DeclinedListExactly | src/controller/ops.rs:461-470 | a new zone offset beside an old list is off by the difference of the standard offsets, so right exactly when it did not change |
| Verhoeff.SubstitutionDetected | src/pairing.rs:55-61 | every change of one digit of a valid code of any length is detected |
| Verhoeff.SwapDetected | src/pairing.rs:55-61 | every swap of two adjacent unequal digits is detected |
| Verhoeff.CheckDigitUnique | src/pairing.rs:55-61 | exactly one check digit completes a payload, the calculated one |
| Pairing.DecodeInvertsEncode | src/pairing.rs:35-84 | decoding inverts encoding for every discriminator and permitted passcode, short or long form, whatever separators are added |
| Pairing.ParsedExactly | src/pairing.rs:35-84 | the answer to every text: QR payload, wrong length or stray character, wrong check digit, digits 7-10 too large or a forbidden passcode, and otherwise the passcode and discriminator in terms of the digits |
| Pairing.ForbiddenExactly | src/pairing.rs:29-33 | the forbidden passcodes are zero, one digit eight times, and the two runs |
| Pairing.KeptJoins | src/pairing.rs:40-43 | white space and hyphens are dropped wherever they stand, every other character stays |
| Pairing.AcceptedMeansEncodable | src/pairing.rs:51-83 | an accepted code agrees, on every bit the decoder reads, with the code its result encodes to |
| Pairing.SamePairExactly | src/pairing.rs:63-75 | two codes give the same pair exactly when digit 1 mod 4, digits 2-6 mod 65536 and digits 7-10 agree |
| Pairing.TwinDecodes | src/pairing.rs:63-75 | every accepted code has a twin, another code of its length with a right check digit that gives the same passcode and discriminator |
| Pairing.BoundRejectsExactly | src/pairing.rs:77-79 | the 27-bit bound rejects exactly from 8192 in digits 7-10 on |
| Pairing.SubstitutionRejected | src/pairing.rs:55-61 | one mistyped digit in a good code gives the check-digit error |
| Pairing.SwapRejected | src/pairing.rs:55-61 | so does a swap of neighbouring unequal digits |
| Pairing.OnlyDigitsDecide | src/pairing.rs:36-49 | white space and hyphens anywhere do not matter |
| CompactDuration.ReadInvertsDisplay | src/time.rs:169-203 | reading the text back gives the duration rounded down to the displayed unit, for every value |
| CompactDuration.DisplayUnit | src/time.rs:169-186 | which unit is shown in which range |
| CompactDuration.PartsOrdered | src/time.rs:187-201 | the long form goes from the largest unit down, each at most once and below its carry, without seconds beside days |
| Hex.DecodeInvertsEncode | src/controller/mod.rs:176-188 | the stored root key reloads unchanged |
| Hex.EncodeInvertsDecodeExactly | src/controller/mod.rs:176-188 | a decodable text encodes back to itself exactly when it is lowercase hexadecimal |
| Hex.DecodesExactly | src/controller/mod.rs:180-188 | exactly which texts decode, and the error of the others |
| Hex.DecodedBytes | src/controller/mod.rs:180-188 | the value of every byte of a decoded text |
| Hex.HexDigitsDecode | src/controller/mod.rs:180-188 | every even-length text of hexadecimal digits decodes |

## Left out

- Networking, mDNS, interface selection, SPAKE2+ and CASE, certificates and the Matter stack's internals: keys are opaque identifiers, and a fabric record holds only the core and the label.
- The tzdb and the civil calendar: the transition table and the two probe instants are inputs, and the TimeZone entry's name is not modelled.
- Storage.LoadRegistry: registry keys are numbers, so a key that is not decimal is not modelled.
- Commands.SyncCommand: other processes between target resolution and the lock are modelled by the step system, not here.
- FabricBootstrap.Controller.EnsureFabric: a blob that is not a fabric record makes the stack fail to load before the call, so the contract assumes there is none.
- ProtocolProofs.NodeIdsNeverReused: node IDs are unbounded numbers; the wrap after 2^64 commissionings is not modelled.
- HostClock.EndToEndBound: floating-point rounding is not modelled, the NTP era is the first one, and the host offset is constant from exchange to read-back.
- HostClock.ClockIsNtpSynchronized: the `timedatectl` fallback is an input and gives no numeric bound.
- Operations.RunDecommission: status codes in device answers are only logged by the program, so obedience of the device is assumed.
- Operations.SyncSucceedsExactly: the human-readable outcome fields (clock before, zone name, epoch flag) are not part of the modelled outcome, and the fabric label push after verification cannot change it.
- Directory creation, file permissions, the non-Unix store, and the `.lock` file's own content.
- Inspection and status rendering, JSON output, logging, configuration parsing, wall-clock parsing, and the conversion of Matter time back to timestamps for display.
- Running time: only connection attempts are bounded in the program.
