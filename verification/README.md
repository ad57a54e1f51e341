# OpenStrata, verified

A Dafny model of the parts of OpenStrata that other parts rely on without looking: the content-addressed artifact
store and its evidence, the lease that keeps two invocations off one target, the byte-level writers of the consumer
archives, the readers that measure a binary's platform floor, and the small decision procedures around them
(references, publishing policy, external-build identity). `dafny verify dfyconfig.toml` checks all of it.

Where the source computes by expressions the model is functions; where it changes things step by step (the store's
import, the ZIP stream, the scans, the packing and comparison loops) the model is methods and classes, each proved
equal to a specification function, and the theorems are about that function. The lease is a state machine over
every interleaving of any number of processes.

| module | of the system |
|---|---|
| `Store`, `ArtifactStore` | import, re-import, remove, resolve and export: each write as a value, and the object that performs them |
| `StoreCoherence`, `StoreHistory`, `StoreCrash`, `StoreRerun`, `StoreReruns`, `StoreTransfer`, `StoreExamples` | what every run, crash, rerun and transfer keeps; where it does not, exactly when, with a run that shows it |
| `Evidence`, `Producer` | SPDX documents and provenance statements: generation and verification; which producer manifests are accepted, and that their own evidence verifies |
| `Lease` | the target lease protocol |
| `Bytes`, `Zip`, `ZipWriter`, `ZipReader` | the deterministic ZIP/ZIP64 writer and a reader that follows PKWARE APPNOTE sections 4.3.7 to 4.3.16 and 4.5.3 |
| `Base64`, `Csv`, `WheelRecord` | base64url (section 5 of RFC 4648), CSV (section 2 of RFC 4180) and the wheel `RECORD` |
| `Archive`, `Pack` | packing a stage, walking, scanning and comparing the archive |
| `Links`, `LinkExamples` | where the links of an accepted archive land and lead; archives that show why each condition is needed |
| `Versions`, `Glibc`, `GlibcScan`, `MachO`, `MachOScan` | the glibc and macOS floors: whole-file meaning and bounded-window scans |
| `Reference`, `Policy`, `CMake` | remote references, publishing policy, CMake identity |
| `Prelude`, `Text`, `Order` | options, results, bytes; cutting, joining and trimming text; sorting and lexicographic order |

## What the model found

Six promises do not hold as stated. The model keeps the code as it is, proves for all inputs exactly when the
promise is kept, and gives a concrete run on which it is not.

- A re-import can fail on its debug archive *after* it has replaced a sidecar the record refers to
  (`crates/ost-artifact/src/store.rs` lines 381 to 428). The store stays coherent exactly unless the committed
  manifest's debug archive clashes with a stored file of that name and a referenced sidecar was overwritten
  (`StoreCoherence.ImportCoherent`, `StoreExamples.LateDebugClashTears`).
- `record.archive` is not updated when a manifest that names the archive differently replaces the stored one, so the
  exported package cannot be imported again, or, if its debug archive takes the old name, cannot be exported at all;
  and a composed runtime whose dependency list is refined keeps provenance that binds the old list
  (`StoreTransfer.ExportThenImport`, `StoreTransfer.ExportExactly`, `StoreExamples.RenamedArchiveIsNotPortable`,
  `StoreExamples.ShadowedArchiveIsNotExported`, `StoreExamples.RefinedCompositionIsNotPortable`).
- An import cut off between record and `SHA256SUMS`, run again at any later time, leaves the old checksum file in place
  (`StoreRerun.RerunCompletes`, `StoreReruns.RerunsComplete`, `StoreExamples.InterruptedAttachmentStaysStale`).
- The comment on `classify_stale` (`crates/ost-build/src/lease.rs` lines 359 to 362) says that a live pid without the
  lock means the pid was recycled. The verdict is given without a recycled pid if and only if the owner itself still
  answers on the judging machine: it runs on after a plain drop or after a write whose end failed, or it was killed and
  is not reaped yet (`Lease.PidReusedExactly`, `Lease.DroppedOwnerIsMisjudged`, `Lease.UnreapedOwnerIsMisjudged`).
- The streaming glibc scan can report a version that the file does not contain: the stump of a minor number of more
  than six digits that a chunk boundary cuts (`GlibcScan.ScanExactly`, `GlibcScan.OverlongMinorIsMisread`).
- The gate on symbolic links (`crates/ost-artifact/src/store.rs` lines 1196 to 1202) promises that an accepted target
  stays inside the archive root. It judges every link by its own text, with `\` taken for `/` (line 1100), while
  unpacking (lines 1003 to 1007) works on the raw archive. For every archive on every host the links stay inside if and
  only if every target does, from the place where its link has landed, when each of its `..` leaves the directory that
  is really reached (`Links.UnpackedStaysExactly`). With nothing beneath a link and no target that climbs out of one
  that can be read off the entries: it is so if and only if every last link's target stays inside measured from the
  link's path as the host reads it, without dots (`Links.ArchiveContainedExactly`). Four accepted archives lead out: the
  gate counts a dot as a directory (`LinkExamples.DottedLinkLeadsOut`) and, on a host where `\` is an ordinary
  character, a name that holds one as two (`LinkExamples.BackslashedLinkLeadsOut`); a target can climb out of another
  link (`LinkExamples.ChainedLinkLeadsOut`); and a link beneath a link lands elsewhere
  (`LinkExamples.NestedLinkLeadsOut`).

In the same way the identity material of a CMake tree confuses a key with the literal value `<absent>` and a missing
key, and nothing else (`CMake.ParsedMaterialExactly`, `CMake.AbsentLiteralCollides`); a printed `file://` path is read
back unchanged exactly if it is not a drive path behind a slash (`Reference.FileReadsBackIff`); and the macOS floor
leaves out exactly what lies past the window of a slice (`MachO.WindowedFloorExactly`, `MachO.FarCommandIsMissed`).

## Assumptions

- Hashes are arbitrary functions. No statement assumes a hash to be injective; where a collision would matter, the
  statement says that this import meets none (`NoCollision`, `CollisionFree`), or that two given texts do not collide.
- Whether the unpacking host takes `\` for a separator, and which names it takes for one file (letter case, say), are
  parameters (`Links.Host`). It reads no other name as `.` or `..`, and paths and targets are text, without bytes that
  a lossy conversion replaces.
- Unpacking puts an entry where the links made so far lead its directory, replaces files and links but never a
  directory, and gives up on a directory behind more than some number of links; it passes over an entry whose directory
  leads outside (an unpacker that stops there makes the links of the entries before it).
- A `rename` or `write_atomic` is atomic, one process at a time works on a store, and a crash falls between two writes.
- Archive and debug archive are not called like one of the store's own five files (`WellNamed`).
- An accepted manifest's dependencies have distinct names (`Lawful`), which `Producer.AcceptedNamesDistinct` proves of the
  producer's normalisation.
- Which characters are white space is a parameter of every statement about trimmed text.
- JSON documents are the records their fields make; manifest, SBOM and provenance parsers are arbitrary functions of
  the file.

## Model

| member | source | states |
|---|---|---|
| `ArtifactStore.ArtifactStore.Import` | crates/ost-artifact/src/store.rs:167-562 | the method, write by write, ends in the state and with the result of the specification `Store.Import`, in every case including each error; every sidecar the dist directory offers is reported as attached or as skipped, never both and never neither |
| `ArtifactStore.ArtifactStore.Reimport` | crates/ost-artifact/src/store.rs:242-480 | the already-stored path: refusal before any write, otherwise the specified directory, index and result |
| `ArtifactStore.ArtifactStore.Reconcile` | crates/ost-artifact/src/store.rs:257-364 | the refusal is the specified one; without one, the record in hand carries the enriched identities |
| `ArtifactStore.ArtifactStore.Enrich` | crates/ost-artifact/src/store.rs:339-364 | filling in identities field by field adds exactly what the stored record lacks and reports whether anything was added |
| `ArtifactStore.ArtifactStore.RepairCommitted` | crates/ost-artifact/src/store.rs:365-373 | an unchanged manifest gets its missing debug archive and its checksum file back |
| `ArtifactStore.ArtifactStore.AttachEvidence` | crates/ost-artifact/src/store.rs:375-412 | sidecars are renamed in unless the record already refers to the same digest and the file is there |
| `ArtifactStore.ArtifactStore.CommitManifest` | crates/ost-artifact/src/store.rs:414-434 | debug archive, then manifest, are written exactly if the manifest must replace the stored one |
| `ArtifactStore.ArtifactStore.RewriteRecord` | crates/ost-artifact/src/store.rs:436-471 | record and checksum file are rewritten for the manifest that is on disk at that point |
| `ArtifactStore.ArtifactStore.MaterializeDebugArchive` | crates/ost-artifact/src/store.rs:844-885 | a missing debug archive is copied, an existing one never overwritten, and the claim is then verified |
| `ArtifactStore.ArtifactStore.IndexUpsert` | crates/ost-artifact/src/store.rs:798-817 | afterwards the index holds exactly the new record and the old entries of other digests, in ascending order of digest, strictly if it was before |
| `ArtifactStore.ArtifactStore.Remove` | crates/ost-artifact/src/store.rs:571-593 | index entry and object directory of the resolved digest are gone, nothing else changes |
| `StoreCoherence.ImportCoherent` | crates/ost-artifact/src/store.rs:167-562 | from a coherent store, an import, successful or not, leaves a coherent store if and only if it does not tear it (a condition on store and dist directory known before the call) |
| `StoreCoherence.ReimportCoherent` | crates/ost-artifact/src/store.rs:259-473 | a successful re-import keeps record, manifest, archive, debug archive, sidecars and checksum file in agreement |
| `StoreCoherence.FailsOnlyOnDebugClash` | crates/ost-artifact/src/store.rs:365-434 | from a coherent directory a re-import that is not refused fails exactly on a debug clash, after its fifth write |
| `StoreCoherence.ClashCoherence` | crates/ost-artifact/src/store.rs:381-428 | the directory such a failure leaves is coherent if and only if no sidecar the record refers to was overwritten |
| `StoreCoherence.IdentityAgrees` | crates/ost-artifact/src/store.rs:259-364 | after the refusals, the new record's identity equals that of the manifest that will be on disk |
| `StoreCoherence.UpsertKeeps` | crates/ost-artifact/src/store.rs:798-817 | upsert into a strictly sorted index keeps it strictly sorted and holds exactly the other entries and the new record |
| `StoreCoherence.UpsertMeans` | crates/ost-artifact/src/store.rs:798-817 | from any index, sorted or not, the result ascends and holds exactly the other digests' entries and the new record |
| `StoreCoherence.RemoveCoherent` | crates/ost-artifact/src/store.rs:571-593 | a remove keeps a coherent store coherent |
| `StoreCoherence.RunCoherent` | crates/ost-artifact/src/store.rs:167-594 | every store reachable from the empty one by imports and removes, none of which tears it, is coherent |
| `StoreCoherence.ReachableStoreVerifies` | crates/ost-artifact/src/store.rs:179-451 | in every such store each record's four identities are those of the manifest on disk, its SBOM verifies against digest and dependency list, its provenance attests that manifest's source and, composed runtimes aside, verifies |
| `StoreCoherence.ReachableSumsHold` | crates/ost-artifact/src/store.rs:365-532 | SHA256SUMS lists exactly archive, promised debug archive and recorded sidecars, and each is present with that digest |
| `StoreCoherence.ReachableSbomIsExact` | crates/ost-artifact/src/store.rs:179-451 | in every such store a recorded SBOM declares the record's dependencies one to one |
| `StoreHistory.IdentitiesAreWriteOnce` | crates/ost-artifact/src/store.rs:257-364 | from any store, between removes no sequence of imports, each finished, failed or cut off at any write, and of cut-off removes changes an identity that is set |
| `StoreHistory.AddedIdentityIsBound` | crates/ost-artifact/src/store.rs:299-364 | under a differing manifest a new source comes only with provenance that attests it, new dependencies only with an SBOM that lists them, OpenUSD and verification identities never |
| `StoreHistory.RefusedLeavesStore` | crates/ost-artifact/src/store.rs:257-338 | an import refused as conflict or incomplete evidence leaves the whole store unchanged |
| `StoreHistory.ConflictExactly` | crates/ost-artifact/src/store.rs:258-297 | a conflict is reported if and only if a set identity would change, or evidence comes along without it |
| `StoreCrash.CrashesKeepIndexBacked` | crates/ost-artifact/src/store.rs:381-630 | after any sequence of imports and removes, each possibly cut off at any of its writes, the index is strictly sorted and every indexed digest has a directory with a record of that digest |
| `StoreCrash.ResolveIsExact` | crates/ost-artifact/src/store.rs:602-630 | in each such state resolving a full indexed digest, with or without prefix, returns exactly that entry |
| `StoreCrash.ImportIsItsWrites` | crates/ost-artifact/src/store.rs:381-562 | an import that runs to its end leaves what it leaves when cut off after its last directory write, with the index entry on top |
| `StoreRerun.RerunCompletes` | crates/ost-artifact/src/store.rs:381-562 | rerunning an interrupted import at any later time and from any cut-off point: if nothing had been done it is an import of its own; otherwise it returns the record of the uninterrupted import, first creation time included, writes the index entry and leaves every file as that import, the checksum file excepted in exactly one case |
| `StoreReruns.RerunsComplete` | crates/ost-artifact/src/store.rs:381-562 | importing the same output until it goes through, after any number of runs each cut off at any write and at any times: the last run returns the record of one uninterrupted import at the time of the first write, writes the index entry and leaves every file as that import, except the checksum file exactly if the first run to rewrite the record stopped right behind it and nothing repairs the file |
| `StoreReruns.CutAgain` | crates/ost-artifact/src/store.rs:381-473 | two cut-off runs leave, up to the checksum file, what the one of them that got farther leaves alone |
| `StoreRerun.RerunDirectory` | crates/ost-artifact/src/store.rs:381-473 | the same for the object directory, cut-off point by cut-off point |
| `StoreRerun.RerunFresh` | crates/ost-artifact/src/store.rs:482-562 | a fresh import cut off before its index write, run again at any later time, finds its own directory, changes nothing in it and keeps the first creation time |
| `StoreRerun.ReimportIgnoresTime` | crates/ost-artifact/src/store.rs:242-480 | a re-import, its refusals, writes and result, does not depend on the incoming record's creation time |
| `StoreTransfer.ExportExactly` | crates/ost-artifact/src/store.rs:635-699 | export of a stored digest into an empty directory succeeds unless the debug archive is named like the record's archive, and hands out exactly the promised files |
| `StoreTransfer.ExportThenImport` | crates/ost-artifact/src/store.rs:167-699 | from every reachable store, export then import into an empty store succeeds if and only if the package is portable (one archive name, bound composition), and the new record then differs in its creation time alone |
| `StoreTransfer.OnlyCompositionsUnbind` | crates/ost-artifact/src/evidence.rs:586-728 | a manifest that is not a composed runtime never loses its provenance binding |
| `StoreTransfer.CopyAllExactly` | crates/ost-artifact/src/store.rs:648-671 | copying present names into a place without them yields exactly those files, or refuses a name that comes twice |
| `StoreExamples.LateDebugClashTears` | crates/ost-artifact/src/store.rs:381-428 | a two-import run after which a directory is torn |
| `StoreExamples.RenamedArchiveIsNotPortable` | crates/ost-artifact/src/store.rs:420-452 | a two-import run whose result cannot be exported and imported again |
| `StoreExamples.ShadowedArchiveIsNotExported` | crates/ost-artifact/src/store.rs:635-671 | a two-import run to a coherent store whose artifact cannot be exported, because its debug archive has the name the record keeps for the archive |
| `StoreExamples.RefinedCompositionIsNotPortable` | crates/ost-artifact/src/store.rs:414-452 | a two-import run after which a composed runtime's provenance no longer binds the committed manifest |
| `StoreExamples.InterruptedAttachmentStaysStale` | crates/ost-artifact/src/store.rs:447-471 | an interrupted import whose rerun leaves a checksum file that differs from the uninterrupted one's |
| `Evidence.AcceptedSbomIsExact` | crates/ost-artifact/src/evidence.rs:476-584 | if `verify_sbom` accepts a non-empty dependency list with distinct names, declared dependency packages and dependencies correspond one to one on name, version, repository and revision |
| `Evidence.InjectionIsOnto` | crates/ost-artifact/src/evidence.rs:524-584 | the pigeonhole step: equal length plus coverage leaves no package undeclared |
| `Evidence.GeneratedDeclares` | crates/ost-artifact/src/evidence.rs:217-364 | the generated document declares exactly the manifest's dependencies and identifies its archive |
| `Evidence.GeneratedSbomVerifies` | crates/ost-artifact/src/evidence.rs:217-584 | the generated SBOM verifies, for the dependency list in any order, if and only if every dependency digest is absent or `sha256:`-prefixed |
| `Evidence.GeneratedProvenanceVerifies` | crates/ost-artifact/src/evidence.rs:366-728 | the generated provenance verifies for its own manifest, composed or not, if and only if that names repository and revision and, when composed, has a `runtime_digest` |
| `Producer.NormalizedExactly` | crates/ost-artifact/src/record.rs:608-649 | the dependency list is accepted if and only if every value is a verified dependency and no name repeats; the result is the one arrangement that ascends strictly in the names |
| `Producer.NormalizationIgnoresOrder` | crates/ost-artifact/src/record.rs:608-649 | the order in which a manifest lists its dependencies does not matter |
| `Producer.AcceptedNamesDistinct` | crates/ost-artifact/src/record.rs:608-649 | sorting and comparing neighbours leaves no repeated name anywhere in an accepted list |
| `Producer.OwnSbomVerifies` | crates/ost-artifact/src/evidence.rs:217-584 | for every accepted manifest the SBOM generated from it verifies against the normalised dependencies and declares them one to one |
| `Producer.OwnProvenanceVerifies` | crates/ost-artifact/src/evidence.rs:366-728 | and the provenance generated from it verifies against the normalised source, composed runtimes included |
| `StoreCoherence.AttestedIsAccepted` | crates/ost-artifact/src/evidence.rs:586-728 | for a manifest without composition, statements that attest its source are accepted |
| `Lease.StepKeepsInv` | crates/ost-build/src/lease.rs:217-447 | every step of every session, truncations and writes that fail at any point, process death and reaping included, keeps the protocol invariant |
| `Lease.MutualExclusion` | crates/ost-build/src/lease.rs:217-280 | in every state of every interleaving at most one session owns the lock |
| `Lease.InodeNeverChanges` | crates/ost-build/src/lease.rs:306-328 | once the lease file exists, the inode behind its path never changes |
| `Lease.UnlinkBreaksExclusion` | crates/ost-build/src/lease.rs:306-328 | what keeping the file is for: removed in any reachable state in which the lock is owned, it would let any session still trying take a second lock at once |
| `Lease.RecordStays` | crates/ost-build/src/lease.rs:386-395 | from its write on, a holder's record stays in the file until it releases, drops or dies |
| `Lease.CleanReleaseLeavesNothing` | crates/ost-build/src/lease.rs:306-328 | after a clean release the next session to read the file reports no takeover |
| `Lease.CrashIsReported` | crates/ost-build/src/lease.rs:263-280 | if a holder dies after its write, the next session to read reports exactly that invocation |
| `Lease.FailedWriteIsReported` | crates/ost-build/src/lease.rs:386-395 | if the end of a write fails, or its process dies, with the whole record already in the file, the next session to read reports that invocation, which never had the lease |
| `Lease.OwnerExitedIsTrue` | crates/ost-build/src/lease.rs:354-365 | an `OwnerExited` verdict is never about a process that still runs on the judging machine, then or later |
| `Lease.PidReusedExactly` | crates/ost-build/src/lease.rs:354-365 | for every judgement of every run: `ForeignHost` exactly for another host name; on the same host, `PidReused` without a recycled pid if and only if the recorded owner itself still answers on the judging machine, `OwnerExited` if and only if nobody does; a running owner left its record by a drop or by a write whose end failed |
| `Lease.DroppedOwnerIsMisjudged` | crates/ost-build/src/lease.rs:354-365 | a run without any death in which a process is told that its own pid was recycled |
| `Lease.UnreapedOwnerIsMisjudged` | crates/ost-build/src/lease.rs:354-365 | a run without drop or reaping in which a killed owner's pid is called recycled although no pid was given out twice |
| `Lease.HistoryIsHonest` | crates/ost-build/src/lease.rs:217-280 | every takeover a successful acquisition ever reported names the record the history before it left behind, and leases never overlap |
| `ZipWriter.PackWheel` | crates/ost-build/src/consumer_archive.rs:211-354 | the writer, field by field, produces exactly the specified layout, or the specified refusal |
| `ZipWriter.SortedEntries` | crates/ost-build/src/consumer_archive.rs:61-71 | looking at neighbours of the sorted list finds every duplicate path, and nothing else is refused |
| `ZipWriter.WriteLocal` | crates/ost-build/src/consumer_archive.rs:223-270 | one local record is appended; no field value is truncated by its 16- or 32-bit cast |
| `ZipWriter.WriteCentral` | crates/ost-build/src/consumer_archive.rs:272-314 | one central record is appended for the entry that its row describes; no field value is truncated |
| `ZipWriter.WriteTrailer` | crates/ost-build/src/consumer_archive.rs:315-350 | the writer's four-way test decides on the ZIP64 end record and locator, and the end records follow |
| `ZipWriter.WriteEnd64` | crates/ost-build/src/consumer_archive.rs:322-338 | the ZIP64 end record and a locator that points at where it began |
| `ZipWriter.WriteEnd` | crates/ost-build/src/consumer_archive.rs:339-350 | the end record with capped count, size and offset |
| `ZipWriter.Saturated32` | crates/ost-build/src/consumer_archive.rs:342-349 | `try_from … unwrap_or(MAX)` is the cap that the sentinels need |
| `Zip.PackingIgnoresOrder` | crates/ost-build/src/consumer_archive.rs:61-71 | permuting the input gives the same bytes or the same refusal |
| `Zip.SortedIsStrict` | crates/ost-build/src/consumer_archive.rs:61-71 | sorting distinct paths gives a strictly ascending permutation of the input |
| `ZipReader.PackedReadsBack` | crates/ost-build/src/consumer_archive.rs:211-354 | for every list of distinct paths whose names fit and every archive below 2^64 bytes, an APPNOTE reader recovers exactly the path-sorted list of path, checksum, size and contents |
| `ZipReader.PackingLosesNothing` | crates/ost-build/src/consumer_archive.rs:211-354 | equal archives come from the same bag of entries |
| `ZipReader.End64ExactlyForSentinels` | crates/ost-build/src/consumer_archive.rs:315-350 | the ZIP64 end record is written exactly when some field of the end record holds its sentinel |
| `ZipReader.LocalWidens` | crates/ost-build/src/consumer_archive.rs:172-190 | a reader recovers the true sizes from a local header: a sentinel is never read as a value, a value never as a sentinel |
| `ZipReader.CentralWidens` | crates/ost-build/src/consumer_archive.rs:192-206 | the same for the four combinations of wide size and wide offset in a central header |
| `ZipReader.DirectoryReads` | crates/ost-build/src/consumer_archive.rs:315-350 | the end records give back count, size and offset of the central directory |
| `Bytes.LittleEndianReadsBack` | crates/ost-build/src/consumer_archive.rs:160-170 | a value that fits its width is read back from its little-endian bytes |
| `Bytes.HeaderReadsBack` | crates/ost-build/src/consumer_archive.rs:160-170 | a header of fields that fit is read back field by field |
| `Base64.Base64UrlNoPad` | crates/ost-build/src/consumer_archive.rs:133-150 | the chunked encoder computes the digit-by-digit encoding |
| `Base64.DecodeBase64Url` | crates/ost-artifact/src/policy.rs:548-576 | the accumulator loop computes the digit-by-digit decoding, with the accumulator always below 2^bits |
| `Base64.AccumulatorStep` | crates/ost-artifact/src/policy.rs:554-571 | one more digit neither overflows 32 bits nor truncates the octet taken off |
| `Base64.DecodeEncode` | crates/ost-artifact/src/policy.rs:548-576 | decoding an encoded octet string gives it back |
| `Base64.DecodesExactly` | crates/ost-artifact/src/policy.rs:548-576 | a text decodes to given bytes if and only if it is their encoding, so non-canonical tails are refused |
| `Csv.FieldReadsBack` | crates/ost-build/src/consumer_archive.rs:104-110 | a field reads back whatever bytes it holds, commas, quotes and line breaks included |
| `Csv.LineReadsBack` | crates/ost-build/src/consumer_archive.rs:104-110 | so does a line of fields, up to exactly its end |
| `WheelRecord.Render` | crates/ost-build/src/consumer_archive.rs:84-102 | the loop writes exactly the specified text, or refuses an unsafe record path or duplicate paths |
| `WheelRecord.RecordReadsBack` | crates/ost-build/src/consumer_archive.rs:84-150 | read as CSV with base64url hashes, the `RECORD` gives back exactly the sorted (path, digest, size) list followed by its own unhashed row |
| `WheelRecord.DecodesHexExactly` | crates/ost-build/src/consumer_archive.rs:112-131 | `decode_hex` accepts exactly the lower-case hexadecimal text of its result |
| `WheelRecord.DecimalReadsBack` | crates/ost-build/src/consumer_archive.rs:96-97 | a printed size is non-empty digits that read back to it |
| `Archive.Escapes` | crates/ost-artifact/src/store.rs:1203-1233 | the component stack finds a target unsafe exactly if some prefix of it climbs above the root |
| `Archive.CheckSymlinkTarget` | crates/ost-artifact/src/store.rs:1203-1233 | the consumer's symlink gate, problem by problem |
| `Archive.ClassifyEntry` | crates/ost-artifact/src/store.rs:1137-1156 | every entry is a safe file, a directory or unsafe with its reason |
| `Archive.WalkArchive` | crates/ost-artifact/src/store.rs:1015-1081 | the walk returns the first safe occurrence of every file path and every unsafe or repeated entry, in order |
| `Archive.ScanUnsafeEntries` | crates/ost-artifact/src/store.rs:1083-1135 | the extract-time scan returns the walk's unsafe list on every archive |
| `Archive.CompareArchiveFiles` | crates/ost-artifact/src/store.rs:1251-1286 | the two loops with their seen-sets compute the specified verdict lists |
| `Archive.PassesExactly` | crates/ost-artifact/src/store.rs:1245-1286 | the comparison passes if and only if both lists are duplicate-free and equal as sets |
| `Archive.CleanArchive` | crates/ost-artifact/src/store.rs:1015-1081 | an archive of safe files with distinct paths has one line per entry and nothing unsafe |
| `Pack.ValidateSymlink` | crates/ost-build/src/package.rs:566-622 | the packer accepts exactly the symlinks the consumer's gate accepts |
| `Pack.PackDir` | crates/ost-build/src/package.rs:236-306 | packing succeeds exactly on packable stages, with one entry and one line per file in order and the right total |
| `Pack.PackOne` | crates/ost-build/src/package.rs:239-297 | one round: a file or link becomes its entry and line, or is refused as unpackable |
| `Pack.EntryReadsBack` | crates/ost-build/src/package.rs:236-306 | the consumer reads the packer's line off the packed entry |
| `Pack.PackedArchiveVerifies` | crates/ost-build/src/package.rs:236-306 | for every stage of distinct safe paths the walk finds exactly the packer's lines, nothing is unsafe and the comparison passes |
| `Links.GateIsExact` | crates/ost-artifact/src/store.rs:1196-1233 | for any links of which none has a target that climbs out of a link: no link, followed link by link, leads outside if and only if no target's text climbs above the root |
| `Links.ArchiveContainedExactly` | crates/ost-artifact/src/store.rs:983-1233 | on every host, with nothing beneath a link and no target that climbs out of one, every entry lands at its own path as the host reads it, and all links stay inside if and only if the last link of each place does when measured from that path without dots |
| `Links.ContainedExactly` | crates/ost-artifact/src/store.rs:1196-1233 | for any links at all: no link, followed link by link, leads outside if and only if every target stays inside when each of its `..` leaves the directory really reached |
| `Links.UnpackedStaysExactly` | crates/ost-artifact/src/store.rs:983-1233 | for every archive on every host, without condition: no path without `..` leads out of the unpacked links if and only if every target stays inside in that sense, from the place where its link has landed |
| `Links.UnpackedContainedExactly` | crates/ost-artifact/src/store.rs:983-1233 | on every host, links beneath links included: if no unpacked link climbs out of a link, all stay inside if and only if no target climbs out of the place where its link has landed |
| `Links.ContainedMeansNoWayOut` | crates/ost-artifact/src/store.rs:983-1233 | for every archive on every host, its unpacked links stay inside if and only if no path without `..`, followed from the root, leads out |
| `Links.AcceptedArchiveContains` | crates/ost-artifact/src/store.rs:983-1233 | so in such an archive no path without `..` leads out of the unpacked links, however many are followed; for the measure it suffices that the gate reads every link as the host does: no dot in its path and, where `\` does not separate, none in path or target |
| `Links.LeadingClimbsSuffice` | crates/ost-artifact/src/store.rs:983-1233 | if every accepted target, as the host reads it, has its `..` first, such as `../lib/x`, no unpacked link climbs out of a link, wherever it lands |
| `Links.UnpackedIsGrounded` | crates/ost-artifact/src/store.rs:983-1008 | whatever the archive and the host, every link lands in a directory that is reached without following a link |
| `LinkExamples.DottedLinkLeadsOut` | crates/ost-artifact/src/store.rs:1216-1233 | an accepted one-link archive with a dot in the link's path that leads out |
| `LinkExamples.BackslashedLinkLeadsOut` | crates/ost-artifact/src/store.rs:983-1104 | an accepted one-link archive with a `\` in the link's name: it stays inside where that separates components and leads out where it does not |
| `LinkExamples.ChainedLinkLeadsOut` | crates/ost-artifact/src/store.rs:1203-1233 | an accepted two-link archive in which one target climbs out of the other link and leads out |
| `LinkExamples.NestedLinkLeadsOut` | crates/ost-artifact/src/store.rs:983-1233 | an accepted two-link archive in which the link beneath the other lands in the root and leads out, although by its path it stays inside |
| `GlibcScan.ScanFile` | crates/ost-build/src/glibc.rs:82-127 | the chunk loop over short reads computes the windowed maximum |
| `GlibcScan.Reader.ReadFull` | crates/ost-build/src/glibc.rs:183-194 | only the end of the file makes a read shorter than asked for |
| `GlibcScan.ScanWindow` | crates/ost-build/src/glibc.rs:131-141 | skipping past each prefix folds in every version of the window |
| `GlibcScan.Find` | crates/ost-build/src/glibc.rs:175-180 | the first prefix at or behind a place, or none at all |
| `GlibcScan.ParseVersion` | crates/ost-build/src/glibc.rs:145-150 | major and minor of one to six digits each, or nothing |
| `GlibcScan.TakeNumber` | crates/ost-build/src/glibc.rs:154-172 | the number of a run of one to six digits, without 32-bit overflow |
| `GlibcScan.PrefixesDoNotOverlap` | crates/ost-build/src/glibc.rs:138-139 | two occurrences of the prefix never overlap |
| `Glibc.NineteenSuffice` | crates/ost-build/src/glibc.rs:35-37 | nineteen bytes show a whole version, so the carry is long enough |
| `Glibc.CutShowsLess` | crates/ost-build/src/glibc.rs:145-172 | what a cut window shows of a place is at most what the file shows, unless it cuts an overlong minor number |
| `GlibcScan.ScanMissesNothing` | crates/ost-build/src/glibc.rs:82-127 | for any bytes the scan returns at least the maximum over the whole file |
| `GlibcScan.ScanExactly` | crates/ost-build/src/glibc.rs:82-172 | for any bytes it returns the whole file's maximum or the greatest stump of an overlong minor number at a chunk boundary, whichever is greater |
| `GlibcScan.ScanIsMaximumIff` | crates/ost-build/src/glibc.rs:82-172 | it returns the maximum if and only if no such stump exceeds it |
| `GlibcScan.ShortMinorsScanExactly` | crates/ost-build/src/glibc.rs:82-172 | in particular whenever no minor number has more than six digits |
| `GlibcScan.OverlongMinorIsMisread` | crates/ost-build/src/glibc.rs:108-126 | a file without any version for which the scan reports one |
| `GlibcScan.MaxGlibcFloor` | crates/ost-build/src/glibc.rs:66-77 | no file references a version above the floor, and the floor is some file's |
| `MachOScan.ScanThin` | crates/ost-build/src/macho.rs:225-269 | the command loop computes the specified walk |
| `MachOScan.FatSliceOffsets` | crates/ost-build/src/macho.rs:180-201 | the slice table of both shapes, ended by truncation, capped at 64 |
| `MachOScan.ScanImage` | crates/ost-build/src/macho.rs:208-222 | the floor of a whole image in memory |
| `MachOScan.ScanFile` | crates/ost-build/src/macho.rs:130-172 | the windowed floor: head of the file, or head of each slice at its own offset |
| `MachOScan.HeadHoldsTable` | crates/ost-build/src/macho.rs:146-159 | the head always shows the whole slice table |
| `MachOScan.MaxMacosFloor` | crates/ost-build/src/macho.rs:119-128 | every file's report is at most the floor, whose parts are some file's |
| `MachO.WalkStaysInside` | crates/ost-build/src/macho.rs:235-267 | every visited command lies in the buffer, the walk moves forward by at least eight bytes and so ends, whatever number of commands is announced |
| `MachO.ThinIsMaximum` | crates/ost-build/src/macho.rs:102-113 | the floor is the maximum over all visited version commands |
| `MachO.WindowedFloorExactly` | crates/ost-build/src/macho.rs:130-269 | the whole-image floor is the reported one raised by the visited commands that reach past the window of their slice; so the report is never above, and equal if and only if none of those exceeds it |
| `MachO.FittingFloorIsExact` | crates/ost-build/src/macho.rs:130-269 | it is equal whenever every visited command, with its fields, lies in the first 2^20 bytes of its slice |
| `MachO.FarCommandIsMissed` | crates/ost-build/src/macho.rs:130-172 | an image that asks for macOS 11 in a command past the window, for which the report is empty |
| `MachO.ContributionInWindow` | crates/ost-build/src/macho.rs:246-265 | a window shows a command's versions in full if it holds its fields and less otherwise |
| `Reference.OciExactly` | crates/ost-artifact/src/reference.rs:95-178 | a text is accepted as an `oci://` reference if and only if the reference is well formed and the text is its locator |
| `Reference.OciLocator` | crates/ost-artifact/src/reference.rs:167-178 | pushing the parts builds the canonical locator |
| `Reference.FileReadsBackIff` | crates/ost-artifact/src/reference.rs:204-227 | a `file://` reference is printed and read back unchanged if and only if its path is not empty and not a slashed drive path |
| `Reference.ParseIsStable` | crates/ost-artifact/src/reference.rs:45-80 | whatever was accepted is accepted again in its printed form as the same reference; for `oci://` the printed form is the input |
| `Text.SplitOnceAt` | crates/ost-artifact/src/reference.rs:104-118 | a text has one way to be cut at its first separator |
| `Text.RSplitOnceAt` | crates/ost-artifact/src/reference.rs:135-142 | and one at its last |
| `Policy.Validate` | crates/ost-artifact/src/policy.rs:205-253 | validation accepts exactly the policies with well-formed, distinct publishers and namespaces whose allowed publishers exist and are trusted enough, and otherwise reports the first fault: schema, publishers, namespaces, each in order |
| `Policy.ValidatePublishers` | crates/ost-artifact/src/policy.rs:217-226 | the loop with its id set accepts exactly well-formed publishers with distinct ids, and otherwise reports the first one's fault |
| `Policy.ValidateNamespaces` | crates/ost-artifact/src/policy.rs:228-251 | the loop with its name set accepts exactly well-formed, satisfiable namespaces with distinct names, and otherwise reports the first one's fault |
| `Policy.ValidatePublisher` | crates/ost-artifact/src/policy.rs:469-500 | accepts exactly publishers without an empty field, with a workflow file and with ref patterns that have no star but a trailing one; otherwise the first of these faults, the first bad pattern included |
| `Policy.RefPatternExactly` | crates/ost-artifact/src/policy.rs:490-498 | counting stars finds exactly the patterns without a star before their last character |
| `Policy.NamespaceExactly` | crates/ost-artifact/src/policy.rs:578-610 | `is_namespace` accepts exactly `host[:port]/component/…` over its character sets, with a port from 1 to 65535; its tests for case, `://`, `@` and a trailing slash add nothing |
| `Policy.ContainsBySegments` | crates/ost-artifact/src/policy.rs:612-617 | for any two texts, containment is being a prefix segment by segment |
| `Policy.ProtectedExactly` | crates/ost-artifact/src/policy.rs:260-265 | in a policy with distinct names the chosen namespace is the one that every other namespace around the destination contains; there is none only if none contains it |
| `Policy.ProtectedIgnoresOrder` | crates/ost-artifact/src/policy.rs:260-265 | the choice does not depend on the order of declaration |
| `Policy.ContainersAreNested` | crates/ost-artifact/src/policy.rs:612-617 | of two namespaces around one destination the shorter contains the longer |
| `Policy.Authorize` | crates/ost-artifact/src/policy.rs:269-298 | on a validated policy no unknown publisher is met; only unprotected destinations go free; refusal exactly if no allowed publisher matches; an authorization names the most specific namespace and its first allowed, matching publisher, of at least its minimum trust |
| `CMake.ParseCache` | crates/ost-build/src/external.rs:99-117 | the line loop collects the specified entries, later ones overriding, and every value is one line |
| `CMake.ParseCmakeSets` | crates/ost-build/src/external.rs:731-754 | the same for `set(KEY VALUE)` lines |
| `CMake.IdentityMaterial` | crates/ost-build/src/external.rs:145-168 | the text that is hashed is one line per applicable key followed by the compiler part |
| `CMake.MaterialExactly` | crates/ost-build/src/external.rs:145-168 | two caches have the same material if and only if every applicable key and the compiler metadata show the same |
| `CMake.ShownDetermines` | crates/ost-build/src/external.rs:134-138 | apart from the literal `<absent>`, showing the same is being both absent or both present and equal |
| `CMake.ParsedMaterialExactly` | crates/ost-build/src/external.rs:99-168 | for any two cache texts with any compiler metadata, none of whose identity values is that literal: same material if and only if every applicable key agrees in presence and value, and so does the metadata |
| `CMake.AbsentLiteralCollides` | crates/ost-build/src/external.rs:134-168 | two cache texts, one of which names its generator `<absent>`, with the same material |
| `CMake.VerifiesExactly` | crates/ost-build/src/external.rs:426-638 | a record that the import, with all its refusals, made from one tree verifies against another if and only if directory, shown identity and runtime are the same |
| `CMake.FirstVersionVerifiesExactly` | crates/ost-build/src/external.rs:170-638 | the same for a record of the first version, over its fewer keys and without compiler metadata |
| `CMake.VerifiedTreeIsImportable` | crates/ost-build/src/external.rs:426-638 | a tree without the literal that verifies could itself be imported for the same use, with the same record: verification lets nothing through that the import refuses |
| `CMake.WithinExactly` | crates/ost-build/src/external.rs:774-805 | the runtime test is containment by components in the host's own comparison |
| `CMake.FreshImportVerifies` | crates/ost-build/src/external.rs:588-638 | a fresh import verifies against its own tree |

## Left out

- Concurrent imports into one store: the index read-modify-write is unlocked, and an import that loses the rename race upserts its own record; the store model is one process at a time.
- I/O errors part-way through an import, a partial `remove_dir_all`, and damage to files from outside the store.
- `verify`, `extract` and `list` of the store, legacy record migration, and the record fields that are not identities (kind, name, version, target, component): field copying without further laws.
- ArtifactStore.ArtifactStore.Import: stands for one dist directory given as a map; locating the manifest, and the creation time as a clock, are parameters.
- StoreCoherence.RunCoherent: is about runs whose dist directories are well named and meet no hash collision and of which no import tears the store; the tearing imports are characterised by `ImportCoherent`.
- StoreTransfer.ExportThenImport: compares everything but the record's creation time, which the second import sets anew.
- Provenance fields beyond subject, repository, revision and composition, and the builder allow-list that a policy adds.
- `validate_build_dependencies`, `generate_evidence`'s file writing and environment probing.
- OpenUSD compatibility and verification internals: equality is opaque.
- The Windows side of the lease (share modes), its timeout and retry timing, and read-only attachment; liveness, host name and machine are state of the model.
- Lease.StepKeepsInv: a lease file that cannot be read back (`read_owner_from` failing on seek or read) is not a step; the code takes it for a blank one.
- Lease.OwnerExitedIsTrue: speaks about the judging machine; a host that shares its name with another is told apart by the model's `machine`, which the code cannot see.
- ZipReader.PackedReadsBack: asks for an archive below 2^64 bytes, the largest a ZIP64 field can describe; CRC-32 is an arbitrary function, and the writer's 64 KiB reading loop is the contents as a whole.
- `pack_npm_tgz`, gzip, zstd and the tar encoding: a tar archive is the sequence of its typed entries; pack options beyond overrides and executable paths (time stamps, workers, level, progress).
- WheelRecord.Render: the `?` on `decode_hex` is never taken because the digest text is the hexadecimal text of the digest.
- GlibcScan.ScanFile: the file is open and regular; metadata checks, `Interrupted` retries and read errors are left out.
- MachOScan.ScanFile: a failing seek and read errors are left out; an offset past the end reads nothing.
- The policy file's TOML, its discovery, OIDC token fetching and claim checks.
- Links.UnpackedStaysExactly: links, and the directories on the way to them, are all of the file system that is modelled: no missing or occupied directory stops the unpacking. Absolute targets, which the gate refuses, are not followed. The unpacker is not part of this model.
- Reference.ParseIsStable: compares paths as text, where the path type also equates texts that differ in redundant separators.
- CMake.VerifiesExactly: asks that the two given materials do not collide under the hash; the record's descriptive fields (toolchain, requirements, Python) that verification never looks at are left out.
- The CI templates, the CLI, Python and MSVC probing, toolchain, lock file and preset rendering: string templates and process spawning.
