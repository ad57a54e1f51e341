/** The content-addressed artifact store of crates/ost-artifact/src/store.rs.

    An object directory maps file names to files; the store is the object directories plus the index.
    Parsing and hashing are the fields of `Env`, so every statement holds for every parser and every
    (collision-free) hash.  An import is a fixed sequence of atomic writes (`rename`, `write_atomic`);
    the directory after each of them is a function of its own, so that every point at which the process
    can be cut off is a value the lemmas can speak about. */
module Store {
  import opened Prelude
  import opened Text
  import opened Evidence
  import opened Order

  type Name = string

  const RECORD_FILE := "record.json"
  const MANIFEST_FILE := "manifest.json"
  const SUMS_FILE := "SHA256SUMS"
  const SBOM_FILE := "sbom.spdx.json"
  const PROVENANCE_FILE := "provenance.intoto.jsonl"

  /** The four producer identities a record normalises from its manifest. */
  datatype Identity = Identity(
    source: Option<Source>,
    dependencies: seq<Dependency>,
    openusd: Option<string>,
    verification: Option<string>)

  datatype DebugArchive = DebugArchive(archive: Name, hex: Hex, size: nat)

  /** A parsed producer manifest. `composition` is what a composed runtime's provenance must bind. */
  datatype Manifest = Manifest(
    hex: Hex,
    archive: Name,
    size: nat,
    debug: Option<DebugArchive>,
    composition: Option<Composition>,
    identity: Identity)

  /** The digest and size of a sidecar; its path is always the fixed sidecar name. */
  datatype EvidenceDigest = EvidenceDigest(hex: Hex, size: nat)

  datatype ArtifactRecord = ArtifactRecord(
    hex: Hex,
    archive: Name,
    size: nat,
    created: nat,
    identity: Identity,
    sbom: Option<EvidenceDigest>,
    provenance: Option<EvidenceDigest>)

  datatype SumLine = SumLine(hex: Hex, name: Name)

  datatype File = Data(bytes: seq<byte>) | RecordDoc(record: ArtifactRecord) | SumsDoc(lines: seq<SumLine>)

  type Directory = map<Name, File>

  datatype Env = Env(
    hash: File -> Hex,
    size: File -> nat,
    manifest: File -> Option<Manifest>,
    sbom: File -> Option<Sbom>,
    provenance: File -> Option<seq<Statement>>)

  datatype State = State(objects: map<Hex, Directory>, index: seq<ArtifactRecord>)

  const EMPTY: State := State(map[], [])

  datatype ImportError =
    | NoManifest | InvalidManifest | SbomRefused | ProvenanceRefused | NoArchive | DigestMismatch | DebugMismatch
    | IdentityConflict | EvidenceIncomplete | EvidenceDigestMismatch | Io

  // ---------------------------------------------------------------------------------------
  // Taking in a dist directory (store.rs:168-238)
  // ---------------------------------------------------------------------------------------

  /** What an import has verified about its dist directory before it looks at the store. */
  datatype Incoming = Incoming(
    file: File,
    manifest: Manifest,
    record: ArtifactRecord,
    archive: File,
    debug: Option<File>,
    sbom: Option<File>,
    provenance: Option<File>)

  function EvidenceOf(env: Env, f: File): EvidenceDigest {
    EvidenceDigest(env.hash(f), env.size(f))
  }

  function InDist(dist: Directory, name: Name): Option<File> {
    if name in dist then Some(dist[name]) else None
  }

  predicate SbomAccepted(env: Env, f: File, hex: Hex, dependencies: seq<Dependency>) {
    env.sbom(f).Some? && VerifySbom(env.sbom(f).value, hex, dependencies).Ok?
  }

  predicate ProvenanceAccepted(env: Env, f: File, m: Manifest) {
    && env.provenance(f).Some?
    && VerifyProvenance(env.provenance(f).value, m.identity.source, m.composition, m.hex).Ok?
  }

  /** `verify_archive_claim`. */
  predicate ClaimHolds(env: Env, dir: Directory, d: DebugArchive) {
    d.archive in dir && env.hash(dir[d.archive]) == d.hex && env.size(dir[d.archive]) == d.size
  }

  /** `verify_evidence_digest`. */
  predicate EvidenceHolds(env: Env, dir: Directory, name: Name, e: EvidenceDigest) {
    name in dir && EvidenceOf(env, dir[name]) == e
  }

  function EvidenceIn(env: Env, f: Option<File>): Option<EvidenceDigest> {
    if f.Some? then Some(EvidenceOf(env, f.value)) else None
  }

  function Receive(env: Env, dist: Directory, now: nat): Result<Incoming, ImportError> {
    if MANIFEST_FILE !in dist then Err(NoManifest)
    else if env.manifest(dist[MANIFEST_FILE]).None? then Err(InvalidManifest)
    else
      var m := env.manifest(dist[MANIFEST_FILE]).value;
      var sbom, provenance := InDist(dist, SBOM_FILE), InDist(dist, PROVENANCE_FILE);
      if sbom.Some? && !SbomAccepted(env, sbom.value, m.hex, m.identity.dependencies) then Err(SbomRefused)
      else if provenance.Some? && !ProvenanceAccepted(env, provenance.value, m) then Err(ProvenanceRefused)
      else if m.archive !in dist then Err(NoArchive)
      else if env.hash(dist[m.archive]) != m.hex || env.size(dist[m.archive]) != m.size then Err(DigestMismatch)
      else if m.debug.Some? && !ClaimHolds(env, dist, m.debug.value) then Err(DebugMismatch)
      else
        Ok(Incoming(dist[MANIFEST_FILE], m,
                    ArtifactRecord(m.hex, m.archive, m.size, now, m.identity,
                                   EvidenceIn(env, sbom), EvidenceIn(env, provenance)),
                    dist[m.archive],
                    if m.debug.Some? then InDist(dist, m.debug.value.archive) else None,
                    sbom, provenance))
  }

  // ---------------------------------------------------------------------------------------
  // Producer identities (store.rs:258-364)
  // ---------------------------------------------------------------------------------------

  predicate Conflicting<T(==)>(stored: Option<T>, incoming: Option<T>, evidence: bool) {
    stored.Some? && (if incoming.Some? then stored != incoming else evidence)
  }

  predicate DependenciesConflict(stored: seq<Dependency>, incoming: seq<Dependency>, evidence: bool) {
    stored != [] && (if incoming == [] then evidence else stored != incoming)
  }

  predicate Conflict(stored: Identity, incoming: Identity, evidence: bool) {
    || Conflicting(stored.source, incoming.source, evidence)
    || DependenciesConflict(stored.dependencies, incoming.dependencies, evidence)
    || Conflicting(stored.openusd, incoming.openusd, evidence)
    || Conflicting(stored.verification, incoming.verification, evidence)
  }

  predicate Adds<T(==)>(stored: Option<T>, incoming: Option<T>) {
    stored.None? && incoming.Some?
  }

  predicate AddsDependencies(stored: seq<Dependency>, incoming: seq<Dependency>) {
    stored == [] && incoming != []
  }

  predicate EnrichmentRequested(stored: Identity, incoming: Identity) {
    || Adds(stored.source, incoming.source)
    || AddsDependencies(stored.dependencies, incoming.dependencies)
    || Adds(stored.openusd, incoming.openusd)
    || Adds(stored.verification, incoming.verification)
  }

  /** Provenance binds a source, an SBOM the dependencies; nothing binds the OpenUSD identities. */
  predicate EnrichmentBound(stored: Identity, incoming: Identity, sbom: bool, provenance: bool) {
    && (Adds(stored.source, incoming.source) ==> provenance)
    && (AddsDependencies(stored.dependencies, incoming.dependencies) ==> sbom)
    && !Adds(stored.openusd, incoming.openusd)
    && !Adds(stored.verification, incoming.verification)
  }

  function Filled<T>(stored: Option<T>, incoming: Option<T>): Option<T> {
    if stored.None? then incoming else stored
  }

  function Enriched(stored: Identity, incoming: Identity): Identity {
    Identity(Filled(stored.source, incoming.source),
             if stored.dependencies == [] then incoming.dependencies else stored.dependencies,
             Filled(stored.openusd, incoming.openusd),
             Filled(stored.verification, incoming.verification))
  }

  // ---------------------------------------------------------------------------------------
  // Re-import into an object directory that already has a record (store.rs:242-480)
  // ---------------------------------------------------------------------------------------

  /** An object directory the re-import path can read. */
  predicate Readable(dir: Directory) {
    RECORD_FILE in dir && dir[RECORD_FILE].RecordDoc? && MANIFEST_FILE in dir
  }

  function RecordIn(dir: Directory): ArtifactRecord
    requires Readable(dir)
  {
    dir[RECORD_FILE].record
  }

  /** The incoming manifest is, byte for byte, the stored one. */
  predicate SameManifest(dir: Directory, inc: Incoming)
    requires Readable(dir)
  {
    dir[MANIFEST_FILE] == inc.file
  }

  predicate HasEvidence(inc: Incoming) {
    inc.sbom.Some? || inc.provenance.Some?
  }

  /** The two refusals that come before anything is written. */
  function Refusal(dir: Directory, inc: Incoming): Option<ImportError>
    requires Readable(dir)
  {
    var stored, incoming := RecordIn(dir).identity, inc.record.identity;
    if Conflict(stored, incoming, HasEvidence(inc)) then Some(IdentityConflict)
    else if !SameManifest(dir, inc) && HasEvidence(inc) && EnrichmentRequested(stored, incoming)
            && !EnrichmentBound(stored, incoming, inc.sbom.Some?, inc.provenance.Some?)
    then Some(EvidenceIncomplete)
    else None
  }

  predicate Enriches(dir: Directory, inc: Incoming)
    requires Readable(dir)
  {
    var stored, incoming := RecordIn(dir).identity, inc.record.identity;
    && EnrichmentRequested(stored, incoming)
    && (SameManifest(dir, inc) || EnrichmentBound(stored, incoming, inc.sbom.Some?, inc.provenance.Some?))
  }

  function NewIdentity(dir: Directory, inc: Incoming): Identity
    requires Readable(dir)
  {
    if Enriches(dir, inc) then Enriched(RecordIn(dir).identity, inc.record.identity) else RecordIn(dir).identity
  }

  predicate AlreadyBound(stored: Option<EvidenceDigest>, incoming: EvidenceDigest, dir: Directory, name: Name) {
    stored.Some? && stored.value.hex == incoming.hex && name in dir
  }

  /** `checksum_contents`. */
  function Checksums(r: ArtifactRecord, debug: Option<DebugArchive>): seq<SumLine> {
    [SumLine(r.hex, r.archive)]
    + (if debug.Some? then [SumLine(debug.value.hex, debug.value.archive)] else [])
    + (if r.sbom.Some? then [SumLine(r.sbom.value.hex, SBOM_FILE)] else [])
    + (if r.provenance.Some? then [SumLine(r.provenance.value.hex, PROVENANCE_FILE)] else [])
  }

  /** The copying half of `materialize_debug_archive`. */
  function Materialized(dir: Directory, inc: Incoming): Directory {
    if inc.manifest.debug.Some? && inc.debug.Some? && inc.manifest.debug.value.archive !in dir
    then dir[inc.manifest.debug.value.archive := inc.debug.value]
    else dir
  }

  // The object directory after each atomic write, in order.

  /** Same manifest: the promised debug archive is put back if missing. */
  function D1(dir: Directory, inc: Incoming): Directory
    requires Readable(dir)
  {
    if SameManifest(dir, inc) then Materialized(dir, inc) else dir
  }

  /** Same manifest with a debug archive: the checksum file is rewritten. */
  function D2(dir: Directory, inc: Incoming): Directory
    requires Readable(dir)
  {
    if SameManifest(dir, inc) && inc.manifest.debug.Some?
    then D1(dir, inc)[SUMS_FILE := SumsDoc(Checksums(RecordIn(dir), inc.manifest.debug))]
    else D1(dir, inc)
  }

  predicate AttachesSbom(env: Env, dir: Directory, inc: Incoming)
    requires Readable(dir)
  {
    inc.sbom.Some? && !AlreadyBound(RecordIn(dir).sbom, EvidenceOf(env, inc.sbom.value), D2(dir, inc), SBOM_FILE)
  }

  function D3(env: Env, dir: Directory, inc: Incoming): Directory
    requires Readable(dir)
  {
    if AttachesSbom(env, dir, inc) then D2(dir, inc)[SBOM_FILE := inc.sbom.value] else D2(dir, inc)
  }

  predicate AttachesProvenance(env: Env, dir: Directory, inc: Incoming)
    requires Readable(dir)
  {
    inc.provenance.Some?
    && !AlreadyBound(RecordIn(dir).provenance, EvidenceOf(env, inc.provenance.value),
                     D3(env, dir, inc), PROVENANCE_FILE)
  }

  /** The incoming manifest replaces the stored one. */
  predicate Commits(env: Env, dir: Directory, inc: Incoming)
    requires Readable(dir)
  {
    !SameManifest(dir, inc) && (AttachesProvenance(env, dir, inc) || Enriches(dir, inc))
  }

  /** The record is rewritten. */
  predicate Rewrites(env: Env, dir: Directory, inc: Incoming)
    requires Readable(dir)
  {
    AttachesSbom(env, dir, inc) || AttachesProvenance(env, dir, inc) || Enriches(dir, inc)
  }

  function NewRecord(env: Env, dir: Directory, inc: Incoming): ArtifactRecord
    requires Readable(dir)
  {
    var existing := RecordIn(dir).(identity := NewIdentity(dir, inc));
    if Rewrites(env, dir, inc) then
      existing.(sbom := if inc.sbom.Some? then inc.record.sbom else existing.sbom,
                provenance := if inc.provenance.Some? then inc.record.provenance else existing.provenance)
    else existing
  }

  // The object directory after the remaining writes.

  function D4(env: Env, dir: Directory, inc: Incoming): Directory
    requires Readable(dir)
  {
    if AttachesProvenance(env, dir, inc) then D3(env, dir, inc)[PROVENANCE_FILE := inc.provenance.value]
    else D3(env, dir, inc)
  }

  function D5(env: Env, dir: Directory, inc: Incoming): Directory
    requires Readable(dir)
  {
    if Commits(env, dir, inc) then Materialized(D4(env, dir, inc), inc) else D4(env, dir, inc)
  }

  function D6(env: Env, dir: Directory, inc: Incoming): Directory
    requires Readable(dir)
  {
    if Commits(env, dir, inc) then D5(env, dir, inc)[MANIFEST_FILE := inc.file] else D5(env, dir, inc)
  }

  function D7(env: Env, dir: Directory, inc: Incoming): Directory
    requires Readable(dir)
  {
    if Rewrites(env, dir, inc) then D6(env, dir, inc)[RECORD_FILE := RecordDoc(NewRecord(env, dir, inc))]
    else D6(env, dir, inc)
  }

  /** The debug archive of the manifest that is on disk at the end. */
  function CommittedDebug(env: Env, dir: Directory, inc: Incoming): Option<DebugArchive>
    requires Readable(dir)
  {
    if SameManifest(dir, inc) || Commits(env, dir, inc) then inc.manifest.debug
    else if env.manifest(dir[MANIFEST_FILE]).Some? then env.manifest(dir[MANIFEST_FILE]).value.debug
    else None
  }

  function D8(env: Env, dir: Directory, inc: Incoming): Directory
    requires Readable(dir)
  {
    if Rewrites(env, dir, inc)
    then D7(env, dir, inc)[SUMS_FILE := SumsDoc(Checksums(NewRecord(env, dir, inc), CommittedDebug(env, dir, inc)))]
    else D7(env, dir, inc)
  }

  /** The directory after the first `k` writes. */
  function DirAfter(k: nat, env: Env, dir: Directory, inc: Incoming): Directory
    requires Readable(dir)
  {
    if k == 0 then dir
    else if k == 1 then D1(dir, inc)
    else if k == 2 then D2(dir, inc)
    else if k == 3 then D3(env, dir, inc)
    else if k == 4 then D4(env, dir, inc)
    else if k == 5 then D5(env, dir, inc)
    else if k == 6 then D6(env, dir, inc)
    else if k == 7 then D7(env, dir, inc)
    else D8(env, dir, inc)
  }

  datatype Stop = Stop(writes: nat, error: ImportError)

  predicate RepairFails(env: Env, dir: Directory, inc: Incoming)
    requires Readable(dir)
  {
    SameManifest(dir, inc) && inc.manifest.debug.Some? && !ClaimHolds(env, D1(dir, inc), inc.manifest.debug.value)
  }

  predicate SbomFails(env: Env, dir: Directory, inc: Incoming)
    requires Readable(dir)
  {
    && inc.sbom.Some? && !AttachesSbom(env, dir, inc)
    && !EvidenceHolds(env, D2(dir, inc), SBOM_FILE, EvidenceOf(env, inc.sbom.value))
  }

  predicate ProvenanceFails(env: Env, dir: Directory, inc: Incoming)
    requires Readable(dir)
  {
    && inc.provenance.Some? && !AttachesProvenance(env, dir, inc)
    && !EvidenceHolds(env, D3(env, dir, inc), PROVENANCE_FILE, EvidenceOf(env, inc.provenance.value))
  }

  predicate CommitFails(env: Env, dir: Directory, inc: Incoming)
    requires Readable(dir)
  {
    && Commits(env, dir, inc) && inc.manifest.debug.Some?
    && !ClaimHolds(env, D5(env, dir, inc), inc.manifest.debug.value)
  }

  predicate StoredManifestFails(env: Env, dir: Directory, inc: Incoming)
    requires Readable(dir)
  {
    && Rewrites(env, dir, inc) && !SameManifest(dir, inc) && !Commits(env, dir, inc)
    && env.manifest(dir[MANIFEST_FILE]).None?
  }

  /** The failure, if any, that ends a re-import after some of its writes. */
  function Failure(env: Env, dir: Directory, inc: Incoming): Option<Stop>
    requires Readable(dir)
  {
    if RepairFails(env, dir, inc) then Some(Stop(1, DebugMismatch))
    else if SbomFails(env, dir, inc) then Some(Stop(2, EvidenceDigestMismatch))
    else if ProvenanceFails(env, dir, inc) then Some(Stop(3, EvidenceDigestMismatch))
    else if CommitFails(env, dir, inc) then Some(Stop(5, DebugMismatch))
    else if StoredManifestFails(env, dir, inc) then Some(Stop(7, InvalidManifest))
    else None
  }

  // ---------------------------------------------------------------------------------------
  // A fresh object directory (store.rs:482-532) and the index (store.rs:798-817)
  // ---------------------------------------------------------------------------------------

  /** The staged directory, written in the source's order (a later file of the same name wins). */
  function Staged(inc: Incoming): Directory {
    var d: Directory := map[inc.manifest.archive := inc.archive][MANIFEST_FILE := inc.file];
    var d := if inc.manifest.debug.Some? && inc.debug.Some? then d[inc.manifest.debug.value.archive := inc.debug.value] else d;
    var d := if inc.sbom.Some? then d[SBOM_FILE := inc.sbom.value] else d;
    var d := if inc.provenance.Some? then d[PROVENANCE_FILE := inc.provenance.value] else d;
    d[SUMS_FILE := SumsDoc(Checksums(inc.record, inc.manifest.debug))][RECORD_FILE := RecordDoc(inc.record)]
  }

  predicate RecordLess(a: ArtifactRecord, b: ArtifactRecord) {
    StringLess(a.hex, b.hex)
  }

  /** `retain(|r| r.digest != hex)`. */
  function Without(index: seq<ArtifactRecord>, hex: Hex): seq<ArtifactRecord> {
    if index == [] then []
    else (if index[0].hex == hex then [] else [index[0]]) + Without(index[1..], hex)
  }

  /** `index_upsert`: retain, push, sort. */
  function Upsert(index: seq<ArtifactRecord>, r: ArtifactRecord): seq<ArtifactRecord> {
    Sort(RecordLess, Without(index, r.hex) + [r])
  }

  // ---------------------------------------------------------------------------------------
  // The operations
  // ---------------------------------------------------------------------------------------

  datatype Outcome = Outcome(state: State, result: Result<ArtifactRecord, ImportError>)

  /** The store after an import that runs to its end, be it success or failure. */
  function Import(env: Env, st: State, dist: Directory, now: nat): Outcome {
    var received := Receive(env, dist, now);
    if received.Err? then Outcome(st, Err(received.error))
    else
      var inc := received.value;
      var hex := inc.record.hex;
      if hex in st.objects && RECORD_FILE in st.objects[hex] then
        if !Readable(st.objects[hex]) then Outcome(st, Err(Io))
        else Reimport(env, st, inc)
      else if hex in st.objects then Outcome(st, Err(Io))
      else Outcome(State(st.objects[hex := Staged(inc)], Upsert(st.index, inc.record)), Ok(inc.record))
  }

  function Reimport(env: Env, st: State, inc: Incoming): Outcome
    requires inc.record.hex in st.objects && Readable(st.objects[inc.record.hex])
  {
    var hex := inc.record.hex;
    var dir := st.objects[hex];
    if Refusal(dir, inc).Some? then Outcome(st, Err(Refusal(dir, inc).value))
    else if Failure(env, dir, inc).Some? then
      var stop := Failure(env, dir, inc).value;
      Outcome(st.(objects := st.objects[hex := DirAfter(stop.writes, env, dir, inc)]), Err(stop.error))
    else
      var r := NewRecord(env, dir, inc);
      Outcome(State(st.objects[hex := D8(env, dir, inc)], Upsert(st.index, r)), Ok(r))
  }

  /** The store when an import is cut off after `k` of its writes (the index write is its last). */
  function CutImport(env: Env, st: State, dist: Directory, now: nat, k: nat): State {
    var received := Receive(env, dist, now);
    if received.Err? then st
    else
      var inc := received.value;
      var hex := inc.record.hex;
      if hex in st.objects && RECORD_FILE in st.objects[hex] then
        if !Readable(st.objects[hex]) || Refusal(st.objects[hex], inc).Some? then st
        else
          var stop := Failure(env, st.objects[hex], inc);
          var done := if stop.Some? && stop.value.writes < k then stop.value.writes else k;
          st.(objects := st.objects[hex := DirAfter(done, env, st.objects[hex], inc)])
      else if hex in st.objects || k == 0 then st
      else st.(objects := st.objects[hex := Staged(inc)])
  }

  datatype ResolveError = NotAReference | Ambiguous | NotFound

  function Matching(index: seq<ArtifactRecord>, needle: string): seq<ArtifactRecord> {
    if index == [] then []
    else (if needle <= index[0].hex then [index[0]] else []) + Matching(index[1..], needle)
  }

  function Resolve(index: seq<ArtifactRecord>, reference: string): Result<ArtifactRecord, ResolveError> {
    var stripped := StripSha256(reference);
    var needle := if stripped.Some? then stripped.value else reference;
    if |needle| < 6 || exists i | 0 <= i < |needle| :: !IsHexDigit(needle[i]) then Err(NotAReference)
    else
      var found := Matching(index, Lowered(needle));
      if |found| == 0 then Err(NotFound) else if |found| == 1 then Ok(found[0]) else Err(Ambiguous)
  }

  /** `remove`: the index entry goes first, then the object directory. */
  function Remove(st: State, reference: string): State {
    var found := Resolve(st.index, reference);
    if found.Err? then st
    else State(st.objects - {found.value.hex}, Without(st.index, found.value.hex))
  }

  /** The store when a remove is cut off between its two writes. */
  function CutRemove(st: State, reference: string): State {
    var found := Resolve(st.index, reference);
    if found.Err? then st else st.(index := Without(st.index, found.value.hex))
  }

  datatype ExportError = Unresolved | Unreadable | WouldOverwrite | MissingFile | Corrupt

  /** The files an export copies, in order. */
  function ExportNames(r: ArtifactRecord, m: Manifest): seq<Name> {
    [r.archive]
    + (if m.debug.Some? then [m.debug.value.archive] else [])
    + (if r.sbom.Some? then [SBOM_FILE] else [])
    + (if r.provenance.Some? then [PROVENANCE_FILE] else [])
    + [MANIFEST_FILE, SUMS_FILE, RECORD_FILE]
  }

  function CopyAll(dir: Directory, names: seq<Name>, dest: Directory): Result<Directory, ExportError> {
    if names == [] then Ok(dest)
    else if names[0] in dest then Err(WouldOverwrite)
    else if names[0] !in dir then Err(MissingFile)
    else CopyAll(dir, names[1..], dest[names[0] := dir[names[0]]])
  }

  /** `export` into a destination directory; the copies are re-verified on the way out. */
  function Export(env: Env, st: State, reference: string, dest: Directory): Result<Directory, ExportError> {
    var found := Resolve(st.index, reference);
    if found.Err? then Err(Unresolved)
    else
      var r := found.value;
      if r.hex !in st.objects || MANIFEST_FILE !in st.objects[r.hex]
         || env.manifest(st.objects[r.hex][MANIFEST_FILE]).None? then Err(Unreadable)
      else
        var dir := st.objects[r.hex];
        var m := env.manifest(dir[MANIFEST_FILE]).value;
        var copied := CopyAll(dir, ExportNames(r, m), dest);
        if copied.Err? then copied
        else
          var out := copied.value;
          if r.archive !in out || env.hash(out[r.archive]) != r.hex then Err(Corrupt)
          else if m.debug.Some? && !ClaimHolds(env, out, m.debug.value) then Err(Corrupt)
          else if r.sbom.Some? && !EvidenceHolds(env, out, SBOM_FILE, r.sbom.value) then Err(Corrupt)
          else if r.provenance.Some? && !EvidenceHolds(env, out, PROVENANCE_FILE, r.provenance.value) then Err(Corrupt)
          else Ok(out)
  }
}
