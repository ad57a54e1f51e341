/** Small runs on which the store does not keep a promise, each the simplest of the family that the general results
    single out: a torn directory, packages that cannot be exported or cannot travel, and a stale checksum file. */
module StoreExamples {
  import opened Prelude
  import opened Evidence
  import opened Order
  import opened Store
  import opened StoreCoherence
  import opened StoreRerun
  import opened StoreTransfer

  // ---------------------------------------------------------------------------------------
  // A world of thirteen one-byte files
  // ---------------------------------------------------------------------------------------

  const ARCHIVE: File := Data([1])
  const PLAIN_SBOM: File := Data([2])
  const DEPENDENCY_SBOM: File := Data([3])
  const DEBUG: File := Data([4])
  const OTHER_DEBUG: File := Data([5])
  const PLAIN: File := Data([6])         // manifest: the archive alone
  const WITH_DEBUG: File := Data([7])    // manifest: a debug archive too
  const OTHER: File := Data([8])         // manifest: another debug archive of that name, and a dependency
  const RENAMED: File := Data([9])       // manifest: the archive under another name, and a dependency

  const SHADOWING: File := Data([10])    // manifest: the archive under another name, a debug archive under the old
  const COMPOSED: File := Data([11])     // manifest: a composed runtime
  const REFINED: File := Data([12])      // manifest: the same composed runtime, and a dependency
  const BINDING: File := Data([13])      // provenance of the composed runtime

  function Kind(f: File): nat {
    if f.Data? && |f.bytes| == 1 && f.bytes[0] < 16 then f.bytes[0] else 0
  }

  function HexDigit(n: nat): char
    requires n < 16
  {
    if n < 10 then '0' + n as char else 'a' + (n - 10) as char
  }

  function Digest(n: nat): Hex
    requires n < 16
  {
    seq(64, i => if i == 0 then HexDigit(n) else '0')
  }

  function WorldHash(f: File): Hex {
    Digest(Kind(f))
  }

  const DEPENDENCY: Dependency := Dependency("zlib", "1.3", Source("https://zlib.net", "v1.3"), None)

  const NO_IDENTITY: Identity := Identity(None, [], None, None)
  const NEW_IDENTITY: Identity := Identity(None, [DEPENDENCY], None, None)
  const SOURCE: Source := Source("https://example.org/runtime", "r1")
  const SOURCE_IDENTITY: Identity := Identity(Some(SOURCE), [], None, None)
  const REFINED_IDENTITY: Identity := Identity(Some(SOURCE), [DEPENDENCY], None, None)

  /** What the composed runtime's provenance is generated from, without and with the dependency. */
  function Composing(dependencies: seq<Dependency>): ProvenanceInput {
    ProvenanceInput(Digest(1), Some(SOURCE.repository), Some(SOURCE.revision), true, Some(Str("sha256:" + Digest(0))), dependencies)
  }

  // The manifests, for an archive called `a` or `b` and a debug archive called `d`.

  const PLAIN_MANIFEST: Manifest := Manifest(Digest(1), "a", 1, None, None, NO_IDENTITY)
  const DEBUG_MANIFEST: Manifest := Manifest(Digest(1), "a", 1, Some(DebugArchive("d", Digest(4), 1)), None, NO_IDENTITY)
  const OTHER_MANIFEST: Manifest := Manifest(Digest(1), "a", 1, Some(DebugArchive("d", Digest(5), 1)), None, NEW_IDENTITY)
  const RENAMED_MANIFEST: Manifest := Manifest(Digest(1), "b", 1, None, None, NEW_IDENTITY)

  const SHADOWING_MANIFEST: Manifest := Manifest(Digest(1), "b", 1, Some(DebugArchive("a", Digest(1), 1)), None, NEW_IDENTITY)
  const COMPOSED_MANIFEST: Manifest := Manifest(Digest(1), "a", 1, None, CompositionOf(Composing([])), SOURCE_IDENTITY)
  const REFINED_MANIFEST: Manifest := Manifest(Digest(1), "a", 1, None, CompositionOf(Composing([DEPENDENCY])), REFINED_IDENTITY)

  function WorldManifest(f: File): Option<Manifest> {
    match Kind(f)
    case 6 => Some(PLAIN_MANIFEST)
    case 7 => Some(DEBUG_MANIFEST)
    case 8 => Some(OTHER_MANIFEST)
    case 9 => Some(RENAMED_MANIFEST)
    case 10 => Some(SHADOWING_MANIFEST)
    case 11 => Some(COMPOSED_MANIFEST)
    case 12 => Some(REFINED_MANIFEST)
    case _ => None
  }

  function WorldSbom(f: File): Option<Sbom> {
    match Kind(f)
    case 2 => Some(SpdxDocument(SbomInput("runtime", "1", Digest(1), [])))
    case 3 => Some(SpdxDocument(SbomInput("runtime", "1", Digest(1), [DEPENDENCY])))
    case _ => None
  }

  function WorldProvenance(f: File): Option<seq<Statement>> {
    if Kind(f) == 13 then Some([ProvenanceStatement(Composing([]))]) else None
  }

  const WORLD: Env := Env(WorldHash, _ => 1, WorldManifest, WorldSbom, WorldProvenance)

  lemma WorldIsLawful()
    ensures Lawful(WORLD)
  {
    assert "a"[0] == 'a' && "b"[0] == 'b' && "d"[0] == 'd';
  }

  lemma SbomsAreAccepted()
    ensures SbomAccepted(WORLD, PLAIN_SBOM, Digest(1), [])
    ensures SbomAccepted(WORLD, DEPENDENCY_SBOM, Digest(1), [DEPENDENCY])
  {
    hide SpdxDocument, VerifySbom, Digest;
    GeneratedSbomVerifies(SbomInput("runtime", "1", Digest(1), []), []);
    GeneratedSbomVerifies(SbomInput("runtime", "1", Digest(1), [DEPENDENCY]), [DEPENDENCY]);
  }

  lemma DigestsDiffer(a: nat, b: nat)
    requires a < 16 && b < 16 && a != b
    ensures Digest(a) != Digest(b)
  {
    assert Digest(a)[0] == HexDigit(a) && Digest(b)[0] == HexDigit(b);
  }

  /** The names used here are different from each other and from the store's own. */
  lemma NamesDiffer()
    ensures !Reserved("a") && !Reserved("b") && !Reserved("d") && "a" != "b" && "a" != "d" && "b" != "d"
  {
    assert "a"[0] == 'a' && "b"[0] == 'b' && "d"[0] == 'd';
  }

  /** Taking in a dist directory whose claims are all true. */
  lemma TakenIn(env: Env, dist: Directory, now: nat, m: Manifest)
    requires MANIFEST_FILE in dist && env.manifest(dist[MANIFEST_FILE]) == Some(m)
    requires SBOM_FILE in dist ==> SbomAccepted(env, dist[SBOM_FILE], m.hex, m.identity.dependencies)
    requires PROVENANCE_FILE in dist ==> ProvenanceAccepted(env, dist[PROVENANCE_FILE], m)
    requires m.archive in dist && env.hash(dist[m.archive]) == m.hex && env.size(dist[m.archive]) == m.size
    requires m.debug.Some? ==> ClaimHolds(env, dist, m.debug.value)
    ensures
      var sbom, provenance := InDist(dist, SBOM_FILE), InDist(dist, PROVENANCE_FILE);
      Receive(env, dist, now) ==
        Ok(Incoming(dist[MANIFEST_FILE], m,
                    ArtifactRecord(m.hex, m.archive, m.size, now, m.identity, EvidenceIn(env, sbom), EvidenceIn(env, provenance)),
                    dist[m.archive], if m.debug.Some? then InDist(dist, m.debug.value.archive) else None, sbom, provenance))
  {
  }

  /** The first import into an empty store. */
  lemma FirstImport(dist: Directory)
    requires Receive(WORLD, dist, 0).Ok? && WellNamedDist(WORLD, dist)
    ensures var inc := Receive(WORLD, dist, 0).value;
      RunOps(WORLD, EMPTY, [ImportOp(dist, 0)]) == State(map[inc.record.hex := Staged(inc)], [inc.record])
    ensures Orderly(WORLD, EMPTY, [ImportOp(dist, 0)]) && Coherent(WORLD, RunOps(WORLD, EMPTY, [ImportOp(dist, 0)]))
  {
    hide Receive, WellNamedDist;
    var ops := [ImportOp(dist, 0)];
    assert ops[..0] == [];
    assert RunOps(WORLD, EMPTY, ops) == Do(WORLD, RunOps(WORLD, EMPTY, []), ops[0]);
    UpsertOne(Receive(WORLD, dist, 0).value.record);
    WorldIsLawful();
    assert Orderly(WORLD, EMPTY, ops[..0]);
    RunCoherent(WORLD, ops);
  }

  // ---------------------------------------------------------------------------------------
  // A torn directory
  // ---------------------------------------------------------------------------------------

  const BASE: Directory := map[MANIFEST_FILE := WITH_DEBUG, "a" := ARCHIVE, "d" := DEBUG, SBOM_FILE := PLAIN_SBOM]
  const CLASHING: Directory := map[MANIFEST_FILE := OTHER, "a" := ARCHIVE, "d" := OTHER_DEBUG, SBOM_FILE := DEPENDENCY_SBOM]

  /** What the second import of the example meets. */
  lemma StagedClash(env: Env, one: Incoming, two: Incoming)
    requires WellNamed(one.manifest) && WellNamed(two.manifest) && one.file != two.file
    requires one.archive == two.archive && one.record.archive == one.manifest.archive
    requires one.manifest.debug.Some? && two.manifest.debug.Some? && one.debug.Some?
    requires one.manifest.debug.value.archive == two.manifest.debug.value.archive != one.manifest.archive
    requires env.hash(one.debug.value) != two.manifest.debug.value.hex
    requires one.record.identity == NO_IDENTITY && two.record.identity == NEW_IDENTITY
    requires one.sbom.Some? && two.sbom.Some? && one.provenance.None? && two.provenance.None?
    requires one.record.sbom == EvidenceIn(env, one.sbom) && env.hash(one.sbom.value) != env.hash(two.sbom.value)
    ensures Readable(Staged(one)) && Refusal(Staged(one), two).None? && NoCollision(env, Staged(one), two)
    ensures DebugClash(env, Staged(one), two) && Overwrites(env, Staged(one), two)
  {
    var dir := Staged(one);
    assert RecordIn(dir) == one.record && dir[MANIFEST_FILE] == one.file && dir[SBOM_FILE] == one.sbom.value;
    assert dir[one.manifest.archive] == one.archive;
    assert two.manifest.debug.value.archive in dir && dir[two.manifest.debug.value.archive] == one.debug.value;
    hide Staged;
    assert Enriches(dir, two) && AttachesSbom(env, dir, two);
  }

  lemma BaseTakenIn()
    ensures Receive(WORLD, BASE, 0) ==
      Ok(Incoming(WITH_DEBUG, DEBUG_MANIFEST,
                  ArtifactRecord(Digest(1), "a", 1, 0, NO_IDENTITY, Some(EvidenceDigest(Digest(2), 1)), None),
                  ARCHIVE, Some(DEBUG), Some(PLAIN_SBOM), None))
  {
    hide Digest, SbomAccepted;
    NamesDiffer();
    SbomsAreAccepted();
    TakenIn(WORLD, BASE, 0, DEBUG_MANIFEST);
  }

  lemma ClashingTakenIn()
    ensures Receive(WORLD, CLASHING, 1) ==
      Ok(Incoming(OTHER, OTHER_MANIFEST,
                  ArtifactRecord(Digest(1), "a", 1, 1, NEW_IDENTITY, Some(EvidenceDigest(Digest(3), 1)), None),
                  ARCHIVE, Some(OTHER_DEBUG), Some(DEPENDENCY_SBOM), None))
  {
    hide Digest, SbomAccepted;
    NamesDiffer();
    SbomsAreAccepted();
    TakenIn(WORLD, CLASHING, 1, OTHER_MANIFEST);
  }

  /** A second import with a new dependency, its SBOM, and another debug archive of the stored one's name fails,
      but only after the SBOM that the record refers to has been replaced. */
  lemma LateDebugClashTears()
    ensures Orderly(WORLD, EMPTY, [ImportOp(BASE, 0)])
    ensures
      var st := RunOps(WORLD, EMPTY, [ImportOp(BASE, 0)]);
      var out := Import(WORLD, st, CLASHING, 1);
      Coherent(WORLD, st) && !Coherent(WORLD, out.state)
  {
    hide Receive, Staged, Digest, DebugClash, Refusal, Overwrites, NoCollision, Import, Coherent, Orderly, RunOps, Lawful;
    NamesDiffer();
    WorldIsLawful();
    BaseTakenIn();
    ClashingTakenIn();
    DigestsDiffer(2, 3);
    DigestsDiffer(4, 5);
    var one, two := Receive(WORLD, BASE, 0).value, Receive(WORLD, CLASHING, 1).value;
    FirstImport(BASE);
    StagedClash(WORLD, one, two);
    var st := RunOps(WORLD, EMPTY, [ImportOp(BASE, 0)]);
    TornImport(WORLD, st, CLASHING, 1, two);
  }

  lemma TornImport(env: Env, st: State, dist: Directory, now: nat, inc: Incoming)
    requires Lawful(env) && Coherent(env, st) && WellNamedDist(env, dist) && Receive(env, dist, now) == Ok(inc)
    requires inc.record.hex in st.objects && Readable(st.objects[inc.record.hex])
    requires var dir := st.objects[inc.record.hex];
      Refusal(dir, inc).None? && NoCollision(env, dir, inc) && DebugClash(env, dir, inc) && Overwrites(env, dir, inc)
    ensures !Coherent(env, Import(env, st, dist, now).state)
  {
    hide Receive, Import, Refusal, DebugClash, Overwrites, NoCollision, Coherent;
    ImportCoherent(env, st, dist, now);
  }

  // ---------------------------------------------------------------------------------------
  // A package that cannot travel
  // ---------------------------------------------------------------------------------------

  const FIRST: Directory := map[MANIFEST_FILE := PLAIN, "a" := ARCHIVE]
  const SECOND: Directory := map[MANIFEST_FILE := RENAMED, "b" := ARCHIVE, SBOM_FILE := DEPENDENCY_SBOM]

  /** A re-import that goes through, and what it leaves of record and manifest. */
  lemma GoesThrough(env: Env, st: State, dist: Directory, now: nat, inc: Incoming)
    requires Lawful(env) && Coherent(env, st) && WellNamed(inc.manifest) && Receive(env, dist, now) == Ok(inc)
    requires inc.record.hex in st.objects && Readable(st.objects[inc.record.hex])
    requires var dir := st.objects[inc.record.hex];
      Refusal(dir, inc).None? && NoCollision(env, dir, inc) && !DebugClash(env, dir, inc)
    ensures
      var dir := st.objects[inc.record.hex];
      var out := Import(env, st, dist, now);
      && out.result == Ok(NewRecord(env, dir, inc)) && inc.record.hex in out.state.objects
      && var after := out.state.objects[inc.record.hex];
      && Readable(after) && RecordIn(after) == NewRecord(env, dir, inc)
      && after[MANIFEST_FILE] == (if Commits(env, dir, inc) then inc.file else dir[MANIFEST_FILE])
      && (inc.provenance.None? && PROVENANCE_FILE in dir ==>
            PROVENANCE_FILE in after && after[PROVENANCE_FILE] == dir[PROVENANCE_FILE])
      && (WellNamedDist(env, dist) ==> Coherent(env, out.state))
  {
    var dir := st.objects[inc.record.hex];
    ReceiveVouches(env, dist, now);
    hide Receive, Refusal, NoCollision, Commits, D8, NewRecord, Vouched, DebugClash;
    assert CoherentDir(env, inc.record.hex, dir);
    hide Coherent, CoherentDir;
    ReimportOutcome(env, st, inc);
    FinalFiles(env, dir, inc);
    FinalProvenance(env, dir, inc);
    if WellNamedDist(env, dist) {
      ImportCoherent(env, st, dist, now);
    }
  }

  lemma FirstTakenIn()
    ensures Receive(WORLD, FIRST, 0) ==
      Ok(Incoming(PLAIN, PLAIN_MANIFEST, ArtifactRecord(Digest(1), "a", 1, 0, NO_IDENTITY, None, None), ARCHIVE, None, None, None))
    ensures WellNamedDist(WORLD, FIRST)
  {
    hide Digest;
    NamesDiffer();
    TakenIn(WORLD, FIRST, 0, PLAIN_MANIFEST);
  }

  lemma SecondTakenIn()
    ensures Receive(WORLD, SECOND, 1) ==
      Ok(Incoming(RENAMED, RENAMED_MANIFEST,
                  ArtifactRecord(Digest(1), "b", 1, 1, NEW_IDENTITY, Some(EvidenceDigest(Digest(3), 1)), None),
                  ARCHIVE, None, Some(DEPENDENCY_SBOM), None))
    ensures WellNamedDist(WORLD, SECOND)
  {
    hide Digest, SbomAccepted;
    NamesDiffer();
    SbomsAreAccepted();
    TakenIn(WORLD, SECOND, 1, RENAMED_MANIFEST);
  }

  /** What the second import of the example meets. */
  lemma StagedRenaming(env: Env, one: Incoming, two: Incoming)
    requires WellNamed(one.manifest) && one.file != two.file
    requires one.archive == two.archive && one.record.archive == one.manifest.archive && one.manifest.debug.None?
    requires one.record.identity == NO_IDENTITY && two.record.identity == NEW_IDENTITY
    requires one.sbom.None? && two.sbom.Some? && one.provenance.None? && two.provenance.None?
    ensures var dir := Staged(one);
      && Readable(dir) && Refusal(dir, two).None? && NoCollision(env, dir, two)
      && Commits(env, dir, two) && NewRecord(env, dir, two).archive == one.record.archive
  {
    var dir := Staged(one);
    assert RecordIn(dir) == one.record && dir[MANIFEST_FILE] == one.file && SBOM_FILE !in dir;
    assert dir[one.manifest.archive] == one.archive;
    hide Staged;
    assert Enriches(dir, two);
  }

  /** The archive comes again under another name, with a new dependency and its SBOM: both imports succeed, but the
      manifest now names a file that the record, and so every export, does not. */
  lemma RenamedArchiveIsNotPortable()
    ensures
      var st := RunOps(WORLD, EMPTY, [ImportOp(FIRST, 0)]);
      var out := Import(WORLD, st, SECOND, 1);
      && Orderly(WORLD, EMPTY, [ImportOp(FIRST, 0)]) && out.result.Ok? && Digest(1) in out.state.objects
      && var dir := out.state.objects[Digest(1)];
      && Readable(dir) && WORLD.manifest(dir[MANIFEST_FILE]).Some? && !Portable(WORLD, dir)
  {
    hide Receive, Staged, Digest, Refusal, NoCollision, Import, Coherent, Orderly, RunOps, Lawful, Commits, NewRecord;
    NamesDiffer();
    WorldIsLawful();
    FirstTakenIn();
    SecondTakenIn();
    var one, two := Receive(WORLD, FIRST, 0).value, Receive(WORLD, SECOND, 1).value;
    FirstImport(FIRST);
    StagedRenaming(WORLD, one, two);
    GoesThrough(WORLD, RunOps(WORLD, EMPTY, [ImportOp(FIRST, 0)]), SECOND, 1, two);
  }

  // ---------------------------------------------------------------------------------------
  // A package that cannot be exported
  // ---------------------------------------------------------------------------------------

  const SHADOW: Directory := map[MANIFEST_FILE := SHADOWING, "b" := ARCHIVE, "a" := ARCHIVE, SBOM_FILE := DEPENDENCY_SBOM]

  lemma ShadowTakenIn()
    ensures Receive(WORLD, SHADOW, 1) ==
      Ok(Incoming(SHADOWING, SHADOWING_MANIFEST,
                  ArtifactRecord(Digest(1), "b", 1, 1, NEW_IDENTITY, Some(EvidenceDigest(Digest(3), 1)), None),
                  ARCHIVE, Some(ARCHIVE), Some(DEPENDENCY_SBOM), None))
    ensures WellNamedDist(WORLD, SHADOW)
  {
    hide Digest, SbomAccepted;
    NamesDiffer();
    SbomsAreAccepted();
    TakenIn(WORLD, SHADOW, 1, SHADOWING_MANIFEST);
  }

  /** What the second import of the example meets: the file of the debug archive's name is the archive itself. */
  lemma StagedShadow(env: Env, one: Incoming, two: Incoming)
    requires WellNamed(one.manifest) && one.file != two.file
    requires one.archive == two.archive && one.record.archive == one.manifest.archive && one.manifest.debug.None?
    requires one.record.identity == NO_IDENTITY && two.record.identity == NEW_IDENTITY
    requires one.sbom.None? && two.sbom.Some? && one.provenance.None? && two.provenance.None?
    requires two.manifest.debug.Some? && two.manifest.debug.value.archive == one.manifest.archive
    requires env.hash(one.archive) == two.manifest.debug.value.hex && env.size(one.archive) == two.manifest.debug.value.size
    ensures var dir := Staged(one);
      && Readable(dir) && Refusal(dir, two).None? && NoCollision(env, dir, two) && !DebugClash(env, dir, two)
      && Commits(env, dir, two) && NewRecord(env, dir, two).archive == one.record.archive
  {
    var dir := Staged(one);
    assert RecordIn(dir) == one.record && dir[MANIFEST_FILE] == one.file && SBOM_FILE !in dir;
    assert dir[one.manifest.archive] == one.archive;
    hide Staged;
    assert Enriches(dir, two);
  }

  /** The archive comes again under another name, and a debug archive with its bytes under the old one: both imports
      succeed and the store is coherent, but the artifact can no longer be exported. */
  lemma ShadowedArchiveIsNotExported()
    ensures
      var st := RunOps(WORLD, EMPTY, [ImportOp(FIRST, 0)]);
      var out := Import(WORLD, st, SHADOW, 1);
      && Orderly(WORLD, EMPTY, [ImportOp(FIRST, 0)]) && out.result.Ok? && Coherent(WORLD, out.state)
      && Export(WORLD, out.state, Digest(1), map[]) == Err(WouldOverwrite)
  {
    hide Receive, Staged, Digest, Refusal, NoCollision, DebugClash, Import, Coherent, Orderly, RunOps, Lawful, Commits, NewRecord, Export;
    NamesDiffer();
    WorldIsLawful();
    FirstTakenIn();
    ShadowTakenIn();
    var one, two := Receive(WORLD, FIRST, 0).value, Receive(WORLD, SHADOW, 1).value;
    FirstImport(FIRST);
    StagedShadow(WORLD, one, two);
    var st := RunOps(WORLD, EMPTY, [ImportOp(FIRST, 0)]);
    GoesThrough(WORLD, st, SHADOW, 1, two);
    NotExported(WORLD, Import(WORLD, st, SHADOW, 1).state, Digest(1));
  }

  lemma NotExported(env: Env, st: State, hex: Hex)
    requires Lawful(env) && Coherent(env, st) && hex in st.objects
    requires var dir := st.objects[hex];
      Readable(dir) && env.manifest(dir[MANIFEST_FILE]).Some?
      && DebugNamedLikeArchive(RecordIn(dir), env.manifest(dir[MANIFEST_FILE]).value)
    ensures Export(env, st, hex, map[]) == Err(WouldOverwrite)
  {
    assert CoherentDir(env, hex, st.objects[hex]);
    hide Export, Coherent, CoherentDir;
    ExportExactly(env, st, hex);
  }

  // ---------------------------------------------------------------------------------------
  // Provenance that no longer binds
  // ---------------------------------------------------------------------------------------

  const RUNTIME: Directory := map[MANIFEST_FILE := COMPOSED, "a" := ARCHIVE, PROVENANCE_FILE := BINDING]
  const REFINING: Directory := map[MANIFEST_FILE := REFINED, "a" := ARCHIVE, SBOM_FILE := DEPENDENCY_SBOM]

  lemma BindingBindsOne()
    ensures ProvenanceAccepted(WORLD, BINDING, COMPOSED_MANIFEST) && !ProvenanceAccepted(WORLD, BINDING, REFINED_MANIFEST)
  {
    hide Digest;
    GeneratedProvenanceVerifies(Composing([]));
    var statement := ProvenanceStatement(Composing([]));
    assert StatementFor([statement], Digest(1)) == Some(statement);
    assert |Materials([])| == 0 && |Materials([DEPENDENCY])| == 1;
  }

  lemma RuntimeTakenIn()
    ensures Receive(WORLD, RUNTIME, 0) ==
      Ok(Incoming(COMPOSED, COMPOSED_MANIFEST,
                  ArtifactRecord(Digest(1), "a", 1, 0, SOURCE_IDENTITY, None, Some(EvidenceDigest(Digest(13), 1))),
                  ARCHIVE, None, None, Some(BINDING)))
    ensures WellNamedDist(WORLD, RUNTIME)
  {
    NamesDiffer();
    BindingBindsOne();
    hide Digest, ProvenanceAccepted;
    TakenIn(WORLD, RUNTIME, 0, COMPOSED_MANIFEST);
  }

  lemma RefiningTakenIn()
    ensures Receive(WORLD, REFINING, 1) ==
      Ok(Incoming(REFINED, REFINED_MANIFEST,
                  ArtifactRecord(Digest(1), "a", 1, 1, REFINED_IDENTITY, Some(EvidenceDigest(Digest(3), 1)), None),
                  ARCHIVE, None, Some(DEPENDENCY_SBOM), None))
    ensures WellNamedDist(WORLD, REFINING)
  {
    hide Digest, SbomAccepted;
    NamesDiffer();
    SbomsAreAccepted();
    TakenIn(WORLD, REFINING, 1, REFINED_MANIFEST);
  }

  lemma StagedRefinement(env: Env, one: Incoming, two: Incoming)
    requires WellNamed(one.manifest) && one.file != two.file
    requires one.archive == two.archive && one.record.archive == one.manifest.archive
    requires one.manifest.debug.None? && two.manifest.debug.None?
    requires one.record.identity == SOURCE_IDENTITY && two.record.identity == REFINED_IDENTITY
    requires one.sbom.None? && two.sbom.Some? && one.provenance.Some? && two.provenance.None?
    requires one.record.provenance == EvidenceIn(env, one.provenance)
    ensures var dir := Staged(one);
      && Readable(dir) && Refusal(dir, two).None? && NoCollision(env, dir, two) && !DebugClash(env, dir, two)
      && Commits(env, dir, two) && NewRecord(env, dir, two).provenance == one.record.provenance
      && PROVENANCE_FILE in dir && dir[PROVENANCE_FILE] == one.provenance.value
  {
    var dir := Staged(one);
    assert RecordIn(dir) == one.record && dir[MANIFEST_FILE] == one.file && SBOM_FILE !in dir;
    assert dir[one.manifest.archive] == one.archive && dir[PROVENANCE_FILE] == one.provenance.value;
    hide Staged;
    assert Enriches(dir, two);
  }

  /** A composed runtime is stored with its provenance, and its dependency list comes later with an SBOM: the new
      manifest is committed, but the provenance that stays binds the old list of inputs. */
  lemma RefinedCompositionIsNotPortable()
    ensures
      var st := RunOps(WORLD, EMPTY, [ImportOp(RUNTIME, 0)]);
      var out := Import(WORLD, st, REFINING, 1);
      && Orderly(WORLD, EMPTY, [ImportOp(RUNTIME, 0)]) && out.result.Ok? && Digest(1) in out.state.objects
      && var dir := out.state.objects[Digest(1)];
      && Readable(dir) && WORLD.manifest(dir[MANIFEST_FILE]).Some? && !BindsComposition(WORLD, dir)
  {
    NamesDiffer();
    WorldIsLawful();
    BindingBindsOne();
    hide Receive, Staged, Digest, Refusal, NoCollision, DebugClash, Import, Coherent, Orderly, RunOps, Lawful, Commits, NewRecord, ProvenanceAccepted;
    RuntimeTakenIn();
    RefiningTakenIn();
    var one, two := Receive(WORLD, RUNTIME, 0).value, Receive(WORLD, REFINING, 1).value;
    FirstImport(RUNTIME);
    StagedRefinement(WORLD, one, two);
    GoesThrough(WORLD, RunOps(WORLD, EMPTY, [ImportOp(RUNTIME, 0)]), REFINING, 1, two);
  }

  // ---------------------------------------------------------------------------------------
  // A stale checksum file
  // ---------------------------------------------------------------------------------------

  const ATTACHING: Directory := map[MANIFEST_FILE := PLAIN, "a" := ARCHIVE, SBOM_FILE := PLAIN_SBOM]

  lemma AttachingTakenIn()
    ensures Receive(WORLD, ATTACHING, 1) ==
      Ok(Incoming(PLAIN, PLAIN_MANIFEST,
                  ArtifactRecord(Digest(1), "a", 1, 1, NO_IDENTITY, Some(EvidenceDigest(Digest(2), 1)), None),
                  ARCHIVE, None, Some(PLAIN_SBOM), None))
    ensures WellNamedDist(WORLD, ATTACHING)
  {
    hide Digest, SbomAccepted;
    NamesDiffer();
    SbomsAreAccepted();
    TakenIn(WORLD, ATTACHING, 1, PLAIN_MANIFEST);
  }

  lemma StagedAttachment(env: Env, one: Incoming, two: Incoming)
    requires WellNamed(one.manifest) && one.file == two.file && one.manifest == two.manifest
    requires one.archive == two.archive && one.record.archive == one.manifest.archive && one.manifest.debug.None?
    requires one.record.identity == NO_IDENTITY == two.record.identity
    requires one.sbom.None? && two.sbom.Some? && one.provenance.None? && two.provenance.None?
    requires one.record.sbom.None? && one.record.provenance.None? && two.record.sbom.Some?
    ensures var dir := Staged(one);
      Readable(dir) && Refusal(dir, two).None? && NoCollision(env, dir, two) && SumsStayStale(env, dir, two)
  {
    var dir := Staged(one);
    assert RecordIn(dir) == one.record && dir[MANIFEST_FILE] == one.file && SBOM_FILE !in dir;
    assert dir[one.manifest.archive] == one.archive && dir[SUMS_FILE] == SumsDoc(Checksums(one.record, None));
    hide Staged;
    assert AttachesSbom(env, dir, two) && !EnrichmentRequested(NO_IDENTITY, NO_IDENTITY);
    assert NewRecord(env, dir, two).sbom.Some?;
    assert |Checksums(one.record, None)| == 1 && |Checksums(NewRecord(env, dir, two), CommittedDebug(env, dir, two))| > 1;
  }

  /** An SBOM is attached to an unchanged manifest and the import is cut off between record and checksum file:
      running it again succeeds, but the checksum file still does not list the SBOM. */
  lemma InterruptedAttachmentStaysStale()
    ensures
      var st := RunOps(WORLD, EMPTY, [ImportOp(FIRST, 0)]);
      var whole := Import(WORLD, st, ATTACHING, 1);
      var again := Import(WORLD, CutImport(WORLD, st, ATTACHING, 1, 7), ATTACHING, 2);
      && Orderly(WORLD, EMPTY, [ImportOp(FIRST, 0)])
      && whole.result.Ok? && again.result == whole.result && again.state != whole.state
  {
    hide Receive, Staged, Digest, Refusal, NoCollision, Import, CutImport, Coherent, Orderly, RunOps, Lawful, NewRecord, SumsStayStale;
    NamesDiffer();
    WorldIsLawful();
    FirstTakenIn();
    AttachingTakenIn();
    var one, two := Receive(WORLD, FIRST, 0).value, Receive(WORLD, ATTACHING, 1).value;
    FirstImport(FIRST);
    StagedAttachment(WORLD, one, two);
    var st := RunOps(WORLD, EMPTY, [ImportOp(FIRST, 0)]);
    GoesThrough(WORLD, st, ATTACHING, 1, two);
    RerunCompletes(WORLD, st, ATTACHING, 1, 2, 7);
  }
}
