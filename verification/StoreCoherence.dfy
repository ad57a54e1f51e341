/** What every sequence of imports and removes keeps true of the store: record, manifest, sidecars, checksum
    file and index agree with each other. */
module StoreCoherence {
  import opened Prelude
  import opened Evidence
  import opened Order
  import opened Store

  // ---------------------------------------------------------------------------------------
  // Assumptions about the environment and about file names
  // ---------------------------------------------------------------------------------------

  predicate IsDigest(hex: Hex) {
    |hex| == 64 && forall i | 0 <= i < |hex| :: '0' <= hex[i] <= '9' || 'a' <= hex[i] <= 'f'
  }

  /** A hash is 64 lower-case hex digits; `manifest_debug_archive` refuses a debug archive named like the
      archive. */
  ghost predicate Lawful(env: Env) {
    && (forall f :: IsDigest(env.hash(f)))
    && (forall f :: env.manifest(f).Some? && env.manifest(f).value.debug.Some? ==>
          env.manifest(f).value.debug.value.archive != env.manifest(f).value.archive)
    && (forall f :: env.manifest(f).Some? ==> DistinctNames(env.manifest(f).value.identity.dependencies))
  }

  predicate Reserved(name: Name) {
    name == RECORD_FILE || name == MANIFEST_FILE || name == SUMS_FILE || name == SBOM_FILE || name == PROVENANCE_FILE
  }

  /** Archive and debug archive are not called like one of the store's own files. */
  predicate WellNamed(m: Manifest) {
    !Reserved(m.archive) && (m.debug.Some? ==> !Reserved(m.debug.value.archive))
  }

  predicate SameIfSameHash(env: Env, a: File, b: File) {
    env.hash(a) == env.hash(b) ==> a == b
  }

  /** The import does not meet a hash collision: an incoming archive or sidecar with the hash of the stored one
      is the stored one. */
  predicate NoCollision(env: Env, dir: Directory, inc: Incoming)
    requires Readable(dir)
  {
    && (RecordIn(dir).archive in dir ==> SameIfSameHash(env, dir[RecordIn(dir).archive], inc.archive))
    && (SBOM_FILE in dir && inc.sbom.Some? ==> SameIfSameHash(env, dir[SBOM_FILE], inc.sbom.value))
    && (PROVENANCE_FILE in dir && inc.provenance.Some? ==>
          SameIfSameHash(env, dir[PROVENANCE_FILE], inc.provenance.value))
  }

  // ---------------------------------------------------------------------------------------
  // Coherence
  // ---------------------------------------------------------------------------------------

  predicate SbomCoherent(env: Env, dir: Directory, r: ArtifactRecord) {
    r.sbom.Some? ==>
      && EvidenceHolds(env, dir, SBOM_FILE, r.sbom.value)
      && SbomAccepted(env, dir[SBOM_FILE], r.hex, r.identity.dependencies)
  }

  predicate ProvenanceCoherent(env: Env, dir: Directory, r: ArtifactRecord) {
    r.provenance.Some? ==>
      && EvidenceHolds(env, dir, PROVENANCE_FILE, r.provenance.value)
      && env.provenance(dir[PROVENANCE_FILE]).Some?
      && r.identity.source.Some?
      && AttestedSource(env.provenance(dir[PROVENANCE_FILE]).value, r.hex) == r.identity.source
  }

  /** Record `r` and manifest `m` describe the same artifact, and the archive is there. */
  predicate ArchiveCoherent(env: Env, dir: Directory, r: ArtifactRecord, m: Manifest) {
    && m.hex == r.hex && m.size == r.size && WellNamed(m) && !Reserved(r.archive)
    && r.identity == m.identity
    && r.archive in dir && env.hash(dir[r.archive]) == r.hex && env.size(dir[r.archive]) == m.size
    && (m.debug.Some? ==> ClaimHolds(env, dir, m.debug.value))
  }

  predicate CoherentDir(env: Env, hex: Hex, dir: Directory) {
    && Readable(dir)
    && env.manifest(dir[MANIFEST_FILE]).Some?
    && var r, m := RecordIn(dir), env.manifest(dir[MANIFEST_FILE]).value;
    && r.hex == hex
    && ArchiveCoherent(env, dir, r, m)
    && SbomCoherent(env, dir, r)
    && ProvenanceCoherent(env, dir, r)
    && SUMS_FILE in dir && dir[SUMS_FILE] == SumsDoc(Checksums(r, m.debug))
  }

  /** The index is strictly sorted by digest and holds exactly the stored records. */
  ghost predicate CoherentIndex(st: State) {
    && StrictlyAscending(RecordLess, st.index)
    && (forall r | r in st.index ::
          r.hex in st.objects && Readable(st.objects[r.hex]) && RecordIn(st.objects[r.hex]) == r)
    && (forall hex | hex in st.objects ::
          && Readable(st.objects[hex])
          && RecordIn(st.objects[hex]).hex == hex
          && RecordIn(st.objects[hex]) in st.index)
  }

  ghost predicate Coherent(env: Env, st: State) {
    && (forall hex | hex in st.objects :: CoherentDir(env, hex, st.objects[hex]))
    && CoherentIndex(st)
  }

  // ---------------------------------------------------------------------------------------
  // The dist directory
  // ---------------------------------------------------------------------------------------

  /** What `Receive` establishes about an accepted dist directory. */
  predicate Vouched(env: Env, inc: Incoming) {
    var m, r := inc.manifest, inc.record;
    && env.manifest(inc.file) == Some(m)
    && r.hex == m.hex && r.archive == m.archive && r.size == m.size && r.identity == m.identity
    && r.sbom == EvidenceIn(env, inc.sbom) && r.provenance == EvidenceIn(env, inc.provenance)
    && env.hash(inc.archive) == m.hex && env.size(inc.archive) == m.size
    && (m.debug.Some? ==>
          && inc.debug.Some?
          && env.hash(inc.debug.value) == m.debug.value.hex && env.size(inc.debug.value) == m.debug.value.size)
    && (inc.sbom.Some? ==> SbomAccepted(env, inc.sbom.value, m.hex, m.identity.dependencies))
    && (inc.provenance.Some? ==> ProvenanceAccepted(env, inc.provenance.value, m))
  }

  lemma ReceiveVouches(env: Env, dist: Directory, now: nat)
    requires Receive(env, dist, now).Ok?
    ensures Vouched(env, Receive(env, dist, now).value)
  {
  }

  /** Accepted provenance attests the manifest's own source. */
  lemma AcceptedAttests(env: Env, f: File, m: Manifest)
    requires ProvenanceAccepted(env, f, m)
    ensures m.identity.source.Some? && AttestedSource(env.provenance(f).value, m.hex) == m.identity.source
  {
  }

  /** Conversely, attesting the source is all a manifest that is not a composed runtime asks for. */
  lemma AttestedIsAccepted(env: Env, f: File, m: Manifest)
    requires env.provenance(f).Some? && m.identity.source.Some?
    requires AttestedSource(env.provenance(f).value, m.hex) == m.identity.source
    requires m.composition.None? || Binds(StatementFor(env.provenance(f).value, m.hex).value, m.composition.value)
    ensures ProvenanceAccepted(env, f, m)
  {
  }

  // ---------------------------------------------------------------------------------------
  // A fresh import
  // ---------------------------------------------------------------------------------------

  lemma StagedCoherent(env: Env, inc: Incoming)
    requires Lawful(env) && Vouched(env, inc) && WellNamed(inc.manifest)
    ensures CoherentDir(env, inc.record.hex, Staged(inc))
  {
    assert inc.manifest.debug.Some? ==> inc.manifest.debug.value.archive != inc.manifest.archive;
    if inc.provenance.Some? {
      AcceptedAttests(env, inc.provenance.value, inc.manifest);
    }
  }

  // ---------------------------------------------------------------------------------------
  // A re-import
  // ---------------------------------------------------------------------------------------

  /** A coherent object directory meets a vouched-for dist directory of the same digest. */
  ghost predicate Meets(env: Env, dir: Directory, inc: Incoming) {
    && Lawful(env) && Vouched(env, inc) && WellNamed(inc.manifest)
    && CoherentDir(env, inc.record.hex, dir) && NoCollision(env, dir, inc)
  }

  /** After the refusals, evidence pins every identity the two sides could disagree on. */
  lemma IdentityAgrees(env: Env, dir: Directory, inc: Incoming)
    requires Meets(env, dir, inc) && Refusal(dir, inc).None?
    ensures SameManifest(dir, inc) ==> inc.record.identity == RecordIn(dir).identity && !Enriches(dir, inc)
    ensures Commits(env, dir, inc) ==> NewIdentity(dir, inc) == inc.record.identity
    ensures !Commits(env, dir, inc) ==> NewIdentity(dir, inc) == RecordIn(dir).identity
    ensures HasEvidence(inc) ==> NewIdentity(dir, inc) == inc.record.identity
  {
    var stored, incoming := RecordIn(dir).identity, inc.record.identity;
    if HasEvidence(inc) {
      assert Enriched(stored, incoming) == incoming;
      if !EnrichmentRequested(stored, incoming) {
        assert stored == incoming;
      }
    }
  }

  /** Under a differing manifest, a new source needs provenance, new dependencies need an SBOM, and the
      OpenUSD identities cannot be added at all. */
  lemma EnrichmentNeedsEvidence(dir: Directory, inc: Incoming)
    requires Readable(dir) && Enriches(dir, inc) && !SameManifest(dir, inc)
    ensures NewIdentity(dir, inc).source != RecordIn(dir).identity.source ==> inc.provenance.Some?
    ensures NewIdentity(dir, inc).dependencies != RecordIn(dir).identity.dependencies ==> inc.sbom.Some?
    ensures NewIdentity(dir, inc).openusd == RecordIn(dir).identity.openusd
    ensures NewIdentity(dir, inc).verification == RecordIn(dir).identity.verification
    ensures HasEvidence(inc)
  {
  }

  /** Files that are not the store's own stay as they are; only a missing debug archive is added. */
  lemma {:induction false} OtherFilesKept(env: Env, dir: Directory, inc: Incoming, k: nat, name: Name)
    requires Readable(dir) && WellNamed(inc.manifest) && !Reserved(name) && name in dir
    ensures name in DirAfter(k, env, dir, inc) && DirAfter(k, env, dir, inc)[name] == dir[name]
  {
    hide AttachesSbom, AttachesProvenance, Commits, Rewrites, Enriches, SameManifest, NewRecord, CommittedDebug, Checksums;
    if 0 < k <= 8 {
      OtherFilesKept(env, dir, inc, k - 1, name);
    }
  }

  /** The final directory, file by file. */
  lemma FinalFiles(env: Env, dir: Directory, inc: Incoming)
    requires Readable(dir) && WellNamed(inc.manifest)
    ensures var out := D8(env, dir, inc);
      && Readable(out)
      && RecordIn(out) == NewRecord(env, dir, inc)
      && out[MANIFEST_FILE] == (if Commits(env, dir, inc) then inc.file else dir[MANIFEST_FILE])
      && (AttachesSbom(env, dir, inc) ==> SBOM_FILE in out && out[SBOM_FILE] == inc.sbom.value)
      && (!AttachesSbom(env, dir, inc) && SBOM_FILE in dir ==> SBOM_FILE in out && out[SBOM_FILE] == dir[SBOM_FILE])
  {
  }

  lemma FinalProvenance(env: Env, dir: Directory, inc: Incoming)
    requires Readable(dir) && WellNamed(inc.manifest)
    ensures var out := D8(env, dir, inc);
      && (AttachesProvenance(env, dir, inc) ==>
            PROVENANCE_FILE in out && out[PROVENANCE_FILE] == inc.provenance.value)
      && (!AttachesProvenance(env, dir, inc) && PROVENANCE_FILE in dir ==>
            PROVENANCE_FILE in out && out[PROVENANCE_FILE] == dir[PROVENANCE_FILE])
  {
  }

  /** Whether attached or found already bound, the SBOM on disk is the incoming one. */
  lemma SbomOnDisk(env: Env, dir: Directory, inc: Incoming)
    requires Meets(env, dir, inc) && inc.sbom.Some?
    ensures SBOM_FILE in D8(env, dir, inc) && D8(env, dir, inc)[SBOM_FILE] == inc.sbom.value
  {
    FinalFiles(env, dir, inc);
    if !AttachesSbom(env, dir, inc) {
      assert env.hash(dir[SBOM_FILE]) == env.hash(inc.sbom.value);
    }
  }

  lemma ProvenanceOnDisk(env: Env, dir: Directory, inc: Incoming)
    requires Meets(env, dir, inc) && inc.provenance.Some?
    ensures PROVENANCE_FILE in D8(env, dir, inc) && D8(env, dir, inc)[PROVENANCE_FILE] == inc.provenance.value
  {
    FinalProvenance(env, dir, inc);
    if !AttachesProvenance(env, dir, inc) {
      assert env.hash(dir[PROVENANCE_FILE]) == env.hash(inc.provenance.value);
    }
  }

  lemma SbomStaysCoherent(env: Env, dir: Directory, inc: Incoming)
    requires Meets(env, dir, inc) && Refusal(dir, inc).None?
    ensures SbomCoherent(env, D8(env, dir, inc), NewRecord(env, dir, inc))
  {
    IdentityAgrees(env, dir, inc);
    if inc.sbom.Some? {
      SbomOnDisk(env, dir, inc);
    } else {
      FinalFiles(env, dir, inc);
      if Enriches(dir, inc) {
        EnrichmentNeedsEvidence(dir, inc);
      }
    }
  }

  lemma ProvenanceStaysCoherent(env: Env, dir: Directory, inc: Incoming)
    requires Meets(env, dir, inc) && Refusal(dir, inc).None?
    ensures ProvenanceCoherent(env, D8(env, dir, inc), NewRecord(env, dir, inc))
  {
    IdentityAgrees(env, dir, inc);
    if inc.provenance.Some? {
      ProvenanceOnDisk(env, dir, inc);
      AcceptedAttests(env, inc.provenance.value, inc.manifest);
    } else {
      FinalProvenance(env, dir, inc);
      if Enriches(dir, inc) {
        EnrichmentNeedsEvidence(dir, inc);
      }
    }
  }

  lemma LastWritesAreReserved(env: Env, dir: Directory, inc: Incoming, name: Name)
    requires Readable(dir) && !Reserved(name)
    ensures name in D5(env, dir, inc) ==> name in D8(env, dir, inc) && D8(env, dir, inc)[name] == D5(env, dir, inc)[name]
  {
  }

  lemma DebugClaimKept(env: Env, dir: Directory, inc: Incoming)
    requires Meets(env, dir, inc) && Refusal(dir, inc).None? && Failure(env, dir, inc).None?
    ensures CommittedDebug(env, dir, inc).Some? ==> ClaimHolds(env, D8(env, dir, inc), CommittedDebug(env, dir, inc).value)
  {
    if Commits(env, dir, inc) {
      if inc.manifest.debug.Some? {
        CommittedClaim(env, dir, inc);
      }
    } else if CommittedDebug(env, dir, inc).Some? {
      StoredClaim(env, dir, inc);
    }
  }

  lemma CommittedClaim(env: Env, dir: Directory, inc: Incoming)
    requires Readable(dir) && WellNamed(inc.manifest) && Failure(env, dir, inc).None?
    requires Commits(env, dir, inc) && inc.manifest.debug.Some?
    ensures ClaimHolds(env, D8(env, dir, inc), inc.manifest.debug.value)
  {
    assert ClaimHolds(env, D5(env, dir, inc), inc.manifest.debug.value);
    LastWritesAreReserved(env, dir, inc, inc.manifest.debug.value.archive);
  }

  lemma StoredClaim(env: Env, dir: Directory, inc: Incoming)
    requires Meets(env, dir, inc) && !Commits(env, dir, inc) && CommittedDebug(env, dir, inc).Some?
    ensures ClaimHolds(env, D8(env, dir, inc), CommittedDebug(env, dir, inc).value)
  {
    OtherFilesKept(env, dir, inc, 8, CommittedDebug(env, dir, inc).value.archive);
  }

  lemma ArchiveStaysCoherent(env: Env, dir: Directory, inc: Incoming)
    requires Meets(env, dir, inc) && Refusal(dir, inc).None? && Failure(env, dir, inc).None?
    requires Readable(D8(env, dir, inc)) && env.manifest(D8(env, dir, inc)[MANIFEST_FILE]).Some?
    ensures ArchiveCoherent(env, D8(env, dir, inc), NewRecord(env, dir, inc),
                            env.manifest(D8(env, dir, inc)[MANIFEST_FILE]).value)
  {
    hide AttachesSbom, AttachesProvenance, D1, D2, D3, D4, D5, D6, D7, Checksums, NewIdentity;
    IdentityAgrees(env, dir, inc);
    FinalFiles(env, dir, inc);
    DebugClaimKept(env, dir, inc);
    OtherFilesKept(env, dir, inc, 8, RecordIn(dir).archive);
    assert env.hash(dir[RecordIn(dir).archive]) == env.hash(inc.archive);
  }

  lemma SumsStayCoherent(env: Env, dir: Directory, inc: Incoming)
    requires Meets(env, dir, inc) && Refusal(dir, inc).None?
    ensures SUMS_FILE in D8(env, dir, inc)
    ensures D8(env, dir, inc)[SUMS_FILE] == SumsDoc(Checksums(NewRecord(env, dir, inc), CommittedDebug(env, dir, inc)))
  {
    IdentityAgrees(env, dir, inc);
  }

  /** A successful re-import leaves the object directory coherent. */
  lemma ReimportCoherent(env: Env, dir: Directory, inc: Incoming)
    requires Meets(env, dir, inc) && Refusal(dir, inc).None? && Failure(env, dir, inc).None?
    ensures CoherentDir(env, inc.record.hex, D8(env, dir, inc))
  {
    FinalFiles(env, dir, inc);
    SbomStaysCoherent(env, dir, inc);
    ProvenanceStaysCoherent(env, dir, inc);
    ArchiveStaysCoherent(env, dir, inc);
    SumsStayCoherent(env, dir, inc);
  }

  // ---------------------------------------------------------------------------------------
  // The one failure a coherent directory allows
  // ---------------------------------------------------------------------------------------

  /** The incoming manifest would be committed, but a file of its debug archive's name is already there
      with other contents. */
  predicate DebugClash(env: Env, dir: Directory, inc: Incoming)
    requires Readable(dir)
  {
    && Commits(env, dir, inc)
    && inc.manifest.debug.Some?
    && inc.manifest.debug.value.archive in dir
    && !ClaimHolds(env, dir, inc.manifest.debug.value)
  }

  /** From a coherent directory, a re-import that was not refused fails exactly on a debug clash, and then
      only after its sidecars have been renamed into place. */
  lemma FailsOnlyOnDebugClash(env: Env, dir: Directory, inc: Incoming)
    requires Meets(env, dir, inc) && Refusal(dir, inc).None?
    ensures Failure(env, dir, inc) == if DebugClash(env, dir, inc) then Some(Stop(5, DebugMismatch)) else None
  {
    if SameManifest(dir, inc) && inc.manifest.debug.Some? {
      assert ClaimHolds(env, D1(dir, inc), inc.manifest.debug.value);
    }
    NoEvidenceFailure(env, dir, inc);
    if Commits(env, dir, inc) && inc.manifest.debug.Some? {
      var name := inc.manifest.debug.value.archive;
      assert name in D4(env, dir, inc) <==> name in dir;
      assert name in dir ==> D5(env, dir, inc)[name] == dir[name];
    }
  }

  lemma NoEvidenceFailure(env: Env, dir: Directory, inc: Incoming)
    requires Meets(env, dir, inc) && Refusal(dir, inc).None?
    ensures inc.sbom.Some? && !AttachesSbom(env, dir, inc) ==>
      EvidenceHolds(env, D2(dir, inc), SBOM_FILE, EvidenceOf(env, inc.sbom.value))
    ensures inc.provenance.Some? && !AttachesProvenance(env, dir, inc) ==>
      EvidenceHolds(env, D3(env, dir, inc), PROVENANCE_FILE, EvidenceOf(env, inc.provenance.value))
  {
    if inc.sbom.Some? && !AttachesSbom(env, dir, inc) {
      assert env.hash(dir[SBOM_FILE]) == env.hash(inc.sbom.value);
      assert D2(dir, inc)[SBOM_FILE] == dir[SBOM_FILE];
    }
    if inc.provenance.Some? && !AttachesProvenance(env, dir, inc) {
      assert env.hash(dir[PROVENANCE_FILE]) == env.hash(inc.provenance.value);
      assert D3(env, dir, inc)[PROVENANCE_FILE] == dir[PROVENANCE_FILE];
    }
  }

  /** A sidecar the record already refers to has been overwritten by the failing import. */
  predicate Overwrites(env: Env, dir: Directory, inc: Incoming)
    requires Readable(dir)
  {
    || (AttachesSbom(env, dir, inc) && RecordIn(dir).sbom.Some?)
    || (AttachesProvenance(env, dir, inc) && RecordIn(dir).provenance.Some?)
  }

  /** The directory a debug clash leaves behind: only the attached sidecars differ. */
  lemma ClashDirectory(env: Env, dir: Directory, inc: Incoming)
    requires Readable(dir) && DebugClash(env, dir, inc)
    ensures D5(env, dir, inc) == D4(env, dir, inc) && Readable(D4(env, dir, inc))
    ensures forall name | name != SBOM_FILE && name != PROVENANCE_FILE && name in dir ::
      name in D4(env, dir, inc) && D4(env, dir, inc)[name] == dir[name]
    ensures SBOM_FILE in D4(env, dir, inc) <==> AttachesSbom(env, dir, inc) || SBOM_FILE in dir
    ensures SBOM_FILE in D4(env, dir, inc) ==>
      D4(env, dir, inc)[SBOM_FILE] == if AttachesSbom(env, dir, inc) then inc.sbom.value else dir[SBOM_FILE]
    ensures PROVENANCE_FILE in D4(env, dir, inc) <==> AttachesProvenance(env, dir, inc) || PROVENANCE_FILE in dir
    ensures PROVENANCE_FILE in D4(env, dir, inc) ==>
      D4(env, dir, inc)[PROVENANCE_FILE] ==
        if AttachesProvenance(env, dir, inc) then inc.provenance.value else dir[PROVENANCE_FILE]
  {
  }

  /** After a debug clash the directory is coherent exactly when no recorded sidecar was overwritten. */
  lemma ClashCoherence(env: Env, dir: Directory, inc: Incoming)
    requires Meets(env, dir, inc) && DebugClash(env, dir, inc)
    ensures CoherentDir(env, inc.record.hex, D5(env, dir, inc)) <==> !Overwrites(env, dir, inc)
  {
    ClashDirectory(env, dir, inc);
    var out := D4(env, dir, inc);
    assert RecordIn(out) == RecordIn(dir) && out[MANIFEST_FILE] == dir[MANIFEST_FILE];
    assert SUMS_FILE in out && out[SUMS_FILE] == dir[SUMS_FILE];
    assert SbomCoherent(env, out, RecordIn(dir)) <==> !(AttachesSbom(env, dir, inc) && RecordIn(dir).sbom.Some?);
    assert ProvenanceCoherent(env, out, RecordIn(dir))
      <==> !(AttachesProvenance(env, dir, inc) && RecordIn(dir).provenance.Some?);
  }

  // ---------------------------------------------------------------------------------------
  // The index
  // ---------------------------------------------------------------------------------------

  lemma {:induction false} WithoutKeeps(index: seq<ArtifactRecord>, hex: Hex)
    ensures forall r :: r in Without(index, hex) <==> r in index && r.hex != hex
    ensures StrictlyAscending(RecordLess, index) ==> StrictlyAscending(RecordLess, Without(index, hex))
  {
    if index != [] {
      WithoutKeeps(index[1..], hex);
      assert index == [index[0]] + index[1..];
      var rest := Without(index[1..], hex);
      if StrictlyAscending(RecordLess, index) {
        forall j | 0 <= j < |rest| ensures RecordLess(index[0], rest[j]) {
          assert rest[j] in rest;
        }
      }
    }
  }

  lemma RecordLessIsWeak()
    ensures WeakOrder(RecordLess)
  {
    StringLessIsTotal();
    forall a: ArtifactRecord ensures !RecordLess(a, a) {
      assert !StringLess(a.hex, a.hex);
    }
    forall a: ArtifactRecord, b: ArtifactRecord, c: ArtifactRecord | RecordLess(a, b) && RecordLess(b, c)
      ensures RecordLess(a, c)
    {
      assert StringLess(a.hex, b.hex) && StringLess(b.hex, c.hex);
    }
    forall a: ArtifactRecord, b: ArtifactRecord, c: ArtifactRecord | !RecordLess(a, b) && !RecordLess(b, c)
      ensures !RecordLess(a, c)
    {
      assert !StringLess(a.hex, b.hex) && !StringLess(b.hex, c.hex);
    }
  }

  /** `index_upsert` keeps the index strictly sorted and replaces exactly the record of that digest. */
  lemma UpsertKeeps(index: seq<ArtifactRecord>, r: ArtifactRecord)
    requires StrictlyAscending(RecordLess, index)
    ensures StrictlyAscending(RecordLess, Upsert(index, r))
    ensures forall x :: x in Upsert(index, r) <==> x == r || (x in index && x.hex != r.hex)
  {
    var rest := Without(index, r.hex);
    WithoutKeeps(index, r.hex);
    RecordLessIsWeak();
    SortIdentity(RecordLess, rest);
    assert (rest + [r])[..|rest|] == rest;
    forall y | y in rest ensures RecordLess(r, y) || RecordLess(y, r) {
      StringLessIsTotal();
      assert r.hex != y.hex;
    }
    InsertStrict(RecordLess, r, rest);
    InsertMembers(RecordLess, r, rest);
  }

  /** From any index, sorted or not: exactly the other digests' entries and the new record, in order of digest. */
  lemma UpsertMeans(index: seq<ArtifactRecord>, r: ArtifactRecord)
    ensures Ascending(RecordLess, Upsert(index, r))
    ensures forall x :: x in Upsert(index, r) <==> x == r || (x in index && x.hex != r.hex)
  {
    var rest := Without(index, r.hex);
    RecordLessIsWeak();
    SortAscending(RecordLess, rest + [r]);
    SortMultiset(RecordLess, rest + [r]);
    SameElements(Upsert(index, r), rest + [r]);
    WithoutKeeps(index, r.hex);
  }

  lemma UpsertKeepsIndex(st: State, hex: Hex, dir: Directory)
    requires CoherentIndex(st) && Readable(dir) && RecordIn(dir).hex == hex
    ensures CoherentIndex(State(st.objects[hex := dir], Upsert(st.index, RecordIn(dir))))
  {
    UpsertKeeps(st.index, RecordIn(dir));
  }

  // ---------------------------------------------------------------------------------------
  // Operations and runs
  // ---------------------------------------------------------------------------------------

  /** The import commits a manifest whose debug archive clashes with a stored file, after it has overwritten
      a sidecar the record refers to. Every part of this is known before the call. */
  predicate Tears(env: Env, st: State, dist: Directory, now: nat) {
    && Receive(env, dist, now).Ok?
    && var inc := Receive(env, dist, now).value;
    && inc.record.hex in st.objects
    && var dir := st.objects[inc.record.hex];
    && Readable(dir) && Refusal(dir, inc).None? && DebugClash(env, dir, inc) && Overwrites(env, dir, inc)
  }

  predicate CollisionFree(env: Env, st: State, dist: Directory, now: nat) {
    Receive(env, dist, now).Ok? ==>
      var inc := Receive(env, dist, now).value;
      inc.record.hex in st.objects && Readable(st.objects[inc.record.hex]) ==>
        NoCollision(env, st.objects[inc.record.hex], inc)
  }

  predicate WellNamedDist(env: Env, dist: Directory) {
    MANIFEST_FILE in dist && env.manifest(dist[MANIFEST_FILE]).Some? ==> WellNamed(env.manifest(dist[MANIFEST_FILE]).value)
  }

  /** An import, successful or not, keeps a coherent store coherent exactly unless it tears it. */
  lemma ImportCoherent(env: Env, st: State, dist: Directory, now: nat)
    requires Lawful(env) && Coherent(env, st) && WellNamedDist(env, dist) && CollisionFree(env, st, dist, now)
    ensures Coherent(env, Import(env, st, dist, now).state) <==> !Tears(env, st, dist, now)
  {
    var out := Import(env, st, dist, now);
    if Receive(env, dist, now).Ok? {
      var inc := Receive(env, dist, now).value;
      var hex := inc.record.hex;
      ReceiveVouches(env, dist, now);
      if hex in st.objects {
        assert CoherentDir(env, hex, st.objects[hex]);
        ReimportStep(env, st, inc);
      } else {
        StagedCoherent(env, inc);
        UpsertKeepsIndex(st, hex, Staged(inc));
      }
    }
  }

  lemma ReimportStep(env: Env, st: State, inc: Incoming)
    requires Coherent(env, st) && inc.record.hex in st.objects && Meets(env, st.objects[inc.record.hex], inc)
    ensures var dir := st.objects[inc.record.hex];
      Coherent(env, Reimport(env, st, inc).state)
      <==> !(Refusal(dir, inc).None? && DebugClash(env, dir, inc) && Overwrites(env, dir, inc))
  {
    var dir := st.objects[inc.record.hex];
    ReimportOutcome(env, st, inc);
    if Refusal(dir, inc).None? {
      if DebugClash(env, dir, inc) {
        ClashStep(env, st, inc);
      } else {
        SuccessStep(env, st, inc);
      }
    }
  }

  /** The three ways a re-import into a coherent directory can end. */
  lemma ReimportOutcome(env: Env, st: State, inc: Incoming)
    requires inc.record.hex in st.objects && Meets(env, st.objects[inc.record.hex], inc)
    ensures var hex := inc.record.hex;
      var dir := st.objects[hex];
      var out := Reimport(env, st, inc);
      if Refusal(dir, inc).Some? then out == Outcome(st, Err(Refusal(dir, inc).value))
      else if DebugClash(env, dir, inc) then
        Failure(env, dir, inc).Some? &&
        out == Outcome(st.(objects := st.objects[hex := D5(env, dir, inc)]), Err(DebugMismatch))
      else
        Failure(env, dir, inc).None? &&
        out == Outcome(State(st.objects[hex := D8(env, dir, inc)], Upsert(st.index, NewRecord(env, dir, inc))),
                       Ok(NewRecord(env, dir, inc)))
  {
    if Refusal(st.objects[inc.record.hex], inc).None? {
      FailsOnlyOnDebugClash(env, st.objects[inc.record.hex], inc);
    }
  }

  lemma ClashStep(env: Env, st: State, inc: Incoming)
    requires Coherent(env, st) && inc.record.hex in st.objects && Meets(env, st.objects[inc.record.hex], inc)
    requires DebugClash(env, st.objects[inc.record.hex], inc)
    ensures var dir := st.objects[inc.record.hex];
      Coherent(env, st.(objects := st.objects[inc.record.hex := D5(env, dir, inc)])) <==> !Overwrites(env, dir, inc)
  {
    var dir := st.objects[inc.record.hex];
    ClashCoherence(env, dir, inc);
    ClashDirectory(env, dir, inc);
    ReplaceDir(env, st, inc.record.hex, D5(env, dir, inc));
  }

  lemma SuccessStep(env: Env, st: State, inc: Incoming)
    requires Coherent(env, st) && inc.record.hex in st.objects && Meets(env, st.objects[inc.record.hex], inc)
    requires var dir := st.objects[inc.record.hex]; Refusal(dir, inc).None? && Failure(env, dir, inc).None?
    ensures var dir := st.objects[inc.record.hex];
      Coherent(env, State(st.objects[inc.record.hex := D8(env, dir, inc)], Upsert(st.index, NewRecord(env, dir, inc))))
  {
    var dir := st.objects[inc.record.hex];
    FinalFiles(env, dir, inc);
    ReimportCoherent(env, dir, inc);
    UpsertKeepsIndex(st, inc.record.hex, D8(env, dir, inc));
  }

  /** Replacing one directory without touching its record decides coherence by that directory alone. */
  lemma ReplaceDir(env: Env, st: State, hex: Hex, dir: Directory)
    requires Coherent(env, st) && hex in st.objects && Readable(dir) && RecordIn(dir) == RecordIn(st.objects[hex])
    ensures Coherent(env, st.(objects := st.objects[hex := dir])) <==> CoherentDir(env, hex, dir)
  {
    var st' := st.(objects := st.objects[hex := dir]);
    assert st'.objects[hex] == dir;
  }

  lemma RemoveCoherent(env: Env, st: State, reference: string)
    requires Coherent(env, st)
    ensures Coherent(env, Remove(st, reference))
  {
    var found := Resolve(st.index, reference);
    if found.Ok? {
      WithoutKeeps(st.index, found.value.hex);
    }
  }

  datatype Op = ImportOp(dist: Directory, now: nat) | RemoveOp(reference: string)

  function Do(env: Env, st: State, op: Op): State {
    match op
    case ImportOp(dist, now) => Import(env, st, dist, now).state
    case RemoveOp(reference) => Remove(st, reference)
  }

  function RunOps(env: Env, st: State, ops: seq<Op>): State {
    if ops == [] then st else Do(env, RunOps(env, st, ops[..|ops| - 1]), ops[|ops| - 1])
  }

  /** Every dist directory of the run is well named, meets no hash collision, and no import tears the store. */
  predicate Orderly(env: Env, st: State, ops: seq<Op>) {
    ops == [] ||
    (&& Orderly(env, st, ops[..|ops| - 1])
     && var op := ops[|ops| - 1];
     && (op.ImportOp? ==>
           var before := RunOps(env, st, ops[..|ops| - 1]);
           && WellNamedDist(env, op.dist)
           && CollisionFree(env, before, op.dist, op.now)
           && !Tears(env, before, op.dist, op.now)))
  }

  /** Every store an orderly run reaches from the empty one is coherent. */
  lemma {:induction false} RunCoherent(env: Env, ops: seq<Op>)
    requires Lawful(env) && Orderly(env, EMPTY, ops)
    ensures Coherent(env, RunOps(env, EMPTY, ops))
  {
    if ops != [] {
      var before, op := RunOps(env, EMPTY, ops[..|ops| - 1]), ops[|ops| - 1];
      RunCoherent(env, ops[..|ops| - 1]);
      match op
      case ImportOp(dist, now) => ImportCoherent(env, before, dist, now);
      case RemoveOp(reference) => RemoveCoherent(env, before, reference);
    }
  }

  /** What a reader of a reachable store finds for every stored digest: the record's four identities are those
      of the manifest on disk, the SBOM verifies against digest and dependencies, and the provenance attests
      the manifest's source — so `verify_provenance` accepts it unless the manifest is a composed runtime. */
  lemma ReachableStoreVerifies(env: Env, ops: seq<Op>, hex: Hex)
    requires Lawful(env) && Orderly(env, EMPTY, ops) && hex in RunOps(env, EMPTY, ops).objects
    ensures
      var dir := RunOps(env, EMPTY, ops).objects[hex];
      && Readable(dir) && env.manifest(dir[MANIFEST_FILE]).Some?
      && var r, m := RecordIn(dir), env.manifest(dir[MANIFEST_FILE]).value;
      && r.hex == hex && r.identity == m.identity
      && (r.sbom.Some? ==> SBOM_FILE in dir && SbomAccepted(env, dir[SBOM_FILE], hex, m.identity.dependencies))
      && (r.provenance.Some? ==>
            && PROVENANCE_FILE in dir
            && env.provenance(dir[PROVENANCE_FILE]).Some?
            && AttestedSource(env.provenance(dir[PROVENANCE_FILE]).value, hex) == m.identity.source
            && (m.composition.None? ==> ProvenanceAccepted(env, dir[PROVENANCE_FILE], m)))
  {
    RunCoherent(env, ops);
    var dir := RunOps(env, EMPTY, ops).objects[hex];
    assert CoherentDir(env, hex, dir);
    var r, m := RecordIn(dir), env.manifest(dir[MANIFEST_FILE]).value;
    if r.provenance.Some? && m.composition.None? {
      AttestedIsAccepted(env, dir[PROVENANCE_FILE], m);
    }
  }

  /** So in every reachable store a recorded SBOM declares exactly the dependencies of the record, one to one. */
  lemma ReachableSbomIsExact(env: Env, ops: seq<Op>, hex: Hex)
    requires Lawful(env) && Orderly(env, EMPTY, ops) && hex in RunOps(env, EMPTY, ops).objects
    ensures
      var dir := RunOps(env, EMPTY, ops).objects[hex];
      && Readable(dir)
      && (RecordIn(dir).sbom.Some? ==> SBOM_FILE in dir && env.sbom(dir[SBOM_FILE]).Some?)
      && (RecordIn(dir).sbom.Some? && RecordIn(dir).identity.dependencies != [] ==>
            OneToOne(env.sbom(dir[SBOM_FILE]).value, RecordIn(dir).identity.dependencies))
  {
    ReachableStoreVerifies(env, ops, hex);
    var dir := RunOps(env, EMPTY, ops).objects[hex];
    var dependencies := RecordIn(dir).identity.dependencies;
    if RecordIn(dir).sbom.Some? && dependencies != [] {
      AcceptedSbomIsExact(env.sbom(dir[SBOM_FILE]).value, hex, dependencies);
    }
  }

  predicate Lists(lines: seq<SumLine>, name: Name) {
    exists i | 0 <= i < |lines| :: lines[i].name == name
  }

  /** The files a record and its manifest promise next to the store's own documents. */
  predicate Accompanies(r: ArtifactRecord, m: Manifest, name: Name) {
    || name == r.archive
    || (m.debug.Some? && name == m.debug.value.archive)
    || (r.sbom.Some? && name == SBOM_FILE)
    || (r.provenance.Some? && name == PROVENANCE_FILE)
  }

  /** SHA256SUMS names exactly the archive, the debug archive the manifest on disk promises and the recorded
      sidecars; each of them is there with that digest. */
  predicate SumsHold(env: Env, dir: Directory) {
    && Readable(dir) && env.manifest(dir[MANIFEST_FILE]).Some?
    && SUMS_FILE in dir && dir[SUMS_FILE].SumsDoc?
    && (forall line | line in dir[SUMS_FILE].lines :: line.name in dir && env.hash(dir[line.name]) == line.hex)
    && (forall line | line in dir[SUMS_FILE].lines ::
          Accompanies(RecordIn(dir), env.manifest(dir[MANIFEST_FILE]).value, line.name))
  }

  lemma CoherentSumsHold(env: Env, hex: Hex, dir: Directory)
    requires CoherentDir(env, hex, dir)
    ensures SumsHold(env, dir)
    ensures forall name | Accompanies(RecordIn(dir), env.manifest(dir[MANIFEST_FILE]).value, name) ::
      Lists(dir[SUMS_FILE].lines, name)
  {
    var r, m := RecordIn(dir), env.manifest(dir[MANIFEST_FILE]).value;
    ChecksumMembers(r, m.debug);
    forall name | Accompanies(r, m, name) ensures Lists(dir[SUMS_FILE].lines, name) {
      var hex :| SumLine(hex, name) in dir[SUMS_FILE].lines;
    }
  }

  /** In every reachable store, for every stored digest. */
  lemma ReachableSumsHold(env: Env, ops: seq<Op>, hex: Hex)
    requires Lawful(env) && Orderly(env, EMPTY, ops) && hex in RunOps(env, EMPTY, ops).objects
    ensures
      var dir := RunOps(env, EMPTY, ops).objects[hex];
      && SumsHold(env, dir)
      && forall name | Accompanies(RecordIn(dir), env.manifest(dir[MANIFEST_FILE]).value, name) ::
           Lists(dir[SUMS_FILE].lines, name)
  {
    RunCoherent(env, ops);
    CoherentSumsHold(env, hex, RunOps(env, EMPTY, ops).objects[hex]);
  }

  lemma ChecksumMembers(r: ArtifactRecord, debug: Option<DebugArchive>)
    ensures forall line :: line in Checksums(r, debug) <==>
      || line == SumLine(r.hex, r.archive)
      || (debug.Some? && line == SumLine(debug.value.hex, debug.value.archive))
      || (r.sbom.Some? && line == SumLine(r.sbom.value.hex, SBOM_FILE))
      || (r.provenance.Some? && line == SumLine(r.provenance.value.hex, PROVENANCE_FILE))
  {
  }
}
