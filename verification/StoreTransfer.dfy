/** Moving an artifact: export from one store, import into another. */
module StoreTransfer {
  import opened Prelude
  import opened Evidence
  import opened Order
  import opened Store
  import opened StoreCoherence
  import opened StoreCrash

  predicate Distinct(names: seq<Name>) {
    forall i, j | 0 <= i < j < |names| :: names[i] != names[j]
  }

  function Restricted(dir: Directory, names: seq<Name>): Directory {
    map name | name in names && name in dir :: dir[name]
  }

  lemma DistinctTail(names: seq<Name>)
    requires names != [] && names[0] !in names[1..]
    ensures Distinct(names[1..]) <==> Distinct(names)
  {
    var rest := names[1..];
    if Distinct(rest) {
      forall i, j | 0 <= i < j < |names| ensures names[i] != names[j] {
        assert names[j] == rest[j - 1];
        if i > 0 {
          assert names[i] == rest[i - 1];
        }
      }
    }
  }

  lemma RepeatedHead(names: seq<Name>)
    requires names != [] && names[0] in names[1..]
    ensures !Distinct(names)
  {
    var i :| 0 <= i < |names| - 1 && names[1..][i] == names[0];
    assert names[0] == names[i + 1];
  }

  lemma RestrictedNone(dir: Directory, dest: Directory)
    ensures Distinct([]) && dest + Restricted(dir, []) == dest
  {
  }

  lemma RestrictedTail(dir: Directory, names: seq<Name>, dest: Directory)
    requires names != [] && names[0] in dir && names[0] !in names[1..]
    ensures dest[names[0] := dir[names[0]]] + Restricted(dir, names[1..]) == dest + Restricted(dir, names)
  {
    assert names == [names[0]] + names[1..];
  }

  /** Copying present, distinct names into a place that has none of them yields exactly those files; a name
      that comes twice is refused. */
  lemma {:induction false} CopyAllExactly(dir: Directory, names: seq<Name>, dest: Directory)
    requires forall i | 0 <= i < |names| :: names[i] in dir && names[i] !in dest
    ensures CopyAll(dir, names, dest) == if Distinct(names) then Ok(dest + Restricted(dir, names)) else Err(WouldOverwrite)
  {
    hide Distinct, Restricted;
    if names != [] {
      var rest, dest' := names[1..], dest[names[0] := dir[names[0]]];
      assert names == [names[0]] + rest;
      assert forall i | 0 <= i < |rest| :: rest[i] == names[i + 1];
      if names[0] in rest {
        CopyStopsAt(dir, rest, dest', names[0]);
        RepeatedHead(names);
      } else {
        CopyAllExactly(dir, rest, dest');
        DistinctTail(names);
        RestrictedTail(dir, names, dest);
      }
    } else {
      RestrictedNone(dir, dest);
    }
  }

  lemma {:induction false} CopyStopsAt(dir: Directory, names: seq<Name>, dest: Directory, name: Name)
    requires forall i | 0 <= i < |names| :: names[i] in dir
    requires name in names && name in dest
    ensures CopyAll(dir, names, dest) == Err(WouldOverwrite)
  {
    if names[0] !in dest {
      assert names == [names[0]] + names[1..];
      CopyStopsAt(dir, names[1..], dest[names[0] := dir[names[0]]], name);
    }
  }

  /** The committed manifest names its debug archive like the record names the archive. */
  predicate DebugNamedLikeArchive(r: ArtifactRecord, m: Manifest) {
    m.debug.Some? && m.debug.value.archive == r.archive
  }

  lemma ExportNamesDistinct(r: ArtifactRecord, m: Manifest)
    requires WellNamed(m) && !Reserved(r.archive)
    ensures Distinct(ExportNames(r, m)) <==> !DebugNamedLikeArchive(r, m)
  {
    var names := ExportNames(r, m);
    assert names[0] == r.archive;
    if m.debug.Some? {
      assert names[1] == m.debug.value.archive;
    }
  }

  predicate Exported(r: ArtifactRecord, m: Manifest, name: Name) {
    Accompanies(r, m, name) || name == MANIFEST_FILE || name == SUMS_FILE || name == RECORD_FILE
  }

  lemma ExportNamesMembers(r: ArtifactRecord, m: Manifest)
    ensures forall name :: name in ExportNames(r, m) <==> Exported(r, m, name)
  {
  }

  lemma CoherentBacked(env: Env, st: State)
    requires Lawful(env) && Coherent(env, st)
    ensures IndexBacked(st)
  {
    forall hex | hex in st.objects ensures KeyedByDigest(st, hex) && IsDigest(hex) {
      assert CoherentDir(env, hex, st.objects[hex]);
    }
    forall r | r in st.index ensures Backed(st, r) {
      assert r.hex in st.objects;
    }
  }

  function ManifestIn(env: Env, dir: Directory): Manifest
    requires MANIFEST_FILE in dir && env.manifest(dir[MANIFEST_FILE]).Some?
  {
    env.manifest(dir[MANIFEST_FILE]).value
  }

  /** What an export of a coherent directory hands out. */
  function Package(env: Env, dir: Directory): Directory
    requires Readable(dir) && env.manifest(dir[MANIFEST_FILE]).Some?
  {
    Restricted(dir, ExportNames(RecordIn(dir), ManifestIn(env, dir)))
  }

  lemma PackageFiles(env: Env, hex: Hex, dir: Directory)
    requires CoherentDir(env, hex, dir)
    ensures forall name :: name in Package(env, dir) <==> Exported(RecordIn(dir), ManifestIn(env, dir), name)
    ensures forall name | name in Package(env, dir) :: name in dir && Package(env, dir)[name] == dir[name]
    ensures forall i | 0 <= i < |ExportNames(RecordIn(dir), ManifestIn(env, dir))| ::
      ExportNames(RecordIn(dir), ManifestIn(env, dir))[i] in dir
  {
    var names := ExportNames(RecordIn(dir), ManifestIn(env, dir));
    ExportNamesMembers(RecordIn(dir), ManifestIn(env, dir));
    forall name | name in names ensures name in dir {
    }
  }

  lemma CopyPackage(env: Env, hex: Hex, dir: Directory)
    requires CoherentDir(env, hex, dir)
    ensures var r, m := RecordIn(dir), ManifestIn(env, dir);
      CopyAll(dir, ExportNames(r, m), map[]) ==
        if DebugNamedLikeArchive(r, m) then Err(WouldOverwrite) else Ok(Package(env, dir))
  {
    var r, m := RecordIn(dir), ManifestIn(env, dir);
    PackageFiles(env, hex, dir);
    CopyAllExactly(dir, ExportNames(r, m), map[]);
    ExportNamesDistinct(r, m);
    assert map[] + Package(env, dir) == Package(env, dir);
  }

  lemma PackageVerifies(env: Env, hex: Hex, dir: Directory)
    requires CoherentDir(env, hex, dir)
    ensures var r, m, out := RecordIn(dir), ManifestIn(env, dir), Package(env, dir);
      && r.archive in out && env.hash(out[r.archive]) == r.hex
      && (m.debug.Some? ==> ClaimHolds(env, out, m.debug.value))
      && (r.sbom.Some? ==> EvidenceHolds(env, out, SBOM_FILE, r.sbom.value))
      && (r.provenance.Some? ==> EvidenceHolds(env, out, PROVENANCE_FILE, r.provenance.value))
  {
    PackageFiles(env, hex, dir);
  }

  lemma ResolveStored(env: Env, st: State, hex: Hex)
    requires Lawful(env) && Coherent(env, st) && hex in st.objects
    ensures Readable(st.objects[hex]) && Resolve(st.index, hex) == Ok(RecordIn(st.objects[hex]))
    ensures RecordIn(st.objects[hex]).hex == hex
  {
    CoherentBacked(env, st);
    ResolveBacked(st, RecordIn(st.objects[hex]));
  }

  /** Export of a stored digest into an empty directory succeeds exactly unless the debug archive is named like
      the archive; it hands out archive, promised debug archive, recorded sidecars, manifest, checksums, record. */
  lemma ExportExactly(env: Env, st: State, hex: Hex)
    requires Lawful(env) && Coherent(env, st) && hex in st.objects && CoherentDir(env, hex, st.objects[hex])
    ensures
      var dir := st.objects[hex];
      Export(env, st, hex, map[]) ==
        if DebugNamedLikeArchive(RecordIn(dir), ManifestIn(env, dir)) then Err(WouldOverwrite) else Ok(Package(env, dir))
  {
    ResolveStored(env, st, hex);
    CopyPackage(env, hex, st.objects[hex]);
    PackageVerifies(env, hex, st.objects[hex]);
  }

  /** The stored provenance still binds the composition of the manifest on disk. */
  predicate BindsComposition(env: Env, dir: Directory)
    requires Readable(dir) && env.manifest(dir[MANIFEST_FILE]).Some?
  {
    RecordIn(dir).provenance.Some? && PROVENANCE_FILE in dir ==>
      ProvenanceAccepted(env, dir[PROVENANCE_FILE], ManifestIn(env, dir))
  }

  /** What decides, before the export, whether the package can be imported elsewhere. */
  predicate Portable(env: Env, dir: Directory)
    requires Readable(dir) && env.manifest(dir[MANIFEST_FILE]).Some?
  {
    ManifestIn(env, dir).archive == RecordIn(dir).archive && BindsComposition(env, dir)
  }

  lemma ReceivePackage(env: Env, hex: Hex, dir: Directory, now: nat)
    requires Lawful(env) && CoherentDir(env, hex, dir)
    ensures
      var received := Receive(env, Package(env, dir), now);
      && (received.Ok? <==> Portable(env, dir))
      && (received.Ok? ==> received.value.record == RecordIn(dir).(created := now))
      && (received.Ok? ==>
            Staged(received.value) == Package(env, dir)[RECORD_FILE := RecordDoc(RecordIn(dir).(created := now))])
  {
    var r, m := RecordIn(dir), ManifestIn(env, dir);
    var out := Package(env, dir);
    PackageFiles(env, hex, dir);
    assert SBOM_FILE in out <==> r.sbom.Some?;
    assert PROVENANCE_FILE in out <==> r.provenance.Some?;
    assert m.archive in out <==> m.archive == r.archive;
    if m.debug.Some? {
      assert ClaimHolds(env, out, m.debug.value);
    }
    if Receive(env, out, now).Ok? {
      StagedPackage(env, hex, dir, now);
    }
  }

  /** Staging what was read off a directory writes that directory again, but for the record. */
  lemma StagingRepeats(inc: Incoming, out: Directory)
    requires WellNamed(inc.manifest)
    requires MANIFEST_FILE in out && inc.file == out[MANIFEST_FILE]
    requires inc.manifest.archive in out && inc.archive == out[inc.manifest.archive]
    requires inc.manifest.debug.Some? ==> inc.debug == InDist(out, inc.manifest.debug.value.archive)
    requires inc.sbom == InDist(out, SBOM_FILE) && inc.provenance == InDist(out, PROVENANCE_FILE)
    requires SUMS_FILE in out && out[SUMS_FILE] == SumsDoc(Checksums(inc.record, inc.manifest.debug))
    requires forall name | name in out ::
      || Reserved(name) || name == inc.manifest.archive
      || (inc.manifest.debug.Some? && name == inc.manifest.debug.value.archive)
    ensures Staged(inc) == out[RECORD_FILE := RecordDoc(inc.record)]
  {
    hide Checksums;
  }

  /** Staging an exported package reproduces it file by file, but for the record. */
  lemma StagedPackage(env: Env, hex: Hex, dir: Directory, now: nat)
    requires Lawful(env) && CoherentDir(env, hex, dir) && Receive(env, Package(env, dir), now).Ok?
    requires ManifestIn(env, dir).archive == RecordIn(dir).archive
    ensures Staged(Receive(env, Package(env, dir), now).value)
         == Package(env, dir)[RECORD_FILE := RecordDoc(RecordIn(dir).(created := now))]
  {
    var out := Package(env, dir);
    PackageFiles(env, hex, dir);
    StagingRepeats(Receive(env, out, now).value, out);
  }

  /** From every reachable store: export of a stored digest into an empty directory followed by import of that
      directory into an empty store succeeds exactly when the stored manifest and the record agree on the
      archive's name and the provenance binds the manifest's composition. The new record then differs from the
      old in its creation time alone: same digest, identities and evidence digests. */
  lemma ExportThenImport(env: Env, ops: seq<Op>, hex: Hex, now: nat)
    requires Lawful(env) && Orderly(env, EMPTY, ops) && hex in RunOps(env, EMPTY, ops).objects
    ensures
      var st := RunOps(env, EMPTY, ops);
      var dir := st.objects[hex];
      && Readable(dir) && env.manifest(dir[MANIFEST_FILE]).Some?
      && var package := Export(env, st, hex, map[]);
      && (package.Ok? && Import(env, EMPTY, package.value, now).result.Ok? <==> Portable(env, dir))
      && (Portable(env, dir) ==>
            var out := Import(env, EMPTY, package.value, now);
            var r := RecordIn(dir).(created := now);
            out.result == Ok(r) && out.state == State(map[hex := package.value[RECORD_FILE := RecordDoc(r)]], [r]))
  {
    RunCoherent(env, ops);
    var st := RunOps(env, EMPTY, ops);
    var dir := st.objects[hex];
    assert CoherentDir(env, hex, dir);
    ExportExactly(env, st, hex);
    ReceivePackage(env, hex, dir, now);
    assert Portable(env, dir) ==> !DebugNamedLikeArchive(RecordIn(dir), ManifestIn(env, dir));
    UpsertOne(RecordIn(dir).(created := now));
  }

  lemma UpsertOne(r: ArtifactRecord)
    ensures Upsert([], r) == [r]
  {
    assert Sort(RecordLess, [r]) == Insert(RecordLess, r, Sort(RecordLess, []));
  }

  /** A manifest that is not a composed runtime never loses its provenance binding. */
  lemma OnlyCompositionsUnbind(env: Env, hex: Hex, dir: Directory)
    requires CoherentDir(env, hex, dir) && ManifestIn(env, dir).composition.None?
    ensures BindsComposition(env, dir)
  {
    if RecordIn(dir).provenance.Some? {
      AttestedIsAccepted(env, dir[PROVENANCE_FILE], ManifestIn(env, dir));
    }
  }
}
