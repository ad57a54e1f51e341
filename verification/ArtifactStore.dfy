/** The store as the source has it: an object whose methods write files one after the other. Each method is
    proved against the functions of module `Store`, which the invariants and theorems are about. */
module ArtifactStore {
  import opened Prelude
  import opened Evidence
  import opened Store
  import Order
  import StoreCoherence

  /** Evidence is never dropped silently: each sidecar offered is attached or skipped, not both, and no other. */
  predicate AccountsFor(attached: seq<Name>, skipped: seq<Name>, sbom: bool, provenance: bool) {
    multiset(attached) + multiset(skipped) ==
      (if sbom then multiset{SBOM_FILE} else multiset{}) + (if provenance then multiset{PROVENANCE_FILE} else multiset{})
  }

  /** The object directory, and the result, with which a re-import that was not refused ends. */
  function End(env: Env, dir: Directory, inc: Incoming): (Directory, Result<ArtifactRecord, ImportError>)
    requires Readable(dir)
  {
    if RepairFails(env, dir, inc) then (D1(dir, inc), Err(DebugMismatch))
    else if SbomFails(env, dir, inc) then (D2(dir, inc), Err(EvidenceDigestMismatch))
    else if ProvenanceFails(env, dir, inc) then (D3(env, dir, inc), Err(EvidenceDigestMismatch))
    else if CommitFails(env, dir, inc) then (D5(env, dir, inc), Err(DebugMismatch))
    else if StoredManifestFails(env, dir, inc) then (D7(env, dir, inc), Err(InvalidManifest))
    else (D8(env, dir, inc), Ok(NewRecord(env, dir, inc)))
  }

  lemma EndIsReimport(env: Env, st: State, inc: Incoming, dir: Directory)
    requires inc.record.hex in st.objects && st.objects[inc.record.hex] == dir && Readable(dir) && Refusal(dir, inc).None?
    ensures var (d, r) := End(env, dir, inc);
      Store.Reimport(env, st, inc) ==
        Outcome(State(st.objects[inc.record.hex := d], if r.Ok? then Upsert(st.index, r.value) else st.index), r)
  {
    hide RepairFails, SbomFails, ProvenanceFails, CommitFails, StoredManifestFails, D1, D2, D3, D5, D7, D8, NewRecord,
      Refusal, Upsert, Readable;
  }

  class ArtifactStore {
    var objects: map<Hex, Directory>
    var index: seq<ArtifactRecord>

    function View(): State
      reads this
    {
      State(objects, index)
    }

    constructor ()
      ensures View() == EMPTY
    {
      objects, index := map[], [];
    }

    /** One atomic `rename` or `write_atomic` inside an object directory. */
    method WriteFile(hex: Hex, name: Name, file: File)
      requires hex in objects
      modifies this`objects
      ensures objects == old(objects)[hex := old(objects)[hex][name := file]]
    {
      objects := objects[hex := objects[hex][name := file]];
    }

    /** Copy the promised debug archive in if it is missing, then verify what is there. */
    method MaterializeDebugArchive(env: Env, hex: Hex, inc: Incoming) returns (ok: bool)
      requires hex in objects && inc.manifest.debug.Some? && inc.debug.Some?
      modifies this`objects
      ensures objects == old(objects)[hex := Materialized(old(objects)[hex], inc)]
      ensures ok == ClaimHolds(env, objects[hex], inc.manifest.debug.value)
    {
      var d := inc.manifest.debug.value;
      if d.archive !in objects[hex] {
        WriteFile(hex, d.archive, inc.debug.value);
      }
      ok := ClaimHolds(env, objects[hex], d);
      assert objects == old(objects)[hex := objects[hex]];
    }

    /** `write_index`: sorted by digest, whatever order the records come in. */
    method WriteIndex(records: seq<ArtifactRecord>)
      modifies this`index
      ensures index == Order.Sort(RecordLess, records)
    {
      index := Order.Sort(RecordLess, records);
    }

    /** `index_upsert`: the index then holds this record, the entries of all other digests and nothing else, in
        order of digest, and one entry per digest if it held one per digest before. */
    method IndexUpsert(r: ArtifactRecord)
      modifies this`index
      ensures index == Upsert(old(index), r)
      ensures forall x :: x in index <==> x == r || (x in old(index) && x.hex != r.hex)
      ensures Order.Ascending(RecordLess, index)
      ensures Order.StrictlyAscending(RecordLess, old(index)) ==> Order.StrictlyAscending(RecordLess, index)
    {
      var records := Without(index, r.hex);
      records := records + [r];
      WriteIndex(records);
      StoreCoherence.UpsertMeans(old(index), r);
      if Order.StrictlyAscending(RecordLess, old(index)) {
        StoreCoherence.UpsertKeeps(old(index), r);
      }
    }

    method Import(env: Env, dist: Directory, now: nat)
      returns (r: Result<ArtifactRecord, ImportError>, attached: seq<Name>, skipped: seq<Name>)
      modifies this
      ensures Outcome(View(), r) == Store.Import(env, old(View()), dist, now)
      ensures r.Ok? ==> AccountsFor(attached, skipped, SBOM_FILE in dist, PROVENANCE_FILE in dist)
    {
      attached, skipped := [], [];
      var received := Receive(env, dist, now);
      if received.Err? {
        return Err(received.error), [], [];
      }
      var inc := received.value;
      var hex := inc.record.hex;
      if hex in objects && RECORD_FILE in objects[hex] {
        if !Readable(objects[hex]) {
          return Err(Io), [], [];
        }
        r, attached, skipped := Reimport(env, inc);
        return;
      }
      if hex in objects {
        return Err(Io), [], [];
      }
      objects := objects[hex := Staged(inc)];
      if inc.sbom.Some? {
        attached := attached + [SBOM_FILE];
      }
      if inc.provenance.Some? {
        attached := attached + [PROVENANCE_FILE];
      }
      IndexUpsert(inc.record);
      r := Ok(inc.record);
    }

    /** The already-stored path of `import`. */
    method Reimport(env: Env, inc: Incoming)
      returns (r: Result<ArtifactRecord, ImportError>, attached: seq<Name>, skipped: seq<Name>)
      requires inc.record.hex in objects && Readable(objects[inc.record.hex])
      requires inc.manifest.debug.Some? ==> inc.debug.Some?
      modifies this
      ensures Outcome(View(), r) == Store.Reimport(env, old(View()), inc)
      ensures r.Ok? ==> AccountsFor(attached, skipped, inc.sbom.Some?, inc.provenance.Some?)
    {
      attached, skipped := [], [];
      var hex := inc.record.hex;
      ghost var dir := objects[hex];
      var storedManifest := objects[hex][MANIFEST_FILE];
      var committed := storedManifest == inc.file;

      var refusal, existing, enriched := Reconcile(objects[hex], inc, committed);
      if refusal.Some? {
        return Err(refusal.value), [], [];
      }
      EndIsReimport(env, View(), inc, dir);
      r, attached, skipped := WriteReimport(env, inc, existing, enriched, storedManifest, dir);
      if r.Ok? {
        IndexUpsert(r.value);
      }
    }

    /** The writes of a re-import inside the object directory, in order. */
    method WriteReimport(env: Env, inc: Incoming, existing: ArtifactRecord, enriched: bool, storedManifest: File,
                         ghost dir: Directory)
      returns (r: Result<ArtifactRecord, ImportError>, attached: seq<Name>, skipped: seq<Name>)
      requires inc.record.hex in objects && objects[inc.record.hex] == dir && Readable(dir)
      requires inc.manifest.debug.Some? ==> inc.debug.Some?
      requires existing == RecordIn(dir).(identity := NewIdentity(dir, inc)) && enriched == Enriches(dir, inc)
      requires storedManifest == dir[MANIFEST_FILE]
      modifies this`objects
      ensures objects == old(objects)[inc.record.hex := End(env, dir, inc).0] && r == End(env, dir, inc).1
      ensures r.Ok? ==> AccountsFor(attached, skipped, inc.sbom.Some?, inc.provenance.Some?)
    {
      attached, skipped := [], [];
      var hex, same := inc.record.hex, storedManifest == inc.file;
      var ok := RepairCommitted(env, inc, existing, same, dir);
      if !ok {
        return Err(DebugMismatch), [], [];
      }
      ok, attached, skipped := AttachEvidence(env, inc, existing, dir);
      assert objects == old(objects)[hex := objects[hex]];
      if !ok {
        return Err(EvidenceDigestMismatch), [], [];
      }
      ok := CommitManifest(env, inc, same, PROVENANCE_FILE in attached || enriched, dir);
      assert objects == old(objects)[hex := objects[hex]];
      if !ok {
        return Err(DebugMismatch), [], [];
      }
      r := RewriteRecord(env, inc, existing, storedManifest, attached != [] || enriched, dir);
      assert objects == old(objects)[hex := objects[hex]];
    }

    /** Compare stored and incoming identities: refuse, or take over what the stored record lacks. */
    method Reconcile(dir: Directory, inc: Incoming, committed: bool)
      returns (refusal: Option<ImportError>, existing: ArtifactRecord, enriched: bool)
      requires Readable(dir) && committed == SameManifest(dir, inc)
      ensures refusal == Refusal(dir, inc)
      ensures refusal.None? ==> enriched == Enriches(dir, inc)
      ensures refusal.None? ==> existing == RecordIn(dir).(identity := NewIdentity(dir, inc))
    {
      existing, enriched := RecordIn(dir), false;
      var evidence := inc.sbom.Some? || inc.provenance.Some?;
      if Conflict(existing.identity, inc.record.identity, evidence) {
        return Some(IdentityConflict), existing, false;
      }
      var requested := EnrichmentRequested(existing.identity, inc.record.identity);
      var bound := EnrichmentBound(existing.identity, inc.record.identity, inc.sbom.Some?, inc.provenance.Some?);
      if !committed && evidence && requested && !bound {
        return Some(EvidenceIncomplete), existing, false;
      }
      if committed || (requested && bound) {
        existing, enriched := Enrich(existing, inc.record.identity);
      }
      refusal := None;
    }

    /** An unchanged manifest has its debug archive and checksum file repaired in place. */
    method RepairCommitted(env: Env, inc: Incoming, existing: ArtifactRecord, committed: bool, ghost dir: Directory)
      returns (ok: bool)
      requires inc.record.hex in objects && objects[inc.record.hex] == dir && Readable(dir)
      requires committed == SameManifest(dir, inc) && (inc.manifest.debug.Some? ==> inc.debug.Some?)
      requires existing == RecordIn(dir).(identity := existing.identity)
      modifies this`objects
      ensures ok == !RepairFails(env, dir, inc)
      ensures objects == old(objects)[inc.record.hex := if ok then D2(dir, inc) else D1(dir, inc)]
    {
      ok := true;
      if committed && inc.manifest.debug.Some? {
        ok := MaterializeDebugArchive(env, inc.record.hex, inc);
        if ok {
          WriteFile(inc.record.hex, SUMS_FILE, SumsDoc(Checksums(existing, inc.manifest.debug)));
        }
      }
      assert objects == old(objects)[inc.record.hex := objects[inc.record.hex]];
    }

    /** The evidence loop: SBOM, then provenance. */
    method AttachEvidence(env: Env, inc: Incoming, existing: ArtifactRecord, ghost dir: Directory)
      returns (ok: bool, attached: seq<Name>, skipped: seq<Name>)
      requires Readable(dir) && inc.record.hex in objects && objects[inc.record.hex] == D2(dir, inc)
      requires existing == RecordIn(dir).(identity := existing.identity)
      modifies this`objects
      ensures ok == !(SbomFails(env, dir, inc) || ProvenanceFails(env, dir, inc))
      ensures objects == old(objects)[inc.record.hex :=
        if SbomFails(env, dir, inc) then D2(dir, inc)
        else if ProvenanceFails(env, dir, inc) then D3(env, dir, inc) else D4(env, dir, inc)]
      ensures ok ==> AccountsFor(attached, skipped, inc.sbom.Some?, inc.provenance.Some?)
      ensures ok ==> (attached != [] <==> AttachesSbom(env, dir, inc) || AttachesProvenance(env, dir, inc))
      ensures ok ==> (PROVENANCE_FILE in attached <==> AttachesProvenance(env, dir, inc))
    {
      var hex := inc.record.hex;
      ok, attached, skipped := true, [], [];
      if inc.sbom.Some? {
        var bound := AttachOrSkip(env, hex, SBOM_FILE, inc.sbom.value, existing.sbom);
        if bound {
          if !EvidenceHolds(env, objects[hex], SBOM_FILE, EvidenceOf(env, inc.sbom.value)) {
            assert objects == old(objects)[hex := objects[hex]];
            return false, [], [];
          }
          skipped := skipped + [SBOM_FILE];
        } else {
          attached := attached + [SBOM_FILE];
        }
      }
      assert objects[hex] == D3(env, dir, inc) && objects == old(objects)[hex := objects[hex]];
      if inc.provenance.Some? {
        var bound := AttachOrSkip(env, hex, PROVENANCE_FILE, inc.provenance.value, existing.provenance);
        if bound {
          if !EvidenceHolds(env, objects[hex], PROVENANCE_FILE, EvidenceOf(env, inc.provenance.value)) {
            return false, [], [];
          }
          skipped := skipped + [PROVENANCE_FILE];
        } else {
          attached := attached + [PROVENANCE_FILE];
        }
      }
    }

    /** Commit the incoming manifest, and the debug archive it promises, if it must replace the stored one. */
    method CommitManifest(env: Env, inc: Incoming, same: bool, needed: bool, ghost dir: Directory) returns (ok: bool)
      requires Readable(dir) && inc.record.hex in objects && objects[inc.record.hex] == D4(env, dir, inc)
      requires inc.manifest.debug.Some? ==> inc.debug.Some?
      requires same == SameManifest(dir, inc) && needed == (AttachesProvenance(env, dir, inc) || Enriches(dir, inc))
      modifies this`objects
      ensures ok == !CommitFails(env, dir, inc)
      ensures objects == old(objects)[inc.record.hex := if ok then D6(env, dir, inc) else D5(env, dir, inc)]
    {
      ok := true;
      if needed && !same {
        if inc.manifest.debug.Some? {
          ok := MaterializeDebugArchive(env, inc.record.hex, inc);
        }
        if ok {
          WriteFile(inc.record.hex, MANIFEST_FILE, inc.file);
        }
      }
      assert objects == old(objects)[inc.record.hex := objects[inc.record.hex]];
    }

    /** Write the record and the checksum file of the manifest that is on disk now. */
    method RewriteRecord(env: Env, inc: Incoming, record: ArtifactRecord, storedManifest: File, needed: bool,
                         ghost dir: Directory)
      returns (r: Result<ArtifactRecord, ImportError>)
      requires Readable(dir) && inc.record.hex in objects && objects[inc.record.hex] == D6(env, dir, inc)
      requires record == RecordIn(dir).(identity := NewIdentity(dir, inc))
      requires storedManifest == dir[MANIFEST_FILE] && needed == Rewrites(env, dir, inc)
      modifies this`objects
      ensures r == if StoredManifestFails(env, dir, inc) then Err(InvalidManifest) else Ok(NewRecord(env, dir, inc))
      ensures objects == old(objects)[inc.record.hex := if r.Ok? then D8(env, dir, inc) else D7(env, dir, inc)]
    {
      var hex, existing := inc.record.hex, record;
      if needed {
        if inc.sbom.Some? {
          existing := existing.(sbom := inc.record.sbom);
        }
        if inc.provenance.Some? {
          existing := existing.(provenance := inc.record.provenance);
        }
        WriteFile(hex, RECORD_FILE, RecordDoc(existing));
        var debug := inc.manifest.debug;
        if objects[hex][MANIFEST_FILE] != inc.file {
          if env.manifest(storedManifest).None? {
            assert objects == old(objects)[hex := objects[hex]];
            return Err(InvalidManifest);
          }
          debug := env.manifest(storedManifest).value.debug;
        }
        WriteFile(hex, SUMS_FILE, SumsDoc(Checksums(existing, debug)));
      }
      assert objects == old(objects)[hex := objects[hex]];
      r := Ok(existing);
    }

    /** Fill in, field by field, the identities the stored record lacks. */
    method Enrich(record: ArtifactRecord, incoming: Identity) returns (out: ArtifactRecord, enriched: bool)
      ensures out == record.(identity := Enriched(record.identity, incoming))
      ensures enriched == EnrichmentRequested(record.identity, incoming)
    {
      out, enriched := record, false;
      if out.identity.source.None? && incoming.source.Some? {
        out, enriched := out.(identity := out.identity.(source := incoming.source)), true;
      }
      if out.identity.dependencies == [] && incoming.dependencies != [] {
        out, enriched := out.(identity := out.identity.(dependencies := incoming.dependencies)), true;
      }
      if out.identity.openusd.None? && incoming.openusd.Some? {
        out, enriched := out.(identity := out.identity.(openusd := incoming.openusd)), true;
      }
      if out.identity.verification.None? && incoming.verification.Some? {
        out, enriched := out.(identity := out.identity.(verification := incoming.verification)), true;
      }
    }

    /** One round of the evidence loop: nothing to do if the sidecar is stored and referenced already. */
    method AttachOrSkip(env: Env, hex: Hex, name: Name, file: File, stored: Option<EvidenceDigest>) returns (bound: bool)
      requires hex in objects
      modifies this`objects
      ensures bound == AlreadyBound(stored, EvidenceOf(env, file), old(objects)[hex], name)
      ensures objects == if bound then old(objects) else old(objects)[hex := old(objects)[hex][name := file]]
    {
      bound := AlreadyBound(stored, EvidenceOf(env, file), objects[hex], name);
      if !bound {
        WriteFile(hex, name, file);
      }
    }

    /** `remove`: the index entry first, then the object directory. */
    method Remove(reference: string) returns (r: Result<ArtifactRecord, ResolveError>)
      modifies this
      ensures r == Resolve(old(index), reference)
      ensures View() == Store.Remove(old(View()), reference)
    {
      r := Resolve(index, reference);
      if r.Ok? {
        index := Without(index, r.value.hex);
        objects := objects - {r.value.hex};
      }
    }
  }
}
