/** Producer identities are write-once, and a refused import changes nothing — from any store whatsoever. */
module StoreHistory {
  import opened Prelude
  import opened Evidence
  import opened Store
  import opened StoreCoherence

  /** Every identity that was set is still the same. */
  predicate Extends(before: Identity, after: Identity) {
    && (before.source.Some? ==> after.source == before.source)
    && (before.dependencies != [] ==> after.dependencies == before.dependencies)
    && (before.openusd.Some? ==> after.openusd == before.openusd)
    && (before.verification.Some? ==> after.verification == before.verification)
  }

  predicate HasRecord(st: State, hex: Hex) {
    hex in st.objects && Readable(st.objects[hex])
  }

  function IdentityOf(st: State, hex: Hex): Identity
    requires HasRecord(st, hex)
  {
    RecordIn(st.objects[hex]).identity
  }

  /** No write before the seventh touches the record, and the seventh writes the new one. */
  lemma RecordAfter(k: nat, env: Env, dir: Directory, inc: Incoming)
    requires Readable(dir)
    ensures Readable(DirAfter(k, env, dir, inc))
    ensures RecordIn(DirAfter(k, env, dir, inc)) == if k < 7 then RecordIn(dir) else NewRecord(env, dir, inc)
  {
  }

  /** An import leaves a stored identity alone or enriches it from the manifest it brought. */
  lemma IdentityAfter(env: Env, st: State, dist: Directory, now: nat, hex: Hex)
    requires HasRecord(st, hex)
    ensures HasRecord(Import(env, st, dist, now).state, hex)
    ensures
      var before, after := IdentityOf(st, hex), IdentityOf(Import(env, st, dist, now).state, hex);
      after != before ==>
        && Receive(env, dist, now).Ok? && Receive(env, dist, now).value.record.hex == hex
        && Enriches(st.objects[hex], Receive(env, dist, now).value)
        && after == NewIdentity(st.objects[hex], Receive(env, dist, now).value)
  {
    hide Receive, Refusal, Failure, Upsert, DirAfter, Staged;
    if Receive(env, dist, now).Ok? && Receive(env, dist, now).value.record.hex == hex {
      var inc := Receive(env, dist, now).value;
      var stop := Failure(env, st.objects[hex], inc);
      RecordAfter(if stop.Some? then stop.value.writes else 8, env, st.objects[hex], inc);
    }
  }

  lemma ImportKeepsIdentity(env: Env, st: State, dist: Directory, now: nat, hex: Hex)
    requires HasRecord(st, hex)
    ensures HasRecord(Import(env, st, dist, now).state, hex)
    ensures Extends(IdentityOf(st, hex), IdentityOf(Import(env, st, dist, now).state, hex))
  {
    IdentityAfter(env, st, dist, now, hex);
  }

  /** An operation run to its end, or cut off after some of its writes. */
  datatype Attempt = Whole(op: Op) | ImportCut(dist: Directory, now: nat, writes: nat) | RemoveCut(reference: string)

  function Attempted(env: Env, st: State, a: Attempt): State {
    match a
    case Whole(op) => Do(env, st, op)
    case ImportCut(dist, now, k) => CutImport(env, st, dist, now, k)
    case RemoveCut(reference) => CutRemove(st, reference)
  }

  function RunAttempts(env: Env, st: State, attempts: seq<Attempt>): State {
    if attempts == [] then st
    else Attempted(env, RunAttempts(env, st, attempts[..|attempts| - 1]), attempts[|attempts| - 1])
  }

  lemma CutImportKeepsIdentity(env: Env, st: State, dist: Directory, now: nat, k: nat, hex: Hex)
    requires HasRecord(st, hex)
    ensures HasRecord(CutImport(env, st, dist, now, k), hex)
    ensures Extends(IdentityOf(st, hex), IdentityOf(CutImport(env, st, dist, now, k), hex))
  {
    hide Receive, Failure, DirAfter, Staged;
    if Receive(env, dist, now).Ok? && Receive(env, dist, now).value.record.hex == hex {
      var inc := Receive(env, dist, now).value;
      var stop := Failure(env, st.objects[hex], inc);
      RecordAfter(if stop.Some? && stop.value.writes < k then stop.value.writes else k, env, st.objects[hex], inc);
    }
  }

  /** No remove of the run that gets to its second write takes the digest away. */
  predicate Spares(env: Env, st: State, attempts: seq<Attempt>, hex: Hex) {
    attempts == [] ||
    (&& Spares(env, st, attempts[..|attempts| - 1], hex)
     && (attempts[|attempts| - 1].Whole? && attempts[|attempts| - 1].op.RemoveOp? ==>
           var found := Resolve(RunAttempts(env, st, attempts[..|attempts| - 1]).index, attempts[|attempts| - 1].op.reference);
           found.Ok? ==> found.value.hex != hex))
  }

  /** Between removes, no sequence of imports, each finished, failed or cut off at any of its writes, changes an
      identity that is already set. */
  lemma {:induction false} IdentitiesAreWriteOnce(env: Env, st: State, attempts: seq<Attempt>, hex: Hex)
    requires HasRecord(st, hex) && Spares(env, st, attempts, hex)
    ensures HasRecord(RunAttempts(env, st, attempts), hex)
    ensures Extends(IdentityOf(st, hex), IdentityOf(RunAttempts(env, st, attempts), hex))
  {
    if attempts != [] {
      var before, a := RunAttempts(env, st, attempts[..|attempts| - 1]), attempts[|attempts| - 1];
      IdentitiesAreWriteOnce(env, st, attempts[..|attempts| - 1], hex);
      match a
      case Whole(ImportOp(dist, now)) => ImportKeepsIdentity(env, before, dist, now, hex);
      case ImportCut(dist, now, k) => CutImportKeepsIdentity(env, before, dist, now, k, hex);
      case _ =>
    }
  }

  /** An identity that an import adds under a differing manifest is bound by the evidence it brought: a source
      by provenance that attests it, dependencies by an SBOM that lists them; OpenUSD identities never are. */
  lemma AddedIdentityIsBound(env: Env, st: State, dist: Directory, now: nat, hex: Hex)
    requires HasRecord(st, hex) && MANIFEST_FILE in dist && dist[MANIFEST_FILE] != st.objects[hex][MANIFEST_FILE]
    ensures HasRecord(Import(env, st, dist, now).state, hex)
    ensures
      var before, after := IdentityOf(st, hex), IdentityOf(Import(env, st, dist, now).state, hex);
      && (after.source != before.source ==>
            && PROVENANCE_FILE in dist && env.provenance(dist[PROVENANCE_FILE]).Some?
            && AttestedSource(env.provenance(dist[PROVENANCE_FILE]).value, hex) == after.source)
      && (after.dependencies != before.dependencies ==>
            SBOM_FILE in dist && SbomAccepted(env, dist[SBOM_FILE], hex, after.dependencies))
      && after.openusd == before.openusd && after.verification == before.verification
  {
    IdentityAfter(env, st, dist, now, hex);
    if IdentityOf(Import(env, st, dist, now).state, hex) != IdentityOf(st, hex) {
      var inc := Receive(env, dist, now).value;
      ReceiveVouches(env, dist, now);
      EnrichmentNeedsEvidence(st.objects[hex], inc);
      if inc.provenance.Some? {
        AcceptedAttests(env, inc.provenance.value, inc.manifest);
      }
    }
  }

  /** An import refused as a conflict or as incomplete evidence leaves the whole store unchanged. */
  lemma RefusedLeavesStore(env: Env, st: State, dist: Directory, now: nat)
    requires Import(env, st, dist, now).result == Err(IdentityConflict)
          || Import(env, st, dist, now).result == Err(EvidenceIncomplete)
    ensures Import(env, st, dist, now).state == st
  {
    assert Receive(env, dist, now).Ok?;
  }

  /** Refusals are exact: a re-import is refused as a conflict if and only if some identity is set on the
      stored side and the incoming one differs from it, or is absent although evidence comes along. */
  lemma ConflictExactly(env: Env, st: State, dist: Directory, now: nat)
    requires Receive(env, dist, now).Ok? && HasRecord(st, Receive(env, dist, now).value.record.hex)
    ensures
      var inc := Receive(env, dist, now).value;
      var stored, incoming := IdentityOf(st, inc.record.hex), inc.record.identity;
      Import(env, st, dist, now).result == Err(IdentityConflict)
      <==> !Extends(stored, Enriched(incoming, stored)) || (HasEvidence(inc) && !Extends(stored, incoming))
  {
  }
}
