/** Running a cut-off import again: record and index end up as if nothing had happened. */
module StoreRerun {
  import opened Prelude
  import opened Evidence
  import opened Order
  import opened Store
  import opened StoreCoherence
  import opened StoreHistory
  import opened StoreCrash

  /** A re-import of a coherent directory that will succeed. */
  ghost predicate Succeeds(env: Env, dir: Directory, inc: Incoming) {
    Meets(env, dir, inc) && Refusal(dir, inc).None? && !DebugClash(env, dir, inc)
  }

  /** Starting over from `cut` comes to the same record and directory as starting from `dir`. */
  predicate SameEnd(env: Env, dir: Directory, cut: Directory, inc: Incoming) {
    && Readable(dir) && Readable(cut)
    && Refusal(cut, inc).None? && Failure(env, cut, inc).None?
    && NewRecord(env, cut, inc) == NewRecord(env, dir, inc)
    && D8(env, cut, inc) == D8(env, dir, inc)
  }

  /** In a coherent directory the repairs of an unchanged manifest change nothing. */
  lemma RepairsAreNoops(env: Env, dir: Directory, inc: Incoming)
    requires Meets(env, dir, inc)
    ensures D1(dir, inc) == dir && D2(dir, inc) == dir
  {
    if SameManifest(dir, inc) && inc.manifest.debug.Some? {
      assert dir[SUMS_FILE] == SumsDoc(Checksums(RecordIn(dir), inc.manifest.debug));
    }
  }

  /** What is attached does not depend on whether an earlier, cut-off run already renamed it into place. */
  lemma SameAttachments(env: Env, dir: Directory, cut: Directory, inc: Incoming)
    requires Meets(env, dir, inc) && Readable(cut) && RecordIn(cut) == RecordIn(dir)
    requires forall name | name in dir :: name in cut
    requires D2(cut, inc).Keys == cut.Keys
    ensures AttachesSbom(env, cut, inc) == AttachesSbom(env, dir, inc)
    ensures AttachesProvenance(env, cut, inc) == AttachesProvenance(env, dir, inc)
  {
    RepairsAreNoops(env, dir, inc);
  }

  /** With record and manifest still the old ones, every decision is taken as before. */
  lemma SameDecisions(env: Env, dir: Directory, cut: Directory, inc: Incoming)
    requires Readable(dir) && Readable(cut)
    requires RecordIn(cut) == RecordIn(dir) && cut[MANIFEST_FILE] == dir[MANIFEST_FILE]
    requires AttachesSbom(env, cut, inc) == AttachesSbom(env, dir, inc)
    requires AttachesProvenance(env, cut, inc) == AttachesProvenance(env, dir, inc)
    ensures Refusal(cut, inc) == Refusal(dir, inc)
    ensures Commits(env, cut, inc) == Commits(env, dir, inc) && Rewrites(env, cut, inc) == Rewrites(env, dir, inc)
    ensures NewRecord(env, cut, inc) == NewRecord(env, dir, inc)
    ensures CommittedDebug(env, cut, inc) == CommittedDebug(env, dir, inc)
  {
  }

  lemma SameTail(env: Env, dir: Directory, cut: Directory, inc: Incoming)
    requires Readable(dir) && Readable(cut)
    requires RecordIn(cut) == RecordIn(dir) && cut[MANIFEST_FILE] == dir[MANIFEST_FILE]
    requires AttachesSbom(env, cut, inc) == AttachesSbom(env, dir, inc)
    requires AttachesProvenance(env, cut, inc) == AttachesProvenance(env, dir, inc)
    requires D5(env, cut, inc) == D5(env, dir, inc)
    ensures D8(env, cut, inc) == D8(env, dir, inc)
  {
    SameDecisions(env, dir, cut, inc);
    assert D6(env, cut, inc) == D6(env, dir, inc);
  }

  /** The files on which the repairs depend are as in `dir`. */
  predicate KeepsBase(dir: Directory, cut: Directory) {
    && Readable(dir) && Readable(cut)
    && RecordIn(cut) == RecordIn(dir) && cut[MANIFEST_FILE] == dir[MANIFEST_FILE]
    && (SUMS_FILE in dir ==> SUMS_FILE in cut && cut[SUMS_FILE] == dir[SUMS_FILE])
    && (forall name | name in dir :: name in cut)
  }

  lemma CutKeepsBase(env: Env, dir: Directory, inc: Incoming, k: nat)
    requires Meets(env, dir, inc) && k <= 5
    ensures KeepsBase(dir, DirAfter(k, env, dir, inc))
  {
    RepairsAreNoops(env, dir, inc);
  }

  lemma RepairsStillNoops(env: Env, dir: Directory, cut: Directory, inc: Incoming)
    requires Meets(env, dir, inc) && KeepsBase(dir, cut)
    ensures D1(cut, inc) == cut && D2(cut, inc) == cut
  {
    if SameManifest(dir, inc) && inc.manifest.debug.Some? {
      assert inc.manifest.debug.value.archive in cut;
      assert cut[SUMS_FILE] == SumsDoc(Checksums(RecordIn(dir), inc.manifest.debug));
    }
  }

  /** Each of the writes up to the debug archive is idempotent. */
  lemma WritesAreIdempotent(env: Env, dir: Directory, inc: Incoming, k: nat)
    requires Meets(env, dir, inc) && k <= 5
    ensures var cut := DirAfter(k, env, dir, inc);
      && KeepsBase(dir, cut)
      && AttachesSbom(env, cut, inc) == AttachesSbom(env, dir, inc)
      && AttachesProvenance(env, cut, inc) == AttachesProvenance(env, dir, inc)
      && D5(env, cut, inc) == D5(env, dir, inc)
  {
    var cut := DirAfter(k, env, dir, inc);
    RepairsAreNoops(env, dir, inc);
    CutKeepsBase(env, dir, inc, k);
    RepairsStillNoops(env, dir, cut, inc);
    SameAttachments(env, dir, cut, inc);
    SameDecisions(env, dir, cut, inc);
    if k >= 3 {
      SidecarsIdempotent(env, dir, inc, k);
    }
  }

  lemma SidecarsIdempotent(env: Env, dir: Directory, inc: Incoming, k: nat)
    requires Readable(dir) && WellNamed(inc.manifest) && 3 <= k <= 5 && D2(dir, inc) == dir
    requires var cut := DirAfter(k, env, dir, inc);
      && Readable(cut) && D2(cut, inc) == cut
      && AttachesSbom(env, cut, inc) == AttachesSbom(env, dir, inc)
      && AttachesProvenance(env, cut, inc) == AttachesProvenance(env, dir, inc)
      && Commits(env, cut, inc) == Commits(env, dir, inc)
    ensures D5(env, DirAfter(k, env, dir, inc), inc) == D5(env, dir, inc)
  {
    var cut := DirAfter(k, env, dir, inc);
    assert D3(env, cut, inc) == cut;
    assert k >= 4 ==> D4(env, cut, inc) == cut;
    assert k == 5 ==> D5(env, cut, inc) == cut;
  }

  lemma NoFailureAgain(env: Env, dir: Directory, inc: Incoming, k: nat)
    requires Succeeds(env, dir, inc) && k <= 5 && Readable(DirAfter(k, env, dir, inc))
    ensures Failure(env, DirAfter(k, env, dir, inc), inc).None?
  {
    var cut := DirAfter(k, env, dir, inc);
    WritesAreIdempotent(env, dir, inc, k);
    RepairsStillNoops(env, dir, cut, inc);
    SameDecisions(env, dir, cut, inc);
    FailsOnlyOnDebugClash(env, dir, inc);
    RepairsAreNoops(env, dir, inc);
    if SameManifest(dir, inc) && inc.manifest.debug.Some? {
      OtherFilesKept(env, dir, inc, k, inc.manifest.debug.value.archive);
    }
    BoundSidecarsKept(env, dir, inc, k);
  }

  lemma BoundSidecarsKept(env: Env, dir: Directory, inc: Incoming, k: nat)
    requires Succeeds(env, dir, inc) && k <= 5 && D2(dir, inc) == dir
    ensures var cut := DirAfter(k, env, dir, inc);
      && Readable(cut)
      && (inc.sbom.Some? && !AttachesSbom(env, dir, inc) ==>
            EvidenceHolds(env, cut, SBOM_FILE, EvidenceOf(env, inc.sbom.value)))
      && (inc.provenance.Some? && !AttachesProvenance(env, dir, inc) ==>
            EvidenceHolds(env, cut, PROVENANCE_FILE, EvidenceOf(env, inc.provenance.value)))
  {
    NoEvidenceFailure(env, dir, inc);
  }

  /** Cut off before the manifest is replaced. */
  lemma RerunBeforeManifest(env: Env, dir: Directory, inc: Incoming, k: nat)
    requires Succeeds(env, dir, inc) && k <= 5
    ensures SameEnd(env, dir, DirAfter(k, env, dir, inc), inc)
  {
    var cut := DirAfter(k, env, dir, inc);
    WritesAreIdempotent(env, dir, inc, k);
    SameDecisions(env, dir, cut, inc);
    SameTail(env, dir, cut, inc);
    NoFailureAgain(env, dir, inc, k);
  }

  /** The directory right after the incoming manifest has replaced the stored one. */
  lemma CommittedDirectory(env: Env, dir: Directory, inc: Incoming)
    requires Succeeds(env, dir, inc) && Commits(env, dir, inc)
    ensures var cut := D6(env, dir, inc);
      && Readable(cut) && RecordIn(cut) == RecordIn(dir) && SameManifest(cut, inc)
      && (inc.manifest.debug.Some? ==> ClaimHolds(env, cut, inc.manifest.debug.value))
      && (forall name | name in dir :: name in cut)
      && (AttachesSbom(env, dir, inc) ==> SBOM_FILE in cut && cut[SBOM_FILE] == inc.sbom.value)
      && (AttachesProvenance(env, dir, inc) ==> PROVENANCE_FILE in cut && cut[PROVENANCE_FILE] == inc.provenance.value)
  {
    FailsOnlyOnDebugClash(env, dir, inc);
    RepairsAreNoops(env, dir, inc);
    if inc.manifest.debug.Some? {
      assert ClaimHolds(env, D5(env, dir, inc), inc.manifest.debug.value);
    }
  }

  /** With the manifest already replaced, the same identity and sidecars are written again. */
  lemma CommittedDecisions(env: Env, dir: Directory, inc: Incoming)
    requires Succeeds(env, dir, inc) && Commits(env, dir, inc)
    ensures var cut := D6(env, dir, inc);
      && Readable(cut) && SameManifest(cut, inc) && D1(cut, inc) == cut && D2(cut, inc).Keys == cut.Keys
      && Refusal(cut, inc).None?
      && AttachesSbom(env, cut, inc) == AttachesSbom(env, dir, inc)
      && AttachesProvenance(env, cut, inc) == AttachesProvenance(env, dir, inc)
      && Rewrites(env, cut, inc) && Rewrites(env, dir, inc)
      && NewRecord(env, cut, inc) == NewRecord(env, dir, inc)
  {
    var cut := D6(env, dir, inc);
    CommittedDirectory(env, dir, inc);
    assert SUMS_FILE in cut;
    SameAttachments(env, dir, cut, inc);
    assert HasEvidence(inc);
    assert Enriches(cut, inc) == Enriches(dir, inc);
  }

  /** A second pass over a directory that already holds manifest and sidecars writes record and checksums. */
  lemma SecondPass(env: Env, cut: Directory, inc: Incoming)
    requires Readable(cut) && SameManifest(cut, inc) && D1(cut, inc) == cut && Rewrites(env, cut, inc)
    requires AttachesSbom(env, cut, inc) ==> SBOM_FILE in cut && cut[SBOM_FILE] == inc.sbom.value
    requires AttachesProvenance(env, cut, inc) ==> PROVENANCE_FILE in cut && cut[PROVENANCE_FILE] == inc.provenance.value
    ensures var r := NewRecord(env, cut, inc);
      D8(env, cut, inc) == cut[RECORD_FILE := RecordDoc(r)][SUMS_FILE := SumsDoc(Checksums(r, inc.manifest.debug))]
  {
    var c2 := D2(cut, inc);
    assert D3(env, cut, inc) == c2;
    assert D4(env, cut, inc) == c2;
    assert D6(env, cut, inc) == c2;
  }

  lemma CommittedEnd(env: Env, dir: Directory, inc: Incoming)
    requires Succeeds(env, dir, inc) && Commits(env, dir, inc) && Readable(D6(env, dir, inc))
    ensures D8(env, D6(env, dir, inc), inc) == D8(env, dir, inc)
  {
    CommittedDirectory(env, dir, inc);
    CommittedDecisions(env, dir, inc);
    SecondPass(env, D6(env, dir, inc), inc);
  }

  lemma CommittedNoFailure(env: Env, dir: Directory, inc: Incoming)
    requires Succeeds(env, dir, inc) && Commits(env, dir, inc) && Readable(D6(env, dir, inc))
    ensures Failure(env, D6(env, dir, inc), inc).None?
  {
    var cut := D6(env, dir, inc);
    CommittedDirectory(env, dir, inc);
    CommittedDecisions(env, dir, inc);
    RepairsAreNoops(env, dir, inc);
    BoundSidecarsKept(env, dir, inc, 5);
  }

  /** Cut off between the manifest and the record. */
  lemma RerunAfterManifest(env: Env, dir: Directory, inc: Incoming)
    requires Succeeds(env, dir, inc)
    ensures SameEnd(env, dir, D6(env, dir, inc), inc)
  {
    if Commits(env, dir, inc) {
      CommittedDecisions(env, dir, inc);
      CommittedEnd(env, dir, inc);
      CommittedNoFailure(env, dir, inc);
    } else {
      RerunBeforeManifest(env, dir, inc, 5);
      assert D6(env, dir, inc) == DirAfter(5, env, dir, inc);
    }
  }

  // ---------------------------------------------------------------------------------------
  // After the record
  // ---------------------------------------------------------------------------------------

  /** A directory whose record already carries everything the import brings is left as it is, except that
      an unchanged manifest with a debug archive has its checksum file rewritten. */
  lemma NothingLeftToDo(env: Env, cut: Directory, inc: Incoming)
    requires Readable(cut)
    requires SameManifest(cut, inc) || HasEvidence(inc) ==> RecordIn(cut).identity == inc.record.identity
    requires !Enriches(cut, inc) && Refusal(cut, inc).None?
    requires D1(cut, inc) == cut
    requires inc.sbom.Some? ==>
      && RecordIn(cut).sbom == Some(EvidenceOf(env, inc.sbom.value))
      && SBOM_FILE in cut && cut[SBOM_FILE] == inc.sbom.value
    requires inc.provenance.Some? ==>
      && RecordIn(cut).provenance == Some(EvidenceOf(env, inc.provenance.value))
      && PROVENANCE_FILE in cut && cut[PROVENANCE_FILE] == inc.provenance.value
    requires SameManifest(cut, inc) && inc.manifest.debug.Some? ==> ClaimHolds(env, cut, inc.manifest.debug.value)
    ensures Failure(env, cut, inc).None?
    ensures NewRecord(env, cut, inc) == RecordIn(cut)
    ensures D8(env, cut, inc) ==
      if SameManifest(cut, inc) && inc.manifest.debug.Some?
      then cut[SUMS_FILE := SumsDoc(Checksums(RecordIn(cut), inc.manifest.debug))] else cut
  {
    var c2 := D2(cut, inc);
    assert !AttachesSbom(env, cut, inc);
    assert D3(env, cut, inc) == c2;
    assert !AttachesProvenance(env, cut, inc);
  }

  /** The directory as the rewritten record finds it, with the old or the new checksum file. */
  lemma RewrittenDirectory(env: Env, dir: Directory, inc: Incoming, cut: Directory)
    requires Succeeds(env, dir, inc) && Rewrites(env, dir, inc)
    requires cut == D7(env, dir, inc) || cut == D8(env, dir, inc)
    ensures Readable(cut) && RecordIn(cut) == NewRecord(env, dir, inc) && HasEvidence(inc)
    ensures RecordIn(cut).identity == inc.record.identity
    ensures cut[MANIFEST_FILE] == D8(env, dir, inc)[MANIFEST_FILE]
    ensures SameManifest(cut, inc) <==> SameManifest(dir, inc) || Commits(env, dir, inc)
  {
    IdentityAgrees(env, dir, inc);
    FinalFiles(env, dir, inc);
    assert D8(env, dir, inc) == D7(env, dir, inc)[SUMS_FILE := D8(env, dir, inc)[SUMS_FILE]];
  }

  lemma RewrittenSidecars(env: Env, dir: Directory, inc: Incoming, cut: Directory)
    requires Succeeds(env, dir, inc) && Rewrites(env, dir, inc)
    requires cut == D7(env, dir, inc) || cut == D8(env, dir, inc)
    ensures inc.sbom.Some? ==> SBOM_FILE in cut && cut[SBOM_FILE] == inc.sbom.value
    ensures inc.provenance.Some? ==> PROVENANCE_FILE in cut && cut[PROVENANCE_FILE] == inc.provenance.value
    ensures (SameManifest(dir, inc) || Commits(env, dir, inc)) && inc.manifest.debug.Some? ==>
      ClaimHolds(env, cut, inc.manifest.debug.value)
  {
    FailsOnlyOnDebugClash(env, dir, inc);
    DebugClaimKept(env, dir, inc);
    if inc.sbom.Some? {
      SbomOnDisk(env, dir, inc);
    }
    if inc.provenance.Some? {
      ProvenanceOnDisk(env, dir, inc);
    }
    assert D8(env, dir, inc) == D7(env, dir, inc)[SUMS_FILE := D8(env, dir, inc)[SUMS_FILE]];
  }

  /** Cut off after the record was rewritten, the second run only repairs the checksum file, and that only
      for a committed manifest with a debug archive. */
  lemma RerunAfterRecord(env: Env, dir: Directory, inc: Incoming, cut: Directory)
    requires Succeeds(env, dir, inc) && Rewrites(env, dir, inc)
    requires cut == D7(env, dir, inc) || cut == D8(env, dir, inc)
    ensures Readable(cut) && Refusal(cut, inc).None? && Failure(env, cut, inc).None?
    ensures NewRecord(env, cut, inc) == NewRecord(env, dir, inc)
    ensures D8(env, cut, inc) ==
      if (SameManifest(dir, inc) || Commits(env, dir, inc)) && inc.manifest.debug.Some?
      then D8(env, dir, inc) else cut
  {
    RewrittenDirectory(env, dir, inc, cut);
    RewrittenSidecars(env, dir, inc, cut);
    NothingLeftToDo(env, cut, inc);
    assert D8(env, dir, inc) == D7(env, dir, inc)[SUMS_FILE := D8(env, dir, inc)[SUMS_FILE]];
  }

  /** Cut off right between record and checksum file, an import leaves a checksum file that a second run does
      not repair: the committed manifest promises no debug archive and the new lines differ from the old. */
  predicate SumsStayStale(env: Env, dir: Directory, inc: Incoming)
    requires Readable(dir)
  {
    && Rewrites(env, dir, inc)
    && !((SameManifest(dir, inc) || Commits(env, dir, inc)) && inc.manifest.debug.Some?)
    && !(SUMS_FILE in dir
         && dir[SUMS_FILE] == SumsDoc(Checksums(NewRecord(env, dir, inc), CommittedDebug(env, dir, inc))))
  }

  lemma SeventhWriteKeepsSums(env: Env, dir: Directory, inc: Incoming)
    requires Meets(env, dir, inc)
    ensures SUMS_FILE in dir && SUMS_FILE in D7(env, dir, inc) && D7(env, dir, inc)[SUMS_FILE] == dir[SUMS_FILE]
  {
    RepairsAreNoops(env, dir, inc);
  }

  /** The directory a second run ends with, for every cut-off point of the first. */
  lemma RerunDirectory(env: Env, dir: Directory, inc: Incoming, k: nat)
    requires Succeeds(env, dir, inc) && k <= 8
    ensures var cut := DirAfter(k, env, dir, inc);
      && Readable(cut) && Refusal(cut, inc).None? && Failure(env, cut, inc).None?
      && NewRecord(env, cut, inc) == NewRecord(env, dir, inc)
      && D8(env, cut, inc) - {SUMS_FILE} == D8(env, dir, inc) - {SUMS_FILE}
      && (D8(env, cut, inc) == D8(env, dir, inc) <==> !(k == 7 && SumsStayStale(env, dir, inc)))
  {
    if k <= 5 {
      RerunBeforeManifest(env, dir, inc, k);
    } else if k == 6 || !Rewrites(env, dir, inc) {
      RerunAfterManifest(env, dir, inc);
      assert DirAfter(k, env, dir, inc) == D6(env, dir, inc);
    } else {
      RerunAfterRecord(env, dir, inc, DirAfter(k, env, dir, inc));
      SeventhWriteKeepsSums(env, dir, inc);
      var sums := SumsDoc(Checksums(NewRecord(env, dir, inc), CommittedDebug(env, dir, inc)));
      assert D8(env, dir, inc) == D7(env, dir, inc)[SUMS_FILE := sums];
    }
  }

  /** The re-import an import of this dist directory would perform, if it finds the digest stored. */
  predicate WouldStayStale(env: Env, st: State, dist: Directory, now: nat) {
    && Receive(env, dist, now).Ok?
    && var inc := Receive(env, dist, now).value;
    && inc.record.hex in st.objects && Readable(st.objects[inc.record.hex])
    && SumsStayStale(env, st.objects[inc.record.hex], inc)
  }

  /** The stores agree on everything but the checksum file of one digest. */
  predicate SameButSums(a: State, b: State, hex: Hex) {
    && a.index == b.index && a.objects.Keys == b.objects.Keys
    && (forall h | h in a.objects && h != hex :: a.objects[h] == b.objects[h])
    && (hex in a.objects ==> a.objects[hex] - {SUMS_FILE} == b.objects[hex] - {SUMS_FILE})
  }

  /** The same output received at another time. */
  function Redated(inc: Incoming, later: nat): Incoming {
    inc.(record := inc.record.(created := later))
  }

  /** Receiving a dist directory depends on the time only in the creation time of the record. */
  lemma ReceivedLater(env: Env, dist: Directory, now: nat, later: nat)
    ensures Receive(env, dist, later) ==
      if Receive(env, dist, now).Ok? then Ok(Redated(Receive(env, dist, now).value, later)) else Receive(env, dist, now)
  {
  }

  // A re-import reads identity and evidence of the incoming record, never its creation time.

  lemma RepairsIgnoreTime(dir: Directory, inc: Incoming, later: nat)
    requires Readable(dir)
    ensures var inc' := Redated(inc, later);
      && Refusal(dir, inc') == Refusal(dir, inc) && Enriches(dir, inc') == Enriches(dir, inc)
      && NewIdentity(dir, inc') == NewIdentity(dir, inc)
      && D1(dir, inc') == D1(dir, inc) && D2(dir, inc') == D2(dir, inc)
  {
    hide Conflict, EnrichmentRequested, EnrichmentBound, Enriched;
  }

  lemma AttachmentsIgnoreTime(env: Env, dir: Directory, inc: Incoming, later: nat)
    requires Readable(dir)
    ensures var inc' := Redated(inc, later);
      && AttachesSbom(env, dir, inc') == AttachesSbom(env, dir, inc)
      && AttachesProvenance(env, dir, inc') == AttachesProvenance(env, dir, inc)
      && D3(env, dir, inc') == D3(env, dir, inc) && D4(env, dir, inc') == D4(env, dir, inc)
      && Commits(env, dir, inc') == Commits(env, dir, inc) && Rewrites(env, dir, inc') == Rewrites(env, dir, inc)
      && NewRecord(env, dir, inc') == NewRecord(env, dir, inc)
  {
    RepairsIgnoreTime(dir, inc, later);
    hide D1, D2, Refusal, Enriches, NewIdentity;
  }

  lemma WritesIgnoreTime(env: Env, dir: Directory, inc: Incoming, later: nat)
    requires Readable(dir)
    ensures var inc' := Redated(inc, later);
      && D5(env, dir, inc') == D5(env, dir, inc) && D6(env, dir, inc') == D6(env, dir, inc)
      && D7(env, dir, inc') == D7(env, dir, inc) && D8(env, dir, inc') == D8(env, dir, inc)
  {
    AttachmentsIgnoreTime(env, dir, inc, later);
    hide D1, D2, D3, D4, Refusal, Enriches, NewIdentity, Rewrites, NewRecord, Commits;
  }

  lemma FailureIgnoresTime(env: Env, dir: Directory, inc: Incoming, later: nat)
    requires Readable(dir)
    ensures Failure(env, dir, Redated(inc, later)) == Failure(env, dir, inc)
  {
    RepairsIgnoreTime(dir, inc, later);
    AttachmentsIgnoreTime(env, dir, inc, later);
    WritesIgnoreTime(env, dir, inc, later);
    hide D1, D2, D3, D4, D5, Refusal, Enriches, NewIdentity, Rewrites, NewRecord, Commits, AttachesSbom, AttachesProvenance;
  }

  lemma ReimportIgnoresTime(env: Env, st: State, inc: Incoming, later: nat)
    requires inc.record.hex in st.objects && Readable(st.objects[inc.record.hex])
    ensures Reimport(env, st, Redated(inc, later)) == Reimport(env, st, inc)
  {
    var dir := st.objects[inc.record.hex];
    RepairsIgnoreTime(dir, inc, later);
    AttachmentsIgnoreTime(env, dir, inc, later);
    WritesIgnoreTime(env, dir, inc, later);
    FailureIgnoresTime(env, dir, inc, later);
    hide D1, D2, D3, D4, D5, D6, D7, D8, Refusal, NewRecord, Failure;
  }

  lemma RerunReimport(env: Env, st: State, inc: Incoming, later: nat, k: nat)
    requires inc.record.hex in st.objects && Succeeds(env, st.objects[inc.record.hex], inc) && k <= 8
    ensures
      var hex := inc.record.hex;
      var dir := st.objects[hex];
      var cut := st.(objects := st.objects[hex := DirAfter(k, env, dir, inc)]);
      && Readable(cut.objects[hex])
      && Failure(env, dir, inc).None?
      && var whole, again := Reimport(env, st, inc), Reimport(env, cut, Redated(inc, later));
      && again.result == whole.result
      && SameButSums(again.state, whole.state, hex)
      && (again.state == whole.state <==> !(k == 7 && SumsStayStale(env, dir, inc)))
  {
    var hex := inc.record.hex;
    var dir := st.objects[hex];
    var cut := st.(objects := st.objects[hex := DirAfter(k, env, dir, inc)]);
    RerunDirectory(env, dir, inc, k);
    ReimportIgnoresTime(env, cut, inc, later);
    FailsOnlyOnDebugClash(env, dir, inc);
    assert cut.objects[hex] == DirAfter(k, env, dir, inc);
    assert cut.objects[hex := D8(env, cut.objects[hex], inc)] == st.objects[hex := D8(env, cut.objects[hex], inc)];
    assert Reimport(env, st, inc).state.objects[hex] == D8(env, dir, inc);
    assert Reimport(env, cut, inc).state.objects[hex] == D8(env, DirAfter(k, env, dir, inc), inc);
  }

  /** The store holds nothing of this output's digest yet, and the import was cut off before its first write. */
  predicate NothingDone(env: Env, st: State, dist: Directory, now: nat, k: nat) {
    k == 0 && Receive(env, dist, now).Ok? && Receive(env, dist, now).value.record.hex !in st.objects
  }

  /** Running an interrupted import of the same output again, at whatever later time and from whatever point it was
      cut off.  If it had done nothing, the second run is an import of its own.  Otherwise it returns the record of
      the uninterrupted import, first creation time included, writes the index entry and leaves every file as that
      import would have, except the checksum file in exactly the stale case. */
  lemma RerunCompletes(env: Env, st: State, dist: Directory, now: nat, later: nat, k: nat)
    requires Lawful(env) && Coherent(env, st) && WellNamedDist(env, dist) && CollisionFree(env, st, dist, now)
    requires k <= 8 && Import(env, st, dist, now).result.Ok?
    ensures
      var whole := Import(env, st, dist, now);
      var again := Import(env, CutImport(env, st, dist, now, k), dist, later);
      if NothingDone(env, st, dist, now, k) then again == Import(env, st, dist, later)
      else
        && again.result == whole.result
        && SameButSums(again.state, whole.state, whole.result.value.hex)
        && (again.state == whole.state <==> !(k == 7 && WouldStayStale(env, st, dist, now)))
  {
    var inc := Receive(env, dist, now).value;
    ReceiveVouches(env, dist, now);
    ReceivedLater(env, dist, now, later);
    if inc.record.hex in st.objects {
      RerunStored(env, st, dist, now, later, k);
    } else if k > 0 {
      RerunFresh(env, st, inc, later);
    }
  }

  lemma RerunStored(env: Env, st: State, dist: Directory, now: nat, later: nat, k: nat)
    requires Lawful(env) && Coherent(env, st) && WellNamedDist(env, dist) && CollisionFree(env, st, dist, now)
    requires k <= 8 && Import(env, st, dist, now).result.Ok?
    requires Receive(env, dist, now).value.record.hex in st.objects
    ensures
      var whole := Import(env, st, dist, now);
      var again := Import(env, CutImport(env, st, dist, now, k), dist, later);
      && again.result == whole.result
      && SameButSums(again.state, whole.state, whole.result.value.hex)
      && (again.state == whole.state <==> !(k == 7 && WouldStayStale(env, st, dist, now)))
  {
    var inc := Receive(env, dist, now).value;
    var hex := inc.record.hex;
    var dir := st.objects[hex];
    var cut := CutImport(env, st, dist, now, k);
    ReceiveVouches(env, dist, now);
    ReceivedLater(env, dist, now, later);
    assert CoherentDir(env, hex, dir);
    ReimportOutcome(env, st, inc);
    RerunReimport(env, st, inc, later, k);
    assert cut == st.(objects := st.objects[hex := DirAfter(k, env, dir, inc)]);
  }

  /** A fresh import cut off before its index write finds its own directory, whenever it is run again, and changes
      nothing in it; the record keeps its first creation time. */
  lemma RerunFresh(env: Env, st: State, inc: Incoming, later: nat)
    requires Lawful(env) && Vouched(env, inc) && WellNamed(inc.manifest) && inc.record.hex !in st.objects
    ensures
      var hex := inc.record.hex;
      var cut := st.(objects := st.objects[hex := Staged(inc)]);
      && Readable(cut.objects[hex])
      && Reimport(env, cut, Redated(inc, later)) == Outcome(cut.(index := Upsert(st.index, inc.record)), Ok(inc.record))
  {
    var dir := Staged(inc);
    StagedCoherent(env, inc);
    StagedSidecars(inc);
    RepairsAreNoops(env, dir, inc);
    NothingLeftToDo(env, dir, inc);
    assert dir[SUMS_FILE] == SumsDoc(Checksums(inc.record, inc.manifest.debug));
    var hex := inc.record.hex;
    var cut := st.(objects := st.objects[hex := dir]);
    assert cut.objects[hex := D8(env, dir, inc)] == cut.objects;
    ReimportIgnoresTime(env, cut, inc, later);
  }

  lemma StagedSidecars(inc: Incoming)
    ensures var dir := Staged(inc);
      && RECORD_FILE in dir && dir[RECORD_FILE] == RecordDoc(inc.record)
      && (WellNamed(inc.manifest) ==> MANIFEST_FILE in dir && dir[MANIFEST_FILE] == inc.file)
      && (inc.sbom.Some? ==> SBOM_FILE in dir && dir[SBOM_FILE] == inc.sbom.value)
      && (inc.provenance.Some? ==> PROVENANCE_FILE in dir && dir[PROVENANCE_FILE] == inc.provenance.value)
  {
  }
}
