/** Running an import again that is itself cut off, any number of times. */
module StoreReruns {
  import opened Prelude
  import opened Evidence
  import opened Order
  import opened Store
  import opened StoreCoherence
  import opened StoreHistory
  import opened StoreCrash
  import opened StoreRerun

  // ---------------------------------------------------------------------------------------
  // The checksum file is written and never read
  // ---------------------------------------------------------------------------------------

  /** The directories differ at most in the checksum file. */
  predicate AllButSums(a: Directory, b: Directory) {
    a.Keys == b.Keys && SUMS_FILE in a && forall name | name in a && name != SUMS_FILE :: a[name] == b[name]
  }

  lemma SameAtStart(env: Env, a: Directory, b: Directory, inc: Incoming)
    requires Readable(a) && AllButSums(a, b) && WellNamed(inc.manifest)
    ensures Readable(b) && RecordIn(b) == RecordIn(a) && b[MANIFEST_FILE] == a[MANIFEST_FILE]
    ensures Refusal(b, inc) == Refusal(a, inc) && Enriches(b, inc) == Enriches(a, inc)
    ensures NewIdentity(b, inc) == NewIdentity(a, inc)
    ensures AllButSums(D1(a, inc), D1(b, inc)) && AllButSums(D2(a, inc), D2(b, inc))
  {
    hide Conflict, EnrichmentRequested, EnrichmentBound, Enriched;
  }

  lemma SameSidecars(env: Env, a: Directory, b: Directory, inc: Incoming)
    requires Readable(a) && AllButSums(a, b) && WellNamed(inc.manifest)
    ensures Readable(b)
    ensures AttachesSbom(env, b, inc) == AttachesSbom(env, a, inc)
    ensures AllButSums(D3(env, a, inc), D3(env, b, inc))
    ensures AttachesProvenance(env, b, inc) == AttachesProvenance(env, a, inc)
    ensures AllButSums(D4(env, a, inc), D4(env, b, inc))
  {
    SameAtStart(env, a, b, inc);
    hide D1, D2, Refusal, Enriches, NewIdentity;
  }

  lemma SameRest(env: Env, a: Directory, b: Directory, inc: Incoming)
    requires Readable(a) && AllButSums(a, b) && WellNamed(inc.manifest)
    ensures Readable(b) && Commits(env, b, inc) == Commits(env, a, inc) && Rewrites(env, b, inc) == Rewrites(env, a, inc)
    ensures NewRecord(env, b, inc) == NewRecord(env, a, inc) && CommittedDebug(env, b, inc) == CommittedDebug(env, a, inc)
    ensures AllButSums(D5(env, a, inc), D5(env, b, inc)) && AllButSums(D6(env, a, inc), D6(env, b, inc))
    ensures AllButSums(D7(env, a, inc), D7(env, b, inc)) && AllButSums(D8(env, a, inc), D8(env, b, inc))
  {
    SameChoices(env, a, b, inc);
    SameManifestWrites(env, a, b, inc);
    hide D1, D2, D3, D4, D5, D6, Enriches, NewIdentity, AttachesSbom, AttachesProvenance, Commits, Rewrites, NewRecord, CommittedDebug;
  }

  lemma SameManifestWrites(env: Env, a: Directory, b: Directory, inc: Incoming)
    requires Readable(a) && AllButSums(a, b) && WellNamed(inc.manifest)
    ensures Readable(b)
    ensures AllButSums(D5(env, a, inc), D5(env, b, inc)) && AllButSums(D6(env, a, inc), D6(env, b, inc))
  {
    SameChoices(env, a, b, inc);
    SameSidecars(env, a, b, inc);
    hide D1, D2, D3, D4, Enriches, NewIdentity, AttachesSbom, AttachesProvenance, Commits;
  }

  lemma SameChoices(env: Env, a: Directory, b: Directory, inc: Incoming)
    requires Readable(a) && AllButSums(a, b) && WellNamed(inc.manifest)
    ensures Readable(b) && Commits(env, b, inc) == Commits(env, a, inc) && Rewrites(env, b, inc) == Rewrites(env, a, inc)
    ensures NewRecord(env, b, inc) == NewRecord(env, a, inc) && CommittedDebug(env, b, inc) == CommittedDebug(env, a, inc)
  {
    SameAtStart(env, a, b, inc);
    SameSidecars(env, a, b, inc);
    hide D1, D2, D3, D4, Refusal, Enriches, NewIdentity, AttachesSbom, AttachesProvenance;
  }

  lemma SameFailure(env: Env, a: Directory, b: Directory, inc: Incoming)
    requires Readable(a) && AllButSums(a, b) && WellNamed(inc.manifest)
    ensures Readable(b) && Failure(env, b, inc) == Failure(env, a, inc)
  {
    SameAtStart(env, a, b, inc);
    SameSidecars(env, a, b, inc);
    SameRest(env, a, b, inc);
    hide D1, D2, D3, D4, D5, AttachesSbom, AttachesProvenance, Commits, Rewrites, ClaimHolds, EvidenceHolds, AllButSums;
    if inc.manifest.debug.Some? {
      SameClaim(env, D1(a, inc), D1(b, inc), inc.manifest.debug.value);
      SameClaim(env, D5(env, a, inc), D5(env, b, inc), inc.manifest.debug.value);
    }
    if inc.sbom.Some? {
      SameEvidence(env, D2(a, inc), D2(b, inc), SBOM_FILE, EvidenceOf(env, inc.sbom.value));
    }
    if inc.provenance.Some? {
      SameEvidence(env, D3(env, a, inc), D3(env, b, inc), PROVENANCE_FILE, EvidenceOf(env, inc.provenance.value));
    }
  }

  lemma SameClaim(env: Env, a: Directory, b: Directory, debug: DebugArchive)
    requires AllButSums(a, b) && debug.archive != SUMS_FILE
    ensures ClaimHolds(env, a, debug) == ClaimHolds(env, b, debug)
  {
  }

  lemma SameEvidence(env: Env, a: Directory, b: Directory, name: Name, digest: EvidenceDigest)
    requires AllButSums(a, b) && name != SUMS_FILE
    ensures EvidenceHolds(env, a, name, digest) == EvidenceHolds(env, b, name, digest)
  {
  }

  lemma SameCut(env: Env, a: Directory, b: Directory, inc: Incoming, k: nat)
    requires Readable(a) && AllButSums(a, b) && WellNamed(inc.manifest)
    ensures Readable(b) && AllButSums(DirAfter(k, env, a, inc), DirAfter(k, env, b, inc))
  {
    SameAtStart(env, a, b, inc);
    SameSidecars(env, a, b, inc);
    SameRest(env, a, b, inc);
    hide D1, D2, D3, D4, D5, D6, D7, D8, AllButSums;
  }

  // ---------------------------------------------------------------------------------------
  // Two cut-off runs are one that gets as far as the farther of them
  // ---------------------------------------------------------------------------------------

  function Max(a: nat, b: nat): nat {
    if a < b then b else a
  }

  lemma EarlyCutAgain(env: Env, dir: Directory, inc: Incoming, j: nat, k: nat)
    requires Succeeds(env, dir, inc) && j <= 5 && k <= 8
    ensures Readable(DirAfter(j, env, dir, inc))
    ensures DirAfter(k, env, DirAfter(j, env, dir, inc), inc) == DirAfter(Max(j, k), env, dir, inc)
  {
    var cut := DirAfter(j, env, dir, inc);
    WritesAreIdempotent(env, dir, inc, j);
    if k <= 2 {
      RepairsAgain(env, dir, inc, j, k);
    } else if k <= 5 {
      RepairsAreNoops(env, dir, inc);
      RepairsStillNoops(env, dir, cut, inc);
      SameDecisions(env, dir, cut, inc);
      SidecarsAgain(env, dir, inc, j, k);
    } else {
      TailAgain(env, dir, cut, inc);
      hide D1, D2, D3, D4, D5, D6, D7, D8, Succeeds;
    }
  }

  lemma RepairsAgain(env: Env, dir: Directory, inc: Incoming, j: nat, k: nat)
    requires Succeeds(env, dir, inc) && j <= 5 && k <= 2 && KeepsBase(dir, DirAfter(j, env, dir, inc))
    ensures DirAfter(k, env, DirAfter(j, env, dir, inc), inc) == DirAfter(Max(j, k), env, dir, inc)
  {
    RepairsAreNoops(env, dir, inc);
    RepairsStillNoops(env, dir, DirAfter(j, env, dir, inc), inc);
    hide D1, D2, D3, D4, D5, KeepsBase;
  }

  lemma TailAgain(env: Env, dir: Directory, cut: Directory, inc: Incoming)
    requires KeepsBase(dir, cut) && D5(env, cut, inc) == D5(env, dir, inc)
    requires AttachesSbom(env, cut, inc) == AttachesSbom(env, dir, inc)
    requires AttachesProvenance(env, cut, inc) == AttachesProvenance(env, dir, inc)
    ensures D6(env, cut, inc) == D6(env, dir, inc) && D7(env, cut, inc) == D7(env, dir, inc)
    ensures D8(env, cut, inc) == D8(env, dir, inc)
  {
    SameDecisions(env, dir, cut, inc);
    hide D5, AttachesSbom, AttachesProvenance, Commits, Rewrites, NewRecord, CommittedDebug;
  }

  lemma SidecarsAgain(env: Env, dir: Directory, inc: Incoming, j: nat, k: nat)
    requires Readable(dir) && WellNamed(inc.manifest) && j <= 5 && 3 <= k <= 5 && D1(dir, inc) == dir && D2(dir, inc) == dir
    requires var cut := DirAfter(j, env, dir, inc);
      && Readable(cut) && D2(cut, inc) == cut
      && AttachesSbom(env, cut, inc) == AttachesSbom(env, dir, inc)
      && AttachesProvenance(env, cut, inc) == AttachesProvenance(env, dir, inc)
      && Commits(env, cut, inc) == Commits(env, dir, inc)
    ensures DirAfter(k, env, DirAfter(j, env, dir, inc), inc) == DirAfter(Max(j, k), env, dir, inc)
  {
    var cut := DirAfter(j, env, dir, inc);
    hide D1, D2, AttachesSbom, AttachesProvenance, Commits;
    if j <= 2 {
      assert cut == dir;
    } else {
      assert D3(env, cut, inc) == cut;
      assert j >= 4 ==> D4(env, cut, inc) == cut;
      assert j == 5 ==> D5(env, cut, inc) == cut;
    }
  }

  lemma ManifestCutAgain(env: Env, dir: Directory, inc: Incoming, k: nat)
    requires Succeeds(env, dir, inc) && Commits(env, dir, inc) && k <= 8
    ensures Readable(D6(env, dir, inc))
    ensures AllButSums(DirAfter(k, env, D6(env, dir, inc), inc), DirAfter(Max(6, k), env, dir, inc))
  {
    var cut := D6(env, dir, inc);
    CommittedDirectory(env, dir, inc);
    CommittedDecisions(env, dir, inc);
    CommittedEnd(env, dir, inc);
    CommittedSums(env, dir, inc);
    CommittedMiddle(env, cut, inc);
  }

  lemma CommittedSums(env: Env, dir: Directory, inc: Incoming)
    requires Succeeds(env, dir, inc) && Commits(env, dir, inc)
    ensures SUMS_FILE in D6(env, dir, inc)
  {
    CommittedDirectory(env, dir, inc);
    assert SUMS_FILE in dir;
  }

  /** Over a directory that already holds manifest and sidecars the first six writes touch the checksum file only. */
  lemma CommittedMiddle(env: Env, cut: Directory, inc: Incoming)
    requires Readable(cut) && SameManifest(cut, inc) && SUMS_FILE in cut && D1(cut, inc) == cut
    requires AttachesSbom(env, cut, inc) ==> SBOM_FILE in cut && cut[SBOM_FILE] == inc.sbom.value
    requires AttachesProvenance(env, cut, inc) ==> PROVENANCE_FILE in cut && cut[PROVENANCE_FILE] == inc.provenance.value
    ensures AllButSums(cut, D2(cut, inc)) && D3(env, cut, inc) == D2(cut, inc) && D4(env, cut, inc) == D2(cut, inc)
    ensures D5(env, cut, inc) == D2(cut, inc) && D6(env, cut, inc) == D2(cut, inc)
  {
    assert AllButSums(cut, D2(cut, inc));
    hide AttachesSbom, AttachesProvenance;
    assert D3(env, cut, inc) == D2(cut, inc);
    assert D4(env, cut, inc) == D2(cut, inc);
  }

  /** Nothing is left to attach, to enrich or to commit: `NothingLeftToDo`, write by write. */
  lemma NothingLeftBetween(env: Env, cut: Directory, inc: Incoming, k: nat)
    requires Readable(cut) && !Enriches(cut, inc) && D1(cut, inc) == cut && SUMS_FILE in cut
    requires inc.sbom.Some? ==> RecordIn(cut).sbom == Some(EvidenceOf(env, inc.sbom.value)) && SBOM_FILE in cut
    requires inc.provenance.Some? ==>
      RecordIn(cut).provenance == Some(EvidenceOf(env, inc.provenance.value)) && PROVENANCE_FILE in cut
    ensures AllButSums(DirAfter(k, env, cut, inc), cut) && !Rewrites(env, cut, inc)
    ensures DirAfter(k, env, cut, inc) == if k < 2 then cut else D2(cut, inc)
  {
    assert AllButSums(D2(cut, inc), cut);
    assert !AttachesSbom(env, cut, inc);
    assert D3(env, cut, inc) == D2(cut, inc);
    assert !AttachesProvenance(env, cut, inc);
    hide D2, AttachesSbom, AttachesProvenance, Enriches;
  }

  /** What the incoming record brings is recorded and on disk. */
  lemma Recorded(env: Env, dir: Directory, inc: Incoming, cut: Directory)
    requires Succeeds(env, dir, inc) && Rewrites(env, dir, inc)
    requires cut == D7(env, dir, inc) || cut == D8(env, dir, inc)
    ensures Readable(cut) && !Enriches(cut, inc) && D1(cut, inc) == cut && SUMS_FILE in cut
    ensures inc.sbom.Some? ==> RecordIn(cut).sbom == Some(EvidenceOf(env, inc.sbom.value)) && SBOM_FILE in cut
    ensures inc.provenance.Some? ==>
      RecordIn(cut).provenance == Some(EvidenceOf(env, inc.provenance.value)) && PROVENANCE_FILE in cut
  {
    RewrittenDirectory(env, dir, inc, cut);
    RewrittenSidecars(env, dir, inc, cut);
    SeventhWriteKeepsSums(env, dir, inc);
  }

  lemma LateCutAgain(env: Env, dir: Directory, inc: Incoming, j: nat, k: nat)
    requires Succeeds(env, dir, inc) && Rewrites(env, dir, inc) && 7 <= j <= 8 && k <= 8
    ensures Readable(DirAfter(j, env, dir, inc))
    ensures AllButSums(DirAfter(k, env, DirAfter(j, env, dir, inc), inc), DirAfter(Max(j, k), env, dir, inc))
  {
    var cut := DirAfter(j, env, dir, inc);
    Recorded(env, dir, inc, cut);
    NothingLeftBetween(env, cut, inc, k);
    LastWriteIsSums(env, dir, inc);
    hide D1, D2, D3, D4, D5, D6, D7, D8, Succeeds, Rewrites;
  }

  lemma LastWriteIsSums(env: Env, dir: Directory, inc: Incoming)
    requires Succeeds(env, dir, inc)
    ensures AllButSums(D7(env, dir, inc), D8(env, dir, inc)) && AllButSums(D8(env, dir, inc), D7(env, dir, inc))
    ensures AllButSums(D7(env, dir, inc), D7(env, dir, inc)) && AllButSums(D8(env, dir, inc), D8(env, dir, inc))
  {
    SeventhWriteKeepsSums(env, dir, inc);
    hide D7, Rewrites, Succeeds;
  }

  /** An import that has nothing to record leaves the directory alone, write by write. */
  lemma IdleImport(env: Env, dir: Directory, inc: Incoming, k: nat)
    requires Succeeds(env, dir, inc) && !Rewrites(env, dir, inc)
    ensures DirAfter(k, env, dir, inc) == dir
  {
    RepairsAreNoops(env, dir, inc);
    hide D1, D2;
  }

  /** Up to the checksum file, running an import again after a cut gets as far as the farther of the two runs. */
  lemma CutAgain(env: Env, dir: Directory, inc: Incoming, j: nat, k: nat)
    requires Succeeds(env, dir, inc) && j <= 8 && k <= 8
    ensures Readable(DirAfter(j, env, dir, inc))
    ensures AllButSums(DirAfter(k, env, DirAfter(j, env, dir, inc), inc), DirAfter(Max(j, k), env, dir, inc))
  {
    SeventhWriteKeepsSums(env, dir, inc);
    if !Rewrites(env, dir, inc) {
      IdleImport(env, dir, inc, j);
      IdleImport(env, dir, inc, k);
      IdleImport(env, dir, inc, Max(j, k));
    } else if j <= 5 {
      EarlyCutAgain(env, dir, inc, j, k);
      SumsStay(env, dir, inc, Max(j, k));
    } else if j >= 7 {
      LateCutAgain(env, dir, inc, j, k);
    } else if Commits(env, dir, inc) {
      ManifestCutAgain(env, dir, inc, k);
    } else {
      EarlyCutAgain(env, dir, inc, 5, k);
      SumsStay(env, dir, inc, Max(j, k));
      assert D6(env, dir, inc) == D5(env, dir, inc);
    }
  }

  lemma SumsStay(env: Env, dir: Directory, inc: Incoming, k: nat)
    requires Readable(dir) && SUMS_FILE in dir
    ensures SUMS_FILE in DirAfter(k, env, dir, inc)
  {
  }

  // ---------------------------------------------------------------------------------------
  // Any number of cut-off runs
  // ---------------------------------------------------------------------------------------

  /** The directory after as many re-imports, each cut off after so many writes. */
  function CutTimes(env: Env, dir: Directory, inc: Incoming, cuts: seq<nat>): (r: Directory)
    requires Readable(dir)
    ensures Readable(r)
  {
    if cuts == [] then dir
    else
      var before := CutTimes(env, dir, inc, cuts[..|cuts| - 1]);
      RecordAfter(cuts[|cuts| - 1], env, before, inc);
      DirAfter(cuts[|cuts| - 1], env, before, inc)
  }

  function Farthest(cuts: seq<nat>): nat {
    if cuts == [] then 0 else Max(Farthest(cuts[..|cuts| - 1]), cuts[|cuts| - 1])
  }

  predicate UpToEight(cuts: seq<nat>) {
    forall i | 0 <= i < |cuts| :: cuts[i] <= 8
  }

  lemma {:induction false} CutTimesIsFarthest(env: Env, dir: Directory, inc: Incoming, cuts: seq<nat>)
    requires Succeeds(env, dir, inc) && UpToEight(cuts)
    ensures Farthest(cuts) <= 8
    ensures AllButSums(CutTimes(env, dir, inc, cuts), DirAfter(Farthest(cuts), env, dir, inc))
  {
    if cuts == [] {
      SeventhWriteKeepsSums(env, dir, inc);
    } else {
      var front, k := cuts[..|cuts| - 1], cuts[|cuts| - 1];
      CutTimesIsFarthest(env, dir, inc, front);
      CutAgain(env, dir, inc, Farthest(front), k);
      SameCut(env, CutTimes(env, dir, inc, front), DirAfter(Farthest(front), env, dir, inc), inc, k);
      hide DirAfter;
    }
  }

  /** An unchanged or committed manifest with a debug archive has its checksum file rewritten by the next run. */
  predicate Repairable(env: Env, dir: Directory, inc: Incoming)
    requires Readable(dir)
  {
    (SameManifest(dir, inc) || Commits(env, dir, inc)) && inc.manifest.debug.Some?
  }

  function FinalSums(env: Env, dir: Directory, inc: Incoming): File
    requires Readable(dir)
  {
    SumsDoc(Checksums(NewRecord(env, dir, inc), CommittedDebug(env, dir, inc)))
  }

  /** How far a run has got, as the next one sees it. */
  lemma StageFacts(env: Env, dir: Directory, inc: Incoming, m: nat)
    requires Succeeds(env, dir, inc) && Rewrites(env, dir, inc) && m <= 8
    ensures var stage := DirAfter(m, env, dir, inc);
      && Readable(stage) && NewRecord(env, stage, inc) == NewRecord(env, dir, inc)
      && (Rewrites(env, stage, inc) <==> m < 7)
      && (m < 7 ==> CommittedDebug(env, stage, inc) == CommittedDebug(env, dir, inc))
      && (m >= 7 ==> RecordIn(stage) == NewRecord(env, dir, inc))
      && (m >= 7 && Repairable(env, dir, inc) ==> SameManifest(stage, inc))
      && (SameManifest(stage, inc) && inc.manifest.debug.Some? ==> Repairable(env, dir, inc))
  {
    var stage := DirAfter(m, env, dir, inc);
    RerunDirectory(env, dir, inc, m);
    if m <= 5 {
      WritesAreIdempotent(env, dir, inc, m);
      SameDecisions(env, dir, stage, inc);
    } else if m == 6 {
      ManifestStage(env, dir, inc);
    } else {
      RewrittenDirectory(env, dir, inc, stage);
      Recorded(env, dir, inc, stage);
      NothingLeftBetween(env, stage, inc, 0);
    }
  }

  lemma ManifestStage(env: Env, dir: Directory, inc: Incoming)
    requires Succeeds(env, dir, inc) && Rewrites(env, dir, inc)
    ensures var stage := D6(env, dir, inc);
      && Readable(stage) && Rewrites(env, stage, inc) && CommittedDebug(env, stage, inc) == CommittedDebug(env, dir, inc)
      && (SameManifest(stage, inc) && inc.manifest.debug.Some? ==> Repairable(env, dir, inc))
  {
    if Commits(env, dir, inc) {
      CommittedDirectory(env, dir, inc);
      CommittedDecisions(env, dir, inc);
      hide D6, Rewrites, Commits, Succeeds;
    } else {
      WritesAreIdempotent(env, dir, inc, 5);
      hide D5, Rewrites, Commits, Succeeds, AttachesSbom, AttachesProvenance;
      SameDecisions(env, dir, D5(env, dir, inc), inc);
      assert D6(env, dir, inc) == D5(env, dir, inc);
    }
  }

  /** What one more run does to the checksum file, from any directory. */
  lemma SumsAfter(env: Env, d: Directory, inc: Incoming, k: nat)
    requires Readable(d) && SUMS_FILE in d && WellNamed(inc.manifest)
    ensures SUMS_FILE in DirAfter(k, env, d, inc)
    ensures !(SameManifest(d, inc) && inc.manifest.debug.Some?) && (k < 8 || !Rewrites(env, d, inc)) ==>
      DirAfter(k, env, d, inc)[SUMS_FILE] == d[SUMS_FILE]
    ensures k >= 8 && Rewrites(env, d, inc) ==> DirAfter(k, env, d, inc)[SUMS_FILE] == FinalSums(env, d, inc)
    ensures k >= 8 && !Rewrites(env, d, inc) && SameManifest(d, inc) && inc.manifest.debug.Some? ==>
      DirAfter(k, env, d, inc)[SUMS_FILE] == SumsDoc(Checksums(RecordIn(d), inc.manifest.debug))
  {
    hide NewRecord, Enriches, AttachesSbom, AttachesProvenance, CommittedDebug, SameManifest;
  }

  /** The writes of the first run that got as far as the record; below 7 if none did. */
  function FirstLate(cuts: seq<nat>): nat {
    if cuts == [] then 0
    else if FirstLate(cuts[..|cuts| - 1]) >= 7 then FirstLate(cuts[..|cuts| - 1])
    else cuts[|cuts| - 1]
  }

  lemma {:induction false} FirstLateIsLate(cuts: seq<nat>)
    ensures FirstLate(cuts) >= 7 <==> Farthest(cuts) >= 7
  {
    if cuts != [] {
      FirstLateIsLate(cuts[..|cuts| - 1]);
    }
  }

  /** Without a repair, only the run that rewrites the record and goes on writes the checksum file. */
  lemma {:induction false} UnrepairedSums(env: Env, dir: Directory, inc: Incoming, cuts: seq<nat>)
    requires Succeeds(env, dir, inc) && Rewrites(env, dir, inc) && !Repairable(env, dir, inc) && UpToEight(cuts)
    ensures SUMS_FILE in dir && SUMS_FILE in CutTimes(env, dir, inc, cuts)
    ensures CutTimes(env, dir, inc, cuts)[SUMS_FILE] ==
      if FirstLate(cuts) == 8 then FinalSums(env, dir, inc) else dir[SUMS_FILE]
  {
    SeventhWriteKeepsSums(env, dir, inc);
    if cuts != [] {
      var front, k := cuts[..|cuts| - 1], cuts[|cuts| - 1];
      UnrepairedSums(env, dir, inc, front);
      CutTimesIsFarthest(env, dir, inc, front);
      FirstLateIsLate(front);
      FirstLateBound(front);
      var d, stage := CutTimes(env, dir, inc, front), DirAfter(Farthest(front), env, dir, inc);
      StageFacts(env, dir, inc, Farthest(front));
      SameAtStart(env, stage, d, inc);
      SameRest(env, stage, d, inc);
      SumsAfter(env, d, inc, k);
      hide DirAfter, Succeeds, Rewrites, NewRecord, CommittedDebug;
    }
  }

  lemma {:induction false} FirstLateBound(cuts: seq<nat>)
    requires UpToEight(cuts)
    ensures FirstLate(cuts) <= 8
  {
    if cuts != [] {
      FirstLateBound(cuts[..|cuts| - 1]);
    }
  }

  lemma {:induction false} IdleTimes(env: Env, dir: Directory, inc: Incoming, cuts: seq<nat>)
    requires Succeeds(env, dir, inc) && !Rewrites(env, dir, inc)
    ensures CutTimes(env, dir, inc, cuts) == dir
  {
    if cuts != [] {
      IdleTimes(env, dir, inc, cuts[..|cuts| - 1]);
      IdleImport(env, dir, inc, cuts[|cuts| - 1]);
    }
  }

  lemma SameWithSums(a: Directory, b: Directory)
    requires AllButSums(a, b)
    ensures a == b <==> a[SUMS_FILE] == b[SUMS_FILE]
  {
  }

  /** The next run finds what it needs, and ends as the first would have but for the checksum file. */
  lemma NextRun(env: Env, dir: Directory, inc: Incoming, cuts: seq<nat>)
    requires Succeeds(env, dir, inc) && UpToEight(cuts)
    ensures var cut := CutTimes(env, dir, inc, cuts);
      && Refusal(cut, inc).None? && Failure(env, cut, inc).None?
      && NewRecord(env, cut, inc) == NewRecord(env, dir, inc)
      && AllButSums(D8(env, cut, inc), D8(env, dir, inc))
  {
    var cut, m := CutTimes(env, dir, inc, cuts), Farthest(cuts);
    CutTimesIsFarthest(env, dir, inc, cuts);
    var stage := DirAfter(m, env, dir, inc);
    RerunDirectory(env, dir, inc, m);
    SameAtStart(env, stage, cut, inc);
    SameRest(env, stage, cut, inc);
    SameFailure(env, stage, cut, inc);
    CutAgain(env, dir, inc, m, 8);
    FailsBeforeLastWrite(env, stage, inc);
    FailsBeforeLastWrite(env, dir, inc);
    hide DirAfter, D8, Succeeds, Failure, Refusal, NewRecord;
  }

  /** The checksum file stays stale exactly if the first run to rewrite the record stopped right behind it. */
  lemma NextSums(env: Env, dir: Directory, inc: Incoming, cuts: seq<nat>)
    requires Succeeds(env, dir, inc) && UpToEight(cuts)
    ensures D8(env, CutTimes(env, dir, inc, cuts), inc) == D8(env, dir, inc) <==>
      !(FirstLate(cuts) == 7 && SumsStayStale(env, dir, inc))
  {
    var cut := CutTimes(env, dir, inc, cuts);
    NextRun(env, dir, inc, cuts);
    SameWithSums(D8(env, cut, inc), D8(env, dir, inc));
    SeventhWriteKeepsSums(env, dir, inc);
    if !Rewrites(env, dir, inc) {
      IdleTimes(env, dir, inc, cuts);
    } else if !Repairable(env, dir, inc) {
      UnrepairedNext(env, dir, inc, cuts);
      LastSums(env, dir, inc);
      hide D8, CutTimes, Succeeds, Rewrites;
    } else {
      RepairedNext(env, dir, inc, cuts);
      LastSums(env, dir, inc);
      hide D8, CutTimes, Succeeds, Rewrites;
    }
  }

  lemma LastSums(env: Env, dir: Directory, inc: Incoming)
    requires Readable(dir) && Rewrites(env, dir, inc)
    ensures SUMS_FILE in D8(env, dir, inc) && D8(env, dir, inc)[SUMS_FILE] == FinalSums(env, dir, inc)
  {
  }

  lemma UnrepairedNext(env: Env, dir: Directory, inc: Incoming, cuts: seq<nat>)
    requires Succeeds(env, dir, inc) && Rewrites(env, dir, inc) && !Repairable(env, dir, inc) && UpToEight(cuts)
    ensures SUMS_FILE in dir && SUMS_FILE in D8(env, CutTimes(env, dir, inc, cuts), inc)
    ensures D8(env, CutTimes(env, dir, inc, cuts), inc)[SUMS_FILE] ==
      if FirstLate(cuts) == 7 then dir[SUMS_FILE] else FinalSums(env, dir, inc)
  {
    var more := cuts + [8];
    assert more[..|more| - 1] == cuts;
    UnrepairedSums(env, dir, inc, more);
    FirstLateBound(cuts);
    FailsBeforeLastWrite(env, CutTimes(env, dir, inc, cuts), inc);
    hide DirAfter, Succeeds, Rewrites;
  }

  lemma RepairedNext(env: Env, dir: Directory, inc: Incoming, cuts: seq<nat>)
    requires Succeeds(env, dir, inc) && Rewrites(env, dir, inc) && Repairable(env, dir, inc) && UpToEight(cuts)
    ensures SUMS_FILE in D8(env, CutTimes(env, dir, inc, cuts), inc)
    ensures D8(env, CutTimes(env, dir, inc, cuts), inc)[SUMS_FILE] == FinalSums(env, dir, inc)
  {
    var cut, m := CutTimes(env, dir, inc, cuts), Farthest(cuts);
    CutTimesIsFarthest(env, dir, inc, cuts);
    var stage := DirAfter(m, env, dir, inc);
    StageFacts(env, dir, inc, m);
    SameAtStart(env, stage, cut, inc);
    SameRest(env, stage, cut, inc);
    SumsAfter(env, cut, inc, 8);
    FailsBeforeLastWrite(env, cut, inc);
    hide DirAfter, Succeeds, Rewrites, NewRecord, D8;
  }

  // ---------------------------------------------------------------------------------------
  // Whole stores
  // ---------------------------------------------------------------------------------------

  /** An import of the same output, started at `now` and cut off after so many writes. */
  datatype Cut = Cut(now: nat, writes: nat)

  function CutImports(env: Env, st: State, dist: Directory, cuts: seq<Cut>): State {
    if cuts == [] then st
    else
      var last := cuts[|cuts| - 1];
      CutImport(env, CutImports(env, st, dist, cuts[..|cuts| - 1]), dist, last.now, last.writes)
  }

  function WritesOf(cuts: seq<Cut>): seq<nat> {
    seq(|cuts|, i requires 0 <= i < |cuts| => cuts[i].writes)
  }

  /** When the first run started that wrote anything; the last one if none of these did. */
  function Begun(cuts: seq<Cut>, later: nat): nat {
    if cuts == [] then later else if cuts[0].writes > 0 then cuts[0].now else Begun(cuts[1..], later)
  }

  lemma CutIgnoresTime(env: Env, dir: Directory, inc: Incoming, later: nat, k: nat)
    requires Readable(dir)
    ensures DirAfter(k, env, dir, Redated(inc, later)) == DirAfter(k, env, dir, inc)
  {
    RepairsIgnoreTime(dir, inc, later);
    AttachmentsIgnoreTime(env, dir, inc, later);
    WritesIgnoreTime(env, dir, inc, later);
    hide D1, D2, D3, D4, D5, D6, D7, D8;
  }

  lemma {:induction false} CutImportsStored(env: Env, st: State, dist: Directory, now: nat, cuts: seq<Cut>)
    requires Receive(env, dist, now).Ok?
    requires var inc := Receive(env, dist, now).value;
      inc.record.hex in st.objects && Succeeds(env, st.objects[inc.record.hex], inc)
    requires UpToEight(WritesOf(cuts))
    ensures var inc := Receive(env, dist, now).value;
      CutImports(env, st, dist, cuts) ==
        st.(objects := st.objects[inc.record.hex := CutTimes(env, st.objects[inc.record.hex], inc, WritesOf(cuts))])
  {
    var inc := Receive(env, dist, now).value;
    var hex := inc.record.hex;
    var dir := st.objects[hex];
    if cuts == [] {
      assert st.objects[hex := dir] == st.objects;
    } else {
      var front, last := cuts[..|cuts| - 1], cuts[|cuts| - 1];
      assert WritesOf(cuts)[..|cuts| - 1] == WritesOf(front);
      FrontUpToEight(cuts);
      CutImportsStored(env, st, dist, now, front);
      var before, d := CutImports(env, st, dist, front), CutTimes(env, dir, inc, WritesOf(front));
      hide Succeeds, UpToEight, Readable, Receive, Failure, Refusal, NewRecord, D8, AllButSums, CutImport;
      NextRun(env, dir, inc, WritesOf(front));
      CutOnce(env, before, dist, now, last, d);
      SetAgain(st.objects, hex, d, DirAfter(last.writes, env, d, inc));
      hide DirAfter;
    }
  }

  lemma SetAgain(objects: map<Hex, Directory>, hex: Hex, first: Directory, second: Directory)
    ensures objects[hex := first][hex := second] == objects[hex := second]
  {
  }

  lemma FrontUpToEight(cuts: seq<Cut>)
    requires cuts != [] && UpToEight(WritesOf(cuts))
    ensures UpToEight(WritesOf(cuts[..|cuts| - 1]))
  {
    var front := cuts[..|cuts| - 1];
    forall i | 0 <= i < |front| ensures WritesOf(front)[i] <= 8 {
      assert WritesOf(front)[i] == WritesOf(cuts)[i];
    }
  }

  lemma CutOnce(env: Env, st: State, dist: Directory, now: nat, cut: Cut, d: Directory)
    requires Receive(env, dist, now).Ok?
    requires var inc := Receive(env, dist, now).value;
      && inc.record.hex in st.objects && st.objects[inc.record.hex] == d && Readable(d)
      && Refusal(d, inc).None? && Failure(env, d, inc).None?
    ensures var inc := Receive(env, dist, now).value;
      CutImport(env, st, dist, cut.now, cut.writes) ==
        st.(objects := st.objects[inc.record.hex := DirAfter(cut.writes, env, d, inc)])
  {
    var inc := Receive(env, dist, now).value;
    ReceivedLater(env, dist, now, cut.now);
    RepairsIgnoreTime(d, inc, cut.now);
    FailureIgnoresTime(env, d, inc, cut.now);
    CutIgnoresTime(env, d, inc, cut.now, cut.writes);
    hide Receive, Refusal, Failure, DirAfter;
  }

  lemma {:induction false} CutImportsFresh(env: Env, st: State, dist: Directory, later: nat, cuts: seq<Cut>)
    requires Lawful(env) && WellNamedDist(env, dist) && Receive(env, dist, later).Ok?
    requires Receive(env, dist, later).value.record.hex !in st.objects
    ensures var inc := Receive(env, dist, later).value;
      CutImports(env, st, dist, cuts) ==
        if Farthest(WritesOf(cuts)) == 0 then st
        else st.(objects := st.objects[inc.record.hex := Staged(Redated(inc, Begun(cuts, later)))])
    ensures Farthest(WritesOf(cuts)) == 0 ==> Begun(cuts, later) == later
  {
    if cuts != [] {
      var inc := Receive(env, dist, later).value;
      var front, last := cuts[..|cuts| - 1], cuts[|cuts| - 1];
      assert WritesOf(cuts)[..|cuts| - 1] == WritesOf(front);
      CutImportsFresh(env, st, dist, later, front);
      BegunLast(cuts, later);
      ReceivedLater(env, dist, later, last.now);
      if Farthest(WritesOf(front)) > 0 {
        var staged := Staged(Redated(inc, Begun(front, later)));
        var before := st.(objects := st.objects[inc.record.hex := staged]);
        StagedStays(env, dist, later, Begun(front, later), last.writes);
        CutOnce(env, before, dist, later, last, staged);
        assert before.objects[inc.record.hex := staged] == before.objects;
        hide Receive, Staged, CutImport;
      }
    }
  }

  lemma {:induction false} BegunLast(cuts: seq<Cut>, later: nat)
    requires cuts != []
    ensures var front, last := cuts[..|cuts| - 1], cuts[|cuts| - 1];
      Begun(cuts, later) ==
        if Farthest(WritesOf(front)) > 0 then Begun(front, later) else if last.writes > 0 then last.now else later
  {
    var front := cuts[..|cuts| - 1];
    FarthestFront(WritesOf(front));
    if |cuts| > 1 {
      BegunLast(cuts[1..], later);
      assert cuts[1..][..|cuts| - 2] == front[1..];
      assert WritesOf(front)[1..] == WritesOf(front[1..]);
    }
  }

  lemma {:induction false} FarthestFront(cuts: seq<nat>)
    ensures cuts != [] ==> Farthest(cuts) == Max(cuts[0], Farthest(cuts[1..]))
  {
    if |cuts| > 1 {
      FarthestFront(cuts[..|cuts| - 1]);
      assert cuts[..|cuts| - 1][1..] == cuts[1..][..|cuts| - 2];
    }
  }

  /** A freshly stored directory is left alone by every further run, cut off or not. */
  lemma StagedStays(env: Env, dist: Directory, later: nat, begun: nat, k: nat)
    requires Lawful(env) && WellNamedDist(env, dist) && Receive(env, dist, later).Ok?
    ensures var inc := Receive(env, dist, later).value;
      var dir := Staged(Redated(inc, begun));
      && Readable(dir) && Refusal(dir, inc).None? && Failure(env, dir, inc).None?
      && DirAfter(k, env, dir, inc) == dir
  {
    var inc := Receive(env, dist, later).value;
    ReceiveVouches(env, dist, later);
    StagedIsDone(env, Redated(inc, begun), k);
    CutIgnoresTime(env, Staged(Redated(inc, begun)), inc, begun, k);
    RepairsIgnoreTime(Staged(Redated(inc, begun)), inc, begun);
    FailureIgnoresTime(env, Staged(Redated(inc, begun)), inc, begun);
  }

  lemma StagedIsDone(env: Env, inc: Incoming, k: nat)
    requires Lawful(env) && Vouched(env, inc) && WellNamed(inc.manifest)
    ensures var dir := Staged(inc);
      && Readable(dir) && Refusal(dir, inc).None? && Failure(env, dir, inc).None?
      && DirAfter(k, env, dir, inc) == dir
  {
    var dir := Staged(inc);
    StagedCoherent(env, inc);
    StagedSidecars(inc);
    RepairsAreNoops(env, dir, inc);
    NothingLeftToDo(env, dir, inc);
    NothingLeftBetween(env, dir, inc, k);
  }

  /** Importing the same output until it goes through, after any number of runs each cut off at any write: the last
      run returns the record that one uninterrupted import at the time of the first write would have, writes the index
      entry and leaves every file as that import, except the checksum file exactly if the first run to rewrite the
      record stopped right behind it and nothing repairs the file. */
  lemma RerunsComplete(env: Env, st: State, dist: Directory, cuts: seq<Cut>, later: nat)
    requires Lawful(env) && Coherent(env, st) && WellNamedDist(env, dist) && CollisionFree(env, st, dist, later)
    requires UpToEight(WritesOf(cuts)) && Import(env, st, dist, later).result.Ok?
    ensures
      var whole := Import(env, st, dist, Begun(cuts, later));
      var last := Import(env, CutImports(env, st, dist, cuts), dist, later);
      && whole.result.Ok? && last.result == whole.result
      && SameButSums(last.state, whole.state, whole.result.value.hex)
      && (last.state == whole.state <==> !(FirstLate(WritesOf(cuts)) == 7 && WouldStayStale(env, st, dist, later)))
  {
    ReceiveVouches(env, dist, later);
    ReceivedLater(env, dist, later, Begun(cuts, later));
    if Receive(env, dist, later).value.record.hex in st.objects {
      RerunsStored(env, st, dist, cuts, later);
    } else {
      RerunsFresh(env, st, dist, cuts, later);
    }
  }

  lemma RerunsFresh(env: Env, st: State, dist: Directory, cuts: seq<Cut>, later: nat)
    requires Lawful(env) && WellNamedDist(env, dist) && Receive(env, dist, later).Ok?
    requires Receive(env, dist, later).value.record.hex !in st.objects
    ensures Import(env, CutImports(env, st, dist, cuts), dist, later) == Import(env, st, dist, Begun(cuts, later))
  {
    var inc, begun := Receive(env, dist, later).value, Begun(cuts, later);
    ReceiveVouches(env, dist, later);
    ReceivedLater(env, dist, later, begun);
    CutImportsFresh(env, st, dist, later, cuts);
    if Farthest(WritesOf(cuts)) > 0 {
      RerunFresh(env, st, Redated(inc, begun), later);
      assert Redated(Redated(inc, begun), later) == inc by {
        ReceivedLater(env, dist, later, later);
      }
      hide Receive, Staged, Reimport, Upsert;
    }
  }

  lemma RerunsStored(env: Env, st: State, dist: Directory, cuts: seq<Cut>, later: nat)
    requires Lawful(env) && Coherent(env, st) && WellNamedDist(env, dist) && CollisionFree(env, st, dist, later)
    requires UpToEight(WritesOf(cuts)) && Import(env, st, dist, later).result.Ok?
    requires Receive(env, dist, later).value.record.hex in st.objects
    ensures
      var whole := Import(env, st, dist, Begun(cuts, later));
      var last := Import(env, CutImports(env, st, dist, cuts), dist, later);
      && whole.result.Ok? && last.result == whole.result
      && SameButSums(last.state, whole.state, whole.result.value.hex)
      && (last.state == whole.state <==> !(FirstLate(WritesOf(cuts)) == 7 && WouldStayStale(env, st, dist, later)))
  {
    var inc, begun := Receive(env, dist, later).value, Begun(cuts, later);
    StoredSucceeds(env, st, dist, later);
    ReceivedLater(env, dist, later, begun);
    ReimportIgnoresTime(env, st, inc, begun);
    RerunsReimport(env, st, dist, cuts, later);
    hide Reimport, Succeeds, Receive, CutImports, Failure, SumsStayStale, UpToEight, Coherent, CollisionFree;
  }

  lemma StoredSucceeds(env: Env, st: State, dist: Directory, later: nat)
    requires Lawful(env) && Coherent(env, st) && WellNamedDist(env, dist) && CollisionFree(env, st, dist, later)
    requires Import(env, st, dist, later).result.Ok? && Receive(env, dist, later).value.record.hex in st.objects
    ensures var inc := Receive(env, dist, later).value;
      && Readable(st.objects[inc.record.hex]) && Succeeds(env, st.objects[inc.record.hex], inc)
      && Failure(env, st.objects[inc.record.hex], inc).None?
      && Reimport(env, st, inc).result == Ok(NewRecord(env, st.objects[inc.record.hex], inc))
      && NewRecord(env, st.objects[inc.record.hex], inc).hex == inc.record.hex
  {
    var inc := Receive(env, dist, later).value;
    ReceiveVouches(env, dist, later);
    assert CoherentDir(env, inc.record.hex, st.objects[inc.record.hex]);
    ReimportOutcome(env, st, inc);
    hide Receive, D8, D5;
  }

  lemma RerunsReimport(env: Env, st: State, dist: Directory, cuts: seq<Cut>, later: nat)
    requires Receive(env, dist, later).Ok? && UpToEight(WritesOf(cuts))
    requires var inc := Receive(env, dist, later).value;
      && inc.record.hex in st.objects && Succeeds(env, st.objects[inc.record.hex], inc)
      && Failure(env, st.objects[inc.record.hex], inc).None?
    ensures
      var inc, before := Receive(env, dist, later).value, CutImports(env, st, dist, cuts);
      && inc.record.hex in before.objects && Readable(before.objects[inc.record.hex])
      && var whole, last := Reimport(env, st, inc), Reimport(env, before, inc);
      && whole.result.Ok? && last.result == whole.result && SameButSums(last.state, whole.state, inc.record.hex)
      && (last.state == whole.state <==>
            !(FirstLate(WritesOf(cuts)) == 7 && SumsStayStale(env, st.objects[inc.record.hex], inc)))
  {
    var inc := Receive(env, dist, later).value;
    var hex := inc.record.hex;
    var dir := st.objects[hex];
    CutImportsStored(env, st, dist, later, cuts);
    NextRun(env, dir, inc, WritesOf(cuts));
    NextSums(env, dir, inc, WritesOf(cuts));
    hide Receive, CutImports, Failure, NewRecord, D8, Reimport, SameButSums, SumsStayStale, AllButSums;
    SameOutcome(env, st, st.(objects := st.objects[hex := CutTimes(env, dir, inc, WritesOf(cuts))]), inc);
  }

  lemma SameOutcome(env: Env, st: State, before: State, inc: Incoming)
    requires inc.record.hex in st.objects && inc.record.hex in before.objects
    requires Readable(st.objects[inc.record.hex]) && Readable(before.objects[inc.record.hex])
    requires before == st.(objects := st.objects[inc.record.hex := before.objects[inc.record.hex]])
    requires var dir, cut := st.objects[inc.record.hex], before.objects[inc.record.hex];
      && Refusal(dir, inc).None? && Failure(env, dir, inc).None? && Refusal(cut, inc).None? && Failure(env, cut, inc).None?
      && NewRecord(env, cut, inc) == NewRecord(env, dir, inc) && AllButSums(D8(env, cut, inc), D8(env, dir, inc))
    ensures var dir, cut := st.objects[inc.record.hex], before.objects[inc.record.hex];
      var whole, last := Reimport(env, st, inc), Reimport(env, before, inc);
      && whole.result.Ok? && last.result == whole.result && SameButSums(last.state, whole.state, inc.record.hex)
      && (last.state == whole.state <==> D8(env, cut, inc) == D8(env, dir, inc))
  {
    hide Refusal, Failure, NewRecord, Upsert;
    var hex := inc.record.hex;
    var dir, cut := st.objects[hex], before.objects[hex];
    var whole, last := Reimport(env, st, inc), Reimport(env, before, inc);
    assert last.state.objects[hex] == D8(env, cut, inc) && whole.state.objects[hex] == D8(env, dir, inc);
    assert before.objects[hex := D8(env, cut, inc)] == st.objects[hex := D8(env, cut, inc)];
    hide D8;
  }
}
