/** Cut-off operations: what holds at every crash point, and what running the import again repairs. */
module StoreCrash {
  import opened Prelude
  import opened Text
  import opened Evidence
  import opened Order
  import opened Store
  import opened StoreCoherence
  import opened StoreHistory

  // ---------------------------------------------------------------------------------------
  // The index at every crash point
  // ---------------------------------------------------------------------------------------

  predicate Backed(st: State, r: ArtifactRecord) {
    && r.hex in st.objects
    && RECORD_FILE in st.objects[r.hex] && st.objects[r.hex][RECORD_FILE].RecordDoc?
    && IsDigest(r.hex)
  }

  predicate KeyedByDigest(st: State, hex: Hex) {
    hex in st.objects && RECORD_FILE in st.objects[hex] && st.objects[hex][RECORD_FILE].RecordDoc? ==>
      st.objects[hex][RECORD_FILE].record.hex == hex && IsDigest(hex)
  }

  /** The index is strictly sorted and every indexed digest has an object directory with a record. */
  ghost predicate IndexBacked(st: State) {
    && StrictlyAscending(RecordLess, st.index)
    && (forall r | r in st.index :: Backed(st, r))
    && (forall hex | hex in st.objects :: KeyedByDigest(st, hex))
  }

  /** Writing within one object directory that keeps a record of its digest keeps the index backed. */
  lemma DirWriteKeepsBacked(st: State, hex: Hex, dir: Directory)
    requires IndexBacked(st) && IsDigest(hex)
    requires RECORD_FILE in dir && dir[RECORD_FILE].RecordDoc? && dir[RECORD_FILE].record.hex == hex
    ensures IndexBacked(st.(objects := st.objects[hex := dir]))
  {
    var st' := st.(objects := st.objects[hex := dir]);
    forall r | r in st'.index ensures Backed(st', r) {
      assert Backed(st, r);
    }
    forall h | h in st'.objects ensures KeyedByDigest(st', h) {
      if h != hex {
        assert KeyedByDigest(st, h);
      }
    }
  }

  lemma IndexWriteKeepsBacked(st: State, r: ArtifactRecord)
    requires IndexBacked(st) && Backed(st, r)
    ensures IndexBacked(st.(index := Upsert(st.index, r)))
  {
    UpsertKeeps(st.index, r);
    var st' := st.(index := Upsert(st.index, r));
    forall x | x in st'.index ensures Backed(st', x) {
      assert Backed(st, x);
    }
    forall h | h in st'.objects ensures KeyedByDigest(st', h) {
      assert KeyedByDigest(st, h);
    }
  }

  lemma CutImportKeepsBacked(env: Env, st: State, dist: Directory, now: nat, k: nat)
    requires Lawful(env) && IndexBacked(st)
    ensures IndexBacked(CutImport(env, st, dist, now, k))
  {
    if Receive(env, dist, now).Ok? {
      var inc := Receive(env, dist, now).value;
      var hex := inc.record.hex;
      ReceiveVouches(env, dist, now);
      if hex in st.objects && Readable(st.objects[hex]) {
        assert KeyedByDigest(st, hex);
        var stop := Failure(env, st.objects[hex], inc);
        var done := if stop.Some? && stop.value.writes < k then stop.value.writes else k;
        RecordAfter(done, env, st.objects[hex], inc);
        DirWriteKeepsBacked(st, hex, DirAfter(done, env, st.objects[hex], inc));
      } else if hex !in st.objects {
        DirWriteKeepsBacked(st, hex, Staged(inc));
      }
    }
  }

  /** A whole import is its directory writes followed, on success, by the index write. */
  lemma ImportIsItsWrites(env: Env, st: State, dist: Directory, now: nat)
    ensures
      var out, cut := Import(env, st, dist, now), CutImport(env, st, dist, now, 8);
      out.state == if out.result.Ok? then cut.(index := Upsert(st.index, out.result.value)) else cut
    ensures CutImport(env, st, dist, now, 8).index == st.index
  {
    if Receive(env, dist, now).Ok? {
      var inc := Receive(env, dist, now).value;
      if inc.record.hex in st.objects && Readable(st.objects[inc.record.hex]) {
        FailsBeforeLastWrite(env, st.objects[inc.record.hex], inc);
      }
    }
  }

  lemma FailsBeforeLastWrite(env: Env, dir: Directory, inc: Incoming)
    requires Readable(dir)
    ensures Failure(env, dir, inc).Some? ==> Failure(env, dir, inc).value.writes < 8
    ensures DirAfter(8, env, dir, inc) == D8(env, dir, inc)
  {
  }

  lemma ImportKeepsBacked(env: Env, st: State, dist: Directory, now: nat)
    requires Lawful(env) && IndexBacked(st)
    ensures IndexBacked(Import(env, st, dist, now).state)
  {
    CutImportKeepsBacked(env, st, dist, now, 8);
    ImportIsItsWrites(env, st, dist, now);
    if Import(env, st, dist, now).result.Ok? {
      SuccessIsBacked(env, st, dist, now);
      IndexWriteKeepsBacked(CutImport(env, st, dist, now, 8), Import(env, st, dist, now).result.value);
    }
  }

  lemma SuccessIsBacked(env: Env, st: State, dist: Directory, now: nat)
    requires Lawful(env) && IndexBacked(st) && Import(env, st, dist, now).result.Ok?
    ensures Backed(CutImport(env, st, dist, now, 8), Import(env, st, dist, now).result.value)
  {
    var inc := Receive(env, dist, now).value;
    var hex := inc.record.hex;
    ReceiveVouches(env, dist, now);
    if hex in st.objects {
      assert KeyedByDigest(st, hex);
      RecordAfter(8, env, st.objects[hex], inc);
    }
  }

  lemma RemoveKeepsBacked(st: State, reference: string)
    requires IndexBacked(st)
    ensures IndexBacked(Remove(st, reference)) && IndexBacked(CutRemove(st, reference))
  {
    var found := Resolve(st.index, reference);
    if found.Ok? {
      WithoutKeeps(st.index, found.value.hex);
      var cut, st' := CutRemove(st, reference), Remove(st, reference);
      forall r | r in cut.index ensures Backed(cut, r) && Backed(st', r) {
        assert Backed(st, r);
      }
      forall h | h in st.objects ensures KeyedByDigest(cut, h) && (h in st'.objects ==> KeyedByDigest(st', h)) {
        assert KeyedByDigest(st, h);
      }
    }
  }

  /** Whatever operations run or are cut off, in any order, the index stays sorted and backed. */
  lemma {:induction false} CrashesKeepIndexBacked(env: Env, attempts: seq<Attempt>)
    requires Lawful(env)
    ensures IndexBacked(RunAttempts(env, EMPTY, attempts))
  {
    if attempts != [] {
      var before, a := RunAttempts(env, EMPTY, attempts[..|attempts| - 1]), attempts[|attempts| - 1];
      CrashesKeepIndexBacked(env, attempts[..|attempts| - 1]);
      match a
      case Whole(ImportOp(dist, now)) => ImportKeepsBacked(env, before, dist, now);
      case Whole(RemoveOp(reference)) => RemoveKeepsBacked(before, reference);
      case ImportCut(dist, now, k) => CutImportKeepsBacked(env, before, dist, now, k);
      case RemoveCut(reference) => RemoveKeepsBacked(before, reference);
    }
  }

  // ---------------------------------------------------------------------------------------
  // Resolving a full digest
  // ---------------------------------------------------------------------------------------

  lemma {:induction false} MatchingFull(index: seq<ArtifactRecord>, needle: string)
    requires |needle| == 64 && forall r | r in index :: |r.hex| == 64
    ensures forall r :: r in Matching(index, needle) <==> r in index && r.hex == needle
    ensures StrictlyAscending(RecordLess, index) ==> |Matching(index, needle)| <= 1
  {
    if index != [] {
      MatchingFull(index[1..], needle);
      assert index == [index[0]] + index[1..];
      assert needle <= index[0].hex <==> needle == index[0].hex by {
        assert index[0] in index;
      }
      if StrictlyAscending(RecordLess, index) {
        forall j | 1 <= j < |index| ensures index[j].hex != index[0].hex {
          assert RecordLess(index[0], index[j]);
          StringLessIsTotal();
        }
        var others := Matching(index[1..], needle);
        assert others == [] || others[0] in others;
      }
    }
  }

  lemma LoweredDigest(hex: Hex)
    requires IsDigest(hex)
    ensures Lowered(hex) == hex && forall i | 0 <= i < |hex| :: IsHexDigit(hex[i])
  {
  }

  /** In every state such a run can leave, resolving a full indexed digest, with or without its `sha256:`
      prefix, returns exactly that entry. */
  lemma ResolveIsExact(env: Env, attempts: seq<Attempt>, r: ArtifactRecord)
    requires Lawful(env) && r in RunAttempts(env, EMPTY, attempts).index
    ensures Resolve(RunAttempts(env, EMPTY, attempts).index, r.hex) == Ok(r)
    ensures Resolve(RunAttempts(env, EMPTY, attempts).index, SHA256_PREFIX + r.hex) == Ok(r)
  {
    var st := RunAttempts(env, EMPTY, attempts);
    CrashesKeepIndexBacked(env, attempts);
    ResolveBacked(st, r);
  }

  lemma ResolveBacked(st: State, r: ArtifactRecord)
    requires IndexBacked(st) && r in st.index
    ensures Resolve(st.index, r.hex) == Ok(r) && Resolve(st.index, SHA256_PREFIX + r.hex) == Ok(r)
  {
    assert Backed(st, r);
    LoweredDigest(r.hex);
    FoundAlone(st, r);
    StripOfDigest(r.hex);
  }

  lemma FoundAlone(st: State, r: ArtifactRecord)
    requires IndexBacked(st) && r in st.index
    ensures Matching(st.index, r.hex) == [r]
  {
    forall x | x in st.index ensures |x.hex| == 64 {
      assert Backed(st, x);
    }
    assert Backed(st, r);
    MatchingFull(st.index, r.hex);
    assert r in Matching(st.index, r.hex);
  }

  lemma StripOfDigest(hex: Hex)
    requires IsDigest(hex)
    ensures StripSha256(hex).None? && StripSha256(SHA256_PREFIX + hex) == Some(hex)
  {
    assert (SHA256_PREFIX + hex)[|SHA256_PREFIX|..] == hex;
    assert SHA256_PREFIX[0] == 's' && hex[0] != 's';
  }
}
