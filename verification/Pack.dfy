/** The producer side of crates/ost-build/src/package.rs and its agreement with the consumer side. */
module Pack {
  import opened Prelude
  import opened Text
  import opened Archive

  /** A staged file, judged by itself: `rel` is its path relative to the stage, `target` a link's raw target. */
  datatype Staged =
    | StagedFile(rel: string, data: seq<byte>, executable: bool)
    | StagedLink(rel: string, target: string)

  datatype Options = Options(overrides: map<string, seq<byte>>, executablePaths: set<string>)

  datatype PackError = BadTarget(problem: LinkProblem)

  datatype Packed = Packed(entries: seq<TarEntry>, files: seq<FileEntry>, totalSize: nat)

  /** `split(['/', '\\'])`. */
  function SplitEither(s: string): (parts: seq<string>)
    ensures |parts| >= 1
  {
    if s == [] then [[]]
    else
      var rest := SplitEither(s[1..]);
      if s[0] == '/' || s[0] == '\\' then [[]] + rest else [[s[0]] + rest[0]] + rest[1..]
  }

  lemma {:induction false} SplitEitherIsSlashed(s: string)
    ensures SplitEither(s) == Split(Slashed(s), '/')
  {
    if s != [] {
      SplitEitherIsSlashed(s[1..]);
      assert Slashed(s)[1..] == Slashed(s[1..]);
    }
  }

  /** `validate_symlink`: the target to store, slash-normalised, or why the link cannot be packed. */
  method ValidateSymlink(rel: string, raw: string) returns (r: Result<string, PackError>)
    ensures r == if UnsafeSymlinkTarget(Slashed(rel), Slashed(raw)).None? then Ok(Slashed(raw))
                 else Err(BadTarget(UnsafeSymlinkTarget(Slashed(rel), Slashed(raw)).value))
  {
    var target := Slashed(raw);
    if target == [] {
      return Err(BadTarget(EmptyTarget));
    }
    if HasControl(target) {
      return Err(BadTarget(ControlInTarget));
    }
    if target[0] == '/' {
      return Err(BadTarget(AbsoluteTarget));
    }
    if HasDriveLetter(target) {
      return Err(BadTarget(DriveLetterTarget));
    }
    SplitEitherIsSlashed(rel);
    var escapes := Escapes(Parent(NonEmptyParts(SplitEither(rel))), target);
    return if escapes then Err(BadTarget(EscapesRoot)) else Ok(target);
  }

  function Payload(opts: Options, f: Staged): seq<byte>
    requires f.StagedFile?
  {
    var rel := Slashed(f.rel);
    if rel in opts.overrides then opts.overrides[rel] else f.data
  }

  predicate RunsAsTool(opts: Options, f: Staged)
    requires f.StagedFile?
  {
    f.executable || Slashed(f.rel) in opts.executablePaths
  }

  /** The tar entry a staged file becomes. */
  function EntryFor(opts: Options, f: Staged): TarEntry {
    if f.StagedLink? then TarEntry(Slashed(f.rel), Symlink, Slashed(f.target), [], 0x1ff)
    else TarEntry(Slashed(f.rel), Regular, [], Payload(opts, f), if RunsAsTool(opts, f) then 0x1ed else 0x1a4)
  }

  /** The manifest line the packer records for it. */
  function LineFor(sha: seq<byte> -> string, utf8: string -> seq<byte>, opts: Options, f: Staged): FileEntry {
    if f.StagedLink? then
      var target := Slashed(f.target);
      FileEntry(Slashed(f.rel), sha(utf8(target)), |utf8(target)|, Some(target), false)
    else FileEntry(Slashed(f.rel), sha(Payload(opts, f)), |Payload(opts, f)|, None, RunsAsTool(opts, f))
  }

  ghost predicate Packable(f: Staged) {
    f.StagedLink? ==> UnsafeSymlinkTarget(Slashed(f.rel), Slashed(f.target)).None?
  }

  function TotalSize(files: seq<FileEntry>): nat {
    if files == [] then 0 else TotalSize(files[..|files| - 1]) + files[|files| - 1].size
  }

  /** `pack_dir_with_overrides`: one entry and one manifest line per staged file; the first unsafe link stops it. */
  method PackDir(sha: seq<byte> -> string, utf8: string -> seq<byte>, opts: Options, files: seq<Staged>)
    returns (r: Result<Packed, PackError>)
    ensures r.Ok? <==> forall i | 0 <= i < |files| :: Packable(files[i])
    ensures r.Ok? ==>
      && |r.value.entries| == |files| == |r.value.files|
      && (forall i | 0 <= i < |files| :: r.value.entries[i] == EntryFor(opts, files[i]))
      && (forall i | 0 <= i < |files| :: r.value.files[i] == LineFor(sha, utf8, opts, files[i]))
      && r.value.totalSize == TotalSize(r.value.files)
  {
    hide EntryFor, LineFor, Packable;
    var entries: seq<TarEntry>, lines: seq<FileEntry>, total := [], [], 0;
    for i := 0 to |files|
      invariant |entries| == i == |lines|
      invariant forall j | 0 <= j < i :: Packable(files[j])
      invariant forall j | 0 <= j < i :: entries[j] == EntryFor(opts, files[j])
      invariant forall j | 0 <= j < i :: lines[j] == LineFor(sha, utf8, opts, files[j])
      invariant total == TotalSize(lines)
    {
      var packed := PackOne(sha, utf8, opts, files[i]);
      if packed.Err? {
        return Err(packed.error);
      }
      var (entry, line) := packed.value;
      entries := entries + [entry];
      total := total + line.size;
      assert (lines + [line])[..i] == lines;
      lines := lines + [line];
    }
    return Ok(Packed(entries, lines, total));
  }

  /** One round of the packing loop. */
  method PackOne(sha: seq<byte> -> string, utf8: string -> seq<byte>, opts: Options, f: Staged)
    returns (r: Result<(TarEntry, FileEntry), PackError>)
    ensures r.Ok? <==> Packable(f)
    ensures r.Ok? ==> r.value == (EntryFor(opts, f), LineFor(sha, utf8, opts, f))
  {
    var rel := Slashed(f.rel);
    match f
    case StagedLink(raw, rawTarget) =>
      var validated := ValidateSymlink(raw, rawTarget);
      if validated.Err? {
        return Err(validated.error);
      }
      var target := validated.value;
      return Ok((TarEntry(rel, Symlink, target, [], 0x1ff),
                 FileEntry(rel, sha(utf8(target)), |utf8(target)|, Some(target), false)));
    case StagedFile(_, contents, tool) =>
      var data := if rel in opts.overrides then opts.overrides[rel] else contents;
      var executable := tool || rel in opts.executablePaths;
      return Ok((TarEntry(rel, Regular, [], data, if executable then 0x1ed else 0x1a4),
                 FileEntry(rel, sha(data), |data|, None, executable)));
  }

  // ---------------------------------------------------------------------------------------
  // Producer meets consumer
  // ---------------------------------------------------------------------------------------

  predicate Shippable(files: seq<Staged>) {
    && (forall i | 0 <= i < |files| :: UnsafeEntryPath(Slashed(files[i].rel)).None?)
    && (forall i, j | 0 <= i < j < |files| :: Slashed(files[i].rel) != Slashed(files[j].rel))
  }

  lemma SlashedTwice(s: string)
    ensures Slashed(Slashed(s)) == Slashed(s)
  {
  }

  /** The consumer classifies a packed entry as the file it came from, and reads the packer's line off it. */
  lemma EntryReadsBack(sha: seq<byte> -> string, utf8: string -> seq<byte>, opts: Options, f: Staged)
    requires Packable(f) && UnsafeEntryPath(Slashed(f.rel)).None?
    ensures IsFile(EntryFor(opts, f)) && Line(sha, utf8, EntryFor(opts, f)) == LineFor(sha, utf8, opts, f)
    ensures Slashed(EntryFor(opts, f).path) == Slashed(f.rel)
  {
    SlashedTwice(f.rel);
    if f.StagedLink? {
      SlashedTwice(f.target);
    }
    assert Executable(0x1ed) && !Executable(0x1a4);
  }

  lemma PackedIsClean(opts: Options, files: seq<Staged>, entries: seq<TarEntry>)
    requires Shippable(files) && |entries| == |files|
    requires forall i | 0 <= i < |files| :: Packable(files[i]) && entries[i] == EntryFor(opts, files[i])
    ensures Clean(entries)
  {
    forall i | 0 <= i < |entries| ensures IsFile(entries[i]) && Slashed(entries[i].path) == Slashed(files[i].rel) {
      EntryReadsBack(_ => "", _ => [], opts, files[i]);
    }
  }

  /** For every stage of distinct safe paths that the packer accepts — with `entries` and `lines` as `PackDir`
      returns them — the walk finds exactly the packer's lines, nothing is unsafe, and the comparison passes. */
  lemma {:induction false} PackedArchiveVerifies(sha: seq<byte> -> string, utf8: string -> seq<byte>, opts: Options,
                              files: seq<Staged>, entries: seq<TarEntry>, lines: seq<FileEntry>)
    requires Shippable(files) && |entries| == |files| == |lines|
    requires forall i | 0 <= i < |files| :: Packable(files[i]) && entries[i] == EntryFor(opts, files[i])
    requires forall i | 0 <= i < |files| :: lines[i] == LineFor(sha, utf8, opts, files[i])
    ensures Files(sha, utf8, entries) == lines && UnsafeEntries(entries) == []
    ensures
      var c := Judged(lines, lines, |lines|).(extra := Extras(lines, lines, |lines|));
      Passed(c) && c.matched == |files|
  {
    PackedIsClean(opts, files, entries);
    CleanArchive(sha, utf8, entries);
    forall i | 0 <= i < |entries| ensures Line(sha, utf8, entries[i]) == lines[i] {
      EntryReadsBack(sha, utf8, opts, files[i]);
    }
    assert forall i | 0 <= i < |lines| :: lines[i].path == Slashed(files[i].rel);
    PassesExactly(lines, lines);
  }
}
