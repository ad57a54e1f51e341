/** The pack / walk / compare pipeline: crates/ost-build/src/package.rs writes an archive,
    crates/ost-artifact/src/store.rs walks it, scans it for unsafe entries and compares it with a manifest.
    A tar archive is the sequence of its entries; SHA-256 is the parameter `sha`. */
module Archive {
  import opened Prelude
  import opened Text

  datatype EntryType = Regular | DirectoryEntry | Symlink | Special(code: nat)

  /** `link` is the link name (empty if absent); `mode` the Unix permission bits. */
  datatype TarEntry = TarEntry(path: string, kind: EntryType, link: string, data: seq<byte>, mode: nat)

  /** `FileEntry`, `ArchiveFile` and `ManifestFile` carry the same five fields. */
  datatype FileEntry = FileEntry(path: string, sha256: string, size: nat, linkTarget: Option<string>, executable: bool)

  // ---------------------------------------------------------------------------------------
  // Paths
  // ---------------------------------------------------------------------------------------

  function NonEmptyParts(parts: seq<string>): seq<string> {
    if parts == [] then []
    else (if parts[0] == [] then [] else [parts[0]]) + NonEmptyParts(parts[1..])
  }

  function Components(s: string): seq<string> {
    NonEmptyParts(Split(s, '/'))
  }

  predicate IsControl(c: char) {
    (c as int) < 0x20 || 0x7f <= (c as int) < 0xa0
  }

  predicate HasControl(s: string) {
    exists i | 0 <= i < |s| :: IsControl(s[i])
  }

  predicate IsAsciiAlphabetic(c: char) {
    'a' <= c <= 'z' || 'A' <= c <= 'Z'
  }

  predicate HasDriveLetter(s: string) {
    |s| >= 2 && IsAsciiAlphabetic(s[0]) && s[1] == ':'
  }

  datatype PathProblem = EmptyPath | AbsolutePath | DriveLetterPath | ParentTraversal | ControlCharacter

  /** `unsafe_entry_path`. */
  function UnsafeEntryPath(path: string): Option<PathProblem> {
    if path == [] then Some(EmptyPath)
    else if path[0] == '/' then Some(AbsolutePath)
    else if HasDriveLetter(path) then Some(DriveLetterPath)
    else if ".." in Split(path, '/') then Some(ParentTraversal)
    else if HasControl(path) then Some(ControlCharacter)
    else None
  }

  datatype LinkProblem = EmptyTarget | ControlInTarget | AbsoluteTarget | DriveLetterTarget | EscapesRoot

  /** Reference meaning of escaping: some prefix of the target climbs above the root. */
  function Level(depth: int, parts: seq<string>): int {
    if parts == [] then depth
    else
      var last := parts[|parts| - 1];
      var before := Level(depth, parts[..|parts| - 1]);
      if last == "." then before else if last == ".." then before - 1 else before + 1
  }

  ghost predicate ClimbsOut(depth: nat, parts: seq<string>) {
    exists k | 0 <= k <= |parts| :: Level(depth, parts[..k]) < 0
  }

  /** The component-stack resolution that `unsafe_symlink_target` and `validate_symlink` both run: a `..` that
      finds the stack empty leaves the tree. */
  method Escapes(directory: seq<string>, target: string) returns (escapes: bool)
    ensures escapes <==> ClimbsOut(|directory|, Components(target))
  {
    var stack, parts := directory, Components(target);
    for i := 0 to |parts|
      invariant |stack| == Level(|directory|, parts[..i])
      invariant forall k | 0 <= k <= i :: Level(|directory|, parts[..k]) >= 0
    {
      assert parts[..i + 1][..i] == parts[..i];
      if parts[i] == "." {
      } else if parts[i] == ".." {
        if stack == [] {
          assert Level(|directory|, parts[..i + 1]) < 0;
          return true;
        }
        stack := stack[..|stack| - 1];
      } else {
        stack := stack + [parts[i]];
      }
    }
    return false;
  }

  /** A link's own directory: its components without the file name. */
  function Parent(components: seq<string>): seq<string> {
    if components == [] then [] else components[..|components| - 1]
  }

  /** `unsafe_symlink_target`: the consumer's gate. */
  ghost function UnsafeSymlinkTarget(path: string, target: string): Option<LinkProblem> {
    if target == [] then Some(EmptyTarget)
    else if HasControl(target) then Some(ControlInTarget)
    else if target[0] == '/' then Some(AbsoluteTarget)
    else if HasDriveLetter(target) then Some(DriveLetterTarget)
    else if ClimbsOut(|Parent(Components(path))|, Components(target)) then Some(EscapesRoot)
    else None
  }

  method CheckSymlinkTarget(path: string, target: string) returns (problem: Option<LinkProblem>)
    ensures problem == UnsafeSymlinkTarget(path, target)
  {
    if target == [] {
      return Some(EmptyTarget);
    }
    if HasControl(target) {
      return Some(ControlInTarget);
    }
    if target[0] == '/' {
      return Some(AbsoluteTarget);
    }
    if HasDriveLetter(target) {
      return Some(DriveLetterTarget);
    }
    var escapes := Escapes(Parent(Components(path)), target);
    return if escapes then Some(EscapesRoot) else None;
  }

  // ---------------------------------------------------------------------------------------
  // Classification, walk and scan
  // ---------------------------------------------------------------------------------------

  datatype Reason = BadPath(why: PathProblem) | BadLink(problem: LinkProblem) | Unsupported(code: nat) | DuplicatePath

  /** One `<why>: <path>` string of the unsafe list. */
  datatype Unsafe = Unsafe(reason: Reason, path: string)

  datatype EntryClass = IsRegular | IsDirectory | IsSymlink(target: string) | IsUnsafe(reason: Reason)

  /** `classify_entry`, on the slash-normalised path and link target. */
  ghost function Classify(path: string, kind: EntryType, target: string): EntryClass {
    if UnsafeEntryPath(path).Some? then IsUnsafe(BadPath(UnsafeEntryPath(path).value))
    else
      match kind
      case Regular => IsRegular
      case DirectoryEntry => IsDirectory
      case Symlink =>
        if UnsafeSymlinkTarget(path, target).Some? then IsUnsafe(BadLink(UnsafeSymlinkTarget(path, target).value))
        else IsSymlink(target)
      case Special(code) => IsUnsafe(Unsupported(code))
  }

  method ClassifyEntry(path: string, kind: EntryType, target: string) returns (c: EntryClass)
    ensures c == Classify(path, kind, target)
  {
    var problem := UnsafeEntryPath(path);
    if problem.Some? {
      return IsUnsafe(BadPath(problem.value));
    }
    match kind
    case Regular => return IsRegular;
    case DirectoryEntry => return IsDirectory;
    case Symlink =>
      var bad := CheckSymlinkTarget(path, target);
      return if bad.Some? then IsUnsafe(BadLink(bad.value)) else IsSymlink(target);
    case Special(code) => return IsUnsafe(Unsupported(code));
  }

  ghost function ClassOf(e: TarEntry): EntryClass {
    Classify(Slashed(e.path), e.kind, Slashed(e.link))
  }

  ghost predicate IsFile(e: TarEntry) {
    ClassOf(e).IsRegular? || ClassOf(e).IsSymlink?
  }

  /** A safe file path that an earlier safe file already has. */
  ghost predicate Repeats(entries: seq<TarEntry>, i: nat)
    requires i < |entries|
  {
    IsFile(entries[i]) &&
    exists j | 0 <= j < i :: IsFile(entries[j]) && Slashed(entries[j].path) == Slashed(entries[i].path)
  }

  predicate Executable(mode: nat) {
    mode % 2 == 1 || mode / 8 % 2 == 1 || mode / 64 % 2 == 1
  }

  /** The manifest line a safe, first-seen entry stands for. */
  ghost function Line(sha: seq<byte> -> string, utf8: string -> seq<byte>, e: TarEntry): FileEntry {
    if ClassOf(e).IsSymlink? then
      var target := Slashed(e.link);
      FileEntry(Slashed(e.path), sha(utf8(target)), |utf8(target)|, Some(target), false)
    else FileEntry(Slashed(e.path), sha(e.data), |e.data|, None, Executable(e.mode))
  }

  /** What the archive holds: the first safe occurrence of every file path, in order. */
  ghost function Files(sha: seq<byte> -> string, utf8: string -> seq<byte>, entries: seq<TarEntry>): seq<FileEntry> {
    if entries == [] then []
    else
      var n := |entries| - 1;
      Files(sha, utf8, entries[..n])
      + if IsFile(entries[n]) && !Repeats(entries, n) then [Line(sha, utf8, entries[n])] else []
  }

  /** What must not be extracted: every unsafe entry and every repeated file path, in order. */
  ghost function UnsafeEntries(entries: seq<TarEntry>): seq<Unsafe> {
    if entries == [] then []
    else
      var n := |entries| - 1;
      var path := Slashed(entries[n].path);
      UnsafeEntries(entries[..n])
      + if ClassOf(entries[n]).IsUnsafe? then [Unsafe(ClassOf(entries[n]).reason, path)]
        else if Repeats(entries, n) then [Unsafe(DuplicatePath, path)]
        else []
  }

  /** The paths of the safe files among the first `n` entries: the `seen_files` set. */
  ghost predicate SeenIs(seen: set<string>, entries: seq<TarEntry>, n: nat)
    requires n <= |entries|
  {
    forall p :: p in seen <==> exists j | 0 <= j < n :: IsFile(entries[j]) && Slashed(entries[j].path) == p
  }

  lemma PrefixFacts(entries: seq<TarEntry>, i: nat)
    requires i < |entries|
    ensures entries[..i + 1][..i] == entries[..i] && entries[..i + 1][i] == entries[i]
    ensures Repeats(entries[..i + 1], i) == Repeats(entries, i)
  {
  }

  /** `walk_archive`: hash every safe file, collect what is unsafe. */
  method WalkArchive(sha: seq<byte> -> string, utf8: string -> seq<byte>, entries: seq<TarEntry>)
    returns (files: seq<FileEntry>, unsafeEntries: seq<Unsafe>)
    ensures files == Files(sha, utf8, entries)
    ensures unsafeEntries == UnsafeEntries(entries)
  {
    files, unsafeEntries := [], [];
    var seen: set<string> := {};
    for i := 0 to |entries|
      invariant files == Files(sha, utf8, entries[..i])
      invariant unsafeEntries == UnsafeEntries(entries[..i])
      invariant SeenIs(seen, entries, i)
    {
      PrefixFacts(entries, i);
      var path, target := Slashed(entries[i].path), Slashed(entries[i].link);
      var c := ClassifyEntry(path, entries[i].kind, target);
      match c
      case IsUnsafe(reason) => unsafeEntries := unsafeEntries + [Unsafe(reason, path)];
      case IsDirectory =>
      case IsRegular =>
        if path in seen {
          unsafeEntries := unsafeEntries + [Unsafe(DuplicatePath, path)];
        } else {
          seen := seen + {path};
          files := files + [FileEntry(path, sha(entries[i].data), |entries[i].data|, None, Executable(entries[i].mode))];
        }
      case IsSymlink(safe) =>
        if path in seen {
          unsafeEntries := unsafeEntries + [Unsafe(DuplicatePath, path)];
        } else {
          seen := seen + {path};
          files := files + [FileEntry(path, sha(utf8(safe)), |utf8(safe)|, Some(safe), false)];
        }
    }
    assert entries[..|entries|] == entries;
  }

  /** `scan_unsafe_entries`: the extract-time gate. It agrees with the walk on every archive. */
  method ScanUnsafeEntries(entries: seq<TarEntry>) returns (unsafeEntries: seq<Unsafe>)
    ensures unsafeEntries == UnsafeEntries(entries)
  {
    unsafeEntries := [];
    var seen: set<string> := {};
    for i := 0 to |entries|
      invariant unsafeEntries == UnsafeEntries(entries[..i])
      invariant SeenIs(seen, entries, i)
    {
      PrefixFacts(entries, i);
      var path, target := Slashed(entries[i].path), Slashed(entries[i].link);
      var c := ClassifyEntry(path, entries[i].kind, target);
      match c
      case IsUnsafe(reason) => unsafeEntries := unsafeEntries + [Unsafe(reason, path)];
      case IsDirectory =>
      case _ =>
        if path in seen {
          unsafeEntries := unsafeEntries + [Unsafe(DuplicatePath, path)];
        } else {
          seen := seen + {path};
        }
    }
    assert entries[..|entries|] == entries;
  }

  /** An archive of safe files with distinct paths holds exactly one line per entry and nothing unsafe. */
  ghost predicate Clean(entries: seq<TarEntry>) {
    && (forall i | 0 <= i < |entries| :: IsFile(entries[i]))
    && (forall i, j | 0 <= i < j < |entries| :: Slashed(entries[i].path) != Slashed(entries[j].path))
  }

  lemma {:induction false} CleanArchive(sha: seq<byte> -> string, utf8: string -> seq<byte>, entries: seq<TarEntry>)
    requires Clean(entries)
    ensures UnsafeEntries(entries) == [] && |Files(sha, utf8, entries)| == |entries|
    ensures forall i | 0 <= i < |entries| :: Files(sha, utf8, entries)[i] == Line(sha, utf8, entries[i])
  {
    if entries != [] {
      var n := |entries| - 1;
      CleanPrefix(entries);
      CleanArchive(sha, utf8, entries[..n]);
      assert Files(sha, utf8, entries) == Files(sha, utf8, entries[..n]) + [Line(sha, utf8, entries[n])];
    }
  }

  lemma CleanPrefix(entries: seq<TarEntry>)
    requires Clean(entries) && entries != []
    ensures var n := |entries| - 1;
      Clean(entries[..n]) && IsFile(entries[n]) && !Repeats(entries, n)
  {
  }

  // ---------------------------------------------------------------------------------------
  // Comparison with a manifest
  // ---------------------------------------------------------------------------------------

  datatype FileComparison = FileComparison(matched: nat, mismatched: seq<string>, missing: seq<string>, extra: seq<string>)

  predicate Passed(c: FileComparison) {
    c.mismatched == [] && c.missing == [] && c.extra == []
  }

  predicate RepeatsPath(files: seq<FileEntry>, i: nat)
    requires i < |files|
  {
    exists j | 0 <= j < i :: files[j].path == files[i].path
  }

  predicate HasPath(files: seq<FileEntry>, path: string) {
    exists j | 0 <= j < |files| :: files[j].path == path
  }

  /** The first file of that path. */
  function Find(files: seq<FileEntry>, path: string): FileEntry
    requires HasPath(files, path)
  {
    if files[0].path == path then files[0]
    else
      assert HasPath(files[1..], path) by {
        var j :| 0 <= j < |files| && files[j].path == path;
        assert files[1..][j - 1].path == path;
      }
      Find(files[1..], path)
  }

  predicate Agrees(actual: seq<FileEntry>, want: FileEntry) {
    HasPath(actual, want.path) && Find(actual, want.path) == want
  }

  /** The comparison after the first `n` expected files, extras aside. */
  function Judged(actual: seq<FileEntry>, expected: seq<FileEntry>, n: nat): FileComparison
    requires n <= |expected|
  {
    if n == 0 then FileComparison(0, [], [], [])
    else
      var c, want := Judged(actual, expected, n - 1), expected[n - 1];
      if RepeatsPath(expected, n - 1) then c.(mismatched := c.mismatched + [want.path])
      else if Agrees(actual, want) then c.(matched := c.matched + 1)
      else if HasPath(actual, want.path) then c.(mismatched := c.mismatched + [want.path])
      else c.(missing := c.missing + [want.path])
  }

  function Extras(actual: seq<FileEntry>, expected: seq<FileEntry>, n: nat): seq<string>
    requires n <= |actual|
  {
    if n == 0 then []
    else
      Extras(actual, expected, n - 1)
      + if RepeatsPath(actual, n - 1) || !HasPath(expected, actual[n - 1].path) then [actual[n - 1].path] else []
  }

  /** `compare_archive_files`. */
  method CompareArchiveFiles(actual: seq<FileEntry>, expected: seq<FileEntry>) returns (c: FileComparison)
    ensures c == Judged(actual, expected, |expected|).(extra := Extras(actual, expected, |actual|))
  {
    c := FileComparison(0, [], [], []);
    var seen: set<string> := {};
    for i := 0 to |expected|
      invariant c == Judged(actual, expected, i)
      invariant forall p :: p in seen <==> exists j | 0 <= j < i :: expected[j].path == p
    {
      var want := expected[i];
      if want.path in seen {
        c := c.(mismatched := c.mismatched + [want.path]);
      } else {
        var found := FindFile(actual, want.path);
        if found.Some? && found.value == want {
          c := c.(matched := c.matched + 1);
        } else if found.Some? {
          c := c.(mismatched := c.mismatched + [want.path]);
        } else {
          c := c.(missing := c.missing + [want.path]);
        }
      }
      seen := seen + {want.path};
    }
    JudgedHasNoExtras(actual, expected, |expected|);
    var seenActual: set<string> := {};
    for i := 0 to |actual|
      invariant c == Judged(actual, expected, |expected|).(extra := Extras(actual, expected, i))
      invariant forall p :: p in seenActual <==> exists j | 0 <= j < i :: actual[j].path == p
    {
      var f := actual[i];
      if f.path in seenActual || !HasPath(expected, f.path) {
        c := c.(extra := c.extra + [f.path]);
      }
      seenActual := seenActual + {f.path};
    }
  }

  method FindFile(files: seq<FileEntry>, path: string) returns (found: Option<FileEntry>)
    ensures found == if HasPath(files, path) then Some(Find(files, path)) else None
  {
    for i := 0 to |files|
      invariant forall j | 0 <= j < i :: files[j].path != path
      invariant HasPath(files, path) <==> HasPath(files[i..], path)
      invariant HasPath(files[i..], path) ==> Find(files, path) == Find(files[i..], path)
    {
      if files[i].path == path {
        return Some(files[i]);
      }
      assert files[i..][1..] == files[i + 1..];
      assert HasPath(files[i..], path) <==> HasPath(files[i + 1..], path) by {
        if HasPath(files[i..], path) {
          var j :| 0 <= j < |files[i..]| && files[i..][j].path == path;
          assert files[i + 1..][j - 1].path == path;
        }
      }
    }
    return None;
  }

  lemma {:induction false} JudgedHasNoExtras(actual: seq<FileEntry>, expected: seq<FileEntry>, n: nat)
    requires n <= |expected|
    ensures Judged(actual, expected, n).extra == []
  {
    if n > 0 {
      JudgedHasNoExtras(actual, expected, n - 1);
    }
  }

  predicate DistinctPaths(files: seq<FileEntry>) {
    forall i, j | 0 <= i < j < |files| :: files[i].path != files[j].path
  }

  ghost predicate SameFiles(a: seq<FileEntry>, b: seq<FileEntry>) {
    forall f :: f in a <==> f in b
  }

  lemma {:induction false} JudgedClean(actual: seq<FileEntry>, expected: seq<FileEntry>, n: nat)
    requires n <= |expected|
    ensures var c := Judged(actual, expected, n);
      c.mismatched == [] && c.missing == [] <==>
        forall i | 0 <= i < n :: !RepeatsPath(expected, i) && Agrees(actual, expected[i])
    ensures (forall i | 0 <= i < n :: !RepeatsPath(expected, i) && Agrees(actual, expected[i])) ==>
      Judged(actual, expected, n).matched == n
  {
    if n > 0 {
      JudgedClean(actual, expected, n - 1);
    }
  }

  lemma {:induction false} ExtrasClean(actual: seq<FileEntry>, expected: seq<FileEntry>, n: nat)
    requires n <= |actual|
    ensures Extras(actual, expected, n) == [] <==>
      forall i | 0 <= i < n :: !RepeatsPath(actual, i) && HasPath(expected, actual[i].path)
  {
    if n > 0 {
      ExtrasClean(actual, expected, n - 1);
    }
  }

  lemma {:induction false} FindFinds(files: seq<FileEntry>, path: string)
    requires HasPath(files, path)
    ensures Find(files, path) in files && Find(files, path).path == path
  {
    if files[0].path != path {
      var j :| 0 <= j < |files| && files[j].path == path;
      assert files[1..][j - 1].path == path;
      FindFinds(files[1..], path);
    }
  }

  lemma FindUnique(files: seq<FileEntry>, f: FileEntry)
    requires DistinctPaths(files) && f in files
    ensures HasPath(files, f.path) && Find(files, f.path) == f
  {
    var i :| 0 <= i < |files| && files[i] == f;
    assert files[i].path == f.path;
    FindFinds(files, f.path);
    var j :| 0 <= j < |files| && files[j] == Find(files, f.path);
    if i < j || j < i {
      assert false;
    }
  }

  /** The comparison passes exactly when both lists are duplicate-free and equal as sets of files. */
  lemma PassesExactly(actual: seq<FileEntry>, expected: seq<FileEntry>)
    ensures
      var c := Judged(actual, expected, |expected|).(extra := Extras(actual, expected, |actual|));
      && (Passed(c) <==> DistinctPaths(actual) && DistinctPaths(expected) && SameFiles(actual, expected))
      && (Passed(c) ==> c.matched == |expected|)
  {
    JudgedClean(actual, expected, |expected|);
    ExtrasClean(actual, expected, |actual|);
    DistinctIffNoRepeats(actual);
    DistinctIffNoRepeats(expected);
    if DistinctPaths(actual) && DistinctPaths(expected) {
      if SameFiles(actual, expected) {
        SameFilesAgree(actual, expected);
      } else if Passed(Judged(actual, expected, |expected|).(extra := Extras(actual, expected, |actual|))) {
        AgreeingAreSame(actual, expected);
      }
    }
  }

  lemma DistinctIffNoRepeats(files: seq<FileEntry>)
    ensures DistinctPaths(files) <==> forall i | 0 <= i < |files| :: !RepeatsPath(files, i)
  {
    if !DistinctPaths(files) {
      var i, j :| 0 <= i < j < |files| && files[i].path == files[j].path;
      assert RepeatsPath(files, j);
    }
  }

  lemma SameFilesAgree(actual: seq<FileEntry>, expected: seq<FileEntry>)
    requires DistinctPaths(actual) && SameFiles(actual, expected)
    ensures forall i | 0 <= i < |expected| :: Agrees(actual, expected[i])
    ensures forall i | 0 <= i < |actual| :: HasPath(expected, actual[i].path)
  {
    forall i | 0 <= i < |expected| ensures Agrees(actual, expected[i]) {
      assert expected[i] in expected;
      FindUnique(actual, expected[i]);
    }
    forall i | 0 <= i < |actual| ensures HasPath(expected, actual[i].path) {
      assert actual[i] in actual;
      var j :| 0 <= j < |expected| && expected[j] == actual[i];
    }
  }

  lemma AgreeingAreSame(actual: seq<FileEntry>, expected: seq<FileEntry>)
    requires DistinctPaths(actual)
    requires forall i | 0 <= i < |expected| :: Agrees(actual, expected[i])
    requires forall i | 0 <= i < |actual| :: HasPath(expected, actual[i].path)
    ensures SameFiles(actual, expected)
  {
    forall f | f in expected ensures f in actual {
      var i :| 0 <= i < |expected| && expected[i] == f;
      assert Agrees(actual, expected[i]);
      FindFinds(actual, f.path);
    }
    forall f | f in actual ensures f in expected {
      var i :| 0 <= i < |actual| && actual[i] == f;
      var j :| 0 <= j < |expected| && expected[j].path == actual[i].path;
      assert Agrees(actual, expected[j]);
      FindUnique(actual, f);
    }
  }
}
