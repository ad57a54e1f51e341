/** The build identity of crates/ost-build/src/external.rs: the parsed CMake cache, the material that its digest is
    taken of, and when a recorded provenance still verifies. Which characters are white space is a parameter. */
module CMake {
  import opened Prelude
  import opened Text

  const NEWLINE := '\n'

  // ---------------------------------------------------------------------------------------
  // Lines and trimming
  // ---------------------------------------------------------------------------------------

  predicate OneLine(s: string) {
    NEWLINE !in s
  }

  /** Without the carriage return of a `\r\n`. */
  function Chomp(s: string): (r: string)
    ensures forall c | c in r :: c in s
  {
    if s != [] && s[|s| - 1] == '\r' then s[..|s| - 1] else s
  }

  /** `str::lines`. */
  function Lines(text: string): (lines: seq<string>)
    ensures forall i | 0 <= i < |lines| :: OneLine(lines[i])
    decreases |text|
  {
    if text == [] then []
    else
      var cut := SplitOnce(text, NEWLINE);
      if cut.None? then [text] else [Chomp(cut.value.0)] + Lines(cut.value.1)
  }

  // ---------------------------------------------------------------------------------------
  // CMakeCache.txt and CMakeCXXCompiler.cmake
  // ---------------------------------------------------------------------------------------

  type Entries = map<string, string>

  /** A `KEY:TYPE=VALUE` line. */
  function EntryOf(space: Space, line: string): (r: Option<(string, string)>)
    ensures r.Some? && OneLine(line) ==> OneLine(r.value.1)
  {
    var l := Trim(space, line);
    if l == [] || "//" <= l || "#" <= l then None
    else
      var cut := SplitOnce(l, '=');
      if cut.None? then None
      else
        var (decl, value) := cut.value;
        var typed := SplitOnce(decl, ':');
        assert forall c | c in value :: c in l;
        Some((Trim(space, if typed.Some? then typed.value.0 else decl), Trim(space, value)))
  }

  /** The place of the first white space. */
  function FirstSpace(space: Space, s: string): (r: Option<nat>)
    ensures r.Some? ==> r.value < |s|
  {
    if s == [] then None
    else if space(s[0]) then Some(0)
    else
      var rest := FirstSpace(space, s[1..]);
      if rest.None? then None else Some(rest.value + 1)
  }

  function Unquoted(s: string): (r: string)
    ensures forall c | c in r :: c in s
  {
    if |s| >= 2 && s[0] == '"' && s[|s| - 1] == '"' then s[1..|s| - 1] else s
  }

  /** A `set(KEY VALUE)` line. */
  function SetOf(space: Space, line: string): (r: Option<(string, string)>)
    ensures r.Some? && OneLine(line) ==> OneLine(r.value.1)
  {
    var l := Trim(space, line);
    if !("set(" <= l) || !EndsWith(l[4..], ")") then None
    else
      var inner := l[4..|l| - 1];
      var split := FirstSpace(space, inner);
      if split.None? then None
      else
        var key, value := Trim(space, inner[..split.value]), Unquoted(Trim(space, inner[split.value..]));
        if key == [] || value == [] then None else Some((key, value))
  }

  /** Later lines override earlier ones. */
  function Collect(pairs: seq<Option<(string, string)>>, n: nat): Entries
    requires n <= |pairs|
  {
    if n == 0 then map[]
    else if pairs[n - 1].None? then Collect(pairs, n - 1)
    else Collect(pairs, n - 1)[pairs[n - 1].value.0 := pairs[n - 1].value.1]
  }

  function CacheLines(space: Space, text: string): seq<Option<(string, string)>> {
    var lines := Lines(text);
    seq(|lines|, i requires 0 <= i < |lines| => EntryOf(space, lines[i]))
  }

  function SetLines(space: Space, text: string): seq<Option<(string, string)>> {
    var lines := Lines(text);
    seq(|lines|, i requires 0 <= i < |lines| => SetOf(space, lines[i]))
  }

  /** `CMakeCache::parse`. */
  method ParseCache(space: Space, text: string) returns (entries: Entries)
    ensures entries == Collect(CacheLines(space, text), |CacheLines(space, text)|)
    ensures OneLineEntries(entries)
  {
    hide EntryOf, Lines, OneLine;
    var lines := Lines(text);
    entries := map[];
    for i := 0 to |lines|
      invariant entries == Collect(CacheLines(space, text), i)
      invariant OneLineEntries(entries)
    {
      var entry := EntryOf(space, lines[i]);
      if entry.Some? {
        entries := entries[entry.value.0 := entry.value.1];
      }
    }
  }

  /** `parse_cmake_sets`. */
  method ParseCmakeSets(space: Space, text: string) returns (entries: Entries)
    ensures entries == Collect(SetLines(space, text), |SetLines(space, text)|)
    ensures OneLineEntries(entries)
  {
    hide SetOf, Lines, OneLine;
    var lines := Lines(text);
    entries := map[];
    for i := 0 to |lines|
      invariant entries == Collect(SetLines(space, text), i)
      invariant OneLineEntries(entries)
    {
      var entry := SetOf(space, lines[i]);
      if entry.Some? {
        entries := entries[entry.value.0 := entry.value.1];
      }
    }
  }

  predicate OneLineEntries(entries: Entries) {
    forall key | key in entries :: OneLine(entries[key])
  }

  datatype Compiler = Compiler(source: string, entries: Entries)

  datatype Cache = Cache(entries: Entries, compiler: Option<Compiler>)

  /** Every value of a parsed cache is one line; so is the source path of its compiler metadata, unless the path
      of the build tree has a line break in it. */
  predicate OneLineCache(cache: Cache) {
    && OneLineEntries(cache.entries)
    && (cache.compiler.Some? ==> OneLine(cache.compiler.value.source) && OneLineEntries(cache.compiler.value.entries))
  }

  /** `get`. */
  function Get(entries: Entries, key: string): Option<string> {
    if key in entries && entries[key] != [] && !EndsWith(entries[key], "-NOTFOUND") then Some(entries[key]) else None
  }

  function Lookup(entries: Entries, key: string): Option<string> {
    if key in entries then Some(entries[key]) else None
  }

  // ---------------------------------------------------------------------------------------
  // The identity material
  // ---------------------------------------------------------------------------------------

  const PXR_DIR := "pxr_DIR"
  const CACHEFILE_DIR := "CMAKE_CACHEFILE_DIR"

  const IDENTITY_KEYS_V1: seq<string> := [
    "CMAKE_HOME_DIRECTORY", "CMAKE_CACHEFILE_DIR", "CMAKE_GENERATOR", "CMAKE_BUILD_TYPE", "CMAKE_CXX_COMPILER",
    "CMAKE_CXX_STANDARD", "CMAKE_MSVC_RUNTIME_LIBRARY", "pxr_DIR", "_Python3_INCLUDE_DIR"]

  const CORE_KEYS: seq<string> := [
    "CMAKE_HOME_DIRECTORY", "CMAKE_CACHEFILE_DIR", "CMAKE_GENERATOR", "CMAKE_GENERATOR_INSTANCE",
    "CMAKE_GENERATOR_PLATFORM", "CMAKE_GENERATOR_TOOLSET", "CMAKE_BUILD_TYPE", "CMAKE_CONFIGURATION_TYPES",
    "CMAKE_CXX_COMPILER", "CMAKE_CXX_STANDARD", "CMAKE_MSVC_RUNTIME_LIBRARY"]

  const IDENTITY_KEYS: seq<string> := CORE_KEYS + ["pxr_DIR", "_Python3_INCLUDE_DIR"]

  const COMPILER_IDENTITY_KEYS: seq<string> := [
    "CMAKE_CXX_COMPILER", "CMAKE_CXX_COMPILER_ID", "CMAKE_CXX_COMPILER_VERSION",
    "CMAKE_CXX_COMPILER_ARCHITECTURE_ID", "CMAKE_CXX_SIMULATE_ID", "CMAKE_CXX_SIMULATE_VERSION",
    "CMAKE_CXX_COMPILER_FRONTEND_VARIANT"]

  const ABSENT := "<absent>"
  const SOURCE_KEY := "CXX_IDENTITY_SOURCE"

  /** The identity keys that apply: `pxr_DIR` only to trees that need OpenUSD. */
  function Applicable(keys: seq<string>, openusd: bool): seq<string> {
    if keys == [] then []
    else if !openusd && keys[0] == PXR_DIR then Applicable(keys[1..], openusd)
    else [keys[0]] + Applicable(keys[1..], openusd)
  }

  /** A value as the material shows it. */
  function Shown(v: Option<string>): string {
    if v.Some? then v.value else ABSENT
  }

  function MaterialLine(key: string, v: Option<string>): string {
    key + ['='] + Shown(v) + [NEWLINE]
  }

  /** One line for each key, from the `i`-th on. */
  function Section(keys: seq<string>, values: seq<Option<string>>, i: nat): string
    requires i <= |keys| == |values|
    decreases |keys| - i
  {
    if i == |keys| then [] else MaterialLine(keys[i], values[i]) + Section(keys, values, i + 1)
  }

  function CacheValues(entries: Entries, keys: seq<string>): (values: seq<Option<string>>)
    ensures |values| == |keys|
  {
    seq(|keys|, i requires 0 <= i < |keys| => Get(entries, keys[i]))
  }

  function CompilerValues(entries: Entries): (values: seq<Option<string>>)
    ensures |values| == |COMPILER_IDENTITY_KEYS|
  {
    seq(|COMPILER_IDENTITY_KEYS|, i requires 0 <= i < |COMPILER_IDENTITY_KEYS| => Lookup(entries, COMPILER_IDENTITY_KEYS[i]))
  }

  function CompilerPart(compiler: Option<Compiler>): string {
    if compiler.None? then MaterialLine(SOURCE_KEY, None)
    else
      MaterialLine(SOURCE_KEY, Some(compiler.value.source))
      + Section(COMPILER_IDENTITY_KEYS, CompilerValues(compiler.value.entries), 0)
  }

  /** What `identity_digest_for_scope` hashes. */
  function Material(cache: Cache, openusd: bool): string {
    var keys := Applicable(IDENTITY_KEYS, openusd);
    Section(keys, CacheValues(cache.entries, keys), 0) + CompilerPart(cache.compiler)
  }

  /** `identity_digest_for_scope` up to the hash, as the source builds it. */
  method IdentityMaterial(cache: Cache, openusd: bool) returns (material: string)
    ensures material == Material(cache, openusd)
  {
    hide MaterialLine;
    var keys := Applicable(IDENTITY_KEYS, openusd);
    material := PushSection("", keys, CacheValues(cache.entries, keys));
    ghost var front := material;
    if cache.compiler.Some? {
      material := material + MaterialLine(SOURCE_KEY, Some(cache.compiler.value.source));
      material := PushSection(material, COMPILER_IDENTITY_KEYS, CompilerValues(cache.compiler.value.entries));
    } else {
      material := material + MaterialLine(SOURCE_KEY, None);
    }
    assert material == front + CompilerPart(cache.compiler);
  }

  method PushSection(start: string, keys: seq<string>, values: seq<Option<string>>) returns (material: string)
    requires |keys| == |values|
    ensures material == start + Section(keys, values, 0)
  {
    hide MaterialLine;
    material := start;
    for i := 0 to |keys|
      invariant material + Section(keys, values, i) == start + Section(keys, values, 0)
    {
      assert material + Section(keys, values, i)
          == (material + MaterialLine(keys[i], values[i])) + Section(keys, values, i + 1);
      material := material + MaterialLine(keys[i], values[i]);
    }
    assert material + Section(keys, values, |keys|) == material;
  }

  // ---------------------------------------------------------------------------------------
  // The material determines what it shows
  // ---------------------------------------------------------------------------------------

  predicate OneLineValues(values: seq<Option<string>>) {
    forall i | 0 <= i < |values| :: OneLine(Shown(values[i]))
  }

  predicate SameShown(a: seq<Option<string>>, b: seq<Option<string>>) {
    |a| == |b| && forall i | 0 <= i < |a| :: Shown(a[i]) == Shown(b[i])
  }

  /** Two lines of one key with something behind them: equal texts have equal values and equal rests. */
  lemma LineDetermines(key: string, a: Option<string>, b: Option<string>, x: string, y: string)
    requires OneLine(Shown(a)) && OneLine(Shown(b))
    requires MaterialLine(key, a) + x == MaterialLine(key, b) + y
    ensures Shown(a) == Shown(b) && x == y
  {
    var head := key + ['='];
    assert MaterialLine(key, a) + x == head + (Shown(a) + [NEWLINE] + x);
    assert MaterialLine(key, b) + y == head + (Shown(b) + [NEWLINE] + y);
    SameBehind(head, Shown(a) + [NEWLINE] + x, Shown(b) + [NEWLINE] + y);
    SplitOnceAt(Shown(a), NEWLINE, x);
    SplitOnceAt(Shown(b), NEWLINE, y);
  }

  lemma SameBehind(head: string, a: string, b: string)
    requires head + a == head + b
    ensures a == b
  {
    assert a == (head + a)[|head|..] && b == (head + b)[|head|..];
  }

  lemma {:induction false} SectionDetermines(keys: seq<string>, a: seq<Option<string>>, b: seq<Option<string>>, i: nat,
                                             x: string, y: string)
    requires i <= |keys| == |a| == |b| && OneLineValues(a) && OneLineValues(b)
    requires Section(keys, a, i) + x == Section(keys, b, i) + y
    ensures x == y && forall j | i <= j < |keys| :: Shown(a[j]) == Shown(b[j])
    decreases |keys| - i
  {
    hide MaterialLine, Shown;
    if i < |keys| {
      assert Section(keys, a, i) + x == MaterialLine(keys[i], a[i]) + (Section(keys, a, i + 1) + x);
      assert Section(keys, b, i) + y == MaterialLine(keys[i], b[i]) + (Section(keys, b, i + 1) + y);
      LineDetermines(keys[i], a[i], b[i], Section(keys, a, i + 1) + x, Section(keys, b, i + 1) + y);
      SectionDetermines(keys, a, b, i + 1, x, y);
    } else {
      assert Section(keys, a, i) + x == x && Section(keys, b, i) + y == y;
    }
  }

  lemma {:induction false} SameShownSameSection(keys: seq<string>, a: seq<Option<string>>, b: seq<Option<string>>, i: nat)
    requires i <= |keys| == |a| && SameShown(a, b)
    ensures Section(keys, a, i) == Section(keys, b, i)
    decreases |keys| - i
  {
    if i < |keys| {
      SameShownSameSection(keys, a, b, i + 1);
    }
  }

  predicate SameCompiler(a: Option<Compiler>, b: Option<Compiler>) {
    if a.None? || b.None? then a.None? && b.None?
    else
      a.value.source == b.value.source && SameShown(CompilerValues(a.value.entries), CompilerValues(b.value.entries))
  }

  /** The caches look the same to the identity of this scope. */
  predicate SameIdentity(a: Cache, b: Cache, openusd: bool) {
    var keys := Applicable(IDENTITY_KEYS, openusd);
    SameShown(CacheValues(a.entries, keys), CacheValues(b.entries, keys)) && SameCompiler(a.compiler, b.compiler)
  }

  lemma CompilerDetermines(a: Option<Compiler>, b: Option<Compiler>)
    requires OneLineCache(Cache(map[], a)) && OneLineCache(Cache(map[], b))
    ensures CompilerPart(a) == CompilerPart(b) <==> SameCompiler(a, b)
  {
    hide Section, MaterialLine;
    if a.Some? && b.Some? {
      var va, vb := CompilerValues(a.value.entries), CompilerValues(b.value.entries);
      assert OneLineValues(va) && OneLineValues(vb);
      if CompilerPart(a) == CompilerPart(b) {
        var x, y := Section(COMPILER_IDENTITY_KEYS, va, 0), Section(COMPILER_IDENTITY_KEYS, vb, 0);
        LineDetermines(SOURCE_KEY, Some(a.value.source), Some(b.value.source), x, y);
        assert x + [] == x && y + [] == y;
        SectionDetermines(COMPILER_IDENTITY_KEYS, va, vb, 0, [], []);
      }
      if SameCompiler(a, b) {
        SameShownSameSection(COMPILER_IDENTITY_KEYS, va, vb, 0);
      }
    } else if a.Some? {
      MetadataIsNotAbsence(a.value);
    } else if b.Some? {
      MetadataIsNotAbsence(b.value);
    }
  }

  lemma MetadataIsNotAbsence(c: Compiler)
    requires OneLine(c.source)
    ensures CompilerPart(Some(c)) != CompilerPart(None)
  {
    var x := Section(COMPILER_IDENTITY_KEYS, CompilerValues(c.entries), 0);
    assert x != [] && MaterialLine(SOURCE_KEY, None) + [] == MaterialLine(SOURCE_KEY, None);
    if CompilerPart(Some(c)) == CompilerPart(None) {
      LineDetermines(SOURCE_KEY, Some(c.source), None, x, []);
    }
  }

  /** Two caches have the same material if and only if every applicable identity key and the compiler metadata
      show the same. */
  lemma MaterialExactly(a: Cache, b: Cache, openusd: bool)
    requires OneLineCache(a) && OneLineCache(b)
    ensures Material(a, openusd) == Material(b, openusd) <==> SameIdentity(a, b, openusd)
  {
    var keys := Applicable(IDENTITY_KEYS, openusd);
    hide Section, Applicable, CompilerPart;
    var va, vb := CacheValues(a.entries, keys), CacheValues(b.entries, keys);
    assert OneLineValues(va) && OneLineValues(vb);
    CompilerDetermines(a.compiler, b.compiler);
    if Material(a, openusd) == Material(b, openusd) {
      SectionDetermines(keys, va, vb, 0, CompilerPart(a.compiler), CompilerPart(b.compiler));
    }
    if SameIdentity(a, b, openusd) {
      SameShownSameSection(keys, va, vb, 0);
    }
  }

  /** No identity value is the literal that stands for absence. */
  predicate NoAbsentLiteral(values: seq<Option<string>>) {
    forall i | 0 <= i < |values| :: values[i] != Some(ABSENT)
  }

  /** Apart from that literal, showing the same is being the same: both absent, or present and equal. */
  lemma ShownDetermines(a: seq<Option<string>>, b: seq<Option<string>>)
    requires NoAbsentLiteral(a) && NoAbsentLiteral(b)
    ensures SameShown(a, b) <==> a == b
  {
    if SameShown(a, b) {
      forall i | 0 <= i < |a| ensures a[i] == b[i] {
        assert Shown(a[i]) == Shown(b[i]) && a[i] != Some(ABSENT) && b[i] != Some(ABSENT);
      }
    }
  }

  /** What `load` makes of the text of `CMakeCache.txt` and of the compiler metadata, if there is any. */
  function Loaded(space: Space, text: string, compiler: Option<(string, string)>): Cache {
    Cache(Collect(CacheLines(space, text), |CacheLines(space, text)|),
          if compiler.None? then None
          else Some(Compiler(compiler.value.0, Collect(SetLines(space, compiler.value.1), |SetLines(space, compiler.value.1)|))))
  }

  lemma {:induction false} CollectedOneLine(pairs: seq<Option<(string, string)>>, n: nat)
    requires n <= |pairs| && forall i | 0 <= i < |pairs| && pairs[i].Some? :: OneLine(pairs[i].value.1)
    ensures OneLineEntries(Collect(pairs, n))
  {
    hide OneLine;
    if n > 0 {
      CollectedOneLine(pairs, n - 1);
    }
  }

  lemma LoadedOneLine(space: Space, text: string, compiler: Option<(string, string)>)
    requires compiler.Some? ==> OneLine(compiler.value.0)
    ensures OneLineCache(Loaded(space, text, compiler))
  {
    hide EntryOf, SetOf, Lines, OneLine, Collect;
    CollectedOneLine(CacheLines(space, text), |CacheLines(space, text)|);
    if compiler.Some? {
      CollectedOneLine(SetLines(space, compiler.value.1), |SetLines(space, compiler.value.1)|);
    }
  }

  /** No applicable identity value, and no compiler identity value, is the literal that stands for absence. */
  predicate NoLiteral(cache: Cache, openusd: bool) {
    && NoAbsentLiteral(CacheValues(cache.entries, Applicable(IDENTITY_KEYS, openusd)))
    && (cache.compiler.Some? ==> NoAbsentLiteral(CompilerValues(cache.compiler.value.entries)))
  }

  /** The caches agree on every applicable identity key, presence and value, and on the compiler metadata. */
  predicate SameTree(a: Cache, b: Cache, openusd: bool) {
    && (forall key | key in Applicable(IDENTITY_KEYS, openusd) :: Get(a.entries, key) == Get(b.entries, key))
    && (a.compiler.None? <==> b.compiler.None?)
    && (a.compiler.Some? ==>
          && a.compiler.value.source == b.compiler.value.source
          && forall key | key in COMPILER_IDENTITY_KEYS ::
               Lookup(a.compiler.value.entries, key) == Lookup(b.compiler.value.entries, key))
  }

  lemma ValuesAgree(a: Entries, b: Entries, keys: seq<string>)
    ensures CacheValues(a, keys) == CacheValues(b, keys) <==> forall key | key in keys :: Get(a, key) == Get(b, key)
  {
    hide Get;
    var va, vb := CacheValues(a, keys), CacheValues(b, keys);
    forall i | 0 <= i < |keys| ensures va[i] == Get(a, keys[i]) && vb[i] == Get(b, keys[i]) {
    }
    if va == vb {
      forall key | key in keys ensures Get(a, key) == Get(b, key) {
        var i :| 0 <= i < |keys| && keys[i] == key;
      }
    }
  }

  lemma CompilersAgree(a: Entries, b: Entries)
    ensures CompilerValues(a) == CompilerValues(b) <==>
      forall key | key in COMPILER_IDENTITY_KEYS :: Lookup(a, key) == Lookup(b, key)
  {
    hide Lookup;
    var keys, va, vb := COMPILER_IDENTITY_KEYS, CompilerValues(a), CompilerValues(b);
    forall i | 0 <= i < |keys| ensures va[i] == Lookup(a, keys[i]) && vb[i] == Lookup(b, keys[i]) {
    }
    if va == vb {
      forall key | key in keys ensures Lookup(a, key) == Lookup(b, key) {
        var i :| 0 <= i < |keys| && keys[i] == key;
      }
    }
  }

  /** Without the literal, looking the same to the identity is being the same. */
  lemma IdentityIsTree(a: Cache, b: Cache, openusd: bool)
    requires NoLiteral(a, openusd) && NoLiteral(b, openusd)
    ensures SameIdentity(a, b, openusd) <==> SameTree(a, b, openusd)
  {
    var keys := Applicable(IDENTITY_KEYS, openusd);
    ShownDetermines(CacheValues(a.entries, keys), CacheValues(b.entries, keys));
    ValuesAgree(a.entries, b.entries, keys);
    if a.compiler.Some? && b.compiler.Some? {
      ShownDetermines(CompilerValues(a.compiler.value.entries), CompilerValues(b.compiler.value.entries));
      CompilersAgree(a.compiler.value.entries, b.compiler.value.entries);
    }
  }

  /** For any two cache texts, with any compiler metadata: if no identity value is the literal `<absent>`, the material
      is the same if and only if every applicable key agrees in presence and value, and so does the metadata. */
  lemma ParsedMaterialExactly(space: Space, ta: string, ca: Option<(string, string)>, tb: string, cb: Option<(string, string)>,
                              openusd: bool)
    requires (ca.Some? ==> OneLine(ca.value.0)) && (cb.Some? ==> OneLine(cb.value.0))
    requires NoLiteral(Loaded(space, ta, ca), openusd) && NoLiteral(Loaded(space, tb, cb), openusd)
    ensures
      var a, b := Loaded(space, ta, ca), Loaded(space, tb, cb);
      Material(a, openusd) == Material(b, openusd) <==> SameTree(a, b, openusd)
  {
    hide Material, SameIdentity, SameTree, NoLiteral, Loaded, OneLineCache;
    LoadedOneLine(space, ta, ca);
    LoadedOneLine(space, tb, cb);
    MaterialExactly(Loaded(space, ta, ca), Loaded(space, tb, cb), openusd);
    IdentityIsTree(Loaded(space, ta, ca), Loaded(space, tb, cb), openusd);
  }

  const GENERATOR := "CMAKE_GENERATOR"
  const COLLIDING := GENERATOR + ['='] + ABSENT

  lemma TrimKeeps(space: Space, s: string)
    requires s != [] && !space(s[0]) && !space(s[|s| - 1])
    ensures Trim(space, s) == s
  {
  }

  /** A text of one plain `KEY=VALUE` line. */
  lemma PlainLineParses(space: Space, key: string, value: string)
    requires key != [] && !space(key[0]) && !space(key[|key| - 1]) && OneLine(key) && '=' !in key && ':' !in key
    requires key[0] != '/' && key[0] != '#'
    requires value != [] && !space(value[0]) && !space(value[|value| - 1]) && OneLine(value)
    ensures Loaded(space, key + ['='] + value, None).entries == map[key := value]
  {
    var line := key + ['='] + value;
    assert line[0] == key[0] && line[|line| - 1] == value[|value| - 1];
    TrimKeeps(space, line);
    TrimKeeps(space, key);
    TrimKeeps(space, value);
    SplitOnceAt(key, '=', value);
    hide Trim, SplitOnce;
    assert OneLine(line);
    assert Lines(line) == [line];
    assert EntryOf(space, line) == Some((key, value));
    hide EntryOf, Lines;
    var pairs := CacheLines(space, line);
    assert pairs == [Some((key, value))];
    assert Collect(pairs, 1) == Collect(pairs, 0)[key := value];
  }

  lemma CollidingParses(space: Space)
    requires !space('C') && !space('R') && !space('<') && !space('>')
    ensures Loaded(space, COLLIDING, None).entries == map[GENERATOR := ABSENT]
  {
    assert GENERATOR[0] == 'C' && GENERATOR[|GENERATOR| - 1] == 'R' && ABSENT[0] == '<' && ABSENT[|ABSENT| - 1] == '>';
    assert NEWLINE !in GENERATOR && '=' !in GENERATOR && ':' !in GENERATOR && NEWLINE !in ABSENT;
    hide Loaded;
    PlainLineParses(space, GENERATOR, ABSENT);
  }

  /** The literal is a genuine collision: a cache text that names its generator `<absent>` has the material of the
      empty text, whatever the white space (as long as it leaves these letters alone). */
  lemma AbsentLiteralCollides(space: Space, openusd: bool)
    requires !space('C') && !space('R') && !space('<') && !space('>')
    ensures
      var a, b := Loaded(space, COLLIDING, None), Loaded(space, "", None);
      && Get(a.entries, GENERATOR) == Some(ABSENT) && Get(b.entries, GENERATOR) == None
      && Material(a, openusd) == Material(b, openusd)
  {
    CollidingParses(space);
    var a, b := Loaded(space, COLLIDING, None), Loaded(space, "", None);
    assert b.entries == map[] by {
      assert Lines("") == [];
    }
    var keys := Applicable(IDENTITY_KEYS, openusd);
    hide Applicable, Material, Loaded;
    assert OneLine(ABSENT);
    assert !EndsWith(ABSENT, "-NOTFOUND");
    forall i | 0 <= i < |keys| ensures Shown(CacheValues(a.entries, keys)[i]) == Shown(CacheValues(b.entries, keys)[i]) {
    }
    assert a.compiler.None? && b.compiler.None? by {
      LoadedPlain(space, COLLIDING);
      LoadedPlain(space, "");
    }
    MaterialExactly(a, b, openusd);
  }

  lemma LoadedPlain(space: Space, text: string)
    ensures Loaded(space, text, None).compiler.None?
  {
  }

  // ---------------------------------------------------------------------------------------
  // Provenance
  // ---------------------------------------------------------------------------------------

  datatype Runtime = Runtime(id: string, digest: string, root: string)

  datatype Schema = V1 | V2 | Unknown

  /** The fields of a provenance record that `verify_against` compares. */
  datatype Provenance = Provenance(schema: Schema, buildDir: string, openusd: bool, digest: string, runtime: Runtime)

  datatype Mismatch = UnsupportedSchema | OtherDirectory | Reconfigured | OtherRuntime | RuntimeDrift | OtherRoot

  /** The hash, and whether the host compares paths without regard to case. */
  datatype Host = Host(sha: string -> string, windows: bool)

  function TrimSlashes(s: string): string {
    if s != [] && s[|s| - 1] == '/' then TrimSlashes(s[..|s| - 1]) else s
  }

  function PathKey(host: Host, path: string): string {
    var trimmed := TrimSlashes(Slashed(path));
    if host.windows then Lowered(trimmed) else trimmed
  }

  /** `same_path`. */
  predicate SamePath(host: Host, a: string, b: string) {
    PathKey(host, a) == PathKey(host, b)
  }

  function MaterialV1(cache: Cache): string {
    Section(IDENTITY_KEYS_V1, CacheValues(cache.entries, IDENTITY_KEYS_V1), 0)
  }

  /** `verify_against`. */
  function VerifyAgainst(host: Host, p: Provenance, cache: Cache, buildDir: string, runtime: Runtime): Result<(), Mismatch> {
    var digest := host.sha(if p.schema.V1? then MaterialV1(cache) else Material(cache, p.openusd));
    if p.schema.Unknown? then Err(UnsupportedSchema)
    else if !SamePath(host, p.buildDir, buildDir) then Err(OtherDirectory)
    else if p.digest != digest then Err(Reconfigured)
    else if p.runtime.id != runtime.id then Err(OtherRuntime)
    else if p.runtime.digest != runtime.digest then Err(RuntimeDrift)
    else if !SamePath(host, p.runtime.root, runtime.root) then Err(OtherRoot)
    else Ok(())
  }

  // ---------------------------------------------------------------------------------------
  // Importing a tree
  // ---------------------------------------------------------------------------------------

  datatype ImportError = MissingIdentity(field: string) | ForeignRuntime | ConfigurationRequired | ConfigurationUnavailable

  /** `path_is_within`. */
  predicate PathIsWithin(host: Host, path: string, root: string) {
    var p, r := TrimSlashes(Slashed(path)), TrimSlashes(Slashed(root));
    || SamePath(host, p, r)
    || (&& |r| < |p| && p[|r|] == '/'
        && if host.windows then Lowered(p[..|r|]) == Lowered(r) else p[..|r|] == r)
  }

  lemma SlashedTwice(path: string)
    ensures Slashed(Slashed(path)) == Slashed(path)
  {
  }

  lemma {:induction false} TrimmedTwice(s: string)
    ensures TrimSlashes(TrimSlashes(s)) == TrimSlashes(s)
    ensures TrimSlashes(s) <= s
  {
    if s != [] && s[|s| - 1] == '/' {
      TrimmedTwice(s[..|s| - 1]);
    }
  }

  lemma TrimmedIsSlashed(path: string)
    ensures Slashed(TrimSlashes(Slashed(path))) == TrimSlashes(Slashed(path))
  {
    TrimmedTwice(Slashed(path));
  }

  /** Containment by components, in the host's own comparison: the same directory, or the root and a slash in front. */
  lemma WithinExactly(host: Host, path: string, root: string)
    ensures PathIsWithin(host, path, root) <==>
      PathKey(host, path) == PathKey(host, root) || PathKey(host, root) + ['/'] <= PathKey(host, path)
  {
    var p, r := TrimSlashes(Slashed(path)), TrimSlashes(Slashed(root));
    TrimmedIsSlashed(path);
    TrimmedIsSlashed(root);
    TrimmedTwice(Slashed(path));
    TrimmedTwice(Slashed(root));
    var kp, kr := PathKey(host, path), PathKey(host, root);
    assert |kp| == |p| && |kr| == |r|;
    if |r| < |p| {
      assert kp[..|r|] == if host.windows then Lowered(p[..|r|]) else p[..|r|];
      assert kp[|r|] == '/' <==> p[|r|] == '/';
      assert kr + ['/'] <= kp <==> kp[..|r|] == kr && kp[|r|] == '/';
    }
  }

  /** `classify_generator`, the part that matters here. */
  predicate MultiConfig(cache: Cache, generator: string) {
    || generator == "Ninja Multi-Config" || generator == "Xcode" || "Visual Studio " <= generator
    || (generator != "Ninja" && Get(cache.entries, "CMAKE_CONFIGURATION_TYPES").Some?)
  }

  function Or(v: Option<string>, default: string): string {
    if v.Some? then v.value else default
  }

  /** A configuration that is chosen, not left blank. */
  function Chosen(space: Space, selected: Option<string>): Option<string> {
    if selected.Some? && Trim(space, selected.value) != [] then selected else None
  }

  function ConfigurationProblem(space: Space, cache: Cache, generator: string, selected: Option<string>): Option<ImportError> {
    var chosen := Chosen(space, selected);
    if MultiConfig(cache, generator) then
      if chosen.None? then Some(ConfigurationRequired)
      else if chosen.value != [] && chosen.value in Split(Or(Get(cache.entries, "CMAKE_CONFIGURATION_TYPES"), ""), ';') then None
      else Some(ConfigurationUnavailable)
    else
      var configured := Or(Get(cache.entries, "CMAKE_BUILD_TYPE"), "");
      if chosen.Some? && configured != [] && configured != chosen.value then Some(ConfigurationUnavailable) else None
  }

  predicate HasCompiler(cache: Cache) {
    || Get(cache.entries, "CMAKE_CXX_COMPILER").Some?
    || (cache.compiler.Some? && Lookup(cache.compiler.value.entries, "CMAKE_CXX_COMPILER").Some?)
  }

  /** `from_cache_for_configuration`: its refusals in order, and the fields of the record that verification compares. */
  function ImportTree(space: Space, host: Host, cache: Cache, runtime: Runtime, openusd: bool, selected: Option<string>):
    Result<Provenance, ImportError>
  {
    var generator := Get(cache.entries, GENERATOR);
    if Get(cache.entries, "CMAKE_HOME_DIRECTORY").None? then Err(MissingIdentity("source root"))
    else if Get(cache.entries, CACHEFILE_DIR).None? then Err(MissingIdentity("build directory"))
    else if generator.None? then Err(MissingIdentity("generator identity"))
    else if !HasCompiler(cache) then Err(MissingIdentity("C++ compiler identity"))
    else if openusd && Get(cache.entries, PXR_DIR).None? then Err(MissingIdentity("OpenUSD runtime binding"))
    else if openusd && !PathIsWithin(host, Get(cache.entries, PXR_DIR).value, runtime.root) then Err(ForeignRuntime)
    else if ConfigurationProblem(space, cache, generator.value, selected).Some?
    then Err(ConfigurationProblem(space, cache, generator.value, selected).value)
    else Ok(Provenance(V2, Slashed(Get(cache.entries, CACHEFILE_DIR).value), openusd, host.sha(Material(cache, openusd)), runtime))
  }

  predicate SameRuntime(host: Host, a: Runtime, b: Runtime) {
    a.id == b.id && a.digest == b.digest && SamePath(host, a.root, b.root)
  }

  /** A record made from tree `a` verifies against tree `b` if and only if the directory is the same, `b` shows the
      same identity, and the runtime is the same — so any change to an applicable identity key or to the compiler
      metadata invalidates it — provided the two materials do not collide under the hash. */
  lemma VerifiesExactly(space: Space, host: Host, a: Cache, b: Cache, openusd: bool, selected: Option<string>,
                        imported: Runtime, current: Runtime, buildDir: string)
    requires OneLineCache(a) && OneLineCache(b) && ImportTree(space, host, a, imported, openusd, selected).Ok?
    requires host.sha(Material(a, openusd)) == host.sha(Material(b, openusd)) ==> Material(a, openusd) == Material(b, openusd)
    ensures Get(a.entries, CACHEFILE_DIR).Some?
    ensures VerifyAgainst(host, ImportTree(space, host, a, imported, openusd, selected).value, b, buildDir, current).Ok? <==>
      (&& SamePath(host, Get(a.entries, CACHEFILE_DIR).value, buildDir)
       && SameIdentity(a, b, openusd) && SameRuntime(host, imported, current))
  {
    SlashedTwice(Or(Get(a.entries, CACHEFILE_DIR), ""));
    hide Material, SameIdentity, Get, ConfigurationProblem, PathIsWithin, HasCompiler;
    MaterialExactly(a, b, openusd);
  }

  /** A record of the first version, whose digest is taken of fewer keys and of no compiler metadata. */
  lemma FirstVersionVerifiesExactly(host: Host, p: Provenance, a: Cache, b: Cache, buildDir: string, current: Runtime)
    requires OneLineEntries(a.entries) && OneLineEntries(b.entries) && p.schema.V1? && p.digest == host.sha(MaterialV1(a))
    requires host.sha(MaterialV1(a)) == host.sha(MaterialV1(b)) ==> MaterialV1(a) == MaterialV1(b)
    ensures VerifyAgainst(host, p, b, buildDir, current).Ok? <==>
      (&& SamePath(host, p.buildDir, buildDir) && SameRuntime(host, p.runtime, current)
       && SameShown(CacheValues(a.entries, IDENTITY_KEYS_V1), CacheValues(b.entries, IDENTITY_KEYS_V1)))
  {
    var keys := IDENTITY_KEYS_V1;
    var va, vb := CacheValues(a.entries, keys), CacheValues(b.entries, keys);
    hide Section;
    assert OneLineValues(va) && OneLineValues(vb);
    if MaterialV1(a) == MaterialV1(b) {
      assert Section(keys, va, 0) + [] == Section(keys, vb, 0) + [];
      SectionDetermines(keys, va, vb, 0, [], []);
    }
    if SameShown(va, vb) {
      SameShownSameSection(keys, va, vb, 0);
    }
  }

  /** A fresh import verifies against its own tree. */
  lemma FreshImportVerifies(space: Space, host: Host, a: Cache, openusd: bool, selected: Option<string>, runtime: Runtime)
    requires OneLineCache(a) && ImportTree(space, host, a, runtime, openusd, selected).Ok?
    ensures Get(a.entries, CACHEFILE_DIR).Some?
    ensures VerifyAgainst(host, ImportTree(space, host, a, runtime, openusd, selected).value, a,
                          Get(a.entries, CACHEFILE_DIR).value, runtime).Ok?
  {
    hide Material, Get, CacheValues, CompilerValues, ImportTree;
    VerifiesExactly(space, host, a, a, openusd, selected, runtime, runtime,
                    if Get(a.entries, CACHEFILE_DIR).Some? then Get(a.entries, CACHEFILE_DIR).value else "");
  }

  /** Every key the import looks at is an identity key of its scope. */
  lemma ImportKeysApply(openusd: bool)
    ensures forall key | key in CORE_KEYS :: key in Applicable(IDENTITY_KEYS, openusd)
    ensures openusd ==> PXR_DIR in Applicable(IDENTITY_KEYS, openusd)
  {
    forall key | key in IDENTITY_KEYS && (openusd || key != PXR_DIR) ensures key in Applicable(IDENTITY_KEYS, openusd) {
      AppliesIf(IDENTITY_KEYS, openusd, key);
    }
    forall key | key in CORE_KEYS ensures key in IDENTITY_KEYS && key != PXR_DIR {
      CoreKeysAreNotPxr(key);
    }
    assert IDENTITY_KEYS[|CORE_KEYS|] == PXR_DIR;
  }

  lemma {:induction false} AppliesIf(keys: seq<string>, openusd: bool, key: string)
    requires key in keys && (openusd || key != PXR_DIR)
    ensures key in Applicable(keys, openusd)
  {
    if keys[0] != key {
      assert key in keys[1..];
      AppliesIf(keys[1..], openusd, key);
    }
  }

  lemma CoreKeysAreNotPxr(key: string)
    requires key in CORE_KEYS
    ensures key in IDENTITY_KEYS && key != PXR_DIR
  {
    assert PXR_DIR[0] == 'p';
    assert forall i | 0 <= i < |CORE_KEYS| :: CORE_KEYS[i][0] == 'C';
  }

  /** An imported tree's record accepts another tree, without a literal `<absent>` in either, only if that tree could
      be imported for the same use itself, and with the same record: verification never lets through what the import
      would refuse. */
  lemma VerifiedTreeIsImportable(space: Space, host: Host, a: Cache, b: Cache, openusd: bool, selected: Option<string>,
                                 imported: Runtime, current: Runtime, buildDir: string)
    requires OneLineCache(a) && OneLineCache(b) && NoLiteral(a, openusd) && NoLiteral(b, openusd)
    requires ImportTree(space, host, a, imported, openusd, selected).Ok?
    requires host.sha(Material(a, openusd)) == host.sha(Material(b, openusd)) ==> Material(a, openusd) == Material(b, openusd)
    requires VerifyAgainst(host, ImportTree(space, host, a, imported, openusd, selected).value, b, buildDir, current).Ok?
    ensures ImportTree(space, host, b, current, openusd, selected) ==
      Ok(ImportTree(space, host, a, imported, openusd, selected).value.(runtime := current))
  {
    assert SameTree(a, b, openusd) && SameRuntime(host, imported, current) && Material(a, openusd) == Material(b, openusd) by {
      hide ImportTree, SameTree, NoLiteral;
      VerifiesExactly(space, host, a, b, openusd, selected, imported, current, buildDir);
      IdentityIsTree(a, b, openusd);
      MaterialExactly(a, b, openusd);
    }
    ImportKeysApply(openusd);
    SameTreeImports(space, host, a, b, openusd, selected, imported, current);
  }

  lemma SameTreeImports(space: Space, host: Host, a: Cache, b: Cache, openusd: bool, selected: Option<string>,
                        imported: Runtime, current: Runtime)
    requires SameTree(a, b, openusd) && SameRuntime(host, imported, current) && Material(a, openusd) == Material(b, openusd)
    requires forall key | key in CORE_KEYS :: key in Applicable(IDENTITY_KEYS, openusd)
    requires openusd ==> PXR_DIR in Applicable(IDENTITY_KEYS, openusd)
    requires ImportTree(space, host, a, imported, openusd, selected).Ok?
    ensures ImportTree(space, host, b, current, openusd, selected) ==
      Ok(ImportTree(space, host, a, imported, openusd, selected).value.(runtime := current))
  {
    hide Applicable, Material, Get, Lookup, Split, Trim, PathKey;
    assert CORE_KEYS[0] == "CMAKE_HOME_DIRECTORY" && CORE_KEYS[1] == CACHEFILE_DIR && CORE_KEYS[2] == GENERATOR;
    assert CORE_KEYS[6] == "CMAKE_BUILD_TYPE" && CORE_KEYS[7] == "CMAKE_CONFIGURATION_TYPES" && CORE_KEYS[8] == "CMAKE_CXX_COMPILER";
    assert COMPILER_IDENTITY_KEYS[0] == "CMAKE_CXX_COMPILER";
    assert HasCompiler(b);
    if openusd {
      WithinExactly(host, Get(a.entries, PXR_DIR).value, imported.root);
      WithinExactly(host, Get(a.entries, PXR_DIR).value, current.root);
    }
  }
}
