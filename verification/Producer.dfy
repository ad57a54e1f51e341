/** What crates/ost-artifact/src/record.rs accepts of a producer manifest and how it normalises source and
    dependencies; with that, the evidence a producer generates for its own manifest always verifies. Which characters
    are white space is a parameter. */
module Producer {
  import opened Prelude
  import opened Text
  import opened Order
  import opened Evidence

  datatype ManifestError =
    | InvalidComposition | MissingSource | InexactSource | NotAnArray | InvalidDependency(index: nat) | RepeatedName(name: string)

  /** An absent or non-string member is `None`. */
  datatype RawSource = RawSource(repository: Option<string>, revision: Option<string>)

  /** `build.dependencies`: absent or null, not an array, or its values (`None`: not a dependency object). */
  datatype RawDependencies = Unlisted | Malformed | Listed(values: seq<Option<Dependency>>)

  datatype Build = Build(source: Option<RawSource>, dependencies: RawDependencies)

  /** A producer manifest as far as identities and evidence go; `build` is `None` if absent or null. */
  datatype ProducerManifest = ProducerManifest(
    name: string,
    version: string,
    hex: Hex,
    composed: bool,
    runtimeDigest: Option<Json>,
    build: Option<Build>)

  // ---------------------------------------------------------------------------------------
  // Exact components
  // ---------------------------------------------------------------------------------------

  /** `exact_identity_component`. */
  predicate Exact(space: Space, s: string) {
    s != [] && s == Trim(space, s)
  }

  predicate IsLowerHex(c: char) {
    IsNumeral(c) || 'a' <= c <= 'f'
  }

  predicate IsCanonicalSha256(s: string) {
    var hex := StripSha256(s);
    hex.Some? && |hex.value| == 64 && All(IsLowerHex, hex.value)
  }

  /** `ResolvedDependencyIdentity::is_verified`. */
  predicate IsVerified(space: Space, d: Dependency) {
    && Exact(space, d.name) && Exact(space, d.version)
    && Exact(space, d.source.repository) && Exact(space, d.source.revision)
    && (d.archiveDigest.Some? ==> IsCanonicalSha256(d.archiveDigest.value))
  }

  // ---------------------------------------------------------------------------------------
  // Normalisation
  // ---------------------------------------------------------------------------------------

  /** The derived order compares field by field, and an absent digest comes first. */
  function Key(d: Dependency): seq<string> {
    [d.name, d.version, d.source.repository, d.source.revision]
    + if d.archiveDigest.Some? then [d.archiveDigest.value] else []
  }

  predicate DependencyLess(a: Dependency, b: Dependency) {
    Lex(StringLess, Key(a), Key(b))
  }

  predicate NameLess(a: Dependency, b: Dependency) {
    StringLess(a.name, b.name)
  }

  predicate Acceptable(space: Space, value: Option<Dependency>) {
    value.Some? && IsVerified(space, value.value)
  }

  /** The first value that is not a verified dependency. */
  function FirstBad(space: Space, values: seq<Option<Dependency>>, i: nat): (r: Option<nat>)
    requires i <= |values|
    ensures r.None? <==> forall k | i <= k < |values| :: Acceptable(space, values[k])
    decreases |values| - i
  {
    if i == |values| then None
    else if !Acceptable(space, values[i]) then Some(i)
    else FirstBad(space, values, i + 1)
  }

  function Parsed(values: seq<Option<Dependency>>): seq<Dependency>
    requires forall k | 0 <= k < |values| :: values[k].Some?
  {
    seq(|values|, i requires 0 <= i < |values| => values[i].value)
  }

  /** `windows(2).find(..)`: a name that comes twice in a row. */
  function FirstRepeat(sorted: seq<Dependency>, i: nat): (r: Option<string>)
    requires i <= |sorted|
    ensures r.None? <==> forall k | i <= k < |sorted| - 1 :: sorted[k].name != sorted[k + 1].name
    decreases |sorted| - i
  {
    if |sorted| - i < 2 then None
    else if sorted[i].name == sorted[i + 1].name then Some(sorted[i].name)
    else FirstRepeat(sorted, i + 1)
  }

  /** `normalize_dependency_identities`. */
  function NormalizeDependencies(space: Space, raw: RawDependencies): Result<seq<Dependency>, ManifestError> {
    match raw
    case Unlisted => Ok([])
    case Malformed => Err(NotAnArray)
    case Listed(values) =>
      var bad := FirstBad(space, values, 0);
      if bad.Some? then Err(InvalidDependency(bad.value))
      else
        var sorted := Sort(DependencyLess, Parsed(values));
        var repeat := FirstRepeat(sorted, 0);
        if repeat.Some? then Err(RepeatedName(repeat.value)) else Ok(sorted)
  }

  /** `normalize_source_identity`. */
  function NormalizeSource(space: Space, build: Option<Build>): Result<Option<Source>, ManifestError> {
    if build.None? then Ok(None)
    else if build.value.source.None? then Err(MissingSource)
    else
      var s := build.value.source.value;
      if s.repository.None? || !Exact(space, s.repository.value) || s.revision.None? || !Exact(space, s.revision.value)
      then Err(InexactSource)
      else Ok(Some(Source(s.repository.value, s.revision.value)))
  }

  datatype Identities = Identities(source: Option<Source>, dependencies: seq<Dependency>)

  /** `from_producer_manifest`, as far as composition, source and dependencies go. */
  function Accept(space: Space, m: ProducerManifest): Result<Identities, ManifestError> {
    if m.composed && !(m.runtimeDigest.Some? && m.runtimeDigest.value.Str? && IsSha256Ref(m.runtimeDigest.value.text))
    then Err(InvalidComposition)
    else
      var source := NormalizeSource(space, m.build);
      if source.Err? then Err(source.error)
      else
        var dependencies := NormalizeDependencies(space, if m.build.Some? then m.build.value.dependencies else Unlisted);
        if dependencies.Err? then Err(dependencies.error) else Ok(Identities(source.value, dependencies.value))
  }

  // ---------------------------------------------------------------------------------------
  // What normalisation gives
  // ---------------------------------------------------------------------------------------

  lemma DependencyLessIsWeak()
    ensures WeakOrder(DependencyLess)
  {
    StringLessIsTotal();
    forall a ensures !DependencyLess(a, a) {
      LexConnected(StringLess, Key(a), Key(a));
    }
    forall a, b, c | DependencyLess(a, b) && DependencyLess(b, c) ensures DependencyLess(a, c) {
      LexTransitive(StringLess, Key(a), Key(b), Key(c));
    }
    forall a, b, c | !DependencyLess(a, b) && !DependencyLess(b, c) ensures !DependencyLess(a, c) {
      LexNegativelyTransitive(StringLess, Key(a), Key(b), Key(c));
    }
  }

  lemma NameLessIsWeak()
    ensures WeakOrder(NameLess)
  {
    StringLessIsTotal();
    forall a ensures !NameLess(a, a) {
      assert !StringLess(a.name, a.name);
    }
    forall a, b, c | NameLess(a, b) && NameLess(b, c) ensures NameLess(a, c) {
      assert StringLess(a.name, b.name) && StringLess(b.name, c.name);
    }
    forall a, b, c | !NameLess(a, b) && !NameLess(b, c) ensures !NameLess(a, c) {
      assert !StringLess(a.name, b.name) && !StringLess(b.name, c.name);
    }
  }

  /** The name is the first key. */
  lemma NamesDecide(a: Dependency, b: Dependency)
    requires !DependencyLess(b, a) && a.name != b.name
    ensures NameLess(a, b)
  {
    StringLessIsTotal();
    assert Key(a)[0] == a.name && Key(b)[0] == b.name;
  }

  /** Sorted without equal neighbours is strictly ascending in the names. */
  lemma {:induction false} NeighboursSuffice(sorted: seq<Dependency>)
    requires Ascending(DependencyLess, sorted)
    requires forall k | 0 <= k < |sorted| - 1 :: sorted[k].name != sorted[k + 1].name
    ensures StrictlyAscending(NameLess, sorted)
  {
    if sorted != [] {
      var n := |sorted| - 1;
      NeighboursSuffice(sorted[..n]);
      NameLessIsWeak();
      if n > 0 {
        NamesDecide(sorted[n - 1], sorted[n]);
      }
      forall i | 0 <= i < n ensures NameLess(sorted[i], sorted[n]) {
        if i < n - 1 {
          assert NameLess(sorted[..n][i], sorted[..n][n - 1]);
        }
      }
    }
  }

  lemma StrictNamesDistinct(sorted: seq<Dependency>)
    requires StrictlyAscending(NameLess, sorted)
    ensures DistinctNames(sorted)
  {
    NameLessIsWeak();
    forall i, j | 0 <= i < j < |sorted| ensures sorted[i].name != sorted[j].name {
      assert NameLess(sorted[i], sorted[j]) && !NameLess(sorted[j], sorted[j]);
    }
  }

  /** No name occurs in two places of a list, however the list is arranged. */
  lemma DistinctIsInvariant(xs: seq<Dependency>, ys: seq<Dependency>)
    requires multiset(xs) == multiset(ys) && DistinctNames(xs)
    ensures DistinctNames(ys)
  {
    SameElements(xs, ys);
    forall i, j | 0 <= i < j < |ys| ensures ys[i].name != ys[j].name {
      if ys[i].name == ys[j].name {
        assert ys[i] in xs && ys[j] in xs;
        assert ys == ys[..i] + [ys[i]] + ys[i + 1..j] + [ys[j]] + ys[j + 1..];
        assert ys[i] == ys[j];
        assert multiset(xs)[ys[i]] >= 2;
        OccursOnce(xs, ys[i]);
        assert false;
      }
    }
  }

  lemma {:induction false} OccursOnce(xs: seq<Dependency>, d: Dependency)
    requires DistinctNames(xs)
    ensures multiset(xs)[d] <= 1
  {
    if xs != [] {
      assert xs == [xs[0]] + xs[1..];
      OccursOnce(xs[1..], d);
      if xs[0] == d {
        forall k | 0 <= k < |xs[1..]| ensures xs[1..][k] != d {
          assert xs[k + 1].name != xs[0].name;
        }
        assert multiset(xs[1..])[d] == 0;
      }
    }
  }

  /** The list is accepted exactly if every value is a verified dependency and no name repeats; the result is then
      the one arrangement of the values that ascends strictly in the names. */
  lemma NormalizedExactly(space: Space, values: seq<Option<Dependency>>, out: seq<Dependency>)
    ensures NormalizeDependencies(space, Listed(values)) == Ok(out) <==>
      (&& (forall k | 0 <= k < |values| :: Acceptable(space, values[k]))
       && multiset(out) == multiset(Parsed(values)) && StrictlyAscending(NameLess, out))
  {
    if forall k | 0 <= k < |values| :: Acceptable(space, values[k]) {
      var parsed := Parsed(values);
      var sorted := Sort(DependencyLess, parsed);
      SortMultiset(DependencyLess, parsed);
      DependencyLessIsWeak();
      SortAscending(DependencyLess, parsed);
      if FirstRepeat(sorted, 0).None? {
        NeighboursSuffice(sorted);
        NameLessIsWeak();
        if multiset(out) == multiset(parsed) && StrictlyAscending(NameLess, out) {
          AscendingUnique(NameLess, sorted, out);
        }
      } else if multiset(out) == multiset(parsed) && StrictlyAscending(NameLess, out) {
        StrictNamesDistinct(out);
        DistinctIsInvariant(out, sorted);
        assert false;
      }
    }
  }

  lemma {:induction false} ParsedCounts(values: seq<Option<Dependency>>, d: Dependency)
    requires forall k | 0 <= k < |values| :: values[k].Some?
    ensures multiset(Parsed(values))[d] == multiset(values)[Some(d)]
  {
    if values != [] {
      ParsedCounts(values[1..], d);
      assert values == [values[0]] + values[1..];
      assert Parsed(values) == [values[0].value] + Parsed(values[1..]);
    }
  }

  /** In particular a manifest may list its dependencies in any order. */
  lemma NormalizationIgnoresOrder(space: Space, a: seq<Option<Dependency>>, b: seq<Option<Dependency>>)
    requires multiset(a) == multiset(b)
    ensures NormalizeDependencies(space, Listed(a)).Ok? ==>
      NormalizeDependencies(space, Listed(b)) == NormalizeDependencies(space, Listed(a))
  {
    if NormalizeDependencies(space, Listed(a)).Ok? {
      var out := NormalizeDependencies(space, Listed(a)).value;
      hide NormalizeDependencies;
      NormalizedExactly(space, a, out);
      SameElements(a, b);
      forall k | 0 <= k < |b| ensures Acceptable(space, b[k]) {
        assert b[k] in a;
      }
      forall d ensures multiset(Parsed(a))[d] == multiset(Parsed(b))[d] {
        ParsedCounts(a, d);
        ParsedCounts(b, d);
      }
      NormalizedExactly(space, b, out);
    }
  }

  lemma AcceptedNamesDistinct(space: Space, m: ProducerManifest)
    requires Accept(space, m).Ok?
    ensures DistinctNames(Accept(space, m).value.dependencies)
  {
    if m.build.Some? && m.build.value.dependencies.Listed? {
      var values := m.build.value.dependencies.values;
      var out := Accept(space, m).value.dependencies;
      assert NormalizeDependencies(space, Listed(values)) == Ok(out);
      hide NormalizeDependencies;
      NormalizedExactly(space, values, out);
      StrictNamesDistinct(out);
    }
  }

  // ---------------------------------------------------------------------------------------
  // A producer's own evidence
  // ---------------------------------------------------------------------------------------

  /** The dependencies in the order in which the manifest lists them. */
  function ListedDependencies(m: ProducerManifest): seq<Dependency>
    requires m.build.Some? && m.build.value.dependencies.Listed? ==>
      forall k | 0 <= k < |m.build.value.dependencies.values| :: m.build.value.dependencies.values[k].Some?
  {
    if m.build.Some? && m.build.value.dependencies.Listed? then Parsed(m.build.value.dependencies.values) else []
  }

  lemma AcceptedValuesParse(space: Space, m: ProducerManifest)
    requires Accept(space, m).Ok?
    ensures m.build.Some? && m.build.value.dependencies.Listed? ==>
      forall k | 0 <= k < |m.build.value.dependencies.values| :: Acceptable(space, m.build.value.dependencies.values[k])
    ensures multiset(ListedDependencies(m)) == multiset(Accept(space, m).value.dependencies)
  {
    if m.build.Some? && m.build.value.dependencies.Listed? {
      NormalizedExactly(space, m.build.value.dependencies.values, Accept(space, m).value.dependencies);
    }
  }

  /** For every manifest that is accepted, the SBOM generated from it verifies against its digest and the normalised
      dependencies, and declares exactly these. */
  lemma OwnSbomVerifies(space: Space, m: ProducerManifest)
    requires Accept(space, m).Ok?
    ensures m.build.Some? && m.build.value.dependencies.Listed? ==>
      forall k | 0 <= k < |m.build.value.dependencies.values| :: m.build.value.dependencies.values[k].Some?
    ensures
      var dependencies := Accept(space, m).value.dependencies;
      var doc := SpdxDocument(SbomInput(m.name, m.version, m.hex, ListedDependencies(m)));
      VerifySbom(doc, m.hex, dependencies).Ok? && (dependencies != [] ==> OneToOne(doc, dependencies))
  {
    AcceptedValuesParse(space, m);
    AcceptedNamesDistinct(space, m);
    var listed, dependencies := ListedDependencies(m), Accept(space, m).value.dependencies;
    DistinctIsInvariant(dependencies, listed);
    hide Accept, SpdxDocument, VerifySbom, OneToOne;
    var input := SbomInput(m.name, m.version, m.hex, listed);
    GeneratedSbomVerifies(input, dependencies);
    if dependencies != [] {
      AcceptedSbomIsExact(SpdxDocument(input), m.hex, dependencies);
    }
  }

  /** And the provenance generated from an accepted manifest with build metadata verifies against the normalised
      source, composed runtimes included. */
  lemma OwnProvenanceVerifies(space: Space, m: ProducerManifest)
    requires Accept(space, m).Ok? && m.build.Some?
    ensures m.build.value.dependencies.Listed? ==>
      forall k | 0 <= k < |m.build.value.dependencies.values| :: m.build.value.dependencies.values[k].Some?
    ensures m.build.value.source.Some?
    ensures
      var source := m.build.value.source.value;
      var input := ProvenanceInput(m.hex, source.repository, source.revision, m.composed, m.runtimeDigest, ListedDependencies(m));
      && SourceOf(input) == Accept(space, m).value.source
      && VerifyProvenance([ProvenanceStatement(input)], Accept(space, m).value.source, CompositionOf(input), m.hex).Ok?
  {
    AcceptedValuesParse(space, m);
    var source := m.build.value.source.value;
    hide VerifyProvenance, NormalizeDependencies;
    GeneratedProvenanceVerifies(
      ProvenanceInput(m.hex, source.repository, source.revision, m.composed, m.runtimeDigest, ListedDependencies(m)));
  }
}
