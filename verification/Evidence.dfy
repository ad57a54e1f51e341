/** Evidence sidecars of crates/ost-artifact/src/evidence.rs: the SPDX SBOM and the in-toto provenance,
    with JSON documents as records whose absent or non-string members are `None`. */
module Evidence {
  import opened Prelude
  import opened Text

  /** A digest without its `sha256:` prefix. */
  type Hex = string

  datatype Source = Source(repository: string, revision: string)

  /** `ResolvedDependencyIdentity`. */
  datatype Dependency = Dependency(name: string, version: string, source: Source, archiveDigest: Option<string>)

  datatype Checksum = Checksum(algorithm: Option<string>, value: Option<string>)

  datatype Package = Package(
    spdxId: Option<string>,
    name: Option<string>,
    versionInfo: Option<string>,
    downloadLocation: Option<string>,
    sourceInfo: Option<string>,
    checksums: seq<Checksum>)

  datatype Sbom = Sbom(spdxVersion: Option<string>, packages: seq<Package>)

  datatype SbomError = NotSpdx23 | SubjectMismatch | DependencyMismatch

  const DEPENDENCY_ID_PREFIX := "SPDXRef-Dependency-"

  predicate HasSha256(checksums: seq<Checksum>, hex: string) {
    Checksum(Some("SHA256"), Some(hex)) in checksums
  }

  // ---------------------------------------------------------------------------------------
  // verify_sbom
  // ---------------------------------------------------------------------------------------

  predicate IdentifiesSubject(doc: Sbom, hex: Hex) {
    exists i | 0 <= i < |doc.packages| :: HasSha256(doc.packages[i].checksums, hex)
  }

  predicate IsDependencyPackage(p: Package) {
    p.spdxId.Some? && DEPENDENCY_ID_PREFIX <= p.spdxId.value
  }

  /** The packages whose SPDX id declares a dependency, in document order. */
  function Declared(packages: seq<Package>): seq<Package> {
    if packages == [] then []
    else (if IsDependencyPackage(packages[0]) then [packages[0]] else []) + Declared(packages[1..])
  }

  /** Name, version, repository and revision agree. */
  predicate SameIdentity(p: Package, d: Dependency) {
    && p.name == Some(d.name)
    && p.versionInfo == Some(d.version)
    && p.downloadLocation == Some(d.source.repository)
    && p.sourceInfo == Some("revision " + d.source.revision)
  }

  predicate SameArchive(p: Package, d: Dependency) {
    d.archiveDigest.Some? ==>
      HasSha256(p.checksums, var stripped := StripSha256(d.archiveDigest.value);
                             if stripped.Some? then stripped.value else d.archiveDigest.value)
  }

  predicate Describes(p: Package, d: Dependency) {
    SameIdentity(p, d) && SameArchive(p, d)
  }

  predicate Covered(declared: seq<Package>, d: Dependency) {
    exists i | 0 <= i < |declared| :: Describes(declared[i], d)
  }

  function VerifySbom(doc: Sbom, hex: Hex, dependencies: seq<Dependency>): Result<(), SbomError> {
    if doc.spdxVersion != Some("SPDX-2.3") then Err(NotSpdx23)
    else if !IdentifiesSubject(doc, hex) then Err(SubjectMismatch)
    else if dependencies != [] &&
            (|Declared(doc.packages)| != |dependencies|
             || exists j | 0 <= j < |dependencies| :: !Covered(Declared(doc.packages), dependencies[j]))
    then Err(DependencyMismatch)
    else Ok(())
  }

  predicate DistinctNames(dependencies: seq<Dependency>) {
    forall i, j | 0 <= i < j < |dependencies| :: dependencies[i].name != dependencies[j].name
  }

  /** `f` maps `[0, n)` one-to-one into itself. */
  ghost predicate Injection(f: seq<nat>) {
    && (forall i | 0 <= i < |f| :: f[i] < |f|)
    && (forall i, j | 0 <= i < j < |f| :: f[i] != f[j])
  }

  /** Pigeonhole: a one-to-one map of `[0, n)` into itself reaches every index. */
  lemma {:induction false} InjectionIsOnto(f: seq<nat>, k: nat)
    requires Injection(f) && k < |f|
    ensures k in f
  {
    var image, all := Image(f, |f|), Below(|f|);
    ImageSize(f, |f|);
    if k !in f {
      assert image <= all - {k};
      SubsetSize(image, all - {k});
    }
  }

  ghost function Image(f: seq<nat>, n: nat): (s: set<nat>)
    requires n <= |f|
    ensures forall x | x in s :: x in f[..n]
  {
    if n == 0 then {} else Image(f, n - 1) + {f[n - 1]}
  }

  lemma NewValue(f: seq<nat>, n: nat)
    requires Injection(f) && n < |f|
    ensures f[n] !in f[..n]
  {
  }

  lemma {:induction false} ImageSize(f: seq<nat>, n: nat)
    requires Injection(f) && n <= |f|
    ensures |Image(f, n)| == n
  {
    hide Injection;
    if n > 0 {
      ImageSize(f, n - 1);
      NewValue(f, n - 1);
    }
  }

  ghost function Below(n: nat): (s: set<nat>)
    ensures |s| == n
    ensures forall x: nat :: x in s <==> x < n
  {
    if n == 0 then {} else Below(n - 1) + {n - 1}
  }

  lemma {:induction false} SubsetSize<T>(a: set<T>, b: set<T>)
    requires a <= b
    ensures |a| <= |b|
  {
    if a != {} {
      var x :| x in a;
      SubsetSize(a - {x}, b - {x});
    }
  }

  /** For each dependency, the index of a declared package that describes it. */
  ghost function Choice(declared: seq<Package>, dependencies: seq<Dependency>): (f: seq<nat>)
    requires forall j | 0 <= j < |dependencies| :: Covered(declared, dependencies[j])
    ensures |f| == |dependencies|
    ensures forall j | 0 <= j < |f| :: f[j] < |declared| && Describes(declared[f[j]], dependencies[j])
  {
    if dependencies == [] then []
    else
      var last := dependencies[|dependencies| - 1];
      assert Covered(declared, last);
      var i :| 0 <= i < |declared| && Describes(declared[i], last);
      assert forall j | 0 <= j < |dependencies| - 1 :: dependencies[..|dependencies| - 1][j] == dependencies[j];
      Choice(declared, dependencies[..|dependencies| - 1]) + [i]
  }

  /** Declared dependency packages and dependencies correspond one to one: every dependency is described, and
      every declared package describes exactly one of them. */
  ghost predicate OneToOne(doc: Sbom, dependencies: seq<Dependency>) {
    && |Declared(doc.packages)| == |dependencies|
    && (forall j | 0 <= j < |dependencies| :: Covered(Declared(doc.packages), dependencies[j]))
    && (forall i | 0 <= i < |Declared(doc.packages)| ::
          exists j | 0 <= j < |dependencies| ::
            && Describes(Declared(doc.packages)[i], dependencies[j])
            && forall k | 0 <= k < |dependencies| && SameIdentity(Declared(doc.packages)[i], dependencies[k]) :: k == j)
  }

  /** An accepted SBOM declares exactly the dependencies. */
  lemma AcceptedSbomIsExact(doc: Sbom, hex: Hex, dependencies: seq<Dependency>)
    requires VerifySbom(doc, hex, dependencies).Ok? && dependencies != [] && DistinctNames(dependencies)
    ensures OneToOne(doc, dependencies)
  {
    var declared := Declared(doc.packages);
    assert forall j | 0 <= j < |dependencies| :: Covered(declared, dependencies[j]);
    var f := Choice(declared, dependencies);
    assert Injection(f) by {
      forall i, j | 0 <= i < j < |f| ensures f[i] != f[j] {
        assert declared[f[i]].name == Some(dependencies[i].name);
        assert declared[f[j]].name == Some(dependencies[j].name);
      }
    }
    forall i | 0 <= i < |declared|
      ensures exists j | 0 <= j < |dependencies| ::
        && Describes(declared[i], dependencies[j])
        && forall k | 0 <= k < |dependencies| && SameIdentity(declared[i], dependencies[k]) :: k == j
    {
      InjectionIsOnto(f, i);
      var j :| 0 <= j < |f| && f[j] == i;
      assert Describes(declared[i], dependencies[j]);
    }
  }

  // ---------------------------------------------------------------------------------------
  // spdx_document
  // ---------------------------------------------------------------------------------------

  /** The parts of a producer manifest that reach the SBOM's packages. */
  datatype SbomInput = SbomInput(name: string, version: string, hex: Hex, dependencies: seq<Dependency>)

  /** The `{index:06}` format. */
  function Padded(n: nat): string {
    var d := Ascii(Decimal(n));
    if |d| >= 6 then d else "000000"[|d|..] + d
  }

  function DependencyPackage(index: nat, d: Dependency): Package {
    Package(Some(DEPENDENCY_ID_PREFIX + Padded(index)), Some(d.name), Some(d.version),
            Some(d.source.repository), Some("revision " + d.source.revision),
            if d.archiveDigest.Some? && StripSha256(d.archiveDigest.value).Some?
            then [Checksum(Some("SHA256"), StripSha256(d.archiveDigest.value))] else [])
  }

  function DependencyPackages(dependencies: seq<Dependency>, index: nat): seq<Package>
    requires index <= |dependencies|
    decreases |dependencies| - index
  {
    if index == |dependencies| then []
    else [DependencyPackage(index, dependencies[index])] + DependencyPackages(dependencies, index + 1)
  }

  function SpdxDocument(m: SbomInput): Sbom {
    Sbom(Some("SPDX-2.3"),
         [Package(Some("SPDXRef-Package"), Some(m.name), Some(m.version), Some("NOASSERTION"), None,
                  [Checksum(Some("SHA256"), Some(m.hex))])]
         + DependencyPackages(m.dependencies, 0))
  }

  lemma {:induction false} DeclaredAll(packages: seq<Package>)
    requires forall i | 0 <= i < |packages| :: IsDependencyPackage(packages[i])
    ensures Declared(packages) == packages
  {
    if packages != [] {
      DeclaredAll(packages[1..]);
    }
  }

  lemma {:induction false} DependencyPackagesAre(dependencies: seq<Dependency>, index: nat)
    requires index <= |dependencies|
    ensures |DependencyPackages(dependencies, index)| == |dependencies| - index
    ensures forall i | 0 <= i < |dependencies| - index ::
      DependencyPackages(dependencies, index)[i] == DependencyPackage(index + i, dependencies[index + i])
    decreases |dependencies| - index
  {
    hide DependencyPackage;
    if index < |dependencies| {
      DependencyPackagesAre(dependencies, index + 1);
      var rest := DependencyPackages(dependencies, index + 1);
      var all := DependencyPackages(dependencies, index);
      assert all == [DependencyPackage(index, dependencies[index])] + rest;
      hide *;
      forall i | 0 < i < |dependencies| - index
        ensures all[i] == DependencyPackage(index + i, dependencies[index + i])
      {
        var k := i - 1;
        assert rest[k] == DependencyPackage(index + 1 + k, dependencies[index + 1 + k]);
      }
    }
  }

  /** The generated document declares exactly the manifest's dependencies, in order. */
  lemma GeneratedDeclares(m: SbomInput)
    ensures Declared(SpdxDocument(m).packages) == DependencyPackages(m.dependencies, 0)
    ensures IdentifiesSubject(SpdxDocument(m), m.hex)
  {
    var packages := SpdxDocument(m).packages;
    assert HasSha256(packages[0].checksums, m.hex);
    DependencyPackagesAre(m.dependencies, 0);
    assert packages[1..] == DependencyPackages(m.dependencies, 0);
    assert "SPDXRef-Package"[8] == 'P' && DEPENDENCY_ID_PREFIX[8] == 'D';
    assert !IsDependencyPackage(packages[0]);
    DeclaredAll(packages[1..]);
  }

  predicate DigestIsPrefixed(d: Dependency) {
    d.archiveDigest.Some? ==> StripSha256(d.archiveDigest.value).Some?
  }

  /** The generated SBOM verifies against its own manifest, in any order of the dependency list, exactly
      when every dependency digest is absent or carries the `sha256:` prefix. */
  lemma GeneratedSbomVerifies(m: SbomInput, dependencies: seq<Dependency>)
    requires multiset(dependencies) == multiset(m.dependencies) && DistinctNames(m.dependencies)
    ensures VerifySbom(SpdxDocument(m), m.hex, dependencies).Ok?
       <==> forall j | 0 <= j < |m.dependencies| :: DigestIsPrefixed(m.dependencies[j])
  {
    GeneratedDeclares(m);
    AllCoveredIffPrefixed(m, dependencies);
  }

  lemma AllCoveredIffPrefixed(m: SbomInput, dependencies: seq<Dependency>)
    requires multiset(dependencies) == multiset(m.dependencies) && DistinctNames(m.dependencies)
    ensures |DependencyPackages(m.dependencies, 0)| == |dependencies|
    ensures (forall j | 0 <= j < |dependencies| :: Covered(DependencyPackages(m.dependencies, 0), dependencies[j]))
       <==> forall k | 0 <= k < |m.dependencies| :: DigestIsPrefixed(m.dependencies[k])
  {
    DependencyPackagesAre(m.dependencies, 0);
    assert |dependencies| == |multiset(dependencies)| == |multiset(m.dependencies)| == |m.dependencies|;
    SameElements(dependencies, m.dependencies);
    var packages := DependencyPackages(m.dependencies, 0);
    forall d | d in m.dependencies
      ensures Covered(packages, d) <==> DigestIsPrefixed(d)
    {
      var k :| 0 <= k < |m.dependencies| && m.dependencies[k] == d;
      CoveredIffPrefixed(m, k);
    }
    assert (forall j | 0 <= j < |dependencies| :: Covered(packages, dependencies[j]))
      <==> forall d | d in dependencies :: Covered(packages, d);
    assert (forall k | 0 <= k < |m.dependencies| :: DigestIsPrefixed(m.dependencies[k]))
      <==> forall d | d in m.dependencies :: DigestIsPrefixed(d);
  }

  lemma SameElements<T>(a: seq<T>, b: seq<T>)
    requires multiset(a) == multiset(b)
    ensures forall x :: x in a <==> x in b
  {
    forall x ensures x in a <==> x in b {
      assert x in a <==> x in multiset(a);
      assert x in b <==> x in multiset(b);
    }
  }

  lemma CoveredIffPrefixed(m: SbomInput, k: nat)
    requires DistinctNames(m.dependencies) && k < |m.dependencies|
    ensures Covered(DependencyPackages(m.dependencies, 0), m.dependencies[k]) <==> DigestIsPrefixed(m.dependencies[k])
  {
    DependencyPackagesAre(m.dependencies, 0);
    var packages := DependencyPackages(m.dependencies, 0);
    var d := m.dependencies[k];
    assert packages[k] == DependencyPackage(k, d);
    if DigestIsPrefixed(d) {
      assert Describes(packages[k], d);
    }
    forall i | 0 <= i < |packages| && Describes(packages[i], d) ensures i == k {
      assert packages[i] == DependencyPackage(i, m.dependencies[i]);
      assert packages[i].name == Some(m.dependencies[i].name);
    }
  }

  // ---------------------------------------------------------------------------------------
  // verify_provenance (without a publisher policy)
  // ---------------------------------------------------------------------------------------

  /** A JSON member that is there. */
  datatype Json = Null | Str(text: string)

  /** One input artifact of a composed runtime, as its provenance lists it. */
  datatype Material = Material(name: string, uri: string, digest: string)

  /** What a composed-runtime manifest requires its provenance to bind. */
  datatype Composition = Composition(runtimeDigest: Option<Json>, materials: seq<Material>)

  /** One in-toto statement: subject digests, attested source, and what composition provenance binds. */
  datatype Statement = Statement(
    subjects: seq<Hex>,
    repository: Option<string>,
    revision: Option<string>,
    runtimeDigest: Option<Json>,
    materials: Option<seq<Material>>)

  predicate Binds(statement: Statement, c: Composition) {
    statement.materials == Some(c.materials) && statement.runtimeDigest == c.runtimeDigest
  }

  datatype ProvenanceError = NoStatements | ProvenanceSubjectMismatch | SourceMismatch

  /** The first statement with a subject of that digest. */
  function StatementFor(statements: seq<Statement>, hex: Hex): Option<Statement> {
    if statements == [] then None
    else if hex in statements[0].subjects then Some(statements[0])
    else StatementFor(statements[1..], hex)
  }

  predicate NonEmpty(s: Option<string>) {
    s.Some? && s.value != ""
  }

  /** The source the provenance attests for a digest, when both parts are given. */
  function AttestedSource(statements: seq<Statement>, hex: Hex): Option<Source> {
    var statement := StatementFor(statements, hex);
    if statement.Some? && NonEmpty(statement.value.repository) && NonEmpty(statement.value.revision)
    then Some(Source(statement.value.repository.value, statement.value.revision.value)) else None
  }

  /** `source` is the manifest's build source; `composition` what a composed-runtime manifest requires its provenance
      to bind, `None` for every other kind. */
  function VerifyProvenance(statements: seq<Statement>, source: Option<Source>, composition: Option<Composition>, hex: Hex):
    Result<(), ProvenanceError>
  {
    if statements == [] then Err(NoStatements)
    else
      var statement := StatementFor(statements, hex);
      if statement.None? then Err(ProvenanceSubjectMismatch)
      else if composition.Some? && !Binds(statement.value, composition.value) then Err(SourceMismatch)
      else if source.None? || source.value.repository == "" || source.value.revision == "" then Err(SourceMismatch)
      else if AttestedSource(statements, hex) != source then Err(SourceMismatch)
      else Ok(())
  }

  // ---------------------------------------------------------------------------------------
  // provenance_statement
  // ---------------------------------------------------------------------------------------

  /** The parts of a producer manifest with build metadata that reach its provenance; an absent or non-string
      `repository` or `revision` is `None`. */
  datatype ProvenanceInput = ProvenanceInput(
    hex: Hex,
    repository: Option<string>,
    revision: Option<string>,
    composed: bool,
    runtimeDigest: Option<Json>,
    dependencies: seq<Dependency>)

  function MaterialOf(d: Dependency): Material {
    var digest := if d.archiveDigest.Some? then d.archiveDigest.value else "";
    var hex := StripSha256(digest);
    Material(d.name, "urn:openstrata:artifact:" + digest, if hex.Some? then hex.value else "")
  }

  /** `composition_materials`. */
  function Materials(dependencies: seq<Dependency>): seq<Material> {
    seq(|dependencies|, i requires 0 <= i < |dependencies| => MaterialOf(dependencies[i]))
  }

  /** A missing `runtime_digest` is written as `null`, which is not the same as leaving it out. */
  function ProvenanceStatement(m: ProvenanceInput): Statement {
    Statement([m.hex], m.repository, m.revision,
              if m.composed then (if m.runtimeDigest.Some? then m.runtimeDigest else Some(Null)) else None,
              if m.composed then Some(Materials(m.dependencies)) else None)
  }

  function SourceOf(m: ProvenanceInput): Option<Source> {
    if m.repository.Some? && m.revision.Some? then Some(Source(m.repository.value, m.revision.value)) else None
  }

  function CompositionOf(m: ProvenanceInput): Option<Composition> {
    if m.composed then Some(Composition(m.runtimeDigest, Materials(m.dependencies))) else None
  }

  /** The generated provenance verifies for its own manifest exactly when that names its source, and, if it is a
      composed runtime, has the member `runtime_digest`. */
  lemma GeneratedProvenanceVerifies(m: ProvenanceInput)
    ensures VerifyProvenance([ProvenanceStatement(m)], SourceOf(m), CompositionOf(m), m.hex).Ok?
       <==> NonEmpty(m.repository) && NonEmpty(m.revision) && (m.composed ==> m.runtimeDigest.Some?)
  {
    var statement := ProvenanceStatement(m);
    assert m.hex in statement.subjects;
    assert StatementFor([statement], m.hex) == Some(statement);
  }
}
