/** Remote artifact references of crates/ost-artifact/src/reference.rs: the `oci://` and `file://` parser and the
    canonical locator. */
module Reference {
  import opened Prelude
  import opened Text

  datatype OciReference = OciReference(registry: string, repository: string, tag: Option<string>, digest: Option<string>)

  datatype RemoteReference = Oci(oci: OciReference) | File(path: string)

  datatype ParseError =
    | NotRemote | BadDigest | NoRepository | EmptyRegistry | BadRegistry | EmptyRepository | BadRepository | BadTag
    | EmptyPath

  const OCI := "oci://"
  const FILE := "file://"

  // ---------------------------------------------------------------------------------------
  // Character sets
  // ---------------------------------------------------------------------------------------

  predicate IsAlpha(c: char) { IsLower(c) || 'A' <= c <= 'Z' }
  predicate IsAlphanumeric(c: char) { IsAlpha(c) || IsNumeral(c) }
  predicate RegistryChar(c: char) { IsAlphanumeric(c) || c == '.' || c == '-' || c == ':' }
  predicate RepositoryChar(c: char) { IsLower(c) || IsNumeral(c) || c == '.' || c == '_' || c == '-' || c == '/' }
  predicate TagChar(c: char) { IsAlphanumeric(c) || c == '.' || c == '_' || c == '-' }

  /** `is_valid_oci_tag`. */
  predicate IsValidTag(s: string) {
    0 < |s| <= 128 && (IsAlphanumeric(s[0]) || s[0] == '_') && All(TagChar, s[1..])
  }

  // ---------------------------------------------------------------------------------------
  // oci://
  // ---------------------------------------------------------------------------------------

  /** The head of a reference, `registry/repository[:tag]`. */
  function ParseHead(head: string, digest: Option<string>): Result<OciReference, ParseError> {
    var cut := SplitOnce(head, '/');
    if cut.None? then Err(NoRepository)
    else
      var (registry, rest) := cut.value;
      if registry == [] then Err(EmptyRegistry)
      else if !All(RegistryChar, registry) then Err(BadRegistry)
      else ParseRepository(registry, rest, digest)
  }

  function ParseRepository(registry: string, rest: string, digest: Option<string>): Result<OciReference, ParseError> {
    var cut := RSplitOnce(rest, ':');
    var tagged := cut.Some? && ('/' !in cut.value.0 || '/' !in cut.value.1);
    var repository := if tagged then cut.value.0 else rest;
    var tag := if tagged then Some(cut.value.1) else None;
    if repository == [] then Err(EmptyRepository)
    else if !All(RepositoryChar, repository) then Err(BadRepository)
    else if tag.Some? && !IsValidTag(tag.value) then Err(BadTag)
    else Ok(OciReference(registry, repository, tag, digest))
  }

  /** `OciReference::parse_rest`. */
  function ParseOci(rest: string): Result<OciReference, ParseError> {
    var cut := SplitOnce(rest, '@');
    if cut.None? then ParseHead(rest, None)
    else if !IsSha256Ref(cut.value.1) then Err(BadDigest)
    else ParseHead(cut.value.0, Some(cut.value.1))
  }

  function TagPart(r: OciReference): string {
    if r.tag.Some? then [':'] + r.tag.value else []
  }

  function HeadOf(r: OciReference): string {
    r.registry + ['/'] + (r.repository + TagPart(r))
  }

  function RestOf(r: OciReference): string {
    if r.digest.Some? then HeadOf(r) + ['@'] + r.digest.value else HeadOf(r)
  }

  /** `OciReference::locator`, built by pushing the parts. */
  method OciLocator(r: OciReference) returns (s: string)
    ensures s == OCI + RestOf(r)
  {
    s := OCI + r.registry + "/" + r.repository;
    if r.tag.Some? {
      s := s + ":" + r.tag.value;
    }
    if r.digest.Some? {
      s := s + "@" + r.digest.value;
    }
  }

  predicate WellFormed(r: OciReference) {
    && r.registry != [] && All(RegistryChar, r.registry)
    && r.repository != [] && All(RepositoryChar, r.repository)
    && (r.tag.Some? ==> IsValidTag(r.tag.value))
    && (r.digest.Some? ==> IsSha256Ref(r.digest.value))
  }

  // Which separators cannot occur where.

  lemma RegistryIsClear(s: string)
    requires All(RegistryChar, s)
    ensures '/' !in s && '@' !in s
  {
    assert forall c | c in s :: RegistryChar(c);
  }

  lemma RepositoryIsClear(s: string)
    requires All(RepositoryChar, s)
    ensures ':' !in s && '@' !in s
  {
    assert forall c | c in s :: RepositoryChar(c);
  }

  lemma TagIsClear(s: string)
    requires IsValidTag(s)
    ensures '/' !in s && ':' !in s && '@' !in s
  {
    forall i | 0 <= i < |s| ensures TagChar(s[i]) {
      assert i > 0 ==> s[i] == s[1..][i - 1];
    }
    assert forall c | c in s :: TagChar(c);
  }

  lemma RepositoryReadsBack(r: OciReference)
    requires WellFormed(r)
    ensures ParseRepository(r.registry, r.repository + TagPart(r), r.digest) == Ok(r)
  {
    RepositoryIsClear(r.repository);
    if r.tag.Some? {
      TagIsClear(r.tag.value);
      RSplitOnceAt(r.repository, ':', r.tag.value);
      assert r.repository + TagPart(r) == r.repository + [':'] + r.tag.value;
    } else {
      assert r.repository + TagPart(r) == r.repository;
    }
  }

  lemma HeadReadsBack(r: OciReference)
    requires WellFormed(r)
    ensures ParseHead(HeadOf(r), r.digest) == Ok(r) && '@' !in HeadOf(r)
  {
    RegistryIsClear(r.registry);
    RepositoryIsClear(r.repository);
    if r.tag.Some? {
      TagIsClear(r.tag.value);
    }
    SplitOnceAt(r.registry, '/', r.repository + TagPart(r));
    RepositoryReadsBack(r);
  }

  lemma OciReadsBack(r: OciReference)
    requires WellFormed(r)
    ensures ParseOci(RestOf(r)) == Ok(r)
  {
    HeadReadsBack(r);
    hide ParseHead, HeadOf, IsSha256Ref;
    if r.digest.Some? {
      SplitOnceAt(HeadOf(r), '@', r.digest.value);
    }
  }

  lemma RepositoryIsExact(registry: string, rest: string, digest: Option<string>)
    requires ParseRepository(registry, rest, digest).Ok?
    ensures
      var r := ParseRepository(registry, rest, digest).value;
      && r.registry == registry && r.digest == digest && rest == r.repository + TagPart(r)
      && r.repository != [] && All(RepositoryChar, r.repository) && (r.tag.Some? ==> IsValidTag(r.tag.value))
  {
    hide All, IsValidTag;
    var cut := RSplitOnce(rest, ':');
    var r := ParseRepository(registry, rest, digest).value;
    if r.tag.Some? {
      assert r.repository + TagPart(r) == cut.value.0 + [':'] + cut.value.1;
    } else {
      assert r.repository + TagPart(r) == rest;
    }
  }

  lemma OciIsExact(rest: string)
    requires ParseOci(rest).Ok?
    ensures WellFormed(ParseOci(rest).value) && RestOf(ParseOci(rest).value) == rest
  {
    hide All, IsValidTag, IsSha256Ref, ParseRepository;
    var cut := SplitOnce(rest, '@');
    var head := if cut.Some? then cut.value.0 else rest;
    var (registry, tail) := SplitOnce(head, '/').value;
    RepositoryIsExact(registry, tail, if cut.Some? then Some(cut.value.1) else None);
  }

  /** Parsing and printing of `oci://` references are exact inverses: a text is accepted as `r` if and only if `r`
      is well formed and the text is its locator. So every accepted text is canonical, and a registry port is
      never read as a tag. */
  lemma OciExactly(s: string, r: OciReference)
    ensures Parse(s) == Ok(Oci(r)) <==> WellFormed(r) && s == OCI + RestOf(r)
  {
    hide ParseOci, RestOf, ParseFile, WellFormed;
    if OCI <= s {
      var rest := s[|OCI|..];
      assert s == OCI + rest;
      if ParseOci(rest).Ok? {
        OciIsExact(rest);
      }
    }
    if WellFormed(r) {
      OciReadsBack(r);
      assert (OCI + RestOf(r))[|OCI|..] == RestOf(r);
    }
  }

  // ---------------------------------------------------------------------------------------
  // file://
  // ---------------------------------------------------------------------------------------

  /** `/C:` and something behind it. */
  predicate SlashedDrive(s: string) {
    |s| > 3 && s[0] == '/' && IsAlpha(s[1]) && s[2] == ':'
  }

  /** `FileReference::parse_rest`. */
  function ParseFile(rest: string): Result<string, ParseError> {
    var path := if SlashedDrive(rest) then rest[1..] else rest;
    if path == [] then Err(EmptyPath) else Ok(path)
  }

  /** `RemoteReference::parse`. */
  function Parse(s: string): Result<RemoteReference, ParseError> {
    if OCI <= s then
      var r := ParseOci(s[|OCI|..]);
      if r.Ok? then Ok(Oci(r.value)) else Err(r.error)
    else if FILE <= s then
      var r := ParseFile(s[|FILE|..]);
      if r.Ok? then Ok(File(r.value)) else Err(r.error)
    else Err(NotRemote)
  }

  /** `RemoteReference::locator`. */
  function Locator(r: RemoteReference): string {
    match r
    case Oci(oci) => OCI + RestOf(oci)
    case File(path) => FILE + path
  }

  lemma ParseFileText(rest: string)
    ensures Parse(FILE + rest) == if ParseFile(rest).Ok? then Ok(File(ParseFile(rest).value)) else Err(ParseFile(rest).error)
  {
    hide ParseFile;
    assert (FILE + rest)[0] == 'f' && OCI[0] == 'o';
    assert (FILE + rest)[|FILE|..] == rest;
  }

  /** A `file://` reference is printed and read back unchanged exactly if its path is not empty and not a drive
      path with a slash before it. */
  lemma FileReadsBackIff(path: string)
    ensures Parse(Locator(File(path))) == Ok(File(path)) <==> path != [] && !SlashedDrive(path)
  {
    ParseFileText(path);
  }

  /** Whatever was accepted is accepted again in its printed form, as the same reference. */
  lemma ParseIsStable(s: string)
    requires Parse(s).Ok?
    ensures Parse(Locator(Parse(s).value)) == Parse(s)
    ensures Parse(s).value.Oci? ==> Locator(Parse(s).value) == s
  {
    if Parse(s).value.Oci? {
      OciExactly(s, Parse(s).value.oci);
    } else {
      ParseFileText(Parse(s).value.path);
    }
  }
}
