/** The publishing policy of crates/ost-artifact/src/policy.rs: validation, the most specific protected namespace,
    and publisher authorization. */
module Policy {
  import opened Prelude
  import opened Text

  datatype Trust = Local | Unsigned | Attested | Verified | Trusted

  function Rank(t: Trust): nat {
    match t
    case Local => 0
    case Unsigned => 1
    case Attested => 2
    case Verified => 3
    case Trusted => 4
  }

  datatype Namespace = Namespace(name: string, minimum: Trust, allowed: seq<string>)

  datatype Publisher = Publisher(id: string, trust: Trust, repository: string, workflow: string,
                                 refs: seq<string>, actors: seq<string>, events: seq<string>)

  datatype Identity = Identity(repository: string, workflow: string, gitRef: string, actor: string, event: string)

  datatype Policy = Policy(schema: nat, namespaces: seq<Namespace>, publishers: seq<Publisher>)

  datatype Authorization = Authorization(namespace: string, publisher: string, trust: Trust)

  /** Which check failed, on what. */
  datatype PolicyError =
    | Unsupported
    | EmptyField | NotAWorkflow(id: string) | BadRefPattern(id: string, pattern: string) | DuplicatePublisher(id: string)
    | NotANamespace(name: string) | NobodyAllowed(name: string) | DuplicateNamespace(name: string)
    | UnknownPublisher(name: string, id: string) | BelowMinimum(name: string, id: string)
    | Untrusted(name: string)

  const SCHEMA: nat := 1

  // ---------------------------------------------------------------------------------------
  // Matching
  // ---------------------------------------------------------------------------------------

  /** `namespace_contains`. */
  predicate Contains(name: string, destination: string) {
    destination == name || (name <= destination && destination[|name|] == '/')
  }

  /** `ref_matches`: a trailing `*` matches any suffix. */
  predicate RefMatches(pattern: string, value: string) {
    if pattern != [] && pattern[|pattern| - 1] == '*' then pattern[..|pattern| - 1] <= value else value == pattern
  }

  predicate Matches(p: Publisher, who: Identity) {
    && p.repository == who.repository && p.workflow == who.workflow
    && (exists i | 0 <= i < |p.refs| :: RefMatches(p.refs[i], who.gitRef))
    && who.actor in p.actors && who.event in p.events
  }

  /** `publisher`: the first with that id. */
  function Find(publishers: seq<Publisher>, id: string): (r: Option<Publisher>)
    ensures r.Some? ==> r.value in publishers && r.value.id == id
    ensures r.None? ==> forall p | p in publishers :: p.id != id
  {
    if publishers == [] then None
    else if publishers[0].id == id then Some(publishers[0])
    else Find(publishers[1..], id)
  }

  /** `max_by_key` of the name's length over the containing namespaces: the last of the longest. */
  function Protected(namespaces: seq<Namespace>, destination: string): Option<Namespace> {
    if namespaces == [] then None
    else
      var front, last := Protected(namespaces[..|namespaces| - 1], destination), namespaces[|namespaces| - 1];
      if !Contains(last.name, destination) then front
      else if front.Some? && |front.value.name| > |last.name| then front
      else Some(last)
  }

  // ---------------------------------------------------------------------------------------
  // Namespaces as text
  // ---------------------------------------------------------------------------------------

  predicate HostChar(c: char) {
    IsLower(c) || IsNumeral(c) || c == '.' || c == '-'
  }

  predicate ComponentChar(c: char) {
    HostChar(c) || c == '_'
  }

  function Value(digits: string): (r: nat)
    requires All(IsNumeral, digits)
  {
    if digits == [] then 0 else 10 * Value(digits[..|digits| - 1]) + (digits[|digits| - 1] - '0') as nat
  }

  /** A port: digits that parse as a 16-bit number other than 0. */
  predicate IsPort(port: string) {
    port != [] && All(IsNumeral, port) && 0 < Value(port) < 0x1_0000
  }

  predicate IsHost(host: string) {
    host != [] && All(HostChar, host)
  }

  predicate IsComponent(component: string) {
    component != [] && All(ComponentChar, component)
  }

  /** `valid_registry_namespace`. */
  predicate IsRegistry(s: string) {
    var cut := RSplitOnce(s, ':');
    if cut.Some? then IsHost(cut.value.0) && IsPort(cut.value.1) else IsHost(s)
  }

  predicate Holds(s: string, part: string) {
    exists i | 0 <= i <= |s| :: part <= s[i..]
  }

  /** `is_namespace`. */
  predicate IsNamespace(s: string) {
    var cut := SplitOnce(s, '/');
    && cut.Some?
    && s == Lowered(s) && !Holds(s, "://") && '@' !in s
    && IsRegistry(cut.value.0)
    && cut.value.1 != [] && cut.value.1[|cut.value.1| - 1] != '/'
    && forall i | 0 <= i < |Split(cut.value.1, '/')| :: IsComponent(Split(cut.value.1, '/')[i])
  }

  function RegistryText(host: string, port: Option<string>): string {
    if port.Some? then host + [':'] + port.value else host
  }

  /** The grammar: `host[:port]/component/…/component`. */
  predicate Spells(host: string, port: Option<string>, components: seq<string>, s: string) {
    && IsHost(host) && (port.Some? ==> IsPort(port.value))
    && components != [] && (forall i | 0 <= i < |components| :: IsComponent(components[i]))
    && s == RegistryText(host, port) + ['/'] + Joined(components, '/')
  }

  lemma RegistryReads(host: string, port: Option<string>)
    requires IsHost(host) && (port.Some? ==> IsPort(port.value))
    ensures IsRegistry(RegistryText(host, port))
    ensures forall c | c in RegistryText(host, port) :: HostChar(c) || c == ':'
  {
    assert forall c | c in host :: HostChar(c);
    if port.Some? {
      assert forall c | c in port.value :: IsNumeral(c);
      RSplitOnceAt(host, ':', port.value);
    }
  }

  lemma {:induction false} JoinedComponents(components: seq<string>)
    requires components != [] && forall i | 0 <= i < |components| :: IsComponent(components[i])
    ensures var s := Joined(components, '/'); s != [] && s[|s| - 1] != '/' && forall c | c in s :: ComponentChar(c) || c == '/'
  {
    assert forall c | c in components[0] :: ComponentChar(c);
    if |components| > 1 {
      JoinedComponents(components[1..]);
    }
  }

  lemma PlainTextIsLowered(s: string)
    requires forall c | c in s :: ComponentChar(c) || c == '/' || c == ':'
    ensures Lowered(s) == s && '@' !in s
  {
    forall i | 0 <= i < |s| ensures Lower(s[i]) == s[i] {
      assert s[i] in s;
    }
  }

  lemma RegistryEnds(host: string, port: Option<string>)
    requires IsHost(host) && (port.Some? ==> IsPort(port.value))
    ensures var registry := RegistryText(host, port); registry != [] && registry[|registry| - 1] != ':'
  {
    assert HostChar(host[|host| - 1]);
    if port.Some? {
      assert IsNumeral(port.value[|port.value| - 1]);
    }
  }

  /** A registry ends in no `:`, so that no `://` can arise where repository and registry meet. */
  lemma NoScheme(host: string, port: Option<string>, repository: string)
    requires IsHost(host) && (port.Some? ==> IsPort(port.value))
    requires forall c | c in repository :: c != ':'
    ensures !Holds(RegistryText(host, port) + ['/'] + repository, "://")
  {
    var registry := RegistryText(host, port);
    var s := registry + ['/'] + repository;
    RegistryReads(host, port);
    RegistryEnds(host, port);
    assert s[|registry|] == '/' && s[|registry| - 1] == registry[|registry| - 1];
    forall i | 0 <= i < |s| - 1 ensures !(s[i] == ':' && s[i + 1] == '/') {
      if i > |registry| {
        assert s[i] == repository[i - |registry| - 1] && s[i] in repository;
      } else if i + 1 < |registry| {
        assert s[i + 1] == registry[i + 1] && s[i + 1] in registry;
      }
    }
    forall i | 0 <= i <= |s| ensures !("://" <= s[i..]) {
      if i < |s| - 1 {
        assert s[i..][0] == s[i] && s[i..][1] == s[i + 1];
      }
    }
  }

  /** `is_namespace` accepts exactly the texts of the grammar: its tests for case, `://`, `@` and a trailing slash
      add nothing to the other ones. */
  lemma NamespaceExactly(s: string)
    ensures IsNamespace(s) <==> exists host, port, components :: Spells(host, port, components, s)
  {
    if IsNamespace(s) {
      NamespaceSpelled(s);
    }
    forall host, port, components | Spells(host, port, components, s) ensures IsNamespace(s) {
      SpelledIsNamespace(host, port, components, s);
    }
  }

  lemma NamespaceSpelled(s: string)
    requires IsNamespace(s)
    ensures exists host, port, components :: Spells(host, port, components, s)
  {
    var (registry, repository) := SplitOnce(s, '/').value;
    var cut := RSplitOnce(registry, ':');
    var host := if cut.Some? then cut.value.0 else registry;
    var port := if cut.Some? then Some(cut.value.1) else None;
    SplitThenJoined(repository, '/');
    assert Spells(host, port, Split(repository, '/'), s);
  }

  lemma SpelledIsNamespace(host: string, port: Option<string>, components: seq<string>, s: string)
    requires Spells(host, port, components, s)
    ensures IsNamespace(s)
  {
    var registry, repository := RegistryText(host, port), Joined(components, '/');
    RegistryReads(host, port);
    JoinedComponents(components);
    SplitOnceAt(registry, '/', repository);
    PlainTextIsLowered(s);
    NoScheme(host, port, repository);
    forall i | 0 <= i < |components| ensures '/' !in components[i] {
      assert IsComponent(components[i]);
      assert forall c | c in components[i] :: ComponentChar(c);
    }
    JoinedThenSplit(components, '/');
  }

  /** Containment is containment of paths, segment by segment, for any two texts. */
  lemma {:induction false} ContainsBySegments(name: string, destination: string)
    ensures Contains(name, destination) <==> Split(name, '/') <= Split(destination, '/')
  {
    var a, b := Split(name, '/'), Split(destination, '/');
    if name != [] && destination != [] {
      ContainsBySegments(name[1..], destination[1..]);
      var c, d := Split(name[1..], '/'), Split(destination[1..], '/');
      ContainsTail(name, destination);
      if name[0] == destination[0] {
        if name[0] == '/' {
          PrefixBehind([], c, d);
        } else {
          PrefixWith(name[0], c, d);
        }
      } else {
        assert a[0] == if name[0] == '/' then [] else [name[0]] + c[0];
        assert b[0] == if destination[0] == '/' then [] else [destination[0]] + d[0];
        assert ([name[0]] + c[0])[0] != ([destination[0]] + d[0])[0];
        assert a[0] != b[0];
      }
    } else if destination != [] {
      assert [[]] <= b <==> b[0] == [];
    }
  }

  lemma ContainsTail(name: string, destination: string)
    requires name != [] && destination != []
    ensures Contains(name, destination) <==> name[0] == destination[0] && Contains(name[1..], destination[1..])
  {
    if name[0] == destination[0] && Contains(name[1..], destination[1..]) {
      assert name == [name[0]] + name[1..] && destination == [name[0]] + destination[1..];
    }
  }

  lemma PrefixBehind(part: string, c: seq<string>, d: seq<string>)
    ensures [part] + c <= [part] + d <==> c <= d
  {
    assert ([part] + c)[1..] == c && ([part] + d)[1..] == d;
    if [part] + c <= [part] + d {
      assert forall i | 0 <= i < |c| :: c[i] == ([part] + c)[i + 1] == ([part] + d)[i + 1];
    }
  }

  lemma PrefixWith(x: char, c: seq<string>, d: seq<string>)
    requires c != [] && d != []
    ensures [[x] + c[0]] + c[1..] <= [[x] + d[0]] + d[1..] <==> c <= d
  {
    PrefixBehind(c[0], c[1..], d[1..]);
    PrefixBehind([x] + c[0], c[1..], d[1..]);
    assert c == [c[0]] + c[1..] && d == [d[0]] + d[1..];
    assert ([x] + c[0])[1..] == c[0] && ([x] + d[0])[1..] == d[0];
    var e, f := [[x] + c[0]] + c[1..], [[x] + d[0]] + d[1..];
    assert e <= f ==> e[0] == f[0];
    assert c <= d ==> c[0] == d[0];
  }

  // ---------------------------------------------------------------------------------------
  // Publishers as text
  // ---------------------------------------------------------------------------------------

  function Stars(pattern: string): (n: nat) {
    if pattern == [] then 0 else Stars(pattern[1..]) + if pattern[0] == '*' then 1 else 0
  }

  /** The counting test of `validate_publisher` on a ref pattern. */
  predicate IsRefPattern(pattern: string) {
    "refs/" <= pattern && Stars(pattern) <= 1 && (Stars(pattern) == 1 ==> EndsWith(pattern, "*"))
  }

  lemma {:induction false} StarsOfParts(a: string, b: string)
    ensures Stars(a + b) == Stars(a) + Stars(b)
    ensures Stars(a) == 0 <==> '*' !in a
  {
    if a == [] {
      assert a + b == b;
    } else {
      assert (a + b)[1..] == a[1..] + b;
      StarsOfParts(a[1..], b);
    }
  }

  /** Counting finds the patterns with no star except for their last character. */
  lemma RefPatternExactly(pattern: string)
    ensures IsRefPattern(pattern) <==> "refs/" <= pattern && '*' !in pattern[..|pattern| - 1]
  {
    if pattern != [] {
      var front, last := pattern[..|pattern| - 1], pattern[|pattern| - 1..];
      assert pattern == front + last && last == [pattern[|pattern| - 1]];
      StarsOfParts(front, last);
      assert last[1..] == [];
      assert Stars(last) == if last[0] == '*' then 1 else 0;
    }
  }

  predicate HasEmptyField(space: Space, p: Publisher) {
    || Trim(space, p.id) == [] || Trim(space, p.repository) == [] || Trim(space, p.workflow) == []
    || p.refs == [] || p.actors == [] || p.events == []
  }

  predicate IsWorkflow(path: string) {
    ".github/workflows/" <= path && (EndsWith(path, ".yml") || EndsWith(path, ".yaml"))
  }

  // ---------------------------------------------------------------------------------------
  // Validation
  // ---------------------------------------------------------------------------------------

  type Faults = seq<Option<PolicyError>>

  /** The fault that is met first. */
  function First(faults: Faults): (r: Option<PolicyError>)
    ensures r.None? <==> forall i | 0 <= i < |faults| :: faults[i].None?
    ensures r.Some? ==> exists i | 0 <= i < |faults| :: faults[i] == r && forall j | 0 <= j < i :: faults[j].None?
  {
    if faults == [] then None else if faults[0].Some? then faults[0] else
      var r := First(faults[1..]);
      assert forall i | 0 < i < |faults| :: faults[i] == faults[1..][i - 1];
      r
  }

  lemma {:induction false} FirstAt(faults: Faults, i: nat)
    requires i < |faults| && faults[i].Some? && forall j | 0 <= j < i :: faults[j].None?
    ensures First(faults) == faults[i]
  {
    if i > 0 {
      FirstAt(faults[1..], i - 1);
    }
  }

  function Answer(fault: Option<PolicyError>): Result<(), PolicyError> {
    if fault.Some? then Err(fault.value) else Ok(())
  }

  function RefFaults(p: Publisher): (r: Faults) {
    seq(|p.refs|, i requires 0 <= i < |p.refs| =>
      if IsRefPattern(p.refs[i]) then None else Some(BadRefPattern(p.id, p.refs[i])))
  }

  function SyntaxFault(space: Space, p: Publisher): Option<PolicyError> {
    if HasEmptyField(space, p) then Some(EmptyField)
    else if !IsWorkflow(p.workflow) then Some(NotAWorkflow(p.id))
    else First(RefFaults(p))
  }

  function PublisherFault(space: Space, publishers: seq<Publisher>, i: nat): Option<PolicyError>
    requires i < |publishers|
  {
    var p := publishers[i];
    if SyntaxFault(space, p).Some? then SyntaxFault(space, p)
    else if exists j | 0 <= j < i :: publishers[j].id == p.id then Some(DuplicatePublisher(p.id))
    else None
  }

  function PublisherFaults(space: Space, publishers: seq<Publisher>): Faults {
    seq(|publishers|, i requires 0 <= i < |publishers| => PublisherFault(space, publishers, i))
  }

  function AllowedFaults(publishers: seq<Publisher>, n: Namespace): Faults {
    seq(|n.allowed|, k requires 0 <= k < |n.allowed| =>
      var p := Find(publishers, n.allowed[k]);
      if p.None? then Some(UnknownPublisher(n.name, n.allowed[k]))
      else if Rank(p.value.trust) < Rank(n.minimum) then Some(BelowMinimum(n.name, n.allowed[k]))
      else None)
  }

  function NamespaceFault(policy: Policy, i: nat): Option<PolicyError>
    requires i < |policy.namespaces|
  {
    var n := policy.namespaces[i];
    if !IsNamespace(n.name) then Some(NotANamespace(n.name))
    else if n.allowed == [] then Some(NobodyAllowed(n.name))
    else if exists j | 0 <= j < i :: policy.namespaces[j].name == n.name then Some(DuplicateNamespace(n.name))
    else First(AllowedFaults(policy.publishers, n))
  }

  function NamespaceFaults(policy: Policy): Faults {
    seq(|policy.namespaces|, i requires 0 <= i < |policy.namespaces| => NamespaceFault(policy, i))
  }

  // What an accepted policy is.

  predicate DistinctIds(publishers: seq<Publisher>) {
    forall i, j | 0 <= i < j < |publishers| :: publishers[i].id != publishers[j].id
  }

  predicate DistinctNames(namespaces: seq<Namespace>) {
    forall i, j | 0 <= i < j < |namespaces| :: namespaces[i].name != namespaces[j].name
  }

  predicate WellFormedPublisher(space: Space, p: Publisher) {
    && !HasEmptyField(space, p) && IsWorkflow(p.workflow)
    && forall i | 0 <= i < |p.refs| :: "refs/" <= p.refs[i] && '*' !in p.refs[i][..|p.refs[i]| - 1]
  }

  ghost predicate WellFormedNamespace(n: Namespace) {
    n.allowed != [] && exists host, port, components :: Spells(host, port, components, n.name)
  }

  /** Every publisher the namespace allows exists and is trusted enough. */
  predicate Satisfiable(publishers: seq<Publisher>, n: Namespace) {
    forall k | 0 <= k < |n.allowed| ::
      var p := Find(publishers, n.allowed[k]);
      p.Some? && Rank(n.minimum) <= Rank(p.value.trust)
  }

  ghost predicate Validated(space: Space, policy: Policy) {
    && policy.schema == SCHEMA
    && (forall i | 0 <= i < |policy.publishers| :: WellFormedPublisher(space, policy.publishers[i]))
    && DistinctIds(policy.publishers)
    && (forall i | 0 <= i < |policy.namespaces| ::
          WellFormedNamespace(policy.namespaces[i]) && Satisfiable(policy.publishers, policy.namespaces[i]))
    && DistinctNames(policy.namespaces)
  }

  lemma NoSyntaxFault(space: Space, p: Publisher)
    ensures SyntaxFault(space, p).None? <==> WellFormedPublisher(space, p)
  {
    forall i | 0 <= i < |p.refs|
      ensures IsRefPattern(p.refs[i]) <==> "refs/" <= p.refs[i] && '*' !in p.refs[i][..|p.refs[i]| - 1]
      ensures RefFaults(p)[i].None? <==> IsRefPattern(p.refs[i])
    {
      RefPatternExactly(p.refs[i]);
    }
  }

  lemma NoPublisherFault(space: Space, publishers: seq<Publisher>)
    ensures First(PublisherFaults(space, publishers)).None? <==>
      (forall i | 0 <= i < |publishers| :: WellFormedPublisher(space, publishers[i])) && DistinctIds(publishers)
  {
    hide SyntaxFault, WellFormedPublisher;
    var faults := PublisherFaults(space, publishers);
    forall i | 0 <= i < |publishers|
      ensures faults[i].None? <==>
        (&& WellFormedPublisher(space, publishers[i])
         && forall j | 0 <= j < i :: publishers[j].id != publishers[i].id)
    {
      NoSyntaxFault(space, publishers[i]);
      assert faults[i] == PublisherFault(space, publishers, i);
    }
  }

  lemma NoAllowedFault(publishers: seq<Publisher>, n: Namespace)
    ensures First(AllowedFaults(publishers, n)).None? <==> Satisfiable(publishers, n)
  {
    var faults := AllowedFaults(publishers, n);
    assert forall k | 0 <= k < |n.allowed| :: faults[k].None? <==>
      var p := Find(publishers, n.allowed[k]);
      p.Some? && Rank(n.minimum) <= Rank(p.value.trust);
  }

  lemma NoNamespaceFault(policy: Policy)
    ensures First(NamespaceFaults(policy)).None? <==>
      && (forall i | 0 <= i < |policy.namespaces| ::
            WellFormedNamespace(policy.namespaces[i]) && Satisfiable(policy.publishers, policy.namespaces[i]))
      && DistinctNames(policy.namespaces)
  {
    hide Satisfiable, IsNamespace, AllowedFaults, Spells;
    var faults := NamespaceFaults(policy);
    forall i | 0 <= i < |policy.namespaces|
      ensures faults[i].None? <==>
        (&& WellFormedNamespace(policy.namespaces[i]) && Satisfiable(policy.publishers, policy.namespaces[i])
         && forall j | 0 <= j < i :: policy.namespaces[j].name != policy.namespaces[i].name)
    {
      NamespaceExactly(policy.namespaces[i].name);
      NoAllowedFault(policy.publishers, policy.namespaces[i]);
      assert faults[i] == NamespaceFault(policy, i);
    }
  }

  /** `validate` accepts exactly the policies that are well formed as a whole, and otherwise reports the first fault:
      schema, then publishers, then namespaces, each in the order of declaration. */
  method Validate(space: Space, policy: Policy) returns (r: Result<(), PolicyError>)
    ensures r.Ok? <==> Validated(space, policy)
    ensures r == if policy.schema != SCHEMA then Err(Unsupported)
                 else Answer(First(PublisherFaults(space, policy.publishers) + NamespaceFaults(policy)))
  {
    hide PublisherFault, NamespaceFault, WellFormedPublisher, WellFormedNamespace, Satisfiable;
    if policy.schema != SCHEMA {
      return Err(Unsupported);
    }
    NoPublisherFault(space, policy.publishers);
    NoNamespaceFault(policy);
    FirstOfBoth(PublisherFaults(space, policy.publishers), NamespaceFaults(policy));
    r := ValidatePublishers(space, policy.publishers);
    if r.Ok? {
      r := ValidateNamespaces(policy);
    }
  }

  lemma {:induction false} FirstOfBoth(a: Faults, b: Faults)
    ensures First(a + b) == if First(a).Some? then First(a) else First(b)
  {
    if a == [] {
      assert a + b == b;
    } else {
      assert (a + b)[1..] == a[1..] + b;
      FirstOfBoth(a[1..], b);
    }
  }

  /** `validate_publisher`. */
  method ValidatePublisher(space: Space, p: Publisher) returns (r: Result<(), PolicyError>)
    ensures r == Answer(SyntaxFault(space, p))
    ensures r.Ok? <==> WellFormedPublisher(space, p)
  {
    NoSyntaxFault(space, p);
    if Trim(space, p.id) == [] || Trim(space, p.repository) == [] || Trim(space, p.workflow) == []
       || p.refs == [] || p.actors == [] || p.events == [] {
      return Err(EmptyField);
    }
    if !(".github/workflows/" <= p.workflow) || (!EndsWith(p.workflow, ".yml") && !EndsWith(p.workflow, ".yaml")) {
      return Err(NotAWorkflow(p.id));
    }
    for i := 0 to |p.refs|
      invariant forall j | 0 <= j < i :: RefFaults(p)[j].None?
    {
      var stars := Stars(p.refs[i]);
      if !("refs/" <= p.refs[i]) || stars > 1 || (stars == 1 && !EndsWith(p.refs[i], "*")) {
        FirstAt(RefFaults(p), i);
        return Err(BadRefPattern(p.id, p.refs[i]));
      }
    }
    return Ok(());
  }

  method ValidatePublishers(space: Space, publishers: seq<Publisher>) returns (r: Result<(), PolicyError>)
    ensures r == Answer(First(PublisherFaults(space, publishers)))
    ensures r.Ok? <==>
      (forall i | 0 <= i < |publishers| :: WellFormedPublisher(space, publishers[i])) && DistinctIds(publishers)
  {
    hide SyntaxFault, WellFormedPublisher;
    NoPublisherFault(space, publishers);
    ghost var faults := PublisherFaults(space, publishers);
    var ids: set<string> := {};
    for i := 0 to |publishers|
      invariant forall j | 0 <= j < i :: faults[j].None?
      invariant forall id :: id in ids <==> exists j | 0 <= j < i :: publishers[j].id == id
    {
      assert faults[i] == PublisherFault(space, publishers, i);
      r := ValidatePublisher(space, publishers[i]);
      if r.Err? {
        FirstAt(faults, i);
        return;
      }
      if publishers[i].id in ids {
        FirstAt(faults, i);
        return Err(DuplicatePublisher(publishers[i].id));
      }
      ids := ids + {publishers[i].id};
    }
    return Ok(());
  }

  method ValidateNamespaces(policy: Policy) returns (r: Result<(), PolicyError>)
    ensures r == Answer(First(NamespaceFaults(policy)))
    ensures r.Ok? <==>
      && (forall i | 0 <= i < |policy.namespaces| ::
            WellFormedNamespace(policy.namespaces[i]) && Satisfiable(policy.publishers, policy.namespaces[i]))
      && DistinctNames(policy.namespaces)
  {
    hide Satisfiable, IsNamespace, AllowedFaults, WellFormedNamespace;
    NoNamespaceFault(policy);
    ghost var faults := NamespaceFaults(policy);
    var names: set<string> := {};
    for i := 0 to |policy.namespaces|
      invariant forall j | 0 <= j < i :: faults[j].None?
      invariant forall name :: name in names <==> exists j | 0 <= j < i :: policy.namespaces[j].name == name
    {
      var n := policy.namespaces[i];
      assert faults[i] == NamespaceFault(policy, i);
      if !IsNamespace(n.name) {
        FirstAt(faults, i);
        return Err(NotANamespace(n.name));
      }
      if n.allowed == [] {
        FirstAt(faults, i);
        return Err(NobodyAllowed(n.name));
      }
      if n.name in names {
        FirstAt(faults, i);
        return Err(DuplicateNamespace(n.name));
      }
      names := names + {n.name};
      r := ValidateAllowed(policy.publishers, n);
      if r.Err? {
        FirstAt(faults, i);
        return;
      }
    }
    return Ok(());
  }

  method ValidateAllowed(publishers: seq<Publisher>, n: Namespace) returns (r: Result<(), PolicyError>)
    ensures r == Answer(First(AllowedFaults(publishers, n)))
    ensures r.Ok? <==> Satisfiable(publishers, n)
  {
    NoAllowedFault(publishers, n);
    for k := 0 to |n.allowed|
      invariant forall j | 0 <= j < k :: AllowedFaults(publishers, n)[j].None?
    {
      var p := Find(publishers, n.allowed[k]);
      if p.None? {
        FirstAt(AllowedFaults(publishers, n), k);
        return Err(UnknownPublisher(n.name, n.allowed[k]));
      }
      if Rank(p.value.trust) < Rank(n.minimum) {
        FirstAt(AllowedFaults(publishers, n), k);
        return Err(BelowMinimum(n.name, n.allowed[k]));
      }
    }
    return Ok(());
  }

  // ---------------------------------------------------------------------------------------
  // The most specific namespace
  // ---------------------------------------------------------------------------------------

  /** Of two namespaces around one destination, the shorter contains the longer; equally long ones are one. */
  lemma ContainersAreNested(a: string, b: string, destination: string)
    requires Contains(a, destination) && Contains(b, destination) && |a| <= |b|
    ensures |a| < |b| ==> Contains(a, b)
    ensures |a| == |b| ==> a == b
  {
    assert a == destination[..|a|] && b == destination[..|b|];
    assert a == b[..|a|];
  }

  /** A protected namespace around the destination that every other one around it contains. */
  ghost predicate MostSpecific(namespaces: seq<Namespace>, destination: string, n: Namespace) {
    n in namespaces && Contains(n.name, destination)
    && forall m | m in namespaces && Contains(m.name, destination) :: Contains(m.name, n.name)
  }

  lemma {:induction false} ProtectedIsLongest(namespaces: seq<Namespace>, destination: string)
    ensures
      var r := Protected(namespaces, destination);
      && (r.Some? ==> r.value in namespaces && Contains(r.value.name, destination))
      && forall m | m in namespaces && Contains(m.name, destination) :: r.Some? && |m.name| <= |r.value.name|
  {
    hide Contains;
    if namespaces != [] {
      var front := namespaces[..|namespaces| - 1];
      ProtectedIsLongest(front, destination);
      assert namespaces == front + [namespaces[|namespaces| - 1]];
    }
  }

  /** In a policy with distinct names the chosen namespace is the one most specific one, and there is none only if
      no namespace contains the destination. */
  lemma ProtectedExactly(namespaces: seq<Namespace>, destination: string, n: Namespace)
    requires DistinctNames(namespaces)
    ensures Protected(namespaces, destination) == Some(n) <==> MostSpecific(namespaces, destination, n)
    ensures Protected(namespaces, destination) == None <==> forall m | m in namespaces :: !Contains(m.name, destination)
  {
    ProtectedIsLongest(namespaces, destination);
    var r := Protected(namespaces, destination);
    if r.Some? {
      forall m | m in namespaces && Contains(m.name, destination) ensures Contains(m.name, r.value.name) {
        ContainersAreNested(m.name, r.value.name, destination);
      }
      if MostSpecific(namespaces, destination, n) {
        ContainmentIsMutual(r.value.name, n.name);
        SameNameSameNamespace(namespaces, r.value, n);
      }
    }
  }

  lemma ContainmentIsMutual(a: string, b: string)
    requires Contains(a, b) && Contains(b, a)
    ensures a == b
  {
  }

  lemma SameNameSameNamespace(namespaces: seq<Namespace>, a: Namespace, b: Namespace)
    requires DistinctNames(namespaces) && a in namespaces && b in namespaces && a.name == b.name
    ensures a == b
  {
    var i :| 0 <= i < |namespaces| && namespaces[i] == a;
    var j :| 0 <= j < |namespaces| && namespaces[j] == b;
  }

  /** The order of declaration does not matter. */
  lemma ProtectedIgnoresOrder(a: seq<Namespace>, b: seq<Namespace>, destination: string)
    requires DistinctNames(a) && DistinctNames(b) && (forall n :: n in a <==> n in b)
    ensures Protected(a, destination) == Protected(b, destination)
  {
    var r := Protected(a, destination);
    var n := if r.Some? then r.value else Namespace([], Local, []);
    ProtectedExactly(a, destination, n);
    ProtectedExactly(b, destination, n);
  }

  // ---------------------------------------------------------------------------------------
  // Authorization
  // ---------------------------------------------------------------------------------------

  /** The publisher is one that the namespace allows, and matches the identity. */
  predicate Admits(publishers: seq<Publisher>, n: Namespace, who: Identity, id: string) {
    id in n.allowed && Find(publishers, id).Some? && Matches(Find(publishers, id).value, who)
  }

  /** It is the first such publisher in the namespace's list. */
  predicate FirstAdmitted(publishers: seq<Publisher>, n: Namespace, who: Identity, id: string) {
    exists k | 0 <= k < |n.allowed| ::
      && n.allowed[k] == id && Admits(publishers, n, who, id)
      && forall j | 0 <= j < k :: !Admits(publishers, n, who, n.allowed[j])
  }

  /** `authorize_publisher` on a validated policy: unprotected destinations need no authorization; a protected one
      is refused exactly if none of its publishers matches; and an authorization names the most specific
      namespace and its first allowed, matching publisher, of at least the demanded trust. */
  method Authorize(space: Space, policy: Policy, destination: string, who: Identity)
    returns (r: Result<Option<Authorization>, PolicyError>)
    requires Validated(space, policy)
    ensures r == Ok(None) <==> forall m | m in policy.namespaces :: !Contains(m.name, destination)
    ensures r.Err? <==>
      (&& Protected(policy.namespaces, destination).Some?
       && forall id :: !Admits(policy.publishers, Protected(policy.namespaces, destination).value, who, id))
    ensures r.Err? ==> r.error == Untrusted(Protected(policy.namespaces, destination).value.name)
    ensures r.Ok? && r.value.Some? ==>
      var a := r.value.value;
      exists n | MostSpecific(policy.namespaces, destination, n) ::
        && a.namespace == n.name && FirstAdmitted(policy.publishers, n, who, a.publisher)
        && a.trust == Find(policy.publishers, a.publisher).value.trust && Rank(n.minimum) <= Rank(a.trust)
  {
    hide Contains, Matches, MostSpecific, Validated, Protected, Find;
    ChosenNamespace(space, policy, destination);
    var found := Protected(policy.namespaces, destination);
    if found.None? {
      return Ok(None);
    }
    var n := found.value;
    for k := 0 to |n.allowed|
      invariant forall j | 0 <= j < k :: !Admits(policy.publishers, n, who, n.allowed[j])
    {
      var publisher := Find(policy.publishers, n.allowed[k]);
      assert publisher.Some?;
      if Matches(publisher.value, who) {
        assert Admits(policy.publishers, n, who, n.allowed[k]);
        return Ok(Some(Authorization(n.name, publisher.value.id, publisher.value.trust)));
      }
    }
    return Err(Untrusted(n.name));
  }

  lemma ChosenNamespace(space: Space, policy: Policy, destination: string)
    requires Validated(space, policy)
    ensures
      var found := Protected(policy.namespaces, destination);
      && (found.None? <==> forall m | m in policy.namespaces :: !Contains(m.name, destination))
      && (found.Some? ==>
            && MostSpecific(policy.namespaces, destination, found.value)
            && Satisfiable(policy.publishers, found.value))
  {
    ProtectedIsLongest(policy.namespaces, destination);
    var found := Protected(policy.namespaces, destination);
    if found.Some? {
      ProtectedExactly(policy.namespaces, destination, found.value);
    }
  }
}
