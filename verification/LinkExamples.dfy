/** Archives whose every entry passes the gate and whose links nevertheless lead out: one for each way to miss the
    conditions of `Links.AcceptedArchiveContains`. */
module LinkExamples {
  import opened Prelude
  import opened Text
  import opened Archive
  import opened Links

  /** The gate counts the dot as a directory. */
  const DOTTED: TarEntry := TarEntry("./l", Symlink, "../x", [], 0)

  /** The gate takes the `\` for a separator; elsewhere it is part of one name. */
  const BACKSLASHED: TarEntry := TarEntry("a\\l", Symlink, "../x", [], 0)

  /** A link to the archive root. */
  const ROOT: TarEntry := TarEntry("a/b/l", Symlink, "../..", [], 0)

  /** Its target climbs out of that link. */
  const CHAINED: TarEntry := TarEntry("m", Symlink, "a/b/l/..", [], 0)

  /** It sits beneath that link. */
  const NESTED: TarEntry := TarEntry("a/b/l/m", Symlink, "../../..", [], 0)

  // ---------------------------------------------------------------------------------------
  // Reading a link entry
  // ---------------------------------------------------------------------------------------

  predicate PlainChar(c: char) {
    c != '/' && c != '\\' && c != ':' && !IsControl(c)
  }

  predicate PlainPart(part: string) {
    part != [] && forall i | 0 <= i < |part| :: PlainChar(part[i])
  }

  predicate PlainParts(parts: seq<string>) {
    parts != [] && forall i | 0 <= i < |parts| :: PlainPart(parts[i])
  }

  lemma {:induction false} JoinedChars(parts: seq<string>)
    requires PlainParts(parts)
    ensures var s := Joined(parts, '/');
      s != [] && s[0] != '/' && forall i | 0 <= i < |s| :: s[i] == '/' || PlainChar(s[i])
  {
    assert PlainPart(parts[0]) && PlainChar(parts[0][0]);
    if |parts| > 1 {
      assert forall i | 0 <= i < |parts[1..]| :: parts[1..][i] == parts[i + 1];
      JoinedChars(parts[1..]);
    }
  }

  lemma {:induction false} AllNonEmpty(parts: seq<string>)
    requires forall i | 0 <= i < |parts| :: PlainPart(parts[i])
    ensures NonEmptyParts(parts) == parts
  {
    if parts != [] {
      assert PlainPart(parts[0]);
      AllNonEmpty(parts[1..]);
    }
  }

  lemma PlainText(parts: seq<string>)
    requires PlainParts(parts)
    ensures var s := Joined(parts, '/');
      && Slashed(s) == s && '\\' !in s && Split(s, '/') == parts && Components(s) == parts
      && s != [] && s[0] != '/' && !HasDriveLetter(s) && !HasControl(s)
  {
    JoinedChars(parts);
    forall i | 0 <= i < |parts| ensures '/' !in parts[i] {
      assert PlainPart(parts[i]);
    }
    JoinedThenSplit(parts, '/');
    AllNonEmpty(parts);
  }

  /** The host tells all names apart; `\` may separate components or not. */
  ghost predicate Verbatim(host: Host) {
    forall name: string :: host.fold(name) == name
  }

  lemma {:induction false} ReadVerbatim(host: Host, parts: seq<string>)
    requires Verbatim(host)
    ensures ReadAll(host, parts) == parts
  {
    if parts != [] {
      ReadVerbatim(host, parts[1..]);
    }
  }

  /** An entry of plain parts is an accepted link exactly if its target does not climb out. */
  lemma LinkEntry(host: Host, e: TarEntry, path: seq<string>, target: seq<string>)
    requires Verbatim(host)
    requires e.kind.Symlink? && PlainParts(path) && PlainParts(target) && ".." !in path
    requires e.path == Joined(path, '/') && e.link == Joined(target, '/')
    ensures Components(Slashed(e.path)) == path && PlaceOf(host, e) == WithoutDots(path) && TargetOf(host, e) == target
    ensures '\\' !in e.path && '\\' !in e.link
    ensures ClassOf(e).IsSymlink? <==> !ClimbsOut(|path| - 1, target)
  {
    PlainText(path);
    PlainText(target);
    ReadVerbatim(host, WithoutDots(path));
    ReadVerbatim(host, target);
    hide Verbatim, ClimbsOut, Split, NonEmptyParts, Joined;
  }

  lemma PlainLiterals()
    ensures PlainPart("a") && PlainPart("b") && PlainPart("l") && PlainPart("m") && PlainPart("x")
    ensures PlainPart(".") && PlainPart("..")
  {
  }

  lemma NoClimb(depth: nat, parts: seq<string>)
    requires parts == [] || (Step(depth, parts[0]) >= 0 && !ClimbsOut(Step(depth, parts[0]), parts[1..]))
    ensures !ClimbsOut(depth, parts)
  {
    if parts != [] {
      ClimbsFront(depth, parts);
    }
  }

  lemma ThreeUp()
    ensures !ClimbsOut(1, [".."]) && !ClimbsOut(2, ["..", ".."]) && !ClimbsOut(3, ["..", "..", ".."])
  {
    assert ["..", "..", ".."][1..] == ["..", ".."] && ["..", ".."][1..] == [".."] && [".."][1..] == [];
    hide ClimbsOut;
    NoClimb(0, []);
    NoClimb(1, [".."]);
    NoClimb(2, ["..", ".."]);
    NoClimb(3, ["..", "..", ".."]);
  }

  lemma BackAgain()
    ensures !ClimbsOut(0, ["a", "b", "l", ".."])
  {
    var target := ["a", "b", "l", ".."];
    assert target[1..] == ["b", "l", ".."] && ["b", "l", ".."][1..] == ["l", ".."] && ["l", ".."][1..] == [".."] && [".."][1..] == [];
    hide ClimbsOut;
    NoClimb(2, []);
    NoClimb(3, [".."]);
    NoClimb(2, ["l", ".."]);
    NoClimb(1, ["b", "l", ".."]);
    NoClimb(0, target);
  }

  lemma JoinCons(part: string, rest: seq<string>, s: string)
    requires rest != [] && Joined(rest, '/') == s
    ensures Joined([part] + rest, '/') == part + "/" + s
  {
    assert ([part] + rest)[1..] == rest;
  }

  lemma DottedRead(host: Host)
    requires Verbatim(host)
    ensures Components(Slashed(DOTTED.path)) == [".", "l"] && PlaceOf(host, DOTTED) == ["l"]
    ensures TargetOf(host, DOTTED) == ["..", "x"] && ClassOf(DOTTED).IsSymlink?
    ensures !Plain(host, DOTTED)
  {
    hide Verbatim, PlaceOf, TargetOf, ClassOf, Components, Slashed;
    PlainLiterals();
    var path, target := [".", "l"], ["..", "x"];
    assert target[1..] == ["x"] && ["x"][1..] == [];
    JoinCons(".", ["l"], "l");
    JoinCons("..", ["x"], "x");
    NoClimb(1, []);
    NoClimb(0, ["x"]);
    NoClimb(1, target);
    LinkEntry(host, DOTTED, path, target);
    assert path[1..] == ["l"] && ["l"][1..] == [];
  }

  lemma RootRead(host: Host)
    requires Verbatim(host)
    ensures Components(Slashed(ROOT.path)) == ["a", "b", "l"] && PlaceOf(host, ROOT) == ["a", "b", "l"]
    ensures TargetOf(host, ROOT) == ["..", ".."] && ClassOf(ROOT).IsSymlink?
    ensures Plain(host, ROOT)
  {
    hide Verbatim, PlaceOf, TargetOf, ClassOf, Components, Slashed;
    PlainLiterals();
    var path, target := ["a", "b", "l"], ["..", ".."];
    ThreeUp();
    JoinCons("b", ["l"], "l");
    JoinCons("a", ["b", "l"], "b/l");
    JoinCons("..", [".."], "..");
    LinkEntry(host, ROOT, path, target);
    NoDots(path);
  }

  lemma ChainedRead(host: Host)
    requires Verbatim(host)
    ensures Components(Slashed(CHAINED.path)) == ["m"] && PlaceOf(host, CHAINED) == ["m"]
    ensures TargetOf(host, CHAINED) == ["a", "b", "l", ".."] && ClassOf(CHAINED).IsSymlink?
    ensures Plain(host, CHAINED)
  {
    hide Verbatim, PlaceOf, TargetOf, ClassOf, Components, Slashed;
    PlainLiterals();
    var path, target := ["m"], ["a", "b", "l", ".."];
    BackAgain();
    JoinCons("l", [".."], "..");
    JoinCons("b", ["l", ".."], "l/..");
    JoinCons("a", ["b", "l", ".."], "b/l/..");
    LinkEntry(host, CHAINED, path, target);
    NoDots(path);
  }

  lemma NestedRead(host: Host)
    requires Verbatim(host)
    ensures Components(Slashed(NESTED.path)) == ["a", "b", "l", "m"] && PlaceOf(host, NESTED) == ["a", "b", "l", "m"]
    ensures TargetOf(host, NESTED) == ["..", "..", ".."] && ClassOf(NESTED).IsSymlink?
    ensures Plain(host, NESTED)
  {
    hide Verbatim, PlaceOf, TargetOf, ClassOf, Components, Slashed;
    PlainLiterals();
    var path, target := ["a", "b", "l", "m"], ["..", "..", ".."];
    ThreeUp();
    JoinCons("l", ["m"], "m");
    JoinCons("b", ["l", "m"], "l/m");
    JoinCons("a", ["b", "l", "m"], "b/l/m");
    JoinCons("..", [".."], "..");
    JoinCons("..", ["..", ".."], "../..");
    LinkEntry(host, NESTED, path, target);
    NoDots(path);
  }

  // ---------------------------------------------------------------------------------------
  // The three archives
  // ---------------------------------------------------------------------------------------

  /** An accepted link lands behind the directory that its way leads to. */
  lemma LandAt(host: Host, before: LinkMap, e: TarEntry, way: Place, name: string, dir: Place, limit: nat)
    requires ClassOf(e).IsSymlink? && PlaceOf(host, e) == way + [name]
    requires Follow(before, [], way, limit) == Inside(dir) && forall q | q in before :: !Beneath(q, dir + [name])
    ensures Land(host, before, e, limit) == before[dir + [name] := TargetOf(host, e)]
  {
    hide ClassOf, PlaceOf, TargetOf, Follow;
    assert Parent(way + [name]) == way;
  }

  lemma UnpackOne(host: Host, e: TarEntry, way: Place, name: string, limit: nat)
    requires ClassOf(e).IsSymlink? && PlaceOf(host, e) == way + [name] && Names(way)
    ensures Unpacked(host, [e], limit) == map[way + [name] := TargetOf(host, e)]
  {
    FollowNames(map[], [], way, [], limit);
    assert way + [] == way && [] + way == way && [e][..0] == [];
    assert Unpacked(host, [], limit) == map[];
    hide ClassOf, PlaceOf, TargetOf, Follow, Land;
    LandAt(host, map[], e, way, name, way, limit);
  }

  /** A link with a dot in its path: accepted, nothing beneath a link, climbing directories only, and it leads out. */
  lemma DottedLinkLeadsOut(host: Host, limit: nat, hops: nat)
    requires Verbatim(host)
    ensures UnsafeEntries([DOTTED]) == [] && NothingBeneathLinks(host, [DOTTED])
    ensures Unpacked(host, [DOTTED], limit) == map[["l"] := ["..", "x"]]
    ensures AllClimbDirectories(Unpacked(host, [DOTTED], limit)) && !Measured(host, DOTTED) && !PlainPlaces(host, [DOTTED])
    ensures Follow(Unpacked(host, [DOTTED], limit), [], ["l"], hops + 1) == Outside
  {
    DottedRead(host);
    RootLinkLeadsOut(host, DOTTED, "l", limit, hops);
  }

  /** A link in the archive root to a place next to it. */
  lemma RootLinkLeadsOut(host: Host, e: TarEntry, name: string, limit: nat, hops: nat)
    requires ClassOf(e).IsSymlink? && PlaceOf(host, e) == [name] && TargetOf(host, e) == ["..", "x"] && IsName(name)
    ensures UnsafeEntries([e]) == [] && NothingBeneathLinks(host, [e])
    ensures Unpacked(host, [e], limit) == map[[name] := ["..", "x"]]
    ensures AllClimbDirectories(Unpacked(host, [e], limit)) && !Measured(host, e)
    ensures PlainPlaces(host, [e]) <==> Plain(host, e)
    ensures Follow(Unpacked(host, [e], limit), [], [name], hops + 1) == Outside
  {
    hide ClassOf, PlaceOf, TargetOf, Plain;
    assert [] + [name] == [name] && Parent([name]) == [];
    UnpackOne(host, e, [], name, limit);
    OneAccepted(e);
    assert [e][0] == e;
    hide UnsafeEntries, Unpacked;
    var target := ["..", "x"];
    assert target + [] == target;
    ClimbsFront(0, target);
    RootTargetLeads(name, hops);
  }

  lemma BackslashedText()
    ensures Slashed("a\\l") == "a/l" && Components("a\\l") == ["a\\l"] && WithoutDots(["a\\l"]) == ["a\\l"]
  {
    var s := "a\\l";
    assert |Slashed(s)| == 3 && Slashed(s)[0] == 'a' && Slashed(s)[1] == '/' && Slashed(s)[2] == 'l';
    SplitOfPart(s, '/', []);
    assert s != [] && [s][1..] == [];
    assert s !in ["."];
    hide Slashed, Split;
    assert NonEmptyParts([s]) == [s];
  }

  lemma SlashedText()
    ensures Slashed("a/l") == "a/l" && Components("a/l") == ["a", "l"] && WithoutDots(["a", "l"]) == ["a", "l"]
    ensures Slashed("../x") == "../x" && Components("../x") == ["..", "x"]
  {
    hide Slashed, Split, Components, NonEmptyParts;
    assert "a" + "/" + "l" == "a/l" && ".." + "/" + "x" == "../x";
    TwoParts("a", "l");
    TwoParts("..", "x");
    NoDots(["a", "l"]);
  }

  lemma TwoParts(a: string, b: string)
    requires (a == "a" && b == "l") || (a == ".." && b == "x")
    ensures Slashed(a + "/" + b) == a + "/" + b && Components(a + "/" + b) == [a, b]
  {
    hide Slashed, Split, Components, NonEmptyParts;
    PlainLiterals();
    JoinCons(a, [b], b);
    assert [a] + [b] == [a, b];
    PlainText([a, b]);
  }

  lemma BackslashedRead(host: Host)
    requires Verbatim(host)
    ensures PlaceOf(host, BACKSLASHED) == if host.backslash then ["a", "l"] else ["a\\l"]
    ensures TargetOf(host, BACKSLASHED) == ["..", "x"]
  {
    BackslashedText();
    SlashedText();
    ReadVerbatim(host, ["a", "l"]);
    ReadVerbatim(host, ["a\\l"]);
    ReadVerbatim(host, ["..", "x"]);
    hide Verbatim, Slashed, Components, WithoutDots, ReadAll;
  }

  lemma OneUp()
    ensures !ClimbsOut(1, ["..", "x"])
  {
    assert ["..", "x"][1..] == ["x"] && ["x"][1..] == [];
    hide ClimbsOut;
    NoClimb(1, []);
    NoClimb(0, ["x"]);
    NoClimb(1, ["..", "x"]);
  }

  lemma BackslashedAccepted()
    ensures ClassOf(BACKSLASHED).IsSymlink?
  {
    BackslashedText();
    SlashedText();
    OneUp();
    hide Slashed, Components, ClimbsOut, UnsafeEntryPath;
    PlainPath();
  }

  lemma PlainPath()
    ensures UnsafeEntryPath("a/l").None? && !HasControl("../x") && !HasDriveLetter("../x")
  {
    assert "a" + "/" + "l" == "a/l" && ".." + "/" + "x" == "../x";
    hide Split, Components, NonEmptyParts;
    PlainLiterals();
    JoinCons("a", ["l"], "l");
    JoinCons("..", ["x"], "x");
    assert ["a"] + ["l"] == ["a", "l"] && [".."] + ["x"] == ["..", "x"];
    PlainText(["a", "l"]);
    PlainText(["..", "x"]);
  }

  /** A link whose name holds a `\`: where that separates components the link is measured as the gate does and stays
      inside; where it does not, the link lands in the archive root and leads out. */
  lemma BackslashedLinkLeadsOut(host: Host, limit: nat, hops: nat)
    requires Verbatim(host)
    ensures UnsafeEntries([BACKSLASHED]) == [] && NothingBeneathLinks(host, [BACKSLASHED])
    ensures Measured(host, BACKSLASHED) <==> host.backslash
    ensures !host.backslash ==>
      && Unpacked(host, [BACKSLASHED], limit) == map[["a\\l"] := ["..", "x"]]
      && AllClimbDirectories(Unpacked(host, [BACKSLASHED], limit)) && !PlainPlaces(host, [BACKSLASHED])
      && Follow(Unpacked(host, [BACKSLASHED], limit), [], ["a\\l"], hops + 1) == Outside
  {
    BackslashedAccepted();
    OneUp();
    BackslashedRead(host);
    OneAccepted(BACKSLASHED);
    OneBeneath(host, BACKSLASHED);
    assert Parent(["a", "l"]) == ["a"];
    assert !host.backslash ==> !Plain(host, BACKSLASHED) by { assert BACKSLASHED.path[1] == '\\'; }
    hide Verbatim, ClassOf, PlaceOf, TargetOf, Plain, UnsafeEntries, NothingBeneathLinks, Unpacked, PlainPlaces, Follow,
      AllClimbDirectories, ClimbsOut;
    if !host.backslash {
      RootLinkLeadsOut(host, BACKSLASHED, "a\\l", limit, hops);
    }
  }

  lemma OneBeneath(host: Host, e: TarEntry)
    ensures NothingBeneathLinks(host, [e])
  {
    hide ClassOf, PlaceOf;
  }

  lemma RootTargetLeads(name: string, hops: nat)
    requires IsName(name)
    ensures Follow(map[[name] := ["..", "x"]], [], [name], hops + 1) == Outside
  {
    assert [] + [name] == [name] && ["..", "x"] + [name][1..] == ["..", "x"];
  }

  lemma RootUnpacked(host: Host, limit: nat)
    requires Verbatim(host)
    ensures Unpacked(host, [ROOT], limit) == map[["a", "b", "l"] := ["..", ".."]]
  {
    hide *;
    RootRead(host);
    RootParts();
    UnpackOne(host, ROOT, ["a", "b"], "l", limit);
  }

  lemma RootParts()
    ensures Names(["a", "b"]) && ["a", "b"] + ["l"] == ["a", "b", "l"]
  {
    assert IsName("a") && IsName("b");
  }

  lemma UnpackTwo(host: Host, first: TarEntry, e: TarEntry, limit: nat)
    ensures Unpacked(host, [first, e], limit) == Land(host, Unpacked(host, [first], limit), e, limit)
  {
    assert [first, e][..1] == [first];
    hide Land;
  }

  lemma TwoAccepted(first: TarEntry, e: TarEntry)
    ensures UnsafeEntries([first, e]) == [] <==>
      UnsafeEntries([first]) == [] && !ClassOf(e).IsUnsafe? && !Repeats([first, e], 1)
  {
    assert [first, e][..1] == [first];
    hide ClassOf, Repeats;
  }

  lemma OneAccepted(e: TarEntry)
    requires ClassOf(e).IsSymlink?
    ensures UnsafeEntries([e]) == []
  {
    assert [e][..0] == [];
    hide ClassOf;
  }

  /** Two accepted links at different plain places. */
  lemma PairAccepted(host: Host, first: TarEntry, e: TarEntry)
    requires ClassOf(first).IsSymlink? && ClassOf(e).IsSymlink? && PlaceOf(host, e) != []
    requires Components(Slashed(first.path)) != Components(Slashed(e.path)) && Plain(host, first) && Plain(host, e)
    ensures UnsafeEntries([first, e]) == [] && PlainPlaces(host, [first, e])
  {
    OneAccepted(first);
    assert Slashed(first.path) != Slashed(e.path);
    TwoAccepted(first, e);
    hide Verbatim, ClassOf, PlaceOf, Components, Slashed, UnsafeEntries, Unpacked, Follow, Plain;
  }

  lemma PairBeneath(host: Host, first: TarEntry, e: TarEntry)
    requires ClassOf(first).IsSymlink? && ClassOf(e).IsSymlink? && PlaceOf(host, first) != [] && PlaceOf(host, e) != []
    ensures NothingBeneathLinks(host, [first, e]) <==>
      !Beneath(PlaceOf(host, first), PlaceOf(host, e)) && !Beneath(PlaceOf(host, e), PlaceOf(host, first))
  {
    var entries := [first, e];
    hide Verbatim, ClassOf, PlaceOf;
    assert entries[0] == first && entries[1] == e;
  }

  lemma PairByPath(host: Host, first: TarEntry, e: TarEntry)
    requires ClassOf(first).IsSymlink? && ClassOf(e).IsSymlink? && PlaceOf(host, first) != [] && PlaceOf(host, e) != []
    ensures LinksOf(host, [first, e]) == map[PlaceOf(host, first) := TargetOf(host, first)][PlaceOf(host, e) := TargetOf(host, e)]
  {
    hide Verbatim, ClassOf, PlaceOf, TargetOf;
    assert [first, e][..1] == [first] && [first][..0] == [];
    assert LinksOf(host, []) == map[];
    assert LinksOf(host, [first]) == map[PlaceOf(host, first) := TargetOf(host, first)];
    assert [first, e][1] == e;
  }

  const CHAIN_LINKS: LinkMap := map[["a", "b", "l"] := ["..", ".."], ["m"] := ["a", "b", "l", ".."]]

  /** The way to the link, and through it to the root. */
  lemma ThroughRoot(links: LinkMap, rest: seq<string>, hops: nat)
    requires ["a", "b", "l"] in links && links[["a", "b", "l"]] == ["..", ".."]
    requires ["a"] !in links && ["a", "b"] !in links
    ensures Follow(links, [], ["a", "b", "l"] + rest, hops + 1) == Follow(links, [], rest, hops)
  {
    var way: seq<string> := ["a", "b"];
    assert way[..1] == ["a"] && way[..2] == ["a", "b"] && [] + way[..1] == ["a"] && [] + way[..2] == ["a", "b"];
    FollowNames(links, [], way, ["l"] + rest, hops + 1);
    assert way + (["l"] + rest) == ["a", "b", "l"] + rest && [] + way == way && way + ["l"] == ["a", "b", "l"];
    assert (["l"] + rest)[1..] == rest;
    Up(links, rest, hops);
  }

  lemma Up(links: LinkMap, rest: seq<string>, hops: nat)
    ensures Follow(links, ["a", "b"], ["..", ".."] + rest, hops) == Follow(links, [], rest, hops)
  {
    var parts := ["..", ".."] + rest;
    assert parts[1..] == [".."] + rest && ([".."] + rest)[1..] == rest;
    assert ["a", "b"][..1] == ["a"] && ["a"][..0] == [];
    assert Follow(links, ["a", "b"], parts, hops) == Follow(links, ["a"], [".."] + rest, hops);
  }

  /** A chain of two links, each accepted and in a plain place: the second climbs out of the first, and leads out. */
  lemma ChainedLinkLeadsOut(host: Host, limit: nat, hops: nat)
    requires Verbatim(host)
    ensures UnsafeEntries([ROOT, CHAINED]) == [] && PlainPlaces(host, [ROOT, CHAINED]) && NothingBeneathLinks(host, [ROOT, CHAINED])
    ensures Unpacked(host, [ROOT, CHAINED], limit) == CHAIN_LINKS && AllPass(CHAIN_LINKS) && !AllClimbDirectories(CHAIN_LINKS)
    ensures Follow(CHAIN_LINKS, [], ["m"], hops + 2) == Outside
  {
    ChainedAccepted(host);
    ChainedUnpacked(host, limit);
    ChainedPass();
    ChainedOut(hops);
  }

  lemma ChainedAccepted(host: Host)
    requires Verbatim(host)
    ensures UnsafeEntries([ROOT, CHAINED]) == [] && PlainPlaces(host, [ROOT, CHAINED]) && NothingBeneathLinks(host, [ROOT, CHAINED])
  {
    RootRead(host);
    ChainedRead(host);
    hide Verbatim, ClassOf, PlaceOf, TargetOf, Components, Slashed, UnsafeEntries, NothingBeneathLinks, PlainPlaces, Plain;
    assert ["a", "b", "l"][0] != ["m"][0];
    PairAccepted(host, ROOT, CHAINED);
    PairBeneath(host, ROOT, CHAINED);
  }

  lemma ChainedUnpacked(host: Host, limit: nat)
    requires Verbatim(host)
    ensures Unpacked(host, [ROOT, CHAINED], limit) == CHAIN_LINKS
  {
    hide *;
    ChainedRead(host);
    RootUnpacked(host, limit);
    UnpackTwo(host, ROOT, CHAINED, limit);
    ChainedLands(limit);
    PairMaps();
    LandAt(host, map[["a", "b", "l"] := ["..", ".."]], CHAINED, [], "m", [], limit);
  }

  lemma PairMaps()
    ensures CHAIN_LINKS == map[["a", "b", "l"] := ["..", ".."]][["m"] := ["a", "b", "l", ".."]]
    ensures NESTED_LINKS == map[["a", "b", "l"] := ["..", ".."]][["m"] := ["..", "..", ".."]]
  {
  }

  lemma ChainedLands(limit: nat)
    ensures Follow(map[["a", "b", "l"] := ["..", ".."]], [], [], limit) == Inside([])
    ensures [] + ["m"] == ["m"] && !Beneath(["a", "b", "l"], ["m"])
  {
    assert ["a", "b", "l"][0] != ["m"][0];
  }

  lemma ChainedPass()
    ensures AllPass(CHAIN_LINKS) && !AllClimbDirectories(CHAIN_LINKS)
  {
    ThreeUp();
    BackAgain();
    var target := ["a", "b", "l", ".."];
    hide ClimbsOut;
    assert Parent(["m"]) == [] && Parent(["a", "b", "l"]) == ["a", "b"];
    assert [] + ["a"] == ["a"] && ["a"] + ["b"] == ["a", "b"] && ["a", "b"] + ["l"] == ["a", "b", "l"];
    assert target[1..][1..][1..] == [".."];
    assert !ClimbsDirectories(CHAIN_LINKS, ["a", "b"], target[1..][1..]);
    assert !ClimbsDirectories(CHAIN_LINKS, ["a"], target[1..]);
    assert !ClimbsDirectories(CHAIN_LINKS, [], target);
    assert ["m"] in CHAIN_LINKS;
  }

  lemma ChainedOut(hops: nat)
    ensures Follow(CHAIN_LINKS, [], ["m"], hops + 2) == Outside
  {
    assert [] + ["m"] == ["m"] && ["a", "b", "l", ".."] + ["m"][1..] == ["a", "b", "l"] + [".."];
    ThroughRoot(CHAIN_LINKS, [".."], hops);
    assert Follow(CHAIN_LINKS, [], [".."], hops) == Outside;
  }

  const NESTED_LINKS: LinkMap := map[["a", "b", "l"] := ["..", ".."], ["m"] := ["..", "..", ".."]]

  /** A link beneath a link, both accepted, in plain places and climbing directories only: the second lands in the
      archive root and leads out, although measured from its own path it stays inside. */
  lemma NestedLinkLeadsOut(host: Host, limit: nat, hops: nat)
    requires Verbatim(host)
    requires limit > 0
    ensures var entries := [ROOT, NESTED];
      && UnsafeEntries(entries) == [] && PlainPlaces(host, entries) && !NothingBeneathLinks(host, entries)
      && Unpacked(host, entries, limit) == NESTED_LINKS
      && AllClimbDirectories(LinksOf(host, entries)) && AllClimbDirectories(NESTED_LINKS)
      && Follow(NESTED_LINKS, [], ["m"], hops + 1) == Outside
      && Contained(LinksOf(host, entries))
  {
    NestedAccepted(host);
    NestedUnpacked(host, limit);
    NestedByPath(host);
    NestedOut(hops);
  }

  lemma NestedAccepted(host: Host)
    requires Verbatim(host)
    ensures UnsafeEntries([ROOT, NESTED]) == [] && PlainPlaces(host, [ROOT, NESTED]) && !NothingBeneathLinks(host, [ROOT, NESTED])
  {
    RootRead(host);
    NestedRead(host);
    hide Verbatim, ClassOf, PlaceOf, TargetOf, Components, Slashed, UnsafeEntries, NothingBeneathLinks, PlainPlaces, Plain;
    assert |["a", "b", "l", "m"]| != |["a", "b", "l"]|;
    PairAccepted(host, ROOT, NESTED);
    PairBeneath(host, ROOT, NESTED);
  }

  lemma NestedUnpacked(host: Host, limit: nat)
    requires Verbatim(host)
    requires limit > 0
    ensures Unpacked(host, [ROOT, NESTED], limit) == NESTED_LINKS
  {
    hide *;
    NestedRead(host);
    RootUnpacked(host, limit);
    UnpackTwo(host, ROOT, NESTED, limit);
    ChainedLands(limit);
    NestedLands(map[["a", "b", "l"] := ["..", ".."]], limit);
    PairMaps();
    LandAt(host, map[["a", "b", "l"] := ["..", ".."]], NESTED, ["a", "b", "l"], "m", [], limit);
  }

  lemma NestedLands(before: LinkMap, limit: nat)
    requires before == map[["a", "b", "l"] := ["..", ".."]] && limit > 0
    ensures Follow(before, [], ["a", "b", "l"], limit) == Inside([])
    ensures ["a", "b", "l"] + ["m"] == ["a", "b", "l", "m"]
  {
    assert ["a", "b", "l"] + [] == ["a", "b", "l"];
    ThroughRoot(before, [], limit - 1);
  }

  lemma NestedByPath(host: Host)
    requires Verbatim(host)
    ensures AllClimbDirectories(LinksOf(host, [ROOT, NESTED])) && Contained(LinksOf(host, [ROOT, NESTED]))
  {
    RootRead(host);
    NestedRead(host);
    PairByPath(host, ROOT, NESTED);
    hide Verbatim, ClassOf, PlaceOf, TargetOf, Components, Slashed, LinksOf;
    NestedPass(LinksOf(host, [ROOT, NESTED]));
    hide AllClimbDirectories, Contained, AllPass;
    GateIsExact(LinksOf(host, [ROOT, NESTED]));
  }

  lemma NestedPass(links: LinkMap)
    requires links == map[["a", "b", "l"] := ["..", ".."]][["a", "b", "l", "m"] := ["..", "..", ".."]]
    ensures AllClimbDirectories(links) && AllPass(links)
  {
    ThreeUp();
    assert Parent(["a", "b", "l"]) == ["a", "b"] && Parent(["a", "b", "l", "m"]) == ["a", "b", "l"];
    forall p | p in links ensures ClimbsDirectories(links, Parent(p), links[p]) {
      FirstClimbsDirectories(links, Parent(p), links[p]);
    }
  }

  lemma NestedOut(hops: nat)
    ensures AllClimbDirectories(NESTED_LINKS)
    ensures Follow(NESTED_LINKS, [], ["m"], hops + 1) == Outside
  {
    forall p | p in NESTED_LINKS ensures ClimbsDirectories(NESTED_LINKS, Parent(p), NESTED_LINKS[p]) {
      FirstClimbsDirectories(NESTED_LINKS, Parent(p), NESTED_LINKS[p]);
    }
    assert [] + ["m"] == ["m"] && (["..", "..", ".."] + ["m"][1..])[0] == "..";
  }
}
