/** Where the symbolic links of an archive lead. The gates of crates/ost-artifact/src/store.rs and
    crates/ost-build/src/package.rs judge every link by its own text; here a path is followed link by link, as a
    file system does, and the two are compared. */
module Links {
  import opened Prelude
  import opened Text
  import opened Archive

  /** Components from the archive root, without `.`. */
  type Place = seq<string>

  /** Each link by the components of its path, with the components of its target. */
  type LinkMap = map<Place, seq<string>>

  datatype Landing = Inside(dir: Place) | Outside | TooManyLinks

  predicate IsName(part: string) {
    part != "." && part != ".."
  }

  /** Follow a path from a directory; a link is replaced by its target, at most `hops` times. */
  function Follow(links: LinkMap, dir: Place, parts: seq<string>, hops: nat): Landing
    decreases hops, |parts|
  {
    if parts == [] then Inside(dir)
    else if parts[0] == "." then Follow(links, dir, parts[1..], hops)
    else if parts[0] == ".." then
      if dir == [] then Outside else Follow(links, dir[..|dir| - 1], parts[1..], hops)
    else if dir + [parts[0]] !in links then Follow(links, dir + [parts[0]], parts[1..], hops)
    else if hops == 0 then TooManyLinks
    else Follow(links, dir, links[dir + [parts[0]]] + parts[1..], hops - 1)
  }

  /** No link leads out of the archive, however long it is followed. */
  ghost predicate Contained(links: LinkMap) {
    forall p, hops: nat | p in links :: !Follow(links, Parent(p), links[p], hops).Outside?
  }

  ghost predicate ContainedFor(links: LinkMap, n: nat) {
    forall p, hops: nat | p in links && hops < n :: !Follow(links, Parent(p), links[p], hops).Outside?
  }

  /** What both gates ask of every link: no prefix of its target climbs above the root. */
  ghost predicate AllPass(links: LinkMap) {
    forall p | p in links :: !ClimbsOut(|Parent(p)|, links[p])
  }

  /** Walking a target by its text alone from `dir`, every `..` leaves a directory whose own name is no link. When
      `dir` is itself clear of links, as in every unpacked archive (`UnpackedIsGrounded`), no `..` leaves a directory
      that was reached through one. */
  predicate ClimbsDirectories(links: LinkMap, dir: Place, parts: seq<string>)
    decreases |parts|
  {
    if parts == [] then true
    else if parts[0] == "." then ClimbsDirectories(links, dir, parts[1..])
    else if parts[0] == ".." then dir == [] || ClimbsDirectories(links, dir[..|dir| - 1], parts[1..])
    else if dir + [parts[0]] in links then ".." !in parts[1..]
    else ClimbsDirectories(links, dir + [parts[0]], parts[1..])
  }

  predicate AllClimbDirectories(links: LinkMap) {
    forall p | p in links :: ClimbsDirectories(links, Parent(p), links[p])
  }

  /** Every `..` of the target comes before its first name, as in `../lib/libz.so.1`. */
  predicate ClimbsFirst(parts: seq<string>) {
    parts == [] || (if parts[0] == "." || parts[0] == ".." then ClimbsFirst(parts[1..]) else ".." !in parts[1..])
  }

  /** Targets of that shape climb directories only, whatever links there are. */
  lemma {:induction false} FirstClimbsDirectories(links: LinkMap, dir: Place, parts: seq<string>)
    requires ClimbsFirst(parts)
    ensures ClimbsDirectories(links, dir, parts)
    decreases |parts|
  {
    if parts != [] {
      var rest := parts[1..];
      if parts[0] == "." {
        FirstClimbsDirectories(links, dir, rest);
      } else if parts[0] == ".." {
        if dir != [] {
          FirstClimbsDirectories(links, dir[..|dir| - 1], rest);
        }
      } else {
        PlainClimbsNothing(links, dir + [parts[0]], rest);
      }
    }
  }

  lemma {:induction false} PlainClimbsNothing(links: LinkMap, dir: Place, parts: seq<string>)
    requires ".." !in parts
    ensures ClimbsDirectories(links, dir, parts)
    decreases |parts|
  {
    if parts != [] {
      PlainClimbsNothing(links, if parts[0] == "." then dir else dir + [parts[0]], parts[1..]);
    }
  }

  // ---------------------------------------------------------------------------------------
  // Following one part after the other
  // ---------------------------------------------------------------------------------------

  /** Followed for at most that many links, the path leads out. */
  ghost predicate Leaves(links: LinkMap, dir: Place, parts: seq<string>, hops: nat) {
    exists h: nat | h <= hops :: Follow(links, dir, parts, h).Outside?
  }

  lemma LeavesLonger(links: LinkMap, dir: Place, parts: seq<string>, h: nat, hops: nat)
    requires Leaves(links, dir, parts, h) && h <= hops
    ensures Leaves(links, dir, parts, hops)
  {
  }

  /** A path that leads out does so in its first part, or from where its first part leads. */
  lemma {:induction false} LeavesInPart(links: LinkMap, dir: Place, a: seq<string>, b: seq<string>, hops: nat)
    requires Follow(links, dir, a + b, hops).Outside?
    ensures Leaves(links, dir, a, hops) || exists d :: Leaves(links, d, b, hops)
    decreases hops, |a|
  {
    if a == [] {
      assert a + b == b;
      assert Leaves(links, dir, b, hops);
    } else {
      var rest := a[1..];
      assert (a + b)[0] == a[0] && (a + b)[1..] == rest + b;
      if a[0] == "." {
        LeavesInPart(links, dir, rest, b, hops);
        LeavesOn(links, dir, dir, a, hops);
      } else if a[0] == ".." {
        if dir == [] {
          assert Follow(links, dir, a, hops).Outside?;
        } else {
          LeavesInPart(links, dir[..|dir| - 1], rest, b, hops);
          LeavesOn(links, dir, dir[..|dir| - 1], a, hops);
        }
      } else if dir + [a[0]] !in links {
        LeavesInPart(links, dir + [a[0]], rest, b, hops);
        LeavesOn(links, dir, dir + [a[0]], a, hops);
      } else {
        LeavesBehindLink(links, dir, a, b, hops);
      }
    }
  }

  /** One step that follows no link. */
  lemma LeavesOn(links: LinkMap, dir: Place, next: Place, a: seq<string>, hops: nat)
    requires a != [] && forall h: nat :: Follow(links, dir, a, h) == Follow(links, next, a[1..], h)
    ensures Leaves(links, next, a[1..], hops) ==> Leaves(links, dir, a, hops)
  {
    if h: nat :| h <= hops && Follow(links, next, a[1..], h).Outside? {
      assert Follow(links, dir, a, h).Outside?;
    }
  }

  lemma LeavesBehindLink(links: LinkMap, dir: Place, a: seq<string>, b: seq<string>, hops: nat)
    requires Follow(links, dir, a + b, hops).Outside? && a != [] && a[0] != "." && a[0] != ".." && dir + [a[0]] in links
    ensures Leaves(links, dir, a, hops) || exists d :: Leaves(links, d, b, hops)
    decreases hops, |a|, 0
  {
    var target, rest := links[dir + [a[0]]], a[1..];
    assert (a + b)[0] == a[0] && (a + b)[1..] == rest + b;
    assert target + (rest + b) == (target + rest) + b;
    LeavesInPart(links, dir, target + rest, b, hops - 1);
    if Leaves(links, dir, target + rest, hops - 1) {
      var h: nat :| h <= hops - 1 && Follow(links, dir, target + rest, h).Outside?;
      assert Follow(links, dir, a, h + 1).Outside?;
    } else {
      var d :| Leaves(links, d, b, hops - 1);
      LeavesLonger(links, d, b, hops - 1, hops);
    }
  }

  lemma LinkStays(links: LinkMap, p: Place, hops: nat)
    requires ContainedFor(links, hops + 1) && p in links
    ensures !Leaves(links, Parent(p), links[p], hops)
  {
  }

  /** A path without `..` leads out only through a link that does. */
  lemma {:induction false} PlainPathStays(links: LinkMap, dir: Place, parts: seq<string>, hops: nat)
    requires ContainedFor(links, hops) && ".." !in parts
    ensures !Follow(links, dir, parts, hops).Outside?
    decreases hops, |parts|
  {
    if parts != [] {
      var p, rest := dir + [parts[0]], parts[1..];
      if parts[0] == "." {
        PlainPathStays(links, dir, rest, hops);
      } else if p !in links {
        PlainPathStays(links, p, rest, hops);
      } else if hops > 0 {
        LinkStays(links, p, hops - 1);
        PlainBehindLink(links, dir, links[p], rest, hops - 1);
      }
    }
  }

  lemma PlainBehindLink(links: LinkMap, dir: Place, target: seq<string>, rest: seq<string>, hops: nat)
    requires ContainedFor(links, hops + 1) && ".." !in rest
    requires !Leaves(links, dir, target, hops)
    ensures !Follow(links, dir, target + rest, hops).Outside?
    decreases hops, |rest| + 1
  {
    if Follow(links, dir, target + rest, hops).Outside? {
      LeavesInPart(links, dir, target, rest, hops);
      var d :| Leaves(links, d, rest, hops);
      var h: nat :| h <= hops && Follow(links, d, rest, h).Outside?;
      PlainPathStays(links, d, rest, h);
    }
  }

  // ---------------------------------------------------------------------------------------
  // Following a target and reading its text
  // ---------------------------------------------------------------------------------------

  function Step(depth: int, part: string): int {
    if part == "." then depth else if part == ".." then depth - 1 else depth + 1
  }

  lemma {:induction false} LevelFront(depth: int, parts: seq<string>)
    requires parts != []
    ensures Level(depth, parts) == Level(Step(depth, parts[0]), parts[1..])
  {
    var n := |parts| - 1;
    if n > 0 {
      LevelFront(depth, parts[..n]);
      assert parts[..n][1..] == parts[1..][..n - 1];
      assert parts[1..][n - 1] == parts[n] && parts[..n][0] == parts[0];
    } else {
      assert parts[..0] == [] && parts[1..] == [];
    }
  }

  /** Climbing out, part by part from the front. */
  lemma ClimbsFront(depth: nat, parts: seq<string>)
    requires parts != []
    ensures ClimbsOut(depth, parts) <==>
      Step(depth, parts[0]) < 0 || ClimbsOut(Step(depth, parts[0]), parts[1..])
  {
    var next := Step(depth, parts[0]);
    forall k | 0 <= k < |parts| ensures Level(depth, parts[..k + 1]) == Level(next, parts[1..][..k]) {
      LevelFront(depth, parts[..k + 1]);
      assert parts[..k + 1][0] == parts[0] && parts[..k + 1][1..] == parts[1..][..k];
    }
    assert parts[1..][..0] == [] && parts[..0] == [];
    if ClimbsOut(depth, parts) {
      var k :| 0 <= k <= |parts| && Level(depth, parts[..k]) < 0;
      assert Level(next, parts[1..][..k - 1]) < 0;
    }
    if next < 0 {
      assert Level(depth, parts[..1]) < 0;
    } else if ClimbsOut(next, parts[1..]) {
      var k :| 0 <= k <= |parts[1..]| && Level(next, parts[1..][..k]) < 0;
      assert Level(depth, parts[..k + 1]) < 0;
    }
  }

  lemma {:induction false} PlainNeverClimbs(depth: nat, parts: seq<string>)
    requires ".." !in parts
    ensures !ClimbsOut(depth, parts)
    decreases |parts|
  {
    if parts != [] {
      ClimbsFront(depth, parts);
      PlainNeverClimbs(Step(depth, parts[0]), parts[1..]);
    }
  }

  /** A target that passes the gate and climbs directories only stays inside, if shorter chains do. */
  lemma {:induction false} TargetStays(links: LinkMap, dir: Place, parts: seq<string>, hops: nat)
    requires ContainedFor(links, hops) && !ClimbsOut(|dir|, parts) && ClimbsDirectories(links, dir, parts)
    ensures !Follow(links, dir, parts, hops).Outside?
    decreases |parts|
  {
    if parts != [] {
      var p, rest := dir + [parts[0]], parts[1..];
      ClimbsFront(|dir|, parts);
      if parts[0] == "." {
        TargetStays(links, dir, rest, hops);
      } else if parts[0] == ".." {
        TargetStays(links, dir[..|dir| - 1], rest, hops);
      } else if p !in links {
        TargetStays(links, p, rest, hops);
      } else if hops > 0 {
        LinkStays(links, p, hops - 1);
        PlainBehindLink(links, dir, links[p], rest, hops - 1);
      }
    }
  }

  /** A target that does not pass the gate, but climbs directories only, really leads out. */
  lemma {:induction false} ClimbIsReal(links: LinkMap, dir: Place, parts: seq<string>, hops: nat)
    requires ClimbsOut(|dir|, parts) && ClimbsDirectories(links, dir, parts)
    ensures Follow(links, dir, parts, hops).Outside?
    decreases |parts|
  {
    if parts != [] {
      var p, rest := dir + [parts[0]], parts[1..];
      ClimbsFront(|dir|, parts);
      if parts[0] == "." {
        ClimbIsReal(links, dir, rest, hops);
      } else if parts[0] == ".." {
        if dir != [] {
          ClimbIsReal(links, dir[..|dir| - 1], rest, hops);
        }
      } else if p in links {
        PlainNeverClimbs(|p|, rest);
      } else {
        ClimbIsReal(links, p, rest, hops);
      }
    }
  }

  // ---------------------------------------------------------------------------------------
  // What the gates are worth
  // ---------------------------------------------------------------------------------------

  lemma {:induction false} PassingContains(links: LinkMap, n: nat)
    requires AllPass(links) && AllClimbDirectories(links)
    ensures ContainedFor(links, n)
  {
    if n > 0 {
      PassingContains(links, n - 1);
      forall p | p in links ensures !Follow(links, Parent(p), links[p], n - 1).Outside? {
        TargetStays(links, Parent(p), links[p], n - 1);
      }
    }
  }

  /** Whenever no target climbs out of a link, judging each link by its own text is exact: no link leads out of the
      archive if and only if every one of them passes the gate. */
  lemma GateIsExact(links: LinkMap)
    requires AllClimbDirectories(links)
    ensures Contained(links) <==> AllPass(links)
  {
    if AllPass(links) {
      forall p, hops: nat | p in links ensures !Follow(links, Parent(p), links[p], hops).Outside? {
        PassingContains(links, hops + 1);
      }
    }
    if Contained(links) {
      forall p | p in links ensures !ClimbsOut(|Parent(p)|, links[p]) {
        if ClimbsOut(|Parent(p)|, links[p]) {
          ClimbIsReal(links, Parent(p), links[p], 0);
          assert false;
        }
      }
    }
  }

  // ---------------------------------------------------------------------------------------
  // The exact condition, whatever the targets
  // ---------------------------------------------------------------------------------------

  /** Walking a target from `dir`, every `..` leaves a directory inside, where each name before it leads to the
      directory that it really reaches within `hops` links.  A name that leads out or nowhere ends the walk: what a
      link does wrong is not held against those that pass through it. */
  predicate Stays(links: LinkMap, dir: Place, parts: seq<string>, hops: nat)
    decreases |parts|
  {
    if parts == [] then true
    else if parts[0] == "." then Stays(links, dir, parts[1..], hops)
    else if parts[0] == ".." then dir != [] && Stays(links, dir[..|dir| - 1], parts[1..], hops)
    else
      var reached := Follow(links, dir, [parts[0]], hops);
      reached.Inside? ==> Stays(links, reached.dir, parts[1..], hops)
  }

  ghost predicate AllStay(links: LinkMap) {
    forall p, hops: nat | p in links :: Stays(links, Parent(p), links[p], hops)
  }

  /** More links allowed change nothing for a path that has arrived, or has left. */
  lemma {:induction false} FollowLonger(links: LinkMap, dir: Place, parts: seq<string>, h: nat, hops: nat)
    requires h <= hops && !Follow(links, dir, parts, h).TooManyLinks?
    ensures Follow(links, dir, parts, hops) == Follow(links, dir, parts, h)
    decreases h, |parts|
  {
    if parts != [] {
      var p, rest := dir + [parts[0]], parts[1..];
      if parts[0] == "." {
        FollowLonger(links, dir, rest, h, hops);
      } else if parts[0] == ".." {
        if dir != [] {
          FollowLonger(links, dir[..|dir| - 1], rest, h, hops);
        }
      } else if p !in links {
        FollowLonger(links, p, rest, h, hops);
      } else {
        FollowLonger(links, dir, links[p] + rest, h - 1, hops - 1);
      }
    }
  }

  /** A path is followed part by part: what the first part leaves of the links allowed is for the second. */
  lemma {:induction false} FollowParts(links: LinkMap, dir: Place, a: seq<string>, b: seq<string>, hops: nat)
    returns (left: nat)
    ensures left <= hops
    ensures var reached := Follow(links, dir, a, hops);
      Follow(links, dir, a + b, hops) == if reached.Inside? then Follow(links, reached.dir, b, left) else reached
    decreases hops, |a|
  {
    left := hops;
    if a == [] {
      assert a + b == b;
    } else {
      var p, rest := dir + [a[0]], a[1..];
      assert (a + b)[0] == a[0] && (a + b)[1..] == rest + b;
      if a[0] == "." {
        left := FollowParts(links, dir, rest, b, hops);
      } else if a[0] == ".." {
        if dir != [] {
          left := FollowParts(links, dir[..|dir| - 1], rest, b, hops);
        }
      } else if p !in links {
        left := FollowParts(links, p, rest, b, hops);
      } else if hops > 0 {
        assert links[p] + (rest + b) == (links[p] + rest) + b;
        left := FollowParts(links, dir, links[p] + rest, b, hops - 1);
      }
    }
  }

  lemma {:induction false} StaysSooner(links: LinkMap, dir: Place, parts: seq<string>, h: nat, hops: nat)
    requires h <= hops && Stays(links, dir, parts, hops)
    ensures Stays(links, dir, parts, h)
    decreases |parts|
  {
    if parts != [] {
      if parts[0] == "." {
        StaysSooner(links, dir, parts[1..], h, hops);
      } else if parts[0] == ".." {
        StaysSooner(links, dir[..|dir| - 1], parts[1..], h, hops);
      } else if Follow(links, dir, [parts[0]], h).Inside? {
        FollowLonger(links, dir, [parts[0]], h, hops);
        StaysSooner(links, Follow(links, dir, [parts[0]], h).dir, parts[1..], h, hops);
      }
    }
  }

  /** A name alone does not lead out, if shorter chains do not. */
  lemma NameStays(links: LinkMap, dir: Place, name: string, hops: nat)
    requires ContainedFor(links, hops) && IsName(name)
    ensures !Follow(links, dir, [name], hops).Outside?
  {
    PlainPathStays(links, dir, [name], hops);
  }

  lemma {:induction false} StayingTargetStays(links: LinkMap, dir: Place, parts: seq<string>, hops: nat)
    requires ContainedFor(links, hops) && Stays(links, dir, parts, hops)
    ensures !Follow(links, dir, parts, hops).Outside?
    decreases |parts|
  {
    if parts != [] {
      var rest := parts[1..];
      if parts[0] == "." {
        StayingTargetStays(links, dir, rest, hops);
      } else if parts[0] == ".." {
        StayingTargetStays(links, dir[..|dir| - 1], rest, hops);
      } else {
        assert [parts[0]] + rest == parts;
        NameStays(links, dir, parts[0], hops);
        var left := FollowParts(links, dir, [parts[0]], rest, hops);
        var reached := Follow(links, dir, [parts[0]], hops);
        if reached.Inside? {
          StaysSooner(links, reached.dir, rest, left, hops);
          StayingTargetStays(links, reached.dir, rest, left);
        }
      }
    }
  }

  lemma {:induction false} StayingContains(links: LinkMap, n: nat)
    requires AllStay(links)
    ensures ContainedFor(links, n)
  {
    if n > 0 {
      StayingContains(links, n - 1);
      forall p | p in links ensures !Follow(links, Parent(p), links[p], n - 1).Outside? {
        StayingTargetStays(links, Parent(p), links[p], n - 1);
      }
    }
  }

  /** A target that does not stay really leads out, given links enough. */
  lemma {:induction false} LeavesReally(links: LinkMap, dir: Place, parts: seq<string>, hops: nat) returns (h: nat)
    requires !Stays(links, dir, parts, hops)
    ensures Follow(links, dir, parts, h).Outside?
    decreases |parts|
  {
    var rest := parts[1..];
    if parts[0] == "." {
      h := LeavesReally(links, dir, rest, hops);
    } else if parts[0] == ".." {
      h := 0;
      if dir != [] {
        h := LeavesReally(links, dir[..|dir| - 1], rest, hops);
      }
    } else {
      var reached := Follow(links, dir, [parts[0]], hops).dir;
      var more := LeavesReally(links, reached, rest, hops);
      h := JoinedLeaves(links, dir, [parts[0]], rest, hops, more);
      assert [parts[0]] + rest == parts;
    }
  }

  /** Two stretches of a way put together need no more links than both. */
  lemma {:induction false} JoinedLeaves(links: LinkMap, dir: Place, a: seq<string>, b: seq<string>, h: nat, more: nat)
    returns (hops: nat)
    requires Follow(links, dir, a, h).Inside? && Follow(links, Follow(links, dir, a, h).dir, b, more).Outside?
    ensures Follow(links, dir, a + b, hops).Outside?
    decreases h, |a|
  {
    if a == [] {
      assert a + b == b;
      hops := more;
    } else {
      var p, rest := dir + [a[0]], a[1..];
      assert (a + b)[0] == a[0] && (a + b)[1..] == rest + b;
      if a[0] == "." {
        hops := JoinedLeaves(links, dir, rest, b, h, more);
      } else if a[0] == ".." {
        hops := JoinedLeaves(links, dir[..|dir| - 1], rest, b, h, more);
      } else if p !in links {
        hops := JoinedLeaves(links, p, rest, b, h, more);
      } else {
        assert links[p] + (rest + b) == (links[p] + rest) + b;
        hops := JoinedLeaves(links, dir, links[p] + rest, b, h - 1, more);
        hops := hops + 1;
      }
    }
  }

  /** For any links at all: no link leads out of the archive if and only if every target stays inside when each of its
      `..` leaves the directory that is really reached. */
  lemma ContainedExactly(links: LinkMap)
    ensures Contained(links) <==> AllStay(links)
  {
    if AllStay(links) {
      forall p, hops: nat | p in links ensures !Follow(links, Parent(p), links[p], hops).Outside? {
        StayingContains(links, hops + 1);
      }
    }
    if Contained(links) {
      forall p, hops: nat | p in links ensures Stays(links, Parent(p), links[p], hops) {
        if !Stays(links, Parent(p), links[p], hops) {
          var h := LeavesReally(links, Parent(p), links[p], hops);
          assert false;
        }
      }
    }
  }

  // ---------------------------------------------------------------------------------------
  // Unpacking an archive
  // ---------------------------------------------------------------------------------------

  function WithoutDots(parts: seq<string>): seq<string> {
    if parts == [] then [] else (if parts[0] == "." then [] else [parts[0]]) + WithoutDots(parts[1..])
  }

  /** How the unpacking host reads names: whether `\` separates components, and which names it takes for one file. */
  datatype Host = Host(backslash: bool, fold: string -> string)

  /** Apart from itself no name is read as `.` or `..`. */
  function Read(host: Host, part: string): string {
    if IsName(part) && IsName(host.fold(part)) then host.fold(part) else part
  }

  function ReadAll(host: Host, parts: seq<string>): seq<string> {
    if parts == [] then [] else [Read(host, parts[0])] + ReadAll(host, parts[1..])
  }

  lemma {:induction false} ReadAt(host: Host, parts: seq<string>)
    ensures var r := ReadAll(host, parts);
      |r| == |parts| && forall i | 0 <= i < |r| :: (IsName(parts[i]) && IsName(r[i])) || r[i] == parts[i]
  {
    if parts != [] {
      ReadAt(host, parts[1..]);
    }
  }

  function Separated(host: Host, s: string): string {
    if host.backslash then Slashed(s) else s
  }

  /** Unpacking reads the raw path, where the gate reads it with `\` taken for `/` on every host. */
  function PlaceOf(host: Host, e: TarEntry): Place {
    ReadAll(host, WithoutDots(Components(Separated(host, e.path))))
  }

  function TargetOf(host: Host, e: TarEntry): seq<string> {
    ReadAll(host, Components(Separated(host, e.link)))
  }

  predicate Beneath(p: Place, q: Place) {
    |q| < |p| && q <= p
  }

  /** The links that unpacking the accepted entries makes, one after the other: each lands where the links made so far
      lead its directory, and replaces a file or link there but never a directory.  An entry whose directory leads
      outside, or through more than `limit` links, makes none. */
  ghost function Unpacked(host: Host, entries: seq<TarEntry>, limit: nat): LinkMap {
    if entries == [] then map[]
    else Land(host, Unpacked(host, entries[..|entries| - 1], limit), entries[|entries| - 1], limit)
  }

  ghost function Land(host: Host, before: LinkMap, e: TarEntry, limit: nat): LinkMap {
    var place := PlaceOf(host, e);
    var landing := Follow(before, [], Parent(place), limit);
    if place == [] || !landing.Inside? then before else Put(host, before, e, landing.dir + [place[|place| - 1]])
  }

  ghost function Put(host: Host, before: LinkMap, e: TarEntry, place: Place): LinkMap {
    if ClassOf(e).IsSymlink? then
      if exists q | q in before :: Beneath(q, place) then before else before[place := TargetOf(host, e)]
    else if ClassOf(e).IsRegular? then before - {place}
    else before
  }

  predicate Names(p: Place) {
    forall i | 0 <= i < |p| :: IsName(p[i])
  }

  /** No directory on the way is a link. */
  predicate Clear(links: LinkMap, dir: Place) {
    forall k | 0 < k <= |dir| :: dir[..k] !in links
  }

  /** Every link sits in a directory that is reached without following a link. */
  predicate Grounded(links: LinkMap) {
    forall p | p in links :: p != [] && Names(p) && Clear(links, Parent(p))
  }

  lemma {:induction false} LandsClear(links: LinkMap, dir: Place, parts: seq<string>, hops: nat)
    requires Clear(links, dir) && Names(dir) && Follow(links, dir, parts, hops).Inside?
    ensures var d := Follow(links, dir, parts, hops).dir; Clear(links, d) && Names(d)
    decreases hops, |parts|
  {
    if parts != [] {
      var p, rest := dir + [parts[0]], parts[1..];
      if parts[0] == "." {
        LandsClear(links, dir, rest, hops);
      } else if parts[0] == ".." {
        ClearStep(links, dir, parts[0]);
        LandsClear(links, dir[..|dir| - 1], rest, hops);
      } else if p !in links {
        ClearStep(links, dir, parts[0]);
        LandsClear(links, p, rest, hops);
      } else {
        LandsClear(links, dir, links[p] + rest, hops - 1);
      }
    }
  }

  lemma ClearStep(links: LinkMap, dir: Place, name: string)
    requires Clear(links, dir)
    ensures dir != [] ==> Clear(links, dir[..|dir| - 1])
    ensures dir + [name] !in links ==> Clear(links, dir + [name])
  {
    var up := Parent(dir);
    forall k | 0 < k <= |up| ensures up[..k] !in links {
      assert up[..k] == dir[..k];
    }
    var p := dir + [name];
    forall k | 0 < k <= |p| && p !in links ensures p[..k] !in links {
      assert p[..k] == if k == |p| then p else dir[..k];
    }
  }

  lemma {:induction false} PlainNames(parts: seq<string>)
    requires ".." !in parts
    ensures Names(WithoutDots(parts))
  {
    if parts != [] {
      PlainNames(parts[1..]);
    }
  }

  lemma {:induction false} PartsOfComponents(parts: seq<string>)
    ensures forall part | part in NonEmptyParts(parts) :: part in parts
  {
    if parts != [] {
      PartsOfComponents(parts[1..]);
    }
  }

  lemma AcceptedPlace(host: Host, e: TarEntry)
    requires !ClassOf(e).IsUnsafe?
    ensures Names(PlaceOf(host, e))
  {
    var s := Separated(host, e.path);
    NoParent(host, e.path);
    PartsOfComponents(Split(s, '/'));
    PlainNames(Components(s));
    NamesRead(host, WithoutDots(Components(s)));
  }

  lemma NoParent(host: Host, s: string)
    requires ".." !in Split(Slashed(s), '/')
    ensures ".." !in Split(Separated(host, s), '/')
  {
    PartSurvives(s);
    var a, b := Split(s, '/'), Split(Slashed(s), '/');
    assert a == [a[0]] + a[1..] && b == [b[0]] + b[1..];
  }

  lemma NamesRead(host: Host, parts: seq<string>)
    requires Names(parts)
    ensures Names(ReadAll(host, parts))
  {
    ReadAt(host, parts);
    forall i | 0 <= i < |parts| ensures IsName(ReadAll(host, parts)[i]) {
      assert IsName(parts[i]);
    }
  }

  /** A component without `\` stays a component when `\` separates too. */
  lemma {:induction false} PartSurvives(s: string)
    ensures var a, b := Split(s, '/'), Split(Slashed(s), '/');
      && ('\\' !in a[0] ==> b[0] == a[0])
      && forall part | part in a[1..] && '\\' !in part :: part in b[1..]
  {
    if s != [] {
      PartSurvives(s[1..]);
      assert Slashed(s)[1..] == Slashed(s[1..]);
      var a, b := Split(s[1..], '/'), Split(Slashed(s[1..]), '/');
      var a', b' := Split(s, '/'), Split(Slashed(s), '/');
      if s[0] == '/' {
        assert a'[1..] == a && b'[1..] == b;
        assert a == [a[0]] + a[1..] && b == [b[0]] + b[1..];
      } else if s[0] == '\\' {
        assert a'[0][0] == '\\' && a'[1..] == a[1..] && b'[1..] == b;
        assert b == [b[0]] + b[1..];
      } else {
        assert a'[0] == [s[0]] + a[0] && b'[0] == [s[0]] + b[0] && a'[1..] == a[1..] && b'[1..] == b[1..];
      }
    }
  }

  lemma PutKeepsGrounded(host: Host, before: LinkMap, e: TarEntry, place: Place)
    requires Grounded(before) && place != [] && Names(place) && Clear(before, Parent(place))
    ensures Grounded(Put(host, before, e, place))
  {
    var after := Put(host, before, e, place);
    forall p | p in after ensures p != [] && Names(p) && Clear(after, Parent(p)) {
      forall k | 0 < k <= |Parent(p)| ensures Parent(p)[..k] !in after {
        if Parent(p)[..k] == place {
          assert p[..k] == place && Beneath(p, place);
        }
      }
    }
  }

  /** Whatever the archive, its links end up in directories reached without following a link. */
  lemma {:induction false} UnpackedIsGrounded(host: Host, entries: seq<TarEntry>, limit: nat)
    ensures Grounded(Unpacked(host, entries, limit))
  {
    if entries != [] {
      UnpackedIsGrounded(host, entries[..|entries| - 1], limit);
      hide Grounded, Land;
      LandKeepsGrounded(host, Unpacked(host, entries[..|entries| - 1], limit), entries[|entries| - 1], limit);
    }
  }

  lemma LandKeepsGrounded(host: Host, before: LinkMap, e: TarEntry, limit: nat)
    requires Grounded(before)
    ensures Grounded(Land(host, before, e, limit))
  {
    var place := PlaceOf(host, e);
    hide PlaceOf, ClassOf, Follow, Grounded, Put, Names, Clear;
    var landing := Follow(before, [], Parent(place), limit);
    if place != [] && landing.Inside? {
      if ClassOf(e).IsUnsafe? {
        UnsafeMakesNothing(host, before, e, landing.dir + [place[|place| - 1]]);
      } else {
        AcceptedPlace(host, e);
        LandedIn(before, place, limit);
        PutKeepsGrounded(host, before, e, landing.dir + [place[|place| - 1]]);
      }
    }
  }

  lemma UnsafeMakesNothing(host: Host, before: LinkMap, e: TarEntry, place: Place)
    requires ClassOf(e).IsUnsafe?
    ensures Put(host, before, e, place) == before
  {
  }

  lemma LandedIn(before: LinkMap, place: Place, limit: nat)
    requires place != [] && Names(place) && Follow(before, [], Parent(place), limit).Inside?
    ensures
      var at := Follow(before, [], Parent(place), limit).dir + [place[|place| - 1]];
      at != [] && Names(at) && Clear(before, Parent(at))
  {
    LandsClear(before, [], Parent(place), limit);
    hide Follow;
    var dir := Follow(before, [], Parent(place), limit).dir;
    assert IsName(place[|place| - 1]);
    assert Parent(dir + [place[|place| - 1]]) == dir;
  }

  /** A way without links is walked name by name. */
  lemma {:induction false} FollowNames(links: LinkMap, dir: Place, way: Place, rest: seq<string>, hops: nat)
    requires Names(way) && forall k | 0 < k <= |way| :: dir + way[..k] !in links
    ensures Follow(links, dir, way + rest, hops) == Follow(links, dir + way, rest, hops)
    decreases |way|
  {
    if way == [] {
      assert way + rest == rest && dir + way == dir;
    } else {
      assert (way + rest)[0] == way[0] && (way + rest)[1..] == way[1..] + rest;
      assert IsName(way[0]) && dir + way[..1] == dir + [way[0]];
      forall k | 0 < k <= |way| - 1 ensures dir + [way[0]] + way[1..][..k] !in links {
        assert dir + [way[0]] + way[1..][..k] == dir + way[..k + 1];
      }
      FollowNames(links, dir + [way[0]], way[1..], rest, hops);
      assert dir + [way[0]] + way[1..] == dir + way;
    }
  }

  lemma FollowLink(links: LinkMap, p: Place, hops: nat)
    requires Grounded(links) && p in links
    ensures Follow(links, [], p, hops + 1) == Follow(links, Parent(p), links[p], hops)
  {
    var way, last := Parent(p), p[|p| - 1];
    assert Names(p) && IsName(last) && p == way + [last];
    forall k | 0 < k <= |way| ensures [] + way[..k] !in links {
      assert [] + way[..k] == way[..k];
    }
    FollowNames(links, [], way, [last], hops + 1);
    assert [] + way == way && links[p] + [] == links[p];
  }

  /** No path without `..`, followed from the root, leads out. */
  ghost predicate NoWayOut(links: LinkMap) {
    forall parts, hops: nat | ".." !in parts :: !Follow(links, [], parts, hops).Outside?
  }

  /** For every archive: its links stay inside if and only if no path without `..` leads out. */
  lemma ContainedMeansNoWayOut(host: Host, entries: seq<TarEntry>, limit: nat)
    ensures Contained(Unpacked(host, entries, limit)) <==> NoWayOut(Unpacked(host, entries, limit))
  {
    var links := Unpacked(host, entries, limit);
    UnpackedIsGrounded(host, entries, limit);
    hide Unpacked, Grounded, Follow;
    if Contained(links) {
      forall parts, hops: nat | ".." !in parts ensures !Follow(links, [], parts, hops).Outside? {
        PlainPathStays(links, [], parts, hops);
      }
    }
    if NoWayOut(links) {
      forall p, hops: nat | p in links ensures !Follow(links, Parent(p), links[p], hops).Outside? {
        FollowLink(links, p, hops);
        LinkPathIsPlain(links, p);
      }
    }
  }

  lemma LinkPathIsPlain(links: LinkMap, p: Place)
    requires Grounded(links) && p in links
    ensures ".." !in p
  {
    assert Names(p);
    assert forall i | 0 <= i < |p| :: IsName(p[i]);
  }

  /** For every archive on every host: no path without `..` leads out if and only if every target, from the place where
      its link has landed, stays inside when each of its `..` leaves the directory that is really reached. */
  lemma UnpackedStaysExactly(host: Host, entries: seq<TarEntry>, limit: nat)
    ensures NoWayOut(Unpacked(host, entries, limit)) <==> AllStay(Unpacked(host, entries, limit))
  {
    hide NoWayOut, AllStay, Contained;
    ContainedMeansNoWayOut(host, entries, limit);
    ContainedExactly(Unpacked(host, entries, limit));
  }

  /** For every archive whose unpacked links climb directories only, all stay inside if and only if no target climbs
      out of the place where its link has landed. */
  lemma UnpackedContainedExactly(host: Host, entries: seq<TarEntry>, limit: nat)
    requires AllClimbDirectories(Unpacked(host, entries, limit))
    ensures Contained(Unpacked(host, entries, limit)) <==> AllPass(Unpacked(host, entries, limit))
  {
    GateIsExact(Unpacked(host, entries, limit));
  }

  // ---------------------------------------------------------------------------------------
  // The condition read off the entries
  // ---------------------------------------------------------------------------------------

  /** The links by the text of their own paths; a later file takes the place of an earlier one. */
  ghost function LinksOf(host: Host, entries: seq<TarEntry>): LinkMap {
    if entries == [] then map[]
    else Mapped(host, LinksOf(host, entries[..|entries| - 1]), entries[|entries| - 1])
  }

  ghost function Mapped(host: Host, before: LinkMap, e: TarEntry): LinkMap {
    if PlaceOf(host, e) == [] then before
    else if ClassOf(e).IsSymlink? then before[PlaceOf(host, e) := TargetOf(host, e)]
    else if ClassOf(e).IsRegular? then before - {PlaceOf(host, e)}
    else before
  }

  /** An accepted link whose place no later file takes. */
  ghost predicate LastLink(host: Host, entries: seq<TarEntry>, i: nat)
    requires i < |entries|
  {
    && ClassOf(entries[i]).IsSymlink? && PlaceOf(host, entries[i]) != []
    && forall j | i < j < |entries| && IsFile(entries[j]) :: PlaceOf(host, entries[j]) != PlaceOf(host, entries[i])
  }

  ghost predicate NothingBeneathLinks(host: Host, entries: seq<TarEntry>) {
    forall i, j | 0 <= i < |entries| && 0 <= j < |entries| && ClassOf(entries[i]).IsSymlink? && IsFile(entries[j]) ::
      PlaceOf(host, entries[i]) == [] || !Beneath(PlaceOf(host, entries[j]), PlaceOf(host, entries[i]))
  }

  lemma LastLinkStep(host: Host, entries: seq<TarEntry>, i: nat)
    requires i < |entries|
    ensures var n := |entries| - 1;
      LastLink(host, entries, i) <==>
        if i == n then ClassOf(entries[n]).IsSymlink? && PlaceOf(host, entries[n]) != []
        else LastLink(host, entries[..n], i) && !(IsFile(entries[n]) && PlaceOf(host, entries[n]) == PlaceOf(host, entries[i]))
  {
    hide PlaceOf, ClassOf;
    var n := |entries| - 1;
    if i < n {
      var front := entries[..n];
      assert front[i] == entries[i];
      assert forall j | i < j < n :: front[j] == entries[j];
    }
  }

  ghost predicate LinksAre(host: Host, links: LinkMap, entries: seq<TarEntry>) {
    && (forall p | p in links :: exists i | 0 <= i < |entries| :: LastLink(host, entries, i) && PlaceOf(host, entries[i]) == p)
    && (forall i | 0 <= i < |entries| && LastLink(host, entries, i) ::
          PlaceOf(host, entries[i]) in links && links[PlaceOf(host, entries[i])] == TargetOf(host, entries[i]))
  }

  /** Exactly the last links are there, with their targets. */
  lemma {:induction false} LinksOfExactly(host: Host, entries: seq<TarEntry>)
    ensures LinksAre(host, LinksOf(host, entries), entries)
  {
    if entries != [] {
      LinksOfExactly(host, entries[..|entries| - 1]);
      hide PlaceOf, TargetOf, ClassOf, LastLink, LinksOf, LinksAre;
      forall p | p in LinksOf(host, entries)
        ensures exists i | 0 <= i < |entries| :: LastLink(host, entries, i) && PlaceOf(host, entries[i]) == p
      {
        var i := LinkHasEntry(host, entries, p);
      }
      forall i | 0 <= i < |entries| && LastLink(host, entries, i)
        ensures PlaceOf(host, entries[i]) in LinksOf(host, entries) && LinksOf(host, entries)[PlaceOf(host, entries[i])] == TargetOf(host, entries[i])
      {
        EntryHasLink(host, entries, i);
      }
      LinksAreBoth(host, LinksOf(host, entries), entries);
    }
  }

  lemma LinksAreBoth(host: Host, links: LinkMap, entries: seq<TarEntry>)
    requires forall p | p in links :: exists i | 0 <= i < |entries| :: LastLink(host, entries, i) && PlaceOf(host, entries[i]) == p
    requires forall i | 0 <= i < |entries| && LastLink(host, entries, i) ::
      PlaceOf(host, entries[i]) in links && links[PlaceOf(host, entries[i])] == TargetOf(host, entries[i])
    ensures LinksAre(host, links, entries)
  {
  }

  lemma LinkHasEntry(host: Host, entries: seq<TarEntry>, p: Place) returns (i: nat)
    requires p in LinksOf(host, entries) && entries != []
    requires LinksAre(host, LinksOf(host, entries[..|entries| - 1]), entries[..|entries| - 1])
    ensures i < |entries| && LastLink(host, entries, i) && PlaceOf(host, entries[i]) == p
  {
    var n, front := |entries| - 1, entries[..|entries| - 1];
    LastLinkStep(host, entries, n);
    MappedKeeps(host, LinksOf(host, front), entries[n], p);
    hide PlaceOf, TargetOf, ClassOf, LastLink, Mapped;
    if ClassOf(entries[n]).IsSymlink? && PlaceOf(host, entries[n]) == p && p != [] {
      i := n;
    } else {
      i :| 0 <= i < |front| && LastLink(host, front, i) && PlaceOf(host, front[i]) == p;
      LastLinkStep(host, entries, i);
    }
  }

  /** An entry leaves the links of other places alone. */
  lemma MappedKeeps(host: Host, before: LinkMap, e: TarEntry, p: Place)
    ensures p in Mapped(host, before, e) && !(ClassOf(e).IsSymlink? && PlaceOf(host, e) == p && p != []) ==>
      p in before && (p == [] || !(IsFile(e) && PlaceOf(host, e) == p))
    ensures p in before && !(IsFile(e) && PlaceOf(host, e) == p) ==>
      p in Mapped(host, before, e) && Mapped(host, before, e)[p] == before[p]
  {
    hide PlaceOf, TargetOf, ClassOf;
  }

  lemma MappedLink(host: Host, before: LinkMap, e: TarEntry)
    requires ClassOf(e).IsSymlink? && PlaceOf(host, e) != []
    ensures PlaceOf(host, e) in Mapped(host, before, e)
    ensures Mapped(host, before, e)[PlaceOf(host, e)] == TargetOf(host, e)
  {
    hide PlaceOf, TargetOf, ClassOf;
  }

  lemma EntryHasLink(host: Host, entries: seq<TarEntry>, i: nat)
    requires i < |entries| && LastLink(host, entries, i)
    requires LinksAre(host, LinksOf(host, entries[..|entries| - 1]), entries[..|entries| - 1])
    ensures PlaceOf(host, entries[i]) in LinksOf(host, entries)
    ensures LinksOf(host, entries)[PlaceOf(host, entries[i])] == TargetOf(host, entries[i])
  {
    var n, front := |entries| - 1, entries[..|entries| - 1];
    LastLinkStep(host, entries, i);
    hide PlaceOf, TargetOf, ClassOf, LastLink, LinksAre, Mapped;
    if i == n {
      MappedLink(host, LinksOf(host, front), entries[n]);
    } else {
      EntryLinked(host, LinksOf(host, front), front, i);
      MappedKeeps(host, LinksOf(host, front), entries[n], PlaceOf(host, front[i]));
      assert front[i] == entries[i];
    }
  }

  lemma EntryLinked(host: Host, links: LinkMap, entries: seq<TarEntry>, i: nat)
    requires LinksAre(host, links, entries) && i < |entries| && LastLink(host, entries, i)
    ensures PlaceOf(host, entries[i]) in links && links[PlaceOf(host, entries[i])] == TargetOf(host, entries[i])
  {
  }

  /** With nothing beneath a link, every entry lands at its own path. */
  lemma {:induction false} UnpackedByPath(host: Host, entries: seq<TarEntry>, limit: nat)
    requires NothingBeneathLinks(host, entries)
    ensures Unpacked(host, entries, limit) == LinksOf(host, entries)
  {
    if entries != [] {
      var n, front := |entries| - 1, entries[..|entries| - 1];
      FrontBeneath(host, entries);
      hide Land, Mapped, NothingBeneathLinks, PlaceOf, ClassOf;
      UnpackedByPath(host, front, limit);
      if PlaceOf(host, entries[n]) != [] && IsFile(entries[n]) {
        LandsAtPath(host, entries, limit);
        LandIsMapped(host, LinksOf(host, front), entries[n], limit);
      } else {
        NothingLands(host, LinksOf(host, front), entries[n], limit);
      }
    }
  }

  lemma FrontBeneath(host: Host, entries: seq<TarEntry>)
    requires entries != [] && NothingBeneathLinks(host, entries)
    ensures NothingBeneathLinks(host, entries[..|entries| - 1])
  {
    hide PlaceOf, ClassOf;
  }

  lemma LandIsMapped(host: Host, before: LinkMap, e: TarEntry, limit: nat)
    requires var place := PlaceOf(host, e);
      && place != [] && IsFile(e) && Follow(before, [], Parent(place), limit) == Inside(Parent(place))
      && (ClassOf(e).IsSymlink? ==> forall q | q in before :: !Beneath(q, place))
    ensures Land(host, before, e, limit) == Mapped(host, before, e)
  {
    var place := PlaceOf(host, e);
    assert Parent(place) + [place[|place| - 1]] == place;
    hide PlaceOf, TargetOf, ClassOf, Follow;
  }

  lemma NothingLands(host: Host, before: LinkMap, e: TarEntry, limit: nat)
    requires PlaceOf(host, e) == [] || !IsFile(e)
    ensures Land(host, before, e, limit) == before && Mapped(host, before, e) == before
  {
    hide PlaceOf, TargetOf, ClassOf, Follow;
  }

  lemma LandsAtPath(host: Host, entries: seq<TarEntry>, limit: nat)
    requires entries != [] && NothingBeneathLinks(host, entries)
    requires PlaceOf(host, entries[|entries| - 1]) != [] && IsFile(entries[|entries| - 1])
    ensures
      var e, before := entries[|entries| - 1], LinksOf(host, entries[..|entries| - 1]);
      var place := PlaceOf(host, e);
      && Follow(before, [], Parent(place), limit) == Inside(Parent(place))
      && (ClassOf(e).IsSymlink? ==> forall q | q in before :: !Beneath(q, place))
  {
    var n, front := |entries| - 1, entries[..|entries| - 1];
    AcceptedPlace(host, entries[n]);
    hide PlaceOf, TargetOf, ClassOf, LinksOf, Names, Beneath, NothingBeneathLinks, LinksAre;
    LinksOfExactly(host, front);
    forall q | q in LinksOf(host, front)
      ensures !Beneath(PlaceOf(host, entries[n]), q)
      ensures ClassOf(entries[n]).IsSymlink? ==> !Beneath(q, PlaceOf(host, entries[n]))
    {
      ApartFromLink(host, entries, q);
    }
    WalkToPlace(LinksOf(host, front), PlaceOf(host, entries[n]), limit);
  }

  lemma ApartFromLink(host: Host, entries: seq<TarEntry>, q: Place)
    requires entries != [] && NothingBeneathLinks(host, entries) && IsFile(entries[|entries| - 1])
    requires LinksAre(host, LinksOf(host, entries[..|entries| - 1]), entries[..|entries| - 1])
    requires q in LinksOf(host, entries[..|entries| - 1])
    ensures !Beneath(PlaceOf(host, entries[|entries| - 1]), q)
    ensures ClassOf(entries[|entries| - 1]).IsSymlink? && PlaceOf(host, entries[|entries| - 1]) != [] ==>
      !Beneath(q, PlaceOf(host, entries[|entries| - 1]))
  {
    hide PlaceOf, TargetOf, ClassOf, LinksOf, Beneath;
    var front := entries[..|entries| - 1];
    var i :| 0 <= i < |front| && LastLink(host, front, i) && PlaceOf(host, front[i]) == q;
    assert entries[i] == front[i] && IsFile(entries[i]);
  }

  lemma WalkToPlace(links: LinkMap, place: Place, limit: nat)
    requires place != [] && Names(place) && forall q | q in links :: !Beneath(place, q)
    ensures Follow(links, [], Parent(place), limit) == Inside(Parent(place))
  {
    var way := Parent(place);
    forall k | 0 < k <= |way| ensures [] + way[..k] !in links {
      assert [] + way[..k] == place[..k];
      assert Beneath(place, place[..k]);
    }
    FollowNames(links, [], way, [], limit);
    assert way + [] == way && [] + way == way;
  }

  /** A link's target stays inside when measured from the link's path as the host reads it, without dots. */
  ghost predicate Measured(host: Host, e: TarEntry) {
    !ClimbsOut(|Parent(PlaceOf(host, e))|, TargetOf(host, e))
  }

  /** For every archive with nothing beneath a link, whose targets climb out of no link: all links stay inside, as the
      gate means it, if and only if they do so measured from their paths as the host reads them. */
  lemma ArchiveContainedExactly(host: Host, entries: seq<TarEntry>, limit: nat)
    requires NothingBeneathLinks(host, entries) && AllClimbDirectories(LinksOf(host, entries))
    ensures Unpacked(host, entries, limit) == LinksOf(host, entries)
    ensures Contained(Unpacked(host, entries, limit)) <==>
      forall i | 0 <= i < |entries| && LastLink(host, entries, i) :: Measured(host, entries[i])
  {
    UnpackedByPath(host, entries, limit);
    UnpackedContainedExactly(host, entries, limit);
    LinksOfExactly(host, entries);
    hide PlaceOf, TargetOf, ClassOf, LinksOf, Unpacked, AllClimbDirectories, Contained;
    var links := LinksOf(host, entries);
    if AllPass(links) {
      forall i | 0 <= i < |entries| && LastLink(host, entries, i) ensures Measured(host, entries[i]) {
        assert PlaceOf(host, entries[i]) in links;
      }
    }
    if forall i | 0 <= i < |entries| && LastLink(host, entries, i) :: Measured(host, entries[i]) {
      forall p | p in links ensures !ClimbsOut(|Parent(p)|, links[p]) {
        var i :| 0 <= i < |entries| && LastLink(host, entries, i) && PlaceOf(host, entries[i]) == p;
        assert Measured(host, entries[i]);
      }
    }
  }

  /** The gate reads the link as the host does: there is no `.` in its path, which the gate would count as a
      directory, and no `\` in path or target that the gate takes for a separator and the host does not. */
  predicate Plain(host: Host, e: TarEntry) {
    && "." !in Components(Slashed(e.path))
    && (!host.backslash ==> '\\' !in e.path && '\\' !in e.link)
  }

  ghost predicate PlainPlaces(host: Host, entries: seq<TarEntry>) {
    forall i | 0 <= i < |entries| && ClassOf(entries[i]).IsSymlink? :: Plain(host, entries[i])
  }

  lemma {:induction false} NoDots(parts: seq<string>)
    requires "." !in parts
    ensures WithoutDots(parts) == parts
  {
    if parts != [] {
      NoDots(parts[1..]);
    }
  }

  /** So in such an archive whatever path without `..` is followed, through however many accepted links, stays inside;
      in particular if the gate reads every link as the host does. */
  lemma AcceptedArchiveContains(host: Host, entries: seq<TarEntry>, limit: nat, parts: seq<string>, hops: nat)
    requires NothingBeneathLinks(host, entries) && AllClimbDirectories(LinksOf(host, entries))
    requires (forall i | 0 <= i < |entries| && LastLink(host, entries, i) :: Measured(host, entries[i])) || PlainPlaces(host, entries)
    requires ".." !in parts
    ensures !Follow(Unpacked(host, entries, limit), [], parts, hops).Outside?
  {
    forall i | 0 <= i < |entries| && LastLink(host, entries, i) ensures Measured(host, entries[i]) {
      if PlainPlaces(host, entries) {
        PlainIsMeasured(host, entries[i]);
      }
    }
    hide NothingBeneathLinks, AllClimbDirectories, LastLink, Measured, PlainPlaces, Contained, Unpacked, LinksOf, Follow;
    ArchiveContainedExactly(host, entries, limit);
    ContainedMeansNoWayOut(host, entries, limit);
  }

  lemma PlainIsMeasured(host: Host, e: TarEntry)
    requires ClassOf(e).IsSymlink? && Plain(host, e)
    ensures Measured(host, e)
  {
    var path, target := Components(Slashed(e.path)), Components(Slashed(e.link));
    assert !ClimbsOut(|Parent(path)|, target);
    PlainReads(host, e);
    hide Components, Slashed, ReadAll, ClimbsOut, ClassOf, PlaceOf, TargetOf, Plain;
    ReadAt(host, path);
    ReadClimbs(host, |Parent(path)|, target);
  }

  lemma PlainReads(host: Host, e: TarEntry)
    requires Plain(host, e)
    ensures PlaceOf(host, e) == ReadAll(host, Components(Slashed(e.path)))
    ensures TargetOf(host, e) == ReadAll(host, Components(Slashed(e.link)))
  {
    NoBackslash(e.path);
    NoBackslash(e.link);
    NoDots(Components(Slashed(e.path)));
    hide Components, Slashed, ReadAll;
  }

  lemma NoBackslash(s: string)
    ensures '\\' !in s ==> Slashed(s) == s
  {
  }

  lemma {:induction false} SameLevel(depth: int, a: seq<string>, b: seq<string>)
    requires |a| == |b| && forall i | 0 <= i < |a| :: (a[i] == "." <==> b[i] == ".") && (a[i] == ".." <==> b[i] == "..")
    ensures Level(depth, a) == Level(depth, b)
  {
    if a != [] {
      SameLevel(depth, a[..|a| - 1], b[..|b| - 1]);
    }
  }

  /** Reading names as the host does climbs no differently. */
  lemma ReadClimbs(host: Host, depth: nat, parts: seq<string>)
    ensures ClimbsOut(depth, ReadAll(host, parts)) <==> ClimbsOut(depth, parts)
  {
    var read := ReadAll(host, parts);
    ReadAt(host, parts);
    forall k | 0 <= k <= |parts| ensures Level(depth, read[..k]) == Level(depth, parts[..k]) {
      SameLevel(depth, read[..k], parts[..k]);
    }
  }

  /** If every accepted target has its `..` first, no unpacked link climbs out of a link, wherever it lands; and it
      lands in a directory clear of links. */
  lemma LeadingClimbsSuffice(host: Host, entries: seq<TarEntry>, limit: nat)
    requires forall i | 0 <= i < |entries| && ClassOf(entries[i]).IsSymlink? :: ClimbsFirst(TargetOf(host, entries[i]))
    ensures AllClimbDirectories(Unpacked(host, entries, limit)) && Grounded(Unpacked(host, entries, limit))
  {
    TargetsComeFromEntries(host, entries, limit);
    UnpackedIsGrounded(host, entries, limit);
    var links := Unpacked(host, entries, limit);
    forall p | p in links ensures ClimbsDirectories(links, Parent(p), links[p]) {
      FirstClimbsDirectories(links, Parent(p), links[p]);
    }
  }

  lemma {:induction false} TargetsComeFromEntries(host: Host, entries: seq<TarEntry>, limit: nat)
    ensures forall p | p in Unpacked(host, entries, limit) ::
      exists i | 0 <= i < |entries| :: ClassOf(entries[i]).IsSymlink? && Unpacked(host, entries, limit)[p] == TargetOf(host, entries[i])
  {
    if entries != [] {
      var n, front := |entries| - 1, entries[..|entries| - 1];
      TargetsComeFromEntries(host, front, limit);
      var links, before := Unpacked(host, entries, limit), Unpacked(host, front, limit);
      hide TargetOf, ClassOf, Land, Unpacked;
      assert links == Land(host, before, entries[n], limit) by { UnpackedLast(host, entries, limit); }
      forall p | p in links
        ensures exists i | 0 <= i < |entries| :: ClassOf(entries[i]).IsSymlink? && links[p] == TargetOf(host, entries[i])
      {
        LandKeepsTargets(host, before, entries[n], limit, p);
        if p in before && links[p] == before[p] {
          var i :| 0 <= i < |front| && ClassOf(front[i]).IsSymlink? && before[p] == TargetOf(host, front[i]);
          assert entries[i] == front[i];
        } else {
          assert ClassOf(entries[n]).IsSymlink? && links[p] == TargetOf(host, entries[n]);
        }
      }
    }
  }

  lemma UnpackedLast(host: Host, entries: seq<TarEntry>, limit: nat)
    requires entries != []
    ensures Unpacked(host, entries, limit) ==
      Land(host, Unpacked(host, entries[..|entries| - 1], limit), entries[|entries| - 1], limit)
  {
    hide Land;
  }

  lemma LandKeepsTargets(host: Host, before: LinkMap, e: TarEntry, limit: nat, p: Place)
    requires p in Land(host, before, e, limit)
    ensures
      var target := Land(host, before, e, limit)[p];
      (p in before && target == before[p]) || (ClassOf(e).IsSymlink? && target == TargetOf(host, e))
  {
    hide PlaceOf, TargetOf, ClassOf, Follow;
  }
}
