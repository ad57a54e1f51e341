/** The streaming scan of crates/ost-build/src/glibc.rs: chunks of 64 KiB with a 32-byte carry. What it finds,
    compared with the maximum over the whole file. */
module GlibcScan {
  import opened Prelude
  import opened Text
  import opened Versions
  import opened Glibc

  const CHUNK: nat := 65536
  const CARRY: nat := 32

  // ---------------------------------------------------------------------------------------
  // The windows
  // ---------------------------------------------------------------------------------------

  /** Where the window begins whose fresh bytes begin at `b`. */
  function Start(b: nat): nat {
    if b <= CARRY then 0 else b - CARRY
  }

  /** Where it ends. */
  function Next(s: seq<byte>, b: nat): nat
    requires b <= |s|
  {
    if |s| - b <= CHUNK then |s| else b + CHUNK
  }

  function Window(s: seq<byte>, b: nat): Option<Version>
    requires b <= |s|
  {
    BestIn(s, Start(b), Next(s, b), Next(s, b))
  }

  /** The maximum over this window and all that follow; the last one holds the carry alone. */
  function ScanFrom(s: seq<byte>, b: nat): Option<Version>
    requires b <= |s|
    decreases |s| - b
  {
    if b == |s| then Window(s, b) else Max(Window(s, b), ScanFrom(s, Next(s, b)))
  }

  function Scanned(s: seq<byte>): Option<Version> {
    if IsElf(s) then ScanFrom(s, |ELF_MAGIC|) else None
  }

  // ---------------------------------------------------------------------------------------
  // What chunking adds: overlong minor numbers cut at a chunk boundary
  // ---------------------------------------------------------------------------------------

  function CutAt(s: seq<byte>, p: nat, e: nat): Option<Version>
    requires e <= |s|
  {
    if Overlong(s, p, e) then VersionIn(s, p, e) else None
  }

  function CutsIn(s: seq<byte>, lo: nat, hi: nat, e: nat): Option<Version>
    requires lo <= hi && e <= |s|
    decreases hi - lo
  {
    if lo == hi then None else Max(CutsIn(s, lo, hi - 1, e), CutAt(s, hi - 1, e))
  }

  /** The greatest stump left at a chunk boundary past `b`. */
  function CutsFrom(s: seq<byte>, b: nat): Option<Version>
    requires b <= |s|
    decreases |s| - b
  {
    if b == |s| then None else Max(CutsIn(s, Start(b), Next(s, b), Next(s, b)), CutsFrom(s, Next(s, b)))
  }

  function Cuts(s: seq<byte>): Option<Version> {
    if IsElf(s) then CutsFrom(s, |ELF_MAGIC|) else None
  }

  // ---------------------------------------------------------------------------------------
  // The scan misses nothing
  // ---------------------------------------------------------------------------------------

  /** A version at or past the window's start is seen by this window or a later one. */
  lemma {:induction false} VersionIsSeen(s: seq<byte>, b: nat, p: nat)
    requires b <= |s| && Start(b) <= p
    ensures AtMost(VersionIn(s, p, |s|), ScanFrom(s, b))
    decreases |s| - b
  {
    hide VersionIn, BestIn;
    var e := Next(s, b);
    if VersionIn(s, p, |s|).Some? {
      if p + 19 <= e || e == |s| {
        NineteenSuffice(s, p, e);
        BestIsUpperBound(s, Start(b), e, e, p);
      } else {
        VersionIsSeen(s, e, p);
      }
    }
  }

  /** For any bytes at all, the scan returns at least the maximum over the whole file. */
  lemma ScanMissesNothing(s: seq<byte>)
    ensures AtMost(WholeFile(s), Scanned(s))
  {
    hide VersionIn, BestIn, ScanFrom;
    if IsElf(s) {
      forall p | 0 <= p < |s| ensures AtMost(VersionIn(s, p, |s|), Scanned(s)) {
        VersionIsSeen(s, |ELF_MAGIC|, p);
      }
      BestIsLeast(s, 0, |s|, |s|, Scanned(s));
    }
  }

  // ---------------------------------------------------------------------------------------
  // The scan finds nothing else but stumps
  // ---------------------------------------------------------------------------------------

  lemma {:induction false} CutsAreUpperBound(s: seq<byte>, lo: nat, hi: nat, e: nat, p: nat)
    requires lo <= p < hi && e <= |s|
    ensures AtMost(CutAt(s, p, e), CutsIn(s, lo, hi, e))
    decreases hi
  {
    hide CutAt;
    if p < hi - 1 {
      CutsAreUpperBound(s, lo, hi - 1, e, p);
    }
  }

  /** A window shows at most the whole file's maximum and its own stumps. */
  lemma WindowShows(s: seq<byte>, b: nat)
    requires b <= |s|
    ensures AtMost(Window(s, b),
                   Max(BestIn(s, 0, |s|, |s|), CutsIn(s, Start(b), Next(s, b), Next(s, b))))
  {
    hide VersionIn, BestIn, Overlong, CutsIn;
    var e := Next(s, b);
    var bound := Max(BestIn(s, 0, |s|, |s|), CutsIn(s, Start(b), e, e));
    forall p | Start(b) <= p < e ensures AtMost(VersionIn(s, p, e), bound) {
      CutShowsLess(s, p, e);
      CutsAreUpperBound(s, Start(b), e, e, p);
      BestIsUpperBound(s, 0, |s|, |s|, p);
    }
    BestIsLeast(s, Start(b), e, e, bound);
  }

  /** A window that reaches the end of the file cuts nothing. */
  lemma {:induction false} NoCutAtTheEnd(s: seq<byte>, lo: nat, hi: nat)
    requires lo <= hi
    ensures CutsIn(s, lo, hi, |s|) == None
    decreases hi
  {
    if lo < hi {
      NoCutAtTheEnd(s, lo, hi - 1);
    }
  }

  lemma {:induction false} ScanShows(s: seq<byte>, b: nat)
    requires b <= |s|
    ensures AtMost(ScanFrom(s, b), Max(BestIn(s, 0, |s|, |s|), CutsFrom(s, b)))
    decreases |s| - b
  {
    hide BestIn, CutsIn, Window;
    WindowShows(s, b);
    if b < |s| {
      ScanShows(s, Next(s, b));
    } else {
      NoCutAtTheEnd(s, Start(b), Next(s, b));
    }
  }

  lemma {:induction false} CutsAreShown(s: seq<byte>, lo: nat, hi: nat, e: nat)
    requires lo <= hi && e <= |s|
    ensures AtMost(CutsIn(s, lo, hi, e), BestIn(s, lo, hi, e))
    decreases hi
  {
    hide VersionIn, Overlong;
    if lo < hi {
      CutsAreShown(s, lo, hi - 1, e);
    }
  }

  lemma {:induction false} CutsAreScanned(s: seq<byte>, b: nat)
    requires b <= |s|
    ensures AtMost(CutsFrom(s, b), ScanFrom(s, b))
    decreases |s| - b
  {
    hide BestIn, CutsIn;
    if b < |s| {
      CutsAreShown(s, Start(b), Next(s, b), Next(s, b));
      CutsAreScanned(s, Next(s, b));
    }
  }

  /** Exactly what the scan returns, for any bytes: the whole file's maximum or the greatest stump of an overlong
      minor number cut at a chunk boundary, whichever is greater. */
  lemma ScanExactly(s: seq<byte>)
    ensures Scanned(s) == Max(WholeFile(s), Cuts(s))
  {
    hide BestIn, ScanFrom, CutsFrom;
    if IsElf(s) {
      ScanMissesNothing(s);
      ScanShows(s, |ELF_MAGIC|);
      CutsAreScanned(s, |ELF_MAGIC|);
    }
  }

  /** Hence the scan computes the maximum exactly when no such stump exceeds it. */
  lemma ScanIsMaximumIff(s: seq<byte>)
    ensures Scanned(s) == WholeFile(s) <==> AtMost(Cuts(s), WholeFile(s))
  {
    hide WholeFile, Cuts, Scanned;
    ScanExactly(s);
  }

  /** No minor number behind `GLIBC_<major>.` has more than six digits. */
  predicate ShortMinors(s: seq<byte>) {
    forall p | 0 <= p < |s| ::
      MajorAt(s, p, |s|) ==> RunEnd(s, MinorStart(s, p, |s|), |s|) <= MinorStart(s, p, |s|) + 6
  }

  lemma {:induction false} NothingToCut(s: seq<byte>, lo: nat, hi: nat, e: nat)
    requires ShortMinors(s) && lo <= hi <= |s| && e <= |s|
    ensures CutsIn(s, lo, hi, e) == None
    decreases hi
  {
    hide VersionIn, MajorAt;
    if lo < hi {
      NothingToCut(s, lo, hi - 1, e);
    }
  }

  lemma {:induction false} NothingToCutFrom(s: seq<byte>, b: nat)
    requires ShortMinors(s) && b <= |s|
    ensures CutsFrom(s, b) == None
    decreases |s| - b
  {
    hide ShortMinors, CutsIn;
    if b < |s| {
      NothingToCut(s, Start(b), Next(s, b), Next(s, b));
      NothingToCutFrom(s, Next(s, b));
    }
  }

  /** In particular for every file without overlong minor numbers. */
  lemma ShortMinorsScanExactly(s: seq<byte>)
    requires ShortMinors(s)
    ensures Scanned(s) == WholeFile(s)
  {
    hide WholeFile, ScanFrom, CutsFrom, ShortMinors;
    ScanExactly(s);
    if IsElf(s) {
      NothingToCutFrom(s, |ELF_MAGIC|);
    }
  }

  // ---------------------------------------------------------------------------------------
  // The program
  // ---------------------------------------------------------------------------------------

  /** An open file. A read may return fewer bytes than asked for, but none only at the end. */
  class Reader {
    const contents: seq<byte>
    var pos: nat

    ghost predicate Valid()
      reads this
    {
      pos <= |contents|
    }

    constructor (contents: seq<byte>)
      ensures Valid() && this.contents == contents && pos == 0
    {
      this.contents, pos := contents, 0;
    }

    method Read(want: nat) returns (part: seq<byte>)
      requires Valid()
      modifies this
      ensures Valid() && old(pos) <= pos && |part| <= want && part == contents[old(pos)..pos]
      ensures part == [] <==> want == 0 || old(pos) == |contents|
    {
      var limit := if want < |contents| - pos then want else |contents| - pos;
      if limit == 0 {
        return [];
      }
      var n :| 1 <= n <= limit;
      part := contents[pos..pos + n];
      pos := pos + n;
    }

    /** `read_full`: only the end of the file makes the result shorter than asked for. */
    method ReadFull(want: nat) returns (part: seq<byte>)
      requires Valid()
      modifies this
      ensures Valid() && old(pos) <= pos && part == contents[old(pos)..pos]
      ensures pos == if want < |contents| - old(pos) then old(pos) + want else |contents|
    {
      part := [];
      while |part| < want
        invariant Valid() && old(pos) <= pos && |part| <= want && part == contents[old(pos)..pos]
        decreases |contents| - pos
      {
        var more := Read(want - |part|);
        if more == [] {
          break;
        }
        part := part + more;
      }
    }
  }

  /** `take_number`: the number at `i` and the place behind it. */
  method TakeNumber(s: seq<byte>, i: nat) returns (r: Option<(nat, nat)>)
    requires i <= |s|
    ensures
      var j := RunEnd(s, i, |s|);
      r == if Component(i, j) then Some((Number(s, i, j), j)) else None
  {
    var end := RunEnd(s, i, |s|);
    if end == i || end > i + 6 {
      return None;
    }
    var value: nat := 0;
    for k := i to end
      invariant value == Number(s, i, k)
    {
      NumberIsSmall(s, i, k + 1);
      var digit: nat := s[k] - 48;
      value := value * 10 + digit;
      assert value < 0x1_0000_0000;
    }
    return Some((value, end));
  }

  /** `parse_version` behind a prefix at `p`. */
  method ParseVersion(s: seq<byte>, p: nat) returns (r: Option<Version>)
    requires PrefixAt(s, p, |s|)
    ensures r == VersionIn(s, p, |s|)
  {
    hide Number;
    var major := TakeNumber(s, p + 6);
    if major.None? {
      return None;
    }
    var (first, dot) := major.value;
    if dot == |s| || s[dot] != DOT {
      return None;
    }
    var minor := TakeNumber(s, dot + 1);
    if minor.None? {
      return None;
    }
    return Some(Version(first, minor.value.0));
  }

  /** `find`: the first prefix at or behind `i`. */
  function Find(s: seq<byte>, i: nat): (r: Option<nat>)
    requires i <= |s|
    ensures r.Some? ==> i <= r.value && PrefixAt(s, r.value, |s|) && forall p | i <= p < r.value :: !PrefixAt(s, p, |s|)
    ensures r.None? ==> forall p | i <= p :: !PrefixAt(s, p, |s|)
    decreases |s| - i
  {
    if i == |s| then None else if PrefixAt(s, i, |s|) then Some(i) else Find(s, i + 1)
  }

  /** Two occurrences of the prefix never overlap. */
  lemma PrefixesDoNotOverlap(s: seq<byte>, p: nat, q: nat)
    requires PrefixAt(s, p, |s|) && p < q < p + 6
    ensures !PrefixAt(s, q, |s|)
  {
  }

  /** `scan_window`: skipping past each prefix loses nothing. */
  method ScanWindow(bytes: seq<byte>, max: Option<Version>) returns (r: Option<Version>)
    ensures r == Max(max, BestIn(bytes, 0, |bytes|, |bytes|))
  {
    hide PrefixAt, VersionIn, AtMost;
    MaxAssociates(max, None, None);
    r := max;
    var i := 0;
    while i <= |bytes|
      invariant i <= |bytes| && r == Max(max, BestIn(bytes, 0, i, |bytes|))
      decreases |bytes| - i
    {
      var found := Find(bytes, i);
      if found.None? {
        NothingWithoutPrefix(bytes, 0, i, |bytes|, |bytes|);
        return;
      }
      var p := found.value;
      var v := ParseVersion(bytes, p);
      AdvancePast(bytes, i, p, max);
      r := Max(r, v);
      i := p + 6;
    }
  }

  lemma AdvancePast(bytes: seq<byte>, i: nat, p: nat, max: Option<Version>)
    requires i <= p && PrefixAt(bytes, p, |bytes|) && forall q | i <= q < p :: !PrefixAt(bytes, q, |bytes|)
    ensures p + 6 <= |bytes|
    ensures Max(Max(max, BestIn(bytes, 0, i, |bytes|)), VersionIn(bytes, p, |bytes|))
         == Max(max, BestIn(bytes, 0, p + 6, |bytes|))
  {
    NothingWithoutPrefix(bytes, 0, i, p, |bytes|);
    forall q | p + 1 <= q < p + 6 ensures !PrefixAt(bytes, q, |bytes|) {
      PrefixesDoNotOverlap(bytes, p, q);
    }
    NothingWithoutPrefix(bytes, 0, p + 1, p + 6, |bytes|);
    hide VersionIn;
    assert BestIn(bytes, 0, p + 1, |bytes|) == Max(BestIn(bytes, 0, p, |bytes|), VersionIn(bytes, p, |bytes|));
  }

  /** `scan_file` on an open regular file. */
  method ScanFile(file: Reader) returns (r: Option<Version>)
    requires file.Valid() && file.pos == 0
    modifies file
    ensures r == Scanned(file.contents)
  {
    hide BestIn, AtMost;
    var s := file.contents;
    var magic := file.ReadFull(4);
    if |magic| < 4 || magic != ELF_MAGIC {
      return None;
    }
    r := None;
    MaxAssociates(Scanned(s), None, None);
    var window := magic;
    ghost var b := 4;
    while true
      invariant file.Valid() && file.contents == s && IsElf(s) && 4 <= b == file.pos
      invariant window == s[Start(b)..b]
      invariant Max(r, ScanFrom(s, b)) == Scanned(s)
      decreases |s| - b
    {
      var fresh_ := file.ReadFull(CHUNK);
      var n := |fresh_|;
      if n > 0 {
        window := window + fresh_;
      }
      ghost var e := Next(s, b);
      assert window == s[Start(b)..e];
      BestInSlice(s, Start(b), e, e - Start(b));
      ghost var before := r;
      r := ScanWindow(window, r);
      if n == 0 {
        return;
      }
      MaxAssociates(before, Window(s, b), ScanFrom(s, e));
      if |window| > CARRY {
        window := window[|window| - CARRY..];
      }
      b := e;
    }
  }

  /** `max_glibc_floor` over open files: no file references a version above the floor, and the floor is one that a
      scan returned. */
  method MaxGlibcFloor(files: seq<seq<byte>>) returns (max: Option<Version>)
    ensures forall i | 0 <= i < |files| :: AtMost(WholeFile(files[i]), max)
    ensures max.Some? ==> exists i | 0 <= i < |files| :: Scanned(files[i]) == max
    ensures (forall i | 0 <= i < |files| :: ShortMinors(files[i])) && max.Some? ==>
      exists i | 0 <= i < |files| :: WholeFile(files[i]) == max
  {
    hide WholeFile, Scanned, ShortMinors;
    max := None;
    ghost var k := 0;
    for i := 0 to |files|
      invariant forall j | 0 <= j < i :: AtMost(WholeFile(files[j]), max)
      invariant max.Some? ==> k < i && Scanned(files[k]) == max
    {
      var file := new Reader(files[i]);
      var v := ScanFile(file);
      ScanMissesNothing(files[i]);
      if !AtMost(v, max) {
        k := i;
      }
      max := Max(max, v);
    }
    if max.Some? && forall i | 0 <= i < |files| :: ShortMinors(files[i]) {
      ShortMinorsScanExactly(files[k]);
    }
  }

  // ---------------------------------------------------------------------------------------
  // A file on which chunking matters
  // ---------------------------------------------------------------------------------------

  /** Zeros, but for `GLIBC_2.1234567` placed so that the first chunk ends behind the third digit of the minor. */
  function SampleByte(i: nat): byte {
    if i < 4 then ELF_MAGIC[i]
    else if 65529 <= i < 65535 then PREFIX[i - 65529]
    else if i == 65535 then 50
    else if i == 65536 then DOT
    else if 65537 <= i < 65544 then 49 + (i - 65537)
    else 0
  }

  function Sample(): (s: seq<byte>)
    ensures |s| == 65600
  {
    seq(65600, i requires 0 <= i => SampleByte(i))
  }

  lemma SampleRuns()
    ensures RunEnd(Sample(), 65535, 65600) == 65536 && RunEnd(Sample(), 65537, 65600) == 65544
  {
    var s := Sample();
    assert IsDigit(s[65535]) && !IsDigit(s[65536]) && !IsDigit(s[65544]);
    RunReaches(s, 65537, 65544, 65600);
  }

  lemma {:induction false} RunReaches(s: seq<byte>, i: nat, j: nat, e: nat)
    requires i <= j < e <= |s| && !IsDigit(s[j]) && forall k | i <= k < j :: IsDigit(s[k])
    ensures RunEnd(s, i, e) == j
    decreases e - i
  {
    if i < j {
      RunReaches(s, i + 1, j, e);
    }
  }

  lemma SampleMajor()
    ensures MajorAt(Sample(), 65529, 65600) && MinorStart(Sample(), 65529, 65600) == 65537
    ensures forall p | 0 <= p < 65600 && p != 65529 :: !PrefixAt(Sample(), p, 65600)
  {
    SampleRuns();
  }

  /** The whole file holds no version, yet the scan reports one: the stump of an overlong minor number. */
  lemma OverlongMinorIsMisread()
    ensures IsElf(Sample()) && WholeFile(Sample()) == None && Scanned(Sample()).Some?
  {
    hide BestIn, ScanFrom, Sample, SampleByte, PrefixAt;
    var s := Sample();
    SampleIsElf();
    SampleRuns();
    SampleMajor();
    forall p | 0 <= p < |s| ensures AtMost(VersionIn(s, p, |s|), None) {
      assert p != 65529 ==> !PrefixAt(s, p, |s|);
    }
    BestIsLeast(s, 0, |s|, |s|, None);
    OverlongShown(s, 65529, 65540);
    CutsAreUpperBound(s, 0, 65540, 65540, 65529);
    ScanExactly(s);
  }

  lemma SampleIsElf()
    ensures IsElf(Sample())
  {
    assert Sample()[..4] == ELF_MAGIC;
  }
}
