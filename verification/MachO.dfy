/** The macOS deployment floor of crates/ost-build/src/macho.rs: the load-command walk over an image, the walk the
    program does inside a 1 MiB window of each slice, and how the two compare. */
module MachO {
  import opened Prelude
  import opened Versions
  import opened Bytes

  const MACHO_MAGIC_64: nat := 0xfeed_facf
  const FAT_MAGIC: nat := 0xcafe_babe
  const FAT_MAGIC_64: nat := 0xcafe_babf
  const MAX_FAT_SLICES: nat := 64
  const LC_VERSION_MIN_MACOSX: nat := 0x24
  const LC_BUILD_VERSION: nat := 0x32
  const PLATFORM_MACOS: nat := 1
  const MAX_LOAD_COMMANDS: nat := 0x10_0000
  const HEADER: nat := 32

  // ---------------------------------------------------------------------------------------
  // Floors
  // ---------------------------------------------------------------------------------------

  datatype Floor = Floor(target: Option<Version>, sdk: Option<Version>)

  const NOTHING: Floor := Floor(None, None)

  function Absorb(a: Floor, b: Floor): Floor {
    Floor(Max(a.target, b.target), Max(a.sdk, b.sdk))
  }

  predicate Below(a: Floor, b: Floor) {
    AtMost(a.target, b.target) && AtMost(a.sdk, b.sdk)
  }

  lemma AbsorbAssociates(a: Floor, b: Floor, c: Floor)
    ensures Absorb(Absorb(a, b), c) == Absorb(a, Absorb(b, c)) && Absorb(a, b) == Absorb(b, a)
    ensures Absorb(NOTHING, a) == a == Absorb(a, a)
  {
    MaxAssociates(a.target, b.target, c.target);
    MaxAssociates(a.sdk, b.sdk, c.sdk);
  }

  lemma AbsorbMiddle(a: Floor, b: Floor, c: Floor, d: Floor)
    ensures Absorb(Absorb(a, b), Absorb(c, d)) == Absorb(Absorb(a, c), Absorb(b, d))
  {
    AbsorbAssociates(a, b, Absorb(c, d));
    AbsorbAssociates(b, c, d);
    AbsorbAssociates(c, b, d);
    AbsorbAssociates(a, c, Absorb(b, d));
    AbsorbAssociates(b, c, NOTHING);
  }

  lemma AbsorbsBelow(a: Floor, b: Floor)
    ensures Below(a, b) <==> Absorb(a, b) == b
    ensures Below(a, Absorb(a, b)) && Below(b, Absorb(a, b))
  {
  }

  // ---------------------------------------------------------------------------------------
  // Reading
  // ---------------------------------------------------------------------------------------

  function U32(s: seq<byte>, o: nat): Option<nat> {
    if o + 4 <= |s| then Some(FromLE(s[o..o + 4])) else None
  }

  function FromPacked(packed: nat): Option<Version> {
    if packed / 0x1_0000 > 0 then Some(Version(packed / 0x1_0000, packed / 0x100 % 0x100)) else None
  }

  function PackedAt(s: seq<byte>, o: nat): Option<Version> {
    if U32(s, o).Some? then FromPacked(U32(s, o).value) else None
  }

  function Command(s: seq<byte>, o: nat): nat
    requires o + 8 <= |s|
  {
    U32(s, o).value
  }

  function Size(s: seq<byte>, o: nat): nat
    requires o + 8 <= |s|
  {
    U32(s, o + 4).value
  }

  /** The walk takes the load command at `o`. */
  predicate Accepts(s: seq<byte>, o: nat) {
    o + 8 <= |s| && Size(s, o) >= 8 && o + Size(s, o) <= |s|
  }

  /** What the command at `o` says about the floor. */
  function Contribution(s: seq<byte>, o: nat): Floor
    requires o + 8 <= |s|
  {
    if Command(s, o) == LC_BUILD_VERSION then
      (if U32(s, o + 8) == Some(PLATFORM_MACOS) then Floor(PackedAt(s, o + 12), PackedAt(s, o + 16)) else NOTHING)
    else if Command(s, o) == LC_VERSION_MIN_MACOSX then Floor(PackedAt(s, o + 8), PackedAt(s, o + 12))
    else NOTHING
  }

  /** The floor of the commands from `o` on, at most `left` of them. */
  function ThinFrom(s: seq<byte>, o: nat, left: nat): Floor
    decreases left
  {
    if left == 0 || !Accepts(s, o) then NOTHING
    else Absorb(Contribution(s, o), ThinFrom(s, o + Size(s, o), left - 1))
  }

  /** The number of commands the header announces, in a 64-bit Mach-O image. */
  function Announced(s: seq<byte>): nat {
    if U32(s, 0) == Some(MACHO_MAGIC_64) && U32(s, 16).Some? then U32(s, 16).value else 0
  }

  /** `scan_thin`. */
  function Thin(s: seq<byte>): Floor {
    ThinFrom(s, HEADER, Announced(s))
  }

  // ---------------------------------------------------------------------------------------
  // The walk, independently: the places it visits
  // ---------------------------------------------------------------------------------------

  function Visited(s: seq<byte>, o: nat, left: nat): seq<nat>
    decreases left
  {
    if left == 0 || !Accepts(s, o) then [] else [o] + Visited(s, o + Size(s, o), left - 1)
  }

  /** The walk stays inside the buffer, moves forward by at least eight bytes and so ends after at most one step
      for every eight bytes, whatever number of commands the header announces. */
  lemma {:induction false} WalkStaysInside(s: seq<byte>, o: nat, left: nat)
    ensures forall i | 0 <= i < |Visited(s, o, left)| :: o <= Visited(s, o, left)[i] && Accepts(s, Visited(s, o, left)[i])
    ensures forall i, j | 0 <= i < j < |Visited(s, o, left)| :: Visited(s, o, left)[i] + 8 <= Visited(s, o, left)[j]
    ensures Visited(s, o, left) != [] ==> o + 8 * |Visited(s, o, left)| <= |s|
    decreases left
  {
    hide Size;
    if left > 0 && Accepts(s, o) {
      WalkStaysInside(s, o + Size(s, o), left - 1);
    }
  }

  /** The floor is the maximum over the visited commands: no command exceeds it, and each of its parts is some
      command's. */
  lemma {:induction false} ThinIsMaximum(s: seq<byte>, o: nat, left: nat)
    ensures forall i | 0 <= i < |Visited(s, o, left)| ::
      Accepts(s, Visited(s, o, left)[i]) && Below(Contribution(s, Visited(s, o, left)[i]), ThinFrom(s, o, left))
    ensures ThinFrom(s, o, left).target.Some? ==> exists i | 0 <= i < |Visited(s, o, left)| ::
      Accepts(s, Visited(s, o, left)[i]) && Contribution(s, Visited(s, o, left)[i]).target == ThinFrom(s, o, left).target
    ensures ThinFrom(s, o, left).sdk.Some? ==> exists i | 0 <= i < |Visited(s, o, left)| ::
      Accepts(s, Visited(s, o, left)[i]) && Contribution(s, Visited(s, o, left)[i]).sdk == ThinFrom(s, o, left).sdk
    decreases left
  {
    hide Size, Contribution;
    if left > 0 && Accepts(s, o) {
      var next, rest := o + Size(s, o), ThinFrom(s, o + Size(s, o), left - 1);
      var all, more := Visited(s, o, left), Visited(s, next, left - 1);
      ThinIsMaximum(s, next, left - 1);
      assert all[0] == o && forall i | 0 <= i < |more| :: all[i + 1] == more[i];
      forall i | 0 <= i < |all| ensures Accepts(s, all[i]) && Below(Contribution(s, all[i]), ThinFrom(s, o, left)) {
        assert i > 0 ==> all[i] == more[i - 1];
      }
    }
  }

  // ---------------------------------------------------------------------------------------
  // A window of the image
  // ---------------------------------------------------------------------------------------

  function Larger(a: nat, b: nat): nat {
    if a < b then b else a
  }

  /** The end of the command at `o` and of the fields read behind its start, inside the image. */
  function Reach(s: seq<byte>, o: nat): nat
    requires o + 8 <= |s|
  {
    var fields := if Command(s, o) == LC_BUILD_VERSION then 20 else if Command(s, o) == LC_VERSION_MIN_MACOSX then 16 else 8;
    var end := Larger(o + fields, o + Size(s, o));
    if end < |s| then end else |s|
  }

  /** The floor of the visited commands that reach past the first `w` bytes. */
  function BeyondFrom(s: seq<byte>, o: nat, left: nat, w: nat): Floor
    decreases left
  {
    if left == 0 || !Accepts(s, o) then NOTHING
    else Absorb(if Reach(s, o) <= w then NOTHING else Contribution(s, o), BeyondFrom(s, o + Size(s, o), left - 1, w))
  }

  lemma U32InWindow(s: seq<byte>, w: nat, o: nat)
    requires w <= |s|
    ensures U32(s[..w], o) == if o + 4 <= w then U32(s, o) else None
  {
    if o + 4 <= w {
      assert s[..w][o..o + 4] == s[o..o + 4];
    }
  }

  lemma HeaderInWindow(s: seq<byte>, w: nat, o: nat)
    requires w <= |s| && o + 8 <= w
    ensures Command(s[..w], o) == Command(s, o) && Size(s[..w], o) == Size(s, o)
  {
    U32InWindow(s, w, o);
    U32InWindow(s, w, o + 4);
  }

  lemma AcceptsInWindow(s: seq<byte>, w: nat, o: nat)
    requires w <= |s|
    ensures Accepts(s[..w], o) <==> Accepts(s, o) && o + Size(s, o) <= w
    ensures Accepts(s[..w], o) ==> Size(s[..w], o) == Size(s, o)
  {
    if o + 8 <= w {
      HeaderInWindow(s, w, o);
    }
  }

  /** A window shows a command's contribution in full if it holds its fields, and less otherwise. */
  lemma ContributionInWindow(s: seq<byte>, w: nat, o: nat)
    requires w <= |s| && o + 8 <= w
    ensures Below(Contribution(s[..w], o), Contribution(s, o))
    ensures Reach(s, o) <= w ==> Contribution(s[..w], o) == Contribution(s, o)
  {
    HeaderInWindow(s, w, o);
    U32InWindow(s, w, o + 8);
    U32InWindow(s, w, o + 12);
    U32InWindow(s, w, o + 16);
    hide U32;
  }

  lemma {:induction false} AllBeyond(s: seq<byte>, o: nat, left: nat, w: nat)
    requires o + 8 > w
    ensures BeyondFrom(s, o, left, w) == ThinFrom(s, o, left)
    decreases left
  {
    hide Contribution, Command;
    if left > 0 && Accepts(s, o) {
      AllBeyond(s, o + Size(s, o), left - 1, w);
    }
  }

  /** One command's shown part `shown` of `full`, and what a window shows and misses of the rest. */
  lemma SplitsTogether(full: Floor, shown: Floor, fits: bool, rest: Floor, missed: Floor)
    requires Below(shown, full) && (fits ==> shown == full)
    ensures Absorb(full, Absorb(rest, missed)) == Absorb(Absorb(shown, rest), Absorb(if fits then NOTHING else full, missed))
  {
    hide Absorb, Below;
    var here := if fits then NOTHING else full;
    AbsorbsBelow(shown, full);
    AbsorbAssociates(full, NOTHING, NOTHING);
    assert Absorb(shown, here) == full;
    AbsorbMiddle(shown, here, rest, missed);
  }

  lemma {:induction false} WindowSplits(s: seq<byte>, o: nat, left: nat, w: nat)
    requires w <= |s|
    ensures ThinFrom(s, o, left) == Absorb(ThinFrom(s[..w], o, left), BeyondFrom(s, o, left, w))
    decreases left
  {
    hide Contribution, Size, Absorb, Reach, Accepts;
    var t := s[..w];
    AcceptsInWindow(s, w, o);
    if left > 0 && Accepts(t, o) {
      AcceptedHeader(t, o);
      var next := o + Size(s, o);
      WindowSplits(s, next, left - 1, w);
      ContributionInWindow(s, w, o);
      SplitsTogether(Contribution(s, o), Contribution(t, o), Reach(s, o) <= w,
                     ThinFrom(t, next, left - 1), BeyondFrom(s, next, left - 1, w));
    } else {
      if left > 0 {
        NothingShown(s, o, left, w);
      }
      AbsorbAssociates(ThinFrom(s, o, left), NOTHING, NOTHING);
    }
  }

  lemma AcceptedHeader(s: seq<byte>, o: nat)
    requires Accepts(s, o)
    ensures o + 8 <= |s|
  {
  }

  lemma NothingShown(s: seq<byte>, o: nat, left: nat, w: nat)
    requires w <= |s| && !Accepts(s[..w], o)
    ensures BeyondFrom(s, o, left, w) == ThinFrom(s, o, left)
  {
    AcceptsInWindow(s, w, o);
    if left > 0 && Accepts(s, o) {
      hide Contribution, Command;
      AllBeyond(s, o + Size(s, o), left - 1, w);
    }
  }

  function Windowed(s: seq<byte>): seq<byte> {
    if |s| <= MAX_LOAD_COMMANDS then s else s[..MAX_LOAD_COMMANDS]
  }

  /** The floor of the visited commands of a thin image that reach past the window. */
  function Beyond(s: seq<byte>): Floor {
    BeyondFrom(s, HEADER, Announced(s), MAX_LOAD_COMMANDS)
  }

  /** Exactly what the window misses of a thin image: the commands that reach past it. */
  lemma ThinSplits(s: seq<byte>)
    ensures Thin(s) == Absorb(Thin(Windowed(s)), Beyond(s))
  {
    if |s| <= MAX_LOAD_COMMANDS {
      NothingBeyond(s, HEADER, Announced(s));
      AbsorbAssociates(Thin(s), NOTHING, NOTHING);
    } else {
      U32InWindow(s, MAX_LOAD_COMMANDS, 0);
      U32InWindow(s, MAX_LOAD_COMMANDS, 16);
      WindowSplits(s, HEADER, Announced(s), MAX_LOAD_COMMANDS);
    }
  }

  lemma {:induction false} NothingBeyond(s: seq<byte>, o: nat, left: nat)
    requires |s| <= MAX_LOAD_COMMANDS
    ensures BeyondFrom(s, o, left, MAX_LOAD_COMMANDS) == NOTHING
    decreases left
  {
    hide Contribution, Size, Command;
    if left > 0 && Accepts(s, o) {
      NothingBeyond(s, o + Size(s, o), left - 1);
    }
  }

  predicate AllFit(s: seq<byte>, places: seq<nat>) {
    forall i | 0 <= i < |places| :: places[i] + 8 <= |s| && Reach(s, places[i]) <= MAX_LOAD_COMMANDS
  }

  /** Every visited command of a thin image lies, with the fields read, inside the window. */
  predicate FitsWindow(s: seq<byte>) {
    AllFit(s, Visited(s, HEADER, Announced(s)))
  }

  lemma {:induction false} FittingIsNotBeyond(s: seq<byte>, o: nat, left: nat)
    requires AllFit(s, Visited(s, o, left))
    ensures BeyondFrom(s, o, left, MAX_LOAD_COMMANDS) == NOTHING
    decreases left
  {
    hide Contribution, Reach, Size;
    if left > 0 && Accepts(s, o) {
      var all, more := Visited(s, o, left), Visited(s, o + Size(s, o), left - 1);
      assert all == [o] + more;
      assert forall i | 0 <= i < |more| :: more[i] == all[i + 1];
      assert all[0] == o;
      FittingIsNotBeyond(s, o + Size(s, o), left - 1);
    }
  }

  // ---------------------------------------------------------------------------------------
  // Universal binaries
  // ---------------------------------------------------------------------------------------

  function FromBE(s: seq<byte>): nat {
    if s == [] then 0 else FromBE(s[..|s| - 1]) * 256 + s[|s| - 1]
  }

  function BigEndian(s: seq<byte>, o: nat, width: nat): Option<nat> {
    if o + width <= |s| then Some(FromBE(s[o..o + width])) else None
  }

  predicate IsFat(s: seq<byte>) {
    (BigEndian(s, 0, 4) == Some(FAT_MAGIC) || BigEndian(s, 0, 4) == Some(FAT_MAGIC_64)) && BigEndian(s, 4, 4).Some?
  }

  /** The offset of the `i`-th slice, if the table reaches that far. */
  function SliceAt(s: seq<byte>, i: nat): Option<nat>
    requires IsFat(s)
  {
    if BigEndian(s, 0, 4) == Some(FAT_MAGIC_64) then BigEndian(s, 8 + i * 32 + 8, 8) else BigEndian(s, 8 + i * 20 + 8, 4)
  }

  function SliceCount(s: seq<byte>): nat
    requires IsFat(s)
  {
    if BigEndian(s, 4, 4).value < MAX_FAT_SLICES then BigEndian(s, 4, 4).value else MAX_FAT_SLICES
  }

  /** The slice offsets from the `i`-th on; a truncated table ends them. */
  function OffsetsFrom(s: seq<byte>, i: nat): seq<nat>
    requires IsFat(s)
    decreases SliceCount(s) - i
  {
    if i >= SliceCount(s) || SliceAt(s, i).None? then [] else [SliceAt(s, i).value] + OffsetsFrom(s, i + 1)
  }

  function From(s: seq<byte>, o: nat): seq<byte> {
    if o < |s| then s[o..] else []
  }

  /** The floor over the first `n` slices, each in full, or each through its window. */
  function SlicesFloor(s: seq<byte>, offsets: seq<nat>, n: nat, windowed: bool): Floor
    requires n <= |offsets|
  {
    if n == 0 then NOTHING
    else
      var slice := From(s, offsets[n - 1]);
      Absorb(SlicesFloor(s, offsets, n - 1, windowed), Thin(if windowed then Windowed(slice) else slice))
  }

  /** `scan_image`: the floor of a whole image in memory. */
  function ImageFloor(s: seq<byte>): Floor {
    if IsFat(s) then SlicesFloor(s, OffsetsFrom(s, 0), |OffsetsFrom(s, 0)|, false) else Thin(s)
  }

  /** What `scan_file` computes: the head of the file, or the head of each slice. */
  function FileFloor(s: seq<byte>): Floor {
    if IsFat(s) then SlicesFloor(s, OffsetsFrom(s, 0), |OffsetsFrom(s, 0)|, true) else Thin(Windowed(s))
  }

  function SlicesBeyond(s: seq<byte>, offsets: seq<nat>, n: nat): Floor
    requires n <= |offsets|
  {
    if n == 0 then NOTHING else Absorb(SlicesBeyond(s, offsets, n - 1), Beyond(From(s, offsets[n - 1])))
  }

  /** The floor of all visited commands of a file that reach past the window of their slice. */
  function FileBeyond(s: seq<byte>): Floor {
    if IsFat(s) then SlicesBeyond(s, OffsetsFrom(s, 0), |OffsetsFrom(s, 0)|) else Beyond(s)
  }

  lemma {:induction false} SlicesSplit(s: seq<byte>, offsets: seq<nat>, n: nat)
    requires n <= |offsets|
    ensures SlicesFloor(s, offsets, n, false) == Absorb(SlicesFloor(s, offsets, n, true), SlicesBeyond(s, offsets, n))
    decreases n
  {
    hide Thin, Absorb, Beyond, Windowed;
    if n > 0 {
      var slice := From(s, offsets[n - 1]);
      SlicesSplit(s, offsets, n - 1);
      ThinSplits(slice);
      AbsorbMiddle(SlicesFloor(s, offsets, n - 1, true), SlicesBeyond(s, offsets, n - 1), Thin(Windowed(slice)), Beyond(slice));
    } else {
      AbsorbAssociates(NOTHING, NOTHING, NOTHING);
    }
  }

  /** For every file: the whole-image floor is what the program reports, raised by the commands that reach past
      the window of their slice. So the report is never above the whole-image floor, and equals it exactly when
      no such command exceeds the report. */
  lemma WindowedFloorExactly(s: seq<byte>)
    ensures ImageFloor(s) == Absorb(FileFloor(s), FileBeyond(s)) && Below(FileFloor(s), ImageFloor(s))
    ensures FileFloor(s) == ImageFloor(s) <==> Below(FileBeyond(s), FileFloor(s))
  {
    hide Thin, Beyond, Absorb, IsFat;
    if IsFat(s) {
      SlicesSplit(s, OffsetsFrom(s, 0), |OffsetsFrom(s, 0)|);
    } else {
      ThinSplits(s);
    }
    AbsorbsBelow(FileFloor(s), FileBeyond(s));
    AbsorbsBelow(FileBeyond(s), FileFloor(s));
    AbsorbAssociates(FileFloor(s), FileBeyond(s), NOTHING);
  }

  /** Every slice (or the thin image) has its visited commands inside the window. */
  predicate FileFits(s: seq<byte>) {
    if IsFat(s) then forall i | 0 <= i < |OffsetsFrom(s, 0)| :: FitsWindow(From(s, OffsetsFrom(s, 0)[i]))
    else FitsWindow(s)
  }

  lemma FittingMissesNothing(s: seq<byte>)
    requires FitsWindow(s)
    ensures Beyond(s) == NOTHING
  {
    hide BeyondFrom;
    FittingIsNotBeyond(s, HEADER, Announced(s));
  }

  lemma {:induction false} SlicesFit(s: seq<byte>, offsets: seq<nat>, n: nat)
    requires n <= |offsets| && forall i | 0 <= i < n :: FitsWindow(From(s, offsets[i]))
    ensures SlicesBeyond(s, offsets, n) == NOTHING
    decreases n
  {
    hide Beyond, Absorb, FitsWindow;
    AbsorbAssociates(NOTHING, NOTHING, NOTHING);
    if n > 0 {
      SlicesFit(s, offsets, n - 1);
      FittingMissesNothing(From(s, offsets[n - 1]));
    }
  }

  /** In particular whenever every visited command, with its fields, lies in the first 2^20 bytes of its slice. */
  lemma FittingFloorIsExact(s: seq<byte>)
    requires FileFits(s)
    ensures FileFloor(s) == ImageFloor(s)
  {
    hide FileFloor, ImageFloor, Beyond, IsFat, FitsWindow;
    if IsFat(s) {
      SlicesFit(s, OffsetsFrom(s, 0), |OffsetsFrom(s, 0)|);
    } else {
      FittingMissesNothing(s);
    }
    WindowedFloorExactly(s);
  }

  // ---------------------------------------------------------------------------------------
  // An image that is under-reported
  // ---------------------------------------------------------------------------------------

  lemma FourBytes(s: seq<byte>, o: nat, a: nat, b: nat, c: nat, d: nat)
    requires o + 4 <= |s| && s[o] == a && s[o + 1] == b && s[o + 2] == c && s[o + 3] == d
    ensures U32(s, o) == Some(a + 0x100 * b + 0x1_0000 * c + 0x100_0000 * d)
  {
    var four := s[o..o + 4];
    assert four[1..][1..] == four[2..] && four[2..][1..] == four[3..] && four[3..][1..] == [];
    assert FromLE(four[3..]) == d;
    assert FromLE(four[2..]) == c + 0x100 * d;
    assert FromLE(four[1..]) == b + 0x100 * c + 0x1_0000 * d;
  }

  /** A thin image of two commands: one of a mebibyte that says nothing, and behind it a build version. */
  function FarByte(i: nat): byte {
    if i == 0 then 0xcf else if i == 1 then 0xfa else if i == 2 then 0xed else if i == 3 then 0xfe
    else if i == 16 then 2                                           // two commands
    else if i == 38 then 0x10                                        // the first is 0x10_0000 bytes long
    else if i == FAR then LC_BUILD_VERSION else if i == FAR + 4 then 24
    else if i == FAR + 8 then PLATFORM_MACOS
    else if i == FAR + 14 then 11                                    // target 11.0
    else if i == FAR + 18 then 12                                    // SDK 12.0
    else 0
  }

  const FAR: nat := 0x10_0020

  function Far(): seq<byte> {
    seq(FAR + 24, i requires 0 <= i => FarByte(i))
  }

  lemma FarWord(o: nat, a: nat, b: nat, c: nat, d: nat)
    requires o + 4 <= FAR + 24
    requires FarByte(o) == a && FarByte(o + 1) == b && FarByte(o + 2) == c && FarByte(o + 3) == d
    ensures |Far()| == FAR + 24 && U32(Far(), o) == Some(a + 0x100 * b + 0x1_0000 * c + 0x100_0000 * d)
  {
    var s := Far();
    assert s[o] == FarByte(o) && s[o + 1] == FarByte(o + 1) && s[o + 2] == FarByte(o + 2) && s[o + 3] == FarByte(o + 3);
    FourBytes(s, o, a, b, c, d);
  }

  lemma BigEndianStep(s: seq<byte>, b: byte)
    ensures FromBE(s + [b]) == FromBE(s) * 256 + b && FromBE([]) == 0
  {
    assert (s + [b])[..|s|] == s;
  }

  lemma FourBigEndian(a: byte, b: byte, c: byte, d: byte)
    ensures FromBE([a, b, c, d]) == ((a as int * 256 + b) * 256 + c) * 256 + d
  {
    BigEndianStep([], a);
    BigEndianStep([a], b);
    BigEndianStep([a, b], c);
    BigEndianStep([a, b, c], d);
    assert [] + [a] == [a] && [a] + [b] == [a, b] && [a, b] + [c] == [a, b, c] && [a, b, c] + [d] == [a, b, c, d];
  }

  lemma FarHeader()
    ensures |Far()| == FAR + 24 && Announced(Far()) == 2 && !IsFat(Far())
  {
    FarWord(0, 0xcf, 0xfa, 0xed, 0xfe);
    FarWord(16, 2, 0, 0, 0);
    var head := Far()[0..4];
    assert head == [0xcf, 0xfa, 0xed, 0xfe];
    FourBigEndian(0xcf, 0xfa, 0xed, 0xfe);
    hide FromBE;
  }

  lemma FarFirst()
    ensures |Far()| == FAR + 24
    ensures Accepts(Far(), HEADER) && Size(Far(), HEADER) == 0x10_0000 && Contribution(Far(), HEADER) == NOTHING
  {
    FarWord(HEADER, 0, 0, 0, 0);
    FarWord(HEADER + 4, 0, 0, 0x10, 0);
    hide Far, U32;
  }

  lemma FarSecond()
    ensures |Far()| == FAR + 24
    ensures Accepts(Far(), FAR) && Contribution(Far(), FAR) == Floor(Some(Version(11, 0)), Some(Version(12, 0)))
  {
    FarWord(FAR, LC_BUILD_VERSION, 0, 0, 0);
    FarWord(FAR + 4, 24, 0, 0, 0);
    FarWord(FAR + 8, PLATFORM_MACOS, 0, 0, 0);
    FarWord(FAR + 12, 0, 0, 11, 0);
    FarWord(FAR + 16, 0, 0, 12, 0);
    hide Far, U32;
  }

  /** The image asks for macOS 11, and the program reports nothing: its first command fills the window. */
  lemma FarCommandIsMissed()
    ensures ImageFloor(Far()).target == Some(Version(11, 0)) && FileFloor(Far()) == NOTHING
  {
    var s := Far();
    FarHeader();
    FarFirst();
    FarSecond();
    hide Far, Accepts, Size, Contribution, IsFat, Announced;
    assert ThinFrom(s, FAR, 1).target == Some(Version(11, 0));
    assert ThinFrom(s, HEADER, 2) == Absorb(NOTHING, ThinFrom(s, FAR, 1));
    AcceptsInWindow(s, MAX_LOAD_COMMANDS, HEADER);
    WindowAnnounces(s);
  }

  lemma WindowAnnounces(s: seq<byte>)
    requires |s| > MAX_LOAD_COMMANDS
    ensures Announced(Windowed(s)) == Announced(s)
  {
    U32InWindow(s, MAX_LOAD_COMMANDS, 0);
    U32InWindow(s, MAX_LOAD_COMMANDS, 16);
  }
}
