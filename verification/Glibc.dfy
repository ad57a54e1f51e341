/** The version strings of an ELF file, and the maximum over the whole file at once: what the streaming scan of
    crates/ost-build/src/glibc.rs is meant to compute. */
module Glibc {
  import opened Prelude
  import opened Text
  import opened Versions

  /** `GLIBC_` */
  const PREFIX: seq<byte> := [71, 76, 73, 66, 67, 95]
  const DOT: byte := 46
  const ELF_MAGIC: seq<byte> := [0x7f, 69, 76, 70]

  // ---------------------------------------------------------------------------------------
  // Reading a version in a window that ends at `e`
  // ---------------------------------------------------------------------------------------

  /** The end of the run of digits that starts at `i`. */
  function RunEnd(s: seq<byte>, i: nat, e: nat): (j: nat)
    requires i <= e <= |s|
    ensures i <= j <= e && (j < e ==> !IsDigit(s[j])) && forall k | i <= k < j :: IsDigit(s[k])
    decreases e - i
  {
    if i < e && IsDigit(s[i]) then RunEnd(s, i + 1, e) else i
  }

  /** The number that the digits `s[i..j]` spell. */
  function Number(s: seq<byte>, i: nat, j: nat): nat
    requires i <= j <= |s| && forall k | i <= k < j :: IsDigit(s[k])
  {
    if i == j then 0
    else
      assert IsDigit(s[j - 1]);
      Number(s, i, j - 1) * 10 + (s[j - 1] - 48)
  }

  predicate PrefixAt(s: seq<byte>, p: nat, e: nat)
    requires e <= |s|
  {
    p + 6 <= e && s[p] == 71 && s[p + 1] == 76 && s[p + 2] == 73 && s[p + 3] == 66 && s[p + 4] == 67 && s[p + 5] == 95
  }

  /** A component is one to six digits. */
  predicate Component(i: nat, j: nat) {
    i < j <= i + 6
  }

  /** `GLIBC_<major>.` stands at `p`, with a readable major number. */
  predicate MajorAt(s: seq<byte>, p: nat, e: nat)
    requires e <= |s|
  {
    PrefixAt(s, p, e) &&
    var m := RunEnd(s, p + 6, e);
    Component(p + 6, m) && m < e && s[m] == DOT
  }

  /** Where the minor number would begin. */
  function MinorStart(s: seq<byte>, p: nat, e: nat): (i: nat)
    requires e <= |s| && MajorAt(s, p, e)
    ensures p + 8 <= i <= e && i <= p + 13
  {
    RunEnd(s, p + 6, e) + 1
  }

  predicate VersionAt(s: seq<byte>, p: nat, e: nat)
    requires e <= |s|
  {
    MajorAt(s, p, e) && Component(MinorStart(s, p, e), RunEnd(s, MinorStart(s, p, e), e))
  }

  /** `parse_version` behind the prefix at `p`, in a window that ends at `e`. */
  function VersionIn(s: seq<byte>, p: nat, e: nat): Option<Version>
    requires e <= |s|
  {
    if VersionAt(s, p, e)
    then Some(Version(Number(s, p + 6, MinorStart(s, p, e) - 1),
                      Number(s, MinorStart(s, p, e), RunEnd(s, MinorStart(s, p, e), e))))
    else None
  }

  /** The maximum over the places `lo .. hi` of a window that ends at `e`. */
  function BestIn(s: seq<byte>, lo: nat, hi: nat, e: nat): Option<Version>
    requires lo <= hi && e <= |s|
    decreases hi - lo
  {
    if lo == hi then None else Max(BestIn(s, lo, hi - 1, e), VersionIn(s, hi - 1, e))
  }

  predicate IsElf(s: seq<byte>) {
    ELF_MAGIC <= s
  }

  /** The specification: the maximum over the whole file, if it is an ELF file. */
  function WholeFile(s: seq<byte>): Option<Version> {
    if IsElf(s) then BestIn(s, 0, |s|, |s|) else None
  }

  lemma {:induction false} BestIsUpperBound(s: seq<byte>, lo: nat, hi: nat, e: nat, p: nat)
    requires lo <= p < hi && e <= |s|
    ensures AtMost(VersionIn(s, p, e), BestIn(s, lo, hi, e))
    decreases hi
  {
    hide VersionIn;
    if p < hi - 1 {
      BestIsUpperBound(s, lo, hi - 1, e, p);
    }
  }

  lemma {:induction false} BestIsLeast(s: seq<byte>, lo: nat, hi: nat, e: nat, bound: Option<Version>)
    requires lo <= hi && e <= |s|
    requires forall p | lo <= p < hi :: AtMost(VersionIn(s, p, e), bound)
    ensures AtMost(BestIn(s, lo, hi, e), bound)
    decreases hi
  {
    hide VersionIn;
    if lo < hi {
      BestIsLeast(s, lo, hi - 1, e, bound);
      assert AtMost(VersionIn(s, hi - 1, e), bound);
    }
  }

  /** Places without the prefix contribute nothing. */
  lemma {:induction false} NothingWithoutPrefix(s: seq<byte>, lo: nat, mid: nat, hi: nat, e: nat)
    requires lo <= mid <= hi && e <= |s|
    requires forall p | mid <= p < hi :: !PrefixAt(s, p, e)
    ensures BestIn(s, lo, hi, e) == BestIn(s, lo, mid, e)
    decreases hi
  {
    hide PrefixAt;
    if mid < hi {
      NothingWithoutPrefix(s, lo, mid, hi - 1, e);
      assert !PrefixAt(s, hi - 1, e);
    }
  }

  // ---------------------------------------------------------------------------------------
  // Cutting the window short
  // ---------------------------------------------------------------------------------------

  lemma {:induction false} RunIsCut(s: seq<byte>, i: nat, e: nat)
    requires i <= e <= |s|
    ensures RunEnd(s, i, e) == if RunEnd(s, i, |s|) <= e then RunEnd(s, i, |s|) else e
    decreases e - i
  {
    if i < e && IsDigit(s[i]) {
      RunIsCut(s, i + 1, e);
    }
  }

  lemma {:induction false} LongerIsLarger(s: seq<byte>, i: nat, j: nat, k: nat)
    requires i <= j <= k <= |s| && forall x | i <= x < k :: IsDigit(s[x])
    ensures Number(s, i, j) <= Number(s, i, k)
    decreases k
  {
    if j < k {
      LongerIsLarger(s, i, j, k - 1);
    }
  }

  /** A minor number of more than six digits, no version at all, of which a window that ends at `e` shows one to
      six digits. */
  predicate Overlong(s: seq<byte>, p: nat, e: nat)
    requires e <= |s|
  {
    MajorAt(s, p, |s|) && Component(MinorStart(s, p, |s|), e)
    && RunEnd(s, MinorStart(s, p, |s|), |s|) > MinorStart(s, p, |s|) + 6
  }

  lemma MajorIsCut(s: seq<byte>, p: nat, e: nat)
    requires e <= |s|
    ensures MajorAt(s, p, e) <==> MajorAt(s, p, |s|) && MinorStart(s, p, |s|) <= e
    ensures MajorAt(s, p, e) ==> MinorStart(s, p, e) == MinorStart(s, p, |s|)
  {
    if p + 6 <= e {
      RunIsCut(s, p + 6, e);
    }
  }

  /** What a window shows of a place is at most what the whole file shows, unless it cuts an overlong minor. */
  lemma CutShowsLess(s: seq<byte>, p: nat, e: nat)
    requires e <= |s|
    ensures AtMost(VersionIn(s, p, e), VersionIn(s, p, |s|)) || Overlong(s, p, e)
  {
    hide MajorAt, MinorStart;
    MajorIsCut(s, p, e);
    if VersionAt(s, p, e) {
      var i := MinorStart(s, p, e);
      RunIsCut(s, i, e);
      LongerIsLarger(s, i, RunEnd(s, i, e), RunEnd(s, i, |s|));
    }
  }

  /** Nineteen bytes show the whole of a version: `GLIBC_`, two times six digits and the dot. */
  lemma NineteenSuffice(s: seq<byte>, p: nat, e: nat)
    requires e <= |s| && (p + 19 <= e || e == |s|)
    ensures VersionIn(s, p, |s|).Some? ==> VersionIn(s, p, e) == VersionIn(s, p, |s|) && p < e
  {
    if VersionAt(s, p, |s|) {
      var i := MinorStart(s, p, |s|);
      MajorIsCut(s, p, e);
      RunIsCut(s, i, e);
    }
  }

  lemma OverlongShown(s: seq<byte>, p: nat, e: nat)
    requires e <= |s| && Overlong(s, p, e)
    ensures VersionIn(s, p, e).Some? && e < |s|
  {
    MajorIsCut(s, p, e);
    RunIsCut(s, MinorStart(s, p, e), e);
  }

  /** No component exceeds 999999, so the 32-bit accumulation never overflows. */
  lemma NumberIsSmall(s: seq<byte>, i: nat, j: nat)
    requires i <= j <= i + 6 && j <= |s| && forall k | i <= k < j :: IsDigit(s[k])
    ensures Number(s, i, j) < 1_000_000
  {
    NumberBelow(s, i, j);
    assert Pow10(0) == 1 && Pow10(1) == 10 && Pow10(2) == 100 && Pow10(3) == 1000;
    assert Pow10(4) == 10000 && Pow10(5) == 100000 && Pow10(6) == 1000000;
  }

  function Pow10(n: nat): nat {
    if n == 0 then 1 else 10 * Pow10(n - 1)
  }

  lemma {:induction false} NumberBelow(s: seq<byte>, i: nat, j: nat)
    requires i <= j <= |s| && forall k | i <= k < j :: IsDigit(s[k])
    ensures Number(s, i, j) < Pow10(j - i)
  {
    if i < j {
      NumberBelow(s, i, j - 1);
      assert IsDigit(s[j - 1]);
    }
  }

  // ---------------------------------------------------------------------------------------
  // A window is a slice of the file
  // ---------------------------------------------------------------------------------------

  lemma {:induction false} RunInSlice(s: seq<byte>, a: nat, e: nat, i: nat)
    requires a + i <= e <= |s|
    ensures RunEnd(s[a..e], i, e - a) + a == RunEnd(s, a + i, e)
    decreases e - i
  {
    if a + i < e && IsDigit(s[a + i]) {
      RunInSlice(s, a, e, i + 1);
    }
  }

  lemma {:induction false} NumberInSlice(s: seq<byte>, a: nat, e: nat, i: nat, j: nat)
    requires i <= j && a + j <= e <= |s| && forall k | a + i <= k < a + j :: IsDigit(s[k])
    ensures forall k | i <= k < j :: IsDigit(s[a..e][k])
    ensures Number(s[a..e], i, j) == Number(s, a + i, a + j)
    decreases j
  {
    if i < j {
      NumberInSlice(s, a, e, i, j - 1);
      assert IsDigit(s[a + (j - 1)]);
    }
  }

  lemma MajorInSlice(s: seq<byte>, a: nat, e: nat, p: nat)
    requires a <= e <= |s|
    ensures MajorAt(s[a..e], p, e - a) <==> MajorAt(s, a + p, e)
    ensures MajorAt(s, a + p, e) ==> MinorStart(s[a..e], p, e - a) + a == MinorStart(s, a + p, e)
  {
    if a + p + 6 <= e {
      RunInSlice(s, a, e, p + 6);
    }
  }

  lemma VersionInSlice(s: seq<byte>, a: nat, e: nat, p: nat)
    requires a <= e <= |s|
    ensures VersionIn(s[a..e], p, e - a) == VersionIn(s, a + p, e)
  {
    hide MajorAt;
    MajorInSlice(s, a, e, p);
    if MajorAt(s, a + p, e) {
      var i := MinorStart(s[a..e], p, e - a);
      RunInSlice(s, a, e, i);
      NumberInSlice(s, a, e, p + 6, i - 1);
      NumberInSlice(s, a, e, i, RunEnd(s[a..e], i, e - a));
    }
  }

  lemma {:induction false} BestInSlice(s: seq<byte>, a: nat, e: nat, hi: nat)
    requires a + hi <= e <= |s|
    ensures BestIn(s[a..e], 0, hi, e - a) == BestIn(s, a, a + hi, e)
    decreases hi
  {
    hide VersionIn;
    if hi > 0 {
      BestInSlice(s, a, e, hi - 1);
      VersionInSlice(s, a, e, hi - 1);
      assert a + hi - 1 == a + (hi - 1);
    }
  }
}
