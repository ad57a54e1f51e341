/** Two-component versions and optional maxima over them, shared by the glibc and Mach-O scans. */
module Versions {
  import opened Prelude

  datatype Version = Version(major: nat, minor: nat)

  /** The order by (major, minor), with `None` below everything. */
  predicate AtMost(a: Option<Version>, b: Option<Version>) {
    a.None? || (b.Some? && (a.value.major < b.value.major
                            || (a.value.major == b.value.major && a.value.minor <= b.value.minor)))
  }

  function Max(a: Option<Version>, b: Option<Version>): (m: Option<Version>)
    ensures AtMost(a, m) && AtMost(b, m) && (m == a || m == b)
  {
    if AtMost(a, b) then b else a
  }

  lemma MaxAssociates(a: Option<Version>, b: Option<Version>, c: Option<Version>)
    ensures Max(Max(a, b), c) == Max(a, Max(b, c)) && Max(a, b) == Max(b, a) && Max(None, a) == a == Max(a, a)
  {
  }
}
