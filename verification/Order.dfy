/** Orders and the stable sort behind `sort_by`: what the sources rely on when they sort paths and digests. */
module Order {
  import opened Prelude

  /** What a comparison by a key guarantees (distinct elements may be equivalent). */
  ghost predicate WeakOrder<T(!new)>(lt: (T, T) -> bool) {
    && (forall a :: !lt(a, a))
    && (forall a, b, c :: lt(a, b) && lt(b, c) ==> lt(a, c))
    && (forall a, b, c :: !lt(a, b) && !lt(b, c) ==> !lt(a, c))
  }

  ghost predicate Ascending<T>(lt: (T, T) -> bool, xs: seq<T>) {
    forall i, j | 0 <= i < j < |xs| :: !lt(xs[j], xs[i])
  }

  ghost predicate StrictlyAscending<T>(lt: (T, T) -> bool, xs: seq<T>) {
    forall i, j | 0 <= i < j < |xs| :: lt(xs[i], xs[j])
  }

  /** Put `x` behind every element that is not greater. */
  function Insert<T>(lt: (T, T) -> bool, x: T, xs: seq<T>): seq<T> {
    if xs == [] then [x]
    else if lt(x, xs[0]) then [x] + xs
    else [xs[0]] + Insert(lt, x, xs[1..])
  }

  /** `sort_by`: a stable sort. */
  function Sort<T>(lt: (T, T) -> bool, xs: seq<T>): seq<T> {
    if xs == [] then [] else Insert(lt, xs[|xs| - 1], Sort(lt, xs[..|xs| - 1]))
  }

  lemma {:induction false} InsertMultiset<T>(lt: (T, T) -> bool, x: T, xs: seq<T>)
    ensures multiset(Insert(lt, x, xs)) == multiset(xs) + multiset{x}
    ensures |Insert(lt, x, xs)| == |xs| + 1
  {
    if xs != [] && !lt(x, xs[0]) {
      InsertMultiset(lt, x, xs[1..]);
      assert xs == [xs[0]] + xs[1..];
    }
  }

  lemma {:induction false} SortMultiset<T>(lt: (T, T) -> bool, xs: seq<T>)
    ensures multiset(Sort(lt, xs)) == multiset(xs) && |Sort(lt, xs)| == |xs|
  {
    if xs != [] {
      SortMultiset(lt, xs[..|xs| - 1]);
      InsertMultiset(lt, xs[|xs| - 1], Sort(lt, xs[..|xs| - 1]));
      assert xs == xs[..|xs| - 1] + [xs[|xs| - 1]];
    }
  }

  lemma {:induction false} InsertMembers<T>(lt: (T, T) -> bool, x: T, xs: seq<T>)
    ensures forall y :: y in Insert(lt, x, xs) <==> y == x || y in xs
  {
    if xs != [] && !lt(x, xs[0]) {
      InsertMembers(lt, x, xs[1..]);
      assert xs == [xs[0]] + xs[1..];
    }
  }

  lemma {:induction false} InsertAscending<T(!new)>(lt: (T, T) -> bool, x: T, xs: seq<T>)
    requires WeakOrder(lt) && Ascending(lt, xs)
    ensures Ascending(lt, Insert(lt, x, xs))
  {
    if xs != [] {
      if lt(x, xs[0]) {
        var ys := [x] + xs;
        forall i, j | 0 <= i < j < |ys| ensures !lt(ys[j], ys[i]) {
          if i == 0 && j > 1 {
            assert !lt(xs[j - 1], xs[0]);
          }
        }
      } else {
        var rest := Insert(lt, x, xs[1..]);
        InsertAscending(lt, x, xs[1..]);
        InsertMembers(lt, x, xs[1..]);
        forall j | 0 <= j < |rest| ensures !lt(rest[j], xs[0]) {
          assert rest[j] in rest;
        }
      }
    }
  }

  lemma {:induction false} SortAscending<T(!new)>(lt: (T, T) -> bool, xs: seq<T>)
    requires WeakOrder(lt)
    ensures Ascending(lt, Sort(lt, xs))
  {
    if xs != [] {
      SortAscending(lt, xs[..|xs| - 1]);
      InsertAscending(lt, xs[|xs| - 1], Sort(lt, xs[..|xs| - 1]));
    }
  }

  /** Strictly ascending sequences with the same elements are the same sequence. */
  lemma {:induction false} AscendingUnique<T(!new)>(lt: (T, T) -> bool, xs: seq<T>, ys: seq<T>)
    requires WeakOrder(lt) && StrictlyAscending(lt, xs) && StrictlyAscending(lt, ys)
    requires multiset(xs) == multiset(ys)
    ensures xs == ys
  {
    assert |xs| == |multiset(xs)| == |multiset(ys)| == |ys|;
    if xs != [] {
      HeadsAgree(lt, xs, ys);
      assert xs == [xs[0]] + xs[1..] && ys == [ys[0]] + ys[1..];
      assert multiset(xs[1..]) == multiset(xs) - multiset{xs[0]};
      AscendingUnique(lt, xs[1..], ys[1..]);
    }
  }

  lemma HeadsAgree<T(!new)>(lt: (T, T) -> bool, xs: seq<T>, ys: seq<T>)
    requires WeakOrder(lt) && StrictlyAscending(lt, xs) && StrictlyAscending(lt, ys)
    requires multiset(xs) == multiset(ys) && xs != [] && ys != []
    ensures xs[0] == ys[0]
  {
    assert xs[0] in multiset(ys) && ys[0] in multiset(xs);
    var i :| 0 <= i < |ys| && ys[i] == xs[0];
    var j :| 0 <= j < |xs| && xs[j] == ys[0];
    if i > 0 && j > 0 {
      assert false;
    }
  }

  lemma {:induction false} InsertStrict<T(!new)>(lt: (T, T) -> bool, x: T, xs: seq<T>)
    requires WeakOrder(lt) && StrictlyAscending(lt, xs)
    requires forall y | y in xs :: lt(x, y) || lt(y, x)
    ensures StrictlyAscending(lt, Insert(lt, x, xs))
  {
    if xs != [] {
      if lt(x, xs[0]) {
        forall j | 0 <= j < |xs| ensures lt(x, xs[j]) {
          assert j > 0 ==> lt(xs[0], xs[j]);
        }
      } else {
        var rest := Insert(lt, x, xs[1..]);
        InsertStrict(lt, x, xs[1..]);
        InsertMembers(lt, x, xs[1..]);
        forall j | 0 <= j < |rest| ensures lt(xs[0], rest[j]) {
          assert rest[j] in rest;
          assert xs[0] in xs;
        }
      }
    }
  }

  lemma {:induction false} InsertLast<T(!new)>(lt: (T, T) -> bool, x: T, xs: seq<T>)
    requires forall y | y in xs :: !lt(x, y)
    ensures Insert(lt, x, xs) == xs + [x]
  {
    if xs != [] {
      InsertLast(lt, x, xs[1..]);
      assert xs[0] in xs;
      assert xs == [xs[0]] + xs[1..];
    }
  }

  lemma {:induction false} SortIdentity<T(!new)>(lt: (T, T) -> bool, xs: seq<T>)
    requires WeakOrder(lt) && StrictlyAscending(lt, xs)
    ensures Sort(lt, xs) == xs
  {
    if xs != [] {
      var front, x := xs[..|xs| - 1], xs[|xs| - 1];
      SortIdentity(lt, front);
      forall y | y in front ensures !lt(x, y) {
        var i :| 0 <= i < |front| && front[i] == y;
        assert lt(xs[i], x);
      }
      InsertLast(lt, x, front);
    }
  }

  // ---------------------------------------------------------------------------------------
  // Lexicographic order: Rust's `str` and `[u8]` comparison
  // ---------------------------------------------------------------------------------------

  predicate Lex<T(==)>(lt: (T, T) -> bool, a: seq<T>, b: seq<T>) {
    if b == [] then false
    else if a == [] then true
    else if lt(a[0], b[0]) then true
    else if lt(b[0], a[0]) then false
    else Lex(lt, a[1..], b[1..])
  }

  ghost predicate TotalOrder<T(!new)>(lt: (T, T) -> bool) {
    WeakOrder(lt) && forall a, b :: a != b ==> lt(a, b) || lt(b, a)
  }

  lemma {:induction false} LexConnected<T(!new)>(lt: (T, T) -> bool, a: seq<T>, b: seq<T>)
    requires TotalOrder(lt)
    ensures a == b || Lex(lt, a, b) || Lex(lt, b, a)
    ensures !(Lex(lt, a, b) && Lex(lt, b, a))
    ensures a == b ==> !Lex(lt, a, b)
  {
    if a != [] && b != [] {
      LexConnected(lt, a[1..], b[1..]);
      assert a == [a[0]] + a[1..] && b == [b[0]] + b[1..];
    }
  }

  lemma {:induction false} LexTransitive<T(!new)>(lt: (T, T) -> bool, a: seq<T>, b: seq<T>, c: seq<T>)
    requires TotalOrder(lt) && Lex(lt, a, b) && Lex(lt, b, c)
    ensures Lex(lt, a, c)
  {
    if a != [] && a[0] == b[0] == c[0] {
      LexTransitive(lt, a[1..], b[1..], c[1..]);
    }
  }

  lemma LexNegativelyTransitive<T(!new)>(lt: (T, T) -> bool, a: seq<T>, b: seq<T>, c: seq<T>)
    requires TotalOrder(lt) && !Lex(lt, a, b) && !Lex(lt, b, c)
    ensures !Lex(lt, a, c)
  {
    LexConnected(lt, a, b);
    LexConnected(lt, b, c);
    if a != b && b != c {
      LexTransitive(lt, c, b, a);
      LexConnected(lt, a, c);
    }
  }

  predicate CharLess(a: char, b: char) { a < b }

  predicate ByteLess(a: byte, b: byte) { a < b }

  predicate StringLess(a: string, b: string) { Lex(CharLess, a, b) }

  predicate BytesLess(a: seq<byte>, b: seq<byte>) { Lex(ByteLess, a, b) }

  lemma StringLessIsTotal()
    ensures TotalOrder(StringLess)
  {
    assert TotalOrder(CharLess);
    forall a, b ensures !StringLess(a, a) && (a != b ==> StringLess(a, b) || StringLess(b, a)) {
      LexConnected(CharLess, a, b);
      LexConnected(CharLess, a, a);
    }
    forall a, b, c | StringLess(a, b) && StringLess(b, c) ensures StringLess(a, c) {
      LexTransitive(CharLess, a, b, c);
    }
    forall a, b, c | !StringLess(a, b) && !StringLess(b, c) ensures !StringLess(a, c) {
      LexNegativelyTransitive(CharLess, a, b, c);
    }
  }

  lemma BytesLessIsTotal()
    ensures TotalOrder(BytesLess)
  {
    assert TotalOrder(ByteLess);
    forall a, b ensures !BytesLess(a, a) && (a != b ==> BytesLess(a, b) || BytesLess(b, a)) {
      LexConnected(ByteLess, a, b);
      LexConnected(ByteLess, a, a);
    }
    forall a, b, c | BytesLess(a, b) && BytesLess(b, c) ensures BytesLess(a, c) {
      LexTransitive(ByteLess, a, b, c);
    }
    forall a, b, c | !BytesLess(a, b) && !BytesLess(b, c) ensures !BytesLess(a, c) {
      LexNegativelyTransitive(ByteLess, a, b, c);
    }
  }
}
