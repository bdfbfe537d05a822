/** Orders on sequences: by first difference, and sorting by insertion. */
module Orders {

  ghost predicate Asymmetric<T(!new)>(less: (T, T) -> bool) {
    forall x, y :: !(less(x, y) && less(y, x))
  }

  ghost predicate Transitive<T(!new)>(less: (T, T) -> bool) {
    forall x, y, z :: less(x, y) && less(y, z) ==> less(x, z)
  }

  ghost predicate Trichotomous<T(!new)>(less: (T, T) -> bool) {
    forall x, y :: x == y || less(x, y) || less(y, x)
  }

  /** What is not after a thing that is not after another is not after that one. */
  ghost predicate Ranks<T(!new)>(less: (T, T) -> bool) {
    forall x, y, z :: !less(y, x) && !less(z, y) ==> !less(z, x)
  }

  // ------------------------------------------------------------------
  // By first difference
  // ------------------------------------------------------------------

  predicate Lexicographic<T(==)>(less: (T, T) -> bool, a: seq<T>, b: seq<T>) {
    b != [] && (a == [] || less(a[0], b[0]) || (a[0] == b[0] && Lexicographic(less, a[1..], b[1..])))
  }

  lemma {:induction false} LexicographicTotal<T(!new)>(less: (T, T) -> bool, a: seq<T>, b: seq<T>)
    requires Asymmetric(less) && Trichotomous(less)
    ensures a == b || Lexicographic(less, a, b) || Lexicographic(less, b, a)
    ensures !(Lexicographic(less, a, b) && Lexicographic(less, b, a)) && !Lexicographic(less, a, a)
  {
    if a != [] {
      LexicographicTotal(less, a[1..], a[1..]);
      if b != [] && a[0] == b[0] {
        LexicographicTotal(less, a[1..], b[1..]);
        assert a == [a[0]] + a[1..] && b == [b[0]] + b[1..];
      }
    }
  }

  lemma {:induction false} LexicographicTransitive<T(!new)>(less: (T, T) -> bool, a: seq<T>, b: seq<T>, c: seq<T>)
    requires Asymmetric(less) && Transitive(less)
    requires Lexicographic(less, a, b) && Lexicographic(less, b, c)
    ensures Lexicographic(less, a, c)
  {
    if a != [] && a[0] == b[0] == c[0] {
      LexicographicTransitive(less, a[1..], b[1..], c[1..]);
    }
  }

  /** Of two strings of one length the first difference decides, and after it nothing does. */
  lemma {:induction false} LexicographicJoin<T(!new)>(less: (T, T) -> bool, a: seq<T>, b: seq<T>, c: seq<T>, d: seq<T>)
    requires |a| == |b|
    ensures Lexicographic(less, a + c, b + d) <==> Lexicographic(less, a, b) || (a == b && Lexicographic(less, c, d))
  {
    if a == [] {
      assert a + c == c && b + d == d;
    } else {
      LexicographicJoin(less, a[1..], b[1..], c, d);
      assert (a + c)[1..] == a[1..] + c && (b + d)[1..] == b[1..] + d;
      assert a == [a[0]] + a[1..] && b == [b[0]] + b[1..];
    }
  }

  // ------------------------------------------------------------------
  // Sorting
  // ------------------------------------------------------------------

  /** In front of the first thing it comes before. */
  function Insert<T>(less: (T, T) -> bool, x: T, sorted: seq<T>): seq<T> {
    if sorted == [] || less(x, sorted[0]) then [x] + sorted else [sorted[0]] + Insert(less, x, sorted[1..])
  }

  function Sort<T>(less: (T, T) -> bool, s: seq<T>): seq<T> {
    if s == [] then [] else Insert(less, s[|s| - 1], Sort(less, s[..|s| - 1]))
  }

  ghost predicate InOrder<T>(less: (T, T) -> bool, s: seq<T>) {
    forall i, j | 0 <= i < j < |s| :: !less(s[j], s[i])
  }

  ghost predicate Ascending<T>(less: (T, T) -> bool, s: seq<T>) {
    forall i, j | 0 <= i < j < |s| :: less(s[i], s[j])
  }

  lemma InMultiset<T>(s: seq<T>, x: T)
    ensures x in s <==> x in multiset(s)
  {
  }

  lemma {:induction false} InsertPermutes<T>(less: (T, T) -> bool, x: T, sorted: seq<T>)
    ensures multiset(Insert(less, x, sorted)) == multiset(sorted) + multiset{x}
  {
    if sorted != [] {
      assert sorted == [sorted[0]] + sorted[1..];
      InsertPermutes(less, x, sorted[1..]);
    }
  }

  lemma {:induction false} SortPermutes<T>(less: (T, T) -> bool, s: seq<T>)
    ensures multiset(Sort(less, s)) == multiset(s)
  {
    hide Insert;
    if s != [] {
      var rest, last := s[..|s| - 1], s[|s| - 1];
      SortPermutes(less, rest);
      InsertPermutes(less, last, Sort(less, rest));
      LastInMultiset(s);
    }
  }

  lemma LastInMultiset<T>(s: seq<T>)
    requires s != []
    ensures multiset(s) == multiset(s[..|s| - 1]) + multiset{s[|s| - 1]}
  {
    assert s == s[..|s| - 1] + [s[|s| - 1]];
  }

  lemma Cons<T>(less: (T, T) -> bool, first: T, rest: seq<T>)
    ensures InOrder(less, rest) && (forall y | y in rest :: !less(y, first)) ==> InOrder(less, [first] + rest)
    ensures Ascending(less, rest) && (forall y | y in rest :: less(first, y)) ==> Ascending(less, [first] + rest)
  {
  }

  lemma {:induction false} InsertOrders<T(!new)>(less: (T, T) -> bool, x: T, sorted: seq<T>)
    requires Asymmetric(less) && Ranks(less) && InOrder(less, sorted)
    ensures InOrder(less, Insert(less, x, sorted))
  {
    if sorted == [] {
    } else if less(x, sorted[0]) {
      forall y | y in sorted
        ensures !less(y, x)
      {
        assert !less(sorted[0], x) && (y == sorted[0] || !less(y, sorted[0]));
      }
      Cons(less, x, sorted);
    } else {
      var rest := Insert(less, x, sorted[1..]);
      InsertOrders(less, x, sorted[1..]);
      InsertPermutes(less, x, sorted[1..]);
      forall y | y in rest
        ensures !less(y, sorted[0])
      {
        InMultiset(rest, y);
        InMultiset(sorted[1..], y);
      }
      Cons(less, sorted[0], rest);
    }
  }

  lemma {:induction false} SortOrders<T(!new)>(less: (T, T) -> bool, s: seq<T>)
    requires Asymmetric(less) && Ranks(less)
    ensures InOrder(less, Sort(less, s))
  {
    if s != [] {
      SortOrders(less, s[..|s| - 1]);
      InsertOrders(less, s[|s| - 1], Sort(less, s[..|s| - 1]));
    }
  }

  /** First by one order, and among what that leaves open by another. */
  predicate Then<T>(less: (T, T) -> bool, tie: (T, T) -> bool, x: T, y: T) {
    less(x, y) || (!less(y, x) && tie(x, y))
  }

  ghost predicate AscendingThen<T>(less: (T, T) -> bool, tie: (T, T) -> bool, s: seq<T>) {
    forall i, j | 0 <= i < j < |s| :: Then(less, tie, s[i], s[j])
  }

  lemma {:induction false} InsertIsStable<T(!new)>(less: (T, T) -> bool, tie: (T, T) -> bool, x: T, sorted: seq<T>)
    requires Asymmetric(less) && Ranks(less)
    requires AscendingThen(less, tie, sorted) && forall y | y in sorted :: tie(y, x)
    ensures AscendingThen(less, tie, Insert(less, x, sorted))
  {
    if sorted == [] {
    } else if less(x, sorted[0]) {
      forall i | 0 <= i < |sorted|
        ensures less(x, sorted[i])
      {
        assert i > 0 ==> Then(less, tie, sorted[0], sorted[i]);
        assert !less(sorted[i], sorted[0]);
      }
    } else {
      var rest := Insert(less, x, sorted[1..]);
      InsertIsStable(less, tie, x, sorted[1..]);
      InsertPermutes(less, x, sorted[1..]);
      forall y | y in rest
        ensures Then(less, tie, sorted[0], y)
      {
        InMultiset(rest, y);
        InMultiset(sorted[1..], y);
        if y != x {
          var j :| 0 <= j < |sorted[1..]| && sorted[1..][j] == y;
          assert Then(less, tie, sorted[0], sorted[j + 1]);
        }
      }
      ConsThen(less, tie, sorted[0], rest);
    }
  }

  lemma ConsThen<T>(less: (T, T) -> bool, tie: (T, T) -> bool, first: T, rest: seq<T>)
    requires AscendingThen(less, tie, rest) && forall y | y in rest :: Then(less, tie, first, y)
    ensures AscendingThen(less, tie, [first] + rest)
  {
    hide Then;
  }

  /** Things the order leaves open stay in the order they came. */
  lemma {:induction false} SortIsStable<T(!new)>(less: (T, T) -> bool, tie: (T, T) -> bool, s: seq<T>)
    requires Asymmetric(less) && Ranks(less) && Ascending(tie, s)
    ensures AscendingThen(less, tie, Sort(less, s))
  {
    if s != [] {
      var rest, last := s[..|s| - 1], s[|s| - 1];
      SortIsStable(less, tie, rest);
      SortPermutes(less, rest);
      forall y | y in Sort(less, rest)
        ensures tie(y, last)
      {
        InMultiset(Sort(less, rest), y);
        InMultiset(rest, y);
        var i :| 0 <= i < |rest| && rest[i] == y;
        assert tie(s[i], s[|s| - 1]);
      }
      InsertIsStable(less, tie, last, Sort(less, rest));
    }
  }

  /** No two things at different places are level. */
  ghost predicate Apart<T>(less: (T, T) -> bool, s: seq<T>) {
    forall i, j | 0 <= i < j < |s| :: less(s[i], s[j]) || less(s[j], s[i])
  }

  lemma {:induction false} InsertAscends<T(!new)>(less: (T, T) -> bool, x: T, sorted: seq<T>)
    requires Asymmetric(less) && Transitive(less)
    requires Ascending(less, sorted) && forall y | y in sorted :: less(x, y) || less(y, x)
    ensures Ascending(less, Insert(less, x, sorted))
  {
    if sorted == [] {
    } else if less(x, sorted[0]) {
      forall y | y in sorted
        ensures less(x, y)
      {
        assert y == sorted[0] || less(sorted[0], y);
      }
      Cons(less, x, sorted);
    } else {
      var rest := Insert(less, x, sorted[1..]);
      assert sorted[0] in sorted;
      InsertAscends(less, x, sorted[1..]);
      InsertPermutes(less, x, sorted[1..]);
      forall y | y in rest
        ensures less(sorted[0], y)
      {
        InMultiset(rest, y);
        InMultiset(sorted[1..], y);
      }
      Cons(less, sorted[0], rest);
    }
  }

  /** With no two things level, sorting puts each before the next. */
  lemma {:induction false} SortAscends<T(!new)>(less: (T, T) -> bool, s: seq<T>)
    requires Asymmetric(less) && Transitive(less) && Apart(less, s)
    ensures Ascending(less, Sort(less, s))
  {
    if s != [] {
      var rest, last := s[..|s| - 1], s[|s| - 1];
      SortAscends(less, rest);
      SortPermutes(less, rest);
      forall y | y in Sort(less, rest)
        ensures less(last, y) || less(y, last)
      {
        InMultiset(Sort(less, rest), y);
        InMultiset(rest, y);
        var i :| 0 <= i < |rest| && rest[i] == y;
        assert less(s[i], s[|s| - 1]) || less(s[|s| - 1], s[i]);
      }
      InsertAscends(less, last, Sort(less, rest));
    }
  }

  lemma PermutedMembers<T(!new)>(a: seq<T>, b: seq<T>)
    requires multiset(a) == multiset(b)
    ensures SameMembers(a, b)
  {
    forall x
      ensures x in a <==> x in b
    {
      InMultiset(a, x);
      InMultiset(b, x);
    }
  }

  // ------------------------------------------------------------------
  // One ascending list for one set
  // ------------------------------------------------------------------

  ghost predicate SameMembers<T(!new)>(a: seq<T>, b: seq<T>) {
    forall x :: x in a <==> x in b
  }

  lemma SameFirst<T(!new)>(less: (T, T) -> bool, a: seq<T>, b: seq<T>)
    requires Asymmetric(less) && Ascending(less, a) && Ascending(less, b) && SameMembers(a, b) && a != [] && b != []
    ensures a[0] == b[0]
  {
    assert a[0] in a && b[0] in b;
    assert a[0] in b && b[0] in a;
    var i :| 0 <= i < |b| && b[i] == a[0];
    var j :| 0 <= j < |a| && a[j] == b[0];
    assert i > 0 ==> less(b[0], b[i]);
    assert j > 0 ==> less(a[0], a[j]);
  }

  lemma SameRest<T(!new)>(less: (T, T) -> bool, a: seq<T>, b: seq<T>)
    requires Asymmetric(less) && Ascending(less, a) && Ascending(less, b) && SameMembers(a, b)
    requires a != [] && b != [] && a[0] == b[0]
    ensures Ascending(less, a[1..]) && Ascending(less, b[1..]) && SameMembers(a[1..], b[1..])
  {
    NotAgain(less, a);
    NotAgain(less, b);
    forall x
      ensures x in a[1..] <==> x in b[1..]
    {
      assert x in a <==> x == a[0] || x in a[1..];
      assert x in b <==> x == b[0] || x in b[1..];
    }
  }

  lemma NotAgain<T(!new)>(less: (T, T) -> bool, s: seq<T>)
    requires Asymmetric(less) && Ascending(less, s) && s != []
    ensures s[0] !in s[1..] && Ascending(less, s[1..])
  {
    forall i | 0 <= i < |s| - 1
      ensures s[1..][i] == s[i + 1] && s[i + 1] != s[0]
    {
      assert less(s[0], s[i + 1]);
    }
    forall i, j | 0 <= i < j < |s| - 1
      ensures less(s[1..][i], s[1..][j])
    {
      assert less(s[i + 1], s[j + 1]);
    }
  }

  lemma FirstIsIn<T>(s: seq<T>)
    requires s != []
    ensures s[0] in s
  {
  }

  lemma {:induction false} AscendingIsUnique<T(!new)>(less: (T, T) -> bool, a: seq<T>, b: seq<T>)
    requires Asymmetric(less) && Ascending(less, a) && Ascending(less, b) && SameMembers(a, b)
    ensures a == b
  {
    if a != [] {
      FirstIsIn(a);
    }
    if b != [] {
      FirstIsIn(b);
    }
    if a != [] {
      SameFirst(less, a, b);
      SameRest(less, a, b);
      hide Asymmetric, Ascending, SameMembers;
      AscendingIsUnique(less, a[1..], b[1..]);
      assert a == [a[0]] + a[1..] && b == [b[0]] + b[1..];
    }
  }
}
