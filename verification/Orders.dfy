/** Sorting, duplicate removal and binary search as the standard library provides them. */
module Orders {

  ghost predicate TotalPreorder<T(!new)>(leq: (T, T) -> bool) {
    && (forall x, y :: leq(x, y) || leq(y, x))
    && (forall x, y, z :: leq(x, y) && leq(y, z) ==> leq(x, z))
  }

  ghost predicate TotalOrder<T(!new)>(leq: (T, T) -> bool) {
    && TotalPreorder(leq)
    && forall x, y :: leq(x, y) && leq(y, x) ==> x == y
  }

  predicate Sorted<T>(leq: (T, T) -> bool, s: seq<T>) {
    forall i, j :: 0 <= i < j < |s| ==> leq(s[i], s[j])
  }

  predicate Distinct<T(==)>(s: seq<T>) {
    forall i, j :: 0 <= i < j < |s| ==> s[i] != s[j]
  }

  /** Places x after the elements that are at most x, so equal keys keep their order. */
  function Insert<T>(leq: (T, T) -> bool, s: seq<T>, x: T): seq<T> {
    if s == [] then
      [x]
    else
      var last := s[|s| - 1];
      if leq(last, x) then s + [x] else Insert(leq, s[..|s| - 1], x) + [last]
  }

  /** A stable sort. */
  function Sort<T>(leq: (T, T) -> bool, s: seq<T>): seq<T> {
    if s == [] then [] else Insert(leq, Sort(leq, s[..|s| - 1]), s[|s| - 1])
  }

  /** `Vec::dedup`: drops each element equal to the one before it. */
  function Dedup<T(==)>(s: seq<T>): seq<T> {
    if |s| <= 1 then
      s
    else
      var front := Dedup(s[..|s| - 1]);
      if s[|s| - 2] == s[|s| - 1] then front else front + [s[|s| - 1]]
  }

  /** Whether two neighbours are equal, as a scan of windows of two finds them. */
  predicate HasEqualNeighbours<T(==)>(s: seq<T>) {
    exists i :: 0 <= i < |s| - 1 && s[i] == s[i + 1]
  }

  /** `binary_search(..).is_ok()` between two positions. */
  predicate BinarySearch(s: seq<int>, x: int, low: nat, high: nat)
    requires low <= high <= |s|
    decreases high - low
  {
    if low == high then
      false
    else
      var middle := (low + high) / 2;
      if s[middle] == x then
        true
      else if s[middle] < x then
        BinarySearch(s, x, middle + 1, high)
      else
        BinarySearch(s, x, low, middle)
  }

  function IntLeq(): (int, int) -> bool {
    (x: int, y: int) => x <= y
  }

  // ---- Sorting ----

  lemma {:induction false} InsertKeepsElements<T>(leq: (T, T) -> bool, s: seq<T>, x: T)
    ensures multiset(Insert(leq, s, x)) == multiset(s) + multiset{x}
  {
    if s != [] {
      InsertKeepsElements(leq, s[..|s| - 1], x);
      assert s == s[..|s| - 1] + [s[|s| - 1]];
    }
  }

  lemma {:induction false} InsertSorts<T(!new)>(leq: (T, T) -> bool, s: seq<T>, x: T)
    requires TotalPreorder(leq) && Sorted(leq, s)
    ensures Sorted(leq, Insert(leq, s, x))
  {
    if s != [] {
      var front, last := s[..|s| - 1], s[|s| - 1];
      if leq(last, x) {
        forall i | 0 <= i < |s|
          ensures leq(s[i], x)
        {
          assert leq(s[i], last);
        }
      } else {
        InsertSorts(leq, front, x);
        InsertKeepsElements(leq, front, x);
        forall e | e in Insert(leq, front, x)
          ensures leq(e, last)
        {
          assert e in multiset(front) + multiset{x};
        }
      }
    }
  }

  lemma {:induction false} SortKeepsElements<T>(leq: (T, T) -> bool, s: seq<T>)
    ensures multiset(Sort(leq, s)) == multiset(s)
    ensures |Sort(leq, s)| == |s|
  {
    hide Insert;
    if s != [] {
      var front, last := s[..|s| - 1], s[|s| - 1];
      SortKeepsElements(leq, front);
      InsertKeepsElements(leq, Sort(leq, front), last);
      assert s == front + [last];
    }
    assert |multiset(Sort(leq, s))| == |multiset(s)|;
  }

  lemma {:induction false} SortIsSorted<T(!new)>(leq: (T, T) -> bool, s: seq<T>)
    requires TotalPreorder(leq)
    ensures Sorted(leq, Sort(leq, s))
  {
    if s != [] {
      hide Insert, Sorted, TotalPreorder;
      SortIsSorted(leq, s[..|s| - 1]);
      InsertSorts(leq, Sort(leq, s[..|s| - 1]), s[|s| - 1]);
    }
  }

  lemma SortSorts<T(!new)>(leq: (T, T) -> bool, s: seq<T>)
    requires TotalPreorder(leq)
    ensures Sorted(leq, Sort(leq, s))
    ensures multiset(Sort(leq, s)) == multiset(s)
    ensures |Sort(leq, s)| == |s|
  {
    hide Sort, Sorted, TotalPreorder;
    SortIsSorted(leq, s);
    SortKeepsElements(leq, s);
  }

  /** Under a total order there is only one sorted arrangement of the same elements. */
  lemma {:induction false} SortedIsUnique<T(!new)>(leq: (T, T) -> bool, a: seq<T>, b: seq<T>)
    requires TotalOrder(leq) && Sorted(leq, a) && Sorted(leq, b) && multiset(a) == multiset(b)
    ensures a == b
  {
    hide TotalOrder, Sorted;
    SameLength(a, b);
    if a != [] {
      SortedLastsAgree(leq, a, b);
      SortedPrefix(leq, a);
      SortedPrefix(leq, b);
      PrefixesHaveSameElements(a, b);
      SortedIsUnique(leq, a[..|a| - 1], b[..|b| - 1]);
      assert a == a[..|a| - 1] + [a[|a| - 1]] && b == b[..|b| - 1] + [b[|b| - 1]];
    }
  }

  lemma SameLength<T>(a: seq<T>, b: seq<T>)
    requires multiset(a) == multiset(b)
    ensures |a| == |b|
  {
    assert |multiset(a)| == |multiset(b)|;
  }

  lemma PrefixesHaveSameElements<T>(a: seq<T>, b: seq<T>)
    requires a != [] && b != [] && a[|a| - 1] == b[|b| - 1] && multiset(a) == multiset(b)
    ensures multiset(a[..|a| - 1]) == multiset(b[..|b| - 1])
  {
    DropLast(a);
    DropLast(b);
  }

  lemma SortedLastsAgree<T(!new)>(leq: (T, T) -> bool, a: seq<T>, b: seq<T>)
    requires TotalOrder(leq) && Sorted(leq, a) && Sorted(leq, b) && multiset(a) == multiset(b)
    requires a != [] && b != []
    ensures a[|a| - 1] == b[|b| - 1]
  {
    DropLast(a);
    DropLast(b);
    LastIsGreatest(leq, a, b[|b| - 1]);
    LastIsGreatest(leq, b, a[|a| - 1]);
  }

  lemma SortedPrefix<T>(leq: (T, T) -> bool, s: seq<T>)
    requires Sorted(leq, s) && s != []
    ensures Sorted(leq, s[..|s| - 1])
  {}

  lemma DropLast<T>(s: seq<T>)
    requires s != []
    ensures s[|s| - 1] in multiset(s)
    ensures multiset(s[..|s| - 1]) == multiset(s) - multiset{s[|s| - 1]}
  {
    assert s == s[..|s| - 1] + [s[|s| - 1]];
  }

  lemma LastIsGreatest<T(!new)>(leq: (T, T) -> bool, s: seq<T>, x: T)
    requires TotalPreorder(leq) && Sorted(leq, s) && s != [] && x in multiset(s)
    ensures leq(x, s[|s| - 1])
  {
    assert x in s;
    var i :| 0 <= i < |s| && s[i] == x;
    assert i < |s| - 1 ==> leq(s[i], s[|s| - 1]);
  }

  /** The sorted form depends on the elements alone, not on the order they came in. */
  lemma SortIsCanonical<T(!new)>(leq: (T, T) -> bool, a: seq<T>, b: seq<T>)
    requires TotalOrder(leq)
    ensures Sort(leq, a) == Sort(leq, b) <==> multiset(a) == multiset(b)
  {
    SortSorts(leq, a);
    SortSorts(leq, b);
    if multiset(a) == multiset(b) {
      SortedIsUnique(leq, Sort(leq, a), Sort(leq, b));
    }
  }

  // ---- Duplicates ----

  /** Among sorted elements any repetition shows up between neighbours. */
  lemma NeighboursShowDuplicates<T(!new)>(leq: (T, T) -> bool, s: seq<T>)
    requires TotalOrder(leq) && Sorted(leq, s)
    ensures HasEqualNeighbours(s) <==> !Distinct(s)
  {
    if i, j :| 0 <= i < j < |s| && s[i] == s[j] {
      assert leq(s[i], s[i + 1]);
      assert i + 1 < j ==> leq(s[i + 1], s[j]);
      assert s[i] == s[i + 1];
    }
  }

  /** Distinctness is a property of the elements with their multiplicities. */
  lemma {:induction false} DistinctIsMultiplicityOne<T>(s: seq<T>)
    ensures Distinct(s) <==> forall x :: x in s ==> multiset(s)[x] == 1
  {
    if s != [] {
      var front, last := s[..|s| - 1], s[|s| - 1];
      assert s == front + [last];
      DistinctIsMultiplicityOne(front);
      if Distinct(s) {
        forall x | x in s
          ensures multiset(s)[x] == 1
        {
          if x == last {
            assert last !in front;
            assert multiset(front)[last] == 0;
          } else {
            assert x in front;
          }
        }
      } else if Distinct(front) {
        var i, j :| 0 <= i < j < |s| && s[i] == s[j];
        assert front[i] == last && last in front;
        assert multiset(front)[last] > 0 && multiset(s)[last] > 1;
      } else {
        var x :| x in front && multiset(front)[x] != 1;
        assert multiset(front)[x] > 1 && x in s;
      }
    }
  }

  function Map<T, U>(f: T -> U, s: seq<T>): seq<U> {
    seq(|s|, i requires 0 <= i < |s| => f(s[i]))
  }

  /** Mapping a permutation gives a permutation. */
  lemma {:induction false} MapOfPermutation<T, U>(f: T -> U, a: seq<T>, b: seq<T>)
    requires multiset(a) == multiset(b)
    ensures multiset(Map(f, a)) == multiset(Map(f, b))
  {
    hide Map;
    SameLength(a, b);
    if a != [] {
      var last := a[|a| - 1];
      DropLast(a);
      assert last in multiset(b);
      var i :| 0 <= i < |b| && b[i] == last;
      MapWithout(f, a, |a| - 1);
      MapWithout(f, b, i);
      assert a[..|a| - 1] + a[|a| - 1 + 1..] == a[..|a| - 1];
      MapOfPermutation(f, a[..|a| - 1], b[..i] + b[i + 1..]);
    }
  }

  lemma MapWithout<T, U>(f: T -> U, s: seq<T>, i: nat)
    requires i < |s|
    ensures var rest := s[..i] + s[i + 1..];
      && multiset(rest) == multiset(s) - multiset{s[i]}
      && multiset(Map(f, s)) == multiset(Map(f, rest)) + multiset{f(s[i])}
  {
    var front, back := s[..i], s[i + 1..];
    assert s == front + [s[i]] + back;
    assert Map(f, s) == Map(f, front) + [f(s[i])] + Map(f, back);
    assert Map(f, front + back) == Map(f, front) + Map(f, back);
  }

  lemma SameElementsSameDistinctness<T>(a: seq<T>, b: seq<T>)
    requires multiset(a) == multiset(b)
    ensures Distinct(a) <==> Distinct(b)
  {
    DistinctIsMultiplicityOne(a);
    DistinctIsMultiplicityOne(b);
    assert forall x :: x in a <==> x in multiset(a);
    assert forall x :: x in b <==> x in multiset(b);
  }

  /** Sorting and then comparing neighbours finds exactly the duplicates of the original list. */
  lemma SortThenScanFindsDuplicates<T(!new)>(leq: (T, T) -> bool, s: seq<T>)
    requires TotalOrder(leq)
    ensures HasEqualNeighbours(Sort(leq, s)) <==> !Distinct(s)
  {
    SortSorts(leq, s);
    NeighboursShowDuplicates(leq, Sort(leq, s));
    SameElementsSameDistinctness(s, Sort(leq, s));
  }

  /** Deduplicating sorted elements keeps each of them once, in strictly ascending order. */
  lemma {:induction false} DedupOfSorted<T(!new)>(leq: (T, T) -> bool, s: seq<T>)
    requires TotalOrder(leq) && Sorted(leq, s)
    ensures Sorted(leq, Dedup(s)) && Distinct(Dedup(s))
    ensures forall x :: x in Dedup(s) <==> x in s
    ensures |Dedup(s)| <= |s|
    ensures |Dedup(s)| == |s| <==> Distinct(s)
    ensures s != [] ==> Dedup(s) != [] && Dedup(s)[|Dedup(s)| - 1] == s[|s| - 1]
  {
    if |s| > 1 {
      var front, last := s[..|s| - 1], s[|s| - 1];
      assert s == front + [last];
      DedupOfSorted(leq, front);
      if s[|s| - 2] != last {
        forall x | x in front
          ensures leq(x, last) && x != last
        {
          var i :| 0 <= i < |front| && front[i] == x;
          assert leq(s[i], last);
          assert i < |s| - 2 ==> leq(s[i], s[|s| - 2]);
          assert leq(s[|s| - 2], last);
        }
        forall i | 0 <= i < |Dedup(front)|
          ensures leq(Dedup(front)[i], last) && Dedup(front)[i] != last
        {
          assert Dedup(front)[i] in front;
        }
      }
    }
  }

  lemma IntOrderIsTotal()
    ensures TotalOrder(IntLeq())
  {}

  /** The canonical frame list: the set of the given numbers, strictly ascending. */
  lemma SortDedupInts(s: seq<int>)
    ensures var t := Dedup(Sort(IntLeq(), s));
      && (forall i, j :: 0 <= i < j < |t| ==> t[i] < t[j])
      && (forall x :: x in t <==> x in s)
      && |t| <= |s|
  {
    var leq := IntLeq();
    IntOrderIsTotal();
    SortSorts(leq, s);
    DedupOfSorted(leq, Sort(leq, s));
    assert forall x :: x in Sort(leq, s) <==> x in multiset(s);
    var t := Dedup(Sort(leq, s));
    assert forall i, j :: 0 <= i < j < |t| ==> leq(t[i], t[j]) && t[i] != t[j];
  }

  /** Two lists with the same numbers have the same canonical form. */
  lemma AscendingIsUnique(a: seq<int>, b: seq<int>)
    requires forall i, j :: 0 <= i < j < |a| ==> a[i] < a[j]
    requires forall i, j :: 0 <= i < j < |b| ==> b[i] < b[j]
    requires forall x :: x in a <==> x in b
    ensures a == b
  {
    IntOrderIsTotal();
    AscendingMultiplicity(a);
    AscendingMultiplicity(b);
    assert multiset(a) == multiset(b) by {
      forall x
        ensures multiset(a)[x] == multiset(b)[x]
      {
        assert x in a || multiset(a)[x] == 0;
        assert x in b || multiset(b)[x] == 0;
      }
    }
    SortedIsUnique(IntLeq(), a, b);
  }

  lemma AscendingMultiplicity(s: seq<int>)
    requires forall i, j :: 0 <= i < j < |s| ==> s[i] < s[j]
    ensures forall x :: x in s ==> multiset(s)[x] == 1
    ensures Sorted(IntLeq(), s)
  {
    DistinctIsMultiplicityOne(s);
  }

  /** On ascending numbers binary search decides membership between the two positions. */
  lemma {:induction false} BinarySearchIsMembership(s: seq<int>, x: int, low: nat, high: nat)
    requires low <= high <= |s|
    requires forall i, j :: 0 <= i < j < |s| ==> s[i] < s[j]
    ensures BinarySearch(s, x, low, high) <==> exists i :: low <= i < high && s[i] == x
    decreases high - low
  {
    if low < high {
      var middle := (low + high) / 2;
      if s[middle] < x {
        BinarySearchIsMembership(s, x, middle + 1, high);
      } else if s[middle] > x {
        BinarySearchIsMembership(s, x, low, middle);
      }
    }
  }
}
