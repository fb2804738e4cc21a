/**
 The array operations every component leans on: filter, slice and the stable sort.

 `Sort` is written as an insertion sort, but `StableSortIsUnique` shows that nothing
 depends on that choice: any stable sorting function returns the same sequence.
 */
module Seqs {
  import opened Wrappers

  /** Array.prototype.filter. */
  function Filter<T>(p: T -> bool, s: seq<T>): (r: seq<T>)
    ensures |r| <= |s|
    ensures forall x | x in r :: x in s && p(x)
    ensures forall x | x in s && p(x) :: x in r
  {
    if s == [] then []
    else if p(s[0]) then [s[0]] + Filter(p, s[1..])
    else Filter(p, s[1..])
  }

  /** Array.prototype.map. */
  function Map<T, U>(f: T -> U, s: seq<T>): (r: seq<U>)
    ensures |r| == |s| && forall i | 0 <= i < |s| :: r[i] == f(s[i])
  {
    seq(|s|, i requires 0 <= i < |s| => f(s[i]))
  }

  /** s.slice(0, n): a negative n counts from the end. */
  function SliceTo<T>(s: seq<T>, n: int): (r: seq<T>)
    ensures |r| == if n >= 0 then Min(n, |s|) else Max(0, |s| + n)
    ensures r <= s
  {
    if n >= |s| then s
    else if n >= 0 then s[..n]
    else if |s| + n >= 0 then s[..|s| + n]
    else []
  }

  ghost predicate NoDuplicates<T>(s: seq<T>) {
    forall i, j | 0 <= i < j < |s| :: s[i] != s[j]
  }

  lemma {:induction false} FilterAppend<T>(p: T -> bool, s: seq<T>, t: seq<T>)
    ensures Filter(p, s + t) == Filter(p, s) + Filter(p, t)
  {
    if s == [] {
      assert s + t == t;
    } else {
      assert (s + t)[1..] == s[1..] + t;
      FilterAppend(p, s[1..], t);
    }
  }

  lemma {:induction false} FilterAgree<T>(p: T -> bool, q: T -> bool, s: seq<T>)
    requires forall x | x in s :: p(x) == q(x)
    ensures Filter(p, s) == Filter(q, s)
  {
    if s == [] {
    } else {
      FilterAgree(p, q, s[1..]);
    }
  }

  lemma {:induction false} FilterAll<T>(p: T -> bool, s: seq<T>)
    requires forall x | x in s :: p(x)
    ensures Filter(p, s) == s
  {
    if s == [] {
    } else {
      FilterAll(p, s[1..]);
    }
  }

  lemma {:induction false} FilterNone<T>(p: T -> bool, s: seq<T>)
    requires forall x | x in s :: !p(x)
    ensures Filter(p, s) == []
  {
    if s == [] {
    } else {
      FilterNone(p, s[1..]);
    }
  }

  lemma MapAppend<T, U>(f: T -> U, s: seq<T>, t: seq<T>)
    ensures Map(f, s + t) == Map(f, s) + Map(f, t)
  {
  }

  lemma MapCons<T, U>(f: T -> U, s: seq<T>)
    requires s != []
    ensures Map(f, s) == [f(s[0])] + Map(f, s[1..])
  {
  }

  /** Filtering the images is mapping the elements whose images pass. */
  lemma {:induction false} FilterMap<T, U>(p: U -> bool, q: T -> bool, f: T -> U, s: seq<T>)
    requires forall x | x in s :: p(f(x)) == q(x)
    ensures Filter(p, Map(f, s)) == Map(f, Filter(q, s))
  {
    if s == [] {
    } else {
      FilterMap(p, q, f, s[1..]);
      MapCons(f, s);
      if q(s[0]) {
        MapCons(f, [s[0]] + Filter(q, s[1..]));
      }
      FilterAppend(p, [f(s[0])], Map(f, s[1..]));
    }
  }

  /** Two filters in a row keep what satisfies both. */
  lemma {:induction false} FilterFilter<T>(p: T -> bool, q: T -> bool, both: T -> bool, s: seq<T>)
    requires forall x | x in s :: both(x) == (p(x) && q(x))
    ensures Filter(p, Filter(q, s)) == Filter(both, s)
  {
    if s == [] {
    } else {
      FilterFilter(p, q, both, s[1..]);
    }
  }

  /** Filtering keeps the relative order: every kept pair comes from a pair in the same order. */
  lemma {:induction false} FilterPositions<T>(p: T -> bool, s: seq<T>, i: nat, j: nat) returns (a: nat, b: nat)
    requires i < j < |Filter(p, s)|
    ensures a < b < |s| && s[a] == Filter(p, s)[i] && s[b] == Filter(p, s)[j]
  {
    if !p(s[0]) {
      a, b := FilterPositions(p, s[1..], i, j);
      a, b := a + 1, b + 1;
    } else if i > 0 {
      a, b := FilterPositions(p, s[1..], i - 1, j - 1);
      a, b := a + 1, b + 1;
    } else {
      a := 0;
      var y := Filter(p, s[1..])[j - 1];
      assert y in s[1..];
      b :| 0 <= b < |s[1..]| && s[1..][b] == y;
      b := b + 1;
    }
  }

  // ---------------------------------------------------------------- sorting

  /** `before(a, b)`: the comparator is negative, a must precede b. */
  ghost predicate StrictWeakOrder<T(!new)>(before: (T, T) -> bool) {
    && (forall a, b :: before(a, b) ==> !before(b, a))
    && (forall a, b, c :: before(a, b) ==> before(a, c) || before(c, b))
  }

  ghost predicate Sorted<T>(before: (T, T) -> bool, s: seq<T>) {
    forall i, j | 0 <= i < j < |s| :: !before(s[j], s[i])
  }

  function Insert<T>(before: (T, T) -> bool, x: T, s: seq<T>): seq<T> {
    if s == [] then [x]
    else if before(s[0], x) then [s[0]] + Insert(before, x, s[1..])
    else [x] + s
  }

  /** Array.prototype.sort with a comparator: the elements in order, ties left as they were. */
  function Sort<T>(before: (T, T) -> bool, s: seq<T>): (r: seq<T>)
    ensures |r| == |s|
  {
    if s == [] then []
    else
      var t := Sort(before, s[1..]);
      InsertPermutes(before, s[0], t);
      Insert(before, s[0], t)
  }

  lemma {:induction false} InsertPermutes<T>(before: (T, T) -> bool, x: T, s: seq<T>)
    ensures |Insert(before, x, s)| == |s| + 1
    ensures multiset(Insert(before, x, s)) == multiset{x} + multiset(s)
  {
    if s != [] && before(s[0], x) {
      InsertPermutes(before, x, s[1..]);
      assert s == [s[0]] + s[1..];
    }
  }

  lemma {:induction false} SortPermutes<T>(before: (T, T) -> bool, s: seq<T>)
    ensures multiset(Sort(before, s)) == multiset(s)
    ensures forall x | x in Sort(before, s) :: x in s
    ensures forall x | x in s :: x in Sort(before, s)
  {
    if s == [] {
    } else {
      SortPermutes(before, s[1..]);
      InsertPermutes(before, s[0], Sort(before, s[1..]));
      assert s == [s[0]] + s[1..];
    }
    assert forall x | x in Sort(before, s) :: x in multiset(Sort(before, s));
    assert forall x | x in s :: x in multiset(s);
  }

  lemma {:induction false} MapInsertPermutes<T, U>(before: (T, T) -> bool, f: T -> U, x: T, s: seq<T>)
    ensures multiset(Map(f, Insert(before, x, s))) == multiset{f(x)} + multiset(Map(f, s))
  {
    if s != [] && before(s[0], x) {
      MapInsertPermutes(before, f, x, s[1..]);
      MapCons(f, s);
      MapCons(f, [s[0]] + Insert(before, x, s[1..]));
    } else {
      MapCons(f, [x] + s);
    }
  }

  /** Mapping a sorted sequence yields a permutation of mapping the sequence. */
  lemma {:induction false} MapSortPermutes<T, U>(before: (T, T) -> bool, f: T -> U, s: seq<T>)
    ensures multiset(Map(f, Sort(before, s))) == multiset(Map(f, s))
  {
    if s == [] {
    } else {
      MapSortPermutes(before, f, s[1..]);
      MapInsertPermutes(before, f, s[0], Sort(before, s[1..]));
      MapCons(f, s);
    }
  }

  lemma NothingBefore<T(!new)>(before: (T, T) -> bool, x: T, s: seq<T>)
    requires StrictWeakOrder(before) && Sorted(before, s)
    requires s == [] || !before(s[0], x)
    ensures forall y | y in s :: !before(y, x)
  {
    assert forall y | y in s :: before(y, x) ==> before(y, s[0]) || before(s[0], x);
  }

  lemma {:induction false} InsertSorted<T(!new)>(before: (T, T) -> bool, x: T, s: seq<T>)
    requires StrictWeakOrder(before) && Sorted(before, s)
    ensures Sorted(before, Insert(before, x, s))
  {
    if s == [] {
    } else {
      if before(s[0], x) {
        InsertSorted(before, x, s[1..]);
        var t := Insert(before, x, s[1..]);
        InsertPermutes(before, x, s[1..]);
        forall y | y in t
          ensures !before(y, s[0])
        {
          assert y in multiset(t);
        }
      } else {
        NothingBefore(before, x, s);
      }
    }
  }

  lemma {:induction false} SortSorted<T(!new)>(before: (T, T) -> bool, s: seq<T>)
    requires StrictWeakOrder(before)
    ensures Sorted(before, Sort(before, s))
  {
    if s == [] {
    } else {
      SortSorted(before, s[1..]);
      InsertSorted(before, s[0], Sort(before, s[1..]));
    }
  }

  lemma {:induction false} SortOfSorted<T(!new)>(before: (T, T) -> bool, s: seq<T>)
    requires Sorted(before, s)
    ensures Sort(before, s) == s
  {
    if s == [] {
    } else {
      SortOfSorted(before, s[1..]);
    }
  }

  lemma {:induction false} InsertMap<T(!new)>(before: (T, T) -> bool, f: T -> T, x: T, s: seq<T>)
    requires forall a, b :: before(f(a), f(b)) == before(a, b)
    ensures Insert(before, f(x), Map(f, s)) == Map(f, Insert(before, x, s))
  {
    if s == [] {
    } else {
      InsertMap(before, f, x, s[1..]);
      MapCons(f, s);
      MapCons(f, Insert(before, x, s));
      assert before(s[0], x) ==> Insert(before, x, s)[1..] == Insert(before, x, s[1..]);
      assert !before(s[0], x) ==> Insert(before, x, s)[1..] == s;
    }
  }

  /** A map that the comparator does not notice can be applied before or after sorting. */
  lemma {:induction false} SortMap<T(!new)>(before: (T, T) -> bool, f: T -> T, s: seq<T>)
    requires forall a, b :: before(f(a), f(b)) == before(a, b)
    ensures Sort(before, Map(f, s)) == Map(f, Sort(before, s))
  {
    if s == [] {
    } else {
      SortMap(before, f, s[1..]);
      assert Map(f, s)[1..] == Map(f, s[1..]);
      InsertMap(before, f, s[0], Sort(before, s[1..]));
    }
  }

  lemma {:induction false} FilterSorted<T>(before: (T, T) -> bool, p: T -> bool, s: seq<T>)
    requires Sorted(before, s)
    ensures Sorted(before, Filter(p, s))
  {
    if s == [] {
    } else {
      FilterSorted(before, p, s[1..]);
      assert forall y | y in s[1..] :: !before(y, s[0]);
    }
  }

  lemma {:induction false} FilterInsert<T(!new)>(before: (T, T) -> bool, p: T -> bool, x: T, s: seq<T>)
    requires StrictWeakOrder(before) && Sorted(before, s)
    ensures Filter(p, Insert(before, x, s)) == if p(x) then Insert(before, x, Filter(p, s)) else Filter(p, s)
  {
    if s == [] {
    } else if before(s[0], x) {
      FilterInsert(before, p, x, s[1..]);
      assert Insert(before, x, s)[1..] == Insert(before, x, s[1..]);
    } else {
      NothingBefore(before, x, s);
      InsertFirst(before, x, s);
      InsertFirst(before, x, Filter(p, s));
      assert ([x] + s)[1..] == s;
    }
  }

  lemma InsertFirst<T>(before: (T, T) -> bool, x: T, s: seq<T>)
    requires forall y | y in s :: !before(y, x)
    ensures Insert(before, x, s) == [x] + s
  {
    if s == [] {
    } else {
      assert s[0] in s;
    }
  }

  /** Sorting and filtering commute; this is what stability buys. */
  lemma {:induction false} FilterSort<T(!new)>(before: (T, T) -> bool, p: T -> bool, s: seq<T>)
    requires StrictWeakOrder(before)
    ensures Filter(p, Sort(before, s)) == Sort(before, Filter(p, s))
  {
    if s == [] {
    } else {
      FilterSort(before, p, s[1..]);
      SortSorted(before, s[1..]);
      FilterInsert(before, p, s[0], Sort(before, s[1..]));
    }
  }

  /**
   The head of a filtered stable sort, found in the unsorted sequence: it satisfies the
   filter, strictly beats every earlier candidate and is beaten by no later one.
   */
  lemma {:induction false} HeadOfSort<T(!new)>(before: (T, T) -> bool, p: T -> bool, s: seq<T>) returns (k: nat)
    requires StrictWeakOrder(before)
    requires Filter(p, s) != []
    ensures k < |s| && p(s[k]) && Sort(before, Filter(p, s))[0] == s[k]
    ensures forall j | 0 <= j < k && p(s[j]) :: before(s[k], s[j])
    ensures forall j | k <= j < |s| && p(s[j]) :: !before(s[j], s[k])
  {
    var t := s[1..];
    assert forall j | 0 < j < |s| :: s[j] == t[j - 1];
    if !p(s[0]) {
      k := HeadOfSort(before, p, t);
      k := k + 1;
    } else if Filter(p, t) == [] {
      k := 0;
      assert forall y | y in t && p(y) :: y in Filter(p, t);
    } else {
      k := HeadOfSort(before, p, t);
      if before(t[k], s[0]) {
        k := k + 1;
      } else {
        NotBeaten(before, p, s[0], t, k);
        k := 0;
      }
    }
  }

  /** Whatever does not lose to the best of a sequence does not lose to any of it. */
  lemma NotBeaten<T(!new)>(before: (T, T) -> bool, p: T -> bool, x: T, t: seq<T>, k: nat)
    requires StrictWeakOrder(before) && k < |t| && !before(t[k], x)
    requires forall j | 0 <= j < k && p(t[j]) :: before(t[k], t[j])
    requires forall j | k <= j < |t| && p(t[j]) :: !before(t[j], t[k])
    ensures forall j | 0 <= j < |t| && p(t[j]) :: !before(t[j], x)
  {
    var best := t[k];
    assert forall y | before(y, x) :: before(y, best) || before(best, x);
  }

  /** Elements that precede all the others can be sorted apart from them. */
  lemma {:induction false} SortPartition<T>(before: (T, T) -> bool, p: T -> bool, q: T -> bool, s: seq<T>)
    requires forall x, y | x in s && y in s && p(x) && !p(y) :: before(x, y) && !before(y, x)
    requires forall x | x in s :: q(x) == !p(x)
    ensures Sort(before, s) == Sort(before, Filter(p, s)) + Sort(before, Filter(q, s))
  {
    if s == [] {
    } else {
      var a, b := Sort(before, Filter(p, s[1..])), Sort(before, Filter(q, s[1..]));
      SortPartition(before, p, q, s[1..]);
      SortPermutes(before, Filter(p, s[1..]));
      SortPermutes(before, Filter(q, s[1..]));
      InsertPartition(before, s[0], a, b, p(s[0]));
    }
  }

  lemma {:induction false} InsertPartition<T>(before: (T, T) -> bool, x: T, a: seq<T>, b: seq<T>, inFirst: bool)
    requires if inFirst then forall y | y in b :: !before(y, x) else forall y | y in a :: before(y, x)
    ensures Insert(before, x, a + b) == if inFirst then Insert(before, x, a) + b else a + Insert(before, x, b)
  {
    if a == [] {
      assert a + b == b;
    } else {
      assert (a + b)[1..] == a[1..] + b;
      if before(a[0], x) {
        InsertPartition(before, x, a[1..], b, inFirst);
      }
    }
  }

  ghost function TiesWith<T>(before: (T, T) -> bool, a: T): T -> bool {
    x => !before(x, a) && !before(a, x)
  }

  /** The elements of s that tie with a, in order. */
  ghost function Ties<T>(before: (T, T) -> bool, a: T, s: seq<T>): seq<T> {
    Filter(TiesWith(before, a), s)
  }

  /** r is a stable sort of s: sorted, and every group of ties is listed as it was in s. */
  ghost predicate IsStableSort<T(!new)>(before: (T, T) -> bool, r: seq<T>, s: seq<T>) {
    Sorted(before, r) && forall a :: Ties(before, a, r) == Ties(before, a, s)
  }

  lemma SortIsStable<T(!new)>(before: (T, T) -> bool, s: seq<T>)
    requires StrictWeakOrder(before)
    ensures IsStableSort(before, Sort(before, s), s)
  {
    SortSorted(before, s);
    forall a
      ensures Ties(before, a, Sort(before, s)) == Ties(before, a, s)
    {
      var p := TiesWith(before, a);
      FilterSort(before, p, s);
      SortOfSorted(before, Filter(p, s)) by {
        forall x, y | x in Filter(p, s) && y in Filter(p, s)
          ensures !before(x, y)
        {
          assert before(x, y) ==> before(x, a) || before(a, y);
        }
      }
    }
  }

  /** A stable sort is unique, so `Sort` is what any engine's sort returns. */
  lemma {:induction false} StableSortIsUnique<T(!new)>(before: (T, T) -> bool, r: seq<T>, q: seq<T>)
    requires StrictWeakOrder(before)
    requires Sorted(before, r) && Sorted(before, q)
    requires forall a :: Ties(before, a, r) == Ties(before, a, q)
    ensures r == q
  {
    assert q != [] ==> q[0] in Ties(before, q[0], q);
    if r == [] {
      assert forall a :: Ties(before, a, q) == Ties(before, a, r) == [];
    } else {
      assert Ties(before, r[0], r)[0] == r[0];
      assert r[0] in Ties(before, r[0], q);
      assert Ties(before, q[0], q)[0] == q[0];
      assert q[0] in Ties(before, q[0], r);
      assert !before(q[0], r[0]) && !before(r[0], q[0]);
      assert Ties(before, r[0], q)[0] == q[0];
      forall a
        ensures Ties(before, a, r[1..]) == Ties(before, a, q[1..])
      {
        assert Ties(before, a, r) == Ties(before, a, q);
        var p := TiesWith(before, a);
        assert Filter(p, r)[if p(r[0]) then 1 else 0..] == Filter(p, r[1..]);
        assert Filter(p, q)[if p(q[0]) then 1 else 0..] == Filter(p, q[1..]);
      }
      StableSortIsUnique(before, r[1..], q[1..]);
    }
  }
}
