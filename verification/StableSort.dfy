/**
 Sorting by an integer rank, as `Array.prototype.sort` does it with a comparator that
 subtracts ranks (section 23.1.3.30 of ECMA-262): the result is ordered, and elements of
 equal rank keep their order.
 */
module StableSort {
  ghost predicate Sorted<T>(rank: T -> int, s: seq<T>) {
    forall i, j :: 0 <= i < j < |s| ==> rank(s[i]) <= rank(s[j])
  }

  /** The elements of rank `k`, in order. */
  ghost function OfRank<T>(rank: T -> int, s: seq<T>, k: int): seq<T> {
    if s == [] then [] else (if rank(s[0]) == k then [s[0]] else []) + OfRank(rank, s[1..], k)
  }

  /** `r` is what a stable sort makes of `s`. */
  ghost predicate StablySorts<T(!new)>(rank: T -> int, s: seq<T>, r: seq<T>) {
    Sorted(rank, r) && forall k :: OfRank(rank, r, k) == OfRank(rank, s, k)
  }

  /** Index of the first element that ranks after `x`. */
  function Place<T>(rank: T -> int, s: seq<T>, x: T): (p: nat)
    ensures p <= |s|
  {
    if s == [] || rank(x) < rank(s[0]) then 0 else 1 + Place(rank, s[1..], x)
  }

  function Insert<T>(rank: T -> int, s: seq<T>, x: T): seq<T> {
    var p := Place(rank, s, x);
    s[..p] + [x] + s[p..]
  }

  function Sort<T>(rank: T -> int, s: seq<T>): seq<T> {
    if s == [] then [] else Insert(rank, Sort(rank, s[..|s| - 1]), s[|s| - 1])
  }

  lemma {:induction false} PlaceSplits<T>(rank: T -> int, s: seq<T>, x: T)
    ensures var p := Place(rank, s, x);
            && (forall i :: 0 <= i < p ==> rank(s[i]) <= rank(x))
            && (p < |s| ==> rank(x) < rank(s[p]))
  {
    if s != [] && rank(s[0]) <= rank(x) {
      PlaceSplits(rank, s[1..], x);
      forall i | 0 <= i < Place(rank, s, x) ensures rank(s[i]) <= rank(x) {
        assert i > 0 ==> s[i] == s[1..][i - 1];
      }
    }
  }

  lemma InsertAt<T>(rank: T -> int, s: seq<T>, x: T, i: nat)
    requires i <= |s|
    ensures var p := Place(rank, s, x);
            |Insert(rank, s, x)| == |s| + 1
            && Insert(rank, s, x)[i] == if i < p then s[i] else if i == p then x else s[i - 1]
  {
  }

  lemma {:induction false} OfRankConcat<T>(rank: T -> int, a: seq<T>, b: seq<T>, k: int)
    ensures OfRank(rank, a + b, k) == OfRank(rank, a, k) + OfRank(rank, b, k)
  {
    if a == [] {
      assert a + b == b;
    } else {
      var head := if rank(a[0]) == k then [a[0]] else [];
      OfRankConcat(rank, a[1..], b, k);
      assert (a + b)[1..] == a[1..] + b;
      assert OfRank(rank, a + b, k) == head + (OfRank(rank, a[1..], k) + OfRank(rank, b, k));
    }
  }

  lemma {:induction false} OfRankAbsent<T>(rank: T -> int, s: seq<T>, k: int)
    requires forall i :: 0 <= i < |s| ==> rank(s[i]) != k
    ensures OfRank(rank, s, k) == []
  {
    if s != [] {
      OfRankAbsent(rank, s[1..], k);
    }
  }

  lemma OfRankAround<T>(rank: T -> int, a: seq<T>, x: T, b: seq<T>, k: int)
    ensures OfRank(rank, a + [x] + b, k)
         == OfRank(rank, a, k) + (if rank(x) == k then [x] else []) + OfRank(rank, b, k)
  {
    OfRankConcat(rank, a + [x], b, k);
    OfRankConcat(rank, a, [x], k);
  }

  /** In a sorted sequence everything from the place of `x` on ranks after `x`. */
  lemma PlaceOfSorted<T>(rank: T -> int, s: seq<T>, x: T)
    requires Sorted(rank, s)
    ensures forall i :: 0 <= i < |s| ==> if i < Place(rank, s, x) then rank(s[i]) <= rank(x) else rank(x) < rank(s[i])
  {
    PlaceSplits(rank, s, x);
  }

  lemma InsertIsSorted<T>(rank: T -> int, s: seq<T>, x: T)
    requires Sorted(rank, s)
    ensures Sorted(rank, Insert(rank, s, x))
  {
    var all := Insert(rank, s, x);
    PlaceOfSorted(rank, s, x);
    forall i, j | 0 <= i < j < |all| ensures rank(all[i]) <= rank(all[j]) {
      InsertAt(rank, s, x, i);
      InsertAt(rank, s, x, j);
    }
  }

  /** Moving `x` in front of elements of other ranks does not show within any rank. */
  lemma OfRankPast<T>(rank: T -> int, a: seq<T>, x: T, b: seq<T>, k: int)
    requires forall i :: 0 <= i < |b| ==> rank(b[i]) != rank(x)
    ensures OfRank(rank, a + [x] + b, k) == OfRank(rank, a + b + [x], k)
  {
    OfRankAround(rank, a, x, b, k);
    OfRankConcat(rank, a + b, [x], k);
    OfRankConcat(rank, a, b, k);
    if rank(x) == k {
      OfRankAbsent(rank, b, k);
    }
  }

  /** Pushing at the end and inserting after the equals give the same order within a rank. */
  lemma InsertKeepsOfRank<T>(rank: T -> int, s: seq<T>, x: T, k: int)
    requires Sorted(rank, s)
    ensures OfRank(rank, Insert(rank, s, x), k) == OfRank(rank, s + [x], k)
  {
    var p := Place(rank, s, x);
    PlaceOfSorted(rank, s, x);
    assert s == s[..p] + s[p..];
    OfRankPast(rank, s[..p], x, s[p..], k);
  }

  /** `Sort` is a stable sort. */
  lemma {:induction false} SortIsStable<T(!new)>(rank: T -> int, s: seq<T>)
    ensures StablySorts(rank, s, Sort(rank, s))
  {
    if s != [] {
      var front, last := s[..|s| - 1], s[|s| - 1];
      SortIsStable(rank, front);
      assert s == front + [last];
      InsertIsSorted(rank, Sort(rank, front), last);
      forall k ensures OfRank(rank, Sort(rank, s), k) == OfRank(rank, s, k) {
        InsertKeepsOfRank(rank, Sort(rank, front), last, k);
        OfRankConcat(rank, Sort(rank, front), [last], k);
        OfRankConcat(rank, front, [last], k);
      }
    }
  }

  /** A sorted sequence starts with its first element of the lowest rank present. */
  lemma LowestFirst<T>(rank: T -> int, s: seq<T>, k: int)
    requires Sorted(rank, s) && OfRank(rank, s, k) != []
    ensures s != [] && rank(s[0]) <= k
    ensures rank(s[0]) == k ==> OfRank(rank, s, k)[0] == s[0]
  {
    if s != [] && k < rank(s[0]) {
      OfRankAbsent(rank, s, k);
    }
  }

  lemma SameHead<T(!new)>(rank: T -> int, a: seq<T>, b: seq<T>)
    requires a != []
    requires Sorted(rank, a) && Sorted(rank, b)
    requires forall k :: OfRank(rank, a, k) == OfRank(rank, b, k)
    ensures b != [] && b[0] == a[0]
  {
    var k := rank(a[0]);
    assert OfRank(rank, a, k) == OfRank(rank, b, k) != [];
    LowestFirst(rank, a, k);
    LowestFirst(rank, b, k);
    var l := rank(b[0]);
    assert OfRank(rank, b, l) == OfRank(rank, a, l) != [];
    LowestFirst(rank, a, l);
  }

  lemma {:induction false} SortedIsDetermined<T(!new)>(rank: T -> int, a: seq<T>, b: seq<T>)
    requires Sorted(rank, a) && Sorted(rank, b)
    requires forall k :: OfRank(rank, a, k) == OfRank(rank, b, k)
    ensures a == b
  {
    if a == [] {
      if b != [] {
        SameHead(rank, b, a);
      }
    } else {
      SameHead(rank, a, b);
      forall k ensures OfRank(rank, a[1..], k) == OfRank(rank, b[1..], k) {
        var skip := if rank(a[0]) == k then 1 else 0;
        assert OfRank(rank, a[1..], k) == OfRank(rank, a, k)[skip..];
        assert OfRank(rank, b[1..], k) == OfRank(rank, b, k)[skip..];
      }
      SortedIsDetermined(rank, a[1..], b[1..]);
    }
  }

  /** Every stable sort gives what `Sort` gives. */
  lemma StableSortIsUnique<T(!new)>(rank: T -> int, s: seq<T>, r: seq<T>)
    requires StablySorts(rank, s, r)
    ensures r == Sort(rank, s)
  {
    SortIsStable(rank, s);
    SortedIsDetermined(rank, r, Sort(rank, s));
  }

  ghost predicate SameWithinRanks<T(!new)>(rank: T -> int, a: seq<T>, b: seq<T>) {
    forall k :: OfRank(rank, a, k) == OfRank(rank, b, k)
  }

  /** A sorted sequence is what sorting `s` gives exactly when it agrees with `s` within every rank. */
  lemma SortGivesIff<T(!new)>(rank: T -> int, s: seq<T>, r: seq<T>)
    requires Sorted(rank, r)
    ensures Sort(rank, s) == r <==> SameWithinRanks(rank, s, r)
  {
    SortIsStable(rank, s);
    if SameWithinRanks(rank, s, r) {
      StableSortIsUnique(rank, s, r);
    }
  }

  /** Pushing onto a sorted array and sorting it is an insertion after the equals. */
  lemma PushThenSort<T(!new)>(rank: T -> int, s: seq<T>, x: T)
    requires Sorted(rank, s)
    ensures Sort(rank, s + [x]) == Insert(rank, s, x)
  {
    StableSortIsUnique(rank, s, s);
    assert (s + [x])[..|s|] == s;
  }

  lemma InsertAdds<T>(rank: T -> int, s: seq<T>, x: T)
    ensures multiset(Insert(rank, s, x)) == multiset(s) + multiset{x}
  {
    hide Place;
    var p := Place(rank, s, x);
    assert s == s[..p] + s[p..];
  }

  lemma {:induction false} SortKeepsMultiset<T>(rank: T -> int, s: seq<T>)
    ensures multiset(Sort(rank, s)) == multiset(s)
  {
    hide Insert;
    if s != [] {
      var front, last := s[..|s| - 1], s[|s| - 1];
      SortKeepsMultiset(rank, front);
      InsertAdds(rank, Sort(rank, front), last);
      assert s == front + [last];
    }
  }
}
