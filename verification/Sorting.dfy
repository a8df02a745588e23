/** The stable sort behind `toSorted`, `list.sort` and `sorted`. */
module Sorting {

  ghost predicate TotalPreorder<T(!new)>(le: (T, T) -> bool) {
    && (forall x, y :: le(x, y) || le(y, x))
    && (forall x, y, z :: le(x, y) && le(y, z) ==> le(x, z))
  }

  /** The order tells distinct elements of the list apart. */
  ghost predicate NoTies<T(!new)>(xs: seq<T>, le: (T, T) -> bool) {
    forall x, y | x in xs && y in xs && le(x, y) && le(y, x) :: x == y
  }

  ghost predicate SortedBy<T>(xs: seq<T>, le: (T, T) -> bool) {
    forall i, j | 0 <= i < j < |xs| :: le(xs[i], xs[j])
  }

  /** Puts `x` before the first element that it does not exceed. */
  function Insert<T>(x: T, ys: seq<T>, le: (T, T) -> bool): seq<T> {
    if ys == [] || le(x, ys[0]) then [x] + ys else [ys[0]] + Insert(x, ys[1..], le)
  }

  function Sort<T>(xs: seq<T>, le: (T, T) -> bool): seq<T> {
    if xs == [] then [] else Insert(xs[0], Sort(xs[1..], le), le)
  }

  lemma {:induction false} InsertPermutes<T>(x: T, ys: seq<T>, le: (T, T) -> bool)
    ensures multiset(Insert(x, ys, le)) == multiset{x} + multiset(ys)
    ensures |Insert(x, ys, le)| == |ys| + 1
  {
    if ys != [] && !le(x, ys[0]) {
      InsertPermutes(x, ys[1..], le);
      assert ys == [ys[0]] + ys[1..];
    }
  }

  lemma {:induction false} InsertSorted<T(!new)>(x: T, ys: seq<T>, le: (T, T) -> bool)
    requires TotalPreorder(le) && SortedBy(ys, le)
    ensures SortedBy(Insert(x, ys, le), le)
  {
    if ys != [] && !le(x, ys[0]) {
      var tail := Insert(x, ys[1..], le);
      InsertSorted(x, ys[1..], le);
      InsertPermutes(x, ys[1..], le);
      forall j | 0 <= j < |tail|
        ensures le(ys[0], tail[j])
      {
        assert tail[j] in multiset(tail);
        assert tail[j] == x || tail[j] in ys[1..];
      }
    }
  }

  lemma {:induction false} SortPermutes<T>(xs: seq<T>, le: (T, T) -> bool)
    ensures multiset(Sort(xs, le)) == multiset(xs)
    ensures |Sort(xs, le)| == |xs|
    ensures forall x :: x in Sort(xs, le) <==> x in xs
  {
    if xs != [] {
      SortPermutes(xs[1..], le);
      InsertPermutes(xs[0], Sort(xs[1..], le), le);
      assert xs == [xs[0]] + xs[1..];
    }
    forall x
      ensures x in Sort(xs, le) <==> x in xs
    {
      assert x in Sort(xs, le) <==> x in multiset(Sort(xs, le));
      assert x in xs <==> x in multiset(xs);
    }
  }

  lemma {:induction false} SortSorted<T(!new)>(xs: seq<T>, le: (T, T) -> bool)
    requires TotalPreorder(le)
    ensures SortedBy(Sort(xs, le), le)
  {
    if xs != [] {
      SortSorted(xs[1..], le);
      InsertSorted(xs[0], Sort(xs[1..], le), le);
    }
  }

  /** Sorting a sorted list leaves it alone, even when elements tie. */
  lemma {:induction false} SortFixed<T(!new)>(xs: seq<T>, le: (T, T) -> bool)
    requires SortedBy(xs, le)
    ensures Sort(xs, le) == xs
  {
    if xs != [] {
      SortFixed(xs[1..], le);
      if |xs| > 1 {
        assert le(xs[0], xs[1]);
      }
      assert xs == [xs[0]] + xs[1..];
    }
  }

  /** Without ties there is only one sorted arrangement. */
  lemma {:induction false} SortedUnique<T(!new)>(xs: seq<T>, ys: seq<T>, le: (T, T) -> bool)
    requires TotalPreorder(le) && NoTies(xs, le)
    requires SortedBy(xs, le) && SortedBy(ys, le)
    requires multiset(xs) == multiset(ys)
    ensures xs == ys
  {
    assert |xs| == |multiset(xs)| == |multiset(ys)| == |ys|;
    if xs != [] {
      SameHead(xs, ys, le);
      WithoutHead(xs);
      WithoutHead(ys);
      SortedUnique(xs[1..], ys[1..], le);
    }
  }

  lemma WithoutHead<T>(xs: seq<T>)
    requires xs != []
    ensures xs == [xs[0]] + xs[1..] && multiset(xs[1..]) == multiset(xs) - multiset{xs[0]}
  {
    assert xs == [xs[0]] + xs[1..];
  }

  lemma SameHead<T(!new)>(xs: seq<T>, ys: seq<T>, le: (T, T) -> bool)
    requires TotalPreorder(le) && NoTies(xs, le) && xs != [] && ys != []
    requires SortedBy(xs, le) && SortedBy(ys, le)
    requires multiset(xs) == multiset(ys)
    ensures xs[0] == ys[0]
  {
    assert xs[0] in multiset(ys) && ys[0] in multiset(xs);
    assert ys[0] in xs && xs[0] in ys;
    assert le(xs[0], ys[0]) && le(ys[0], xs[0]);
  }

  lemma SortCanonical<T(!new)>(xs: seq<T>, ys: seq<T>, le: (T, T) -> bool)
    requires TotalPreorder(le) && NoTies(xs, le)
    requires multiset(xs) == multiset(ys)
    ensures Sort(xs, le) == Sort(ys, le)
  {
    SortPermutes(xs, le);
    SortPermutes(ys, le);
    SortSorted(xs, le);
    SortSorted(ys, le);
    SortedUnique(Sort(xs, le), Sort(ys, le), le);
  }

  ghost predicate Distinct<T>(xs: seq<T>) {
    forall i, j | 0 <= i < j < |xs| :: xs[i] != xs[j]
  }

  /** Distinct lists with the same elements are permutations of each other. */
  lemma {:induction false} SameElements<T>(xs: seq<T>, ys: seq<T>)
    requires Distinct(xs) && Distinct(ys)
    requires forall x :: x in xs <==> x in ys
    ensures multiset(xs) == multiset(ys)
  {
    forall x
      ensures multiset(xs)[x] == multiset(ys)[x]
    {
      DistinctCount(xs, x);
      DistinctCount(ys, x);
    }
  }

  lemma {:induction false} DistinctCount<T>(xs: seq<T>, x: T)
    requires Distinct(xs)
    ensures multiset(xs)[x] == if x in xs then 1 else 0
  {
    if xs != [] {
      DistinctCount(xs[1..], x);
      assert xs == [xs[0]] + xs[1..];
    }
  }

  /** A permutation of a distinct list is distinct. */
  lemma {:induction false} PermutedDistinct<T>(xs: seq<T>, ys: seq<T>)
    requires Distinct(xs)
    requires multiset(xs) == multiset(ys)
    ensures Distinct(ys)
  {
    forall i, j | 0 <= i < j < |ys|
      ensures ys[i] != ys[j]
    {
      if ys[i] == ys[j] {
        assert ys == ys[..j] + [ys[j]] + ys[j + 1..];
        assert ys[i] in ys[..j];
        assert multiset(ys)[ys[i]] >= 2;
        DistinctCount(xs, ys[i]);
      }
    }
  }

  /** The elements that tie with `x`, in the order of the list. */
  function Tied<T>(xs: seq<T>, x: T, le: (T, T) -> bool): seq<T> {
    if xs == [] then []
    else (if Ties(xs[0], x, le) then [xs[0]] else []) + Tied(xs[1..], x, le)
  }

  predicate Ties<T>(a: T, b: T, le: (T, T) -> bool) {
    le(a, b) && le(b, a)
  }

  lemma TieOrdersBoth<T(!new)>(y: T, z: T, x: T, le: (T, T) -> bool)
    requires TotalPreorder(le) && Ties(y, x, le) && Ties(z, x, le)
    ensures le(y, z)
  {
  }

  lemma TiedCons<T>(h: T, t: seq<T>, x: T, le: (T, T) -> bool)
    ensures Tied([h] + t, x, le) == if Ties(h, x, le) then [h] + Tied(t, x, le) else Tied(t, x, le)
  {
    hide Ties;
    assert ([h] + t)[1..] == t;
  }

  lemma {:induction false} InsertTied<T(!new)>(y: T, ys: seq<T>, x: T, le: (T, T) -> bool)
    requires TotalPreorder(le)
    ensures Tied(Insert(y, ys, le), x, le) == if Ties(y, x, le) then [y] + Tied(ys, x, le) else Tied(ys, x, le)
  {
    hide TotalPreorder, Ties, Tied;
    if ys == [] || le(y, ys[0]) {
      TiedCons(y, ys, x, le);
    } else {
      InsertTied(y, ys[1..], x, le);
      TiedCons(ys[0], ys[1..], x, le);
      TiedCons(ys[0], Insert(y, ys[1..], le), x, le);
      assert ys == [ys[0]] + ys[1..];
      if Ties(y, x, le) && Ties(ys[0], x, le) {
        TieOrdersBoth(y, ys[0], x, le);
        assert false;
      }
    }
  }

  /** Sorting is stable: elements that tie keep their order. */
  lemma {:induction false} SortStable<T(!new)>(xs: seq<T>, x: T, le: (T, T) -> bool)
    requires TotalPreorder(le)
    ensures Tied(Sort(xs, le), x, le) == Tied(xs, x, le)
  {
    hide TotalPreorder, Ties, Tied;
    if xs != [] {
      SortStable(xs[1..], x, le);
      InsertTied(xs[0], Sort(xs[1..], le), x, le);
      TiedCons(xs[0], xs[1..], x, le);
      assert xs == [xs[0]] + xs[1..];
    }
  }
}
