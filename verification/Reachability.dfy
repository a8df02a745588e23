/** Reachable sets of a graph, as least closed sets. */
module Reachability {

  ghost predicate Closed<T(!new)>(s: set<T>, next: T -> seq<T>) {
    forall x, y | x in s && y in next(x) :: y in s
  }

  /** `s` is the least set that holds `start` and is closed under `next`. */
  ghost predicate Least<T(!new)>(s: set<T>, start: T, next: T -> seq<T>) {
    && start in s && Closed(s, next)
    && (forall c: set<T> | start in c && Closed(c, next) :: s <= c)
  }

  lemma LeastUnique<T(!new)>(s: set<T>, t: set<T>, start: T, next: T -> seq<T>)
    requires Least(s, start, next) && Least(t, start, next)
    ensures s == t
  {
  }

  /** `x` lies in every closed set around the start. */
  ghost predicate Forced<T(!new)>(x: T, start: T, next: T -> seq<T>) {
    forall c: set<T> | start in c && Closed(c, next) :: x in c
  }

  /** What a depth-first walk keeps: everything seen or stacked is forced, and what is
      seen leads only to what is seen or stacked. */
  ghost predicate Walking<T(!new)>(seen: set<T>, stack: seq<T>, start: T, next: T -> seq<T>) {
    && (start in seen || start in stack)
    && (forall x, y | x in seen && y in next(x) :: y in seen || y in stack)
    && (forall x | x in seen || x in stack :: Forced(x, start, next))
  }

  lemma ForcedNext<T(!new)>(x: T, y: T, start: T, next: T -> seq<T>)
    requires Forced(x, start, next) && y in next(x)
    ensures Forced(y, start, next)
  {
  }

  lemma WalkStarts<T(!new)>(start: T, next: T -> seq<T>)
    ensures Walking({}, [start], start, next)
  {
  }

  lemma WalkSkips<T(!new)>(seen: set<T>, stack: seq<T>, start: T, next: T -> seq<T>)
    requires Walking(seen, stack, start, next)
    requires stack != [] && stack[|stack| - 1] in seen
    ensures Walking(seen, stack[..|stack| - 1], start, next)
  {
    assert stack == stack[..|stack| - 1] + [stack[|stack| - 1]];
  }

  lemma WalkVisits<T(!new)>(seen: set<T>, stack: seq<T>, start: T, next: T -> seq<T>)
    requires Walking(seen, stack, start, next) && stack != []
    ensures var x := stack[|stack| - 1]; Walking(seen + {x}, stack[..|stack| - 1] + next(x), start, next)
  {
    var x := stack[|stack| - 1];
    assert stack == stack[..|stack| - 1] + [x];
    forall y | y in next(x)
      ensures Forced(y, start, next)
    {
      ForcedNext(x, y, start, next);
    }
  }

  lemma WalkEnds<T(!new)>(seen: set<T>, start: T, next: T -> seq<T>)
    requires Walking(seen, [], start, next)
    ensures Least(seen, start, next)
  {
  }
}
