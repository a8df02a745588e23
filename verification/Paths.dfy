/** Absolute POSIX paths as lists of segments, and the common ancestor of several. */
module Paths {
  import opened Text

  type Path = seq<string>

  /** A segment of a resolved path. */
  predicate Proper(p: Path) {
    forall s <- p :: s != "" && s != "." && s != ".." && '/' !in s
  }

  /** `path.dirname`. */
  function Dirname(p: Path): Path {
    if p == [] then [] else p[..|p| - 1]
  }

  /** One segment of `path.resolve`. */
  function StepDir(dir: Path, part: string): Path {
    if part == "" || part == "." then dir
    else if part == ".." then Dirname(dir)
    else dir + [part]
  }

  /** `path.resolve(dir, parts joined by slashes)`. */
  function Walk(dir: Path, parts: seq<string>): Path
    decreases |parts|
  {
    if parts == [] then dir else Walk(StepDir(dir, parts[0]), parts[1..])
  }

  /** The length of the longest common prefix. */
  function Lcp(a: Path, b: Path): (n: nat)
    ensures n <= |a| && n <= |b| && a[..n] == b[..n]
    ensures n < |a| && n < |b| ==> a[n] != b[n]
  {
    if a == [] || b == [] || a[0] != b[0] then 0 else 1 + Lcp(a[1..], b[1..])
  }

  /** The segments of `path.relative(a, b)`. */
  function Relative(a: Path, b: Path): seq<string> {
    seq(|a| - Lcp(a, b), _ => "..") + b[Lcp(a, b)..]
  }

  lemma LcpPrefix(a: Path, b: Path)
    requires a <= b
    ensures Lcp(a, b) == |a|
  {
  }

  /** Lengths of common prefixes are exactly those up to `Lcp`. */
  lemma LcpIs(a: Path, b: Path, n: nat)
    requires n <= |a| && n <= |b|
    ensures a[..n] == b[..n] <==> n <= Lcp(a, b)
  {
    var l := Lcp(a, b);
    if n > l {
      assert a[..n][l] == a[l] && b[..n][l] == b[l];
    } else {
      assert a[..n] == a[..l][..n] && b[..n] == b[..l][..n];
    }
  }

  lemma LcpTake(a: Path, b: Path, n: nat)
    requires n <= |a|
    ensures Lcp(a[..n], b) == if n < Lcp(a, b) then n else Lcp(a, b)
  {
    var m := Lcp(a[..n], b);
    LcpIs(a, b, m);
    assert a[..n][..m] == a[..m];
    if m < n && m < Lcp(a, b) {
      LcpIs(a[..n], b, m + 1);
      LcpIs(a, b, m + 1);
    }
  }

  // ---------- resolveCommonAncestor ----------

  predicate ProperAncestor(c: Path, f: Path) {
    c < f
  }

  /** `path.relative(ancestor, candidate).startsWith("../")`. */
  predicate Outside(ancestor: Path, candidate: Path) {
    StartsWith(Join(Relative(ancestor, candidate), '/'), "../")
  }

  lemma OutsideMeans(a: Path, c: Path)
    requires Proper(c)
    ensures Outside(a, c) <==> |a| > Lcp(a, c) && |Relative(a, c)| >= 2
  {
    var r := Relative(a, c);
    if |a| > Lcp(a, c) {
      assert r[0] == "..";
      if |r| >= 2 {
        assert Join(r, '/') == ".." + ['/'] + Join(r[1..], '/');
      }
    } else if r != [] {
      assert r[0] == c[Lcp(a, c)] && r[0] in c;
      NameIsNoParent(r[0], if |r| == 1 then "" else "/" + Join(r[1..], '/'));
      assert |r| == 1 ==> r[0] + "" == r[0];
    }
  }

  lemma NameIsNoParent(name: string, tail: string)
    requires Proper([name]) && (tail == "" || tail[0] == '/')
    ensures !StartsWith(name + tail, "../")
  {
    var text := name + tail;
    assert name in [name];
    if |name| >= 3 {
      assert text[2] == name[2] && name[2] in name;
    } else if |name| == 2 {
      assert text[..2] == name;
    } else {
      assert name == [text[0]];
    }
  }

  /** How much of `f` the loop keeps for one candidate: the common part, but one segment
      too much when the candidate is a proper ancestor. */
  function Kept(f: Path, c: Path): nat {
    if ProperAncestor(c, f) then |c| + 1 else Lcp(f, c)
  }

  function AncestorLength(f: Path, rest: seq<Path>): (n: nat)
    ensures n <= |f|
    ensures forall c <- rest :: n <= Kept(f, c)
    ensures n == |f| || exists c :: c in rest && n == Kept(f, c)
  {
    if rest == [] then |f|
    else
      var c := rest[|rest| - 1];
      var n := AncestorLength(f, rest[..|rest| - 1]);
      assert rest == rest[..|rest| - 1] + [c];
      if Kept(f, c) < n then Kept(f, c) else n
  }

  lemma OutsideStep(f: Path, c: Path, n: nat)
    requires Proper(c) && n <= |f|
    ensures Outside(f[..n], c) <==> n > Kept(f, c)
    ensures Outside(f[..n], c) ==> n > 0
  {
    OutsideMeans(f[..n], c);
    LcpTake(f, c, n);
    if ProperAncestor(c, f) {
      LcpIs(f, c, |c|);
    } else if Lcp(f, c) == |c| {
      assert c == f[..|c|];
    }
  }

  /** The inner loop: climbs from the first `n` segments of `f` until the candidate no
      longer shows as outside. The root never does, so it needs no test of its own. */
  method Climb(f: Path, n: nat, candidate: Path) returns (ancestor: Path)
    requires Proper(candidate) && n <= |f|
    ensures ancestor == f[..if Kept(f, candidate) < n then Kept(f, candidate) else n]
  {
    ancestor := f[..n];
    OutsideStep(f, candidate, n);
    ghost var k := n;
    while Outside(ancestor, candidate)
      invariant 0 <= k <= n && ancestor == f[..k]
      invariant k == n || k >= Kept(f, candidate)
      invariant Outside(ancestor, candidate) <==> k > Kept(f, candidate)
      decreases k
    {
      ancestor := Dirname(ancestor);
      k := k - 1;
      OutsideStep(f, candidate, k);
    }
  }

  /** `resolveCommonAncestor`; an empty list of paths throws. */
  method ResolveCommonAncestor(paths: seq<Path>) returns (r: Result<Path>)
    requires forall p <- paths :: Proper(p)
    ensures paths == [] ==> r.Thrown?
    ensures paths != [] ==> r == Ok(paths[0][..AncestorLength(paths[0], paths[1..])])
  {
    if paths == [] {
      return Thrown("cannot resolve common ancestor for empty path set");
    }
    var first, rest := paths[0], paths[1..];
    var ancestor := first;
    for i := 0 to |rest|
      invariant ancestor == first[..AncestorLength(first, rest[..i])]
    {
      assert rest[..i + 1][..i] == rest[..i];
      assert rest[i] == paths[i + 1];
      ancestor := Climb(first, |ancestor|, rest[i]);
    }
    assert rest[..|rest|] == rest;
    r := Ok(ancestor);
  }

  ghost predicate ContainsAll(d: Path, f: Path, rest: seq<Path>) {
    d <= f && forall c <- rest :: d <= c
  }

  /** Some later path is a proper ancestor of the first, and every later path lies below
      the next segment or is itself an ancestor that reaches as deep. */
  ghost predicate Overshoots(f: Path, rest: seq<Path>) {
    exists c :: c in rest && ProperAncestor(c, f) &&
      forall d <- rest :: (ProperAncestor(d, f) && |d| >= |c|) || f[..|c| + 1] <= d
  }

  lemma KeptMeans(f: Path, c: Path, d: Path)
    requires ProperAncestor(c, f)
    ensures Kept(f, d) >= |c| + 1 <==> (ProperAncestor(d, f) && |d| >= |c|) || f[..|c| + 1] <= d
  {
    if !ProperAncestor(d, f) {
      if |d| >= |c| + 1 {
        LcpIs(f, d, |c| + 1);
      }
    } else if f[..|c| + 1] <= d {
      assert |d| >= |c| + 1;
    }
  }

  /** The result contains every path exactly when the loop does not overshoot; it is then
      the deepest directory that does. */
  lemma CommonAncestorExact(f: Path, rest: seq<Path>)
    ensures var r := f[..AncestorLength(f, rest)];
            && (ContainsAll(r, f, rest) <==> !Overshoots(f, rest))
            && (forall d | ContainsAll(d, f, rest) :: d <= r)
  {
    var n := AncestorLength(f, rest);
    var r := f[..n];
    forall d | ContainsAll(d, f, rest)
      ensures d <= r
    {
      forall c | c in rest
        ensures |d| <= Kept(f, c)
      {
        LcpIs(f, c, |d|);
      }
    }
    if c :| c in rest && !(r <= c) {
      if n <= |c| {
        LcpIs(f, c, n);
      }
      assert ProperAncestor(c, f) && n == |c| + 1;
      forall d | d in rest
        ensures (ProperAncestor(d, f) && |d| >= |c|) || f[..|c| + 1] <= d
      {
        KeptMeans(f, c, d);
      }
      assert Overshoots(f, rest);
    }
    if Overshoots(f, rest) {
      var c :| c in rest && ProperAncestor(c, f) &&
        forall d <- rest :: (ProperAncestor(d, f) && |d| >= |c|) || f[..|c| + 1] <= d;
      forall d | d in rest
        ensures Kept(f, d) >= |c| + 1
      {
        KeptMeans(f, c, d);
      }
      assert n >= |c| + 1;
      assert !(r <= c);
    }
  }

  /** Overshooting happens: from a path and then its own parent the loop never climbs, and
      the result does not contain the parent. */
  lemma ParentOvershoots(f: Path)
    requires f != []
    ensures Overshoots(f, [Dirname(f)])
    ensures var r := f[..AncestorLength(f, [Dirname(f)])]; r == f && !ContainsAll(r, f, [Dirname(f)])
  {
    var d := Dirname(f);
    assert d in [d] && ProperAncestor(d, f);
    CommonAncestorExact(f, [d]);
  }

  /** With no later path properly above the first, the result is the deepest common
      ancestor. */
  lemma CommonAncestorDeepest(f: Path, rest: seq<Path>)
    requires forall c <- rest :: !ProperAncestor(c, f)
    ensures var r := f[..AncestorLength(f, rest)];
            && ContainsAll(r, f, rest)
            && (forall d | ContainsAll(d, f, rest) :: d <= r)
  {
    CommonAncestorExact(f, rest);
  }
}
