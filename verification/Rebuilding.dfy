/** When dotted keys can be rebuilt into an object and flattened again, and why the
    order of the writes does not matter. */
module Rebuilding {
  import opened Text
  import opened Tree
  import opened Sorting

  // ---------- the texts of a rebuilt tree ----------

  ghost predicate PrefixFree(sets: seq<(seq<string>, string)>) {
    forall i, j | 0 <= i < |sets| && 0 <= j < |sets| && i != j :: !Related(sets[i].0, sets[j].0)
  }

  /** A rebuilt tree holds text only at paths that were written or were there before. */
  lemma {:induction false} RebuildAddsNothing(kids: Kids, sets: seq<(seq<string>, string)>, q: seq<string>)
    requires q != [] && forall s <- sets :: s.0 != []
    requires forall s <- sets :: s.0 != q
    ensures TextAt(RebuildPaths(kids, sets), q) == None || TextAt(RebuildPaths(kids, sets), q) == TextAt(kids, q)
    decreases |sets|
  {
    if sets != [] {
      var kids' := SetPath(kids, sets[0].0, sets[0].1);
      SetPathLaw(kids, sets[0].0, sets[0].1, q);
      RebuildAddsNothing(kids', sets[1..], q);
    }
  }

  /** With unrelated paths every write survives, whatever the order. */
  lemma {:induction false} RebuildKeepsAll(kids: Kids, sets: seq<(seq<string>, string)>, i: nat)
    requires forall s <- sets :: s.0 != []
    requires PrefixFree(sets) && i < |sets|
    ensures TextAt(RebuildPaths(kids, sets), sets[i].0) == Some(sets[i].1)
    decreases |sets|
  {
    var kids' := SetPath(kids, sets[0].0, sets[0].1);
    if i > 0 {
      assert sets[1..][i - 1] == sets[i];
      RebuildKeepsAll(kids', sets[1..], i - 1);
    } else {
      SetPathLaw(kids, sets[0].0, sets[0].1, sets[0].0);
      Untouched(kids', sets[1..], sets[0].0);
    }
  }

  lemma {:induction false} Untouched(kids: Kids, sets: seq<(seq<string>, string)>, q: seq<string>)
    requires q != [] && forall s <- sets :: s.0 != []
    requires forall s <- sets :: !Related(s.0, q)
    ensures TextAt(RebuildPaths(kids, sets), q) == TextAt(kids, q)
    decreases |sets|
  {
    if sets != [] {
      SetPathLaw(kids, sets[0].0, sets[0].1, q);
      Untouched(SetPath(kids, sets[0].0, sets[0].1), sets[1..], q);
    }
  }

  /** Two texts never lie one below the other. */
  lemma {:induction false} NoTextBelowText(kids: Kids, p: seq<string>, q: seq<string>)
    requires p != [] && p <= q && p != q
    ensures TextAt(kids, p).None? || TextAt(kids, q).None?
    decreases |p|
  {
    assert p[0] == q[0];
    if |p| > 1 {
      match Get(kids, p[0]) {
        case Some(Node(nested)) => NoTextBelowText(nested, p[1..], q[1..]);
        case _ =>
      }
    }
  }

  // ---------- solid trees are determined by their texts ----------

  lemma {:induction false} PutSolid(kids: Kids, key: string, value: Value)
    requires Solid(kids)
    requires value.Node? ==> value.kids != Nil && Solid(value.kids)
    ensures Solid(Put(kids, key, value)) && Put(kids, key, value) != Nil
  {
    match kids
    case Nil =>
    case Cons(k, v, rest) =>
      if k != key {
        PutSolid(rest, key, value);
        GetPut(rest, key, value, k);
      }
  }

  lemma {:induction false} GetSolid(kids: Kids, key: string)
    requires Solid(kids)
    ensures Get(kids, key).Some? && Get(kids, key).value.Node? ==>
              Get(kids, key).value.kids != Nil && Solid(Get(kids, key).value.kids)
  {
    match kids
    case Nil =>
    case Cons(k, v, rest) => GetSolid(rest, key);
  }

  lemma {:induction false} SetPathSolid(kids: Kids, path: seq<string>, text: string)
    requires path != [] && Solid(kids)
    ensures Solid(SetPath(kids, path, text)) && SetPath(kids, path, text) != Nil
    decreases |path|
  {
    if |path| == 1 {
      PutSolid(kids, path[0], Leaf(text));
    } else {
      GetSolid(kids, path[0]);
      SetPathSolid(Sub(kids, path[0]), path[1..], text);
      PutSolid(kids, path[0], Node(SetPath(Sub(kids, path[0]), path[1..], text)));
    }
  }

  lemma {:induction false} RebuildSolid(kids: Kids, sets: seq<(seq<string>, string)>)
    requires Solid(kids) && forall s <- sets :: s.0 != []
    ensures Solid(RebuildPaths(kids, sets))
    decreases |sets|
  {
    if sets != [] {
      SetPathSolid(kids, sets[0].0, sets[0].1);
      RebuildSolid(SetPath(kids, sets[0].0, sets[0].1), sets[1..]);
    }
  }

  /** The leaf paths of a solid tree are exactly the paths that hold a text. */
  lemma {:induction false} PathsAreTexts(kids: Kids, q: seq<string>, t: string)
    requires Solid(kids) && q != []
    ensures (q, t) in Paths(kids) <==> TextAt(kids, q) == Some(t)
    decreases kids
  {
    match kids
    case Nil =>
    case Cons(key, value, rest) =>
      PathsAreTexts(rest, q, t);
      if q[0] == key {
        assert (q, t) !in Paths(rest) by {
          assert TextAt(rest, q) == None;
        }
        match value {
          case Leaf(text) =>
            assert (q, t) in Paths(kids) <==> (q, t) == ([key], text);
            assert q == [key] <==> |q| == 1;
          case Node(nested) =>
            var below := Paths(nested);
            if |q| > 1 {
              PathsAreTexts(nested, q[1..], t);
              assert q == [key] + q[1..];
              InUnder(key, below, q, t);
            }
        }
      } else if value.Node? {
        assert (q, t) !in Under(key, Paths(value.kids));
      }
  }

  lemma InUnder(key: string, sets: seq<(seq<string>, string)>, q: seq<string>, t: string)
    requires q != [] && q[0] == key
    ensures (q, t) in Under(key, sets) <==> (q[1..], t) in sets
  {
    if (q[1..], t) in sets {
      var i :| 0 <= i < |sets| && sets[i] == (q[1..], t);
      assert Under(key, sets)[i] == ([key] + q[1..], t);
      assert q == [key] + q[1..];
    }
    if (q, t) in Under(key, sets) {
      var i :| 0 <= i < |sets| && Under(key, sets)[i] == (q, t);
      assert ([key] + sets[i].0)[1..] == sets[i].0;
      assert sets[i] == (q[1..], t);
    }
  }

  // ---------- flattening a rebuilt set of dotted keys ----------

  /** The JavaScript `Map` that a series of `set` calls leaves. */
  function MapOf(pairs: seq<(string, string)>): (m: map<string, string>)
    ensures forall p <- pairs :: p.0 in m
  {
    if pairs == [] then map[]
    else
      var last := pairs[|pairs| - 1];
      var m := MapOf(pairs[..|pairs| - 1]);
      assert pairs == pairs[..|pairs| - 1] + [last];
      m[last.0 := last.1]
  }

  ghost predicate DistinctKeys<V>(pairs: seq<(string, V)>) {
    forall i, j | 0 <= i < j < |pairs| :: pairs[i].0 != pairs[j].0
  }

  lemma {:induction false} MapOfDistinct(pairs: seq<(string, string)>, i: nat)
    requires DistinctKeys(pairs) && i < |pairs|
    ensures MapOf(pairs)[pairs[i].0] == pairs[i].1
  {
    assert pairs[i] in pairs;
    var n := |pairs| - 1;
    if i < n {
      MapOfDistinct(pairs[..n], i);
    }
  }

  /** No key starts with a dot and no key continues another one after a dot. */
  ghost predicate Rebuildable(keys: set<string>) {
    && (forall a <- keys :: !StartsWith(a, "."))
    && (forall a <- keys, b <- keys :: !StartsWith(b, a + "."))
  }

  function SplitKeys(pairs: seq<(string, string)>): (r: seq<(seq<string>, string)>)
    ensures |r| == |pairs|
    ensures forall i | 0 <= i < |r| :: r[i] == (Split(pairs[i].0, '.'), pairs[i].1)
    ensures forall s <- r :: s.0 != []
  {
    seq(|pairs|, i requires 0 <= i < |pairs| => (Split(pairs[i].0, '.'), pairs[i].1))
  }

  lemma {:induction false} RebuildSplits(kids: Kids, pairs: seq<(string, string)>)
    ensures Rebuild(kids, pairs) == RebuildPaths(kids, SplitKeys(pairs))
    decreases |pairs|
  {
    if pairs != [] {
      assert SplitKeys(pairs)[1..] == SplitKeys(pairs[1..]);
      RebuildSplits(SetNestedValue(kids, pairs[0].0, pairs[0].1), pairs[1..]);
    }
  }

  lemma SplitStep(x: char, s: string, c: char)
    ensures Split([x] + s, c)
         == if x == c then [""] + Split(s, c) else [[x] + Split(s, c)[0]] + Split(s, c)[1..]
  {
    assert ([x] + s)[1..] == s;
  }

  lemma {:induction false} SplitConcat(a: string, b: string, c: char)
    ensures Split(a + [c] + b, c) == Split(a, c) + Split(b, c)
    decreases |a|
  {
    if a == "" {
      SplitStep(c, b, c);
      assert a + [c] + b == [c] + b && Split(a, c) == [""];
    } else {
      SplitConcat(a[1..], b, c);
      ConcatStep(a[0], a[1..], b, c);
      assert a == [a[0]] + a[1..] && a + [c] + b == [a[0]] + (a[1..] + [c] + b);
    }
  }

  lemma ConcatStep(x: char, a: string, b: string, c: char)
    requires Split(a + [c] + b, c) == Split(a, c) + Split(b, c)
    ensures Split([x] + (a + [c] + b), c) == Split([x] + a, c) + Split(b, c)
  {
    hide Split;
    var ra, rb := Split(a, c), Split(b, c);
    SplitStep(x, a, c);
    SplitStep(x, a + [c] + b, c);
    if x == c {
      assert [""] + (ra + rb) == ([""] + ra) + rb;
    } else {
      assert (ra + rb)[0] == ra[0] && (ra + rb)[1..] == ra[1..] + rb;
      assert [[x] + ra[0]] + (ra[1..] + rb) == ([[x] + ra[0]] + ra[1..]) + rb;
    }
  }

  lemma {:induction false} JoinConcat(p: seq<string>, q: seq<string>, c: char)
    requires p != [] && q != []
    ensures Join(p + q, c) == Join(p, c) + [c] + Join(q, c)
  {
    if |p| == 1 {
      assert (p + q)[1..] == q;
    } else {
      assert (p + q)[1..] == p[1..] + q;
      JoinConcat(p[1..], q, c);
    }
  }

  /** One split key is a prefix of another exactly when the keys are equal or the other
      continues it after a dot. */
  lemma PrefixMeansContinues(a: string, b: string)
    ensures Split(a, '.') <= Split(b, '.') <==> a == b || StartsWith(b, a + ".")
  {
    if StartsWith(b, a + ".") {
      var rest := b[|a| + 1..];
      assert b == a + ['.'] + rest;
      SplitConcat(a, rest, '.');
    }
    if Split(a, '.') <= Split(b, '.') {
      PrefixContinues(a, b);
    }
  }

  lemma PrefixContinues(a: string, b: string)
    requires Split(a, '.') <= Split(b, '.')
    ensures a == b || StartsWith(b, a + ".")
  {
    var p, q := Split(a, '.'), Split(b, '.');
    JoinSplit(a, '.');
    JoinSplit(b, '.');
    var rest := q[|p|..];
    assert q == p + rest;
    if rest == [] {
      assert q == p;
    } else {
      JoinConcat(p, rest, '.');
      assert b == a + "." + Join(rest, '.');
    }
  }

  lemma {:induction false} DottedNeverStartsWithDot(path: seq<string>)
    requires forall p <- path :: '.' !in p
    ensures !StartsWith(Dotted("", path), ".")
    decreases |path|
  {
    if path != [] {
      if path[0] == "" {
        DottedNeverStartsWithDot(path[1..]);
      } else if |path| > 1 {
        DottedJoin(path[0], path[1..]);
        assert path[0][0] in path[0];
        assert Dotted("", path) == Dotted(path[0], path[1..]);
        assert Dotted("", path)[0] == path[0][0];
      } else {
        assert path[1..] == [] && path[0][0] in path[0];
        assert Dotted("", path) == Dotted(path[0], path[1..]) == path[0];
      }
    }
  }

  lemma FaithfulSplit(a: string)
    ensures Faithful(Split(a, '.')) <==> !StartsWith(a, ".")
  {
    var parts := Split(a, '.');
    JoinSplit(a, '.');
    if parts[0] == "" && |parts| > 1 {
      assert a == "" + "." + Join(parts[1..], '.');
    }
  }

  /** A text of the rebuilt tree stems from one of the pairs. */
  lemma RebuiltFrom(pairs: seq<(string, string)>, q: seq<string>)
    requires q != []
    requires TextAt(Rebuild(Nil, pairs), q).Some?
    ensures exists p :: p in pairs && Split(p.0, '.') == q
  {
    var sets := SplitKeys(pairs);
    RebuildSplits(Nil, pairs);
    if forall s <- sets :: s.0 != q {
      RebuildAddsNothing(Nil, sets, q);
    } else {
      var i :| 0 <= i < |sets| && sets[i].0 == q;
      assert pairs[i] in pairs;
    }
  }

  /** What flattening the rebuilt object reports. */
  lemma FlattenRebuilt(pairs: seq<(string, string)>, k: string)
    ensures k in MapOf(Flatten(Rebuild(Nil, pairs), "")) <==>
            exists q: seq<string> :: q != [] && Dotted("", q) == k && TextAt(Rebuild(Nil, pairs), q).Some?
  {
    hide Flatten, Paths, Rebuild, RebuildPaths, TextAt, SplitKeys, Solid;
    var tree := Rebuild(Nil, pairs);
    RebuildSplits(Nil, pairs);
    RebuildSolid(Nil, SplitKeys(pairs));
    FlattenIsPaths(tree, "");
    var paths := Paths(tree);
    var flat := Flatten(tree, "");
    if k in MapOf(flat) {
      MapOfPair(flat, k);
      var i :| 0 <= i < |flat| && flat[i] == (k, MapOf(flat)[k]);
      assert paths[i] in paths;
      PathsAreTexts(tree, paths[i].0, paths[i].1);
    }
    if q: seq<string> :| q != [] && Dotted("", q) == k && TextAt(tree, q).Some? {
      PathsAreTexts(tree, q, TextAt(tree, q).value);
      var i :| 0 <= i < |paths| && paths[i] == (q, TextAt(tree, q).value);
      assert flat[i] in flat && flat[i].0 == k;
    }
  }

  lemma RebuildablePrefixFree(pairs: seq<(string, string)>)
    requires DistinctKeys(pairs) && Rebuildable(MapOf(pairs).Keys)
    ensures PrefixFree(SplitKeys(pairs))
  {
    forall i, j | 0 <= i < |pairs| && 0 <= j < |pairs| && i != j
      ensures !Related(Split(pairs[i].0, '.'), Split(pairs[j].0, '.'))
    {
      var a, b := pairs[i].0, pairs[j].0;
      assert pairs[i] in pairs && pairs[j] in pairs;
      assert a in MapOf(pairs).Keys && b in MapOf(pairs).Keys && a != b;
      PrefixMeansContinues(a, b);
      PrefixMeansContinues(b, a);
    }
  }

  /** Every report of the rebuilt object is one of the pairs, under the path of its key. */
  lemma ReportedPair(pairs: seq<(string, string)>, j: nat)
    requires DistinctKeys(pairs) && Rebuildable(MapOf(pairs).Keys)
    requires j < |Flatten(Rebuild(Nil, pairs), "")|
    ensures var tree := Rebuild(Nil, pairs);
            && |Paths(tree)| == |Flatten(tree, "")|
            && Flatten(tree, "")[j] in pairs && Paths(tree)[j] == (Split(Flatten(tree, "")[j].0, '.'), Flatten(tree, "")[j].1)
  {
    var tree, sets := Rebuild(Nil, pairs), SplitKeys(pairs);
    var flat, paths := Flatten(tree, ""), Paths(tree);
    RebuildSplits(Nil, pairs);
    RebuildSolid(Nil, sets);
    RebuildablePrefixFree(pairs);
    FlattenIsPaths(tree, "");
    assert paths[j] in paths;
    PathsAreTexts(tree, paths[j].0, paths[j].1);
    RebuiltFrom(pairs, paths[j].0);
    var p :| p in pairs && Split(p.0, '.') == paths[j].0;
    var i :| 0 <= i < |pairs| && pairs[i] == p;
    RebuildKeepsAll(Nil, sets, i);
    FaithfulSplit(p.0);
    FaithfulDotted(paths[j].0);
    JoinSplit(p.0, '.');
    assert flat[j] == pairs[i];
  }

  lemma RebuildableRoundTrips(pairs: seq<(string, string)>)
    requires DistinctKeys(pairs) && Rebuildable(MapOf(pairs).Keys)
    ensures MapOf(Flatten(Rebuild(Nil, pairs), "")) == MapOf(pairs)
  {
    var tree := Rebuild(Nil, pairs);
    var sets := SplitKeys(pairs);
    var flat := Flatten(tree, "");
    var paths := Paths(tree);
    RebuildSplits(Nil, pairs);
    RebuildSolid(Nil, sets);
    RebuildablePrefixFree(pairs);
    FlattenIsPaths(tree, "");
    forall i | 0 <= i < |pairs|
      ensures pairs[i] in flat
    {
      assert pairs[i] in pairs;
      RebuildKeepsAll(Nil, sets, i);
      PathsAreTexts(tree, sets[i].0, sets[i].1);
      FaithfulSplit(pairs[i].0);
      FaithfulDotted(sets[i].0);
      JoinSplit(pairs[i].0, '.');
      var j :| 0 <= j < |paths| && paths[j] == sets[i];
      assert flat[j] == pairs[i];
    }
    forall j | 0 <= j < |flat|
      ensures flat[j] in pairs
    {
      ReportedPair(pairs, j);
    }
    SamePairsSameMap(flat, pairs);
  }

  /** A rebuilt object reports no key twice. */
  lemma RebuiltReportsOnce(pairs: seq<(string, string)>)
    requires DistinctKeys(pairs) && Rebuildable(MapOf(pairs).Keys)
    ensures DistinctKeys(Flatten(Rebuild(Nil, pairs), ""))
  {
    var tree := Rebuild(Nil, pairs);
    var flat, paths := Flatten(tree, ""), Paths(tree);
    RebuildSplits(Nil, pairs);
    RebuildSolid(Nil, SplitKeys(pairs));
    SolidPathsDistinct(tree);
    forall i, j | 0 <= i < j < |flat|
      ensures flat[i].0 != flat[j].0
    {
      ReportedPair(pairs, i);
      ReportedPair(pairs, j);
    }
  }

  lemma {:induction false} MapOfPair(pairs: seq<(string, string)>, k: string)
    requires k in MapOf(pairs)
    ensures (k, MapOf(pairs)[k]) in pairs
  {
    var n := |pairs| - 1;
    assert pairs == pairs[..n] + [pairs[n]];
    if pairs[n].0 != k {
      MapOfPair(pairs[..n], k);
    }
  }

  lemma SamePairsSameMap(a: seq<(string, string)>, b: seq<(string, string)>)
    requires DistinctKeys(b)
    requires forall i | 0 <= i < |b| :: b[i] in a
    requires forall i | 0 <= i < |a| :: a[i] in b
    ensures MapOf(a) == MapOf(b)
  {
    forall k
      ensures k in MapOf(a) <==> k in MapOf(b)
      ensures k in MapOf(a) ==> MapOf(a)[k] == MapOf(b)[k]
    {
      if k in MapOf(a) {
        MapOfPair(a, k);
        var i :| 0 <= i < |b| && b[i] == (k, MapOf(a)[k]);
        MapOfDistinct(b, i);
      }
      if k in MapOf(b) {
        MapOfPair(b, k);
      }
    }
  }

  /** If flattening the rebuilt object reports every key, the keys can be rebuilt. */
  lemma KeptKeysRebuild(pairs: seq<(string, string)>)
    requires forall k <- MapOf(pairs) :: k in MapOf(Flatten(Rebuild(Nil, pairs), ""))
    ensures Rebuildable(MapOf(pairs).Keys)
  {
    var tree := Rebuild(Nil, pairs);
    var m := MapOf(pairs);
    forall a | a in m.Keys
      ensures !StartsWith(a, ".")
      ensures TextAt(tree, Split(a, '.')).Some?
    {
      FlattenRebuilt(pairs, a);
      var q: seq<string> :| q != [] && Dotted("", q) == a && TextAt(tree, q).Some?;
      RebuiltFrom(pairs, q);
      DottedNeverStartsWithDot(q);
      var p :| p in pairs && Split(p.0, '.') == q;
      FlattenRebuilt(pairs, p.0);
      assert p.0 in m;
      var q': seq<string> :| q' != [] && Dotted("", q') == p.0 && TextAt(tree, q').Some?;
      RebuiltFrom(pairs, q');
      DottedNeverStartsWithDot(q');
      FaithfulSplit(p.0);
      FaithfulDotted(q);
    }
    forall a, b | a in m.Keys && b in m.Keys
      ensures !StartsWith(b, a + ".")
    {
      PrefixMeansContinues(a, b);
      if StartsWith(b, a + ".") {
        JoinSplit(a, '.');
        JoinSplit(b, '.');
        NoTextBelowText(tree, Split(a, '.'), Split(b, '.'));
      }
    }
  }

  /** Flattening the object rebuilt from dotted keys gives the same map back exactly
      when no key starts with a dot and no key continues another one. */
  lemma FlatRoundTrip(pairs: seq<(string, string)>)
    requires DistinctKeys(pairs)
    ensures MapOf(Flatten(Rebuild(Nil, pairs), "")) == MapOf(pairs) <==> Rebuildable(MapOf(pairs).Keys)
  {
    if Rebuildable(MapOf(pairs).Keys) {
      RebuildableRoundTrips(pairs);
    }
    if MapOf(Flatten(Rebuild(Nil, pairs), "")) == MapOf(pairs) {
      KeptKeysRebuild(pairs);
    }
  }

  // ---------- the order of the writes ----------

  /** Equality of objects up to the order of their keys, at every depth. */
  ghost predicate SameTree(a: Kids, b: Kids)
    decreases a
  {
    forall key :: match (Get(a, key), Get(b, key))
      case (None, None) => true
      case (Some(Leaf(t)), Some(Leaf(u))) => t == u
      case (Some(Node(m)), Some(Node(n))) => SameTree(m, n)
      case _ => false
  }

  lemma {:induction false} SolidHasText(kids: Kids) returns (q: seq<string>)
    requires Solid(kids) && kids != Nil
    ensures q != [] && TextAt(kids, q).Some?
  {
    match kids.value
    case Leaf(t) =>
      q := [kids.key];
    case Node(nested) =>
      var below := SolidHasText(nested);
      q := [kids.key] + below;
      assert q[1..] == below;
  }

  /** Solid trees with the same texts at the same paths are the same up to key order. */
  lemma {:induction false} TextsDetermine(a: Kids, b: Kids)
    requires Solid(a) && Solid(b)
    requires forall q: seq<string> | q != [] :: TextAt(a, q) == TextAt(b, q)
    ensures SameTree(a, b)
    decreases a
  {
    forall key
      ensures match (Get(a, key), Get(b, key))
        case (None, None) => true
        case (Some(Leaf(t)), Some(Leaf(u))) => t == u
        case (Some(Node(m)), Some(Node(n))) => SameTree(m, n)
        case _ => false
    {
      GetSolid(a, key);
      GetSolid(b, key);
      assert TextAt(a, [key]) == TextAt(b, [key]);
      match (Get(a, key), Get(b, key)) {
        case (Some(Node(m)), Some(Node(n))) =>
          forall q: seq<string> | q != []
            ensures TextAt(m, q) == TextAt(n, q)
          {
            assert ([key] + q)[1..] == q;
            assert TextAt(a, [key] + q) == TextAt(b, [key] + q);
          }
          TextsDetermine(m, n);
        case (Some(Node(m)), _) => OneSided(a, b, key);
        case (_, Some(Node(n))) => OneSided(b, a, key);
        case _ =>
      }
    }
  }

  lemma OneSided(a: Kids, b: Kids, key: string)
    requires Solid(a) && Get(a, key).Some? && Get(a, key).value.Node?
    requires forall q: seq<string> | q != [] :: TextAt(a, q) == TextAt(b, q)
    ensures Get(b, key).Some? && Get(b, key).value.Node?
  {
    GetSolid(a, key);
    var below := SolidHasText(Get(a, key).value.kids);
    assert ([key] + below)[1..] == below;
    assert TextAt(a, [key] + below) == TextAt(b, [key] + below);
  }

  lemma {:induction false} SolidPathsDistinct(kids: Kids)
    requires Solid(kids)
    ensures Distinct(Paths(kids))
    decreases kids
  {
    match kids
    case Nil =>
    case Cons(key, value, rest) =>
      SolidPathsDistinct(rest);
      forall s | s in Paths(rest)
        ensures s.0[0] != key
      {
        PathsAreTexts(rest, s.0, s.1);
      }
      if value.Node? {
        SolidPathsDistinct(value.kids);
        var below := Paths(value.kids);
        forall i, j | 0 <= i < j < |below|
          ensures Under(key, below)[i] != Under(key, below)[j]
        {
          assert ([key] + below[i].0)[1..] == below[i].0;
          assert ([key] + below[j].0)[1..] == below[j].0;
        }
      }
  }

  lemma PermutedPaths(tree: Kids, pairs: seq<(string, string)>)
    requires Plain(tree) && Solid(tree)
    requires multiset(pairs) == multiset(Flatten(tree, ""))
    ensures Distinct(pairs)
    ensures forall i | 0 <= i < |pairs| :: SplitKeys(pairs)[i] in Paths(tree)
    ensures forall s <- Paths(tree) :: s in SplitKeys(pairs)
  {
    hide Flatten, Paths, Split, Solid, Plain;
    var paths, sets := Paths(tree), SplitKeys(pairs);
    var flat := Flatten(tree, "");
    FlattenIsPaths(tree, "");
    PlainPaths(tree);
    forall j | 0 <= j < |paths|
      ensures Split(flat[j].0, '.') == paths[j].0
    {
      FaithfulDotted(paths[j].0);
    }
    SolidPathsDistinct(tree);
    PermutedDistinct(flat, pairs);
    forall i | 0 <= i < |pairs|
      ensures sets[i] in paths
    {
      assert pairs[i] in multiset(flat);
      var j :| 0 <= j < |flat| && flat[j] == pairs[i];
      assert sets[i] == paths[j];
    }
    forall s | s in paths
      ensures s in sets
    {
      var j :| 0 <= j < |paths| && paths[j] == s;
      assert flat[j] in multiset(pairs);
      var i :| 0 <= i < |pairs| && pairs[i] == flat[j];
      assert sets[i] == paths[j];
    }
  }

  lemma RebuildPermuted(tree: Kids, pairs: seq<(string, string)>)
    requires Plain(tree) && Solid(tree)
    requires multiset(pairs) == multiset(Flatten(tree, ""))
    ensures SameTree(Rebuild(Nil, pairs), tree)
  {
    var sets := SplitKeys(pairs);
    PermutedPaths(tree, pairs);
    PermutedPrefixFree(tree, pairs);
    RebuildSplits(Nil, pairs);
    RebuildSolid(Nil, sets);
    forall q: seq<string> | q != []
      ensures TextAt(Rebuild(Nil, pairs), q) == TextAt(tree, q)
    {
      if TextAt(tree, q).Some? {
        PathsAreTexts(tree, q, TextAt(tree, q).value);
        var i :| 0 <= i < |sets| && sets[i] == (q, TextAt(tree, q).value);
        RebuildKeepsAll(Nil, sets, i);
      } else if TextAt(Rebuild(Nil, pairs), q).Some? {
        RebuiltFrom(pairs, q);
        var p :| p in pairs && Split(p.0, '.') == q;
        var i :| 0 <= i < |pairs| && pairs[i] == p;
        PathsAreTexts(tree, q, sets[i].1);
      }
    }
    TextsDetermine(Rebuild(Nil, pairs), tree);
  }

  /** Whatever order the keys are written in, the rebuilt object is the relabelled tree
      up to the order of its keys: no write ever undoes another. */
  lemma RebuildAnyOrder(kids: Kids, next: string -> string, pairs: seq<(string, string)>)
    requires Plain(kids) && Solid(kids)
    requires multiset(pairs) == multiset(NextPairs(Flatten(kids, ""), next))
    ensures SameTree(Rebuild(Nil, pairs), Relabel(kids, "", next))
  {
    RelabelShape(kids, "", next);
    RebuildPermuted(Relabel(kids, "", next), pairs);
  }

  lemma PermutedPrefixFree(tree: Kids, pairs: seq<(string, string)>)
    requires Solid(tree) && Distinct(pairs)
    requires forall i | 0 <= i < |pairs| :: SplitKeys(pairs)[i] in Paths(tree)
    ensures PrefixFree(SplitKeys(pairs))
  {
    var sets := SplitKeys(pairs);
    forall i, j | 0 <= i < |sets| && 0 <= j < |sets| && i != j
      ensures !Related(sets[i].0, sets[j].0)
    {
      PathsAreTexts(tree, sets[i].0, sets[i].1);
      PathsAreTexts(tree, sets[j].0, sets[j].1);
      if sets[i].0 == sets[j].0 {
        JoinSplit(pairs[i].0, '.');
        JoinSplit(pairs[j].0, '.');
        assert false;
      } else if sets[i].0 <= sets[j].0 {
        NoTextBelowText(tree, sets[i].0, sets[j].0);
      } else if sets[j].0 <= sets[i].0 {
        NoTextBelowText(tree, sets[j].0, sets[i].0);
      }
    }
  }

  /** Keys flattened from an ordinary tree meet the condition of `FlatRoundTrip`. */
  lemma PlainIsRebuildable(kids: Kids)
    requires Plain(kids) && Solid(kids)
    ensures DistinctKeys(Flatten(kids, ""))
    ensures Rebuildable(MapOf(Flatten(kids, "")).Keys)
  {
    var pairs, paths := Flatten(kids, ""), Paths(kids);
    FlattenIsPaths(kids, "");
    PlainPaths(kids);
    SolidPathsDistinct(kids);
    forall i, j | 0 <= i < j < |pairs|
      ensures pairs[i].0 != pairs[j].0
    {
      assert paths[i] in paths && paths[j] in paths;
      FaithfulDotted(paths[i].0);
      FaithfulDotted(paths[j].0);
      PathsAreTexts(kids, paths[i].0, paths[i].1);
      PathsAreTexts(kids, paths[j].0, paths[j].1);
    }
    RebuildIsPaths(Nil, paths);
    RebuildPathsOf(Nil, kids);
    FlatRoundTrip(pairs);
  }
}
