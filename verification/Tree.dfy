/** Nested translation objects, the dotted keys they flatten to, and the rebuilding
    of an object from dotted keys. */
module Tree {
  import opened Text

  /** A translation value: a text or a nested object with its keys in order. */
  datatype Value = Leaf(text: string) | Node(kids: Kids)
  datatype Kids = Nil | Cons(key: string, value: Value, rest: Kids)

  // ---------- the operations of the script ----------

  function FullKey(prefix: string, key: string): string {
    if prefix != "" then prefix + "." + key else key
  }

  /** The `out.set` calls of `flattenTranslations`, in order. */
  function Flatten(kids: Kids, prefix: string): seq<(string, string)> {
    match kids
    case Nil => []
    case Cons(key, Leaf(text), rest) => [(FullKey(prefix, key), text)] + Flatten(rest, prefix)
    case Cons(key, Node(nested), rest) => Flatten(nested, FullKey(prefix, key)) + Flatten(rest, prefix)
  }

  function Get(kids: Kids, key: string): (r: Option<Value>)
    ensures r.Some? && r.value.Node? ==> r.value.kids < kids
  {
    match kids
    case Nil => None
    case Cons(k, v, rest) => if k == key then Some(v) else Get(rest, key)
  }

  /** `object[key] = value`: in place when the key exists, at the end otherwise. */
  function Put(kids: Kids, key: string, value: Value): Kids {
    match kids
    case Nil => Cons(key, value, Nil)
    case Cons(k, v, rest) => if k == key then Cons(k, value, rest) else Cons(k, v, Put(rest, key, value))
  }

  /** The object under `key`, or the empty one that replaces a missing value or a text. */
  function Sub(kids: Kids, key: string): Kids {
    match Get(kids, key)
    case Some(Node(nested)) => nested
    case _ => Nil
  }

  /** `setNestedValue` on a key that is already split. */
  function SetPath(kids: Kids, path: seq<string>, text: string): Kids
    requires path != []
    decreases |path|
  {
    if |path| == 1 then Put(kids, path[0], Leaf(text))
    else Put(kids, path[0], Node(SetPath(Sub(kids, path[0]), path[1..], text)))
  }

  function SetNestedValue(kids: Kids, dottedKey: string, text: string): Kids {
    SetPath(kids, Split(dottedKey, '.'), text)
  }

  /** The loop that builds `nextMap`. */
  function Rebuild(kids: Kids, pairs: seq<(string, string)>): Kids
    decreases |pairs|
  {
    if pairs == [] then kids
    else Rebuild(SetNestedValue(kids, pairs[0].0, pairs[0].1), pairs[1..])
  }

  /** The same loop over split keys. */
  function RebuildPaths(kids: Kids, sets: seq<(seq<string>, string)>): Kids
    requires forall s <- sets :: s.0 != []
    decreases |sets|
  {
    if sets == [] then kids else RebuildPaths(SetPath(kids, sets[0].0, sets[0].1), sets[1..])
  }

  // ---------- the reference view: which text lies at which path ----------

  function TextAt(kids: Kids, path: seq<string>): Option<string>
    requires path != []
    decreases |path|
  {
    match Get(kids, path[0])
    case None => None
    case Some(Leaf(t)) => if |path| == 1 then Some(t) else None
    case Some(Node(nested)) => if |path| == 1 then None else TextAt(nested, path[1..])
  }

  /** The leaf paths with their texts, in the order of `Flatten`. */
  function Paths(kids: Kids): (r: seq<(seq<string>, string)>)
    ensures forall s <- r :: s.0 != []
  {
    match kids
    case Nil => []
    case Cons(key, Leaf(text), rest) => [([key], text)] + Paths(rest)
    case Cons(key, Node(nested), rest) => Under(key, Paths(nested)) + Paths(rest)
  }

  function Under(key: string, sets: seq<(seq<string>, string)>): (r: seq<(seq<string>, string)>)
    ensures |r| == |sets|
    ensures forall i | 0 <= i < |r| :: r[i] == ([key] + sets[i].0, sets[i].1)
  {
    seq(|sets|, i requires 0 <= i < |sets| => ([key] + sets[i].0, sets[i].1))
  }

  predicate HasKey(kids: Kids, key: string) {
    Get(kids, key).Some?
  }

  /** Objects have distinct keys and no subtree is empty. */
  predicate Solid(kids: Kids) {
    match kids
    case Nil => true
    case Cons(k, v, rest) => !HasKey(rest, k) && Solid(rest) && (v.Node? ==> v.kids != Nil && Solid(v.kids))
  }

  /** A JavaScript object: no key occurs twice in one object. */
  predicate IsObject(kids: Kids) {
    match kids
    case Nil => true
    case Cons(k, v, rest) => !HasKey(rest, k) && IsObject(rest) && (v.Node? ==> IsObject(v.kids))
  }

  lemma {:induction false} SolidIsObject(kids: Kids)
    requires Solid(kids)
    ensures IsObject(kids)
  {
    if kids.Cons? {
      SolidIsObject(kids.rest);
      if kids.value.Node? {
        SolidIsObject(kids.value.kids);
      }
    }
  }

  predicate PlainKey(key: string) {
    key != "" && '.' !in key
  }

  /** Every key of the tree is non-empty and free of dots. */
  predicate Plain(kids: Kids) {
    match kids
    case Nil => true
    case Cons(k, v, rest) => PlainKey(k) && Plain(rest) && (v.Node? ==> Plain(v.kids))
  }

  predicate Related(p: seq<string>, q: seq<string>) {
    p <= q || q <= p
  }

  // ---------- what one set does ----------

  lemma {:induction false} GetPut(kids: Kids, key: string, value: Value, other: string)
    ensures Get(Put(kids, key, value), other) == if other == key then Some(value) else Get(kids, other)
  {
    match kids
    case Nil =>
    case Cons(k, v, rest) => GetPut(rest, key, value, other);
  }

  /** Setting a path gives that path its text, removes whatever lay on a related path
      and leaves every other path alone. */
  lemma {:induction false} SetPathLaw(kids: Kids, path: seq<string>, text: string, q: seq<string>)
    requires path != [] && q != []
    ensures TextAt(SetPath(kids, path, text), q) ==
            if q == path then Some(text) else if Related(path, q) then None else TextAt(kids, q)
    decreases |path|
  {
    if |path| == 1 {
      GetPut(kids, path[0], Leaf(text), q[0]);
      assert q == [q[0]] + q[1..] && path == [path[0]];
    } else {
      var sub := Sub(kids, path[0]);
      GetPut(kids, path[0], Node(SetPath(sub, path[1..], text)), q[0]);
      assert q == [q[0]] + q[1..] && path == [path[0]] + path[1..];
      if q[0] == path[0] {
        if |q| > 1 {
          SetPathLaw(sub, path[1..], text, q[1..]);
          assert Related(path, q) <==> Related(path[1..], q[1..]);
          assert q == path <==> q[1..] == path[1..];
        } else {
          assert q <= path;
        }
      }
    }
  }

  // ---------- rebuilding in flatten order gives the same tree ----------

  function Append(a: Kids, b: Kids): Kids {
    match a
    case Nil => b
    case Cons(k, v, rest) => Cons(k, v, Append(rest, b))
  }

  lemma {:induction false} AppendLaws(a: Kids, b: Kids, c: Kids)
    ensures Append(a, Nil) == a
    ensures Append(Append(a, b), c) == Append(a, Append(b, c))
  {
    match a
    case Nil =>
    case Cons(k, v, rest) => AppendLaws(rest, b, c);
  }

  lemma {:induction false} GetAppend(a: Kids, b: Kids, key: string)
    ensures Get(Append(a, b), key) == if HasKey(a, key) then Get(a, key) else Get(b, key)
  {
    match a
    case Nil =>
    case Cons(k, v, rest) => GetAppend(rest, b, key);
  }

  /** Writing to the last, or a new, key of an object. */
  lemma {:induction false} PutLast(a: Kids, key: string, old_: Kids, value: Value)
    requires !HasKey(a, key)
    requires old_ == Nil || (old_.Cons? && old_.key == key && old_.rest == Nil)
    ensures Put(Append(a, old_), key, value) == Append(a, Cons(key, value, Nil))
  {
    match a
    case Nil =>
    case Cons(k, v, rest) => PutLast(rest, key, old_, value);
  }

  lemma {:induction false} RebuildPathsConcat(kids: Kids, s: seq<(seq<string>, string)>, t: seq<(seq<string>, string)>)
    requires forall x <- s + t :: x.0 != []
    ensures RebuildPaths(kids, s + t) == RebuildPaths(RebuildPaths(kids, s), t)
    decreases |s|
  {
    if s == [] {
      assert s + t == t;
    } else {
      assert (s + t)[1..] == s[1..] + t;
      RebuildPathsConcat(SetPath(kids, s[0].0, s[0].1), s[1..], t);
    }
  }

  /** Sets below one key build up the object under that key. */
  lemma {:induction false} RebuildUnder(a: Kids, key: string, sub: Kids, sets: seq<(seq<string>, string)>)
    requires !HasKey(a, key)
    requires forall s <- sets :: s.0 != []
    ensures RebuildPaths(Append(a, Cons(key, Node(sub), Nil)), Under(key, sets))
         == Append(a, Cons(key, Node(RebuildPaths(sub, sets)), Nil))
    decreases |sets|
  {
    if sets != [] {
      var path := [key] + sets[0].0;
      var base := Append(a, Cons(key, Node(sub), Nil));
      GetAppend(a, Cons(key, Node(sub), Nil), key);
      assert path[1..] == sets[0].0;
      var sub' := SetPath(sub, sets[0].0, sets[0].1);
      PutLast(a, key, Cons(key, Node(sub), Nil), Node(sub'));
      assert SetPath(base, path, sets[0].1) == Append(a, Cons(key, Node(sub'), Nil));
      assert Under(key, sets)[1..] == Under(key, sets[1..]);
      RebuildUnder(a, key, sub', sets[1..]);
    }
  }

  /** The first set below a new key creates its object. */
  lemma RebuildUnderNew(a: Kids, key: string, sets: seq<(seq<string>, string)>)
    requires !HasKey(a, key)
    requires sets != [] && forall s <- sets :: s.0 != []
    ensures RebuildPaths(a, Under(key, sets)) == Append(a, Cons(key, Node(RebuildPaths(Nil, sets)), Nil))
  {
    var path := [key] + sets[0].0;
    var sub := SetPath(Nil, sets[0].0, sets[0].1);
    assert path[1..] == sets[0].0;
    AppendLaws(a, Nil, Nil);
    PutLast(a, key, Nil, Node(sub));
    assert SetPath(a, path, sets[0].1) == Append(a, Cons(key, Node(sub), Nil));
    assert Under(key, sets)[1..] == Under(key, sets[1..]);
    RebuildUnder(a, key, sub, sets[1..]);
  }

  lemma {:induction false} SolidHasPaths(kids: Kids)
    requires Solid(kids) && kids != Nil
    ensures Paths(kids) != []
  {
    if kids.value.Node? {
      SolidHasPaths(kids.value.kids);
    }
  }

  lemma {:induction false} RebuildPathsOf(a: Kids, kids: Kids)
    requires Solid(kids)
    requires forall k | HasKey(kids, k) :: !HasKey(a, k)
    ensures RebuildPaths(a, Paths(kids)) == Append(a, kids)
    decreases kids
  {
    match kids
    case Nil => AppendLaws(a, Nil, Nil);
    case Cons(key, value, rest) =>
      assert HasKey(kids, key);
      var mine := if value.Leaf? then [([key], value.text)] else Under(key, Paths(value.kids));
      RebuildPathsConcat(a, mine, Paths(rest));
      var one := Cons(key, value, Nil);
      match value {
        case Leaf(text) =>
          AppendLaws(a, Nil, Nil);
          PutLast(a, key, Nil, value);
          assert mine[1..] == [];
          assert RebuildPaths(a, mine) == Append(a, one);
        case Node(nested) =>
          SolidHasPaths(nested);
          RebuildUnderNew(a, key, Paths(nested));
          RebuildPathsOf(Nil, nested);
      }
      forall k | HasKey(rest, k)
        ensures !HasKey(Append(a, one), k)
      {
        GetAppend(a, one, k);
        assert HasKey(kids, k);
      }
      RebuildPathsOf(Append(a, one), rest);
      AppendLaws(a, one, rest);
  }

  // ---------- dotted keys and paths ----------

  /** The key under which `flattenTranslations` reports a path below `prefix`. */
  function Dotted(prefix: string, path: seq<string>): string
    decreases |path|
  {
    if path == [] then prefix else Dotted(FullKey(prefix, path[0]), path[1..])
  }

  function DottedAll(prefix: string, sets: seq<(seq<string>, string)>): (r: seq<(string, string)>)
    ensures |r| == |sets|
    ensures forall i | 0 <= i < |r| :: r[i] == (Dotted(prefix, sets[i].0), sets[i].1)
  {
    seq(|sets|, i requires 0 <= i < |sets| => (Dotted(prefix, sets[i].0), sets[i].1))
  }

  lemma DottedAllConcat(prefix: string, s: seq<(seq<string>, string)>, t: seq<(seq<string>, string)>)
    ensures DottedAll(prefix, s + t) == DottedAll(prefix, s) + DottedAll(prefix, t)
  {
  }

  lemma DottedAllUnder(prefix: string, key: string, sets: seq<(seq<string>, string)>)
    ensures DottedAll(prefix, Under(key, sets)) == DottedAll(FullKey(prefix, key), sets)
  {
    forall i | 0 <= i < |sets|
      ensures Dotted(prefix, [key] + sets[i].0) == Dotted(FullKey(prefix, key), sets[i].0)
    {
      assert ([key] + sets[i].0)[1..] == sets[i].0;
    }
  }

  /** The script's recursion reports exactly the leaf paths, under their dotted keys. */
  lemma {:induction false} FlattenIsPaths(kids: Kids, prefix: string)
    ensures Flatten(kids, prefix) == DottedAll(prefix, Paths(kids))
  {
    match kids
    case Nil =>
    case Cons(key, Leaf(text), rest) =>
      FlattenIsPaths(rest, prefix);
      DottedAllConcat(prefix, [([key], text)], Paths(rest));
      assert Dotted(prefix, [key]) == Dotted(FullKey(prefix, key), [key][1..]) == FullKey(prefix, key);
    case Cons(key, Node(nested), rest) =>
      FlattenIsPaths(rest, prefix);
      FlattenIsPaths(nested, FullKey(prefix, key));
      DottedAllConcat(prefix, Under(key, Paths(nested)), Paths(rest));
      DottedAllUnder(prefix, key, Paths(nested));
  }

  /** Paths that dotted keys name faithfully: dot-free segments, and no empty first
      segment unless it is the only one. */
  predicate Faithful(path: seq<string>) {
    path != [] && (forall p <- path :: '.' !in p) && (path[0] == "" ==> |path| == 1)
  }

  lemma {:induction false} DottedJoin(prefix: string, path: seq<string>)
    requires prefix != "" && path != []
    ensures Dotted(prefix, path) == prefix + "." + Join(path, '.')
    decreases |path|
  {
    var first := prefix + "." + path[0];
    if |path| > 1 {
      DottedJoin(first, path[1..]);
      assert first + "." + Join(path[1..], '.') == prefix + "." + (path[0] + "." + Join(path[1..], '.'));
    } else {
      assert path[1..] == [];
    }
  }

  lemma FaithfulDotted(path: seq<string>)
    requires Faithful(path)
    ensures Dotted("", path) == Join(path, '.')
    ensures Split(Dotted("", path), '.') == path
  {
    if |path| > 1 {
      DottedJoin(path[0], path[1..]);
    } else {
      assert path[1..] == [];
    }
    SplitJoin(path, '.');
  }

  lemma {:induction false} PlainPaths(kids: Kids)
    requires Plain(kids)
    ensures forall s <- Paths(kids), p <- s.0 :: PlainKey(p)
    ensures forall s <- Paths(kids) :: Faithful(s.0)
  {
    match kids
    case Nil =>
    case Cons(key, value, rest) =>
      PlainPaths(rest);
      if value.Node? {
        PlainPaths(value.kids);
        forall s, p | s in Under(key, Paths(value.kids)) && p in s.0
          ensures PlainKey(p)
        {
        }
      }
  }

  lemma {:induction false} RebuildIsPaths(kids: Kids, sets: seq<(seq<string>, string)>)
    requires forall s <- sets :: Faithful(s.0) && s.0 != []
    ensures Rebuild(kids, DottedAll("", sets)) == RebuildPaths(kids, sets)
    decreases |sets|
  {
    if sets != [] {
      FaithfulDotted(sets[0].0);
      assert DottedAll("", sets)[1..] == DottedAll("", sets[1..]);
      RebuildIsPaths(SetPath(kids, sets[0].0, sets[0].1), sets[1..]);
    }
  }

  // ---------- flatten and rebuild undo each other ----------

  /** The tree with the text of every leaf replaced by what `next` gives for its key. */
  function Relabel(kids: Kids, prefix: string, next: string -> string): Kids {
    match kids
    case Nil => Nil
    case Cons(key, Leaf(_), rest) => Cons(key, Leaf(next(FullKey(prefix, key))), Relabel(rest, prefix, next))
    case Cons(key, Node(nested), rest) =>
      Cons(key, Node(Relabel(nested, FullKey(prefix, key), next)), Relabel(rest, prefix, next))
  }

  /** The pairs that the build loop writes: every flattened key with its new text. */
  function NextPairs(pairs: seq<(string, string)>, next: string -> string): (r: seq<(string, string)>)
    ensures |r| == |pairs|
    ensures forall i | 0 <= i < |r| :: r[i] == (pairs[i].0, next(pairs[i].0))
  {
    seq(|pairs|, i requires 0 <= i < |pairs| => (pairs[i].0, next(pairs[i].0)))
  }

  lemma {:induction false} RelabelShape(kids: Kids, prefix: string, next: string -> string)
    ensures Flatten(Relabel(kids, prefix, next), prefix) == NextPairs(Flatten(kids, prefix), next)
    ensures Plain(Relabel(kids, prefix, next)) == Plain(kids)
    ensures Solid(Relabel(kids, prefix, next)) == Solid(kids)
    ensures IsObject(Relabel(kids, prefix, next)) == IsObject(kids)
    ensures forall k :: HasKey(Relabel(kids, prefix, next), k) == HasKey(kids, k)
  {
    match kids
    case Nil =>
    case Cons(key, value, rest) =>
      RelabelShape(rest, prefix, next);
      if value.Node? {
        RelabelShape(value.kids, FullKey(prefix, key), next);
      }
      forall k
        ensures HasKey(Relabel(kids, prefix, next), k) == HasKey(kids, k)
      {
        assert HasKey(kids, k) == (k == key || HasKey(rest, k));
        assert HasKey(Relabel(rest, prefix, next), k) == HasKey(rest, k);
      }
  }

  /** Rebuilding a tree from its flattened keys with new texts gives the tree with
      just those texts changed: same keys, same order, nothing overwritten. */
  lemma RebuildRelabels(kids: Kids, next: string -> string)
    requires Plain(kids) && Solid(kids)
    ensures Rebuild(Nil, NextPairs(Flatten(kids, ""), next)) == Relabel(kids, "", next)
  {
    var tree := Relabel(kids, "", next);
    RelabelShape(kids, "", next);
    FlattenIsPaths(tree, "");
    PlainPaths(tree);
    RebuildIsPaths(Nil, Paths(tree));
    RebuildPathsOf(Nil, tree);
  }
}
