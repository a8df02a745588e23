/** Exactly for which sources a written `syncLocale` is a fixpoint, whatever the files held
    before. */
module SyncExact {
  import opened Text
  import opened Sorting
  import opened Tree
  import opened Rebuilding
  import opened Memory
  import opened Batching
  import opened Translating
  import opened Sync
  import opened SyncProofs
  import opened SyncFixpoint

  function SourceMap(source: Source): map<string, string> {
    MapOf(SourcePairs(source))
  }

  // ---------- files that hold a module only ----------

  /** A locale module, maybe with metadata, but neither glossary nor memory. */
  function OnlyModule(env: Env, kids: Kids, meta: Option<Meta>): Disk {
    Disk(Some(env.modules.render(kids)), if meta.Some? then Some(env.metas.render(meta.value)) else None, None, None)
  }

  /** The object reports exactly the texts of `m`. */
  ghost predicate ReportsMap(kids: Kids, m: map<string, string>) {
    && MapOf(Flatten(kids, "")).Keys == m.Keys
    && forall p <- Flatten(kids, "") :: p.0 in m && p.1 == m[p.0]
  }

  lemma LoadOnlyModule(env: Env, kids: Kids, meta: Option<Meta>, m: map<string, string>)
    requires env.Faithful() && IsObject(kids) && ReportsMap(kids, m)
    ensures LoadDisk(env, OnlyModule(env, kids, meta)) == Ok(Loaded(m, meta, [], Empty))
  {
    hide Load, Flatten;
    var back := env.modules.parse(env.modules.render(kids)).value;
    SameReportsSameMap(kids, back, m);
    var disk := OnlyModule(env, kids, meta);
    assert LoadFile(env.modules, disk.locale) == Ok(Some(back));
    assert LoadFile(env.metas, disk.meta) == Ok(meta);
    assert LoadFile(env.glossaries, disk.glossary) == Ok(None);
    LoadNothing(env.entries);
  }

  lemma SameReportsSameMap(kids: Kids, back: Kids, m: map<string, string>)
    requires SameReports(kids, back) && ReportsMap(kids, m)
    ensures MapOf(Flatten(back, "")) == m
  {
    ReportsInMap(Flatten(back, ""), Flatten(kids, ""));
  }

  lemma LoadNothing(codec: EntryCodec)
    ensures Load(codec, "") == Ok(Empty)
  {
    var lines := [""];
    assert Split("", '\n') == lines && lines[..0] == [] && lines[0] == "";
    assert LoadLines(codec, []) == Ok(Empty);
    TrimTight("");
    assert AddLine(codec, Empty, "") == Ok(Empty);
  }

  /** A run on a module with all keys just computes the texts of the module. */
  lemma RunKeepsModule(env: Env, source: Source, c: Call, kids: Kids, m: map<string, string>)
    requires env.Faithful() && IsObject(kids) && ReportsMap(kids, m) && m.Keys == SourceMap(source).Keys
    ensures var r := SyncLocale(env, c.opts, source, OnlyModule(env, kids, None), c.replies, c.now);
            r.Ok? && r.value.state.next == m && r.value.state.tm == Empty && r.value.state.fallback == []
  {
    hide KeyStep, FallbackLoop, NextMeta;
    var pairs, ld := SourcePairs(source), Loaded(m, None, [], Empty);
    LoadOnlyModule(env, kids, None, m);
    ModuleSettled(env, source, m);
    var st := SecondCompute(env, c.opts.force, pairs, ld, State(m, Empty, [], []), c.replies, c.now);
    NothingInOrder(pairs);
    RunOf(env, c.opts, source, OnlyModule(env, kids, None), ld, st, c.replies, c.now);
  }

  lemma ModuleSettled(env: Env, source: Source, m: map<string, string>)
    requires m.Keys == SourceMap(source).Keys
    ensures AllSettled(env, SourcePairs(source), State(m, Empty, [], []))
    ensures Follows(Loaded(m, None, [], Empty), SourcePairs(source), State(m, Empty, [], []))
  {
    assert forall p <- SourcePairs(source) :: p.0 in SourceMap(source);
  }

  lemma {:induction false} NothingInOrder(pairs: seq<(string, string)>)
    ensures InSourceOrder(pairs, []) == []
  {
    if pairs != [] {
      NothingInOrder(pairs[..|pairs| - 1]);
    }
  }

  // ---------- keys that the module cannot hold ----------

  /** The second run decides the key anew: it is pending and the run reports a change. The
      value comes from the translator, which leaves an entry in the memory, or is English. */
  ghost predicate DecidesAnew(env: Env, source: Source, k: string, again: Result<Report>)
    requires k in SourceMap(source)
  {
    match again
    case Thrown(_) => env.allowTranslate
    case Ok(r) =>
      && (exists it :: it in r.state.pending && it.key == k)
      && r.changed
      && if env.allowTranslate then SegmentKey(env, k, SourceMap(source)[k]) in r.state.tm.at
         else k in r.state.next && r.state.next[k] == SourceMap(source)[k] && k in r.meta.fallbackKeys
  }

  lemma LostKeyPends(env: Env, force: bool, pairs: seq<(string, string)>, ld: Loaded, replies: nat -> Reply, now: string,
                     k: string, t: string)
    requires env.Faithful() && Sound(ld.tm) && DistinctKeys(pairs) && (k, t) in pairs
    requires ld.tm.at == map[] && k !in ld.existing
    ensures match Compute(env, force, pairs, ld, replies, now)
            case Thrown(_) => env.allowTranslate
            case Ok(st) =>
              && (exists it :: it in st.pending && it.key == k)
              && if env.allowTranslate then SegmentKey(env, k, t) in st.tm.at
                 else k in st.next && st.next[k] == t && k in st.fallback
  {
    var st := KeyLoop(env, ld, TextHashes(ld.tm.Values(), env.locale), pairs);
    var item := Item(k, t, SegmentKey(env, k, t), HashText(env, t));
    assert ld.tm.Values() == [];
    KeyLoopInv(env, ld, pairs);
    KeyLoopChooses(env, ld, pairs);
    assert Choose(env, ld, k, t) == LeftOver;
    assert Chosen(env, ld, st, k, t) && KeyDone(env, ld, st, k, t);
    assert item in st.pending;
    ComputeChooses(env, force, pairs, ld, replies, now);
    if env.allowTranslate {
      ProviderRun(env, force, pairs, ld, replies, now);
    } else {
      FallbackLoopKeeps(ld, force, st, st.pending);
    }
  }

  /** A key that the module cannot hold once written. */
  lemma UnheldKey(pairs: seq<(string, string)>) returns (k: string)
    requires !Rebuildable(MapOf(pairs).Keys)
    ensures k in MapOf(pairs) && k !in MapOf(Flatten(Rebuild(Nil, pairs), ""))
  {
    if forall k <- MapOf(pairs) :: k in MapOf(Flatten(Rebuild(Nil, pairs), "")) {
      KeptKeysRebuild(pairs);
    }
    k :| k in MapOf(pairs) && k !in MapOf(Flatten(Rebuild(Nil, pairs), ""));
  }

  lemma EmptyRenders(env: Env, tm: JsMap<Entry>)
    requires Sound(tm)
    ensures Render(env.entries, tm, env.collate) == "" <==> tm.at == map[]
  {
    ValuesOfSound(tm);
    SortPermutes(tm.Values(), ByCacheKey(env.collate));
    if k :| k in tm.at {
      assert tm.at[k] in tm.Values();
    }
    if tm.Values() != [] {
      assert tm.Values()[0] in tm.Values();
    }
  }

  /** If the keys cannot be rebuilt, some key of a written module with all keys is lost and
      decided anew. */
  lemma KeyIsLost(env: Env, source: Source, c: Call, c': Call, kids: Kids, m: map<string, string>) returns (k: string)
    requires env.Faithful() && c.opts.write && !c.opts.checkOnly
    requires IsObject(kids) && ReportsMap(kids, m) && m.Keys == SourceMap(source).Keys
    requires !Rebuildable(SourceMap(source).Keys)
    ensures k in SourceMap(source)
    ensures var first := SyncLocale(env, c.opts, source, OnlyModule(env, kids, None), c.replies, c.now);
            && first.Ok? && first.value.state.next == m
            && DecidesAnew(env, source, k, SyncLocale(env, c'.opts, source, first.value.disk, c'.replies, c'.now))
  {
    hide SyncLocale, Flatten, Rebuild, Rebuildable, Compute, Settled;
    var pairs, disk := SourcePairs(source), OnlyModule(env, kids, None);
    RunKeepsModule(env, source, c, kids, m);
    var first := SyncLocale(env, c.opts, source, disk, c.replies, c.now).value;
    var ld := RunWrites(env, c.opts, source, disk, c.replies, c.now);
    var back, tm := LoadWritten(env, source, ld, first.state, first.meta, first.disk);
    AssignmentsLaw(pairs, first.state);
    var a := Assignments(pairs, first.state.next);
    k := UnheldKey(a);
    ReportsInMap(Flatten(Rebuild(Nil, a), ""), Flatten(back, ""));
    SecondRunDiffers(env, source, c', first, LoadDisk(env, first.disk).value, k);
  }

  lemma SecondRunDiffers(env: Env, source: Source, c: Call, first: Report, ld: Loaded, k: string)
    requires env.Faithful() && LoadDisk(env, first.disk) == Ok(ld) && Sound(ld.tm)
    requires first.state.tm == Empty && ld.tm.at == map[] && k !in ld.existing && k in SourceMap(source)
    requires first.disk.meta == Some(env.metas.render(first.meta)) && first.meta.fallbackKeys == []
    requires FileText(first.disk.tm) == ""
    ensures DecidesAnew(env, source, k, SyncLocale(env, c.opts, source, first.disk, c.replies, c.now))
  {
    var pairs := SourcePairs(source);
    MapOfPair(pairs, k);
    LostKeyPends(env, c.opts.force, pairs, ld, c.replies, c.now, k, SourceMap(source)[k]);
    ComputeSettles(env, c.opts.force, pairs, ld, c.replies, c.now);
    var computed := Compute(env, c.opts.force, pairs, ld, c.replies, c.now);
    if computed.Ok? {
      var st := computed.value;
      RunOf(env, c.opts, source, first.disk, ld, st, c.replies, c.now);
      FallbackKeysLaw(env, pairs, st);
      EmptyRenders(env, st.tm);
      var meta := NextMeta(env, source, |pairs|, ld.meta, st, c.now);
      assert env.metas.parse(env.metas.render(meta)) == Some(meta);
      assert env.metas.parse(env.metas.render(first.meta)) == Some(first.meta);
    }
  }

  lemma {:induction false} FromPairsKeys(pairs: seq<(string, string)>)
    ensures FromPairs(pairs).at.Keys == MapOf(pairs).Keys
  {
    if pairs != [] {
      FromPairsKeys(pairs[..|pairs| - 1]);
    }
  }

  lemma SourceMapKeys(source: Source)
    ensures SourceMap(source).Keys == MapOf(Flatten(source.tree, "")).Keys
  {
    var m, pairs := FromPairs(Flatten(source.tree, "")), SourcePairs(source);
    FromPairsKeys(Flatten(source.tree, ""));
    forall k
      ensures k in SourceMap(source) <==> k in m.at
    {
      if k in SourceMap(source) {
        MapOfPair(pairs, k);
        var i :| 0 <= i < |pairs| && pairs[i] == (k, SourceMap(source)[k]);
        assert m.order[i] == k;
      }
      if k in m.at {
        var i :| 0 <= i < |m.order| && m.order[i] == k;
        assert pairs[i] in pairs;
      }
    }
  }

  /** The texts of the source, each with a mark that tells them from English. */
  function Marked(source: Source): map<string, string> {
    map k | k in SourceMap(source) :: SourceMap(source)[k] + "!"
  }

  /** An object with all source keys and marked texts. */
  lemma MarkedModule(source: Source) returns (kids: Kids)
    requires IsObject(source.tree)
    ensures IsObject(kids) && ReportsMap(kids, Marked(source))
  {
    var m := Marked(source);
    var next := (k: string) => if k in m then m[k] else "";
    kids := Relabel(source.tree, "", next);
    var flat := Flatten(source.tree, "");
    RelabelShape(source.tree, "", next);
    SourceMapKeys(source);
    NextKeys(flat, next);
    forall p | p in NextPairs(flat, next)
      ensures p.0 in m && p.1 == m[p.0]
    {
      var i :| 0 <= i < |flat| && NextPairs(flat, next)[i] == p;
      assert flat[i] in flat;
    }
  }

  lemma {:induction false} NextKeys(pairs: seq<(string, string)>, next: string -> string)
    ensures MapOf(NextPairs(pairs, next)).Keys == MapOf(pairs).Keys
  {
    if pairs != [] {
      var n := |pairs| - 1;
      assert NextPairs(pairs, next)[..n] == NextPairs(pairs[..n], next);
      NextKeys(pairs[..n], next);
    }
  }

  /** A translation that is lost: written back, the key `.x` becomes `x`, and the second run
      falls back to English. */
  lemma DottedKeyIsLost(env: Env, source: Source, c: Call, c': Call)
    requires env.Faithful() && !env.allowTranslate && c.opts.write && !c.opts.checkOnly
    requires source.tree == Cons(".x", Leaf("X"), Nil)
    ensures var disk := OnlyModule(env, Cons(".x", Leaf("kept"), Nil), None);
            var first := SyncLocale(env, c.opts, source, disk, c.replies, c.now);
            && first.Ok? && first.value.state.next == map[".x" := "kept"]
            && var second := SyncLocale(env, c'.opts, source, first.value.disk, c'.replies, c'.now);
               second.Ok? && second.value.state.next == map[".x" := "X"]
  {
    hide SyncLocale;
    var kids, m := Cons(".x", Leaf("kept"), Nil), map[".x" := "kept"];
    var one := [(".x", "X")];
    assert Flatten(source.tree, "") == one && Flatten(kids, "") == [(".x", "kept")];
    SourcePairsPlain(source);
    assert one[..0] == [] && [(".x", "kept")][..0] == [];
    assert SourceMap(source) == map[".x" := "X"] && MapOf([(".x", "kept")]) == m;
    assert StartsWith(".x", ".") && ".x" in SourceMap(source).Keys;
    var k := KeyIsLost(env, source, c, c', kids, m);
    var first := SyncLocale(env, c.opts, source, OnlyModule(env, kids, None), c.replies, c.now).value;
    Coverage(env, c'.opts, source, first.disk, c'.replies, c'.now);
  }

  // ---------- keys that tie in collation order ----------

  lemma TiedPair(env: Env, a: string, b: string)
    requires a != b && env.collate(a, b)
    ensures Sort(Dedup([a, b]), env.collate) == [a, b]
  {
    var one, two := [a], [a, b];
    assert one[..|one| - 1] == [] && two[..|two| - 1] == one;
    assert Dedup([]) == [];
    assert Dedup(one) == [] + [a] == one;
    assert b !in one;
    assert Dedup(two) == one + [b];
    SortFixed(two, env.collate);
  }

  lemma {:induction false} PairInOrder(pairs: seq<(string, string)>, i: nat, j: nat, n: nat)
    requires DistinctKeys(pairs) && i < j < |pairs| && n <= |pairs|
    ensures InSourceOrder(pairs[..n], [pairs[j].0, pairs[i].0])
         == if n <= i then [] else if n <= j then [pairs[i].0] else [pairs[i].0, pairs[j].0]
  {
    if n > 0 {
      assert pairs[..n][..n - 1] == pairs[..n - 1];
      PairInOrder(pairs, i, j, n - 1);
    }
  }

  /** Neither provider nor memory; only `a` is not in the file, and only `b` was a fallback
      key. */
  ghost predicate OnlyMissing(env: Env, ld: Loaded, pairs: seq<(string, string)>, a: string, b: string) {
    && !env.allowTranslate && ld.tm == Empty && DistinctKeys(pairs)
    && b != a && a !in ld.existing
    && (forall p <- pairs :: p.0 != a ==> p.0 in ld.existing)
    && (forall k :: WasFallback(ld, k) <==> k == b)
  }

  /** What the key loop then leaves for the keys of `m`. */
  ghost predicate OneLeft(env: Env, m: map<string, string>, a: string, b: string, st: State) {
    && st.tm == Empty && st.next.Keys == m.Keys - {a}
    && st.pending == (if a in m then [Item(a, m[a], SegmentKey(env, a, m[a]), HashText(env, m[a]))] else [])
    && st.fallback == if b in m then [b] else []
  }

  lemma {:induction false} OneMissing(env: Env, ld: Loaded, pairs: seq<(string, string)>, a: string, b: string)
    requires OnlyMissing(env, ld, pairs, a, b)
    ensures OneLeft(env, MapOf(pairs), a, b, KeyLoop(env, ld, map[], pairs))
  {
    hide KeyStep, OneLeft;
    if pairs == [] {
      NothingLeft(env, ld, a, b);
    } else {
      var init := pairs[..|pairs| - 1];
      var (k, t) := pairs[|pairs| - 1];
      LastKeyNew(pairs);
      assert pairs == init + [(k, t)] && (k, t) in pairs;
      assert forall p <- init :: p in pairs;
      OneMissing(env, ld, init, a, b);
      MapOfLast(init, k, t);
      MissingStep(env, ld, MapOf(init), KeyLoop(env, ld, map[], init), k, t, a, b);
    }
  }

  lemma NothingLeft(env: Env, ld: Loaded, a: string, b: string)
    requires ld.tm == Empty
    ensures OneLeft(env, MapOf([]), a, b, KeyLoop(env, ld, map[], []))
  {
  }

  lemma MissingStep(env: Env, ld: Loaded, m: map<string, string>, st: State, k: string, t: string, a: string, b: string)
    requires !env.allowTranslate && (k != a ==> k in ld.existing) && a !in ld.existing && b != a
    requires OneLeft(env, m, a, b, st) && k !in m && (WasFallback(ld, k) <==> k == b)
    ensures OneLeft(env, m[k := t], a, b, KeyStep(env, ld, map[], st, k, t))
  {
    var st' := KeyStep(env, ld, map[], st, k, t);
    if k == a {
      assert st' == st.(pending := [Item(k, t, SegmentKey(env, k, t), HashText(env, t))]);
    } else {
      assert st' == st.(next := st.next[k := ld.existing[k]], fallback := if k == b then [k] else st.fallback);
    }
  }

  /** All pairs but one. */
  function AllBut(pairs: seq<(string, string)>, i: nat): (others: seq<(string, string)>)
    requires i < |pairs|
    ensures |others| == |pairs| - 1
  {
    seq(|pairs| - 1, q requires 0 <= q < |pairs| - 1 => pairs[if q < i then q else q + 1])
  }

  lemma AllButHas(pairs: seq<(string, string)>, i: nat, k: string)
    requires i < |pairs| && k in MapOf(pairs) && k != pairs[i].0
    ensures k in MapOf(AllBut(pairs, i))
  {
    hide MapOf;
    MapOfPair(pairs, k);
    var q :| 0 <= q < |pairs| && pairs[q] == (k, MapOf(pairs)[k]);
    assert AllBut(pairs, i)[if q < i then q else q - 1] in AllBut(pairs, i);
  }

  lemma AllButOnly(pairs: seq<(string, string)>, i: nat, k: string)
    requires DistinctKeys(pairs) && i < |pairs| && k in MapOf(AllBut(pairs, i))
    ensures k in MapOf(pairs) && k != pairs[i].0
  {
    hide MapOf;
    var others := AllBut(pairs, i);
    MapOfPair(others, k);
    var q :| 0 <= q < |others| && others[q] == (k, MapOf(others)[k]);
    assert pairs[if q < i then q else q + 1] in pairs;
  }

  lemma AllButLaw(pairs: seq<(string, string)>, i: nat)
    requires DistinctKeys(pairs) && i < |pairs|
    ensures DistinctKeys(AllBut(pairs, i))
    ensures MapOf(AllBut(pairs, i)).Keys == MapOf(pairs).Keys - {pairs[i].0}
  {
    forall k | k in MapOf(AllBut(pairs, i))
      ensures k in MapOf(pairs) && k != pairs[i].0
    {
      AllButOnly(pairs, i, k);
    }
    forall k | k in MapOf(pairs) && k != pairs[i].0
      ensures k in MapOf(AllBut(pairs, i))
    {
      AllButHas(pairs, i, k);
    }
  }

  /** A module that reports just these pairs. */
  lemma ModuleOf(pairs: seq<(string, string)>) returns (kids: Kids)
    requires DistinctKeys(pairs) && Rebuildable(MapOf(pairs).Keys)
    ensures IsObject(kids) && ReportsMap(kids, MapOf(pairs))
  {
    kids := Rebuild(Nil, pairs);
    RebuiltIsObject(pairs);
    RebuildableRoundTrips(pairs);
    RebuiltReportsOnce(pairs);
    var flat := Flatten(kids, "");
    forall p | p in flat
      ensures p.0 in MapOf(pairs) && p.1 == MapOf(pairs)[p.0]
    {
      var j :| 0 <= j < |flat| && flat[j] == p;
      MapOfDistinct(flat, j);
    }
  }

  /** Metadata that names one fallback key. */
  function MetaWith(key: string): Meta {
    Meta([key], "", "", "", "", "", 0, 0, CONTROL_UI_I18N_WORKFLOW)
  }

  /** The files before the first of the two runs: `b` was a fallback key and `a` is new. */
  lemma BeforeLate(env: Env, source: Source, i: nat, j: nat) returns (disk: Disk, ld: Loaded)
    requires env.Faithful() && !env.allowTranslate && Rebuildable(SourceMap(source).Keys)
    requires i < j < |SourcePairs(source)|
    ensures LoadDisk(env, disk) == Ok(ld)
    ensures OnlyMissing(env, ld, SourcePairs(source), SourcePairs(source)[i].0, SourcePairs(source)[j].0)
  {
    hide LoadDisk, MapOf, AllBut, IsObject, ReportsMap;
    var pairs := SourcePairs(source);
    var others, meta := AllBut(pairs, i), MetaWith(pairs[j].0);
    AllButLaw(pairs, i);
    var kids := ModuleOf(others);
    disk, ld := OnlyModule(env, kids, Some(meta)), Loaded(MapOf(others), Some(meta), [], Empty);
    LoadOnlyModule(env, kids, Some(meta), MapOf(others));
    assert forall p <- pairs :: p.0 in MapOf(pairs);
  }

  /** The first run: the new key falls back after the old one that follows it. */
  lemma LateFallback(env: Env, source: Source, c: Call, i: nat, j: nat) returns (disk: Disk)
    requires env.Faithful() && !env.allowTranslate && Rebuildable(SourceMap(source).Keys)
    requires i < j < |SourcePairs(source)|
    ensures var r := SyncLocale(env, c.opts, source, disk, c.replies, c.now);
            r.Ok? && r.value.state.fallback == [SourcePairs(source)[j].0, SourcePairs(source)[i].0]
  {
    hide KeyStep, FallbackLoop, NextMeta, LoadDisk;
    var pairs := SourcePairs(source);
    var a, b := pairs[i].0, pairs[j].0;
    var ld: Loaded;
    disk, ld := BeforeLate(env, source, i, j);
    assert pairs[i] in pairs && pairs[j] in pairs && Empty.Values() == [];
    OneMissing(env, ld, pairs, a, b);
    var st := KeyLoop(env, ld, map[], pairs);
    LeftFallsBack(env, ld, c.opts.force, st, a, b, MapOf(pairs)[a]);
    RunOf(env, c.opts, source, disk, ld, FallbackLoop(ld, c.opts.force, st, st.pending), c.replies, c.now);
  }

  lemma LeftFallsBack(env: Env, ld: Loaded, force: bool, st: State, a: string, b: string, t: string)
    requires st.pending == [Item(a, t, SegmentKey(env, a, t), HashText(env, t))]
    requires a !in st.next && a !in ld.existing && st.fallback == [b]
    ensures FallbackLoop(ld, force, st, st.pending).fallback == [b, a]
    ensures FallbackLoop(ld, force, st, st.pending).tm == st.tm
  {
    var items := st.pending;
    assert items[..|items| - 1] == [] && FallbackLoop(ld, force, st, []) == st;
  }

  /** Why the keys must not tie: for any two source keys that collation cannot tell apart
      there are files after which the first run lists them in the order in which they fell
      back, and the second in source order. */
  lemma TiesReorderFallback(env: Env, source: Source, c: Call, c': Call, i: nat, j: nat) returns (disk: Disk)
    requires env.Faithful() && !env.allowTranslate && Rebuildable(SourceMap(source).Keys)
    requires c.opts.write && !c.opts.checkOnly && i < j < |SourcePairs(source)|
    requires var (a, b) := (SourcePairs(source)[i].0, SourcePairs(source)[j].0); env.collate(a, b) && env.collate(b, a)
    ensures var (a, b) := (SourcePairs(source)[i].0, SourcePairs(source)[j].0);
            var first := SyncLocale(env, c.opts, source, disk, c.replies, c.now);
            && first.Ok? && first.value.meta.fallbackKeys == [b, a]
            && var second := SyncLocale(env, c'.opts, source, first.value.disk, c'.replies, c'.now);
               second.Ok? && second.value.meta.fallbackKeys == [a, b] && second.value.changed
  {
    hide SyncLocale, SourcePairs, Env.Faithful, Rebuildable, Sort, Dedup, NoTies, InSourceOrder;
    var pairs := SourcePairs(source);
    var a, b := pairs[i].0, pairs[j].0;
    assert a != b;
    disk := LateFallback(env, source, c, i, j);
    var first := SyncLocale(env, c.opts, source, disk, c.replies, c.now).value;
    SyncIsFixpoint(env, c.opts, source, disk, c.replies, c.now, c'.opts, c'.replies, c'.now);
    var second := SyncLocale(env, c'.opts, source, first.disk, c'.replies, c'.now).value;
    ListsFallback(env, c.opts, source, disk, c.replies, c.now);
    ListsFallback(env, c'.opts, source, first.disk, c'.replies, c'.now);
    PairInOrder(pairs, i, j, |pairs|);
    assert pairs[..|pairs|] == pairs;
    TiedPair(env, a, b);
    TiedPair(env, b, a);
  }

  lemma ListsFallback(env: Env, opts: Options, source: Source, disk: Disk, replies: nat -> Reply, now: string)
    ensures var r := SyncLocale(env, opts, source, disk, replies, now);
            r.Ok? ==> r.value.meta.fallbackKeys == SortedFallback(env, r.value.state)
  {
  }

  // ---------- the exact condition ----------

  /** Whatever the first run does, the second one leaves nothing to translate. */
  ghost predicate LeavesNothing(env: Env, source: Source, c: Call, c': Call, disk: Disk) {
    match SyncLocale(env, c.opts, source, disk, c.replies, c.now)
    case Thrown(_) => true
    case Ok(first) =>
      match SyncLocale(env, c'.opts, source, first.disk, c'.replies, c'.now)
      case Thrown(_) => false
      case Ok(second) => second.state.pending == []
  }

  ghost predicate RepeatsValues(env: Env, source: Source, c: Call, c': Call, disk: Disk) {
    match SyncLocale(env, c.opts, source, disk, c.replies, c.now)
    case Thrown(_) => true
    case Ok(first) =>
      match SyncLocale(env, c'.opts, source, first.disk, c'.replies, c'.now)
      case Thrown(_) => false
      case Ok(second) => second.state.next == first.state.next
  }

  ghost predicate ReportsNoChange(env: Env, source: Source, c: Call, c': Call, disk: Disk) {
    match SyncLocale(env, c.opts, source, disk, c.replies, c.now)
    case Thrown(_) => true
    case Ok(first) =>
      match SyncLocale(env, c'.opts, source, first.disk, c'.replies, c'.now)
      case Thrown(_) => false
      case Ok(second) => !second.changed
  }

  /** For any flags, clocks and translators of the two runs, the first with `--write`: the
      second run leaves nothing to translate, whatever the files held, exactly when no source
      key starts with a dot or continues another one; without a provider it repeats the
      values exactly then; and it reports no change exactly when, besides, there is a
      provider or no two source keys tie. */
  lemma FixpointExactly(env: Env, source: Source, c: Call, c': Call)
    requires env.Faithful() && IsObject(source.tree)
    requires c.opts.write && !c.opts.checkOnly
    ensures (forall disk :: LeavesNothing(env, source, c, c', disk)) <==> Rebuildable(SourceMap(source).Keys)
    ensures !env.allowTranslate ==>
              ((forall disk :: RepeatsValues(env, source, c, c', disk)) <==> Rebuildable(SourceMap(source).Keys))
    ensures (forall disk :: ReportsNoChange(env, source, c, c', disk)) <==>
              Rebuildable(SourceMap(source).Keys) && (env.allowTranslate || NoTies(SourceKeys(source), env.collate))
  {
    hide SyncLocale;
    if Rebuildable(SourceMap(source).Keys) {
      forall disk: Disk
        ensures LeavesNothing(env, source, c, c', disk) && RepeatsValues(env, source, c, c', disk)
        ensures env.allowTranslate || NoTies(SourceKeys(source), env.collate) ==> ReportsNoChange(env, source, c, c', disk)
      {
        SyncIsFixpoint(env, c.opts, source, disk, c.replies, c.now, c'.opts, c'.replies, c'.now);
      }
      if !env.allowTranslate && !NoTies(SourceKeys(source), env.collate) {
        var i, j := TiedKeys(env, source);
        var disk := TiesReorderFallback(env, source, c, c', i, j);
        assert !ReportsNoChange(env, source, c, c', disk);
      }
    } else {
      var kids := MarkedModule(source);
      var m := Marked(source);
      var k := KeyIsLost(env, source, c, c', kids, m);
      var disk := OnlyModule(env, kids, None);
      assert m[k] != SourceMap(source)[k] by {
        assert |m[k]| == |SourceMap(source)[k]| + 1;
      }
      assert !LeavesNothing(env, source, c, c', disk);
      assert !ReportsNoChange(env, source, c, c', disk);
      assert !env.allowTranslate ==> !RepeatsValues(env, source, c, c', disk);
    }
  }

  lemma TiedKeys(env: Env, source: Source) returns (i: nat, j: nat)
    requires !NoTies(SourceKeys(source), env.collate)
    ensures i < j < |SourcePairs(source)|
    ensures var (a, b) := (SourcePairs(source)[i].0, SourcePairs(source)[j].0); env.collate(a, b) && env.collate(b, a)
  {
    hide SourcePairs;
    var keys := SourceKeys(source);
    var x, y :| x in keys && y in keys && env.collate(x, y) && env.collate(y, x) && x != y;
    var p :| 0 <= p < |keys| && keys[p] == x;
    var q :| 0 <= q < |keys| && keys[q] == y;
    i, j := if p < q then p else q, if p < q then q else p;
  }
}
