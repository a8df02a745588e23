/** A second run of `syncLocale` after a written one changes nothing. */
module SyncFixpoint {
  import opened Text
  import opened Sorting
  import opened Tree
  import opened Rebuilding
  import opened Memory
  import opened Batching
  import opened Translating
  import opened Sync
  import opened SyncProofs

  // ---------- coverage of one run ----------

  /** Whatever a run that does not throw starts from: exactly the source keys get a
      value, only source keys fall back, the count of translated keys is not negative,
      a provider run leaves no fallback, and the memory keeps every entry under its own
      cache key, so that it can be reloaded. */
  lemma Coverage(env: Env, opts: Options, source: Source, disk: Disk, replies: nat -> Reply, now: string)
    requires env.Faithful()
    ensures match SyncLocale(env, opts, source, disk, replies, now)
            case Thrown(_) => true
            case Ok(r) =>
              && r.state.next.Keys == MapOf(SourcePairs(source)).Keys
              && (forall k <- r.meta.fallbackKeys :: k in r.state.next)
              && r.meta.totalKeys == |SourcePairs(source)| && r.meta.translatedKeys >= 0
              && (env.allowTranslate ==> r.meta.fallbackKeys == [])
              && Sound(r.state.tm)
              && var back := Load(env.entries, Render(env.entries, r.state.tm, env.collate));
                 back.Ok? && back.value.at == r.state.tm.at
  {
    var run := SyncLocale(env, opts, source, disk, replies, now);
    if run.Ok? {
      var ld, pairs := LoadDisk(env, disk).value, SourcePairs(source);
      LoadSound(env.entries, Split(FileText(disk.tm), '\n'));
      ComputeSettles(env, opts.force, pairs, ld, replies, now);
      var st := run.value.state;
      LoadRendered(env.entries, st.tm, env.collate);
      FallbackKeysLaw(env, pairs, st);
    }
  }

  lemma {:induction false} DedupLaw(keys: seq<string>)
    ensures Distinct(Dedup(keys))
    ensures forall k :: k in Dedup(keys) <==> k in keys
  {
    if keys != [] {
      DedupLaw(keys[..|keys| - 1]);
      assert keys == keys[..|keys| - 1] + [keys[|keys| - 1]];
    }
  }

  lemma FallbackKeysLaw(env: Env, pairs: seq<(string, string)>, st: State)
    requires DistinctKeys(pairs) && AllSettled(env, pairs, st)
    ensures forall k :: k in SortedFallback(env, st) <==> k in st.fallback
    ensures |SortedFallback(env, st)| <= |pairs|
    ensures st.fallback == [] ==> SortedFallback(env, st) == []
  {
    DedupLaw(st.fallback);
    SortPermutes(Dedup(st.fallback), env.collate);
    DistinctFits(Dedup(st.fallback), pairs);
  }

  lemma DistinctFits(keys: seq<string>, pairs: seq<(string, string)>)
    requires Distinct(keys)
    requires forall k <- keys :: k in MapOf(pairs)
    ensures |keys| <= |pairs|
  {
    DistinctSize(keys, MapOf(pairs).Keys);
    MapOfSize(pairs);
  }

  lemma {:induction false} DistinctSize(keys: seq<string>, s: set<string>)
    requires Distinct(keys) && forall k <- keys :: k in s
    ensures |keys| <= |s|
  {
    if keys != [] {
      assert keys[0] in keys;
      assert forall k <- keys[1..] :: k in keys && k != keys[0];
      DistinctSize(keys[1..], s - {keys[0]});
    }
  }

  lemma {:induction false} MapOfSize(pairs: seq<(string, string)>)
    ensures |MapOf(pairs).Keys| <= |pairs|
  {
    if pairs != [] {
      var n := |pairs| - 1;
      MapOfSize(pairs[..n]);
      assert MapOf(pairs).Keys == MapOf(pairs[..n]).Keys + {pairs[n].0};
    }
  }

  function SourceKeys(source: Source): seq<string> {
    seq(|SourcePairs(source)|, i requires 0 <= i < |SourcePairs(source)| => SourcePairs(source)[i].0)
  }

  lemma SourceKeysLaw(source: Source)
    ensures forall k :: k in MapOf(SourcePairs(source)) ==> k in SourceKeys(source)
  {
    forall k | k in MapOf(SourcePairs(source))
      ensures k in SourceKeys(source)
    {
      MapOfPair(SourcePairs(source), k);
      var i :| 0 <= i < |SourcePairs(source)| && SourcePairs(source)[i] == (k, MapOf(SourcePairs(source))[k]);
      assert SourceKeys(source)[i] == k;
    }
  }

  // ---------- the key loop of a second run ----------

  /** What a second run loads: the values, the fallback keys and the memory of the first. */
  ghost predicate Follows(ld: Loaded, pairs: seq<(string, string)>, st: State) {
    && Sound(ld.tm) && ld.tm.at == st.tm.at
    && (forall p <- pairs :: p.0 in ld.existing && p.0 in st.next && ld.existing[p.0] == st.next[p.0])
    && (forall k :: WasFallback(ld, k) <==> k in st.fallback)
  }

  /** Those of `keys` that are source keys, in source order. */
  function InSourceOrder(pairs: seq<(string, string)>, keys: seq<string>): seq<string> {
    if pairs == [] then []
    else
      var (init, k) := (pairs[..|pairs| - 1], pairs[|pairs| - 1].0);
      if k in keys then InSourceOrder(init, keys) + [k] else InSourceOrder(init, keys)
  }

  lemma {:induction false} InSourceOrderLaw(pairs: seq<(string, string)>, keys: seq<string>, keys': seq<string>)
    requires forall k :: k in keys <==> k in keys'
    ensures InSourceOrder(pairs, keys) == InSourceOrder(pairs, keys')
    ensures forall k :: k in InSourceOrder(pairs, keys) <==> k in keys && k in MapOf(pairs)
  {
    if pairs != [] {
      var n := |pairs| - 1;
      InSourceOrderLaw(pairs[..n], keys, keys');
      assert pairs == pairs[..n] + [pairs[n]];
      MapOfLast(pairs[..n], pairs[n].0, pairs[n].1);
    }
  }

  lemma SecondStep(env: Env, ld: Loaded, first: State, st: State, k: string, t: string)
    requires Follows(ld, [(k, t)], first) && Settled(env, first, k, t)
    requires st.tm == ld.tm
    ensures KeyStep(env, ld, TextHashes(ld.tm.Values(), env.locale), st, k, t)
         == st.(next := st.next[k := first.next[k]],
                fallback := if k in first.fallback then st.fallback + [k] else st.fallback)
  {
    var h := HashText(env, t);
    assert (k, t) in [(k, t)];
    HashesAreTexts(ld.tm, env.locale, h);
    if HasText(ld.tm, env.locale, h) {
      assert HasText(first.tm, env.locale, h);
    }
  }

  lemma {:induction false} SecondLoop(env: Env, ld: Loaded, first: State, pairs: seq<(string, string)>)
    requires Follows(ld, pairs, first)
    requires forall p <- pairs :: Settled(env, first, p.0, p.1)
    ensures var st := KeyLoop(env, ld, TextHashes(ld.tm.Values(), env.locale), pairs);
            && st.tm == ld.tm && st.pending == []
            && st.next.Keys == MapOf(pairs).Keys
            && (forall k <- st.next :: k in first.next && st.next[k] == first.next[k])
            && st.fallback == InSourceOrder(pairs, first.fallback)
  {
    if pairs != [] {
      var n := |pairs| - 1;
      var init := pairs[..n];
      var (k, t) := pairs[n];
      assert pairs == init + [(k, t)];
      SecondLoop(env, ld, first, init);
      SecondStep(env, ld, first, KeyLoop(env, ld, TextHashes(ld.tm.Values(), env.locale), init), k, t);
      MapOfLast(init, k, t);
    }
  }

  // ---------- files ----------

  lemma AssignmentsLaw(pairs: seq<(string, string)>, st: State)
    requires DistinctKeys(pairs) && st.next.Keys == MapOf(pairs).Keys
    ensures DistinctKeys(Assignments(pairs, st.next))
    ensures MapOf(Assignments(pairs, st.next)) == st.next
  {
    var a := Assignments(pairs, st.next);
    forall k | k in st.next
      ensures k in MapOf(a)
    {
      MapOfPair(pairs, k);
      var i :| 0 <= i < |pairs| && pairs[i] == (k, MapOf(pairs)[k]);
      assert a[i] in a;
    }
    forall k | k in MapOf(a)
      ensures k in st.next && MapOf(a)[k] == st.next[k]
    {
      MapOfPair(a, k);
      AssignedValue(pairs, st, k, MapOf(a)[k]);
    }
  }

  lemma AssignedValue(pairs: seq<(string, string)>, st: State, k: string, v: string)
    requires st.next.Keys == MapOf(pairs).Keys && (k, v) in Assignments(pairs, st.next)
    ensures k in st.next && v == st.next[k]
  {
    var i :| 0 <= i < |pairs| && Assignments(pairs, st.next)[i] == (k, v);
    assert pairs[i] in pairs;
  }

  /** After a run with `--write` the files hold what the run computed, written or not. */
  ghost predicate Written(env: Env, source: Source, ld: Loaded, st: State, meta: Meta, disk: Disk)
    requires st.tm.Valid()
  {
    && disk.locale == Some(env.modules.render(Rebuild(Nil, Assignments(SourcePairs(source), st.next))))
    && disk.meta == Some(env.metas.render(meta))
    && disk.glossary == Some(env.glossaries.render(if ld.glossary == [] then env.defaultGlossary else ld.glossary))
    && FileText(disk.tm) == Render(env.entries, st.tm, env.collate)
  }

  lemma FinishWrites(env: Env, opts: Options, source: Source, disk: Disk, ld: Loaded, st: State, now: string)
    requires env.Faithful() && st.tm.Valid() && opts.write && !opts.checkOnly
    ensures var r := Finish(env, opts, source, SourcePairs(source), disk, ld, st, now);
            Written(env, source, ld, st, r.meta, r.disk)
  {
    RebuiltIsObject(Assignments(SourcePairs(source), st.next));
  }

  lemma RebuiltIsObject(pairs: seq<(string, string)>)
    ensures IsObject(Rebuild(Nil, pairs))
  {
    RebuildSplits(Nil, pairs);
    RebuildSolid(Nil, SplitKeys(pairs));
    SolidIsObject(Rebuild(Nil, pairs));
  }

  lemma {:induction false} ReportsInMap(a: seq<(string, string)>, b: seq<(string, string)>)
    requires multiset(a) == multiset(b)
    ensures MapOf(a).Keys == MapOf(b).Keys
    ensures forall k <- MapOf(a) :: (k, MapOf(a)[k]) in b
    ensures DistinctKeys(a) ==> MapOf(a) == MapOf(b)
  {
    forall i | 0 <= i < |a|
      ensures a[i] in b
    {
      assert a[i] in multiset(a);
    }
    forall i | 0 <= i < |b|
      ensures b[i] in a
    {
      assert b[i] in multiset(b);
    }
    forall k
      ensures k in MapOf(a) <==> k in MapOf(b)
      ensures k in MapOf(a) ==> (k, MapOf(a)[k]) in b
    {
      if k in MapOf(a) {
        MapOfPair(a, k);
      }
      if k in MapOf(b) {
        MapOfPair(b, k);
      }
    }
    if DistinctKeys(a) {
      SamePairsSameMap(b, a);
    }
  }

  /** What written files load as, `kids` being the object read back. */
  lemma LoadWritten(env: Env, source: Source, ld: Loaded, st: State, meta: Meta, disk: Disk) returns (kids: Kids, tm: JsMap<Entry>)
    requires env.Faithful() && Sound(st.tm) && Written(env, source, ld, st, meta, disk)
    ensures SameReports(Rebuild(Nil, Assignments(SourcePairs(source), st.next)), kids)
    ensures Sound(tm) && tm.at == st.tm.at && Render(env.entries, tm, env.collate) == Render(env.entries, st.tm, env.collate)
    ensures LoadDisk(env, disk) == Ok(Loaded(
              MapOf(Flatten(kids, "")), Some(meta), if ld.glossary == [] then env.defaultGlossary else ld.glossary, tm))
  {
    var a := Assignments(SourcePairs(source), st.next);
    var g := if ld.glossary == [] then env.defaultGlossary else ld.glossary;
    RebuiltIsObject(a);
    kids := env.modules.parse(env.modules.render(Rebuild(Nil, a))).value;
    LoadRendered(env.entries, st.tm, env.collate);
    tm := Load(env.entries, Render(env.entries, st.tm, env.collate)).value;
    assert LoadFile(env.modules, disk.locale) == Ok(Some(kids));
    assert LoadFile(env.metas, disk.meta) == Ok(Some(meta));
    assert LoadFile(env.glossaries, disk.glossary) == Ok(Some(g));
  }

  /** A written object with rebuildable keys reads back as the texts written. */
  lemma ModuleReadsBack(pairs: seq<(string, string)>, kids: Kids)
    requires DistinctKeys(pairs) && Rebuildable(MapOf(pairs).Keys) && SameReports(Rebuild(Nil, pairs), kids)
    ensures MapOf(Flatten(kids, "")) == MapOf(pairs)
  {
    hide Flatten, Rebuild, MapOf, Rebuildable;
    RebuildableRoundTrips(pairs);
    RebuiltReportsOnce(pairs);
    ReportsInMap(Flatten(Rebuild(Nil, pairs), ""), Flatten(kids, ""));
  }

  /** The state that the next run loads from written files. */
  lemma Reload(env: Env, source: Source, ld: Loaded, st: State, meta: Meta, disk: Disk) returns (ld': Loaded)
    requires env.Faithful() && Rebuildable(MapOf(SourcePairs(source)).Keys)
    requires AllSettled(env, SourcePairs(source), st) && Written(env, source, ld, st, meta, disk)
    ensures LoadDisk(env, disk) == Ok(ld')
    ensures ld'.existing == st.next && Sound(ld'.tm) && ld'.tm.at == st.tm.at && ld'.meta == Some(meta)
    ensures ld'.glossary == if ld.glossary == [] then env.defaultGlossary else ld.glossary
    ensures Render(env.entries, ld'.tm, env.collate) == Render(env.entries, st.tm, env.collate)
  {
    hide LoadDisk, Render, Flatten, Rebuild, Settled, Rebuildable, Sound, SourcePairs, Written;
    var pairs := SourcePairs(source);
    var kids, tm := LoadWritten(env, source, ld, st, meta, disk);
    AssignmentsLaw(pairs, st);
    ModuleReadsBack(Assignments(pairs, st.next), kids);
    ld' := Loaded(st.next, Some(meta), if ld.glossary == [] then env.defaultGlossary else ld.glossary, tm);
  }

  lemma ReloadFollows(env: Env, source: Source, ld: Loaded, st: State, meta: Meta, disk: Disk) returns (ld': Loaded)
    requires env.Faithful() && Rebuildable(MapOf(SourcePairs(source)).Keys)
    requires AllSettled(env, SourcePairs(source), st) && Written(env, source, ld, st, meta, disk)
    requires forall k :: k in meta.fallbackKeys <==> k in st.fallback
    ensures LoadDisk(env, disk) == Ok(ld')
    ensures Follows(ld', SourcePairs(source), st) && ld'.meta == Some(meta)
    ensures ld'.glossary == if ld.glossary == [] then env.defaultGlossary else ld.glossary
    ensures Render(env.entries, ld'.tm, env.collate) == Render(env.entries, st.tm, env.collate)
  {
    hide LoadDisk, Render, Settled, Rebuildable, Sound, SourcePairs, Written;
    ld' := Reload(env, source, ld, st, meta, disk);
    assert forall p <- SourcePairs(source) :: p.0 in MapOf(SourcePairs(source));
  }

  lemma SameFallback(env: Env, a: State, b: State)
    requires TotalPreorder(env.collate) && NoTies(a.fallback, env.collate)
    requires forall k :: k in a.fallback <==> k in b.fallback
    ensures SortedFallback(env, a) == SortedFallback(env, b)
  {
    DedupLaw(a.fallback);
    DedupLaw(b.fallback);
    SameElements(Dedup(a.fallback), Dedup(b.fallback));
    SortCanonical(Dedup(a.fallback), Dedup(b.fallback), env.collate);
  }

  lemma MetaRepeats(env: Env, source: Source, total: nat, previous: Option<Meta>, st: State, st': State, now: string, now': string)
    ensures var meta := NextMeta(env, source, total, previous, st, now);
            NextMeta(env, source, total, Some(meta), st', now') == meta
            <==> SortedFallback(env, st') == SortedFallback(env, st)
  {
  }

  /** A run with the values and memory that the files hold reports a change exactly when it
      lists the fallback keys in another order. */
  lemma FinishAgain(env: Env, opts: Options, source: Source, ld: Loaded, st: State, now0: string, disk: Disk,
                    ld': Loaded, st': State, now: string)
    requires env.Faithful() && st.tm.Valid() && st'.tm.Valid()
    requires ld'.meta == Some(NextMeta(env, source, |SourcePairs(source)|, ld.meta, st, now0))
    requires Written(env, source, ld, st, ld'.meta.value, disk)
    requires st'.next == st.next
    requires Render(env.entries, st'.tm, env.collate) == Render(env.entries, st.tm, env.collate)
    requires ld'.glossary == if ld.glossary == [] then env.defaultGlossary else ld.glossary
    ensures var r := Finish(env, opts, source, SourcePairs(source), disk, ld', st', now);
            && r.state == st' && r.meta.fallbackKeys == SortedFallback(env, st')
            && (r.changed <==> SortedFallback(env, st') != SortedFallback(env, st))
            && (!r.changed ==> r.meta == ld'.meta.value && !r.wrote && r.disk == disk)
  {
    var total, meta := |SourcePairs(source)|, ld'.meta.value;
    var meta' := NextMeta(env, source, total, ld'.meta, st', now);
    MetaRepeats(env, source, total, ld.meta, st, st', now0, now);
    assert env.metas.parse(env.metas.render(meta)) == Some(meta) && env.metas.parse(env.metas.render(meta')) == Some(meta');
  }

  lemma RunOf(env: Env, opts: Options, source: Source, disk: Disk, ld: Loaded, st: State, replies: nat -> Reply, now: string)
    requires LoadDisk(env, disk) == Ok(ld) && ld.tm.Valid() && st.tm.Valid()
    requires Compute(env, opts.force, SourcePairs(source), ld, replies, now) == Ok(st)
    ensures SyncLocale(env, opts, source, disk, replies, now)
         == Ok(Finish(env, opts, source, SourcePairs(source), disk, ld, st, now))
  {
  }

  lemma SecondCompute(env: Env, force: bool, pairs: seq<(string, string)>, ld: Loaded, first: State, replies: nat -> Reply,
                      now: string) returns (st: State)
    requires DistinctKeys(pairs) && AllSettled(env, pairs, first) && Follows(ld, pairs, first)
    ensures Compute(env, force, pairs, ld, replies, now) == Ok(st)
    ensures st.tm == ld.tm && st.next == first.next && st.pending == []
    ensures st.fallback == InSourceOrder(pairs, first.fallback)
  {
    st := KeyLoop(env, ld, TextHashes(ld.tm.Values(), env.locale), pairs);
    SecondLoop(env, ld, first, pairs);
  }

  /** What a run finds that follows one which ended with `first` and wrote `meta`: the same
      values and memory, nothing to translate, the same fallback keys, and a change
      exactly when those come in another order. */
  ghost predicate Repeats(env: Env, source: Source, first: State, meta: Meta, disk: Disk, again: Result<Report>) {
    match again
    case Thrown(_) => false
    case Ok(r) =>
      && r.state.next == first.next && r.state.tm.at == first.tm.at && r.state.pending == []
      && r.state.fallback == InSourceOrder(SourcePairs(source), first.fallback)
      && (r.changed <==> SortedFallback(env, r.state) != SortedFallback(env, first))
      && (!r.changed ==> r.meta == meta && !r.wrote && r.disk == disk)
  }

  lemma RerunRepeats(env: Env, opts: Options, source: Source, ld: Loaded, st: State, disk: Disk, now0: string,
                     replies: nat -> Reply, now: string)
    requires env.Faithful() && Rebuildable(MapOf(SourcePairs(source)).Keys)
    requires AllSettled(env, SourcePairs(source), st)
    requires Written(env, source, ld, st, NextMeta(env, source, |SourcePairs(source)|, ld.meta, st, now0), disk)
    ensures var meta := NextMeta(env, source, |SourcePairs(source)|, ld.meta, st, now0);
            Repeats(env, source, st, meta, disk, SyncLocale(env, opts, source, disk, replies, now))
  {
    var pairs := SourcePairs(source);
    var meta := NextMeta(env, source, |pairs|, ld.meta, st, now0);
    FallbackKeysLaw(env, pairs, st);
    var ld' := ReloadFollows(env, source, ld, st, meta, disk);
    var st' := SecondCompute(env, opts.force, pairs, ld', st, replies, now);
    RunOf(env, opts, source, disk, ld', st', replies, now);
    FinishAgain(env, opts, source, ld, st, now0, disk, ld', st', now);
  }

  /** What holds after a run with `--write`. */
  lemma RunWrites(env: Env, opts: Options, source: Source, disk: Disk, replies: nat -> Reply, now: string) returns (ld: Loaded)
    requires env.Faithful() && opts.write && !opts.checkOnly
    requires SyncLocale(env, opts, source, disk, replies, now).Ok?
    ensures var first := SyncLocale(env, opts, source, disk, replies, now).value;
            && AllSettled(env, SourcePairs(source), first.state)
            && (env.allowTranslate ==> first.state.fallback == [])
            && first.meta == NextMeta(env, source, |SourcePairs(source)|, ld.meta, first.state, now)
            && Written(env, source, ld, first.state, first.meta, first.disk)
  {
    ld := LoadDisk(env, disk).value;
    var pairs := SourcePairs(source);
    LoadSound(env.entries, Split(FileText(disk.tm), '\n'));
    ComputeSettles(env, opts.force, pairs, ld, replies, now);
    var first := SyncLocale(env, opts, source, disk, replies, now).value;
    FinishWrites(env, opts, source, disk, ld, first.state, now);
    assert first == Finish(env, opts, source, pairs, disk, ld, first.state, now);
  }

  /** After a run with `--write`, whether it found anything to write or not, every further
      run with the same source and settings, with whatever flags and translator, computes
      the same values, memory and set of fallback keys and leaves nothing to translate. It
      reports no change and writes nothing if a provider is configured or the keys do not
      tie in collation order, and otherwise exactly if the fallback keys were already
      listed as the second run lists them. */
  lemma SyncIsFixpoint(env: Env, opts: Options, source: Source, disk: Disk, replies: nat -> Reply, now: string,
                       opts': Options, replies': nat -> Reply, now': string)
    requires env.Faithful() && Rebuildable(MapOf(SourcePairs(source)).Keys)
    requires opts.write && !opts.checkOnly
    ensures match SyncLocale(env, opts, source, disk, replies, now)
            case Thrown(_) => true
            case Ok(first) =>
              var again := SyncLocale(env, opts', source, first.disk, replies', now');
              && Repeats(env, source, first.state, first.meta, first.disk, again)
              && (env.allowTranslate || NoTies(SourceKeys(source), env.collate) ==> !again.value.changed)
  {
    var run := SyncLocale(env, opts, source, disk, replies, now);
    if run.Ok? {
      var ld := RunWrites(env, opts, source, disk, replies, now);
      var st := run.value.state;
      RerunRepeats(env, opts', source, ld, st, run.value.disk, now, replies', now');
      var st' := SyncLocale(env, opts', source, run.value.disk, replies', now').value.state;
      InSourceOrderLaw(SourcePairs(source), st.fallback, st.fallback);
      if env.allowTranslate || NoTies(SourceKeys(source), env.collate) {
        SourceKeysLaw(source);
        SameFallback(env, st, st');
      }
    }
  }

  /** Ties delay the fixpoint by one run at most: the third of three runs, the first two
      with `--write`, never finds a change. */
  lemma ThirdRunIsStable(env: Env, source: Source, disk: Disk, opts: Options, replies: nat -> Reply, now: string,
                         opts': Options, replies': nat -> Reply, now': string,
                         opts'': Options, replies'': nat -> Reply, now'': string)
    requires env.Faithful() && Rebuildable(MapOf(SourcePairs(source)).Keys)
    requires opts.write && !opts.checkOnly && opts'.write && !opts'.checkOnly
    ensures match SyncLocale(env, opts, source, disk, replies, now)
            case Thrown(_) => true
            case Ok(first) =>
              match SyncLocale(env, opts', source, first.disk, replies', now')
              case Thrown(_) => false
              case Ok(second) =>
                match SyncLocale(env, opts'', source, second.disk, replies'', now'')
                case Thrown(_) => false
                case Ok(third) => !third.changed && third.meta == second.meta && third.disk == second.disk
  {
    var run := SyncLocale(env, opts, source, disk, replies, now);
    if run.Ok? {
      var first, pairs := run.value, SourcePairs(source);
      SyncIsFixpoint(env, opts, source, disk, replies, now, opts', replies', now');
      SyncIsFixpoint(env, opts', source, first.disk, replies', now', opts'', replies'', now'');
      InSourceOrderLaw(pairs, first.state.fallback, first.state.fallback);
      var ld := RunWrites(env, opts, source, disk, replies, now);
      InSourceOrderLaw(pairs, first.state.fallback, InSourceOrder(pairs, first.state.fallback));
    }
  }

  /** In particular for every ordinary English tree: keys that are non-empty and free of
      dots, and no empty subtrees. */
  lemma SyncIsFixpointForTrees(env: Env, opts: Options, source: Source, disk: Disk, replies: nat -> Reply, now: string,
                               opts': Options, replies': nat -> Reply, now': string)
    requires env.Faithful() && Plain(source.tree) && Solid(source.tree)
    requires env.allowTranslate || NoTies(SourceKeys(source), env.collate)
    requires opts.write && !opts.checkOnly
    ensures match SyncLocale(env, opts, source, disk, replies, now)
            case Thrown(_) => true
            case Ok(first) =>
              match SyncLocale(env, opts', source, first.disk, replies', now')
              case Thrown(_) => false
              case Ok(second) =>
                && second.state.next == first.state.next && second.state.tm.at == first.state.tm.at
                && second.state.pending == [] && second.meta == first.meta
                && !second.changed && !second.wrote && second.disk == first.disk
  {
    PlainIsRebuildable(source.tree);
    SourcePairsPlain(source);
    SyncIsFixpoint(env, opts, source, disk, replies, now, opts', replies', now');
  }

  /** One call of `syncLocale`, with what may differ from call to call. */
  datatype Call = Call(opts: Options, replies: nat -> Reply, now: string)

  /** None of the calls, made one after the other, throws, finds anything to translate or
      to write, or computes other values, memory or metadata than `first`. */
  ghost predicate AllQuiet(env: Env, source: Source, first: Report, disk: Disk, calls: seq<Call>)
    decreases |calls|
  {
    calls != [] ==>
      match SyncLocale(env, calls[0].opts, source, disk, calls[0].replies, calls[0].now)
      case Thrown(_) => false
      case Ok(r) =>
        && r.state.next == first.state.next && r.state.tm.at == first.state.tm.at && r.meta == first.meta
        && r.state.pending == [] && !r.changed && !r.wrote && r.disk == disk
        && AllQuiet(env, source, first, r.disk, calls[1..])
  }

  /** Once a run has written, every series of later runs is quiet. */
  lemma {:induction false} LaterRunsAreQuiet(env: Env, opts: Options, source: Source, disk: Disk, replies: nat -> Reply,
                                             now: string, calls: seq<Call>)
    requires env.Faithful() && Rebuildable(MapOf(SourcePairs(source)).Keys)
    requires env.allowTranslate || NoTies(SourceKeys(source), env.collate)
    requires opts.write && !opts.checkOnly
    ensures match SyncLocale(env, opts, source, disk, replies, now)
            case Thrown(_) => true
            case Ok(first) => AllQuiet(env, source, first, first.disk, calls)
    decreases |calls|
  {
    hide SyncLocale;
    if calls != [] {
      var c := calls[0];
      SyncIsFixpoint(env, opts, source, disk, replies, now, c.opts, c.replies, c.now);
      LaterRunsAreQuiet(env, opts, source, disk, replies, now, calls[1..]);
    }
  }

  /** Without repeated keys the map of the source lists the flattened pairs themselves. */
  lemma SourcePairsPlain(source: Source)
    requires DistinctKeys(Flatten(source.tree, ""))
    ensures SourcePairs(source) == Flatten(source.tree, "")
  {
    FromDistinctPairs(Flatten(source.tree, ""));
  }

  lemma {:induction false} FromDistinctPairs(pairs: seq<(string, string)>)
    requires DistinctKeys(pairs)
    ensures |FromPairs(pairs).order| == |pairs|
    ensures forall i | 0 <= i < |pairs| ::
              FromPairs(pairs).order[i] == pairs[i].0 && pairs[i].0 in FromPairs(pairs).at && FromPairs(pairs).at[pairs[i].0] == pairs[i].1
  {
    if pairs != [] {
      var n := |pairs| - 1;
      var init := FromPairs(pairs[..n]);
      FromDistinctPairs(pairs[..n]);
      assert pairs[n].0 !in init.order by {
        assert forall i | 0 <= i < n :: init.order[i] == pairs[i].0;
      }
    }
  }

  /** The condition on the keys is exact: the values that a run wrote are what the next run
      reads exactly when no key starts with a dot and no key continues another one. */
  lemma ReadsBackExactly(env: Env, opts: Options, source: Source, disk: Disk, replies: nat -> Reply, now: string)
    requires env.Faithful() && opts.write && !opts.checkOnly
    ensures match SyncLocale(env, opts, source, disk, replies, now)
            case Thrown(_) => true
            case Ok(first) =>
              && LoadDisk(env, first.disk).Ok?
              && (LoadDisk(env, first.disk).value.existing == first.state.next <==> Rebuildable(MapOf(SourcePairs(source)).Keys))
  {
    var run := SyncLocale(env, opts, source, disk, replies, now);
    if run.Ok? {
      var first, pairs := run.value, SourcePairs(source);
      var ld := RunWrites(env, opts, source, disk, replies, now);
      var kids, tm := LoadWritten(env, source, ld, first.state, first.meta, first.disk);
      AssignmentsLaw(pairs, first.state);
      var a := Assignments(pairs, first.state.next);
      ReportsInMap(Flatten(Rebuild(Nil, a), ""), Flatten(kids, ""));
      if Rebuildable(MapOf(pairs).Keys) {
        ModuleReadsBack(a, kids);
      } else if MapOf(Flatten(kids, "")) == first.state.next {
        KeptKeysRebuild(a);
      }
    }
  }
}
