/** What one run of `syncLocale` reports and writes, for every combination of flags. */
module SyncReports {
  import opened Text
  import opened Sorting
  import opened Tree
  import opened Rebuilding
  import opened Memory
  import opened Batching
  import opened Translating
  import opened Sync
  import opened SyncProofs
  import opened SyncFixpoint

  // ---------- files ----------

  /** The texts that the four files should have, a missing file counting as empty. */
  ghost predicate UpToDate(env: Env, source: Source, ld: Loaded, st: State, meta: Meta, disk: Disk)
    requires st.tm.Valid()
  {
    && FileText(disk.locale) == env.modules.render(Rebuild(Nil, Assignments(SourcePairs(source), st.next)))
    && FileText(disk.meta) == env.metas.render(meta)
    && FileText(disk.glossary) == env.glossaries.render(if ld.glossary == [] then env.defaultGlossary else ld.glossary)
    && FileText(disk.tm) == Render(env.entries, st.tm, env.collate)
  }

  /** All four files exist, but for a memory file that would be empty and was not there. */
  predicate Present(before: Disk, after: Disk) {
    && after.locale.Some? && after.meta.Some? && after.glossary.Some?
    && (after.tm.None? <==> before.tm.None? && FileText(after.tm) == "")
  }

  /** Whatever the flags and files: a run reports a change exactly when a file is out of
      date, and writes exactly when there is a change, `--write` is given and `--check` is
      not; otherwise every file stays as it was. */
  lemma RunReports(env: Env, opts: Options, source: Source, disk: Disk, replies: nat -> Reply, now: string)
    ensures match SyncLocale(env, opts, source, disk, replies, now)
            case Thrown(_) => true
            case Ok(r) =>
              && LoadDisk(env, disk).Ok? && r.state.tm.Valid()
              && (r.changed <==> !UpToDate(env, source, LoadDisk(env, disk).value, r.state, r.meta, disk))
              && (r.wrote <==> r.changed && opts.write && !opts.checkOnly)
              && (if r.wrote
                  then UpToDate(env, source, LoadDisk(env, disk).value, r.state, r.meta, r.disk) && Present(disk, r.disk)
                  else r.disk == disk)
  {
    hide Compute, LoadDisk, Render, Rebuild, NextMeta, SourcePairs, Assignments;
    var run := SyncLocale(env, opts, source, disk, replies, now);
    if run.Ok? {
      var ld, pairs := LoadDisk(env, disk).value, SourcePairs(source);
      LoadedValid(env, disk);
      ComputeValid(env, opts.force, pairs, ld, replies, now);
      var st := Compute(env, opts.force, pairs, ld, replies, now).value;
      FinishReports(env, opts, source, disk, ld, st, now);
    }
  }

  lemma LoadedValid(env: Env, disk: Disk)
    ensures LoadDisk(env, disk).Ok? ==> Sound(LoadDisk(env, disk).value.tm)
  {
    LoadSound(env.entries, Split(FileText(disk.tm), '\n'));
  }

  lemma FinishReports(env: Env, opts: Options, source: Source, disk: Disk, ld: Loaded, st: State, now: string)
    requires st.tm.Valid()
    ensures var r := Finish(env, opts, source, SourcePairs(source), disk, ld, st, now);
            && r.state == st && r.meta == NextMeta(env, source, |SourcePairs(source)|, ld.meta, st, now)
            && (r.changed <==> !UpToDate(env, source, ld, st, r.meta, disk))
            && (r.wrote <==> r.changed && opts.write && !opts.checkOnly)
            && (if r.wrote then UpToDate(env, source, ld, st, r.meta, r.disk) && Present(disk, r.disk) else r.disk == disk)
            && r.fallbackCount == |r.meta.fallbackKeys|
  {
    hide Render, Rebuild, NextMeta, SourcePairs, Assignments;
  }

  /** A file that cannot be read makes the run throw, and nothing else does before the
      translator is asked. */
  lemma LoadThrowsExactly(env: Env, disk: Disk)
    ensures LoadDisk(env, disk).Thrown? <==>
              || (disk.locale.Some? && env.modules.parse(disk.locale.value).None?)
              || (disk.meta.Some? && env.metas.parse(disk.meta.value).None?)
              || (disk.glossary.Some? && env.glossaries.parse(disk.glossary.value).None?)
              || Load(env.entries, FileText(disk.tm)).Thrown?
  {
  }

  // ---------- flags ----------

  /** `--force` never matters: no key reaches the fallback loop that has a text in the file. */
  lemma ForceIsInert(env: Env, pairs: seq<(string, string)>, ld: Loaded, replies: nat -> Reply, now: string)
    requires env.Faithful() && Sound(ld.tm) && DistinctKeys(pairs)
    ensures Compute(env, true, pairs, ld, replies, now) == Compute(env, false, pairs, ld, replies, now)
  {
    var st := KeyLoop(env, ld, TextHashes(ld.tm.Values(), env.locale), pairs);
    if env.allowTranslate {
      ProviderLeavesNothing(env, pairs, ld, replies, now);
    } else {
      KeyLoopInv(env, ld, pairs);
      PendingIsUnknown(env, ld, pairs, st);
      ForceIsInertLoop(ld, st, st.pending);
    }
  }

  lemma PendingIsUnknown(env: Env, ld: Loaded, pairs: seq<(string, string)>, st: State)
    requires !env.allowTranslate && LoopInv(env, ld, pairs, st)
    ensures forall it <- st.pending :: it.key !in ld.existing
  {
    hide Sound, NewKeysAgree, HasText, SegmentKey;
    forall it | it in st.pending
      ensures it.key !in ld.existing
    {
      assert KeyDone(env, ld, st, it.key, it.text);
    }
  }

  lemma {:induction false} ForceIsInertLoop(ld: Loaded, st: State, items: seq<Item>)
    requires forall it <- items :: it.key !in ld.existing
    ensures FallbackLoop(ld, true, st, items) == FallbackLoop(ld, false, st, items)
  {
    if items != [] {
      ForceIsInertLoop(ld, st, items[..|items| - 1]);
      assert items[|items| - 1] in items;
    }
  }

  lemma ProviderLeavesNothing(env: Env, pairs: seq<(string, string)>, ld: Loaded, replies: nat -> Reply, now: string)
    requires env.Faithful() && Sound(ld.tm) && DistinctKeys(pairs) && env.allowTranslate
    ensures Compute(env, true, pairs, ld, replies, now) == Compute(env, false, pairs, ld, replies, now)
  {
    hide KeyLoop, TextHashes, Env.Faithful, FallbackLoop, TranslateAll, Batches;
    var st := KeyLoop(env, ld, TextHashes(ld.tm.Values(), env.locale), pairs);
    KeyLoopInv(env, ld, pairs);
    if st.pending == [] {
      FallbackLoopDone(ld, true, st, []);
      FallbackLoopDone(ld, false, st, []);
    } else {
      var r := TranslateAll(env, now, replies, Batches(st.pending, env.budget), st, Start);
      TranslatesPending(env, pairs, ld, replies, now);
      if r.Ok? {
        FallbackLoopDone(ld, true, r.value, r.value.pending);
        FallbackLoopDone(ld, false, r.value, r.value.pending);
      }
    }
  }

  lemma TranslatesPending(env: Env, pairs: seq<(string, string)>, ld: Loaded, replies: nat -> Reply, now: string)
    requires env.Faithful() && Sound(ld.tm) && DistinctKeys(pairs)
    ensures var st := KeyLoop(env, ld, TextHashes(ld.tm.Values(), env.locale), pairs);
            var r := TranslateAll(env, now, replies, Batches(st.pending, env.budget), st, Start);
            r.Ok? ==> StoresOnly(st, r.value, st.pending) && forall it <- r.value.pending :: it.key in r.value.next
  {
    hide KeyLoop, KeyDone, TextHashes, Env.Faithful, TranslateAll, Batches;
    var st := KeyLoop(env, ld, TextHashes(ld.tm.Values(), env.locale), pairs);
    KeyLoopInv(env, ld, pairs);
    FillPartitions(st.pending, [], env.budget);
    BatchesAreFilled(st.pending, env.budget);
    PendingKeyed(env, pairs, st);
    TranslateAllLaw(env, now, replies, Batches(st.pending, env.budget), st, Start);
  }

  lemma BatchesAreFilled(items: seq<Item>, budget: real)
    ensures Flat(Batches(items, budget)) == items
  {
    FillPartitions(items, [], budget);
  }

  /** The flags decide only whether the files are written: any two runs on the same files
      compute and report the same, and the dry run foretells what the other one writes. */
  lemma FlagsOnlyWrite(env: Env, opts: Options, opts': Options, source: Source, disk: Disk, replies: nat -> Reply, now: string)
    requires env.Faithful()
    ensures var r, r' := SyncLocale(env, opts, source, disk, replies, now), SyncLocale(env, opts', source, disk, replies, now);
            if r.Ok? then r'.Ok? && r'.value.(wrote := r.value.wrote, disk := r.value.disk) == r.value else r' == r
  {
    hide Compute, LoadDisk, Render, Rebuild, NextMeta, SourcePairs, Assignments, Env.Faithful;
    if LoadDisk(env, disk).Ok? {
      var ld, pairs := LoadDisk(env, disk).value, SourcePairs(source);
      LoadedValid(env, disk);
      ForceIsInert(env, pairs, ld, replies, now);
      ComputeValid(env, opts.force, pairs, ld, replies, now);
      var computed := Compute(env, opts.force, pairs, ld, replies, now);
      if computed.Ok? {
        FinishReports(env, opts, source, disk, ld, computed.value, now);
        FinishReports(env, opts', source, disk, ld, computed.value, now);
      }
    }
  }

  // ---------- metadata ----------

  /** The source keys that have a text of their own. */
  function TranslatedKeys(source: Source, st: State): set<string> {
    set p <- SourcePairs(source) | p.0 !in st.fallback :: p.0
  }

  /** The metadata of a run that returns: the fallback keys are those of the run, each once
      and in order, the translated keys are counted, and the date changes exactly when
      something else does. */
  lemma MetaLaw(env: Env, opts: Options, source: Source, disk: Disk, replies: nat -> Reply, now: string)
    requires env.Faithful()
    ensures match SyncLocale(env, opts, source, disk, replies, now)
            case Thrown(_) => true
            case Ok(r) =>
              && var previous := LoadDisk(env, disk).value.meta;
              && Distinct(r.meta.fallbackKeys) && SortedBy(r.meta.fallbackKeys, env.collate)
              && (forall k :: k in r.meta.fallbackKeys <==> k in r.state.fallback)
              && r.fallbackCount == |r.meta.fallbackKeys|
              && r.meta.totalKeys == |SourcePairs(source)|
              && r.meta.translatedKeys == |TranslatedKeys(source, r.state)|
              && r.meta.locale == env.locale && r.meta.workflow == 1 && r.meta.sourceHash == env.sha(source.raw)
              && (env.allowTranslate ==> r.meta.provider == env.provider && r.meta.model == env.model)
              && (!env.allowTranslate && previous.Some? ==>
                    r.meta.provider == previous.value.provider && r.meta.model == previous.value.model)
              && (!env.allowTranslate && previous.None? ==> r.meta.provider == "" && r.meta.model == "")
              && (if previous.Some? && previous.value.(generatedAt := "") == r.meta.(generatedAt := "")
                  then r.meta == previous.value
                  else r.meta.generatedAt == now)
  {
    hide Compute, LoadDisk, Render, Rebuild, SourcePairs, Assignments, Env.Faithful, NextMeta;
    if LoadDisk(env, disk).Ok? {
      var ld, pairs := LoadDisk(env, disk).value, SourcePairs(source);
      LoadedValid(env, disk);
      ComputeValid(env, opts.force, pairs, ld, replies, now);
      ComputeSettles(env, opts.force, pairs, ld, replies, now);
      var computed := Compute(env, opts.force, pairs, ld, replies, now);
      if computed.Ok? {
        var st := computed.value;
        FinishReports(env, opts, source, disk, ld, st, now);
        NextMetaLaw(env, source, |pairs|, ld.meta, st, now);
        FallbackListLaw(env, st);
        CountsTranslated(env, source, st);
      }
    }
  }

  lemma FallbackListLaw(env: Env, st: State)
    requires env.Faithful()
    ensures var keys := SortedFallback(env, st);
            Distinct(keys) && SortedBy(keys, env.collate) && forall k :: k in keys <==> k in st.fallback
  {
    DedupLaw(st.fallback);
    var keys := Dedup(st.fallback);
    SortPermutes(keys, env.collate);
    SortSorted(keys, env.collate);
    PermutedDistinct(keys, Sort(keys, env.collate));
  }

  function Elements(xs: seq<string>): set<string> {
    set x | x in xs
  }

  lemma {:induction false} SizeOfDistinct(xs: seq<string>)
    requires Distinct(xs)
    ensures |Elements(xs)| == |xs|
  {
    if xs != [] {
      var n := |xs| - 1;
      SizeOfDistinct(xs[..n]);
      assert Elements(xs) == Elements(xs[..n]) + {xs[n]};
    }
  }

  lemma CountsTranslated(env: Env, source: Source, st: State)
    requires Distinct(SortedFallback(env, st)) && AllSettled(env, SourcePairs(source), st)
    requires forall k :: k in SortedFallback(env, st) <==> k in st.fallback
    ensures |TranslatedKeys(source, st)| == |SourcePairs(source)| - |SortedFallback(env, st)|
  {
    hide SortedFallback, Settled, Sound, SourcePairs;
    var pairs, keys, list := SourcePairs(source), SourceKeys(source), SortedFallback(env, st);
    SourceKeysLaw(source);
    SizeOfDistinct(keys);
    SizeOfDistinct(list);
    var all, fallback := Elements(keys), Elements(list);
    SourceKeysIn(source);
    assert fallback <= all;
    assert TranslatedKeys(source, st) == all - fallback;
  }

  lemma SourceKeysIn(source: Source)
    ensures Distinct(SourceKeys(source)) && |SourceKeys(source)| == |SourcePairs(source)|
    ensures forall k :: k in SourceKeys(source) <==> exists p :: p in SourcePairs(source) && p.0 == k
  {
    hide SourcePairs;
    var pairs, keys := SourcePairs(source), SourceKeys(source);
    forall p | p in pairs
      ensures p.0 in keys
    {
      var i :| 0 <= i < |pairs| && pairs[i] == p;
      assert keys[i] == p.0;
    }
  }

  lemma NextMetaLaw(env: Env, source: Source, total: nat, previous: Option<Meta>, st: State, now: string)
    ensures var m := NextMeta(env, source, total, previous, st, now);
            && m.fallbackKeys == SortedFallback(env, st)
            && m.totalKeys == total && m.translatedKeys == total - |SortedFallback(env, st)|
            && m.locale == env.locale && m.workflow == 1 && m.sourceHash == env.sha(source.raw)
            && m.provider == (if env.allowTranslate then env.provider else if previous.Some? then previous.value.provider else "")
            && m.model == (if env.allowTranslate then env.model else if previous.Some? then previous.value.model else "")
            && (if previous.Some? && previous.value.(generatedAt := "") == m.(generatedAt := "")
                then m == previous.value
                else m.generatedAt == now)
  {
    hide SortedFallback;
  }
}
