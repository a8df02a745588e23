/** What a run makes of a source that was edited since the last written run. */
module SyncEdits {
  import opened Text
  import opened Sorting
  import opened Tree
  import opened Rebuilding
  import opened Memory
  import opened Batching
  import opened Translating
  import opened Sync
  import opened SyncProofs
  import opened SyncFixpoint

  /** The memory that the first run leaves has a usable entry of the text, under any key. */
  ghost predicate KnowsText(env: Env, st: State, t: string) {
    HasText(st.tm, env.locale, HashText(env, t))
  }

  /** Nothing that the first run left serves the key: it is new, and its text is unknown. */
  ghost predicate NeedsTranslation(env: Env, st: State, k: string, t: string) {
    k !in st.next && SegmentKey(env, k, t) !in st.tm.at && !KnowsText(env, st, t)
  }

  /** What a key of the edited source gets from what the first run left, the order of the
      choices being that of the loop. */
  ghost predicate ServedBy(env: Env, st: State, k: string, t: string, value: string) {
    if SegmentKey(env, k, t) in st.tm.at then value == st.tm.at[SegmentKey(env, k, t)].translated
    else if KnowsText(env, st, t) && (k in st.fallback || k !in st.next) then
      exists c :: c in st.tm.at && Usable(st.tm.at[c], env.locale) && st.tm.at[c].textHash == HashText(env, t)
                  && st.tm.at[c].translated == value
    else k in st.next && value == st.next[k]
  }

  ghost predicate IsPending(st: State, k: string) {
    exists it :: it in st.pending && it.key == k
  }

  /** What was loaded is what the first run left, which has no fallback keys with a provider. */
  ghost predicate LeftBy(env: Env, ld: Loaded, st: State) {
    && Sound(ld.tm) && ld.tm.at == st.tm.at && ld.existing == st.next
    && (forall k :: WasFallback(ld, k) <==> k in st.fallback)
    && (env.allowTranslate ==> st.fallback == [])
  }

  lemma ChoiceOfEdited(env: Env, ld: Loaded, st: State, k: string, t: string)
    requires LeftBy(env, ld, st)
    ensures Choose(env, ld, k, t) == LeftOver <==> NeedsTranslation(env, st, k, t)
    ensures Choose(env, ld, k, t) != LeftOver ==> ServedBy(env, st, k, t, Choose(env, ld, k, t).value)
  {
    var h := HashText(env, t);
    HashesAreTexts(ld.tm, env.locale, h);
    TextsAgree(ld.tm, st.tm, env.locale, h);
    var byText := TextHashes(ld.tm.Values(), env.locale);
    if h in byText {
      TextHashesLaw(ld.tm.Values(), env.locale);
      ValuesOfSound(ld.tm);
      assert byText[h] in ld.tm.Values();
    }
  }

  lemma TextsAgree(a: JsMap<Entry>, b: JsMap<Entry>, locale: string, h: string)
    requires a.at == b.at
    ensures HasText(a, locale, h) <==> HasText(b, locale, h)
  {
  }

  /** Pending keys are those that the key loop leaves over. */
  lemma PendingIsLeftOver(env: Env, force: bool, pairs: seq<(string, string)>, ld: Loaded, replies: nat -> Reply, now: string,
                          k: string, t: string)
    requires env.Faithful() && Sound(ld.tm) && DistinctKeys(pairs) && (k, t) in pairs
    ensures var r := Compute(env, force, pairs, ld, replies, now);
            r.Ok? ==> (IsPending(r.value, k) <==> Choose(env, ld, k, t) == LeftOver)
  {
    hide Env.Faithful, KeyLoop, Sound;
    assert ld.tm.Valid() by {
      SoundIsValid(ld.tm);
    }
    var st := KeyLoop(env, ld, TextHashes(ld.tm.Values(), env.locale), pairs);
    KeyLoopInv(env, ld, pairs);
    KeyLoopChooses(env, ld, pairs);
    LoopPends(env, ld, pairs, st, k, t);
    PendingStays(env, force, pairs, ld, replies, now);
  }

  lemma SoundIsValid(tm: JsMap<Entry>)
    requires Sound(tm)
    ensures tm.Valid()
  {
  }

  lemma LoopPends(env: Env, ld: Loaded, pairs: seq<(string, string)>, st: State, k: string, t: string)
    requires ld.tm.Valid() && LoopInv(env, ld, pairs, st) && AllChosen(env, ld, pairs, st) && (k, t) in pairs
    ensures IsPending(st, k) <==> Choose(env, ld, k, t) == LeftOver
  {
    assert KeyDone(env, ld, st, k, t) && Chosen(env, ld, st, k, t);
    if Choose(env, ld, k, t) == LeftOver {
      assert Item(k, t, SegmentKey(env, k, t), HashText(env, t)) in st.pending;
    }
  }

  lemma PendingStays(env: Env, force: bool, pairs: seq<(string, string)>, ld: Loaded, replies: nat -> Reply, now: string)
    requires env.Faithful() && Sound(ld.tm) && DistinctKeys(pairs)
    ensures var r := Compute(env, force, pairs, ld, replies, now);
            r.Ok? ==> r.value.pending == KeyLoop(env, ld, TextHashes(ld.tm.Values(), env.locale), pairs).pending
  {
    hide Env.Faithful, KeyLoop;
    var st := KeyLoop(env, ld, TextHashes(ld.tm.Values(), env.locale), pairs);
    if env.allowTranslate {
      ProviderRun(env, force, pairs, ld, replies, now);
    } else {
      FallbackLoopKeeps(ld, force, st, st.pending);
    }
  }

  /** What a written run leaves for the next one. */
  lemma LeftByRun(env: Env, opts: Options, source: Source, disk: Disk, replies: nat -> Reply, now: string) returns (ld: Loaded)
    requires env.Faithful() && Rebuildable(MapOf(SourcePairs(source)).Keys) && opts.write && !opts.checkOnly
    requires SyncLocale(env, opts, source, disk, replies, now).Ok?
    ensures var first := SyncLocale(env, opts, source, disk, replies, now).value;
            && LoadDisk(env, first.disk) == Ok(ld) && LeftBy(env, ld, first.state)
            && first.state.next.Keys == MapOf(SourcePairs(source)).Keys
  {
    hide SyncLocale, LoadDisk, Env.Faithful, Rebuildable, Sound, Settled, Written, SortedFallback, Render;
    var first := SyncLocale(env, opts, source, disk, replies, now).value;
    var before := RunWrites(env, opts, source, disk, replies, now);
    FallbackKeysLaw(env, SourcePairs(source), first.state);
    ld := Reload(env, source, before, first.state, first.meta, first.disk);
  }

  /** One written run, then a run with another source: which of its keys are pending, and what
      the others get. */
  ghost predicate EditedRun(env: Env, first: State, source': Source, second: State) {
    forall p <- SourcePairs(source') ::
      && (IsPending(second, p.0) <==> NeedsTranslation(env, first, p.0, p.1))
      && p.0 in second.next
      && (!NeedsTranslation(env, first, p.0, p.1) ==> ServedBy(env, first, p.0, p.1, second.next[p.0]))
  }

  /** After a written run, a run with any other source has exactly those keys pending that are
      new and whose text is not known. A key that was there before is never pending, however
      its text was edited. */
  lemma EditedSourceExactly(env: Env, source: Source, c: Call, source': Source, c': Call, disk: Disk)
    requires env.Faithful() && Rebuildable(MapOf(SourcePairs(source)).Keys)
    requires c.opts.write && !c.opts.checkOnly
    ensures match SyncLocale(env, c.opts, source, disk, c.replies, c.now)
            case Thrown(_) => true
            case Ok(first) =>
              var again := SyncLocale(env, c'.opts, source', first.disk, c'.replies, c'.now);
              again.Ok? ==> EditedRun(env, first.state, source', again.value.state)
  {
    hide SyncLocale, Env.Faithful, Rebuildable;
    var run := SyncLocale(env, c.opts, source, disk, c.replies, c.now);
    if run.Ok? {
      var first := run.value;
      var ld := LeftByRun(env, c.opts, source, disk, c.replies, c.now);
      SecondIsEdited(env, source', c', first.disk, ld, first.state);
    }
  }

  lemma SecondIsEdited(env: Env, source: Source, c: Call, disk: Disk, ld: Loaded, first: State)
    requires env.Faithful() && LoadDisk(env, disk) == Ok(ld) && LeftBy(env, ld, first)
    ensures var again := SyncLocale(env, c.opts, source, disk, c.replies, c.now);
            again.Ok? ==> EditedRun(env, first, source, again.value.state)
  {
    hide SyncLocale, Env.Faithful, LoadDisk, LeftBy, Compute, Choose, NeedsTranslation, ServedBy, IsPending, SyncProofs.Outcome;
    var pairs := SourcePairs(source);
    var again := SyncLocale(env, c.opts, source, disk, c.replies, c.now);
    if again.Ok? {
      LeftIsSound(env, ld, first);
      StateIsComputed(env, source, c, disk, ld);
      var st := again.value.state;
      ComputeChooses(env, c.opts.force, pairs, ld, c.replies, c.now);
      forall p | p in pairs
        ensures IsPending(st, p.0) <==> NeedsTranslation(env, first, p.0, p.1)
        ensures p.0 in st.next
        ensures !NeedsTranslation(env, first, p.0, p.1) ==> ServedBy(env, first, p.0, p.1, st.next[p.0])
      {
        PendingIsLeftOver(env, c.opts.force, pairs, ld, c.replies, c.now, p.0, p.1);
        ChoiceOfEdited(env, ld, first, p.0, p.1);
        OutcomeValue(env, ld, st, p.0, p.1);
      }
    }
  }

  lemma StateIsComputed(env: Env, source: Source, c: Call, disk: Disk, ld: Loaded)
    requires LoadDisk(env, disk) == Ok(ld) && ld.tm.Valid()
    ensures var again := SyncLocale(env, c.opts, source, disk, c.replies, c.now);
            again.Ok? ==> Compute(env, c.opts.force, SourcePairs(source), ld, c.replies, c.now) == Ok(again.value.state)
  {
    hide Compute, LoadDisk, NextMeta;
  }

  lemma LeftIsSound(env: Env, ld: Loaded, st: State)
    requires LeftBy(env, ld, st)
    ensures Sound(ld.tm) && ld.tm.Valid()
  {
  }

  lemma OutcomeValue(env: Env, ld: Loaded, st: State, k: string, t: string)
    requires ld.tm.Valid() && SyncProofs.Outcome(env, ld, st, k, t)
    ensures k in st.next && (Choose(env, ld, k, t) != LeftOver ==> st.next[k] == Choose(env, ld, k, t).value)
  {
    hide Choose;
  }

  /** An edited text does not by itself reach the translator: unless the new text is already
      known, a key keeps the translation of its old text and is not pending. */
  lemma EditedTextStays(env: Env, source: Source, c: Call, source': Source, c': Call, disk: Disk, k: string, t: string)
    requires env.Faithful() && Rebuildable(MapOf(SourcePairs(source)).Keys)
    requires c.opts.write && !c.opts.checkOnly
    requires k in MapOf(SourcePairs(source)) && (k, t) in SourcePairs(source')
    ensures match SyncLocale(env, c.opts, source, disk, c.replies, c.now)
            case Thrown(_) => true
            case Ok(first) =>
              var again := SyncLocale(env, c'.opts, source', first.disk, c'.replies, c'.now);
              && again.Ok? && SegmentKey(env, k, t) !in first.state.tm.at
              && !(k in first.state.fallback && KnowsText(env, first.state, t)) ==>
                && k in first.state.next && k in again.value.state.next
                && again.value.state.next[k] == first.state.next[k] && !IsPending(again.value.state, k)
  {
    hide SyncLocale, Env.Faithful, Rebuildable;
    EditedSourceExactly(env, source, c, source', c', disk);
    var run := SyncLocale(env, c.opts, source, disk, c.replies, c.now);
    if run.Ok? {
      var _ := LeftByRun(env, c.opts, source, disk, c.replies, c.now);
    }
  }
}
