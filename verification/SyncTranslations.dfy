/** Which texts a run of `syncLocale` stores: the pending keys are exactly the keys left
    over, each gets the translator's own text for it, and every memory entry is determined. */
module SyncTranslations {
  import opened Text
  import opened Sorting
  import opened Tree
  import opened Rebuilding
  import opened Memory
  import opened Batching
  import opened Translating
  import opened Sync
  import opened SyncProofs
  import opened SyncReports

  // ---------- the keys that are left over ----------

  function LeftOvers(env: Env, ld: Loaded, pairs: seq<(string, string)>): seq<Item>
    requires ld.tm.Valid()
  {
    if pairs == [] then []
    else
      var (k, t) := pairs[|pairs| - 1];
      var init := LeftOvers(env, ld, pairs[..|pairs| - 1]);
      if Choose(env, ld, k, t).LeftOver?
      then init + [Item(k, t, SegmentKey(env, k, t), HashText(env, t))]
      else init
  }

  lemma LeftOversLast(env: Env, ld: Loaded, init: seq<(string, string)>, k: string, t: string)
    requires ld.tm.Valid()
    ensures LeftOvers(env, ld, init + [(k, t)]) ==
            if Choose(env, ld, k, t).LeftOver?
            then LeftOvers(env, ld, init) + [Item(k, t, SegmentKey(env, k, t), HashText(env, t))]
            else LeftOvers(env, ld, init)
  {
    hide Choose, SegmentKey;
    assert (init + [(k, t)])[..|init|] == init;
  }

  /** The step for a key that still finds the loaded memory entry. */
  lemma StepPends(env: Env, ld: Loaded, st: State, k: string, t: string)
    requires Sound(ld.tm) && Agree(st.tm.at, ld.tm.at, SegmentKey(env, k, t))
    ensures KeyStep(env, ld, TextHashes(ld.tm.Values(), env.locale), st, k, t).pending ==
            if Choose(env, ld, k, t).LeftOver?
            then st.pending + [Item(k, t, SegmentKey(env, k, t), HashText(env, t))]
            else st.pending
  {
    hide TextHashes, CacheKey, HashText;
  }

  /** The keys that the loop leaves pending are those left over by the files as loaded, in
      source order. */
  lemma {:induction false} PendingExactly(env: Env, ld: Loaded, pairs: seq<(string, string)>)
    requires env.Faithful() && Sound(ld.tm) && DistinctKeys(pairs)
    ensures KeyLoop(env, ld, TextHashes(ld.tm.Values(), env.locale), pairs).pending == LeftOvers(env, ld, pairs)
  {
    assert ld.tm.Valid();
    hide Env.Faithful, KeyLoop, KeyStep, Sound, TextHashes, MapOf, LeftOvers, Choose, KeyDone;
    if pairs == [] {
      NothingPends(env, ld);
    } else {
      var init := pairs[..|pairs| - 1];
      var (k, t) := pairs[|pairs| - 1];
      assert pairs == init + [(k, t)];
      LastKeyNew(pairs);
      PendingExactly(env, ld, init);
      KeyLoopInv(env, ld, init);
      StepPends(env, ld, KeyLoop(env, ld, TextHashes(ld.tm.Values(), env.locale), init), k, t);
      KeyLoopLast(env, ld, TextHashes(ld.tm.Values(), env.locale), init, k, t);
      LeftOversLast(env, ld, init, k, t);
    }
  }

  lemma NothingPends(env: Env, ld: Loaded)
    requires ld.tm.Valid()
    ensures KeyLoop(env, ld, TextHashes(ld.tm.Values(), env.locale), []).pending == [] == LeftOvers(env, ld, [])
  {
  }

  // ---------- storing what the translator gave ----------

  /** Items with the same key are the same item. */
  ghost predicate OnePerKey(items: seq<Item>) {
    forall a <- items, b <- items | a.key == b.key :: a == b
  }

  /** The key has this value, and its memory entry records the translation. */
  ghost predicate StoredAs(env: Env, now: string, st: State, it: Item, value: string) {
    && it.key in st.next && st.next[it.key] == value
    && it.cacheKey in st.tm.at
    && st.tm.at[it.cacheKey] == Entry(
         cacheKey := it.cacheKey, model := env.model, provider := env.provider, segmentId := it.key,
         sourcePath := "ui/src/i18n/locales/" + env.fileName, srcLang := "en", text := it.text, textHash := it.textHash,
         tgtLang := env.locale, translated := value, updatedAt := now)
  }

  lemma StoreLast(env: Env, now: string, init: seq<Item>, item: Item, translated: map<string, string>, st: State)
    requires item.key in translated && translated[item.key] != ""
    ensures var mid := StoreBatch(env, now, init, translated, st);
            StoreBatch(env, now, init + [item], translated, st) == mid.(
              next := mid.next[item.key := translated[item.key]],
              tm := mid.tm.Set(item.cacheKey, NewEntry(env, item, translated[item.key], now)))
  {
    assert (init + [item])[..|init|] == init;
  }

  lemma {:induction false} StoreBatchStores(env: Env, now: string, batch: seq<Item>, translated: map<string, string>, st: State)
    requires Keyed(batch) && OnePerKey(batch)
    requires forall it <- batch :: it.key in translated && translated[it.key] != ""
    ensures forall it <- batch :: StoredAs(env, now, StoreBatch(env, now, batch, translated, st), it, translated[it.key])
  {
    if batch != [] {
      var n := |batch| - 1;
      var init, item := batch[..n], batch[n];
      assert batch == init + [item] && item in batch;
      assert forall it <- init :: it in batch;
      StoreBatchStores(env, now, init, translated, st);
      StoreLast(env, now, init, item, translated, st);
    }
  }

  /** The world after the batches, the translator being asked as long as none throws. */
  function WorldAfter(replies: nat -> Reply, batches: seq<seq<Item>>, w: World): World
    decreases |batches|
  {
    if batches == [] then w
    else
      var (r, w') := TranslateBatch(replies, batches[0], 0, w);
      if r.Thrown? then w' else WorldAfter(replies, batches[1..], w')
  }

  /** The item has a text that the translator gave for its key, in value and memory. */
  ghost predicate GivenTo(env: Env, now: string, replies: nat -> Reply, log: seq<Attempt>, from: nat, st: State, it: Item) {
    && it.key in st.next
    && StoredAs(env, now, st, it, st.next[it.key])
    && Gives(replies, log, from, |log|, it.key, st.next[it.key])
  }

  lemma BatchGives(env: Env, now: string, replies: nat -> Reply, batch: seq<Item>, st: State, w: World)
    requires Keyed(batch) && OnePerKey(batch)
    ensures var (r, w') := TranslateBatch(replies, batch, 0, w);
            && w.log <= w'.log
            && (r.Ok? ==>
                  && (forall it <- batch :: it.key in r.value && !Blank(r.value[it.key]))
                  && Served(w'.log) == Served(w.log) + batch
                  && forall it <- batch ::
                       GivenTo(env, now, replies, w'.log, |w.log|, StoreBatch(env, now, batch, r.value, st), it))
  {
    hide Run, Served, Blank, Gives, StoreBatch;
    var (r, w') := TranslateBatch(replies, batch, 0, w);
    AttemptsBounded(replies, batch, 0, 0, "translation failed", w);
    if r.Ok? {
      ReturnsAllKeys(replies, batch, 0, 0, "translation failed", w);
      ReturnsOwnTexts(replies, batch, 0, 0, "translation failed", w);
      ServedInOrder(replies, batch, 0, 0, "translation failed", w);
      BlankIsEmpty();
      StoreBatchStores(env, now, batch, r.value, st);
    }
  }

  lemma BlankIsEmpty()
    ensures Blank("")
  {
  }

  /** What a batch was given is kept by the batches after it. */
  lemma GivenStays(env: Env, now: string, replies: nat -> Reply, w: World, w': World, log: seq<Attempt>, st: State, st': State,
                   it: Item, rest: seq<Item>)
    requires GivenTo(env, now, replies, w'.log, |w.log|, st, it) && w'.log <= log
    requires StoresOnly(st, st', rest) && NoKey(rest, it.key) && NoCacheKey(rest, it.cacheKey)
    ensures GivenTo(env, now, replies, log, |w.log|, st', it)
  {
    hide Gives, Stored, Sound;
    GivesWider(replies, w'.log, log, |w.log|, |w'.log|, |w.log|, |log|);
    assert Agree(st'.tm.at, st.tm.at, it.cacheKey);
  }

  lemma GivenEarlier(env: Env, now: string, replies: nat -> Reply, w: World, w': World, log: seq<Attempt>, st: State, it: Item)
    requires GivenTo(env, now, replies, log, |w'.log|, st, it) && w.log <= w'.log
    ensures GivenTo(env, now, replies, log, |w.log|, st, it)
  {
    hide Gives;
    GivesWider(replies, log, log, |w'.log|, |log|, |w.log|, |log|);
  }

  /** No item twice, not even in different batches. */
  ghost predicate NoneTwice(items: seq<Item>) {
    forall i, j | 0 <= i < j < |items| :: items[i].key != items[j].key
  }

  /** When all batches are translated, each item has its own text, in value and memory, and
      the translator was asked successfully for each item once, in order. */
  lemma {:induction false} TranslateAllGives(env: Env, now: string, replies: nat -> Reply, batches: seq<seq<Item>>, st: State, w: World)
    requires Sound(st.tm) && Keyed(Flat(batches)) && NoneTwice(Flat(batches))
    ensures var r := TranslateAll(env, now, replies, batches, st, w);
            var w' := WorldAfter(replies, batches, w);
            && w.log <= w'.log
            && (r.Ok? ==>
                  && Served(w'.log) == Served(w.log) + Flat(batches)
                  && forall it <- Flat(batches) :: GivenTo(env, now, replies, w'.log, |w.log|, r.value, it))
    decreases |batches|
  {
    hide TranslateBatch, StoreBatch, Served, Sound, Stored, StoresOnly, GivenTo, Blank;
    if batches != [] {
      var batch, rest := batches[0], Flat(batches[1..]);
      var (r, w') := TranslateBatch(replies, batch, 0, w);
      Parts(batch, rest);
      BatchGives(env, now, replies, batch, st, w);
      if r.Ok? {
        StoreBatchLaw(env, now, batch, r.value, st);
        StoresSound(st, StoreBatch(env, now, batch, r.value, st), batch);
        var mid := StoreBatch(env, now, batch, r.value, st);
        TranslateAllGives(env, now, replies, batches[1..], mid, w');
        TranslateAllLaw(env, now, replies, batches[1..], mid, w');
        var done, end := TranslateAll(env, now, replies, batches[1..], mid, w'), WorldAfter(replies, batches[1..], w');
        if done.Ok? {
          GivenToAll(env, now, replies, batch, rest, w, w', end, mid, done.value);
          assert Served(w.log) + batch + rest == Served(w.log) + (batch + rest);
        }
      }
    }
  }

  lemma StoresSound(st: State, st': State, items: seq<Item>)
    requires StoresOnly(st, st', items)
    ensures Sound(st'.tm)
  {
  }

  lemma Parts(a: seq<Item>, b: seq<Item>)
    requires Keyed(a + b) && NoneTwice(a + b)
    ensures Keyed(a) && Keyed(b) && NoneTwice(b) && OnePerKey(a)
    ensures forall it <- a :: NoKey(b, it.key) && NoCacheKey(b, it.cacheKey)
  {
    assert forall it <- a :: it in a + b;
    assert forall it <- b :: it in a + b;
    assert forall i | 0 <= i < |b| :: b[i] == (a + b)[|a| + i];
    assert forall i | 0 <= i < |a| :: a[i] == (a + b)[i];
  }

  lemma GivenToAll(env: Env, now: string, replies: nat -> Reply, batch: seq<Item>, rest: seq<Item>, w: World, w': World, end: World,
                   mid: State, st': State)
    requires w.log <= w'.log <= end.log && StoresOnly(mid, st', rest)
    requires forall it <- batch :: NoKey(rest, it.key) && NoCacheKey(rest, it.cacheKey)
    requires forall it <- batch :: GivenTo(env, now, replies, w'.log, |w.log|, mid, it)
    requires forall it <- rest :: GivenTo(env, now, replies, end.log, |w'.log|, st', it)
    ensures forall it <- batch + rest :: GivenTo(env, now, replies, end.log, |w.log|, st', it)
  {
    hide GivenTo, StoresOnly, NoKey, NoCacheKey;
    forall it | it in batch + rest
      ensures GivenTo(env, now, replies, end.log, |w.log|, st', it)
    {
      if it in batch {
        GivenStays(env, now, replies, w, w', end.log, mid, st', it, rest);
      } else {
        GivenEarlier(env, now, replies, w, w', end.log, st', it);
      }
    }
  }

  // ---------- the memory after the key loop ----------

  /** The loaded entry is reused for this segment: only what names the segment changes. */
  ghost predicate CopiedFrom(env: Env, ld: Loaded, st: State, k: string, t: string, e: Entry)
    requires ld.tm.Valid()
  {
    var c := SegmentKey(env, k, t);
    && e in ld.tm.Values() && Usable(e, env.locale) && e.textHash == HashText(env, t)
    && c in st.tm.at
    && st.tm.at[c] == e.(cacheKey := c, segmentId := k, sourcePath := "ui/src/i18n/locales/" + env.fileName)
  }

  /** What the memory holds at the segment of a key: a copy of an entry with the same text if
      that was chosen, and otherwise what was loaded. */
  ghost predicate Remembered(env: Env, ld: Loaded, st: State, k: string, t: string)
    requires ld.tm.Valid()
  {
    match Choose(env, ld, k, t)
    case FromSameText(v) => exists e :: CopiedFrom(env, ld, st, k, t, e) && e.translated == v
    case _ => Agree(st.tm.at, ld.tm.at, SegmentKey(env, k, t))
  }

  ghost predicate AllRemembered(env: Env, ld: Loaded, pairs: seq<(string, string)>, st: State)
    requires ld.tm.Valid()
  {
    forall p <- pairs :: Remembered(env, ld, st, p.0, p.1)
  }

  /** An indexed entry is one of the loaded ones. */
  lemma IndexedIsLoaded(ld: Loaded, locale: string, h: string)
    requires Sound(ld.tm) && h in TextHashes(ld.tm.Values(), locale)
    ensures var e := TextHashes(ld.tm.Values(), locale)[h];
            e in ld.tm.Values() && Usable(e, locale) && e.textHash == h
  {
    TextHashesLaw(ld.tm.Values(), locale);
  }

  lemma StepRemembers(env: Env, ld: Loaded, st: State, k: string, t: string)
    requires Sound(ld.tm) && Agree(st.tm.at, ld.tm.at, SegmentKey(env, k, t))
    ensures Remembered(env, ld, KeyStep(env, ld, TextHashes(ld.tm.Values(), env.locale), st, k, t), k, t)
  {
    hide TextHashes, CacheKey, HashText, Usable;
    var h := HashText(env, t);
    var byText := TextHashes(ld.tm.Values(), env.locale);
    var st' := KeyStep(env, ld, byText, st, k, t);
    if Choose(env, ld, k, t).FromSameText? {
      IndexedIsLoaded(ld, env.locale, h);
      assert CopiedFrom(env, ld, st', k, t, byText[h]);
    }
  }

  /** A change at other segments leaves what is remembered. */
  lemma RememberedStays(env: Env, ld: Loaded, st: State, st': State, k: string, t: string)
    requires ld.tm.Valid() && Remembered(env, ld, st, k, t)
    requires Agree(st'.tm.at, st.tm.at, SegmentKey(env, k, t))
    ensures Remembered(env, ld, st', k, t)
  {
    hide Choose, SegmentKey, Usable;
    if Choose(env, ld, k, t).FromSameText? {
      var e :| CopiedFrom(env, ld, st, k, t, e) && e.translated == Choose(env, ld, k, t).value;
      assert CopiedFrom(env, ld, st', k, t, e);
    }
  }

  lemma RemembersStep(env: Env, ld: Loaded, init: seq<(string, string)>, st: State, k: string, t: string)
    requires env.Faithful() && Sound(ld.tm) && LoopInv(env, ld, init, st) && k !in MapOf(init)
    requires AllRemembered(env, ld, init, st)
    ensures AllRemembered(env, ld, init + [(k, t)], KeyStep(env, ld, TextHashes(ld.tm.Values(), env.locale), st, k, t))
  {
    assert ld.tm.Valid();
    hide Env.Faithful, KeyStep, Sound, TextHashes, Remembered, SegmentKey, HasText;
    var st' := KeyStep(env, ld, TextHashes(ld.tm.Values(), env.locale), st, k, t);
    KeyStepFrame(env, ld, st, k, t);
    OtherKeysAgree(env, st, st', k, t);
    StepRemembers(env, ld, st, k, t);
    forall p | p in init
      ensures Remembered(env, ld, st', p.0, p.1)
    {
      assert p.0 in MapOf(init);
      RememberedStays(env, ld, st, st', p.0, p.1);
    }
  }

  lemma {:induction false} KeyLoopRemembers(env: Env, ld: Loaded, pairs: seq<(string, string)>)
    requires env.Faithful() && Sound(ld.tm) && DistinctKeys(pairs)
    ensures AllRemembered(env, ld, pairs, KeyLoop(env, ld, TextHashes(ld.tm.Values(), env.locale), pairs))
  {
    assert ld.tm.Valid();
    hide Env.Faithful, KeyLoop, KeyStep, Sound, TextHashes, MapOf, Remembered, LoopInv;
    if pairs != [] {
      var init := pairs[..|pairs| - 1];
      var (k, t) := pairs[|pairs| - 1];
      assert pairs == init + [(k, t)];
      LastKeyNew(pairs);
      KeyLoopInv(env, ld, init);
      KeyLoopRemembers(env, ld, init);
      RemembersStep(env, ld, init, KeyLoop(env, ld, TextHashes(ld.tm.Values(), env.locale), init), k, t);
      KeyLoopLast(env, ld, TextHashes(ld.tm.Values(), env.locale), init, k, t);
    }
  }

  // ---------- the whole run ----------

  /** The attempts of a run that asks the translator for the keys left over. */
  function Attempts(env: Env, ld: Loaded, pairs: seq<(string, string)>, replies: nat -> Reply): seq<Attempt>
    requires ld.tm.Valid()
  {
    WorldAfter(replies, Batches(LeftOvers(env, ld, pairs), env.budget), Start).log
  }

  /** Value, fallback mark and memory entry of a key after a run, for each choice. */
  ghost predicate Ending(env: Env, now: string, ld: Loaded, replies: nat -> Reply, log: seq<Attempt>, st: State, k: string, t: string)
    requires ld.tm.Valid()
  {
    && SyncProofs.Outcome(env, ld, st, k, t)
    && if Choose(env, ld, k, t).LeftOver? && env.allowTranslate
       then GivenTo(env, now, replies, log, 0, st, Item(k, t, SegmentKey(env, k, t), HashText(env, t)))
       else Remembered(env, ld, st, k, t)
  }

  /** Keys that are not pending keep their memory entries while the pending ones are
      translated. */
  lemma NotPendingAgrees(env: Env, ld: Loaded, pairs: seq<(string, string)>, st: State, st': State, k: string, t: string)
    requires env.Faithful() && PendingFrom(env, pairs, st) && Translated(st, st')
    requires NoKey(st.pending, k)
    ensures Agree(st'.tm.at, st.tm.at, SegmentKey(env, k, t))
  {
    hide Env.Faithful, SegmentKey, Stored, Sound;
    forall it | it in st.pending
      ensures it.cacheKey != SegmentKey(env, k, t)
    {
      if it.cacheKey == SegmentKey(env, k, t) {
        SegmentKeyInjective(env, it.key, it.text, k, t);
      }
    }
    assert NoCacheKey(st.pending, SegmentKey(env, k, t));
  }

  lemma {:induction false} LeftOversLaw(env: Env, ld: Loaded, pairs: seq<(string, string)>)
    requires ld.tm.Valid() && DistinctKeys(pairs)
    ensures NoneTwice(LeftOvers(env, ld, pairs))
    ensures forall it <- LeftOvers(env, ld, pairs) :: it.key in MapOf(pairs)
    ensures forall it :: it in LeftOvers(env, ld, pairs) <==>
              && (it.key, it.text) in pairs && Choose(env, ld, it.key, it.text).LeftOver?
              && it.cacheKey == SegmentKey(env, it.key, it.text) && it.textHash == HashText(env, it.text)
  {
    hide Choose, SegmentKey, HashText, MapOf;
    if pairs == [] {
    } else {
      var init := pairs[..|pairs| - 1];
      var (k, t) := pairs[|pairs| - 1];
      assert pairs == init + [(k, t)];
      LastKeyNew(pairs);
      LeftOversLaw(env, ld, init);
      LeftOversLast(env, ld, init, k, t);
      MapOfLast(init, k, t);
    }
  }

  /** With a provider: the run that returns has asked the translator successfully for every
      key left over, once and in source order, and each got its own text. */
  lemma ProviderGives(env: Env, force: bool, pairs: seq<(string, string)>, ld: Loaded, replies: nat -> Reply, now: string)
    requires env.Faithful() && Sound(ld.tm) && DistinctKeys(pairs) && env.allowTranslate
    ensures var r := Compute(env, force, pairs, ld, replies, now);
            var log := Attempts(env, ld, pairs, replies);
            r.Ok? ==>
              && Served(log) == LeftOvers(env, ld, pairs)
              && forall it <- LeftOvers(env, ld, pairs) :: GivenTo(env, now, replies, log, 0, r.value, it)
  {
    assert ld.tm.Valid();
    hide Env.Faithful, KeyLoop, Sound, TextHashes, LeftOvers, GivenTo, TranslateAll, WorldAfter, FallbackLoop, KeyDone;
    var st := KeyLoop(env, ld, TextHashes(ld.tm.Values(), env.locale), pairs);
    KeyLoopInv(env, ld, pairs);
    PendingExactly(env, ld, pairs);
    LeftOversLaw(env, ld, pairs);
    PendingKeyed(env, pairs, st);
    FillPartitions(st.pending, [], env.budget);
    var batches := Batches(st.pending, env.budget);
    TranslateAllGives(env, now, replies, batches, st, Start);
    NoBatches(env, now, replies, st);
    TranslatedAll(env, force, pairs, ld, replies, now);
  }

  lemma NoBatches(env: Env, now: string, replies: nat -> Reply, st: State)
    ensures Batches([], env.budget) == []
    ensures TranslateAll(env, now, replies, [], st, Start) == Ok(st)
  {
  }

  /** With a provider the run ends with what translating all batches gives. */
  lemma TranslatedAll(env: Env, force: bool, pairs: seq<(string, string)>, ld: Loaded, replies: nat -> Reply, now: string)
    requires env.Faithful() && Sound(ld.tm) && DistinctKeys(pairs) && env.allowTranslate
    ensures var st := KeyLoop(env, ld, TextHashes(ld.tm.Values(), env.locale), pairs);
            Compute(env, force, pairs, ld, replies, now)
            == TranslateAll(env, now, replies, Batches(st.pending, env.budget), st, Start)
  {
    hide Env.Faithful, KeyLoop, TextHashes, TranslateAll, FallbackLoop, KeyDone, Batches;
    var st := KeyLoop(env, ld, TextHashes(ld.tm.Values(), env.locale), pairs);
    KeyLoopInv(env, ld, pairs);
    if st.pending == [] {
      NoBatches(env, now, replies, st);
      FallbackLoopDone(ld, force, st, []);
    } else {
      TranslatesPending(env, pairs, ld, replies, now);
      var r := TranslateAll(env, now, replies, Batches(st.pending, env.budget), st, Start);
      if r.Ok? {
        FallbackLoopDone(ld, force, r.value, r.value.pending);
      }
    }
  }

  lemma ProviderDecides(env: Env, force: bool, pairs: seq<(string, string)>, ld: Loaded, replies: nat -> Reply, now: string)
    requires env.Faithful() && Sound(ld.tm) && DistinctKeys(pairs) && env.allowTranslate
    ensures var r := Compute(env, force, pairs, ld, replies, now);
            r.Ok? ==> forall p <- pairs :: Ending(env, now, ld, replies, Attempts(env, ld, pairs, replies), r.value, p.0, p.1)
  {
    assert ld.tm.Valid();
    hide Env.Faithful, Compute, GivenTo, SyncProofs.Outcome, Remembered, Sound, Choose, Attempts, SegmentKey, HashText,
         DistinctKeys;
    var r := Compute(env, force, pairs, ld, replies, now);
    if r.Ok? {
      ComputeChooses(env, force, pairs, ld, replies, now);
      ProviderKeepsRest(env, force, pairs, ld, replies, now);
      LeftOversGiven(env, force, pairs, ld, replies, now);
    }
  }

  lemma LeftOversGiven(env: Env, force: bool, pairs: seq<(string, string)>, ld: Loaded, replies: nat -> Reply, now: string)
    requires env.Faithful() && Sound(ld.tm) && DistinctKeys(pairs) && env.allowTranslate
    ensures var r := Compute(env, force, pairs, ld, replies, now);
            r.Ok? ==> forall p <- pairs | Choose(env, ld, p.0, p.1).LeftOver? ::
                        GivenTo(env, now, replies, Attempts(env, ld, pairs, replies), 0, r.value,
                                Item(p.0, p.1, SegmentKey(env, p.0, p.1), HashText(env, p.1)))
  {
    assert ld.tm.Valid();
    hide Env.Faithful, Compute, GivenTo, Sound, Choose, Attempts, SegmentKey, HashText, LeftOvers, DistinctKeys;
    ProviderGives(env, force, pairs, ld, replies, now);
    LeftOversLaw(env, ld, pairs);
  }

  lemma ProviderKeepsRest(env: Env, force: bool, pairs: seq<(string, string)>, ld: Loaded, replies: nat -> Reply, now: string)
    requires env.Faithful() && Sound(ld.tm) && DistinctKeys(pairs) && env.allowTranslate
    ensures var r := Compute(env, force, pairs, ld, replies, now);
            r.Ok? ==> forall p <- pairs | !Choose(env, ld, p.0, p.1).LeftOver? :: Remembered(env, ld, r.value, p.0, p.1)
  {
    assert ld.tm.Valid();
    hide Env.Faithful, KeyLoop, TextHashes, Compute, Remembered, Sound, Choose, AllSettled, LeftOvers, Translated,
         PendingFrom, DistinctKeys, AllRemembered;
    var r := Compute(env, force, pairs, ld, replies, now);
    if r.Ok? {
      LoopLeavesPending(env, ld, pairs);
      KeyLoopRemembers(env, ld, pairs);
      PendingExactly(env, ld, pairs);
      ProviderRun(env, force, pairs, ld, replies, now);
      ProviderRemembers(env, ld, pairs, KeyLoop(env, ld, TextHashes(ld.tm.Values(), env.locale), pairs), r.value);
    }
  }

  lemma LoopLeavesPending(env: Env, ld: Loaded, pairs: seq<(string, string)>)
    requires env.Faithful() && Sound(ld.tm) && DistinctKeys(pairs)
    ensures PendingFrom(env, pairs, KeyLoop(env, ld, TextHashes(ld.tm.Values(), env.locale), pairs))
  {
    KeyLoopInv(env, ld, pairs);
  }

  lemma FallbackDecides(env: Env, force: bool, pairs: seq<(string, string)>, ld: Loaded, replies: nat -> Reply, now: string)
    requires env.Faithful() && Sound(ld.tm) && DistinctKeys(pairs) && !env.allowTranslate
    ensures var r := Compute(env, force, pairs, ld, replies, now);
            r.Ok? && forall p <- pairs :: Ending(env, now, ld, replies, Attempts(env, ld, pairs, replies), r.value, p.0, p.1)
  {
    assert ld.tm.Valid();
    hide Env.Faithful, KeyLoop, TextHashes, Compute, GivenTo, SyncProofs.Outcome, Remembered, Sound, Choose, Attempts,
         SegmentKey, HashText, DistinctKeys;
    ComputeChooses(env, force, pairs, ld, replies, now);
    KeyLoopRemembers(env, ld, pairs);
    WithoutProviderKeeps(env, force, pairs, ld, replies, now);
    var st := KeyLoop(env, ld, TextHashes(ld.tm.Values(), env.locale), pairs);
    var st' := Compute(env, force, pairs, ld, replies, now).value;
    forall p | p in pairs
      ensures Remembered(env, ld, st', p.0, p.1)
    {
      RememberedStays(env, ld, st, st', p.0, p.1);
    }
  }

  /** Every key of every run that returns: which value it has, whether it fell back, and
      what the memory holds for it. */
  lemma RunDecides(env: Env, force: bool, pairs: seq<(string, string)>, ld: Loaded, replies: nat -> Reply, now: string)
    requires env.Faithful() && Sound(ld.tm) && DistinctKeys(pairs)
    ensures var r := Compute(env, force, pairs, ld, replies, now);
            r.Ok? ==> forall p <- pairs :: Ending(env, now, ld, replies, Attempts(env, ld, pairs, replies), r.value, p.0, p.1)
  {
    hide Env.Faithful, Compute, Ending;
    if env.allowTranslate {
      ProviderDecides(env, force, pairs, ld, replies, now);
    } else {
      FallbackDecides(env, force, pairs, ld, replies, now);
    }
  }

  /** The same of the whole operation: a run that does not throw decides every source key by
      the files as loaded, and asks the translator for exactly the keys left over. */
  lemma SyncDecides(env: Env, opts: Options, source: Source, disk: Disk, replies: nat -> Reply, now: string)
    requires env.Faithful()
    ensures match SyncLocale(env, opts, source, disk, replies, now)
            case Thrown(_) => true
            case Ok(r) =>
              && LoadDisk(env, disk).Ok? && LoadDisk(env, disk).value.tm.Valid()
              && var ld, pairs := LoadDisk(env, disk).value, SourcePairs(source);
              && (forall p <- pairs :: Ending(env, now, ld, replies, Attempts(env, ld, pairs, replies), r.state, p.0, p.1))
              && (env.allowTranslate ==> Served(Attempts(env, ld, pairs, replies)) == LeftOvers(env, ld, pairs))
  {
    hide Env.Faithful, Compute, Ending, LoadDisk, SourcePairs, Attempts, LeftOvers, GivenTo;
    if LoadDisk(env, disk).Ok? {
      var ld, pairs := LoadDisk(env, disk).value, SourcePairs(source);
      LoadedValid(env, disk);
      RunDecides(env, opts.force, pairs, ld, replies, now);
      if env.allowTranslate {
        ProviderGives(env, opts.force, pairs, ld, replies, now);
      }
      SyncThrowsOrComputes(env, opts, source, disk, replies, now);
    }
  }

  lemma SyncThrowsOrComputes(env: Env, opts: Options, source: Source, disk: Disk, replies: nat -> Reply, now: string)
    requires LoadDisk(env, disk).Ok? && LoadDisk(env, disk).value.tm.Valid()
    ensures var r := SyncLocale(env, opts, source, disk, replies, now);
            var computed := Compute(env, opts.force, SourcePairs(source), LoadDisk(env, disk).value, replies, now);
            if r.Ok? then computed == Ok(r.value.state) else computed == Thrown(r.message)
  {
    hide Compute, LoadDisk, SourcePairs, NextMeta, Render, Rebuild;
  }

  lemma ProviderRemembers(env: Env, ld: Loaded, pairs: seq<(string, string)>, st: State, st': State)
    requires env.Faithful() && ld.tm.Valid() && DistinctKeys(pairs)
    requires PendingFrom(env, pairs, st) && Translated(st, st') && st.pending == LeftOvers(env, ld, pairs)
    requires AllRemembered(env, ld, pairs, st)
    ensures forall p <- pairs | !Choose(env, ld, p.0, p.1).LeftOver? :: Remembered(env, ld, st', p.0, p.1)
  {
    hide Env.Faithful, Remembered, Choose, SegmentKey, Translated, PendingFrom, LeftOvers;
    LeftOversLaw(env, ld, pairs);
    forall p | p in pairs && !Choose(env, ld, p.0, p.1).LeftOver?
      ensures Remembered(env, ld, st', p.0, p.1)
    {
      OnlyText(pairs, p);
      NotPendingAgrees(env, ld, pairs, st, st', p.0, p.1);
      RememberedStays(env, ld, st, st', p.0, p.1);
    }
  }

  lemma OnlyText(pairs: seq<(string, string)>, p: (string, string))
    requires DistinctKeys(pairs) && p in pairs
    ensures forall t | (p.0, t) in pairs :: t == p.1
  {
    var i :| 0 <= i < |pairs| && pairs[i] == p;
    forall t | (p.0, t) in pairs
      ensures t == p.1
    {
      var j :| 0 <= j < |pairs| && pairs[j] == (p.0, t);
      assert i == j;
    }
  }

  lemma WithoutProviderKeeps(env: Env, force: bool, pairs: seq<(string, string)>, ld: Loaded, replies: nat -> Reply, now: string)
    requires ld.tm.Valid() && !env.allowTranslate
    ensures Compute(env, force, pairs, ld, replies, now).Ok?
    ensures Compute(env, force, pairs, ld, replies, now).value.tm == KeyLoop(env, ld, TextHashes(ld.tm.Values(), env.locale), pairs).tm
  {
    hide KeyLoop, TextHashes, FallbackLoop;
    var st := KeyLoop(env, ld, TextHashes(ld.tm.Values(), env.locale), pairs);
    FallbackLoopKeeps(ld, force, st, st.pending);
  }

  // ---------- cache keys tell settings apart ----------

  lemma PartThenRest(p: string, s: string, q: string, t: string)
    requires '|' !in p && '|' !in q && p + ['|'] + s == q + ['|'] + t
    ensures p == q && s == t
  {
    var x, y := p + ['|'] + s, q + ['|'] + t;
    assert x[|p|] == '|' && y[|q|] == '|';
    assert forall i | 0 <= i < |p| :: x[i] == p[i];
    assert forall i | 0 <= i < |q| :: y[i] == q[i];
    assert |p| == |q|;
    assert p == x[..|p|] && q == y[..|q|] && s == x[|p| + 1..] && t == y[|q| + 1..];
  }

  /** The eight parts that are hashed for a segment. */
  function KeyParts(env: Env, segmentId: string, textHash: string): seq<string> {
    ["wf=1", "engine=pi", "provider=" + env.provider, "model=" + env.model, "en", env.locale] + [segmentId, textHash]
  }

  lemma CacheKeyText(env: Env, segmentId: string, textHash: string)
    ensures CacheKey(env, segmentId, textHash) == env.sha(Join(KeyParts(env, segmentId, textHash), '|'))
  {
    hide Join;
    var front := ["wf=1", "engine=pi", "provider=" + env.provider, "model=" + env.model];
    var back := ["en", env.locale, segmentId, textHash];
    JoinConcat(front, back, '|');
    JoinConcat([CacheNamespace(env)], back, '|');
    JoinOne(CacheNamespace(env));
    assert [CacheNamespace(env)] + back == [CacheNamespace(env), "en", env.locale, segmentId, textHash];
    assert front + back == KeyParts(env, segmentId, textHash);
  }

  lemma JoinOne(s: string)
    ensures Join([s], '|') == s
  {
  }

  /** Joined parts without bars can be told apart. */
  lemma {:induction false} SameParts(a: seq<string>, s: seq<string>, b: seq<string>, t: seq<string>)
    requires |a| == |b| && s != [] && t != []
    requires forall x <- a + b :: '|' !in x
    requires Join(a + s, '|') == Join(b + t, '|')
    ensures a == b && Join(s, '|') == Join(t, '|')
  {
    if a == [] {
      assert a + s == s && b + t == t;
    } else {
      assert a[0] in a + b && b[0] in a + b;
      assert (a + s)[1..] == a[1..] + s && (b + t)[1..] == b[1..] + t;
      PartThenRest(a[0], Join(a[1..] + s, '|'), b[0], Join(b[1..] + t, '|'));
      assert forall x <- a[1..] + b[1..] :: x in a + b;
      SameParts(a[1..], s, b[1..], t);
      assert a == [a[0]] + a[1..] && b == [b[0]] + b[1..];
    }
  }

  /** Runs with another provider, model or locale never share an entry of the memory, as
      long as these names hold no bar. */
  lemma CacheKeyIdentifies(env: Env, env': Env, k: string, t: string, k': string, t': string)
    requires env.Faithful() && env'.sha == env.sha
    requires '|' !in env.provider && '|' !in env.model && '|' !in env.locale
    requires '|' !in env'.provider && '|' !in env'.model && '|' !in env'.locale
    requires SegmentKey(env, k, t) == SegmentKey(env', k', t')
    ensures env.provider == env'.provider && env.model == env'.model && env.locale == env'.locale
    ensures k == k' && NormalizeText(t) == NormalizeText(t')
  {
    hide CacheKey, NormalizeText, Join;
    var h, h' := HashText(env, t), HashText(env', t');
    CacheKeyText(env, k, h);
    CacheKeyText(env', k', h');
    var a := ["wf=1", "engine=pi", "provider=" + env.provider, "model=" + env.model, "en", env.locale];
    var b := ["wf=1", "engine=pi", "provider=" + env'.provider, "model=" + env'.model, "en", env'.locale];
    SameParts(a, [k, h], b, [k', h']);
    SamePrefix("provider=", env.provider, env'.provider);
    SamePrefix("model=", env.model, env'.model);
    assert a[2] == b[2] && a[3] == b[3] && a[5] == b[5];
    JoinTwo(k, h);
    JoinTwo(k', h');
    LastBar(k, h, k', h');
  }

  lemma JoinTwo(a: string, b: string)
    ensures Join([a, b], '|') == a + ['|'] + b
  {
    assert [a, b][1..] == [b];
  }

  lemma SamePrefix(p: string, s: string, t: string)
    requires p + s == p + t
    ensures s == t
  {
    assert s == (p + s)[|p|..] && t == (p + t)[|p|..];
  }

  // ---------- texts up to white space ----------

  /** The normal form of a text has the same words and is made of them alone. */
  lemma {:induction false} WordsOfJoined(words: seq<string>)
    requires forall w <- words :: w != "" && forall c <- w :: !IsSpace(c)
    ensures Words(Join(words, ' '), IsSpace) == words
  {
    hide Words, IsSpace;
    if words == [] {
      WordsOne("", IsSpace);
    } else if |words| == 1 {
      assert words[0] in words && words == [words[0]];
      WordsOne(words[0], IsSpace);
    } else {
      var rest := words[1..];
      assert words[0] in words && forall w <- rest :: w in words;
      WordsOfJoined(rest);
      BlankSeparates();
      WordsAround(words[0], Join(rest, ' '), ' ', IsSpace);
      WordsOne(words[0], IsSpace);
      assert words == [words[0]] + rest;
    }
  }

  lemma BlankSeparates()
    ensures IsSpace(' ')
  {
  }

  lemma {:induction false} WordsAreSolid(s: string, word: string)
    requires forall c <- word :: !IsSpace(c)
    ensures forall w <- WordsFrom(s, word, IsSpace) :: w != "" && forall c <- w :: !IsSpace(c)
    decreases |s|
  {
    hide IsSpace;
    if s != "" {
      if IsSpace(s[0]) {
        WordsAreSolid(s[1..], "");
      } else {
        WordsAreSolid(s[1..], word + [s[0]]);
      }
    }
  }

  /** Two texts have the same normal form exactly if they have the same words. */
  lemma NormalExactly(a: string, b: string)
    ensures NormalizeText(a) == NormalizeText(b) <==> Words(a, IsSpace) == Words(b, IsSpace)
  {
    WordsAreSolid(a, "");
    WordsAreSolid(b, "");
    WordsOfJoined(Words(a, IsSpace));
    WordsOfJoined(Words(b, IsSpace));
  }

  /** Two segments share an entry of the memory exactly if they have the same key and their
      texts have the same words. */
  lemma SegmentKeyExactly(env: Env, k: string, t: string, k': string, t': string)
    requires env.Faithful()
    ensures SegmentKey(env, k, t) == SegmentKey(env, k', t') <==> k == k' && Words(t, IsSpace) == Words(t', IsSpace)
  {
    hide Words, CacheKey;
    NormalExactly(t, t');
    if SegmentKey(env, k, t) == SegmentKey(env, k', t') {
      SegmentKeyInjective(env, k, t, k', t');
    }
  }
}
