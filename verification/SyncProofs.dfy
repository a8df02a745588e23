/** What one run of `syncLocale` establishes for every key, and why a second run finds
    nothing left to do. */
module SyncProofs {
  import opened Text
  import opened Sorting
  import opened Tree
  import opened Rebuilding
  import opened Memory
  import opened Batching
  import opened Translating
  import opened Sync

  function SegmentKey(env: Env, key: string, text: string): string {
    CacheKey(env, key, HashText(env, text))
  }

  // ---------- cache keys tell segments apart ----------

  lemma LastBar(a: string, g: string, b: string, h: string)
    requires '|' !in g && '|' !in h
    requires a + ['|'] + g == b + ['|'] + h
    ensures a == b && g == h
  {
    var s, t := a + ['|'] + g, b + ['|'] + h;
    assert s[|a|] == '|' && t[|b|] == '|';
    assert |a| == |b|;
    assert a == s[..|a|] && b == t[..|b|] && g == s[|a| + 1..] && h == t[|b| + 1..];
  }

  function KeyPrefix(env: Env): string {
    Join([CacheNamespace(env), "en", env.locale], '|') + "|"
  }

  lemma KeyPreimage(env: Env, key: string, hash: string)
    ensures Join([CacheNamespace(env), "en", env.locale, key, hash], '|') == KeyPrefix(env) + key + ['|'] + hash
  {
    var front := [CacheNamespace(env), "en", env.locale];
    assert front + [key, hash] == [CacheNamespace(env), "en", env.locale, key, hash];
    JoinConcat(front, [key, hash], '|');
    assert [key, hash][1..] == [hash];
    assert Join([key, hash], '|') == key + ['|'] + hash;
  }

  /** Different keys never share an entry of the memory. */
  lemma SegmentKeyInjective(env: Env, k: string, t: string, k': string, t': string)
    requires env.Faithful()
    requires SegmentKey(env, k, t) == SegmentKey(env, k', t')
    ensures k == k' && NormalizeText(t) == NormalizeText(t')
  {
    var h, h' := HashText(env, t), HashText(env, t');
    var prefix := KeyPrefix(env);
    KeyPreimage(env, k, h);
    KeyPreimage(env, k', h');
    LastBar(prefix + k, h, prefix + k', h');
    assert k == (prefix + k)[|prefix|..] && k' == (prefix + k')[|prefix|..];
  }

  // ---------- the key loop ----------

  ghost predicate Agree(a: map<string, Entry>, b: map<string, Entry>, c: string) {
    (c in a <==> c in b) && (c in a ==> a[c] == b[c])
  }

  /** What the key loop leaves for one key. */
  ghost predicate KeyDone(env: Env, ld: Loaded, st: State, k: string, t: string) {
    var h, c := HashText(env, t), SegmentKey(env, k, t);
    if k in st.next then
      if c in st.tm.at then st.tm.at[c].translated == st.next[k] && (k in st.fallback ==> !env.allowTranslate)
      else k in st.fallback ==> !env.allowTranslate && !HasText(ld.tm, env.locale, h)
    else
      && k !in st.fallback
      && Item(k, t, c, h) in st.pending
      && (!env.allowTranslate ==> k !in ld.existing && c !in st.tm.at && !HasText(ld.tm, env.locale, h))
  }

  ghost predicate LoopInv(env: Env, ld: Loaded, pairs: seq<(string, string)>, st: State) {
    && Sound(st.tm)
    && (forall k | k in st.next || k in st.fallback :: k in MapOf(pairs))
    && NewKeysAgree(env, ld, pairs, st)
    && (forall h | HasText(st.tm, env.locale, h) :: HasText(ld.tm, env.locale, h))
    && AllDone(env, ld, pairs, st)
    && PendingFrom(env, pairs, st)
  }

  /** Keys not processed yet still find the entries that were loaded. */
  ghost predicate NewKeysAgree(env: Env, ld: Loaded, pairs: seq<(string, string)>, st: State) {
    forall k, t | k !in MapOf(pairs) :: Agree(st.tm.at, ld.tm.at, SegmentKey(env, k, t))
  }

  ghost predicate AllDone(env: Env, ld: Loaded, pairs: seq<(string, string)>, st: State) {
    forall p <- pairs :: KeyDone(env, ld, st, p.0, p.1)
  }

  /** Pending items stem from source pairs that have no value yet. */
  ghost predicate PendingFrom(env: Env, pairs: seq<(string, string)>, st: State) {
    forall it <- st.pending ::
      && (it.key, it.text) in pairs && it.key !in st.next
      && it.cacheKey == SegmentKey(env, it.key, it.text) && it.textHash == HashText(env, it.text)
  }

  lemma SetSound(tm: JsMap<Entry>, c: string, e: Entry)
    requires Sound(tm) && e.cacheKey == c && Loadable(e)
    ensures Sound(tm.Set(c, e))
    ensures forall d | d != c :: Agree(tm.Set(c, e).at, tm.at, d)
  {
    var tm' := tm.Set(c, e);
    assert tm'.Valid();
    forall k | k in tm'.at
      ensures tm'.at[k].cacheKey == k && Loadable(tm'.at[k])
    {
      if k != c {
        assert k in tm.at;
      }
    }
  }

  /** A copied or unchanged entry brings no new text hash. */
  lemma SetHasText(tm: JsMap<Entry>, c: string, e: Entry, locale: string, h: string)
    requires HasText(tm.Set(c, e), locale, h)
    ensures HasText(tm, locale, h) || (Usable(e, locale) && e.textHash == h)
  {
    var tm' := tm.Set(c, e);
    var k :| k in tm'.at && Usable(tm'.at[k], locale) && tm'.at[k].textHash == h;
    if k != c {
      assert k in tm.at;
    }
  }

  ghost predicate Others(st: State, st': State, k: string) {
    forall j | j != k ::
      && (j in st'.next <==> j in st.next) && (j in st.next ==> st'.next[j] == st.next[j])
      && (j in st'.fallback <==> j in st.fallback)
  }

  /** The step for one key touches nothing that belongs to another. */
  lemma KeyStepFrame(env: Env, ld: Loaded, st: State, k: string, t: string)
    requires Sound(ld.tm) && Sound(st.tm) && env.Faithful()
    requires forall h | HasText(st.tm, env.locale, h) :: HasText(ld.tm, env.locale, h)
    ensures var st' := KeyStep(env, ld, TextHashes(ld.tm.Values(), env.locale), st, k, t);
            && Sound(st'.tm) && Others(st, st', k)
            && (forall c | c != SegmentKey(env, k, t) :: Agree(st'.tm.at, st.tm.at, c))
            && (forall h | HasText(st'.tm, env.locale, h) :: HasText(ld.tm, env.locale, h))
  {
    var byText := TextHashes(ld.tm.Values(), env.locale);
    var st' := KeyStep(env, ld, byText, st, k, t);
    var c, h := SegmentKey(env, k, t), HashText(env, t);
    if st'.tm != st.tm {
      var e := byText[h].(cacheKey := c, segmentId := k, sourcePath := SourcePath(env));
      HashesAreTexts(ld.tm, env.locale, h);
      SetSound(st.tm, c, e);
      forall g | HasText(st'.tm, env.locale, g)
        ensures HasText(ld.tm, env.locale, g)
      {
        SetHasText(st.tm, c, e, env.locale, g);
      }
    }
  }

  lemma KeyStepDone(env: Env, ld: Loaded, st: State, k: string, t: string)
    requires Sound(ld.tm) && Sound(st.tm)
    requires k !in st.next && k !in st.fallback
    requires Agree(st.tm.at, ld.tm.at, SegmentKey(env, k, t))
    ensures KeyDone(env, ld, KeyStep(env, ld, TextHashes(ld.tm.Values(), env.locale), st, k, t), k, t)
  {
    HashesAreTexts(ld.tm, env.locale, HashText(env, t));
  }

  lemma OtherKeyDone(env: Env, ld: Loaded, st: State, st': State, k: string, k': string, t': string)
    requires KeyDone(env, ld, st, k', t') && k' != k && Others(st, st', k)
    requires Agree(st'.tm.at, st.tm.at, SegmentKey(env, k', t'))
    requires st.pending <= st'.pending
    ensures KeyDone(env, ld, st', k', t')
  {
  }

  lemma MapOfLast(init: seq<(string, string)>, k: string, t: string)
    ensures MapOf(init + [(k, t)]) == MapOf(init)[k := t]
  {
    assert (init + [(k, t)])[..|init|] == init;
  }

  lemma OtherKeysAgree(env: Env, st: State, st': State, k: string, t: string)
    requires env.Faithful()
    requires forall c | c != SegmentKey(env, k, t) :: Agree(st'.tm.at, st.tm.at, c)
    ensures forall j, u | j != k :: Agree(st'.tm.at, st.tm.at, SegmentKey(env, j, u))
  {
    forall j, u | j != k
      ensures Agree(st'.tm.at, st.tm.at, SegmentKey(env, j, u))
    {
      if SegmentKey(env, j, u) == SegmentKey(env, k, t) {
        SegmentKeyInjective(env, j, u, k, t);
      }
    }
  }

  lemma DoneGrows(env: Env, ld: Loaded, init: seq<(string, string)>, st: State, st': State, k: string, t: string)
    requires AllDone(env, ld, init, st) && k !in MapOf(init)
    requires Others(st, st', k) && st.pending <= st'.pending
    requires forall j, u | j != k :: Agree(st'.tm.at, st.tm.at, SegmentKey(env, j, u))
    requires KeyDone(env, ld, st', k, t)
    ensures AllDone(env, ld, init + [(k, t)], st')
  {
    forall p | p in init
      ensures KeyDone(env, ld, st', p.0, p.1)
    {
      assert p.0 in MapOf(init);
      OtherKeyDone(env, ld, st, st', k, p.0, p.1);
    }
  }

  lemma KeyStepInv(env: Env, ld: Loaded, init: seq<(string, string)>, st: State, k: string, t: string)
    requires env.Faithful() && Sound(ld.tm)
    requires LoopInv(env, ld, init, st) && k !in MapOf(init)
    ensures LoopInv(env, ld, init + [(k, t)], KeyStep(env, ld, TextHashes(ld.tm.Values(), env.locale), st, k, t))
  {
    assert ld.tm.Valid();
    hide Env.Faithful, KeyStep, KeyDone, Sound, SegmentKey, HasText, TextHashes;
    var st' := KeyStep(env, ld, TextHashes(ld.tm.Values(), env.locale), st, k, t);
    MapOfLast(init, k, t);
    KeyStepFrame(env, ld, st, k, t);
    KeyStepPends(env, ld, TextHashes(ld.tm.Values(), env.locale), st, k, t);
    OtherKeysAgree(env, st, st', k, t);
    KeyStepDone(env, ld, st, k, t);
    DoneGrows(env, ld, init, st, st', k, t);
    PendingGrows(env, ld, init, st, k, t);
    AgreeGrows(env, ld, init, st, st', k, t);
  }

  lemma KeyStepPends(env: Env, ld: Loaded, byText: map<string, Entry>, st: State, k: string, t: string)
    ensures st.pending <= KeyStep(env, ld, byText, st, k, t).pending
  {
  }

  lemma AgreeGrows(env: Env, ld: Loaded, init: seq<(string, string)>, st: State, st': State, k: string, t: string)
    requires NewKeysAgree(env, ld, init, st)
    requires forall j, u | j != k :: Agree(st'.tm.at, st.tm.at, SegmentKey(env, j, u))
    ensures NewKeysAgree(env, ld, init + [(k, t)], st')
  {
    hide SegmentKey;
    MapOfLast(init, k, t);
  }

  lemma PendingGrows(env: Env, ld: Loaded, init: seq<(string, string)>, st: State, k: string, t: string)
    requires PendingFrom(env, init, st) && k !in MapOf(init) && k !in st.next
    ensures PendingFrom(env, init + [(k, t)], KeyStep(env, ld, TextHashes(ld.tm.Values(), env.locale), st, k, t))
    requires ld.tm.Valid()
  {
    forall it | it in st.pending
      ensures it.key != k
    {
      assert (it.key, it.text) in init && it.key in MapOf(init);
    }
  }

  lemma LastKeyNew(pairs: seq<(string, string)>)
    requires DistinctKeys(pairs) && pairs != []
    ensures pairs[|pairs| - 1].0 !in MapOf(pairs[..|pairs| - 1])
    ensures DistinctKeys(pairs[..|pairs| - 1])
  {
    var init, k := pairs[..|pairs| - 1], pairs[|pairs| - 1].0;
    if k in MapOf(init) {
      MapOfPair(init, k);
    }
  }

  lemma LoopStarts(env: Env, ld: Loaded)
    requires Sound(ld.tm)
    ensures LoopInv(env, ld, [], KeyLoop(env, ld, TextHashes(ld.tm.Values(), env.locale), []))
  {
  }

  lemma {:induction false} KeyLoopInv(env: Env, ld: Loaded, pairs: seq<(string, string)>)
    requires env.Faithful() && Sound(ld.tm) && DistinctKeys(pairs)
    ensures LoopInv(env, ld, pairs, KeyLoop(env, ld, TextHashes(ld.tm.Values(), env.locale), pairs))
  {
    assert ld.tm.Valid();
    hide Env.Faithful, KeyLoop, KeyStep, Sound, TextHashes, LoopInv, MapOf;
    if pairs == [] {
      LoopStarts(env, ld);
    } else {
      var init := pairs[..|pairs| - 1];
      var (k, t) := pairs[|pairs| - 1];
      assert pairs == init + [(k, t)];
      LastKeyNew(pairs);
      KeyLoopInv(env, ld, init);
      KeyStepInv(env, ld, init, KeyLoop(env, ld, TextHashes(ld.tm.Values(), env.locale), init), k, t);
      KeyLoopLast(env, ld, TextHashes(ld.tm.Values(), env.locale), init, k, t);
    }
  }

  lemma KeyLoopLast(env: Env, ld: Loaded, byText: map<string, Entry>, init: seq<(string, string)>, k: string, t: string)
    ensures KeyLoop(env, ld, byText, init + [(k, t)]) == KeyStep(env, ld, byText, KeyLoop(env, ld, byText, init), k, t)
  {
    hide KeyStep;
    assert (init + [(k, t)])[..|init|] == init;
  }

  // ---------- the translation of pending keys ----------

  /** Items with the same key have the same cache key, and the other way round. */
  ghost predicate Keyed(items: seq<Item>) {
    forall a <- items, b <- items :: a.cacheKey != "" && (a.key == b.key <==> a.cacheKey == b.cacheKey)
  }

  ghost predicate Stored(st: State, it: Item) {
    it.key in st.next && it.cacheKey in st.tm.at && st.tm.at[it.cacheKey].translated == st.next[it.key]
  }

  ghost predicate NoKey(items: seq<Item>, k: string) {
    forall it <- items :: it.key != k
  }

  ghost predicate NoCacheKey(items: seq<Item>, c: string) {
    forall it <- items :: it.cacheKey != c
  }

  /** From `st` to `st'` only the values and entries of these items changed, and each
      item that was not stored before is stored now. */
  ghost predicate StoresOnly(st: State, st': State, items: seq<Item>) {
    && Sound(st'.tm) && st'.fallback == st.fallback && st'.pending == st.pending
    && (forall it <- items :: Stored(st', it))
    && (forall k | NoKey(items, k) ::
          (k in st'.next <==> k in st.next) && (k in st.next ==> st'.next[k] == st.next[k]))
    && (forall c | NoCacheKey(items, c) :: Agree(st'.tm.at, st.tm.at, c))
  }

  lemma StoreOne(env: Env, now: string, st: State, item: Item, value: string)
    requires Sound(st.tm) && item.cacheKey != "" && !Blank(value)
    ensures StoresOnly(
              st,
              st.(next := st.next[item.key := value], tm := st.tm.Set(item.cacheKey, NewEntry(env, item, value, now))),
              [item])
  {
    SetSound(st.tm, item.cacheKey, NewEntry(env, item, value, now));
    assert item in [item];
  }

  lemma {:induction false} StoreBatchLaw(env: Env, now: string, batch: seq<Item>, translated: map<string, string>, st: State)
    requires Sound(st.tm) && Keyed(batch)
    requires forall it <- batch :: it.key in translated && !Blank(translated[it.key])
    ensures StoresOnly(st, StoreBatch(env, now, batch, translated, st), batch)
  {
    if batch != [] {
      var n := |batch| - 1;
      var init, item := batch[..n], batch[n];
      assert batch == init + [item] && item in batch;
      assert forall it <- init :: it in batch;
      StoreBatchLaw(env, now, init, translated, st);
      var mid := StoreBatch(env, now, init, translated, st);
      assert Blank("");
      StoreOne(env, now, mid, item, translated[item.key]);
      StoresConcat(st, mid, StoreBatch(env, now, batch, translated, st), init, [item]);
    }
  }

  lemma {:induction false} TranslateAllLaw(env: Env, now: string, replies: nat -> Reply, batches: seq<seq<Item>>, st: State, w: World)
    requires Sound(st.tm) && Keyed(Flat(batches))
    ensures var r := TranslateAll(env, now, replies, batches, st, w); r.Ok? ==> StoresOnly(st, r.value, Flat(batches))
    decreases |batches|
  {
    if batches != [] {
      var batch, rest := batches[0], Flat(batches[1..]);
      var (r, w') := TranslateBatch(replies, batch, 0, w);
      assert forall it <- batch :: it in Flat(batches);
      assert forall it <- rest :: it in Flat(batches);
      if r.Ok? {
        ReturnsAllKeys(replies, batch, 0, 0, "translation failed", w);
        StoreBatchLaw(env, now, batch, r.value, st);
        var mid := StoreBatch(env, now, batch, r.value, st);
        TranslateAllLaw(env, now, replies, batches[1..], mid, w');
        var done := TranslateAll(env, now, replies, batches[1..], mid, w');
        if done.Ok? {
          StoresConcat(st, mid, done.value, batch, rest);
        }
      }
    }
  }

  lemma NoKeyConcat(a: seq<Item>, b: seq<Item>)
    ensures forall k | NoKey(a + b, k) :: NoKey(a, k) && NoKey(b, k)
    ensures forall c | NoCacheKey(a + b, c) :: NoCacheKey(a, c) && NoCacheKey(b, c)
  {
    assert forall it <- a :: it in a + b;
    assert forall it <- b :: it in a + b;
  }

  /** An item stored first is still stored after the others. */
  lemma StoredStays(mid: State, st': State, it: Item, a: seq<Item>, b: seq<Item>)
    requires Keyed(a + b) && it in a
    requires Stored(mid, it) && StoresOnly(mid, st', b)
    ensures Stored(st', it)
  {
    assert it in a + b;
    if x :| x in b && (x.key == it.key || x.cacheKey == it.cacheKey) {
      assert x in a + b;
      assert Stored(st', x);
    } else {
      assert NoKey(b, it.key) && NoCacheKey(b, it.cacheKey);
      assert Agree(st'.tm.at, mid.tm.at, it.cacheKey);
    }
  }

  lemma StoresConcat(st: State, mid: State, st': State, a: seq<Item>, b: seq<Item>)
    requires Keyed(a + b)
    requires StoresOnly(st, mid, a) && StoresOnly(mid, st', b)
    ensures StoresOnly(st, st', a + b)
  {
    forall it | it in a + b
      ensures Stored(st', it)
    {
      if it in a {
        StoredStays(mid, st', it, a, b);
      }
    }
    NoKeyConcat(a, b);
    forall c | NoCacheKey(a + b, c)
      ensures Agree(st'.tm.at, st.tm.at, c)
    {
      assert Agree(mid.tm.at, st.tm.at, c) && Agree(st'.tm.at, mid.tm.at, c);
    }
  }

  // ---------- the fallback loop ----------

  lemma {:induction false} FallbackLoopDone(ld: Loaded, force: bool, st: State, items: seq<Item>)
    requires forall it <- items :: it.key in st.next
    ensures FallbackLoop(ld, force, st, items) == st
  {
    if items != [] {
      FallbackLoopDone(ld, force, st, items[..|items| - 1]);
    }
  }

  lemma {:induction false} FallbackLoopFills(ld: Loaded, force: bool, st: State, items: seq<Item>)
    requires forall it <- items :: it.key !in st.next && it.key !in ld.existing
    ensures var st' := FallbackLoop(ld, force, st, items);
            && (forall it <- items :: it.key in st'.next && it.key in st'.fallback)
            && (forall k | NoKey(items, k) ::
                  (k in st'.next <==> k in st.next) && (k in st.next ==> st'.next[k] == st.next[k]) &&
                  (k in st'.fallback <==> k in st.fallback))
            && (forall k :: k in st'.next ==> k in st.next || k in st'.fallback)
  {
    if items != [] {
      var n := |items| - 1;
      assert items == items[..n] + [items[n]];
      FallbackLoopFills(ld, force, st, items[..n]);
      var mid := FallbackLoop(ld, force, st, items[..n]);
      forall k | NoKey(items, k)
        ensures NoKey(items[..n], k) && k != items[n].key
      {
        assert items[n] in items;
        assert forall it <- items[..n] :: it in items;
      }
      if items[n].key in mid.next {
        assert items[n].key in mid.fallback;
      }
    }
  }

  // ---------- what a whole run leaves ----------

  /** A key whose value a further run would choose again: it comes from the memory, or
      from the locale file with no memory entry that could replace it. */
  ghost predicate Settled(env: Env, st: State, k: string, t: string) {
    && k in st.next
    && if SegmentKey(env, k, t) in st.tm.at
       then st.tm.at[SegmentKey(env, k, t)].translated == st.next[k] && (k in st.fallback ==> !env.allowTranslate)
       else k in st.fallback ==> !env.allowTranslate && !HasText(st.tm, env.locale, HashText(env, t))
  }

  ghost predicate AllSettled(env: Env, pairs: seq<(string, string)>, st: State) {
    && Sound(st.tm)
    && st.next.Keys == MapOf(pairs).Keys
    && (forall k <- st.fallback :: k in MapOf(pairs))
    && (forall p <- pairs :: Settled(env, st, p.0, p.1))
  }

  lemma PendingKeyed(env: Env, pairs: seq<(string, string)>, st: State)
    requires env.Faithful() && DistinctKeys(pairs) && PendingFrom(env, pairs, st)
    ensures Keyed(st.pending)
  {
    forall a, b | a in st.pending && b in st.pending
      ensures a.cacheKey != "" && (a.key == b.key <==> a.cacheKey == b.cacheKey)
    {
      if a.cacheKey == b.cacheKey {
        SegmentKeyInjective(env, a.key, a.text, b.key, b.text);
      }
      if a.key == b.key {
        var i :| 0 <= i < |pairs| && pairs[i] == (a.key, a.text);
        var j :| 0 <= j < |pairs| && pairs[j] == (b.key, b.text);
        assert i == j;
      }
    }
  }

  lemma FirstOf(keys: seq<string>) returns (k: string)
    requires keys != []
    ensures k in keys
  {
    k := keys[0];
  }

  /** With a provider, the translated state is settled and nothing fell back. */
  lemma ProviderSettles(env: Env, ld: Loaded, pairs: seq<(string, string)>, st: State, st': State)
    requires env.Faithful() && env.allowTranslate && DistinctKeys(pairs)
    requires LoopInv(env, ld, pairs, st)
    requires (st' == st && st.pending == []) || StoresOnly(st, st', st.pending)
    ensures AllSettled(env, pairs, st') && st'.fallback == []
    ensures forall it <- st'.pending :: it.key in st'.next
  {
    forall p | p in pairs
      ensures Settled(env, st', p.0, p.1) && p.0 !in st'.fallback
    {
      var k, c := p.0, SegmentKey(env, p.0, p.1);
      assert KeyDone(env, ld, st, k, p.1);
      if k in st.next {
        forall it | it in st.pending
          ensures it.key != k && it.cacheKey != c
        {
          if it.cacheKey == c {
            SegmentKeyInjective(env, it.key, it.text, k, p.1);
          }
        }
        assert NoKey(st.pending, k) && NoCacheKey(st.pending, c);
        assert st' != st ==> Agree(st'.tm.at, st.tm.at, c);
      } else {
        var it := Item(k, p.1, c, HashText(env, p.1));
        assert it in st.pending;
        assert Stored(st', it);
      }
    }
    forall k
      ensures k in st'.next <==> k in MapOf(pairs)
      ensures k !in st'.fallback
    {
      if k in MapOf(pairs) {
        MapOfPair(pairs, k);
        assert Settled(env, st', k, MapOf(pairs)[k]);
      }
      if k in st'.next && k !in st.next {
        var it :| it in st.pending && it.key == k;
        assert (it.key, it.text) in pairs;
      }
    }
    if st'.fallback != [] {
      var k := FirstOf(st'.fallback);
      assert false;
    }
  }

  /** Without a provider, the keys left over fall back to English. */
  lemma FallbackSettles(env: Env, ld: Loaded, force: bool, pairs: seq<(string, string)>, st: State)
    requires env.Faithful() && !env.allowTranslate && DistinctKeys(pairs)
    requires LoopInv(env, ld, pairs, st)
    ensures AllSettled(env, pairs, FallbackLoop(ld, force, st, st.pending))
  {
    var st' := FallbackLoop(ld, force, st, st.pending);
    forall it | it in st.pending
      ensures it.key !in st.next && it.key !in ld.existing && (it.key, it.text) in pairs
    {
      assert KeyDone(env, ld, st, it.key, it.text);
    }
    FallbackLoopFills(ld, force, st, st.pending);
    FallbackLoopKeeps(ld, force, st, st.pending);
    forall p | p in pairs
      ensures Settled(env, st', p.0, p.1)
    {
      assert KeyDone(env, ld, st, p.0, p.1);
      if p.0 !in st.next {
        assert Item(p.0, p.1, SegmentKey(env, p.0, p.1), HashText(env, p.1)) in st.pending;
      }
    }
    forall k
      ensures k in st'.next <==> k in MapOf(pairs)
      ensures k in st'.fallback ==> k in MapOf(pairs)
    {
      if k in MapOf(pairs) {
        MapOfPair(pairs, k);
        assert Settled(env, st', k, MapOf(pairs)[k]);
      }
      if exists it :: it in st.pending && it.key == k {
        var it :| it in st.pending && it.key == k;
        assert (it.key, it.text) in pairs;
      }
    }
  }

  /** From `st` to `st'` nothing but the pending items was translated. */
  ghost predicate Translated(st: State, st': State) {
    (st' == st && st.pending == []) || StoresOnly(st, st', st.pending)
  }

  /** A provider run that does not throw is the key loop followed by the translation of
      what it left pending; the fallback loop has nothing to do. */
  lemma ProviderRun(env: Env, force: bool, pairs: seq<(string, string)>, ld: Loaded, replies: nat -> Reply, now: string)
    requires env.Faithful() && Sound(ld.tm) && DistinctKeys(pairs) && env.allowTranslate
    ensures var st := KeyLoop(env, ld, TextHashes(ld.tm.Values(), env.locale), pairs);
            var r := Compute(env, force, pairs, ld, replies, now);
            r.Ok? ==> Translated(st, r.value) && AllSettled(env, pairs, r.value) && r.value.fallback == []
  {
    var st := KeyLoop(env, ld, TextHashes(ld.tm.Values(), env.locale), pairs);
    KeyLoopInv(env, ld, pairs);
    if st.pending == [] {
      ProviderSettles(env, ld, pairs, st, st);
    } else {
      var batches := Batches(st.pending, env.budget);
      FillPartitions(st.pending, [], env.budget);
      assert Flat(batches) == st.pending;
      PendingKeyed(env, pairs, st);
      TranslateAllLaw(env, now, replies, batches, st, Start);
      var r := TranslateAll(env, now, replies, batches, st, Start);
      if r.Ok? {
        ProviderSettles(env, ld, pairs, st, r.value);
        FallbackLoopDone(ld, force, r.value, r.value.pending);
      }
    }
  }

  lemma ComputeSettles(env: Env, force: bool, pairs: seq<(string, string)>, ld: Loaded, replies: nat -> Reply, now: string)
    requires env.Faithful() && Sound(ld.tm) && DistinctKeys(pairs)
    ensures var r := Compute(env, force, pairs, ld, replies, now);
            r.Ok? ==> AllSettled(env, pairs, r.value) && (env.allowTranslate ==> r.value.fallback == [])
  {
    if env.allowTranslate {
      ProviderRun(env, force, pairs, ld, replies, now);
    } else {
      KeyLoopInv(env, ld, pairs);
      FallbackSettles(env, ld, force, pairs, KeyLoop(env, ld, TextHashes(ld.tm.Values(), env.locale), pairs));
    }
  }

  // ---------- which value a key gets ----------

  /** The source that decides the value of a key, going by what was loaded. */
  datatype Choice = FromMemory(value: string) | FromSameText(value: string) | FromFile(value: string) | LeftOver

  function Choose(env: Env, ld: Loaded, k: string, t: string): Choice
    requires ld.tm.Valid()
  {
    var c, h := SegmentKey(env, k, t), HashText(env, t);
    var byText := TextHashes(ld.tm.Values(), env.locale);
    var redo := env.allowTranslate && WasFallback(ld, k);
    if c in ld.tm.at && !redo then FromMemory(ld.tm.at[c].translated)
    else if h in byText && (WasFallback(ld, k) || k !in ld.existing) then FromSameText(byText[h].translated)
    else if k in ld.existing && !redo then FromFile(ld.existing[k])
    else LeftOver
  }

  /** The key has the value of its choice, and is a fallback key if it was one before and
      its value was merely kept. */
  ghost predicate Chosen(env: Env, ld: Loaded, st: State, k: string, t: string)
    requires ld.tm.Valid()
  {
    match Choose(env, ld, k, t)
    case FromMemory(v) => k in st.next && st.next[k] == v && (k in st.fallback <==> WasFallback(ld, k))
    case FromSameText(v) => k in st.next && st.next[k] == v && k !in st.fallback
    case FromFile(v) => k in st.next && st.next[k] == v && (k in st.fallback <==> WasFallback(ld, k))
    case LeftOver => k !in st.next && k !in st.fallback
  }

  ghost predicate AllChosen(env: Env, ld: Loaded, pairs: seq<(string, string)>, st: State)
    requires ld.tm.Valid()
  {
    forall p <- pairs :: Chosen(env, ld, st, p.0, p.1)
  }

  lemma StepChosen(env: Env, ld: Loaded, st: State, k: string, t: string)
    requires Sound(ld.tm) && k !in st.next && k !in st.fallback
    requires Agree(st.tm.at, ld.tm.at, SegmentKey(env, k, t))
    ensures Chosen(env, ld, KeyStep(env, ld, TextHashes(ld.tm.Values(), env.locale), st, k, t), k, t)
  {
  }

  lemma OthersChosen(env: Env, ld: Loaded, init: seq<(string, string)>, st: State, st': State, k: string)
    requires ld.tm.Valid() && AllChosen(env, ld, init, st) && k !in MapOf(init) && Others(st, st', k)
    ensures AllChosen(env, ld, init, st')
  {
    forall p | p in init
      ensures Chosen(env, ld, st', p.0, p.1)
    {
      assert p.0 in MapOf(init);
      assert Chosen(env, ld, st, p.0, p.1);
    }
  }

  lemma ChoosesStep(env: Env, ld: Loaded, init: seq<(string, string)>, k: string, t: string)
    requires env.Faithful() && Sound(ld.tm) && DistinctKeys(init) && k !in MapOf(init)
    requires AllChosen(env, ld, init, KeyLoop(env, ld, TextHashes(ld.tm.Values(), env.locale), init))
    ensures var byText := TextHashes(ld.tm.Values(), env.locale);
            var st' := KeyStep(env, ld, byText, KeyLoop(env, ld, byText, init), k, t);
            AllChosen(env, ld, init, st') && Chosen(env, ld, st', k, t)
  {
    var st := KeyLoop(env, ld, TextHashes(ld.tm.Values(), env.locale), init);
    KeyLoopInv(env, ld, init);
    StepChosen(env, ld, st, k, t);
    KeyStepFrame(env, ld, st, k, t);
    OthersChosen(env, ld, init, st, KeyStep(env, ld, TextHashes(ld.tm.Values(), env.locale), st, k, t), k);
  }

  /** No key's decision interferes with another's: after the loop every key has the value
      that the files as loaded call for. */
  lemma {:induction false} KeyLoopChooses(env: Env, ld: Loaded, pairs: seq<(string, string)>)
    requires env.Faithful() && Sound(ld.tm) && DistinctKeys(pairs)
    ensures AllChosen(env, ld, pairs, KeyLoop(env, ld, TextHashes(ld.tm.Values(), env.locale), pairs))
  {
    assert ld.tm.Valid();
    hide Env.Faithful, KeyLoop, KeyStep, Sound, TextHashes, Chosen, MapOf;
    if pairs != [] {
      var init := pairs[..|pairs| - 1];
      var (k, t) := pairs[|pairs| - 1];
      assert pairs == init + [(k, t)];
      LastKeyNew(pairs);
      KeyLoopChooses(env, ld, init);
      ChoosesStep(env, ld, init, k, t);
      KeyLoopLast(env, ld, TextHashes(ld.tm.Values(), env.locale), init, k, t);
    }
  }

  /** The value and the fallback mark of a key after the whole run. */
  ghost predicate Outcome(env: Env, ld: Loaded, st: State, k: string, t: string)
    requires ld.tm.Valid()
  {
    k in st.next &&
    match Choose(env, ld, k, t)
    case FromMemory(v) => st.next[k] == v && (k in st.fallback <==> WasFallback(ld, k))
    case FromSameText(v) => st.next[k] == v && k !in st.fallback
    case FromFile(v) => st.next[k] == v && (k in st.fallback <==> WasFallback(ld, k))
    case LeftOver =>
      if env.allowTranslate then k !in st.fallback else st.next[k] == t && k in st.fallback
  }

  lemma {:induction false} FallbackIsEnglish(ld: Loaded, force: bool, st: State, items: seq<Item>)
    requires forall it <- items :: it.key !in st.next && it.key !in ld.existing
    requires forall a <- items, b <- items | a.key == b.key :: a.text == b.text
    ensures forall it <- items :: it.key in FallbackLoop(ld, force, st, items).next
    ensures forall it <- items :: FallbackLoop(ld, force, st, items).next[it.key] == it.text
  {
    if items != [] {
      var n := |items| - 1;
      assert items == items[..n] + [items[n]];
      assert forall it <- items[..n] :: it in items;
      FallbackIsEnglish(ld, force, st, items[..n]);
      FallbackLoopFills(ld, force, st, items[..n]);
      assert items[n] in items;
      if NoKey(items[..n], items[n].key) {
        assert items[n].key !in FallbackLoop(ld, force, st, items[..n]).next;
      }
    }
  }

  /** Every key ends up with the value its choice calls for; keys left over are translated
      with a provider and fall back to English without one. */
  lemma ComputeChooses(env: Env, force: bool, pairs: seq<(string, string)>, ld: Loaded, replies: nat -> Reply, now: string)
    requires env.Faithful() && Sound(ld.tm) && DistinctKeys(pairs)
    ensures var r := Compute(env, force, pairs, ld, replies, now);
            r.Ok? ==> forall p <- pairs :: Outcome(env, ld, r.value, p.0, p.1)
  {
    var st := KeyLoop(env, ld, TextHashes(ld.tm.Values(), env.locale), pairs);
    var r := Compute(env, force, pairs, ld, replies, now);
    KeyLoopInv(env, ld, pairs);
    KeyLoopChooses(env, ld, pairs);
    ComputeSettles(env, force, pairs, ld, replies, now);
    if r.Ok? {
      if env.allowTranslate {
        ProviderRun(env, force, pairs, ld, replies, now);
        TranslatedKeeps(env, pairs, st, r.value);
        forall p | p in pairs
          ensures Outcome(env, ld, r.value, p.0, p.1)
        {
          assert Chosen(env, ld, st, p.0, p.1) && Settled(env, r.value, p.0, p.1);
        }
      } else {
        FallbackKeeps(env, ld, force, pairs, st);
      }
    }
  }

  /** Translating changes no value that the key loop has chosen. */
  lemma TranslatedKeeps(env: Env, pairs: seq<(string, string)>, st: State, st': State)
    requires PendingFrom(env, pairs, st) && Translated(st, st')
    ensures st'.fallback == st.fallback
    ensures forall k | k in st.next :: k in st'.next && st'.next[k] == st.next[k]
  {
    forall k | k in st.next
      ensures NoKey(st.pending, k)
    {
    }
  }

  lemma FallbackKeeps(env: Env, ld: Loaded, force: bool, pairs: seq<(string, string)>, st: State)
    requires !env.allowTranslate && Sound(ld.tm) && DistinctKeys(pairs)
    requires LoopInv(env, ld, pairs, st) && AllChosen(env, ld, pairs, st)
    ensures forall p <- pairs :: Outcome(env, ld, FallbackLoop(ld, force, st, st.pending), p.0, p.1)
  {
    var st' := FallbackLoop(ld, force, st, st.pending);
    forall it | it in st.pending
      ensures it.key !in st.next && it.key !in ld.existing
    {
      assert KeyDone(env, ld, st, it.key, it.text);
    }
    forall a, b | a in st.pending && b in st.pending && a.key == b.key
      ensures a.text == b.text
    {
      var i :| 0 <= i < |pairs| && pairs[i] == (a.key, a.text);
      var j :| 0 <= j < |pairs| && pairs[j] == (b.key, b.text);
      assert i == j;
    }
    FallbackLoopFills(ld, force, st, st.pending);
    FallbackIsEnglish(ld, force, st, st.pending);
    forall p | p in pairs
      ensures Outcome(env, ld, st', p.0, p.1)
    {
      assert Chosen(env, ld, st, p.0, p.1) && KeyDone(env, ld, st, p.0, p.1);
      if p.0 in st.next {
        assert NoKey(st.pending, p.0);
      } else {
        assert Item(p.0, p.1, SegmentKey(env, p.0, p.1), HashText(env, p.1)) in st.pending;
      }
    }
  }

  // ---------- entries that a run leaves alone ----------

  ghost predicate NoSegment(env: Env, pairs: seq<(string, string)>, c: string) {
    forall p <- pairs :: SegmentKey(env, p.0, p.1) != c
  }

  lemma StepAgrees(env: Env, ld: Loaded, init: seq<(string, string)>, k: string, t: string, c: string)
    requires env.Faithful() && Sound(ld.tm) && DistinctKeys(init) && SegmentKey(env, k, t) != c
    ensures var byText := TextHashes(ld.tm.Values(), env.locale);
            var st := KeyLoop(env, ld, byText, init);
            Agree(KeyStep(env, ld, byText, st, k, t).tm.at, st.tm.at, c)
  {
    KeyLoopInv(env, ld, init);
    KeyStepFrame(env, ld, KeyLoop(env, ld, TextHashes(ld.tm.Values(), env.locale), init), k, t);
  }

  lemma {:induction false} KeyLoopTouches(env: Env, ld: Loaded, pairs: seq<(string, string)>, c: string)
    requires env.Faithful() && Sound(ld.tm) && DistinctKeys(pairs) && NoSegment(env, pairs, c)
    ensures Agree(KeyLoop(env, ld, TextHashes(ld.tm.Values(), env.locale), pairs).tm.at, ld.tm.at, c)
  {
    if pairs != [] {
      var init, last := pairs[..|pairs| - 1], pairs[|pairs| - 1];
      assert last in pairs && forall p <- init :: p in pairs;
      LastKeyNew(pairs);
      KeyLoopTouches(env, ld, init, c);
      StepAgrees(env, ld, init, last.0, last.1, c);
    }
  }

  /** A run touches the memory only at the segments of the source: every other entry is
      kept unchanged, and none is ever removed. */
  lemma MemoryConserved(env: Env, force: bool, pairs: seq<(string, string)>, ld: Loaded, replies: nat -> Reply, now: string, c: string)
    requires env.Faithful() && Sound(ld.tm) && DistinctKeys(pairs) && NoSegment(env, pairs, c)
    ensures var r := Compute(env, force, pairs, ld, replies, now);
            r.Ok? ==> Agree(r.value.tm.at, ld.tm.at, c)
  {
    var st := KeyLoop(env, ld, TextHashes(ld.tm.Values(), env.locale), pairs);
    KeyLoopTouches(env, ld, pairs, c);
    KeyLoopInv(env, ld, pairs);
    if env.allowTranslate {
      ProviderRun(env, force, pairs, ld, replies, now);
      forall it | it in st.pending
        ensures it.cacheKey != c
      {
        assert (it.key, it.text) in pairs;
      }
      assert NoCacheKey(st.pending, c);
    } else {
      FallbackLoopKeeps(ld, force, st, st.pending);
    }
  }
}
