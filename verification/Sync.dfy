/** `syncLocale`: picks a value for every source key, keeps the translation memory and
    the metadata up to date and rewrites the files when anything changed. */
module Sync {
  import opened Text
  import opened Sorting
  import opened Tree
  import opened Rebuilding
  import opened Memory
  import opened Batching
  import opened Translating

  const CONTROL_UI_I18N_WORKFLOW := 1

  datatype Meta = Meta(
    fallbackKeys: seq<string>, generatedAt: string, locale: string, model: string, provider: string,
    sourceHash: string, totalKeys: int, translatedKeys: int, workflow: int)

  type Glossary = seq<(string, string)>

  /** How a value is written to a file and read back; `parse` fails on other text. */
  datatype Codec<!T> = Codec(render: T -> string, parse: string -> Option<T>)

  /** Objects that report the same keys with the same texts, in whatever order. */
  ghost predicate SameReports(a: Kids, b: Kids) {
    multiset(Flatten(a, "")) == multiset(Flatten(b, ""))
  }

  /** Settings and services that stay the same from run to run. `collate` is
      `localeCompare` as an order. */
  datatype Env = Env(
    locale: string, fileName: string, provider: string, model: string, allowTranslate: bool, budget: real,
    sha: string -> string, collate: (string, string) -> bool, defaultGlossary: Glossary,
    entries: EntryCodec, metas: Codec<Meta>, glossaries: Codec<Glossary>, modules: Codec<Kids>)
  {
    /** sha256 has no collisions and its digests hold no bar, collation is a total
        preorder, and every file written reads back as what was written, an object with
        its keys in any order. */
    ghost predicate Faithful() {
      && (forall x, y :: sha(x) == sha(y) ==> x == y)
      && (forall x :: sha(x) != "" && '|' !in sha(x))
      && TotalPreorder(collate)
      && entries.Inverse()
      && (forall m :: metas.render(m) != "" && metas.parse(metas.render(m)) == Some(m))
      && (forall g :: glossaries.render(g) != "" && glossaries.parse(glossaries.render(g)) == Some(g))
      && (forall kids | IsObject(kids) ::
            modules.render(kids) != "" && modules.parse(modules.render(kids)).Some? &&
            SameReports(kids, modules.parse(modules.render(kids)).value))
    }
  }

  datatype Options = Options(checkOnly: bool, force: bool, write: bool)

  /** The English module: its text and the object it exports. */
  datatype Source = Source(raw: string, tree: Kids)

  /** The four files of one locale. */
  datatype Disk = Disk(locale: Option<string>, meta: Option<string>, glossary: Option<string>, tm: Option<string>)

  datatype Loaded = Loaded(existing: map<string, string>, meta: Option<Meta>, glossary: Glossary, tm: JsMap<Entry>)

  /** The variables that the loops of `syncLocale` update. */
  datatype State = State(next: map<string, string>, tm: JsMap<Entry>, fallback: seq<string>, pending: seq<Item>)

  datatype Report = Report(
    changed: bool, fallbackCount: nat, wrote: bool, disk: Disk, state: State, meta: Meta)

  // ---------- hashes and keys ----------

  function NormalizeText(text: string): string {
    Join(Words(text, IsSpace), ' ')
  }

  function HashText(env: Env, text: string): string {
    env.sha(NormalizeText(text))
  }

  function CacheNamespace(env: Env): string {
    Join(["wf=1", "engine=pi", "provider=" + env.provider, "model=" + env.model], '|')
  }

  function CacheKey(env: Env, segmentId: string, textHash: string): string {
    env.sha(Join([CacheNamespace(env), "en", env.locale, segmentId, textHash], '|'))
  }

  // ---------- loading ----------

  function LoadFile<T>(codec: Codec<T>, file: Option<string>): Result<Option<T>> {
    match file
    case None => Ok(None)
    case Some(text) =>
      match codec.parse(text)
      case None => Thrown("cannot load file")
      case Some(x) => Ok(Some(x))
  }

  function FileText(file: Option<string>): string {
    match file
    case None => ""
    case Some(text) => text
  }

  function LoadDisk(env: Env, disk: Disk): Result<Loaded> {
    match (LoadFile(env.modules, disk.locale), LoadFile(env.metas, disk.meta),
           LoadFile(env.glossaries, disk.glossary), Load(env.entries, FileText(disk.tm)))
    case (Ok(kids), Ok(meta), Ok(glossary), Ok(tm)) =>
      Ok(Loaded(
        MapOf(Flatten(if kids.Some? then kids.value else Nil, "")), meta,
        if glossary.Some? then glossary.value else [], tm))
    case _ => Thrown("cannot load file")
  }

  /** A map after a series of `set` calls. */
  function SetAll(m: JsMap<string>, pairs: seq<(string, string)>): (r: JsMap<string>)
    ensures m.Valid() ==> r.Valid()
  {
    if pairs == [] then m
    else
      var last := pairs[|pairs| - 1];
      SetAll(m, pairs[..|pairs| - 1]).Set(last.0, last.1)
  }

  function FromPairs(pairs: seq<(string, string)>): (m: JsMap<string>)
    ensures m.Valid()
  {
    SetAll(JsMap([], map[]), pairs)
  }

  /** `sourceFlat.entries()`. */
  function SourcePairs(source: Source): (pairs: seq<(string, string)>)
    ensures DistinctKeys(pairs)
  {
    var m := FromPairs(Flatten(source.tree, ""));
    seq(|m.order|, i requires 0 <= i < |m.order| => assert m.order[i] in m.order; (m.order[i], m.at[m.order[i]]))
  }

  predicate WasFallback(ld: Loaded, key: string) {
    ld.meta.Some? && key in ld.meta.value.fallbackKeys
  }

  // ---------- the key loop ----------

  function SourcePath(env: Env): string {
    "ui/src/i18n/locales/" + env.fileName
  }

  function KeyStep(env: Env, ld: Loaded, byText: map<string, Entry>, st: State, key: string, text: string): State {
    var textHash := HashText(env, text);
    var segmentKey := CacheKey(env, key, textHash);
    var refresh := WasFallback(ld, key);
    if segmentKey in st.tm.at && !(env.allowTranslate && refresh) then
      st.(next := st.next[key := st.tm.at[segmentKey].translated],
          fallback := if refresh then st.fallback + [key] else st.fallback)
    else if textHash in byText && (refresh || key !in ld.existing) then
      var e := byText[textHash];
      st.(next := st.next[key := e.translated],
          tm := st.tm.Set(segmentKey, e.(cacheKey := segmentKey, segmentId := key, sourcePath := SourcePath(env))))
    else if key in ld.existing && !(env.allowTranslate && refresh) then
      st.(next := st.next[key := ld.existing[key]],
          fallback := if refresh then st.fallback + [key] else st.fallback)
    else
      st.(pending := st.pending + [Item(key, text, segmentKey, textHash)])
  }

  function KeyLoop(env: Env, ld: Loaded, byText: map<string, Entry>, pairs: seq<(string, string)>): State {
    if pairs == [] then State(map[], ld.tm, [], [])
    else
      var (key, text) := pairs[|pairs| - 1];
      KeyStep(env, ld, byText, KeyLoop(env, ld, byText, pairs[..|pairs| - 1]), key, text)
  }

  // ---------- translating the pending keys ----------

  function NewEntry(env: Env, item: Item, value: string, now: string): Entry {
    Entry(item.cacheKey, env.model, env.provider, item.key, SourcePath(env), "en", item.text, item.textHash,
          env.locale, value, now)
  }

  function StoreBatch(env: Env, now: string, batch: seq<Item>, translated: map<string, string>, st: State): State {
    if batch == [] then st
    else
      var item := batch[|batch| - 1];
      var st' := StoreBatch(env, now, batch[..|batch| - 1], translated, st);
      if item.key !in translated || translated[item.key] == "" then st'
      else
        var value := translated[item.key];
        st'.(next := st'.next[item.key := value], tm := st'.tm.Set(item.cacheKey, NewEntry(env, item, value, now)))
  }

  function TranslateAll(env: Env, now: string, replies: nat -> Reply, batches: seq<seq<Item>>, st: State, w: World): Result<State>
    decreases |batches|
  {
    if batches == [] then Ok(st)
    else
      var (r, w') := TranslateBatch(replies, batches[0], 0, w);
      match r
      case Thrown(m) => Thrown(m)
      case Ok(translated) =>
        TranslateAll(env, now, replies, batches[1..], StoreBatch(env, now, batches[0], translated, st), w')
  }

  // ---------- the fallback loop ----------

  function FallbackStep(ld: Loaded, force: bool, st: State, item: Item): State {
    if item.key in st.next then st
    else if item.key in ld.existing && !force then
      st.(next := st.next[item.key := ld.existing[item.key]],
          fallback := if WasFallback(ld, item.key) then st.fallback + [item.key] else st.fallback)
    else
      st.(next := st.next[item.key := item.text], fallback := st.fallback + [item.key])
  }

  function FallbackLoop(ld: Loaded, force: bool, st: State, items: seq<Item>): State {
    if items == [] then st
    else FallbackStep(ld, force, FallbackLoop(ld, force, st, items[..|items| - 1]), items[|items| - 1])
  }

  function Compute(env: Env, force: bool, pairs: seq<(string, string)>, ld: Loaded, replies: nat -> Reply, now: string)
    : Result<State>
    requires ld.tm.Valid()
  {
    var st := KeyLoop(env, ld, TextHashes(ld.tm.Values(), env.locale), pairs);
    var translated := if env.allowTranslate && st.pending != []
                      then TranslateAll(env, now, replies, Batches(st.pending, env.budget), st, Start)
                      else Ok(st);
    match translated
    case Thrown(m) => Thrown(m)
    case Ok(st') => Ok(FallbackLoop(ld, force, st', st'.pending))
  }

  // ---------- metadata and files ----------

  /** `[...new Set(keys)]`. */
  function Dedup(keys: seq<string>): seq<string> {
    if keys == [] then []
    else
      var init := Dedup(keys[..|keys| - 1]);
      if keys[|keys| - 1] in init then init else init + [keys[|keys| - 1]]
  }

  function SortedFallback(env: Env, st: State): seq<string> {
    Sort(Dedup(st.fallback), env.collate)
  }

  function NextMeta(env: Env, source: Source, total: nat, previous: Option<Meta>, st: State, now: string): Meta {
    var provider := if env.allowTranslate then env.provider else if previous.Some? then previous.value.provider else "";
    var model := if env.allowTranslate then env.model else if previous.Some? then previous.value.model else "";
    var keys := SortedFallback(env, st);
    var translatedKeys := total - |keys|;
    var semanticMetaChanged :=
      previous.None? || previous.value.locale != env.locale || previous.value.sourceHash != env.sha(source.raw) ||
      previous.value.provider != provider || previous.value.model != model || previous.value.totalKeys != total ||
      previous.value.translatedKeys != translatedKeys || previous.value.workflow != CONTROL_UI_I18N_WORKFLOW ||
      previous.value.fallbackKeys != keys;
    Meta(keys, if semanticMetaChanged then now else previous.value.generatedAt, env.locale, model, provider,
         env.sha(source.raw), total, translatedKeys, CONTROL_UI_I18N_WORKFLOW)
  }

  /** The assignments that build `nextMap`. */
  function Assignments(pairs: seq<(string, string)>, next: map<string, string>): seq<(string, string)> {
    seq(|pairs|, i requires 0 <= i < |pairs| =>
      (pairs[i].0, if pairs[i].0 in next then next[pairs[i].0] else pairs[i].1))
  }

  /** Writes a memory file: an empty text creates no file. */
  function WriteMemory(file: Option<string>, text: string): Option<string> {
    if text != "" then Some(text) else if file.Some? then Some("") else None
  }

  function Finish(env: Env, opts: Options, source: Source, pairs: seq<(string, string)>, disk: Disk, ld: Loaded, st: State,
                  now: string): Report
    requires st.tm.Valid()
  {
    FinishWith(env, opts, source, |pairs|, Rebuild(Nil, Assignments(pairs, st.next)), disk, ld, st, now)
  }

  /** The same with `nextMap` already built. */
  function FinishWith(env: Env, opts: Options, source: Source, total: nat, nextMap: Kids, disk: Disk, ld: Loaded, st: State,
                      now: string): Report
    requires st.tm.Valid()
  {
    var meta := NextMeta(env, source, total, ld.meta, st, now);
    var locale := env.modules.render(nextMap);
    var metaText := env.metas.render(meta);
    var glossary := env.glossaries.render(if ld.glossary == [] then env.defaultGlossary else ld.glossary);
    var tm := Render(env.entries, st.tm, env.collate);
    var changed := FileText(disk.locale) != locale || FileText(disk.meta) != metaText ||
                   FileText(disk.glossary) != glossary || FileText(disk.tm) != tm;
    var fallbackCount := |meta.fallbackKeys|;
    if !changed || (ld.meta.Some? && ld.meta.value.sourceHash == meta.sourceHash && !opts.force && !opts.checkOnly && !opts.write)
    then Report(changed, fallbackCount, false, disk, st, meta)
    else if !opts.checkOnly && opts.write
    then Report(changed, fallbackCount, true,
                Disk(Some(locale), Some(metaText), Some(glossary), WriteMemory(disk.tm, tm)), st, meta)
    else Report(changed, fallbackCount, false, disk, st, meta)
  }

  lemma {:induction false} KeyLoopValid(env: Env, ld: Loaded, byText: map<string, Entry>, pairs: seq<(string, string)>)
    requires ld.tm.Valid()
    ensures KeyLoop(env, ld, byText, pairs).tm.Valid()
  {
    if pairs != [] {
      KeyLoopValid(env, ld, byText, pairs[..|pairs| - 1]);
    }
  }

  lemma {:induction false} StoreBatchValid(env: Env, now: string, batch: seq<Item>, translated: map<string, string>, st: State)
    requires st.tm.Valid()
    ensures StoreBatch(env, now, batch, translated, st).tm.Valid()
  {
    if batch != [] {
      StoreBatchValid(env, now, batch[..|batch| - 1], translated, st);
    }
  }

  lemma {:induction false} TranslateAllValid(env: Env, now: string, replies: nat -> Reply, batches: seq<seq<Item>>, st: State, w: World)
    requires st.tm.Valid()
    ensures var r := TranslateAll(env, now, replies, batches, st, w); r.Ok? ==> r.value.tm.Valid()
    decreases |batches|
  {
    if batches != [] {
      var (r, w') := TranslateBatch(replies, batches[0], 0, w);
      if r.Ok? {
        StoreBatchValid(env, now, batches[0], r.value, st);
        TranslateAllValid(env, now, replies, batches[1..], StoreBatch(env, now, batches[0], r.value, st), w');
      }
    }
  }

  lemma {:induction false} FallbackLoopKeeps(ld: Loaded, force: bool, st: State, items: seq<Item>)
    ensures FallbackLoop(ld, force, st, items).tm == st.tm
    ensures FallbackLoop(ld, force, st, items).pending == st.pending
  {
    if items != [] {
      FallbackLoopKeeps(ld, force, st, items[..|items| - 1]);
    }
  }

  lemma ComputeValid(env: Env, force: bool, pairs: seq<(string, string)>, ld: Loaded, replies: nat -> Reply, now: string)
    requires ld.tm.Valid()
    ensures var r := Compute(env, force, pairs, ld, replies, now); r.Ok? ==> r.value.tm.Valid()
  {
    var byText := TextHashes(ld.tm.Values(), env.locale);
    var st := KeyLoop(env, ld, byText, pairs);
    KeyLoopValid(env, ld, byText, pairs);
    TranslateAllValid(env, now, replies, Batches(st.pending, env.budget), st, Start);
    var r := if env.allowTranslate && st.pending != []
             then TranslateAll(env, now, replies, Batches(st.pending, env.budget), st, Start) else Ok(st);
    if r.Ok? {
      FallbackLoopKeeps(ld, force, r.value, r.value.pending);
    }
  }

  /** One run of `syncLocale`. The translator answers attempt `n` with `replies(n)`. */
  function SyncLocale(env: Env, opts: Options, source: Source, disk: Disk, replies: nat -> Reply, now: string): Result<Report> {
    match LoadDisk(env, disk)
    case Thrown(m) => Thrown(m)
    case Ok(ld) =>
      LoadSound(env.entries, Split(FileText(disk.tm), '\n'));
      var pairs := SourcePairs(source);
      ComputeValid(env, opts.force, pairs, ld, replies, now);
      match Compute(env, opts.force, pairs, ld, replies, now)
      case Thrown(m) => Thrown(m)
      case Ok(st) => Ok(Finish(env, opts, source, pairs, disk, ld, st, now))
  }

  // ---------- the script's own loops ----------

  /** `flattenTranslations`: sets every leaf in `out`, object by object. */
  method FlattenTranslations(kids: Kids, prefix: string, out: JsMap<string>) returns (r: JsMap<string>)
    ensures r == SetAll(out, Flatten(kids, prefix))
    decreases kids
  {
    r := out;
    var entries := kids;
    while entries.Cons?
      invariant SetAll(r, Flatten(entries, prefix)) == SetAll(out, Flatten(kids, prefix))
      invariant entries == kids || entries < kids
      decreases entries
    {
      var fullKey := FullKey(prefix, entries.key);
      match entries.value {
        case Leaf(text) =>
          SetAllConcat(r, [(fullKey, text)], Flatten(entries.rest, prefix));
          assert [(fullKey, text)][..0] == [];
          r := r.Set(fullKey, text);
        case Node(nested) =>
          SetAllConcat(r, Flatten(nested, fullKey), Flatten(entries.rest, prefix));
          r := FlattenTranslations(nested, fullKey, r);
      }
      entries := entries.rest;
    }
  }

  lemma {:induction false} SetAllConcat(m: JsMap<string>, a: seq<(string, string)>, b: seq<(string, string)>)
    ensures SetAll(m, a + b) == SetAll(SetAll(m, a), b)
  {
    if b == [] {
      assert a + b == a;
    } else {
      assert (a + b)[..|a + b| - 1] == a + b[..|b| - 1];
      SetAllConcat(m, a, b[..|b| - 1]);
    }
  }

  /** The loop that builds the object of the locale module. */
  method BuildNextMap(pairs: seq<(string, string)>, nextFlat: map<string, string>) returns (nextMap: Kids)
    ensures nextMap == Rebuild(Nil, Assignments(pairs, nextFlat))
  {
    nextMap := Nil;
    ghost var all := Assignments(pairs, nextFlat);
    for i := 0 to |pairs|
      invariant Rebuild(nextMap, all[i..]) == Rebuild(Nil, all)
    {
      var (key, value) := pairs[i];
      assert all[i..][1..] == all[i + 1..];
      nextMap := SetNestedValue(nextMap, key, if key in nextFlat then nextFlat[key] else value);
    }
  }

  method KeyLoopMethod(env: Env, ld: Loaded, pairs: seq<(string, string)>) returns (st: State)
    requires ld.tm.Valid()
    ensures st == KeyLoop(env, ld, TextHashes(ld.tm.Values(), env.locale), pairs)
  {
    var tmByTextHash := BuildTranslationMemoryByTextHash(ld.tm, env.locale);
    var nextFlat: map<string, string>, tm, fallbackKeys: seq<string>, pending: seq<Item> := map[], ld.tm, [], [];
    for i := 0 to |pairs|
      invariant KeyLoop(env, ld, tmByTextHash, pairs[..i]) == State(nextFlat, tm, fallbackKeys, pending)
    {
      assert pairs[..i + 1][..i] == pairs[..i];
      var (key, text) := pairs[i];
      var textHash := HashText(env, text);
      var segmentCacheKey := CacheKey(env, key, textHash);
      var shouldRefreshFallback := WasFallback(ld, key);
      if segmentCacheKey in tm.at && !(env.allowTranslate && shouldRefreshFallback) {
        nextFlat := nextFlat[key := tm.at[segmentCacheKey].translated];
        if shouldRefreshFallback {
          fallbackKeys := fallbackKeys + [key];
        }
        continue;
      }
      if textHash in tmByTextHash && (shouldRefreshFallback || key !in ld.existing) {
        var cachedByText := tmByTextHash[textHash];
        nextFlat := nextFlat[key := cachedByText.translated];
        tm := tm.Set(segmentCacheKey,
                     cachedByText.(cacheKey := segmentCacheKey, segmentId := key, sourcePath := SourcePath(env)));
        continue;
      }
      if key in ld.existing && !(env.allowTranslate && shouldRefreshFallback) {
        nextFlat := nextFlat[key := ld.existing[key]];
        if shouldRefreshFallback {
          fallbackKeys := fallbackKeys + [key];
        }
        continue;
      }
      pending := pending + [Item(key, text, segmentCacheKey, textHash)];
    }
    assert pairs[..|pairs|] == pairs;
    st := State(nextFlat, tm, fallbackKeys, pending);
  }

  method StoreBatchMethod(env: Env, now: string, batch: seq<Item>, translated: map<string, string>, before: State)
    returns (st: State)
    ensures st == StoreBatch(env, now, batch, translated, before)
  {
    st := before;
    for i := 0 to |batch|
      invariant st == StoreBatch(env, now, batch[..i], translated, before)
    {
      assert batch[..i + 1][..i] == batch[..i];
      var item := batch[i];
      if item.key !in translated || translated[item.key] == "" {
        continue;
      }
      var value := translated[item.key];
      st := st.(next := st.next[item.key := value], tm := st.tm.Set(item.cacheKey, NewEntry(env, item, value, now)));
    }
    assert batch[..|batch|] == batch;
  }

  method TranslatePending(env: Env, now: string, replies: nat -> Reply, st0: State) returns (r: Result<State>)
    ensures r == TranslateAll(env, now, replies, Batches(st0.pending, env.budget), st0, Start)
  {
    hide TranslateBatch, StoreBatch, Batches;
    var batches := BuildTranslationBatches(st0.pending, env.budget);
    var access := new ClientAccess();
    var st := st0;
    for b := 0 to |batches|
      invariant fresh(access)
      invariant TranslateAll(env, now, replies, batches[b..], st, access.Now())
             == TranslateAll(env, now, replies, batches, st0, Start)
    {
      var batch := batches[b];
      assert batches[b..][1..] == batches[b + 1..];
      var translated := access.Translate(replies, batch, 0);
      if translated.Thrown? {
        return Thrown(translated.message);
      }
      st := StoreBatchMethod(env, now, batch, translated.value, st);
    }
    access.ResetClient();
    r := Ok(st);
  }

  method FallbackMethod(ld: Loaded, force: bool, before: State) returns (st: State)
    ensures st == FallbackLoop(ld, force, before, before.pending)
  {
    st := before;
    var pending := before.pending;
    for i := 0 to |pending|
      invariant st == FallbackLoop(ld, force, before, pending[..i])
    {
      assert pending[..i + 1][..i] == pending[..i];
      var item := pending[i];
      if item.key in st.next {
        continue;
      }
      if item.key in ld.existing && !force {
        st := st.(next := st.next[item.key := ld.existing[item.key]]);
        if WasFallback(ld, item.key) {
          st := st.(fallback := st.fallback + [item.key]);
        }
        continue;
      }
      st := st.(next := st.next[item.key := item.text], fallback := st.fallback + [item.key]);
    }
    assert pending[..|pending|] == pending;
  }

  method ComputeMethod(env: Env, force: bool, pairs: seq<(string, string)>, ld: Loaded, replies: nat -> Reply, now: string)
    returns (r: Result<State>)
    requires ld.tm.Valid()
    ensures r == Compute(env, force, pairs, ld, replies, now)
  {
    var st := KeyLoopMethod(env, ld, pairs);
    if env.allowTranslate && |st.pending| > 0 {
      var translated := TranslatePending(env, now, replies, st);
      if translated.Thrown? {
        return Thrown(translated.message);
      }
      st := translated.value;
    }
    st := FallbackMethod(ld, force, st);
    r := Ok(st);
  }

  /** The whole of `syncLocale`, in its own steps. */
  method SyncLocaleMethod(env: Env, opts: Options, source: Source, disk: Disk, replies: nat -> Reply, now: string)
    returns (r: Result<Report>)
    ensures r == SyncLocale(env, opts, source, disk, replies, now)
  {
    var loaded := LoadDisk(env, disk);
    if loaded.Thrown? {
      return Thrown(loaded.message);
    }
    LoadSound(env.entries, Split(FileText(disk.tm), '\n'));
    var pairs := SourcePairs(source);
    var computed := ComputeMethod(env, opts.force, pairs, loaded.value, replies, now);
    if computed.Thrown? {
      return Thrown(computed.message);
    }
    ComputeValid(env, opts.force, pairs, loaded.value, replies, now);
    var nextMap := BuildNextMap(pairs, computed.value.next);
    r := Ok(FinishWith(env, opts, source, |pairs|, nextMap, disk, loaded.value, computed.value, now));
  }
}
