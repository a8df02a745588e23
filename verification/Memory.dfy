/** The translation memory: an insertion-ordered map stored as one JSON line per entry. */
module Memory {
  import opened Text
  import opened Sorting

  /** A JavaScript `Map`: iteration follows the order of first insertion. */
  datatype JsMap<V> = JsMap(order: seq<string>, at: map<string, V>) {
    ghost predicate Valid() {
      && Distinct(order)
      && (forall k :: k in order <==> k in at)
    }

    function Set(key: string, value: V): (r: JsMap<V>)
      ensures Valid() ==> r.Valid()
    {
      if key in at then JsMap(order, at[key := value]) else JsMap(order + [key], at[key := value])
    }

    /** `[...map.values()]`. */
    function Values(): seq<V>
      requires Valid()
    {
      seq(|order|, i requires 0 <= i < |order| =>
        assert order[i] in order; at[order[i]])
    }
  }

  datatype Entry = Entry(
    cacheKey: string, model: string, provider: string, segmentId: string, sourcePath: string,
    srcLang: string, text: string, textHash: string, tgtLang: string, translated: string,
    updatedAt: string)

  /** JSON for one entry: `parse` throws on text that is not an entry. */
  datatype EntryCodec = EntryCodec(encode: Entry -> string, parse: string -> Option<Entry>) {
    /** Encoding is undone by parsing and yields one trimmed, non-empty line. */
    ghost predicate Inverse() {
      forall e :: parse(encode(e)) == Some(e) && encode(e) != "" && Tight(encode(e)) && '\n' !in encode(e)
    }
  }

  predicate Loadable(e: Entry) {
    e.cacheKey != "" && !Blank(e.translated)
  }

  /** Every entry is stored under its own cache key and would survive a reload. */
  ghost predicate Sound(tm: JsMap<Entry>) {
    && tm.Valid()
    && (forall k <- tm.at :: tm.at[k].cacheKey == k && Loadable(tm.at[k]))
  }

  const Empty: JsMap<Entry> := JsMap([], map[])

  function AddLine(codec: EntryCodec, tm: JsMap<Entry>, line: string): Result<JsMap<Entry>> {
    var trimmed := Trim(line);
    if trimmed == "" then Ok(tm)
    else
      match codec.parse(trimmed)
      case None => Thrown("invalid JSON")
      case Some(e) => Ok(if Loadable(e) then tm.Set(e.cacheKey, e) else tm)
  }

  function LoadLines(codec: EntryCodec, lines: seq<string>): Result<JsMap<Entry>> {
    if lines == [] then Ok(Empty)
    else
      match LoadLines(codec, lines[..|lines| - 1])
      case Thrown(m) => Thrown(m)
      case Ok(tm) => AddLine(codec, tm, lines[|lines| - 1])
  }

  /** `loadTranslationMemory` on the text of the file. */
  function Load(codec: EntryCodec, raw: string): Result<JsMap<Entry>> {
    LoadLines(codec, Split(raw, '\n'))
  }

  /** The loop of `loadTranslationMemory`. */
  method LoadTranslationMemory(codec: EntryCodec, raw: string) returns (r: Result<JsMap<Entry>>)
    ensures r == Load(codec, raw)
    ensures r.Ok? ==> Sound(r.value)
  {
    LoadSound(codec, Split(raw, '\n'));
    var lines := Split(raw, '\n');
    var entries := Empty;
    for i := 0 to |lines|
      invariant LoadLines(codec, lines[..i]) == Ok(entries)
    {
      assert lines[..i + 1][..i] == lines[..i];
      var trimmed := Trim(lines[i]);
      if trimmed != "" {
        match codec.parse(trimmed) {
          case None =>
            LoadThrows(codec, lines, i + 1);
            return Thrown("invalid JSON");
          case Some(parsed) =>
            if parsed.cacheKey != "" && !Blank(parsed.translated) {
              entries := entries.Set(parsed.cacheKey, parsed);
            }
        }
      }
    }
    assert lines[..|lines|] == lines;
    r := Ok(entries);
  }

  lemma {:induction false} LoadThrows(codec: EntryCodec, lines: seq<string>, n: nat)
    requires n <= |lines| && LoadLines(codec, lines[..n]).Thrown?
    ensures LoadLines(codec, lines) == LoadLines(codec, lines[..n])
    decreases |lines|
  {
    if n < |lines| {
      var init := lines[..|lines| - 1];
      assert init[..n] == lines[..n];
      LoadThrows(codec, init, n);
    } else {
      assert lines[..n] == lines;
    }
  }

  /** Whatever the file holds, a loaded memory is sound. */
  lemma {:induction false} LoadSound(codec: EntryCodec, lines: seq<string>)
    ensures LoadLines(codec, lines).Ok? ==> Sound(LoadLines(codec, lines).value)
  {
    if lines != [] {
      LoadSound(codec, lines[..|lines| - 1]);
    }
  }

  function ByCacheKey(collate: (string, string) -> bool): (Entry, Entry) -> bool {
    (a: Entry, b: Entry) => collate(a.cacheKey, b.cacheKey)
  }

  function Ordered(tm: JsMap<Entry>, collate: (string, string) -> bool): seq<Entry>
    requires tm.Valid()
  {
    Sort(tm.Values(), ByCacheKey(collate))
  }

  function Encoded(codec: EntryCodec, entries: seq<Entry>): seq<string> {
    seq(|entries|, i requires 0 <= i < |entries| => codec.encode(entries[i]))
  }

  /** `renderTranslationMemory`: the entries in collation order, one line each. */
  function Render(codec: EntryCodec, tm: JsMap<Entry>, collate: (string, string) -> bool): string
    requires tm.Valid()
  {
    var ordered := Ordered(tm, collate);
    if ordered == [] then "" else Join(Encoded(codec, ordered), '\n') + "\n"
  }

  /** The map that setting these entries in order builds. */
  function FromEntries(entries: seq<Entry>): JsMap<Entry> {
    if entries == [] then Empty
    else
      var last := entries[|entries| - 1];
      FromEntries(entries[..|entries| - 1]).Set(last.cacheKey, last)
  }

  function KeysOf(entries: seq<Entry>): seq<string> {
    seq(|entries|, i requires 0 <= i < |entries| => entries[i].cacheKey)
  }

  lemma LastKeyFresh(entries: seq<Entry>)
    requires Distinct(KeysOf(entries)) && entries != []
    ensures var init := entries[..|entries| - 1];
            Distinct(KeysOf(init)) && forall e <- init :: e.cacheKey != entries[|entries| - 1].cacheKey
  {
    var n := |entries| - 1;
    var init := entries[..n];
    forall i, j | 0 <= i < j < n
      ensures KeysOf(init)[i] != KeysOf(init)[j]
    {
      assert KeysOf(entries)[i] != KeysOf(entries)[j];
    }
    forall e | e in init
      ensures e.cacheKey != entries[n].cacheKey
    {
      var i :| 0 <= i < n && init[i] == e;
      assert KeysOf(entries)[i] != KeysOf(entries)[n];
    }
  }

  lemma {:induction false} FromDistinct(entries: seq<Entry>)
    requires Distinct(KeysOf(entries))
    ensures FromEntries(entries).order == KeysOf(entries)
    ensures forall k <- FromEntries(entries).at :: FromEntries(entries).at[k] in entries && FromEntries(entries).at[k].cacheKey == k
    ensures forall e <- entries :: e.cacheKey in FromEntries(entries).at && FromEntries(entries).at[e.cacheKey] == e
  {
    if entries != [] {
      var n := |entries| - 1;
      var init := entries[..n];
      LastKeyFresh(entries);
      FromDistinct(init);
      assert entries == init + [entries[n]];
      assert KeysOf(entries) == KeysOf(init) + [entries[n].cacheKey];
    }
  }

  lemma {:induction false} LoadEncoded(codec: EntryCodec, entries: seq<Entry>)
    requires codec.Inverse()
    requires forall e <- entries :: Loadable(e)
    ensures LoadLines(codec, Encoded(codec, entries)) == Ok(FromEntries(entries))
  {
    if entries != [] {
      var n := |entries| - 1;
      LoadEncoded(codec, entries[..n]);
      assert Encoded(codec, entries)[..n] == Encoded(codec, entries[..n]);
      TrimTight(codec.encode(entries[n]));
    }
  }

  lemma {:induction false} ValuesOfSound(tm: JsMap<Entry>)
    requires Sound(tm)
    ensures KeysOf(tm.Values()) == tm.order
    ensures forall e :: e in tm.Values() <==> e.cacheKey in tm.at && tm.at[e.cacheKey] == e
  {
    forall e
      ensures e in tm.Values() <==> e.cacheKey in tm.at && tm.at[e.cacheKey] == e
    {
      if e.cacheKey in tm.at && tm.at[e.cacheKey] == e {
        var i :| 0 <= i < |tm.order| && tm.order[i] == e.cacheKey;
        assert tm.Values()[i] == e;
      }
      if e in tm.Values() {
        var i :| 0 <= i < |tm.order| && tm.Values()[i] == e;
        assert tm.order[i] in tm.at;
      }
    }
  }

  lemma OrderedKeys(tm: JsMap<Entry>, collate: (string, string) -> bool)
    requires Sound(tm)
    ensures Distinct(KeysOf(Ordered(tm, collate)))
    ensures forall e :: e in Ordered(tm, collate) <==> e.cacheKey in tm.at && tm.at[e.cacheKey] == e
  {
    var vs, es := tm.Values(), Ordered(tm, collate);
    ValuesOfSound(tm);
    SortPermutes(vs, ByCacheKey(collate));
    forall i, j | 0 <= i < j < |vs|
      ensures vs[i] != vs[j]
    {
      assert KeysOf(vs)[i] != KeysOf(vs)[j];
    }
    PermutedDistinct(vs, es);
    forall i, j | 0 <= i < j < |es|
      ensures KeysOf(es)[i] != KeysOf(es)[j]
    {
      assert es[i] in es && es[j] in es;
    }
  }

  lemma LoadOfRender(codec: EntryCodec, tm: JsMap<Entry>, collate: (string, string) -> bool)
    requires codec.Inverse() && Sound(tm)
    ensures Load(codec, Render(codec, tm, collate)) == Ok(FromEntries(Ordered(tm, collate)))
  {
    var entries := Ordered(tm, collate);
    OrderedKeys(tm, collate);
    assert forall e <- entries :: Loadable(e);
    if entries == [] {
      assert Split("", '\n') == [""] && [""][..0] == [];
      assert LoadLines(codec, []) == Ok(Empty) && Trim("") == "";
      assert LoadLines(codec, [""]) == AddLine(codec, Empty, "");
    } else {
      LoadLinesOf(codec, entries);
    }
  }

  lemma LoadLinesOf(codec: EntryCodec, entries: seq<Entry>)
    requires codec.Inverse() && entries != [] && forall e <- entries :: Loadable(e)
    ensures Load(codec, Join(Encoded(codec, entries), '\n') + "\n") == Ok(FromEntries(entries))
  {
    var lines := Encoded(codec, entries);
    LoadEncoded(codec, entries);
    RenderedLines(lines);
    assert (lines + [""])[..|lines|] == lines;
  }

  lemma FromOrdered(tm: JsMap<Entry>, collate: (string, string) -> bool)
    requires Sound(tm)
    ensures FromEntries(Ordered(tm, collate)).at == tm.at
    ensures FromEntries(Ordered(tm, collate)).order == KeysOf(Ordered(tm, collate))
  {
    var entries := Ordered(tm, collate);
    var back := FromEntries(entries);
    OrderedKeys(tm, collate);
    FromDistinct(entries);
    forall k
      ensures k in back.at <==> k in tm.at
      ensures k in tm.at ==> back.at[k] == tm.at[k]
    {
      if k in tm.at {
        assert tm.at[k] in entries;
      }
    }
  }

  /** Loading a rendered memory gives back the same map, in collation order, and
      rendering it once more gives the same text. */
  lemma LoadRendered(codec: EntryCodec, tm: JsMap<Entry>, collate: (string, string) -> bool)
    requires codec.Inverse() && TotalPreorder(collate)
    requires Sound(tm)
    ensures var r := Load(codec, Render(codec, tm, collate));
            r.Ok? && Sound(r.value) && r.value.at == tm.at && Render(codec, r.value, collate) == Render(codec, tm, collate)
  {
    var entries := Ordered(tm, collate);
    var back := FromEntries(entries);
    LoadOfRender(codec, tm, collate);
    LoadSound(codec, Split(Render(codec, tm, collate), '\n'));
    FromOrdered(tm, collate);
    OrderedKeys(tm, collate);
    assert back.Values() == entries by {
      forall i | 0 <= i < |entries|
        ensures back.at[back.order[i]] == entries[i]
      {
        assert entries[i] in entries && back.order[i] == entries[i].cacheKey;
      }
    }
    SortSortedBy(tm, collate);
    SortFixed(entries, ByCacheKey(collate));
  }

  lemma SortSortedBy(tm: JsMap<Entry>, collate: (string, string) -> bool)
    requires TotalPreorder(collate) && tm.Valid()
    ensures SortedBy(Ordered(tm, collate), ByCacheKey(collate))
  {
    var le := ByCacheKey(collate);
    assert TotalPreorder(le) by {
      assert forall x, y :: le(x, y) == collate(x.cacheKey, y.cacheKey);
    }
    SortSorted(tm.Values(), le);
  }

  lemma RenderedLines(lines: seq<string>)
    requires lines != [] && forall l <- lines :: '\n' !in l
    ensures Split(Join(lines, '\n') + "\n", '\n') == lines + [""]
  {
    JoinLast(lines);
    SplitJoin(lines + [""], '\n');
  }

  lemma {:induction false} JoinLast(lines: seq<string>)
    requires lines != []
    ensures Join(lines + [""], '\n') == Join(lines, '\n') + "\n"
  {
    if |lines| > 1 {
      JoinLast(lines[1..]);
      assert (lines + [""])[1..] == lines[1..] + [""];
    } else {
      assert (lines + [""])[1..] == [""];
    }
  }

  // ---------- entries by text hash ----------

  predicate Usable(e: Entry, locale: string) {
    e.tgtLang == locale && e.textHash != "" && !Blank(e.translated)
  }

  function TextHashes(entries: seq<Entry>, locale: string): map<string, Entry> {
    if entries == [] then map[]
    else
      var last := entries[|entries| - 1];
      var m := TextHashes(entries[..|entries| - 1], locale);
      if Usable(last, locale) then m[last.textHash := last] else m
  }

  lemma {:induction false} TextHashesLaw(entries: seq<Entry>, locale: string)
    ensures forall h :: h in TextHashes(entries, locale) <==> exists e :: e in entries && Usable(e, locale) && e.textHash == h
    ensures forall h <- TextHashes(entries, locale) ::
              var e := TextHashes(entries, locale)[h]; e in entries && Usable(e, locale) && e.textHash == h
  {
    if entries != [] {
      TextHashesLaw(entries[..|entries| - 1], locale);
      assert entries == entries[..|entries| - 1] + [entries[|entries| - 1]];
    }
  }

  /** `buildTranslationMemoryByTextHash`: the last usable entry of each text wins. */
  method BuildTranslationMemoryByTextHash(tm: JsMap<Entry>, locale: string) returns (m: map<string, Entry>)
    requires tm.Valid()
    ensures m == TextHashes(tm.Values(), locale)
  {
    var values := tm.Values();
    m := map[];
    for i := 0 to |values|
      invariant m == TextHashes(values[..i], locale)
    {
      assert values[..i + 1][..i] == values[..i];
      if values[i].tgtLang != locale || values[i].textHash == "" || Blank(values[i].translated) {
        continue;
      }
      m := m[values[i].textHash := values[i]];
    }
    assert values[..|values|] == values;
  }

  /** Of several usable entries with the same text the last one in the file is used. */
  lemma {:induction false} LastEntryWins(entries: seq<Entry>, locale: string, i: nat)
    requires i < |entries| && Usable(entries[i], locale)
    requires forall j | i < j < |entries| && Usable(entries[j], locale) :: entries[j].textHash != entries[i].textHash
    ensures entries[i].textHash in TextHashes(entries, locale)
    ensures TextHashes(entries, locale)[entries[i].textHash] == entries[i]
  {
    var n := |entries| - 1;
    if i < n {
      LastEntryWins(entries[..n], locale, i);
    }
  }

  /** Some usable entry of the memory carries this text hash. */
  ghost predicate HasText(tm: JsMap<Entry>, locale: string, hash: string) {
    exists k :: k in tm.at && Usable(tm.at[k], locale) && tm.at[k].textHash == hash
  }

  lemma HashesAreTexts(tm: JsMap<Entry>, locale: string, hash: string)
    requires Sound(tm)
    ensures hash in TextHashes(tm.Values(), locale) <==> HasText(tm, locale, hash)
    ensures hash in TextHashes(tm.Values(), locale) ==>
              var e := TextHashes(tm.Values(), locale)[hash]; Usable(e, locale) && e.textHash == hash
  {
    ValuesOfSound(tm);
    TextHashesLaw(tm.Values(), locale);
    if HasText(tm, locale, hash) {
      var k :| k in tm.at && Usable(tm.at[k], locale) && tm.at[k].textHash == hash;
      assert tm.at[k] in tm.Values();
    }
  }

  // ---------- what the file says ----------

  /** Line `i` holds this entry, it can be used, and no later line has one with its key. */
  ghost predicate LastLine(codec: EntryCodec, lines: seq<string>, i: nat, e: Entry) {
    && i < |lines| && Trim(lines[i]) != "" && codec.parse(Trim(lines[i])) == Some(e)
    && e.cacheKey != "" && Trim(e.translated) != ""
    && forall j | i < j < |lines| && Trim(lines[j]) != "" && codec.parse(Trim(lines[j])).Some? ::
         codec.parse(Trim(lines[j])).value.cacheKey != e.cacheKey ||
         Trim(codec.parse(Trim(lines[j])).value.translated) == ""
  }

  /** Loading throws exactly if some line that is not blank cannot be parsed; otherwise the
      memory holds under each key the entry of the last usable line with that key. */
  lemma {:induction false} LoadsExactly(codec: EntryCodec, lines: seq<string>, k: string, e: Entry)
    ensures LoadLines(codec, lines).Thrown? <==> exists line :: line in lines && Trim(line) != "" && codec.parse(Trim(line)).None?
    ensures LoadLines(codec, lines).Ok? ==>
              var tm := LoadLines(codec, lines).value;
              (k in tm.at && tm.at[k] == e) <==> e.cacheKey == k && exists i: nat :: LastLine(codec, lines, i, e)
  {
    hide Trim;
    if lines != [] {
      var n := |lines| - 1;
      LoadsExactly(codec, lines[..n], k, e);
      assert lines == lines[..n] + [lines[n]];
      if LoadLines(codec, lines).Ok? {
        LineDecides(codec, lines, e);
      }
    }
  }

  /** What the last line does to the question which line decides. */
  lemma LineDecides(codec: EntryCodec, lines: seq<string>, e: Entry)
    requires lines != [] && LoadLines(codec, lines).Ok?
    ensures var n := |lines| - 1;
            var last := if Trim(lines[n]) == "" then None else codec.parse(Trim(lines[n]));
            (exists i: nat :: LastLine(codec, lines, i, e)) <==>
              if last.Some? && Loadable(last.value) && last.value.cacheKey == e.cacheKey
              then last.value == e
              else exists i: nat :: LastLine(codec, lines[..n], i, e)
  {
    hide Trim;
    var n := |lines| - 1;
    var last := if Trim(lines[n]) == "" then None else codec.parse(Trim(lines[n]));
    if last.Some? && Loadable(last.value) && last.value.cacheKey == e.cacheKey {
      forall i: nat | LastLine(codec, lines, i, e)
        ensures i == n
      {
      }
      assert last.value == e ==> LastLine(codec, lines, n, e);
    } else {
      forall i: nat
        ensures LastLine(codec, lines, i, e) <==> LastLine(codec, lines[..n], i, e)
      {
      }
    }
  }

  /** Position `i` holds the last entry that can stand for a text with this hash. */
  predicate LastOfText(entries: seq<Entry>, locale: string, h: string, i: nat) {
    && i < |entries| && StandsFor(entries[i], locale, h)
    && forall j | i < j < |entries| :: !StandsFor(entries[j], locale, h)
  }

  predicate StandsFor(e: Entry, locale: string, h: string) {
    e.tgtLang == locale && e.textHash == h && h != "" && Trim(e.translated) != ""
  }

  /** The index holds for each hash the last entry of the locale with that hash and a
      translation. */
  lemma {:induction false} IndexExactly(entries: seq<Entry>, locale: string, h: string, e: Entry)
    ensures h in TextHashes(entries, locale) && TextHashes(entries, locale)[h] == e <==>
              exists i: nat :: LastOfText(entries, locale, h, i) && entries[i] == e
  {
    hide Trim;
    if entries != [] {
      var n := |entries| - 1;
      IndexExactly(entries[..n], locale, h, e);
      if StandsFor(entries[n], locale, h) {
        forall i: nat
          ensures LastOfText(entries, locale, h, i) <==> i == n
        {
        }
        assert LastOfText(entries, locale, h, n);
      } else {
        forall i: nat
          ensures LastOfText(entries, locale, h, i) <==> LastOfText(entries[..n], locale, h, i)
        {
        }
      }
    }
  }

  /** The file of a memory: nothing for an empty one, and otherwise one line per entry in
      the order of the keys, each line ended. */
  lemma RendersExactly(codec: EntryCodec, tm: JsMap<Entry>, collate: (string, string) -> bool) returns (entries: seq<Entry>)
    requires codec.Inverse() && Sound(tm) && TotalPreorder(collate)
    ensures |entries| == |tm.at| && Distinct(KeysOf(entries)) && SortedBy(KeysOf(entries), collate)
    ensures forall e :: e in entries <==> e.cacheKey in tm.at && tm.at[e.cacheKey] == e
    ensures tm.at == map[] <==> Render(codec, tm, collate) == ""
    ensures tm.at != map[] ==> Split(Render(codec, tm, collate), '\n') == Encoded(codec, entries) + [""]
  {
    assert tm.Valid();
    hide Ordered, Sound, Distinct, SortedBy, Split;
    entries := Ordered(tm, collate);
    OrderedKeys(tm, collate);
    OrderedSorted(tm, collate);
    if entries != [] {
      assert entries[0] in entries;
      RenderedLines(Encoded(codec, entries));
    }
  }

  lemma OrderedSorted(tm: JsMap<Entry>, collate: (string, string) -> bool)
    requires tm.Valid() && TotalPreorder(collate)
    ensures |Ordered(tm, collate)| == |tm.at| && SortedBy(KeysOf(Ordered(tm, collate)), collate)
  {
    ByCacheKeyOrders(collate);
    SortSorted(tm.Values(), ByCacheKey(collate));
    SortPermutes(tm.Values(), ByCacheKey(collate));
    KeysCounted(tm);
  }

  lemma ByCacheKeyOrders(collate: (string, string) -> bool)
    requires TotalPreorder(collate)
    ensures TotalPreorder(ByCacheKey(collate))
  {
    forall a: Entry, b: Entry
      ensures ByCacheKey(collate)(a, b) == collate(a.cacheKey, b.cacheKey)
    {
    }
  }

  lemma KeysCounted(tm: JsMap<Entry>)
    requires tm.Valid()
    ensures |tm.order| == |tm.at|
  {
    KeysCountedIn(tm.order, tm.at.Keys);
  }

  lemma {:induction false} KeysCountedIn(order: seq<string>, keys: set<string>)
    requires Distinct(order) && forall k :: k in order <==> k in keys
    ensures |order| == |keys|
  {
    if order == [] {
      assert keys == {};
    } else {
      assert order[0] in order;
      assert order == [order[0]] + order[1..];
      KeysCountedIn(order[1..], keys - {order[0]});
    }
  }
}
