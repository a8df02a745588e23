/** Translating one batch: retry, bisect after a timeout, and a fresh client after
    every failure. */
module Translating {
  import opened Text
  import opened Batching

  const TRANSLATE_MAX_ATTEMPTS := 2

  /** What the outside world does with one attempt: no client can be started, the prompt
      fails, or it returns an object with these text fields. */
  datatype Reply = NoClient(message: string) | Failed(message: string) | Answer(fields: map<string, string>)

  /** One attempt: the client that ran it, whether it failed, its split depth and the items
      that were to be translated. */
  datatype Attempt = Attempt(client: Option<nat>, failed: bool, depth: nat, items: seq<Item>)

  /** Everything `translateBatch` changes: the attempts so far, the open client and the
      number of clients started. Clients are numbered in the order of their start. */
  datatype World = World(log: seq<Attempt>, client: Option<nat>, created: nat)

  const Start := World([], None, 0)

  predicate IsPromptTimeout(message: string) {
    Contains(Lower(message), "timed out")
  }

  // ---------- one attempt ----------

  /** The check of an answer: the first item without a usable text fails it. */
  function ReadAnswer(items: seq<Item>, fields: map<string, string>): Result<map<string, string>> {
    if items == [] then Ok(map[])
    else
      var last := items[|items| - 1];
      match ReadAnswer(items[..|items| - 1], fields)
      case Thrown(m) => Thrown(m)
      case Ok(translated) =>
        if last.key !in fields || Blank(fields[last.key]) then Thrown("missing translation for " + last.key)
        else Ok(translated[last.key := fields[last.key]])
  }

  function Outcome(reply: Reply, items: seq<Item>): Result<map<string, string>> {
    match reply
    case NoClient(m) => Thrown(m)
    case Failed(m) => Thrown(m)
    case Answer(fields) => ReadAnswer(items, fields)
  }

  /** The client an attempt runs on: the open one, or a new one if it can be started. */
  function ClientFor(reply: Reply, w: World): Option<nat> {
    if w.client.Some? then w.client else if reply.NoClient? then None else Some(w.created)
  }

  function After(reply: Reply, items: seq<Item>, depth: nat, w: World): World {
    var client := ClientFor(reply, w);
    var failed := Outcome(reply, items).Thrown?;
    World(
      w.log + [Attempt(client, failed, depth, items)],
      if failed then None else client,
      if client == w.client || client.None? then w.created else w.created + 1)
  }

  // ---------- the whole batch ----------

  /** `translateBatch` from its attempt number `attempt` on, `last` being the error so
      far. Attempt number `n` of the whole run gets `replies(n)`. */
  function Run(replies: nat -> Reply, items: seq<Item>, depth: nat, attempt: nat, last: string, w: World)
    : (Result<map<string, string>>, World)
    decreases |items|, TRANSLATE_MAX_ATTEMPTS - attempt
  {
    if attempt >= TRANSLATE_MAX_ATTEMPTS then (Thrown(last), w)
    else
      var reply := replies(|w.log|);
      var w' := After(reply, items, depth, w);
      match Outcome(reply, items)
      case Ok(translated) => (Ok(translated), w')
      case Thrown(m) =>
        if IsPromptTimeout(m) then
          if |items| > 1 then
            var mid := (|items| + 1) / 2;
            var (left, w1) := Run(replies, items[..mid], depth + 1, 0, "translation failed", w');
            if left.Thrown? then (left, w1)
            else
              var (right, w2) := Run(replies, items[mid..], depth + 1, 0, "translation failed", w1);
              if right.Thrown? then (right, w2) else (Ok(left.value + right.value), w2)
          else (Thrown(m), w')
        else Run(replies, items, depth, attempt + 1, m, w')
  }

  function TranslateBatch(replies: nat -> Reply, items: seq<Item>, depth: nat, w: World)
    : (Result<map<string, string>>, World)
  {
    Run(replies, items, depth, 0, "translation failed", w)
  }

  // ---------- the script's own form ----------

  method ReadAnswerLoop(items: seq<Item>, fields: map<string, string>) returns (r: Result<map<string, string>>)
    ensures r == ReadAnswer(items, fields)
  {
    var translated: map<string, string> := map[];
    for i := 0 to |items|
      invariant ReadAnswer(items[..i], fields) == Ok(translated)
    {
      assert items[..i + 1][..i] == items[..i];
      var item := items[i];
      if item.key !in fields || Blank(fields[item.key]) {
        ReadAnswerThrows(items, fields, i + 1);
        return Thrown("missing translation for " + item.key);
      }
      translated := translated[item.key := fields[item.key]];
    }
    assert items[..|items|] == items;
    return Ok(translated);
  }

  lemma {:induction false} ReadAnswerThrows(items: seq<Item>, fields: map<string, string>, n: nat)
    requires n <= |items| && ReadAnswer(items[..n], fields).Thrown?
    ensures ReadAnswer(items, fields) == ReadAnswer(items[..n], fields)
    decreases |items|
  {
    if n < |items| {
      assert items[..|items| - 1][..n] == items[..n];
      ReadAnswerThrows(items[..|items| - 1], fields, n);
    } else {
      assert items[..n] == items;
    }
  }

  /** The `client` variable of `syncLocale` behind `getClient` and `resetClient`, with a
      trace of the attempts. */
  class ClientAccess {
    var client: Option<nat>
    var created: nat
    var log: seq<Attempt>

    ghost function Now(): World
      reads this
    {
      World(log, client, created)
    }

    constructor ()
      ensures Now() == Start
    {
      client, created, log := None, 0, [];
    }

    method GetClient(reply: Reply)
      modifies this
      ensures log == old(log)
      ensures client == ClientFor(reply, old(Now()))
      ensures created == if old(client).None? && client.Some? then old(created) + 1 else old(created)
    {
      if client.None? && !reply.NoClient? {
        client := Some(created);
        created := created + 1;
      }
    }

    method ResetClient()
      modifies this
      ensures Now() == old(Now()).(client := None)
    {
      client := None;
    }

    /** One pass through the body of the `try`, with the reset of the `catch`. */
    method Try(reply: Reply, items: seq<Item>, depth: nat) returns (r: Result<map<string, string>>)
      modifies this
      ensures r == Outcome(reply, items)
      ensures Now() == After(reply, items, depth, old(Now()))
    {
      GetClient(reply);
      match reply {
        case NoClient(m) => r := Thrown(m);
        case Failed(m) => r := Thrown(m);
        case Answer(fields) => r := ReadAnswerLoop(items, fields);
      }
      log := log + [Attempt(client, r.Thrown?, depth, items)];
      if r.Thrown? {
        ResetClient();
      }
    }

    method Translate(replies: nat -> Reply, items: seq<Item>, depth: nat) returns (r: Result<map<string, string>>)
      modifies this
      ensures (r, Now()) == TranslateBatch(replies, items, depth, old(Now()))
      decreases |items|
    {
      var lastError := "translation failed";
      for attempt := 0 to TRANSLATE_MAX_ATTEMPTS
        invariant Run(replies, items, depth, attempt, lastError, Now()) == TranslateBatch(replies, items, depth, old(Now()))
      {
        r := Try(replies(|log|), items, depth);
        if r.Ok? {
          return;
        }
        lastError := r.message;
        if IsPromptTimeout(lastError) && |items| > 1 {
          var midpoint := (|items| + 1) / 2;
          var left := Translate(replies, items[..midpoint], depth + 1);
          if left.Thrown? {
            return left;
          }
          var right := Translate(replies, items[midpoint..], depth + 1);
          return if right.Thrown? then right else Ok(left.value + right.value);
        }
        if IsPromptTimeout(lastError) {
          return;
        }
      }
      return Thrown(lastError);
    }
  }

  // ---------- what a returned map holds ----------

  ghost predicate Translates(m: map<string, string>, items: seq<Item>) {
    && (forall k :: k in m <==> exists it :: it in items && it.key == k)
    && (forall k <- m :: !Blank(m[k]))
  }

  lemma {:induction false} ReadAnswerTranslates(items: seq<Item>, fields: map<string, string>)
    ensures ReadAnswer(items, fields).Ok? ==> Translates(ReadAnswer(items, fields).value, items)
  {
    if items != [] {
      var n := |items| - 1;
      ReadAnswerTranslates(items[..n], fields);
      assert items == items[..n] + [items[n]];
    }
  }

  /** Whatever the translator does, a map that is returned has exactly the keys of the
      items, each with a non-blank text. */
  lemma {:induction false} ReturnsAllKeys(replies: nat -> Reply, items: seq<Item>, depth: nat, attempt: nat, last: string, w: World)
    ensures var r := Run(replies, items, depth, attempt, last, w).0; r.Ok? ==> Translates(r.value, items)
    decreases |items|, TRANSLATE_MAX_ATTEMPTS - attempt
  {
    if attempt < TRANSLATE_MAX_ATTEMPTS {
      var reply := replies(|w.log|);
      var w' := After(reply, items, depth, w);
      if reply.Answer? {
        ReadAnswerTranslates(items, reply.fields);
      }
      if Outcome(reply, items).Thrown? {
        var m := Outcome(reply, items).message;
        if !IsPromptTimeout(m) {
          ReturnsAllKeys(replies, items, depth, attempt + 1, m, w');
        } else if |items| > 1 {
          var mid := (|items| + 1) / 2;
          var (left, w1) := Run(replies, items[..mid], depth + 1, 0, "translation failed", w');
          ReturnsAllKeys(replies, items[..mid], depth + 1, 0, "translation failed", w');
          ReturnsAllKeys(replies, items[mid..], depth + 1, 0, "translation failed", w1);
          assert items == items[..mid] + items[mid..];
        }
      }
    }
  }

  // ---------- whose text a key gets ----------

  /** One of the attempts `from .. to` succeeded on items with this key, and its answer has
      this text for the key. */
  ghost predicate Gives(replies: nat -> Reply, log: seq<Attempt>, from: nat, to: nat, key: string, text: string) {
    exists n ::
      && from <= n < to <= |log| && !log[n].failed
      && (exists it :: it in log[n].items && it.key == key)
      && replies(n).Answer? && key in replies(n).fields && replies(n).fields[key] == text
  }

  /** Each key has the text that the translator gave for it. */
  ghost predicate OwnTexts(replies: nat -> Reply, w: World, w': World, m: map<string, string>) {
    && w.log <= w'.log
    && forall k <- m :: Gives(replies, w'.log, |w.log|, |w'.log|, k, m[k])
  }

  lemma {:induction false} ReadAnswerCopies(items: seq<Item>, fields: map<string, string>)
    ensures var r := ReadAnswer(items, fields);
            r.Ok? ==> forall k <- r.value :: k in fields && r.value[k] == fields[k] && exists it :: it in items && it.key == k
  {
    if items != [] {
      var n := |items| - 1;
      ReadAnswerCopies(items[..n], fields);
      assert items == items[..n] + [items[n]];
      assert items[n] in items;
    }
  }

  lemma AttemptOwn(replies: nat -> Reply, items: seq<Item>, depth: nat, w: World)
    ensures var reply := replies(|w.log|);
            var r := Outcome(reply, items);
            r.Ok? ==> OwnTexts(replies, w, After(reply, items, depth, w), r.value)
  {
    hide ReadAnswer;
    var reply := replies(|w.log|);
    var w' := After(reply, items, depth, w);
    if reply.Answer? && Outcome(reply, items).Ok? {
      ReadAnswerCopies(items, reply.fields);
      assert w'.log[|w.log|].items == items;
    }
  }

  lemma GivesWider(replies: nat -> Reply, log: seq<Attempt>, log': seq<Attempt>, from: nat, to: nat, from': nat, to': nat)
    requires log <= log' && from' <= from && to <= to' <= |log'| && to <= |log|
    ensures forall k, v | Gives(replies, log, from, to, k, v) :: Gives(replies, log', from', to', k, v)
  {
    forall k, v | Gives(replies, log, from, to, k, v)
      ensures Gives(replies, log', from', to', k, v)
    {
      var n :| && from <= n < to && !log[n].failed && (exists it :: it in log[n].items && it.key == k)
               && replies(n).Answer? && k in replies(n).fields && replies(n).fields[k] == v;
      assert log'[n] == log[n];
    }
  }

  lemma OwnHalves(replies: nat -> Reply, w: World, w0: World, w1: World, w2: World, left: map<string, string>, right: map<string, string>)
    requires w.log <= w0.log && OwnTexts(replies, w0, w1, left) && OwnTexts(replies, w1, w2, right)
    ensures OwnTexts(replies, w, w2, left + right)
  {
    hide Gives;
    GivesWider(replies, w1.log, w2.log, |w0.log|, |w1.log|, |w.log|, |w2.log|);
    GivesWider(replies, w2.log, w2.log, |w1.log|, |w2.log|, |w.log|, |w2.log|);
  }

  lemma OwnLater(replies: nat -> Reply, w: World, w0: World, w1: World, m: map<string, string>)
    requires w.log <= w0.log && OwnTexts(replies, w0, w1, m)
    ensures OwnTexts(replies, w, w1, m)
  {
    hide Gives;
    GivesWider(replies, w1.log, w1.log, |w0.log|, |w1.log|, |w.log|, |w1.log|);
  }

  /** A map that is returned holds for each key the text that a successful attempt on that
      very key was answered with. */
  lemma {:induction false} ReturnsOwnTexts(replies: nat -> Reply, items: seq<Item>, depth: nat, attempt: nat, last: string, w: World)
    ensures var (r, w') := Run(replies, items, depth, attempt, last, w);
            r.Ok? ==> OwnTexts(replies, w, w', r.value)
    decreases |items|, TRANSLATE_MAX_ATTEMPTS - attempt
  {
    hide Outcome, OwnTexts, IsPromptTimeout;
    if attempt < TRANSLATE_MAX_ATTEMPTS {
      var reply := replies(|w.log|);
      var w' := After(reply, items, depth, w);
      AttemptOwn(replies, items, depth, w);
      if Outcome(reply, items).Thrown? {
        var m := Outcome(reply, items).message;
        if !IsPromptTimeout(m) {
          ReturnsOwnTexts(replies, items, depth, attempt + 1, m, w');
          var (r, w1) := Run(replies, items, depth, attempt + 1, m, w');
          if r.Ok? {
            OwnLater(replies, w, w', w1, r.value);
          }
        } else if |items| > 1 {
          var mid := (|items| + 1) / 2;
          var (left, w1) := Run(replies, items[..mid], depth + 1, 0, "translation failed", w');
          ReturnsOwnTexts(replies, items[..mid], depth + 1, 0, "translation failed", w');
          if left.Ok? {
            var (right, w2) := Run(replies, items[mid..], depth + 1, 0, "translation failed", w1);
            ReturnsOwnTexts(replies, items[mid..], depth + 1, 0, "translation failed", w1);
            if right.Ok? {
              OwnHalves(replies, w, w', w1, w2, left.value, right.value);
            }
          }
        }
      }
    }
  }

  /** The items of the attempts that succeeded, in order. */
  function Served(log: seq<Attempt>): seq<Item> {
    if log == [] then []
    else
      var last := log[|log| - 1];
      Served(log[..|log| - 1]) + if last.failed then [] else last.items
  }

  lemma ServedAfter(reply: Reply, items: seq<Item>, depth: nat, w: World)
    ensures Served(After(reply, items, depth, w).log) == if Outcome(reply, items).Ok? then Served(w.log) + items else Served(w.log)
  {
    hide Outcome;
    var log := After(reply, items, depth, w).log;
    assert log[..|log| - 1] == w.log;
  }

  /** However often a batch is retried and split: the attempts that succeed cover its items
      once each and in order. */
  lemma {:induction false} ServedInOrder(replies: nat -> Reply, items: seq<Item>, depth: nat, attempt: nat, last: string, w: World)
    ensures var (r, w') := Run(replies, items, depth, attempt, last, w);
            r.Ok? ==> Served(w'.log) == Served(w.log) + items
    decreases |items|, TRANSLATE_MAX_ATTEMPTS - attempt
  {
    hide Outcome, Served, After, IsPromptTimeout;
    if attempt < TRANSLATE_MAX_ATTEMPTS {
      var reply := replies(|w.log|);
      var w' := After(reply, items, depth, w);
      ServedAfter(reply, items, depth, w);
      if Outcome(reply, items).Thrown? {
        var m := Outcome(reply, items).message;
        if !IsPromptTimeout(m) {
          ServedInOrder(replies, items, depth, attempt + 1, m, w');
        } else if |items| > 1 {
          var mid := (|items| + 1) / 2;
          var (left, w1) := Run(replies, items[..mid], depth + 1, 0, "translation failed", w');
          var (right, w2) := Run(replies, items[mid..], depth + 1, 0, "translation failed", w1);
          ServedInOrder(replies, items[..mid], depth + 1, 0, "translation failed", w');
          ServedInOrder(replies, items[mid..], depth + 1, 0, "translation failed", w1);
          if left.Ok? && right.Ok? {
            assert Served(w1.log) == Served(w.log) + items[..mid];
            assert Served(w2.log) == Served(w1.log) + items[mid..];
            assert items == items[..mid] + items[mid..];
          }
        }
      }
    }
  }

  // ---------- when an attempt succeeds, and when a batch gives up ----------

  predicate UsableFor(it: Item, fields: map<string, string>) {
    it.key in fields && Trim(fields[it.key]) != ""
  }

  /** An answer is accepted exactly if it has a text for every item. */
  lemma {:induction false} AnswerAccepted(items: seq<Item>, fields: map<string, string>)
    ensures ReadAnswer(items, fields).Ok? <==> forall it <- items :: UsableFor(it, fields)
  {
    hide ReadAnswer, UsableFor;
    if items == [] {
      NothingToRead(fields);
    } else {
      var init, last := items[..|items| - 1], items[|items| - 1];
      assert items == init + [last];
      AnswerAccepted(init, fields);
      ReadLast(init, last, fields);
      AllUsableLast(init, last, fields);
    }
  }

  lemma NothingToRead(fields: map<string, string>)
    ensures ReadAnswer([], fields).Ok?
  {
  }

  lemma ReadLast(init: seq<Item>, last: Item, fields: map<string, string>)
    ensures ReadAnswer(init + [last], fields).Ok? <==> ReadAnswer(init, fields).Ok? && UsableFor(last, fields)
  {
    hide Trim;
    assert (init + [last])[..|init|] == init;
  }

  lemma AllUsableLast(init: seq<Item>, last: Item, fields: map<string, string>)
    ensures (forall it <- init + [last] :: UsableFor(it, fields)) <==> (forall it <- init :: UsableFor(it, fields)) && UsableFor(last, fields)
  {
    hide UsableFor;
    assert last in init + [last] && forall it <- init :: it in init + [last];
  }

  /** Otherwise the error names the first item without one. */
  lemma {:induction false} FirstMissingNamed(items: seq<Item>, fields: map<string, string>, i: nat)
    requires i < |items| && !UsableFor(items[i], fields) && forall it <- items[..i] :: UsableFor(it, fields)
    ensures ReadAnswer(items, fields) == Thrown("missing translation for " + items[i].key)
  {
    hide Trim;
    var n := |items| - 1;
    if i < n {
      assert items[..n][..i] == items[..i];
      FirstMissingNamed(items[..n], fields, i);
    } else {
      AnswerAccepted(items[..n], fields);
    }
  }

  lemma LowerConcat(a: string, b: string)
    ensures Lower(a + b) == Lower(a) + Lower(b)
  {
  }

  lemma CapitalsToo()
    ensures Lower("TIMED OUT") == Lower("Timed Out") == "timed out"
  {
  }

  /** A timeout is an error whose message says "timed out" in any letter case. */
  lemma TimeoutExactly(message: string)
    ensures IsPromptTimeout(message) <==> exists a, t, b :: message == a + t + b && Lower(t) == "timed out"
  {
    hide Lower, Contains;
    ContainsExactly(Lower(message), "timed out");
    if IsPromptTimeout(message) {
      var t := TimedOutIn(message);
    }
    if a, t, b :| message == a + t + b && Lower(t) == "timed out" {
      LowerConcat(a + t, b);
      LowerConcat(a, t);
      assert Lower(message) == Lower(a) + "timed out" + Lower(b);
    }
  }

  lemma TimedOutIn(message: string) returns (t: string)
    requires exists a, b :: Lower(message) == a + "timed out" + b
    ensures Lower(t) == "timed out" && exists a, b :: message == a + t + b
  {
    var a, b :| Lower(message) == a + "timed out" + b;
    var i, j := |a|, |a| + 9;
    t := message[i..j];
    assert Lower(t) == Lower(message)[i..j] == "timed out";
    assert message == message[..i] + t + message[j..];
  }

  /** The first attempt that succeeds ends the batch. */
  lemma FirstSuccessEnds(replies: nat -> Reply, items: seq<Item>, depth: nat, w: World)
    requires Outcome(replies(|w.log|), items).Ok?
    ensures TranslateBatch(replies, items, depth, w)
         == (Outcome(replies(|w.log|), items), After(replies(|w.log|), items, depth, w))
  {
    hide Outcome, After;
  }

  function FailureOf(replies: nat -> Reply, log: seq<Attempt>, n: nat): Result<map<string, string>>
    requires n < |log|
  {
    Outcome(replies(n), log[n].items)
  }

  /** The last attempt was in vain for good: it timed out on a single item, or it was the
      second on the same items and neither timed out. */
  ghost predicate Hopeless(replies: nat -> Reply, log: seq<Attempt>) {
    && log != []
    && var n := |log| - 1;
    && FailureOf(replies, log, n).Thrown?
    && if IsPromptTimeout(FailureOf(replies, log, n).message) then |log[n].items| <= 1
       else
         && n > 0 && log[n - 1].items == log[n].items && log[n - 1].depth == log[n].depth
         && FailureOf(replies, log, n - 1).Thrown? && !IsPromptTimeout(FailureOf(replies, log, n - 1).message)
  }

  /** The attempt before `attempt` on these items failed without a timeout. */
  ghost predicate TriedOnce(replies: nat -> Reply, items: seq<Item>, depth: nat, w: World) {
    && w.log != []
    && var n := |w.log| - 1;
    && w.log[n].items == items && w.log[n].depth == depth
    && FailureOf(replies, w.log, n).Thrown? && !IsPromptTimeout(FailureOf(replies, w.log, n).message)
  }

  /** A batch never gives up early: it throws only after an attempt that was in vain for
      good. */
  lemma {:induction false} GivesUpLate(replies: nat -> Reply, items: seq<Item>, depth: nat, attempt: nat, last: string, w: World)
    requires attempt < TRANSLATE_MAX_ATTEMPTS
    requires attempt > 0 ==> TriedOnce(replies, items, depth, w)
    ensures var (r, w') := Run(replies, items, depth, attempt, last, w);
            r.Thrown? ==> Hopeless(replies, w'.log) && FailureOf(replies, w'.log, |w'.log| - 1) == r
    decreases |items|, TRANSLATE_MAX_ATTEMPTS - attempt
  {
    hide Outcome, IsPromptTimeout;
    var reply := replies(|w.log|);
    var w' := After(reply, items, depth, w);
    if Outcome(reply, items).Thrown? {
      var m := Outcome(reply, items).message;
      if !IsPromptTimeout(m) {
        if attempt + 1 < TRANSLATE_MAX_ATTEMPTS {
          GivesUpLate(replies, items, depth, attempt + 1, m, w');
        }
      } else if |items| > 1 {
        var mid := (|items| + 1) / 2;
        GivesUpLate(replies, items[..mid], depth + 1, 0, "translation failed", w');
        var w1 := Run(replies, items[..mid], depth + 1, 0, "translation failed", w').1;
        GivesUpLate(replies, items[mid..], depth + 1, 0, "translation failed", w1);
      }
    }
  }

  // ---------- how many attempts, how deep ----------

  /** The least exponent `e` with `n <= 2^e`. */
  function CeilLog2(n: nat): nat {
    if n <= 1 then 0 else 1 + CeilLog2((n + 1) / 2)
  }

  function Pow2(e: nat): nat {
    if e == 0 then 1 else 2 * Pow2(e - 1)
  }

  lemma {:induction false} CeilLog2IsLeast(n: nat, e: nat)
    ensures n <= Pow2(CeilLog2(n))
    ensures n <= Pow2(e) ==> CeilLog2(n) <= e
    decreases n
  {
    if n > 1 {
      CeilLog2IsLeast((n + 1) / 2, if e == 0 then 0 else e - 1);
    }
  }

  lemma {:induction false} CeilLog2Monotone(m: nat, n: nat)
    requires m <= n
    ensures CeilLog2(m) <= CeilLog2(n)
    decreases n
  {
    if m > 1 {
      CeilLog2Monotone((m + 1) / 2, (n + 1) / 2);
    }
  }

  /** The most attempts left for a batch of `n` items before attempt `attempt`. */
  function MaxAttempts(n: nat, attempt: nat): int {
    if attempt >= TRANSLATE_MAX_ATTEMPTS then 0
    else (if n <= 1 then 2 else 4 * n - 2) - attempt
  }

  ghost predicate Extends(w: World, w': World, lo: nat, hi: nat) {
    && w.log <= w'.log
    && (forall i | |w.log| <= i < |w'.log| :: lo <= w'.log[i].depth <= hi)
  }

  lemma ExtendsOn(w: World, w1: World, w2: World, lo: nat, hi: nat)
    requires Extends(w, w1, lo, hi) && Extends(w1, w2, lo, hi)
    ensures Extends(w, w2, lo, hi)
  {
    forall i | |w.log| <= i < |w2.log|
      ensures lo <= w2.log[i].depth <= hi
    {
      assert i < |w1.log| ==> w2.log[i] == w1.log[i];
    }
  }

  lemma Widen(w: World, w': World, lo: nat, hi: nat, lo': nat, hi': nat)
    requires Extends(w, w', lo, hi) && lo' <= lo && hi <= hi'
    ensures Extends(w, w', lo', hi')
  {
  }

  /** Bounds for two halves run one after the other give the bounds for the whole. */
  lemma JoinBounds(n: nat, mid: nat, w: World, w1: World, w2: World, depth: nat)
    requires n > 1 && mid == (n + 1) / 2
    requires Extends(w, w1, depth + 1, depth + 1 + CeilLog2(mid)) && |w1.log| - |w.log| <= MaxAttempts(mid, 0)
    requires Extends(w1, w2, depth + 1, depth + 1 + CeilLog2(n - mid)) && |w2.log| - |w1.log| <= MaxAttempts(n - mid, 0)
    ensures Extends(w, w1, depth, depth + CeilLog2(n)) && Extends(w, w2, depth, depth + CeilLog2(n))
    ensures |w1.log| <= |w2.log| && |w2.log| - |w.log| <= 4 * n - 4
  {
    var hi := depth + CeilLog2(n);
    CeilLog2Monotone(n - mid, mid);
    Widen(w, w1, depth + 1, depth + 1 + CeilLog2(mid), depth, hi);
    Widen(w1, w2, depth + 1, depth + 1 + CeilLog2(n - mid), depth, hi);
    ExtendsOn(w, w1, w2, depth, hi);
  }

  /** The bounds for a batch that is split into halves: `w1` is the world between them. */
  lemma {:induction false} HalvesBounded(replies: nat -> Reply, left: seq<Item>, right: seq<Item>, depth: nat, w: World)
    requires |left| == (|left| + |right| + 1) / 2 && |right| > 0
    ensures var w1 := Run(replies, left, depth + 1, 0, "translation failed", w).1;
            var w2 := Run(replies, right, depth + 1, 0, "translation failed", w1).1;
            && Extends(w, w1, depth, depth + CeilLog2(|left| + |right|))
            && Extends(w, w2, depth, depth + CeilLog2(|left| + |right|))
            && |w1.log| <= |w2.log| && |w2.log| - |w.log| <= 4 * (|left| + |right|) - 4
    decreases |left| + |right|, 0
  {
    var w1 := Run(replies, left, depth + 1, 0, "translation failed", w).1;
    AttemptsBounded(replies, left, depth + 1, 0, "translation failed", w);
    AttemptsBounded(replies, right, depth + 1, 0, "translation failed", w1);
    JoinBounds(|left| + |right|, |left|, w, w1, Run(replies, right, depth + 1, 0, "translation failed", w1).1, depth);
  }

  lemma {:induction false} AttemptsBounded(replies: nat -> Reply, items: seq<Item>, depth: nat, attempt: nat, last: string, w: World)
    ensures var w' := Run(replies, items, depth, attempt, last, w).1;
            Extends(w, w', depth, depth + CeilLog2(|items|)) && |w'.log| - |w.log| <= MaxAttempts(|items|, attempt)
    decreases |items|, 1, TRANSLATE_MAX_ATTEMPTS - attempt
  {
    if attempt < TRANSLATE_MAX_ATTEMPTS {
      var reply := replies(|w.log|);
      var w' := After(reply, items, depth, w);
      var hi := depth + CeilLog2(|items|);
      assert Extends(w, w', depth, hi);
      if Outcome(reply, items).Thrown? {
        var m := Outcome(reply, items).message;
        if !IsPromptTimeout(m) {
          AttemptsBounded(replies, items, depth, attempt + 1, m, w');
          ExtendsOn(w, w', Run(replies, items, depth, attempt + 1, m, w').1, depth, hi);
        } else if |items| > 1 {
          var mid := (|items| + 1) / 2;
          HalvesBounded(replies, items[..mid], items[mid..], depth, w');
          var w1 := Run(replies, items[..mid], depth + 1, 0, "translation failed", w').1;
          ExtendsOn(w, w', w1, depth, hi);
          ExtendsOn(w, w', Run(replies, items[mid..], depth + 1, 0, "translation failed", w1).1, depth, hi);
        }
      }
    }
  }

  /** For every translator, a batch of `n` items ends within `4n - 2` attempts (two for
      at most one item) at a split depth of at most `ceil(log2 n)`. */
  lemma BatchIsBounded(replies: nat -> Reply, items: seq<Item>, depth: nat, w: World)
    ensures var w' := TranslateBatch(replies, items, depth, w).1;
            && |w'.log| - |w.log| <= (if |items| <= 1 then 2 else 4 * |items| - 2)
            && Extends(w, w', depth, depth + CeilLog2(|items|))
  {
    AttemptsBounded(replies, items, depth, 0, "translation failed", w);
  }

  /** Replies that keep a batch busy for as long as possible. */
  function Stubborn(items: seq<Item>): seq<Reply> {
    if items == [] then []
    else if |items| == 1 then [Failed("busy"), Answer(map[items[0].key := "x"])]
    else
      var mid := (|items| + 1) / 2;
      [Failed("busy"), Failed("timed out")] + Stubborn(items[..mid]) + Stubborn(items[mid..])
  }

  lemma SampleMessages()
    ensures !IsPromptTimeout("busy") && IsPromptTimeout("timed out")
  {
    assert Lower("busy") == "busy" && Lower("timed out") == "timed out";
  }

  /** A failure followed by a timeout hands the two halves on. */
  lemma BusyThenTimeout(replies: nat -> Reply, items: seq<Item>, depth: nat, w: World) returns (w2: World)
    requires |items| > 1
    requires replies(|w.log|) == Failed("busy") && replies(|w.log| + 1) == Failed("timed out")
    ensures |w2.log| == |w.log| + 2
    ensures var mid := (|items| + 1) / 2;
            var (left, w3) := TranslateBatch(replies, items[..mid], depth + 1, w2);
            var (right, w4) := TranslateBatch(replies, items[mid..], depth + 1, w3);
            left.Ok? && right.Ok? ==> TranslateBatch(replies, items, depth, w) == (Ok(left.value + right.value), w4)
  {
    SampleMessages();
    var w1 := After(Failed("busy"), items, depth, w);
    w2 := After(Failed("timed out"), items, depth, w1);
    assert TranslateBatch(replies, items, depth, w) == Run(replies, items, depth, 1, "busy", w1);
  }

  lemma BusyThenAnswer(replies: nat -> Reply, items: seq<Item>, depth: nat, w: World)
    requires |items| == 1
    requires replies(|w.log|) == Failed("busy") && replies(|w.log| + 1) == Answer(map[items[0].key := "x"])
    ensures TranslateBatch(replies, items, depth, w).0.Ok?
    ensures |TranslateBatch(replies, items, depth, w).1.log| == |w.log| + 2
  {
    SampleMessages();
    var w1 := After(Failed("busy"), items, depth, w);
    assert items[..0] == [] && !Blank("x");
    assert ReadAnswer(items, map[items[0].key := "x"]).Ok?;
    assert TranslateBatch(replies, items, depth, w) == Run(replies, items, depth, 1, "busy", w1);
  }

  /** Replies that follow a plan from attempt `from` on. */
  ghost predicate Plays(replies: nat -> Reply, from: nat, plan: seq<Reply>) {
    forall i | 0 <= i < |plan| :: replies(from + i) == plan[i]
  }

  lemma PlaysPart(replies: nat -> Reply, from: nat, a: seq<Reply>, b: seq<Reply>, c: seq<Reply>)
    requires Plays(replies, from, a + b + c)
    ensures Plays(replies, from + |a|, b)
    ensures Plays(replies, from + |a| + |b|, c)
  {
    forall i | 0 <= i < |b|
      ensures replies(from + |a| + i) == b[i]
    {
      assert (a + b + c)[|a| + i] == b[i] && replies(from + (|a| + i)) == (a + b + c)[|a| + i];
    }
    forall i | 0 <= i < |c|
      ensures replies(from + |a| + |b| + i) == c[i]
    {
      assert (a + b + c)[|a| + |b| + i] == c[i] && replies(from + (|a| + |b| + i)) == (a + b + c)[|a| + |b| + i];
    }
  }

  /** The bound on the attempts is reached: these replies take all `4n - 2` of them. */
  lemma {:induction false} BoundIsReached(replies: nat -> Reply, items: seq<Item>, depth: nat, w: World)
    requires items != []
    requires Plays(replies, |w.log|, Stubborn(items))
    ensures |Stubborn(items)| == 4 * |items| - 2
    ensures TranslateBatch(replies, items, depth, w).0.Ok?
    ensures |TranslateBatch(replies, items, depth, w).1.log| == |w.log| + 4 * |items| - 2
    decreases |items|
  {
    hide Run, TranslateBatch;
    var plan := Stubborn(items);
    assert replies(|w.log| + 0) == plan[0] && replies(|w.log| + 1) == plan[1];
    if |items| == 1 {
      BusyThenAnswer(replies, items, depth, w);
    } else {
      var mid := (|items| + 1) / 2;
      var l, r := Stubborn(items[..mid]), Stubborn(items[mid..]);
      var w2 := BusyThenTimeout(replies, items, depth, w);
      PlaysPart(replies, |w.log|, [Failed("busy"), Failed("timed out")], l, r);
      BoundIsReached(replies, items[..mid], depth + 1, w2);
      BoundIsReached(replies, items[mid..], depth + 1, TranslateBatch(replies, items[..mid], depth + 1, w2).1);
    }
  }

  // ---------- fresh clients ----------

  /** Client numbers in use, and the client that is open after the last attempt. */
  ghost predicate Tracked(w: World) {
    && (w.client.Some? ==> w.client.value < w.created)
    && (forall i | 0 <= i < |w.log| && w.log[i].client.Some? :: w.log[i].client.value < w.created)
    && (w.log != [] ==> w.client == if w.log[|w.log| - 1].failed then None else w.log[|w.log| - 1].client)
    && (forall i | 0 <= i < |w.log| && !w.log[i].failed :: w.log[i].client.Some?)
  }

  /** After a failure no earlier client serves again. */
  ghost predicate Fresh(log: seq<Attempt>) {
    forall h, i, j | 0 <= h <= i < j < |log| && log[i].failed && log[j].client.Some? :: log[h].client != log[j].client
  }

  /** After a success the next attempt runs on the same client. */
  ghost predicate Kept(log: seq<Attempt>) {
    forall i, j | 0 <= i < |log| && j == i + 1 && j < |log| && !log[i].failed :: log[j].client == log[i].client
  }

  ghost predicate CleanClients(w: World) {
    Tracked(w) && Fresh(w.log) && Kept(w.log)
  }

  lemma AfterFresh(reply: Reply, items: seq<Item>, depth: nat, w: World)
    requires Tracked(w) && Fresh(w.log)
    ensures Fresh(After(reply, items, depth, w).log)
  {
    var log, n := After(reply, items, depth, w).log, |w.log|;
    forall h, i, j | 0 <= h <= i < j < |log| && log[i].failed && log[j].client.Some?
      ensures log[h].client != log[j].client
    {
      assert log[h] == w.log[h] && log[i] == w.log[i];
      if j < n {
        assert log[j] == w.log[j];
      } else if w.client.Some? {
        assert i < n - 1 && w.log[n - 1].client == w.client;
      }
    }
  }

  lemma AfterClean(reply: Reply, items: seq<Item>, depth: nat, w: World)
    requires CleanClients(w)
    ensures CleanClients(After(reply, items, depth, w))
  {
    AfterFresh(reply, items, depth, w);
  }

  /** Every attempt after a failure runs on a client that no earlier attempt has used. */
  lemma {:induction false} FreshAfterFailure(replies: nat -> Reply, items: seq<Item>, depth: nat, attempt: nat, last: string, w: World)
    requires CleanClients(w)
    ensures CleanClients(Run(replies, items, depth, attempt, last, w).1)
    decreases |items|, TRANSLATE_MAX_ATTEMPTS - attempt
  {
    hide Outcome, After, CleanClients, IsPromptTimeout;
    if attempt < TRANSLATE_MAX_ATTEMPTS {
      var reply := replies(|w.log|);
      var w' := After(reply, items, depth, w);
      AfterClean(reply, items, depth, w);
      if Outcome(reply, items).Thrown? {
        var m := Outcome(reply, items).message;
        if !IsPromptTimeout(m) {
          FreshAfterFailure(replies, items, depth, attempt + 1, m, w');
        } else if |items| > 1 {
          var mid := (|items| + 1) / 2;
          FreshAfterFailure(replies, items[..mid], depth + 1, 0, "translation failed", w');
          var w1 := Run(replies, items[..mid], depth + 1, 0, "translation failed", w').1;
          FreshAfterFailure(replies, items[mid..], depth + 1, 0, "translation failed", w1);
        }
      }
    }
  }
}
