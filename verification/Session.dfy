/** The query engine: a session with a turn gate, a token budget, a compacted transcript
    and a stored form. */
module Session {
  import opened Text
  import opened Decimal

  datatype Config = Config(
    maxTurns: int, maxBudgetTokens: int, compactAfterTurns: int, structuredOutput: bool, structuredRetryLimit: int)

  const DEFAULT_CONFIG := Config(8, 2000, 12, false, 2)

  datatype Denial = Denial(toolName: string, reason: string)
  datatype Usage = Usage(inputTokens: nat, outputTokens: nat)
  datatype StopReason = Completed | MaxBudgetReached | MaxTurnsReached

  datatype TurnResult = TurnResult(
    prompt: string, output: string, commands: seq<string>, tools: seq<string>, denials: seq<Denial>,
    usage: Usage, stopReason: StopReason)

  datatype Request = Request(prompt: string, commands: seq<string>, tools: seq<string>, denied: seq<Denial>)

  /** What never changes during a session: settings, identity, and `json.dumps` of the
      summary lines with the session id. */
  datatype Setting = Setting(config: Config, sessionId: string, dumps: (seq<string>, string) -> string)

  /** The engine's lists and counters, with the entries of its transcript store. */
  datatype State = State(
    messages: seq<string>, entries: seq<string>, flushed: bool, denials: seq<Denial>, usage: Usage)

  const Fresh := State([], [], false, [], Usage(0, 0))

  datatype StoredSession = StoredSession(sessionId: string, messages: seq<string>, inputTokens: nat, outputTokens: nat)

  /** White space as `str.split` sees it. */
  predicate IsPySpace(c: char) {
    '\t' <= c <= '\r' || '\U{001C}' <= c <= ' ' || c == '\U{0085}' || c == '\U{00A0}' || c == '\U{1680}' ||
    '\U{2000}' <= c <= '\U{200A}' || c == '\U{2028}' || c == '\U{2029}' || c == '\U{202F}' || c == '\U{205F}' ||
    c == '\U{3000}'
  }

  function WordCount(text: string): nat {
    |Words(text, IsPySpace)|
  }

  // ---------- one turn ----------

  /** `xs[-k:] if len(xs) > k else xs`. A slice from -0 is the whole list, and a negative
      `k` drops elements from the front. */
  function KeepLast(xs: seq<string>, k: int): seq<string> {
    if |xs| <= k then xs
    else if k > 0 then xs[|xs| - k..]
    else if k == 0 then xs
    else xs[if -k < |xs| then -k else |xs|..]
  }

  function CommaList(names: seq<string>): string {
    if names == [] then ""
    else if |names| == 1 then names[0]
    else names[0] + ", " + CommaList(names[1..])
  }

  function NamesOrNone(names: seq<string>): string {
    if names == [] then "none" else CommaList(names)
  }

  function SummaryLines(r: Request): seq<string> {
    ["Prompt: " + r.prompt,
     "Matched commands: " + NamesOrNone(r.commands),
     "Matched tools: " + NamesOrNone(r.tools),
     "Permission denials: " + Dec(|r.denied|)]
  }

  /** `_format_output`; with no attempts allowed the structured form raises. */
  function FormatOutput(s: Setting, r: Request): Option<string> {
    if !s.config.structuredOutput then Some(Join(SummaryLines(r), '\n'))
    else if s.config.structuredRetryLimit <= 0 then None
    else Some(s.dumps(SummaryLines(r), s.sessionId))
  }

  function AddTurn(u: Usage, prompt: string, output: string): Usage {
    Usage(u.inputTokens + WordCount(prompt), u.outputTokens + WordCount(output))
  }

  predicate Refuses(s: Setting, st: State) {
    |st.messages| >= s.config.maxTurns
  }

  /** `submit_message`: the result, or nothing when it raises, and the state afterwards. */
  function Submit(s: Setting, st: State, r: Request): (Option<TurnResult>, State) {
    if Refuses(s, st) then
      (Some(TurnResult(r.prompt, "Max turns reached before processing prompt: " + r.prompt, r.commands, r.tools,
                       r.denied, st.usage, MaxTurnsReached)), st)
    else
      match FormatOutput(s, r)
      case None => (None, st)
      case Some(output) =>
        var usage := AddTurn(st.usage, r.prompt, output);
        var stop := if usage.inputTokens + usage.outputTokens > s.config.maxBudgetTokens then MaxBudgetReached else Completed;
        (Some(TurnResult(r.prompt, output, r.commands, r.tools, r.denied, usage, stop)),
         State(KeepLast(st.messages + [r.prompt], s.config.compactAfterTurns),
               KeepLast(st.entries + [r.prompt], s.config.compactAfterTurns),
               false, st.denials + r.denied, usage))
  }

  // ---------- the classes ----------

  class TranscriptStore {
    var entries: seq<string>
    var flushed: bool

    constructor (entries: seq<string>, flushed: bool)
      ensures this.entries == entries && this.flushed == flushed
    {
      this.entries, this.flushed := entries, flushed;
    }

    method Append(entry: string)
      modifies this
      ensures entries == old(entries) + [entry] && !flushed
    {
      entries := entries + [entry];
      flushed := false;
    }

    method Compact(keepLast: int)
      modifies this
      ensures entries == KeepLast(old(entries), keepLast) && flushed == old(flushed)
    {
      if |entries| > keepLast {
        entries := KeepLast(entries, keepLast);
      }
    }

    method Flush()
      modifies this
      ensures entries == old(entries) && flushed
    {
      flushed := true;
    }
  }

  class QueryEnginePort {
    var setting: Setting
    var mutableMessages: seq<string>
    var permissionDenials: seq<Denial>
    var totalUsage: Usage
    const transcriptStore: TranscriptStore

    ghost function Now(): State
      reads this, transcriptStore
    {
      State(mutableMessages, transcriptStore.entries, transcriptStore.flushed, permissionDenials, totalUsage)
    }

    constructor (setting: Setting)
      ensures this.setting == setting && fresh(transcriptStore)
      ensures Now() == Fresh
    {
      this.setting := setting;
      mutableMessages, permissionDenials, totalUsage := [], [], Usage(0, 0);
      transcriptStore := new TranscriptStore([], false);
    }

    /** `from_saved_session`: a session with default settings and the stored messages. */
    constructor FromSaved(stored: StoredSession, dumps: (seq<string>, string) -> string)
      ensures setting == Setting(DEFAULT_CONFIG, stored.sessionId, dumps) && fresh(transcriptStore)
      ensures Now() == Restored(stored)
    {
      setting := Setting(DEFAULT_CONFIG, stored.sessionId, dumps);
      mutableMessages, permissionDenials := stored.messages, [];
      totalUsage := Usage(stored.inputTokens, stored.outputTokens);
      transcriptStore := new TranscriptStore(stored.messages, true);
    }

    method CompactMessagesIfNeeded()
      modifies this`mutableMessages, transcriptStore
      ensures mutableMessages == KeepLast(old(mutableMessages), setting.config.compactAfterTurns)
      ensures transcriptStore.entries == KeepLast(old(transcriptStore.entries), setting.config.compactAfterTurns)
      ensures transcriptStore.flushed == old(transcriptStore.flushed)
    {
      if |mutableMessages| > setting.config.compactAfterTurns {
        mutableMessages := KeepLast(mutableMessages, setting.config.compactAfterTurns);
      }
      transcriptStore.Compact(setting.config.compactAfterTurns);
    }

    method SubmitMessage(r: Request) returns (result: Option<TurnResult>)
      modifies this, transcriptStore
      ensures (result, Now()) == Submit(setting, old(Now()), r)
      ensures setting == old(setting)
    {
      if |mutableMessages| >= setting.config.maxTurns {
        result := Some(TurnResult(r.prompt, "Max turns reached before processing prompt: " + r.prompt, r.commands, r.tools,
                                  r.denied, totalUsage, MaxTurnsReached));
        return;
      }
      var output := FormatOutput(setting, r);
      if output.None? {
        return None;
      }
      var projected := AddTurn(totalUsage, r.prompt, output.value);
      var stopReason := Completed;
      if projected.inputTokens + projected.outputTokens > setting.config.maxBudgetTokens {
        stopReason := MaxBudgetReached;
      }
      mutableMessages := mutableMessages + [r.prompt];
      transcriptStore.Append(r.prompt);
      permissionDenials := permissionDenials + r.denied;
      totalUsage := projected;
      CompactMessagesIfNeeded();
      result := Some(TurnResult(r.prompt, output.value, r.commands, r.tools, r.denied, totalUsage, stopReason));
    }

    method PersistSession() returns (stored: StoredSession)
      modifies transcriptStore
      ensures stored == Stored(setting.sessionId, old(Now()))
      ensures Now() == old(Now()).(flushed := true)
    {
      transcriptStore.Flush();
      stored := StoredSession(setting.sessionId, mutableMessages, totalUsage.inputTokens, totalUsage.outputTokens);
    }
  }

  function Stored(id: string, st: State): StoredSession {
    StoredSession(id, st.messages, st.usage.inputTokens, st.usage.outputTokens)
  }

  function Restored(stored: StoredSession): State {
    State(stored.messages, stored.messages, true, [], Usage(stored.inputTokens, stored.outputTokens))
  }

  // ---------- whole sessions ----------

  function Run(s: Setting, st: State, rs: seq<Request>): State {
    if rs == [] then st else Submit(s, Run(s, st, rs[..|rs| - 1]), rs[|rs| - 1]).1
  }

  /** The request is processed: it is not refused and its output can be formatted. */
  predicate Accepts(s: Setting, st: State, r: Request) {
    !Refuses(s, st) && FormatOutput(s, r).Some?
  }

  function Accepted(s: Setting, st: State, rs: seq<Request>): seq<Request> {
    if rs == [] then []
    else
      var n := |rs| - 1;
      Accepted(s, st, rs[..n]) + if Accepts(s, Run(s, st, rs[..n]), rs[n]) then [rs[n]] else []
  }

  function Prompts(rs: seq<Request>): seq<string> {
    seq(|rs|, i requires 0 <= i < |rs| => rs[i].prompt)
  }

  function AllDenials(rs: seq<Request>): seq<Denial> {
    if rs == [] then [] else AllDenials(rs[..|rs| - 1]) + rs[|rs| - 1].denied
  }

  function InputWords(rs: seq<Request>): nat {
    if rs == [] then 0 else InputWords(rs[..|rs| - 1]) + WordCount(rs[|rs| - 1].prompt)
  }

  function OutputWords(s: Setting, rs: seq<Request>): nat {
    if rs == [] then 0
    else OutputWords(s, rs[..|rs| - 1]) +
         match FormatOutput(s, rs[|rs| - 1]) case None => 0 case Some(output) => WordCount(output)
  }

  /** The last `k` elements, all for `k == 0`, none for a negative `k`. */
  function Window(xs: seq<string>, k: int): seq<string> {
    if k < 0 then [] else if k == 0 || |xs| <= k then xs else xs[|xs| - k..]
  }

  lemma KeepLastOfWindow(xs: seq<string>, x: string, k: int)
    ensures KeepLast(Window(xs, k) + [x], k) == Window(xs + [x], k)
  {
    var w := Window(xs, k);
    if k > 0 && |xs| >= k {
      assert (w + [x])[1..] == (xs + [x])[|xs| + 1 - k..];
    }
  }

  /** Refused and raising submissions leave every field as it was. */
  lemma RefusedChangesNothing(s: Setting, st: State, r: Request)
    ensures !Accepts(s, st, r) ==> Submit(s, st, r).1 == st
    ensures Refuses(s, st) <==> Submit(s, st, r).0.Some? && Submit(s, st, r).0.value.stopReason == MaxTurnsReached
  {
  }

  /** What the state records of the accepted requests. */
  ghost predicate History(s: Setting, st: State, accepted: seq<Request>) {
    && st.messages == st.entries == Window(Prompts(accepted), s.config.compactAfterTurns)
    && st.usage == Usage(InputWords(accepted), OutputWords(s, accepted))
    && st.denials == AllDenials(accepted) && !st.flushed
  }

  lemma HistoryGrows(s: Setting, st: State, accepted: seq<Request>, r: Request)
    requires History(s, st, accepted) && Accepts(s, st, r)
    ensures History(s, Submit(s, st, r).1, accepted + [r])
  {
    var all := accepted + [r];
    assert Prompts(all) == Prompts(accepted) + [r.prompt];
    assert all[..|accepted|] == accepted;
    KeepLastOfWindow(Prompts(accepted), r.prompt, s.config.compactAfterTurns);
  }

  /** Over every session from a fresh engine: messages and transcript agree and are the
      window of accepted prompts, the usage is the sum of the word counts of accepted
      prompts and their outputs, and the denials are those of the accepted requests. */
  lemma {:induction false} SessionHistory(s: Setting, rs: seq<Request>)
    ensures History(s, Run(s, Fresh, rs), Accepted(s, Fresh, rs))
  {
    if rs != [] {
      var n := |rs| - 1;
      SessionHistory(s, rs[..n]);
      var st, accepted := Run(s, Fresh, rs[..n]), Accepted(s, Fresh, rs[..n]);
      if Accepts(s, st, rs[n]) {
        HistoryGrows(s, st, accepted, rs[n]);
      } else {
        RefusedChangesNothing(s, st, rs[n]);
        assert accepted + [] == accepted;
      }
    }
  }

  /** A window at least as large as the turn limit, or no compaction at all, lets the gate
      see every accepted prompt. */
  predicate GateSeesAll(c: Config) {
    c.compactAfterTurns == 0 || c.compactAfterTurns >= c.maxTurns
  }

  /** When the gate closes, in terms of the number of accepted prompts. */
  lemma GateAfter(s: Setting, rs: seq<Request>)
    requires s.config.maxTurns > 0
    ensures Refuses(s, Run(s, Fresh, rs)) <==>
              GateSeesAll(s.config) && |Accepted(s, Fresh, rs)| >= s.config.maxTurns
  {
    SessionHistory(s, rs);
  }

  /** Structured output without attempts: formatting raises for every request. */
  predicate AlwaysRaises(c: Config) {
    c.structuredOutput && c.structuredRetryLimit <= 0
  }

  /** The requests that are processed. */
  function LetThrough(c: Config, rs: seq<Request>): seq<Request> {
    if c.maxTurns <= 0 || AlwaysRaises(c) then []
    else if GateSeesAll(c) && |rs| > c.maxTurns then rs[..c.maxTurns]
    else rs
  }

  lemma AcceptedStep(s: Setting, init: seq<Request>, r: Request)
    ensures Accepted(s, Fresh, init + [r]) ==
              if Refuses(s, Run(s, Fresh, init)) || AlwaysRaises(s.config) then Accepted(s, Fresh, init) else Accepted(s, Fresh, init) + [r]
  {
    assert (init + [r])[..|init|] == init;
    assert Accepted(s, Fresh, init) + [] == Accepted(s, Fresh, init);
  }

  lemma LetThroughStep(c: Config, init: seq<Request>, r: Request)
    requires c.maxTurns > 0 && !AlwaysRaises(c)
    ensures LetThrough(c, init + [r]) ==
              if GateSeesAll(c) && |LetThrough(c, init)| >= c.maxTurns then LetThrough(c, init) else LetThrough(c, init) + [r]
  {
    if GateSeesAll(c) && |init| >= c.maxTurns {
      assert (init + [r])[..c.maxTurns] == init[..c.maxTurns];
      assert init[..|init|] == init;
    }
  }

  /** Exactly the first `max_turns` prompts are accepted if the window keeps that many; with a
      smaller window the gate never fires (given a positive limit). If formatting always
      raises, nothing is accepted. */
  lemma {:induction false} GateExactly(s: Setting, rs: seq<Request>)
    ensures Accepted(s, Fresh, rs) == LetThrough(s.config, rs)
  {
    if rs != [] {
      var init, r := rs[..|rs| - 1], rs[|rs| - 1];
      assert rs == init + [r];
      GateExactly(s, init);
      AcceptedStep(s, init, r);
      if s.config.maxTurns > 0 && !AlwaysRaises(s.config) {
        GateAfter(s, init);
        LetThroughStep(s.config, init, r);
      } else if s.config.maxTurns <= 0 {
        assert Refuses(s, Run(s, Fresh, init));
      }
    }
  }

  /** The budget verdict reports whether the usage with this turn exceeds the budget; the
      turn is recorded either way. */
  lemma BudgetVerdict(s: Setting, st: State, r: Request)
    requires Accepts(s, st, r)
    ensures var (result, st') := Submit(s, st, r);
            && result.Some? && result.value.usage == st'.usage
            && (result.value.stopReason == MaxBudgetReached <==>
                  st'.usage.inputTokens + st'.usage.outputTokens > s.config.maxBudgetTokens)
            && st'.usage.inputTokens == st.usage.inputTokens + WordCount(r.prompt)
  {
  }

  /** Storing a session and resuming it gives back messages, usage and identity, and a
      transcript that agrees with the messages. */
  lemma {:induction false} ResumeRestores(s: Setting, rs: seq<Request>)
    ensures var st := Run(s, Fresh, rs);
            Restored(Stored(s.sessionId, st)) == State(st.messages, st.entries, true, [], st.usage)
  {
    SessionHistory(s, rs);
  }

  /** What the results of later turns depend on. */
  predicate SameSession(a: State, b: State) {
    a.messages == b.messages && a.entries == b.entries && a.usage == b.usage
  }

  lemma {:induction false} SameSessionsRunAlike(s: Setting, a: State, b: State, rs: seq<Request>)
    requires SameSession(a, b)
    ensures SameSession(Run(s, a, rs), Run(s, b, rs))
  {
    if rs != [] {
      SameSessionsRunAlike(s, a, b, rs[..|rs| - 1]);
    }
  }

  lemma {:induction false} RunOn(s: Setting, st: State, rs: seq<Request>, more: seq<Request>)
    ensures Run(s, st, rs + more) == Run(s, Run(s, st, rs), more)
  {
    hide Submit;
    if more == [] {
      assert rs + more == rs;
    } else {
      var n := |more| - 1;
      RunOn(s, st, rs, more[..n]);
      assert (rs + more)[..|rs| + n] == rs + more[..n];
    }
  }

  /** With default settings, storing and resuming at any point is invisible to every later
      turn: it has the result that it would have had without the interruption. */
  lemma {:induction false} ResumeContinues(id: string, dumps: (seq<string>, string) -> string, before: seq<Request>,
                                           after: seq<Request>, r: Request)
    ensures var s := Setting(DEFAULT_CONFIG, id, dumps);
            var resumed := Restored(Stored(id, Run(s, Fresh, before)));
            Submit(s, Run(s, resumed, after), r).0 == Submit(s, Run(s, Fresh, before + after), r).0
  {
    var s := Setting(DEFAULT_CONFIG, id, dumps);
    var st := Run(s, Fresh, before);
    ResumeRestores(s, before);
    SameSessionsRunAlike(s, Restored(Stored(id, st)), st, after);
    RunOn(s, Fresh, before, after);
  }

  /** Once the gate closes it stays closed, and no further submission changes anything. */
  lemma {:induction false} RefusedForever(s: Setting, st: State, rs: seq<Request>)
    requires Refuses(s, st)
    ensures Run(s, st, rs) == st
  {
    if rs != [] {
      RefusedForever(s, st, rs[..|rs| - 1]);
    }
  }

  function Spent(u: Usage): nat {
    u.inputTokens + u.outputTokens
  }

  lemma {:induction false} UsageGrows(s: Setting, st: State, rs: seq<Request>)
    ensures Run(s, st, rs).usage.inputTokens >= st.usage.inputTokens
    ensures Run(s, st, rs).usage.outputTokens >= st.usage.outputTokens
  {
    if rs != [] {
      UsageGrows(s, st, rs[..|rs| - 1]);
      UsageStep(s, Run(s, st, rs[..|rs| - 1]), rs[|rs| - 1]);
    }
  }

  lemma UsageStep(s: Setting, st: State, r: Request)
    ensures Submit(s, st, r).1.usage.inputTokens >= st.usage.inputTokens
    ensures Submit(s, st, r).1.usage.outputTokens >= st.usage.outputTokens
  {
  }

  /** Once the budget is exceeded, no later turn is reported as completed. */
  lemma OverBudgetForever(s: Setting, st: State, rs: seq<Request>, r: Request)
    requires Spent(st.usage) > s.config.maxBudgetTokens
    ensures var result := Submit(s, Run(s, st, rs), r).0; result.Some? ==> result.value.stopReason != Completed
  {
    hide WordCount, Run;
    var now := Run(s, st, rs);
    UsageGrows(s, st, rs);
    UsageStep(s, now, r);
    if Accepts(s, now, r) {
      BudgetVerdict(s, now, r);
    } else {
      RefusedChangesNothing(s, now, r);
    }
  }

  // ---------- the words of a plain output ----------

  lemma SpacedWords(a: string, b: string)
    ensures Words(a + " " + b, IsPySpace) == Words(a, IsPySpace) + Words(b, IsPySpace)
  {
    WordsAround(a, b, ' ', IsPySpace);
  }

  lemma LineWords(lines: seq<string>)
    requires |lines| == 4
    ensures WordCount(Join(lines, '\n')) == WordCount(lines[0]) + WordCount(lines[1]) + WordCount(lines[2]) + WordCount(lines[3])
  {
    WordsAround(lines[2], lines[3], '\n', IsPySpace);
    assert lines[3..] == [lines[3]] && lines[2..] == [lines[2]] + lines[3..] && lines[1..] == [lines[1]] + lines[2..];
    assert Join(lines[2..], '\n') == lines[2] + ['\n'] + lines[3];
    WordsAround(lines[1], Join(lines[2..], '\n'), '\n', IsPySpace);
    assert Join(lines[1..], '\n') == lines[1] + ['\n'] + Join(lines[2..], '\n');
    WordsAround(lines[0], Join(lines[1..], '\n'), '\n', IsPySpace);
  }

  /** A run of printable ASCII characters without a space. */
  predicate Visible(w: string) {
    forall i :: 0 <= i < |w| ==> '!' <= w[i] <= '~'
  }

  lemma {:induction false} VisibleIsWord(w: string, word: string)
    requires Visible(w)
    ensures WordsFrom(w, word, IsPySpace) == Flush(word + w)
    decreases |w|
  {
    if w == "" {
      assert word + w == word;
    } else {
      VisibleIsWord(w[1..], word + [w[0]]);
      assert word + [w[0]] + w[1..] == word + w;
    }
  }

  lemma TwoWords(a: string, b: string)
    requires a != "" && b != "" && Visible(a) && Visible(b)
    ensures WordCount(a + " " + b) == 2
  {
    SpacedWords(a, b);
    VisibleIsWord(a, "");
    VisibleIsWord(b, "");
    assert "" + a == a && "" + b == b;
  }

  lemma DigitsAreOneWord(s: string)
    requires Digits(s) && s != ""
    ensures WordCount(s) == 1
  {
    assert forall i :: 0 <= i < |s| ==> s[i] in s && IsDigit(s[i]);
    VisibleIsWord(s, "");
    assert "" + s == s;
  }

  lemma LabelledWords(caption: string, text: string, line: string)
    requires line == caption + " " + text
    ensures WordCount(line) == WordCount(caption) + WordCount(text)
  {
    SpacedWords(caption, text);
  }

  /** A plain output costs the words of its prompt and names and eight fixed words, so
      every accepted turn counts the prompt twice. */
  lemma PlainOutputWords(s: Setting, r: Request)
    requires !s.config.structuredOutput
    ensures FormatOutput(s, r).Some?
    ensures WordCount(FormatOutput(s, r).value)
         == 8 + WordCount(r.prompt) + WordCount(NamesOrNone(r.commands)) + WordCount(NamesOrNone(r.tools))
  {
    hide WordCount, CommaList, Dec;
    var lines := SummaryLines(r);
    var count := Dec(|r.denied|);
    LineWords(lines);
    LabelledWords("Prompt:", r.prompt, lines[0]);
    LabelledWords("Matched commands:", NamesOrNone(r.commands), lines[1]);
    LabelledWords("Matched tools:", NamesOrNone(r.tools), lines[2]);
    LabelledWords("Permission denials:", count, lines[3]);
    DigitsAreOneWord(count);
    PromptLabel();
    CommandsLabel();
    ToolsLabel();
    DenialsLabel();
  }

  lemma PromptLabel()
    ensures WordCount("Prompt:") == 1
  {
    VisibleIsWord("Prompt:", "");
    assert "" + "Prompt:" == "Prompt:";
  }

  lemma CommandsLabel()
    ensures WordCount("Matched commands:") == 2
  {
    TwoWords("Matched", "commands:");
    assert "Matched commands:" == "Matched" + " " + "commands:";
  }

  lemma ToolsLabel()
    ensures WordCount("Matched tools:") == 2
  {
    TwoWords("Matched", "tools:");
    assert "Matched tools:" == "Matched" + " " + "tools:";
  }

  lemma DenialsLabel()
    ensures WordCount("Permission denials:") == 2
  {
    TwoWords("Permission", "denials:");
    assert "Permission denials:" == "Permission" + " " + "denials:";
  }

  // ---------- the turn loop ----------

  function TurnPrompt(prompt: string, turn: nat): string {
    if turn == 0 then prompt else prompt + " [turn " + Dec(turn + 1) + "]"
  }

  function LoopConfig(maxTurns: int, structured: bool): Config {
    DEFAULT_CONFIG.(maxTurns := maxTurns, structuredOutput := structured)
  }

  /** The requests of `run_turn_loop`, of which the first `n` are submitted. */
  function LoopRequests(prompt: string, commands: seq<string>, tools: seq<string>, n: nat): (rs: seq<Request>)
    ensures |rs| == n
  {
    if n == 0 then []
    else LoopRequests(prompt, commands, tools, n - 1) + [Request(TurnPrompt(prompt, n - 1), commands, tools, [])]
  }

  /** The result of turn `i` of the loop. */
  function LoopTurn(s: Setting, prompt: string, commands: seq<string>, tools: seq<string>, i: nat): Option<TurnResult> {
    Submit(s, Run(s, Fresh, LoopRequests(prompt, commands, tools, i)), Request(TurnPrompt(prompt, i), commands, tools, [])).0
  }

  lemma LoopStep(s: Setting, prompt: string, commands: seq<string>, tools: seq<string>, i: nat)
    requires s.config.structuredRetryLimit > 0 && i < s.config.maxTurns
    ensures var st := Run(s, Fresh, LoopRequests(prompt, commands, tools, i));
            var r := Request(TurnPrompt(prompt, i), commands, tools, []);
            && Submit(s, st, r).0.Some? && Submit(s, st, r).0.value.stopReason != MaxTurnsReached
            && Run(s, Fresh, LoopRequests(prompt, commands, tools, i + 1)) == Submit(s, st, r).1
  {
    GateOpen(s, LoopRequests(prompt, commands, tools, i));
    assert LoopRequests(prompt, commands, tools, i + 1)[..i] == LoopRequests(prompt, commands, tools, i);
  }

  /** The results of the first turns, each but the last one completed. */
  ghost predicate LoopResults(s: Setting, prompt: string, commands: seq<string>, tools: seq<string>, results: seq<TurnResult>) {
    results != [] ==>
      var n := |results| - 1;
      && LoopResults(s, prompt, commands, tools, results[..n])
      && (n > 0 ==> results[n - 1].stopReason == Completed)
      && LoopTurn(s, prompt, commands, tools, n) == Some(results[n])
      && results[n].stopReason != MaxTurnsReached
  }

  lemma LoopResultsGrow(s: Setting, prompt: string, commands: seq<string>, tools: seq<string>,
                        results: seq<TurnResult>, result: TurnResult)
    requires LoopResults(s, prompt, commands, tools, results)
    requires results != [] ==> results[|results| - 1].stopReason == Completed
    requires LoopTurn(s, prompt, commands, tools, |results|) == Some(result) && result.stopReason != MaxTurnsReached
    ensures LoopResults(s, prompt, commands, tools, results + [result])
  {
    hide LoopTurn;
    assert (results + [result])[..|results|] == results;
  }

  /** The engine stands where the first `turn` turns of the loop leave it. */
  ghost predicate AtTurn(engine: QueryEnginePort, s: Setting, prompt: string, commands: seq<string>, tools: seq<string>,
                         turn: nat)
    reads engine, engine.transcriptStore
  {
    engine.setting == s && engine.Now() == Run(s, Fresh, LoopRequests(prompt, commands, tools, turn))
  }

  /** The body of the loop. */
  method TakeTurn(engine: QueryEnginePort, prompt: string, commands: seq<string>, tools: seq<string>,
                  ghost s: Setting, results: seq<TurnResult>)
    returns (result: TurnResult)
    requires s.config.structuredRetryLimit > 0 && |results| < s.config.maxTurns
    requires AtTurn(engine, s, prompt, commands, tools, |results|)
    requires LoopResults(s, prompt, commands, tools, results)
    requires results != [] ==> results[|results| - 1].stopReason == Completed
    modifies engine, engine.transcriptStore
    ensures AtTurn(engine, s, prompt, commands, tools, |results| + 1)
    ensures LoopResults(s, prompt, commands, tools, results + [result])
    ensures result.stopReason != MaxTurnsReached
  {
    LoopStep(s, prompt, commands, tools, |results|);
    var submitted := engine.SubmitMessage(Request(TurnPrompt(prompt, |results|), commands, tools, []));
    result := submitted.value;
    LoopResultsGrow(s, prompt, commands, tools, results, result);
  }

  /** `run_turn_loop`: it stops at the first turn that exceeds the budget or after
      `max_turns` turns, and the turn gate never fires. */
  method RunTurnLoop(prompt: string, commands: seq<string>, tools: seq<string>, maxTurns: int, structured: bool,
                     sessionId: string, dumps: (seq<string>, string) -> string) returns (results: seq<TurnResult>)
    ensures |results| <= if maxTurns > 0 then maxTurns else 0
    ensures LoopResults(Setting(LoopConfig(maxTurns, structured), sessionId, dumps), prompt, commands, tools, results)
    ensures |results| < maxTurns ==> |results| > 0 && results[|results| - 1].stopReason == MaxBudgetReached
  {
    hide Submit, LoopTurn;
    var setting := Setting(LoopConfig(maxTurns, structured), sessionId, dumps);
    var engine := new QueryEnginePort(setting);
    results := [];
    var turn := 0;
    while turn < maxTurns
      invariant fresh(engine) && fresh(engine.transcriptStore)
      invariant 0 <= turn == |results| && (turn <= maxTurns || turn == 0)
      invariant AtTurn(engine, setting, prompt, commands, tools, turn)
      invariant LoopResults(setting, prompt, commands, tools, results)
      invariant turn > 0 ==> results[turn - 1].stopReason == Completed
    {
      var result := TakeTurn(engine, prompt, commands, tools, setting, results);
      results := results + [result];
      if result.stopReason != Completed {
        return;
      }
      turn := turn + 1;
    }
  }

  lemma {:induction false} AcceptedAtMost(s: Setting, rs: seq<Request>)
    ensures |Accepted(s, Fresh, rs)| <= |rs|
  {
    if rs != [] {
      AcceptedAtMost(s, rs[..|rs| - 1]);
    }
  }

  /** Fewer submissions than the limit never close the gate. */
  lemma GateOpen(s: Setting, rs: seq<Request>)
    requires |rs| < s.config.maxTurns
    ensures !Refuses(s, Run(s, Fresh, rs))
  {
    SessionHistory(s, rs);
    AcceptedAtMost(s, rs);
  }
}
