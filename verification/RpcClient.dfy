/** `PiRpcClient`: one child process, a chain of prompts, and the events that settle
    them: output lines, timers, write callbacks, process errors and the process closing. */
module RpcClient {
  import opened Text

  /** `PendingPrompt`; request number `n` has the id `req-n`. */
  datatype Pending = Pending(id: nat, responseReceived: bool)

  /** The promise of one call of `prompt`. A written prompt carries its request number;
      a resolved one also the number of the request whose answer resolved it. */
  datatype Promise = Queued | Active(id: nat) | Resolved(id: nat, answer: nat) | Rejected(written: Option<nat>)

  /** One line of the child's output. `AgentEnd` is tagged with the request it answers,
      which the client cannot see; `ok` says whether a translation could be extracted.
      `Null` is the JSON value `null`, and `Noise` any other line the client ignores. */
  datatype Line = Noise | Null | Response(id: nat, success: bool) | AgentEnd(ok: bool, answer: nat)

  datatype Event =
    | PromptCalled
    | JobRuns                  // the `then` callback of the oldest prompt still in the chain
    | LineRead(line: Line)
    | TimerFires(id: nat)
    | WriteDone(id: nat)
    | WriteFails(id: nat)
    | ProcessError
    | ProcessClosed
    | CloseCalled

  /** `timers` and `heartbeats` are the armed ones, `unwritten` the writes whose callback
      is still to come, `prompts` the promises in call order, chained by `sequence`. */
  datatype State = State(
    closed: bool, pending: Option<Pending>, requestCount: nat, prompts: seq<Promise>,
    timers: set<nat>, heartbeats: set<nat>, unwritten: set<nat>)

  const Booted := State(false, None, 0, [], {}, {}, {})

  /** A promise settles at most once: only an active one changes. */
  function Settle(prompts: seq<Promise>, id: nat, outcome: Promise): (r: seq<Promise>)
    ensures |r| == |prompts|
    ensures forall i | 0 <= i < |r| :: r[i] == if prompts[i] == Active(id) then outcome else prompts[i]
  {
    seq(|prompts|, i requires 0 <= i < |prompts| => if prompts[i] == Active(id) then outcome else prompts[i])
  }

  /** `this.pending = null` followed by the `resolve` or `reject` of the pending prompt. */
  function SettlePending(s: State, outcome: Promise): State {
    if s.pending.None? then s
    else
      var id := s.pending.value.id;
      s.(pending := None, timers := s.timers - {id}, heartbeats := s.heartbeats - {id},
         prompts := Settle(s.prompts, id, outcome))
  }

  function RejectPending(s: State): State {
    if s.pending.None? then s else SettlePending(s, Rejected(Some(s.pending.value.id)))
  }

  function FirstQueued(prompts: seq<Promise>): nat {
    if prompts == [] || prompts[0].Queued? then 0 else 1 + FirstQueued(prompts[1..])
  }

  function RunJob(s: State): State {
    var i := FirstQueued(s.prompts);
    if i >= |s.prompts| || (i > 0 && s.prompts[i - 1].Active?) then s
    else if (i > 0 && s.prompts[i - 1].Rejected?) || s.closed then s.(prompts := s.prompts[i := Rejected(None)])
    else
      var id := s.requestCount + 1;
      s.(requestCount := id, pending := Some(Pending(id, false)), prompts := s.prompts[i := Active(id)],
         timers := s.timers + {id}, heartbeats := s.heartbeats + {id}, unwritten := s.unwritten + {id})
  }

  function HandleLine(s: State, line: Line): State {
    match line
    case Noise => s
    case Null => s
    case Response(id, success) =>
      if s.pending.None? || s.pending.value.id != id then s
      else if success then s.(pending := Some(Pending(id, true)))
      else RejectPending(s)
    case AgentEnd(ok, answer) =>
      if s.pending.None? then s
      else if ok then SettlePending(s, Resolved(s.pending.value.id, answer))
      else RejectPending(s)
  }

  predicate IsPending(s: State, id: nat) {
    s.pending.Some? && s.pending.value.id == id
  }

  /** What an event does; a timer or callback that is not due cannot happen. */
  function Step(s: State, e: Event): State {
    match e
    case PromptCalled => s.(prompts := s.prompts + [Queued])
    case JobRuns => RunJob(s)
    case LineRead(line) => HandleLine(s, line)
    case TimerFires(id) =>
      if id !in s.timers then s
      else if !IsPending(s, id) then s.(timers := s.timers - {id})
      else s.(timers := s.timers - {id}, pending := None, heartbeats := s.heartbeats - {id}, closed := true,
              prompts := Settle(s.prompts, id, Rejected(Some(id))))
    case WriteDone(id) => s.(unwritten := s.unwritten - {id})
    case WriteFails(id) =>
      if id !in s.unwritten then s
      else s.(unwritten := s.unwritten - {id}, timers := s.timers - {id}, heartbeats := s.heartbeats - {id},
              pending := if IsPending(s, id) then None else s.pending,
              prompts := Settle(s.prompts, id, Rejected(Some(id))))
    case ProcessError => RejectPending(s)
    case ProcessClosed => RejectPending(s.(closed := true))
    case CloseCalled => s.(closed := true)
  }

  function Run(s: State, events: seq<Event>): State {
    if events == [] then s else Step(Run(s, events[..|events| - 1]), events[|events| - 1])
  }

  // ---------- the class ----------

  class PiRpcClient {
    var closed: bool
    var pending: Option<Pending>
    var requestCount: nat
    var prompts: seq<Promise>
    var timers: set<nat>
    var heartbeats: set<nat>
    var unwritten: set<nat>

    ghost function Now(): State
      reads this
    {
      State(closed, pending, requestCount, prompts, timers, heartbeats, unwritten)
    }

    constructor ()
      ensures Now() == Booted
    {
      closed, pending, requestCount, prompts := false, None, 0, [];
      timers, heartbeats, unwritten := {}, {}, {};
    }

    method Prompt()
      modifies this
      ensures Now() == Step(old(Now()), PromptCalled)
    {
      prompts := prompts + [Queued];
    }

    /** The callback that `prompt` appends to the chain. */
    method RunNextJob()
      modifies this
      ensures Now() == Step(old(Now()), JobRuns)
    {
      var i := 0;
      while i < |prompts| && !prompts[i].Queued?
        invariant 0 <= i <= |prompts|
        invariant i + FirstQueued(prompts[i..]) == FirstQueued(prompts)
      {
        assert prompts[i..][1..] == prompts[i + 1..];
        i := i + 1;
      }
      if i == |prompts| || (i > 0 && prompts[i - 1].Active?) {
        return;
      }
      if (i > 0 && prompts[i - 1].Rejected?) || closed {
        prompts := prompts[i := Rejected(None)];
        return;
      }
      requestCount := requestCount + 1;
      var id := requestCount;
      heartbeats := heartbeats + {id};
      timers := timers + {id};
      pending := Some(Pending(id, false));
      prompts := prompts[i := Active(id)];
      unwritten := unwritten + {id};
    }

    method SettleCurrent(outcome: Promise)
      requires pending.Some?
      modifies this
      ensures Now() == SettlePending(old(Now()), outcome)
    {
      var id := pending.value.id;
      pending := None;
      timers := timers - {id};
      heartbeats := heartbeats - {id};
      prompts := Settle(prompts, id, outcome);
    }

    method RejectCurrent()
      modifies this
      ensures Now() == RejectPending(old(Now()))
    {
      if pending.Some? {
        SettleCurrent(Rejected(Some(pending.value.id)));
      }
    }

    /** The handler throws on `null` while a prompt is pending, before it changes anything. */
    method HandleStdoutLine(line: Line) returns (threw: bool)
      modifies this
      ensures Now() == Step(old(Now()), LineRead(line))
      ensures threw <==> line.Null? && old(pending).Some?
    {
      threw := false;
      if line.Noise? || pending.None? {
        return;
      }
      match line {
        case Null =>
          threw := true;
        case Response(id, success) =>
          if id != pending.value.id {
            return;
          }
          if !success {
            RejectCurrent();
            return;
          }
          pending := Some(Pending(pending.value.id, true));
        case AgentEnd(ok, answer) =>
          if ok {
            SettleCurrent(Resolved(pending.value.id, answer));
          } else {
            RejectCurrent();
          }
        case Noise =>
      }
    }

    method OnTimer(id: nat)
      requires id in timers
      modifies this
      ensures Now() == Step(old(Now()), TimerFires(id))
    {
      timers := timers - {id};
      if pending.Some? && pending.value.id == id {
        pending := None;
        heartbeats := heartbeats - {id};
        closed := true;
        prompts := Settle(prompts, id, Rejected(Some(id)));
      }
    }

    method OnWriteError(id: nat)
      requires id in unwritten
      modifies this
      ensures Now() == Step(old(Now()), WriteFails(id))
    {
      unwritten := unwritten - {id};
      timers := timers - {id};
      heartbeats := heartbeats - {id};
      if pending.Some? && pending.value.id == id {
        pending := None;
      }
      prompts := Settle(prompts, id, Rejected(Some(id)));
    }

    method OnProcessError()
      modifies this
      ensures Now() == Step(old(Now()), ProcessError)
    {
      RejectCurrent();
    }

    method OnProcessClose()
      modifies this
      ensures Now() == Step(old(Now()), ProcessClosed)
    {
      closed := true;
      RejectCurrent();
    }

    method Close()
      modifies this
      ensures Now() == Step(old(Now()), CloseCalled)
    {
      closed := true;
    }
  }

  // ---------- what every interleaving keeps ----------

  /** What stands at position `i` of the chain when `n` prompts have been written. */
  predicate Placed(p: Promise, i: nat, n: nat) {
    match p
    case Queued => i >= n
    case Active(id) => id == i + 1 == n
    case Resolved(id, _) => id == i + 1 <= n
    case Rejected(Some(id)) => id == i + 1 == n
    case Rejected(None) => i >= n
  }

  /** Which promises may stand behind which. */
  predicate Before(p: Promise, q: Promise) {
    && (p.Queued? || p.Active? ==> q.Queued?)
    && (p.Rejected? ==> q.Queued? || q == Rejected(None))
  }

  /** The chain of promises: resolved ones in request order, then at most one prompt in
      flight or a first rejection that poisons everything behind it, then queued ones. */
  ghost predicate Chain(s: State) {
    && s.requestCount <= |s.prompts|
    && (forall i | 0 <= i < |s.prompts| :: Placed(s.prompts[i], i, s.requestCount))
    && (forall i, j | 0 <= i < j < |s.prompts| :: Before(s.prompts[i], s.prompts[j]))
  }

  /** The armed timer and heartbeat belong exactly to the one pending prompt. */
  ghost predicate Armed(s: State) {
    && s.timers == s.heartbeats == (if s.pending.Some? then {s.pending.value.id} else {})
    && (forall id <- s.unwritten :: 1 <= id <= s.requestCount)
  }

  ghost predicate PendingIsActive(s: State) {
    && (s.pending.Some? ==>
          && s.pending.value.id == s.requestCount && 1 <= s.requestCount <= |s.prompts|
          && s.prompts[s.requestCount - 1].Active?)
    && (forall i | 0 <= i < |s.prompts| && s.prompts[i].Active? :: IsPending(s, s.prompts[i].id))
  }

  ghost predicate Inv(s: State) {
    Chain(s) && Armed(s) && PendingIsActive(s)
  }

  lemma {:induction false} FirstQueuedLaw(prompts: seq<Promise>)
    ensures FirstQueued(prompts) <= |prompts|
    ensures forall i | 0 <= i < FirstQueued(prompts) :: !prompts[i].Queued?
    ensures FirstQueued(prompts) < |prompts| ==> prompts[FirstQueued(prompts)].Queued?
  {
    if prompts != [] && !prompts[0].Queued? {
      FirstQueuedLaw(prompts[1..]);
    }
  }

  /** If the prompt before the first queued one is resolved, all before it are. */
  lemma ResolvedPrefix(s: State)
    requires Chain(s)
    ensures var i := FirstQueued(s.prompts);
            && s.requestCount <= i <= |s.prompts|
            && (forall j | 0 <= j < |s.prompts| :: s.prompts[j].Queued? <==> i <= j)
            && ((i > 0 ==> s.prompts[i - 1].Resolved?) ==>
                  i == s.requestCount && forall j | 0 <= j < i :: s.prompts[j].Resolved?)
  {
    FirstQueuedLaw(s.prompts);
    var i := FirstQueued(s.prompts);
    if i < |s.prompts| {
      assert Placed(s.prompts[i], i, s.requestCount);
      forall j | i < j < |s.prompts|
        ensures s.prompts[j].Queued?
      {
        assert Before(s.prompts[i], s.prompts[j]);
      }
    }
    if i > 0 && s.prompts[i - 1].Resolved? {
      assert Placed(s.prompts[i - 1], i - 1, s.requestCount);
      forall j | 0 <= j < i
        ensures s.prompts[j].Resolved?
      {
        assert j < i - 1 ==> Before(s.prompts[j], s.prompts[i - 1]);
      }
    }
  }

  lemma RunJobInv(s: State)
    requires Inv(s)
    ensures Inv(RunJob(s))
  {
    ResolvedPrefix(s);
    var i := FirstQueued(s.prompts);
    var s' := RunJob(s);
    if s' != s {
      forall j, k | 0 <= j < k < |s.prompts|
        ensures Before(s'.prompts[j], s'.prompts[k])
      {
        assert Before(s.prompts[j], s.prompts[k]);
        if k == i && j < i - 1 {
          assert Before(s.prompts[j], s.prompts[i - 1]);
        }
      }
      forall j | 0 <= j < |s.prompts|
        ensures Placed(s'.prompts[j], j, s'.requestCount)
      {
        assert Placed(s.prompts[j], j, s.requestCount);
      }
    }
  }

  lemma SettlePendingInv(s: State, outcome: Promise)
    requires Inv(s) && s.pending.Some?
    requires outcome == Rejected(Some(s.pending.value.id)) || (outcome.Resolved? && outcome.id == s.pending.value.id)
    ensures Inv(SettlePending(s, outcome)) && SettlePending(s, outcome).pending.None?
  {
    var s' := SettlePending(s, outcome);
    var n := s.requestCount;
    forall j | 0 <= j < |s.prompts|
      ensures s'.prompts[j] == if j == n - 1 then outcome else s.prompts[j]
    {
      assert Placed(s.prompts[j], j, n);
    }
    forall j, k | 0 <= j < k < |s.prompts|
      ensures Before(s'.prompts[j], s'.prompts[k])
    {
      assert Before(s.prompts[j], s.prompts[k]);
    }
  }

  lemma StaleSettle(s: State, id: nat, outcome: Promise)
    requires Inv(s) && !IsPending(s, id)
    ensures Settle(s.prompts, id, outcome) == s.prompts
  {
  }

  lemma StepInv(s: State, e: Event)
    requires Inv(s)
    ensures Inv(Step(s, e))
  {
    match e
    case JobRuns => RunJobInv(s);
    case PromptCalled =>
    case LineRead(line) => HandleLineInv(s, line);
    case TimerFires(id) =>
      if s.pending.Some? {
        SettlePendingInv(s, Rejected(Some(s.pending.value.id)));
      }
    case WriteDone(id) =>
    case WriteFails(id) =>
      if IsPending(s, id) {
        SettlePendingInv(s, Rejected(Some(id)));
      } else {
        StaleSettle(s, id, Rejected(Some(id)));
      }
    case ProcessError => RejectPendingInv(s);
    case ProcessClosed => RejectPendingInv(s.(closed := true));
    case CloseCalled =>
  }

  lemma RejectPendingInv(s: State)
    requires Inv(s)
    ensures Inv(RejectPending(s))
  {
    if s.pending.Some? {
      SettlePendingInv(s, Rejected(Some(s.pending.value.id)));
    }
  }

  lemma HandleLineInv(s: State, line: Line)
    requires Inv(s)
    ensures Inv(HandleLine(s, line))
  {
    if s.pending.Some? {
      RejectPendingInv(s);
      if line.AgentEnd? {
        SettlePendingInv(s, Resolved(s.pending.value.id, line.answer));
      }
    }
  }

  /** In every interleaving at most one prompt is in flight, it is the last one written,
      and exactly its timer and heartbeat are armed. */
  lemma {:induction false} RunInv(events: seq<Event>)
    ensures Inv(Run(Booted, events))
    ensures var s := Run(Booted, events);
            && (forall i, j | 0 <= i < |s.prompts| && 0 <= j < |s.prompts| && s.prompts[i].Active? && s.prompts[j].Active? ::
                  i == j)
            && (forall i | 0 <= i < |s.prompts| && s.prompts[i].Active? ::
                  s.timers == s.heartbeats == {s.prompts[i].id} && IsPending(s, s.prompts[i].id))
  {
    if events != [] {
      RunInv(events[..|events| - 1]);
      StepInv(Run(Booted, events[..|events| - 1]), events[|events| - 1]);
    }
  }

  // ---------- settled once, never written after a rejection ----------

  predicate Settled(p: Promise) {
    p.Resolved? || p.Rejected?
  }

  /** Later states keep every promise that is settled, and write nothing once one is
      rejected. */
  ghost predicate Later(s: State, s': State) {
    && |s.prompts| <= |s'.prompts|
    && (forall i | 0 <= i < |s.prompts| && Settled(s.prompts[i]) :: s'.prompts[i] == s.prompts[i])
    && s.requestCount <= s'.requestCount
    && ((exists i :: 0 <= i < |s.prompts| && s.prompts[i].Rejected?) ==> s'.requestCount == s.requestCount)
  }

  lemma RunJobLater(s: State)
    requires Inv(s)
    ensures Later(s, RunJob(s))
  {
    ResolvedPrefix(s);
  }

  lemma StepLater(s: State, e: Event)
    requires Inv(s)
    ensures Later(s, Step(s, e))
  {
    if e.JobRuns? {
      RunJobLater(s);
    }
  }

  /** Every prompt settles at most once, and no prompt is written after a rejection. */
  lemma {:induction false} SettledOnce(s: State, events: seq<Event>)
    requires Inv(s)
    ensures Inv(Run(s, events)) && Later(s, Run(s, events))
  {
    if events != [] {
      var mid := Run(s, events[..|events| - 1]);
      SettledOnce(s, events[..|events| - 1]);
      StepLater(mid, events[|events| - 1]);
      StepInv(mid, events[|events| - 1]);
      if i :| 0 <= i < |s.prompts| && s.prompts[i].Rejected? {
        assert mid.prompts[i].Rejected?;
      }
    }
  }

  // ---------- what settles a prompt ----------

  /** The events on which the prompt with this request number settles while in flight. */
  predicate Settles(s: State, id: nat, e: Event) {
    match e
    case LineRead(Response(n, success)) => n == id && !success
    case LineRead(AgentEnd(_, _)) => true
    case TimerFires(n) => n == id
    case WriteFails(n) => n == id && id in s.unwritten
    case ProcessError => true
    case ProcessClosed => true
    case _ => false
  }

  /** The prompt in flight settles on exactly these events, and is resolved exactly by an
      `agent_end` that holds a translation; every other event leaves it in flight. */
  lemma SettledExactlyBy(s: State, i: nat, e: Event)
    requires Inv(s) && i < |s.prompts| && s.prompts[i].Active?
    ensures var p, p' := s.prompts[i], Step(s, e).prompts[i];
            && (p' != p <==> Settles(s, p.id, e))
            && (p' != p ==> p' == match e
                  case LineRead(AgentEnd(true, answer)) => Resolved(p.id, answer)
                  case _ => Rejected(Some(p.id)))
  {
    assert IsPending(s, s.prompts[i].id) && s.prompts[i].id in s.timers;
    if e.JobRuns? {
      ResolvedPrefix(s);
    }
  }

  // ---------- answers reach their own prompts ----------

  /** The peer sends at most one `agent_end` per written prompt, in the order of the
      prompts: its tags increase and never run ahead of the requests. */
  ghost predicate OrderlyPeer(events: seq<Event>) {
    events != [] ==>
      && OrderlyPeer(events[..|events| - 1])
      && var e := events[|events| - 1];
         e.LineRead? && e.line.AgentEnd? ==>
           LastAnswer(events[..|events| - 1]) < e.line.answer <= Run(Booted, events[..|events| - 1]).requestCount
  }

  function LastAnswer(events: seq<Event>): nat {
    if events == [] then 0
    else match events[|events| - 1]
      case LineRead(AgentEnd(_, answer)) => answer
      case _ => LastAnswer(events[..|events| - 1])
  }

  /** Every resolved prompt got its own answer. */
  ghost predicate Own(s: State) {
    forall p <- s.prompts | p.Resolved? :: p.answer == p.id
  }

  /** The event answers another prompt than the one in flight, which it resolves. */
  predicate Strays(s: State, e: Event) {
    e.LineRead? && e.line.AgentEnd? && e.line.ok && s.pending.Some? && e.line.answer != s.pending.value.id
  }

  /** What a step adds to the resolved prompts. */
  lemma NewlyResolved(s: State, e: Event)
    requires Inv(s)
    ensures var answered := e.LineRead? && e.line.AgentEnd? && e.line.ok && s.pending.Some?;
            forall p: Promise | p.Resolved? :: p in Step(s, e).prompts
              <==> p in s.prompts || (answered && p == Resolved(s.requestCount, e.line.answer))
  {
    var s' := Step(s, e);
    StepLater(s, e);
    forall p | p in s.prompts && p.Resolved?
      ensures p in s'.prompts
    {
      var i :| 0 <= i < |s.prompts| && s.prompts[i] == p;
      assert s'.prompts[i] == p;
    }
    if e.LineRead? && e.line.AgentEnd? && e.line.ok && s.pending.Some? {
      assert s'.prompts[s.requestCount - 1] == Resolved(s.requestCount, e.line.answer);
    }
  }

  lemma StepOwnExactly(s: State, e: Event)
    requires Inv(s)
    ensures Own(Step(s, e)) <==> Own(s) && !Strays(s, e)
  {
    hide Step, Chain, Armed;
    NewlyResolved(s, e);
    if Strays(s, e) {
      assert Resolved(s.requestCount, e.line.answer) in Step(s, e).prompts;
    }
  }

  /** The exact condition: over any run, all resolved prompts have their own answers if and
      only if no event strays. */
  lemma {:induction false} OwnExactly(events: seq<Event>)
    ensures Own(Run(Booted, events)) <==>
              forall k | 0 <= k < |events| :: !Strays(Run(Booted, events[..k]), events[k])
  {
    hide Step, Strays, Inv, Own;
    if events == [] {
      OwnAtBoot();
    } else {
      var n := |events| - 1;
      OwnExactly(events[..n]);
      RunInv(events[..n]);
      StepOwnExactly(Run(Booted, events[..n]), events[n]);
      assert forall k | 0 <= k < n :: events[..n][..k] == events[..k];
    }
  }

  lemma OwnAtBoot()
    ensures Own(Run(Booted, []))
  {
  }

  /** The peer has answered everything up to the prompt in flight, and nothing beyond. */
  ghost predicate Answered(s: State, last: nat) {
    && (forall p <- s.prompts | p.Resolved? :: p.id <= last)
    && (s.pending.Some? ==> last + 1 >= s.requestCount)
    && (last <= s.requestCount)
  }

  lemma RunJobAnswered(s: State, last: nat)
    requires Inv(s) && Answered(s, last)
    ensures Answered(RunJob(s), last)
  {
    ResolvedPrefix(s);
    var i := FirstQueued(s.prompts);
    if i > 0 {
      assert Placed(s.prompts[i - 1], i - 1, s.requestCount);
    }
  }

  lemma StepAnswered(s: State, e: Event, last: nat)
    requires Inv(s) && Answered(s, last) && !e.JobRuns?
    requires e.LineRead? && e.line.AgentEnd? ==> last < e.line.answer <= s.requestCount
    ensures Answered(Step(s, e), if e.LineRead? && e.line.AgentEnd? then e.line.answer else last)
  {
    NewlyResolved(s, e);
  }

  lemma {:induction false} OrderlyAnswers(events: seq<Event>)
    requires OrderlyPeer(events)
    ensures Answered(Run(Booted, events), LastAnswer(events))
  {
    if events != [] {
      var before, e := events[..|events| - 1], events[|events| - 1];
      OrderlyAnswers(before);
      RunInv(before);
      if e.JobRuns? {
        RunJobAnswered(Run(Booted, before), LastAnswer(before));
      } else {
        StepAnswered(Run(Booted, before), e, LastAnswer(before));
      }
    }
  }

  lemma {:induction false} OrderlyPrefix(events: seq<Event>, k: nat)
    requires OrderlyPeer(events) && k <= |events|
    ensures OrderlyPeer(events[..k])
  {
    if k < |events| {
      OrderlyPrefix(events[..|events| - 1], k);
      assert events[..|events| - 1][..k] == events[..k];
    } else {
      assert events[..k] == events;
    }
  }

  /** In particular, with an orderly peer no prompt is ever resolved by another prompt's
      `agent_end`. */
  lemma NoCrossTalk(events: seq<Event>)
    requires OrderlyPeer(events)
    ensures Answered(Run(Booted, events), LastAnswer(events))
    ensures forall p <- Run(Booted, events).prompts | p.Resolved? :: p.answer == p.id
  {
    forall k | 0 <= k < |events|
      ensures !Strays(Run(Booted, events[..k]), events[k])
    {
      OrderlyPrefix(events, k);
      OrderlyPrefix(events, k + 1);
      assert events[..k + 1][..k] == events[..k];
      OrderlyAnswers(events[..k]);
      RunInv(events[..k]);
    }
    OwnExactly(events);
    OrderlyAnswers(events);
  }

  lemma RunLast(events: seq<Event>, e: Event)
    ensures Run(Booted, events + [e]) == Step(Run(Booted, events), e)
  {
    assert (events + [e])[..|events|] == events;
  }

  /** The order of the peer matters: an answer sent twice for one prompt resolves the
      next one. */
  lemma RepeatedAnswerCrosses()
    ensures var answer := LineRead(AgentEnd(true, 1));
            var events := [] + [PromptCalled] + [PromptCalled] + [JobRuns] + [answer] + [JobRuns] + [answer];
            Run(Booted, events).prompts == [Resolved(1, 1), Resolved(2, 1)]
  {
    var answer := LineRead(AgentEnd(true, 1));
    var e1: seq<Event> := [] + [PromptCalled];
    var e2 := e1 + [PromptCalled];
    var e3 := e2 + [JobRuns];
    var e4 := e3 + [answer];
    var e5 := e4 + [JobRuns];
    RunLast([], PromptCalled);
    RunLast(e1, PromptCalled);
    RunLast(e2, JobRuns);
    RunLast(e3, answer);
    RunLast(e4, JobRuns);
    RunLast(e5, answer);
    assert Run(Booted, e2) == Booted.(prompts := [Queued, Queued]);
    assert FirstQueued([Queued, Queued]) == 0;
    assert Run(Booted, e3) == State(false, Some(Pending(1, false)), 1, [Active(1), Queued], {1}, {1}, {1});
    assert Run(Booted, e4) == State(false, None, 1, [Resolved(1, 1), Queued], {}, {}, {1});
    assert [Resolved(1, 1), Queued][1..] == [Queued] && FirstQueued([Resolved(1, 1), Queued]) == 1;
    assert Run(Booted, e5) == State(false, Some(Pending(2, false)), 2, [Resolved(1, 1), Active(2)], {2}, {2}, {1, 2});
  }
}
