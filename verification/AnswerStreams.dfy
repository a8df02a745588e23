/** Which streams of answers from the translator are safe however they interleave with
    prompts, timers and failures. */
module AnswerStreams {
  import opened Text
  import opened RpcClient

  /** An `agent_end`: whether it holds a translation, and the request it answers. */
  datatype Answer = Answer(ok: bool, id: nat)

  predicate IsAnswer(e: Event) {
    e.LineRead? && e.line.AgentEnd?
  }

  /** The answers that are read during a run. */
  function AnswersIn(events: seq<Event>): seq<Answer> {
    if events == [] then []
    else
      var init, last := AnswersIn(events[..|events| - 1]), events[|events| - 1];
      if IsAnswer(last) then init + [Answer(last.line.ok, last.line.answer)] else init
  }

  /** No request is answered before it is written. */
  ghost predicate Causal(events: seq<Event>) {
    forall k | 0 <= k < |events| && IsAnswer(events[k]) ::
      events[k].line.answer <= Run(Booted, events[..k]).requestCount
  }

  /** The run reads the stream, up to some point. */
  ghost predicate Reads(events: seq<Event>, stream: seq<Answer>) {
    Causal(events) && AnswersIn(events) <= stream
  }

  /** How many prompts the stream has answered, one after the other; nothing once a failed
      answer to the next prompt, or an answer to a later one, ends the exchange. */
  function Progress(stream: seq<Answer>): Option<nat> {
    if stream == [] then Some(0)
    else
      match Progress(stream[..|stream| - 1])
      case None => None
      case Some(n) =>
        var last := stream[|stream| - 1];
        if last.id <= n then Some(n)
        else if last.id == n + 1 && last.ok then Some(n + 1)
        else None
  }

  /** A translation never answers a prompt that the stream has answered before. */
  ghost predicate Safe(stream: seq<Answer>) {
    forall k | 0 <= k < |stream| && stream[k].ok && Progress(stream[..k]).Some? :: stream[k].id > Progress(stream[..k]).value
  }

  // ---------- safe streams ----------

  /** What holds of the client after the stream has made this progress: it has not resolved
      more prompts, or a rejection has ended the exchange. */
  ghost predicate InStep(s: State, progress: Option<nat>) {
    match progress
    case None => exists p :: p in s.prompts && p.Rejected?
    case Some(n) => s.requestCount <= n + 1 && (s.requestCount == n + 1 && n < |s.prompts| ==> !s.prompts[n].Resolved?)
  }

  lemma RejectedIsIdle(s: State)
    requires Inv(s) && exists p :: p in s.prompts && p.Rejected?
    ensures s.pending.None?
  {
    var p :| p in s.prompts && p.Rejected?;
    var i :| 0 <= i < |s.prompts| && s.prompts[i] == p;
    assert Placed(p, i, s.requestCount);
    assert s.pending.Some? ==> i != s.requestCount - 1;
  }

  lemma RejectedStays(s: State, e: Event)
    requires Inv(s) && exists p :: p in s.prompts && p.Rejected?
    ensures exists p :: p in Step(s, e).prompts && p.Rejected?
  {
    StepLater(s, e);
    var p :| p in s.prompts && p.Rejected?;
    var i :| 0 <= i < |s.prompts| && s.prompts[i] == p;
    assert Step(s, e).prompts[i] == p;
  }

  /** Events that are no answers keep the client in step. */
  lemma OthersInStep(s: State, e: Event, n: nat)
    requires Inv(s) && InStep(s, Some(n)) && !IsAnswer(e)
    ensures InStep(Step(s, e), Some(n))
  {
    var s' := Step(s, e);
    NewlyResolved(s, e);
    StepInv(s, e);
    if e.JobRuns? {
      ResolvedPrefix(s);
    }
    assert n < |s'.prompts| ==> s'.prompts[n] in s'.prompts;
  }

  /** A late answer, which can only be a failed one, changes nothing or ends the exchange. */
  lemma LateInStep(s: State, e: Event, n: nat)
    requires Inv(s) && InStep(s, Some(n)) && IsAnswer(e) && !e.line.ok
    ensures InStep(Step(s, e), Some(n))
    ensures !Strays(s, e)
  {
    var s' := Step(s, e);
    if s.pending.Some? {
      SettlePendingInv(s, Rejected(Some(s.pending.value.id)));
      assert s'.prompts[s.requestCount - 1] == Rejected(Some(s.requestCount));
    }
  }

  /** The answer to the next prompt is read while that is the last one written. */
  lemma NextInStep(s: State, e: Event, n: nat)
    requires Inv(s) && InStep(s, Some(n)) && IsAnswer(e)
    requires e.line.answer == n + 1 <= s.requestCount
    ensures InStep(Step(s, e), if e.line.ok then Some(n + 1) else None)
    ensures !Strays(s, e)
  {
    var s' := Step(s, e);
    assert s.requestCount == n + 1 && Placed(s.prompts[n], n, n + 1);
    if s.pending.Some? {
      assert s.prompts[n] == Active(n + 1);
    } else {
      assert !s.prompts[n].Active?;
    }
    if !e.line.ok {
      assert s'.prompts[n].Rejected? && s'.prompts[n] in s'.prompts;
    }
  }

  lemma StepInStep(s: State, e: Event, read: seq<Answer>, stream: seq<Answer>)
    requires Inv(s) && InStep(s, Progress(read)) && Safe(stream)
    requires !IsAnswer(e) || (read + [Answer(e.line.ok, e.line.answer)] <= stream && e.line.answer <= s.requestCount)
    ensures InStep(Step(s, e), Progress(if IsAnswer(e) then read + [Answer(e.line.ok, e.line.answer)] else read))
    ensures !Strays(s, e)
  {
    hide Step, Inv, InStep;
    if IsAnswer(e) {
      var a := Answer(e.line.ok, e.line.answer);
      assert (read + [a])[..|read|] == read && stream[..|read|] == read && stream[|read|] == a;
    }
    match Progress(read) {
      case None =>
        Ended(s, e);
      case Some(n) =>
        if !IsAnswer(e) {
          OthersInStep(s, e, n);
        } else if e.line.answer <= n {
          LateInStep(s, e, n);
        } else {
          Bounded(s, n);
          NextInStep(s, e, n);
        }
    }
  }

  lemma Ended(s: State, e: Event)
    requires Inv(s) && InStep(s, None)
    ensures InStep(Step(s, e), None) && !Strays(s, e)
  {
    hide Step;
    RejectedIsIdle(s);
    RejectedStays(s, e);
  }

  lemma Bounded(s: State, n: nat)
    requires InStep(s, Some(n))
    ensures s.requestCount <= n + 1
  {
  }

  /** While a safe stream is read nothing strays. */
  lemma {:induction false} SafeInStep(events: seq<Event>, stream: seq<Answer>)
    requires Safe(stream) && Reads(events, stream)
    ensures InStep(Run(Booted, events), Progress(AnswersIn(events)))
    ensures forall k | 0 <= k < |events| :: !Strays(Run(Booted, events[..k]), events[k])
  {
    hide Step, Inv, InStep, Safe, Strays;
    if events == [] {
      AtBoot();
    } else {
      var n := |events| - 1;
      var init, e := events[..n], events[n];
      assert forall k | 0 <= k <= n :: init[..k] == events[..k];
      assert AnswersIn(init) <= AnswersIn(events);
      SafeInStep(init, stream);
      RunInv(init);
      StepInStep(Run(Booted, init), e, AnswersIn(init), stream);
    }
  }

  lemma AtBoot()
    ensures InStep(Run(Booted, []), Progress(AnswersIn([])))
  {
  }

  // ---------- unsafe streams ----------

  /** The client is idle after `n` prompts that got their own answers. */
  ghost predicate Ready(s: State, n: nat) {
    && !s.closed && s.pending.None? && s.requestCount == n == |s.prompts|
    && (forall i | 0 <= i < n :: s.prompts[i] == Resolved(i + 1, i + 1))
  }

  /** Calling, writing and answering one more prompt. */
  lemma OneRound(s: State, n: nat, id: nat) returns (s2: State, s3: State)
    requires Ready(s, n)
    ensures s2 == Step(Step(s, PromptCalled), JobRuns) && s2.requestCount == n + 1
    ensures s3 == Step(s2, LineRead(AgentEnd(true, id)))
    ensures s3.prompts == s.prompts + [Resolved(n + 1, id)]
    ensures id == n + 1 ==> Ready(s3, n + 1)
  {
    var s1 := Step(s, PromptCalled);
    FirstQueuedLaw(s1.prompts);
    assert s1.prompts[n].Queued? && FirstQueued(s1.prompts) == n;
    assert n > 0 ==> s1.prompts[n - 1].Resolved?;
    s2 := Step(s1, JobRuns);
    assert s2.prompts == s.prompts + [Active(n + 1)] && s2.pending == Some(Pending(n + 1, false));
    s3 := Step(s2, LineRead(AgentEnd(true, id)));
  }

  /** The events that call and write a prompt before answer number `n + 1` is read. */
  function Round(id: nat): seq<Event> {
    [PromptCalled, JobRuns, LineRead(AgentEnd(true, id))]
  }

  lemma RoundRuns(events: seq<Event>, n: nat, id: nat)
    requires Ready(Run(Booted, events), n)
    ensures Run(Booted, events + [PromptCalled, JobRuns]).requestCount == n + 1
    ensures Run(Booted, events + Round(id)).prompts == Run(Booted, events).prompts + [Resolved(n + 1, id)]
    ensures id == n + 1 ==> Ready(Run(Booted, events + Round(id)), n + 1)
  {
    hide Step, Run, Ready;
    var e1, e2 := events + [PromptCalled], events + [PromptCalled, JobRuns];
    var s2, s3 := OneRound(Run(Booted, events), n, id);
    RunLast(events, PromptCalled);
    RunLast(e1, JobRuns);
    RunLast(e2, LineRead(AgentEnd(true, id)));
    assert e2 == e1 + [JobRuns] && events + Round(id) == e2 + [LineRead(AgentEnd(true, id))];
  }

  lemma ReadsOne(events: seq<Event>, e: Event)
    requires Causal(events)
    requires IsAnswer(e) ==> e.line.answer <= Run(Booted, events).requestCount
    ensures Causal(events + [e])
    ensures AnswersIn(events + [e]) == AnswersIn(events) + if IsAnswer(e) then [Answer(e.line.ok, e.line.answer)] else []
  {
    hide Run;
    var all := events + [e];
    assert all[..|events|] == events;
    forall k | 0 <= k < |all| && IsAnswer(all[k])
      ensures all[k].line.answer <= Run(Booted, all[..k]).requestCount
    {
      assert all[..k] == events[..k] && (k == |events| ==> events[..k] == events);
    }
  }

  lemma AfterRound(events: seq<Event>, n: nat, id: nat)
    requires Ready(Run(Booted, events), n) && Causal(events) && id <= n + 1
    ensures AnswersIn(events + Round(id)) == AnswersIn(events) + [Answer(true, id)]
    ensures Causal(events + Round(id))
    ensures Run(Booted, events + Round(id)).prompts == Run(Booted, events).prompts + [Resolved(n + 1, id)]
    ensures id == n + 1 ==> Ready(Run(Booted, events + Round(id)), n + 1)
  {
    hide Run, Ready, Causal, AnswersIn;
    var e1, e2 := events + [PromptCalled], events + [PromptCalled, JobRuns];
    RoundRuns(events, n, id);
    ReadsOne(events, PromptCalled);
    ReadsOne(e1, JobRuns);
    assert e2 == e1 + [JobRuns] && events + Round(id) == e2 + [LineRead(AgentEnd(true, id))];
    ReadsOne(e2, LineRead(AgentEnd(true, id)));
  }

  /** A late answer that comes while nothing is pending is ignored. */
  lemma AfterLate(events: seq<Event>, n: nat, a: Answer)
    requires Ready(Run(Booted, events), n) && Causal(events) && a.id <= n
    ensures var all := events + [LineRead(AgentEnd(a.ok, a.id))];
            Ready(Run(Booted, all), n) && Causal(all) && AnswersIn(all) == AnswersIn(events) + [a]
  {
    hide Causal, AnswersIn, Run;
    RunLast(events, LineRead(AgentEnd(a.ok, a.id)));
    ReadsOne(events, LineRead(AgentEnd(a.ok, a.id)));
  }

  /** A run that reads the stream with every prompt answered in turn. */
  lemma {:induction false} Exchange(stream: seq<Answer>) returns (events: seq<Event>)
    requires Progress(stream).Some?
    ensures Ready(Run(Booted, events), Progress(stream).value) && Causal(events) && AnswersIn(events) == stream
  {
    hide Step, Run, Causal, Ready;
    if stream == [] {
      events := [];
      ReadyAtBoot();
    } else {
      var init, last := stream[..|stream| - 1], stream[|stream| - 1];
      var n := Progress(init).value;
      events := Exchange(init);
      assert init + [last] == stream;
      if last.id <= n {
        AfterLate(events, n, last);
        events := events + [LineRead(AgentEnd(last.ok, last.id))];
      } else {
        AfterRound(events, n, n + 1);
        events := events + Round(n + 1);
      }
    }
  }

  lemma ReadyAtBoot()
    ensures Ready(Run(Booted, []), 0) && Causal([])
  {
  }

  lemma UnsafeRun(stream: seq<Answer>, k: nat) returns (events: seq<Event>)
    requires k < |stream| && stream[k].ok && Progress(stream[..k]).Some? && stream[k].id <= Progress(stream[..k]).value
    ensures Reads(events, stream) && !Own(Run(Booted, events))
  {
    hide Step, Run, Causal, Ready;
    var n, a := Progress(stream[..k]).value, stream[k];
    events := Exchange(stream[..k]);
    AfterRound(events, n, a.id);
    var all := events + Round(a.id);
    assert stream[..k] + [a] == stream[..k + 1];
    assert Resolved(n + 1, a.id) in Run(Booted, all).prompts;
    events := all;
  }

  /** The exact condition on what the translator sends: however its answers interleave with
      prompts, timers and failures, every resolved prompt has its own answer, if and only if
      no translation answers a prompt that the stream has answered before. */
  lemma StreamIsSafeExactly(stream: seq<Answer>)
    ensures (forall events | Reads(events, stream) :: Own(Run(Booted, events))) <==> Safe(stream)
  {
    hide Reads, Own, Step, Run;
    if Safe(stream) {
      forall events | Reads(events, stream)
        ensures Own(Run(Booted, events))
      {
        SafeInStep(events, stream);
        OwnExactly(events);
      }
    } else {
      var k :| 0 <= k < |stream| && stream[k].ok && Progress(stream[..k]).Some? && stream[k].id <= Progress(stream[..k]).value;
      var events := UnsafeRun(stream, k);
    }
  }
}
