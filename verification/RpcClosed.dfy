/** When a translator client is closed, what that means for its prompts, and when a prompt
    is written at all. */
module RpcClosed {
  import opened Text
  import opened RpcClient

  // ---------- what closes a client ----------

  /** The process ends, the client is told to close, or the pending prompt times out. */
  predicate Closes(s: State, e: Event) {
    match e
    case ProcessClosed => true
    case CloseCalled => true
    case TimerFires(id) => s.pending.Some? && s.pending.value.id == id
    case _ => false
  }

  lemma StepCloses(s: State, e: Event)
    requires Inv(s)
    ensures Step(s, e).closed <==> s.closed || Closes(s, e)
  {
  }

  /** In every run the client is closed exactly if some event of the run closed it: once
      closed it stays closed. */
  lemma {:induction false} ClosedExactly(events: seq<Event>)
    ensures Run(Booted, events).closed <==>
              exists k :: 0 <= k < |events| && Closes(Run(Booted, events[..k]), events[k])
  {
    hide Step, Inv, Closes;
    if events == [] {
      OpenAtBoot();
    } else {
      var n := |events| - 1;
      ClosedExactly(events[..n]);
      RunInv(events[..n]);
      StepCloses(Run(Booted, events[..n]), events[n]);
      RunLast(events[..n], events[n]);
      assert events[..n] + [events[n]] == events;
      assert forall k | 0 <= k < n :: events[..n][..k] == events[..k] && events[..n][k] == events[k];
    }
  }

  lemma OpenAtBoot()
    ensures !Run(Booted, []).closed
  {
  }

  // ---------- a closed client writes nothing ----------

  /** From `s` to `s'` no request was made, no prompt became active, what had settled stayed,
      and what was queued is still queued or was rejected without being written. */
  ghost predicate WritesNothing(s: State, s': State) {
    && s'.requestCount == s.requestCount
    && |s.prompts| <= |s'.prompts|
    && (forall i | 0 <= i < |s'.prompts| && s'.prompts[i].Active? :: i < |s.prompts| && s'.prompts[i] == s.prompts[i])
    && (forall i | 0 <= i < |s.prompts| && Settled(s.prompts[i]) :: s'.prompts[i] == s.prompts[i])
    && (forall i | 0 <= i < |s'.prompts| && (|s.prompts| <= i || s.prompts[i].Queued?) ::
          s'.prompts[i].Queued? || s'.prompts[i] == Rejected(None))
  }

  lemma ClosedStep(s: State, e: Event)
    requires s.closed
    ensures Step(s, e).closed && WritesNothing(s, Step(s, e))
  {
    hide Settle, FirstQueued;
    if e.JobRuns? {
      FirstQueuedLaw(s.prompts);
    }
  }

  /** Whatever happens to a closed client: it stays closed, and nothing is written ever
      after. */
  lemma {:induction false} ClosedForever(s: State, events: seq<Event>)
    requires s.closed
    ensures Run(s, events).closed && WritesNothing(s, Run(s, events))
  {
    hide Step, WritesNothing;
    if events == [] {
      NothingWritten(s, s, s);
    } else {
      var n := |events| - 1;
      ClosedForever(s, events[..n]);
      ClosedStep(Run(s, events[..n]), events[n]);
      NothingWritten(s, Run(s, events[..n]), Run(s, events));
    }
  }

  lemma NothingWritten(s: State, mid: State, s': State)
    ensures WritesNothing(s, s)
    ensures WritesNothing(s, mid) && WritesNothing(mid, s') ==> WritesNothing(s, s')
  {
  }

  // ---------- the turn of a prompt ----------

  /** Prompt number `i` is the next one to run: it is queued and all before it have settled. */
  predicate Due(s: State, i: nat) {
    i < |s.prompts| && s.prompts[i].Queued? && forall j | 0 <= j < i :: Settled(s.prompts[j])
  }

  predicate Refused(s: State, i: nat)
    requires i <= |s.prompts|
  {
    s.closed || exists j :: 0 <= j < i && s.prompts[j].Rejected?
  }

  lemma DueIsFirst(s: State, i: nat)
    requires Due(s, i)
    ensures FirstQueued(s.prompts) == i
  {
    FirstQueuedLaw(s.prompts);
  }

  /** The turn of a prompt: it is rejected unwritten if the client is closed or an earlier
      prompt was rejected, and otherwise it is written, with the next request number, its
      timer and its heartbeat. */
  lemma TurnExactly(s: State, i: nat)
    requires Inv(s) && Due(s, i)
    ensures Step(s, JobRuns) ==
            if Refused(s, i) then s.(prompts := s.prompts[i := Rejected(None)])
            else State(false, Some(Pending(s.requestCount + 1, false)), s.requestCount + 1,
                       s.prompts[i := Active(s.requestCount + 1)], {s.requestCount + 1}, {s.requestCount + 1},
                       s.unwritten + {s.requestCount + 1})
  {
    DueIsFirst(s, i);
    ResolvedPrefix(s);
    NothingPending(s, i);
    if j :| 0 <= j < i - 1 && s.prompts[j].Rejected? {
      assert Before(s.prompts[j], s.prompts[i - 1]);
    }
  }

  /** While a prompt is due none is in flight. */
  lemma NothingPending(s: State, i: nat)
    requires Inv(s) && Due(s, i)
    ensures s.pending.None? && s.timers == {} && s.heartbeats == {}
  {
    DueIsFirst(s, i);
    ResolvedPrefix(s);
  }

  /** Without a prompt whose turn it is the callback does not run yet. */
  lemma NoTurn(s: State)
    requires Inv(s) && forall i: nat :: !Due(s, i)
    ensures Step(s, JobRuns) == s
  {
    FirstQueuedLaw(s.prompts);
    var i := FirstQueued(s.prompts);
    if i < |s.prompts| {
      assert !Due(s, i);
      forall j | 0 <= j < i - 1
        ensures Settled(s.prompts[j])
      {
        assert Before(s.prompts[j], s.prompts[i - 1]);
      }
    }
  }

  /** A request is made exactly when the turn comes of a prompt that an open client has
      queued behind resolved prompts only. */
  lemma WritesExactly(s: State, e: Event)
    requires Inv(s)
    ensures Step(s, e).requestCount != s.requestCount <==>
              e.JobRuns? && !s.closed && exists i: nat :: Due(s, i) && forall j | 0 <= j < i :: s.prompts[j].Resolved?
  {
    if e.JobRuns? {
      if i: nat :| Due(s, i) {
        OneDue(s);
        TurnExactly(s, i);
      } else {
        NoTurn(s);
      }
    }
  }

  lemma OneDue(s: State)
    ensures forall i: nat, j: nat | Due(s, i) && Due(s, j) :: i == j
  {
    forall i: nat, j: nat | Due(s, i) && Due(s, j)
      ensures i == j
    {
      DueIsFirst(s, i);
      DueIsFirst(s, j);
    }
  }

  // ---------- the queue of a closed client drains ----------

  function Jobs(n: nat): seq<Event> {
    if n == 0 then [] else Jobs(n - 1) + [JobRuns]
  }

  /** With nothing in flight, the callbacks that are still to run reject every queued prompt
      of a closed client, in order, and change nothing else. */
  lemma {:induction false} ClosedDrains(s: State, i: nat, n: nat)
    requires Inv(s) && s.closed && i + n <= |s.prompts|
    requires forall j | 0 <= j < |s.prompts| :: if j < i then Settled(s.prompts[j]) else s.prompts[j].Queued?
    ensures var s' := Run(s, Jobs(n));
            && s' == s.(prompts := s'.prompts) && |s'.prompts| == |s.prompts|
            && forall j | 0 <= j < |s.prompts| :: s'.prompts[j] == if i <= j < i + n then Rejected(None) else s.prompts[j]
    ensures Inv(Run(s, Jobs(n)))
  {
    hide Step, Inv, Jobs, Run;
    if n == 0 {
      NoJobs(s);
    } else {
      ClosedDrains(s, i, n - 1);
      var mid := Run(s, Jobs(n - 1));
      assert Due(mid, i + n - 1);
      TurnExactly(mid, i + n - 1);
      StepInv(mid, JobRuns);
      OneMoreJob(s, n - 1);
    }
  }

  lemma NoJobs(s: State)
    ensures Run(s, Jobs(0)) == s
  {
  }

  lemma OneMoreJob(s: State, n: nat)
    ensures Run(s, Jobs(n + 1)) == Step(Run(s, Jobs(n)), JobRuns)
  {
    assert Jobs(n + 1)[..|Jobs(n)|] == Jobs(n);
  }

  // ---------- responses ----------

  /** The flag of the pending prompt says whether its response has been read: it is set by
      exactly that line and cleared by nothing while the prompt is in flight. */
  lemma ReceivedExactly(s: State, e: Event)
    requires Inv(s) && Step(s, e).pending.Some?
    ensures var p := Step(s, e).pending.value;
            p.responseReceived <==>
              (s.pending.Some? && s.pending.value.id == p.id && s.pending.value.responseReceived) ||
              e == LineRead(Response(p.id, true))
  {
    if e.JobRuns? {
      if i: nat :| Due(s, i) {
        TurnExactly(s, i);
      } else {
        NoTurn(s);
      }
    }
  }
}
