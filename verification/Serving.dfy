/** The retry loop and the translator client together: `translateBatch` never prompts a
    client on which a prompt was rejected. */
module Serving {
  import opened Text
  import opened Batching
  import Rpc = RpcClient
  import T = Translating

  /** The attempts that ran on client `c`, in order. */
  function On(log: seq<T.Attempt>, c: nat): seq<T.Attempt> {
    if log == [] then []
    else
      var last := log[|log| - 1];
      if last.client == Some(c) then On(log[..|log| - 1], c) + [last] else On(log[..|log| - 1], c)
  }

  /** The life of client `c`: the attempts on it call its prompts, in order, and an attempt
      whose prompt is rejected fails. */
  ghost predicate Serves(log: seq<T.Attempt>, c: nat, events: seq<Rpc.Event>) {
    var prompts := Rpc.Run(Rpc.Booted, events).prompts;
    && |prompts| <= |On(log, c)|
    && forall i | 0 <= i < |prompts| && prompts[i].Rejected? :: On(log, c)[i].failed
  }

  lemma {:induction false} OnFrom(log: seq<T.Attempt>, c: nat, i: nat) returns (p: nat)
    requires i < |On(log, c)|
    ensures p < |log| && log[p] == On(log, c)[i] && log[p].client == Some(c)
  {
    var n := |log| - 1;
    if i < |On(log[..n], c)| {
      p := OnFrom(log[..n], c, i);
    } else {
      p := n;
    }
  }

  /** On one client only the last attempt may have failed. */
  lemma {:induction false} OnlyLastFails(log: seq<T.Attempt>, c: nat)
    requires T.Fresh(log)
    ensures forall i | 0 <= i < |On(log, c)| - 1 :: !On(log, c)[i].failed
  {
    if log != [] {
      var n := |log| - 1;
      OnlyLastFails(log[..n], c);
      if log[n].client == Some(c) {
        forall i | 0 <= i < |On(log[..n], c)|
          ensures !On(log[..n], c)[i].failed
        {
          var p := OnFrom(log[..n], c, i);
          assert log[p] == log[..n][p];
        }
      }
    }
  }

  lemma {:induction false} RunOn(s: Rpc.State, a: seq<Rpc.Event>, b: seq<Rpc.Event>)
    ensures Rpc.Run(Rpc.Run(s, a), b) == Rpc.Run(s, a + b)
  {
    hide Rpc.Step;
    if b == [] {
      assert a + b == a;
    } else {
      var n := |b| - 1;
      RunOn(s, a, b[..n]);
      assert (a + b)[..|a| + n] == a + b[..n];
    }
  }

  /** Whatever holds of a settled promise at some point of a run holds at its end. */
  lemma SettledAtEnd(events: seq<Rpc.Event>, k: nat)
    requires k <= |events|
    ensures Rpc.Inv(Rpc.Run(Rpc.Booted, events[..k]))
    ensures Rpc.Later(Rpc.Run(Rpc.Booted, events[..k]), Rpc.Run(Rpc.Booted, events))
  {
    hide Rpc.Inv, Rpc.Later, Rpc.Run, Rpc.Step;
    Rpc.RunInv(events[..k]);
    Rpc.SettledOnce(Rpc.Run(Rpc.Booted, events[..k]), events[k..]);
    RunOn(Rpc.Booted, events[..k], events[k..]);
    assert events[..k] + events[k..] == events;
  }

  /** No prompt of a served client follows a rejected one. */
  lemma RejectionIsLast(log: seq<T.Attempt>, c: nat, events: seq<Rpc.Event>)
    requires T.Fresh(log) && Serves(log, c, events)
    ensures var prompts := Rpc.Run(Rpc.Booted, events).prompts;
            forall i | 0 <= i < |prompts| - 1 :: !prompts[i].Rejected?
  {
    OnlyLastFails(log, c);
  }

  /** At event number `k`, the promise chain is not poisoned: a prompt that is called finds
      no rejected one before it, and a prompt that is rejected when its turn comes finds the
      client closed. */
  ghost predicate Unpoisoned(events: seq<Rpc.Event>, k: nat)
    requires k < |events|
  {
    var s := Rpc.Run(Rpc.Booted, events[..k]);
    && (events[k].PromptCalled? ==> forall p <- s.prompts :: !p.Rejected?)
    && (events[k].JobRuns? ==>
          var i := Rpc.FirstQueued(s.prompts);
          i < |s.prompts| && |Rpc.Step(s, events[k]).prompts| == |s.prompts| && Rpc.Step(s, events[k]).prompts[i].Rejected?
          ==> s.closed)
  }

  /** A job rejects its prompt only if the client is closed or the prompt before it was
      rejected. */
  lemma WhyJobRejects(s: Rpc.State)
    ensures var i, s' := Rpc.FirstQueued(s.prompts), Rpc.Step(s, Rpc.JobRuns);
            i < |s.prompts| && i < |s'.prompts| && s'.prompts[i].Rejected? ==>
              s.closed || (i > 0 && s.prompts[i - 1].Rejected?)
  {
    Rpc.FirstQueuedLaw(s.prompts);
  }

  lemma ServedIsUnpoisoned(log: seq<T.Attempt>, c: nat, events: seq<Rpc.Event>, k: nat)
    requires T.Fresh(log) && Serves(log, c, events) && k < |events|
    ensures Unpoisoned(events, k)
  {
    hide Rpc.Inv, Rpc.Chain, Rpc.RunJob, Serves, T.Fresh;
    var s, end := Rpc.Run(Rpc.Booted, events[..k]), Rpc.Run(Rpc.Booted, events);
    RejectionIsLast(log, c, events);
    SettledAtEnd(events, k);
    SettledAtEnd(events, k + 1);
    assert Rpc.Run(Rpc.Booted, events[..k + 1]) == Rpc.Step(s, events[k]) by {
      assert events[..k + 1][..k] == events[..k];
    }
    forall j | 0 <= j < |s.prompts| && j < |end.prompts| - 1
      ensures !s.prompts[j].Rejected?
    {
    }
    if events[k].JobRuns? {
      WhyJobRejects(s);
    }
  }

  /** For every translator and every batch, whatever events its clients go through: no
      attempt is lost to a poisoned chain. */
  lemma TranslateNeverPoisons(replies: nat -> T.Reply, items: seq<Item>, depth: nat, w: T.World, c: nat,
                              events: seq<Rpc.Event>, k: nat)
    requires T.CleanClients(w)
    requires Serves(T.TranslateBatch(replies, items, depth, w).1.log, c, events) && k < |events|
    ensures Unpoisoned(events, k)
  {
    T.FreshAfterFailure(replies, items, depth, 0, "translation failed", w);
    ServedIsUnpoisoned(T.TranslateBatch(replies, items, depth, w).1.log, c, events, k);
  }
}
