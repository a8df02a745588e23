/** Settings are not stored with a session: exactly when the turn gate survives resuming. */
module SessionResume {
  import opened Text
  import opened Session

  /** How many messages a session holds after `n` submissions. */
  function Held(c: Config, n: nat): nat {
    var accepted := if c.maxTurns <= 0 || AlwaysRaises(c) then 0
                    else if GateSeesAll(c) && n > c.maxTurns then c.maxTurns
                    else n;
    if c.compactAfterTurns < 0 then 0
    else if c.compactAfterTurns == 0 || accepted <= c.compactAfterTurns then accepted
    else c.compactAfterTurns
  }

  lemma HeldMessages(s: Setting, rs: seq<Request>)
    ensures |Run(s, Fresh, rs).messages| == Held(s.config, |rs|)
  {
    hide Run, Accepted;
    SessionHistory(s, rs);
    GateExactly(s, rs);
    assert |Prompts(Accepted(s, Fresh, rs))| == |LetThrough(s.config, rs)|;
  }

  function Resumed(s: Setting): Setting {
    Setting(DEFAULT_CONFIG, s.sessionId, s.dumps)
  }

  /** The session and what it is resumed as agree on whether to refuse the next prompt. */
  predicate SameVerdict(s: Setting, st: State) {
    Refuses(s, st) <==> Refuses(Resumed(s), Restored(Stored(s.sessionId, st)))
  }

  function Submissions(n: nat): (rs: seq<Request>)
    ensures |rs| == n
  {
    seq(n, _ => Request("", [], [], []))
  }

  /** The limit of 8 is kept, or nobody ever reaches a limit: formatting always raises, or the
      window is too small for either limit. */
  predicate KeepsVerdict(c: Config) {
    && c.maxTurns > 0
    && (AlwaysRaises(c) || c.maxTurns == 8 || c.compactAfterTurns < 0 ||
        (0 < c.compactAfterTurns < c.maxTurns && c.compactAfterTurns < 8))
  }

  lemma VerdictOfHeld(s: Setting, rs: seq<Request>)
    ensures SameVerdict(s, Run(s, Fresh, rs)) <==>
              (Held(s.config, |rs|) >= s.config.maxTurns <==> Held(s.config, |rs|) >= 8)
  {
    hide Run, Held;
    HeldMessages(s, rs);
  }

  /** For every setting: the gate gives the same verdict before and after resuming, whatever
      was submitted before, if and only if `KeepsVerdict` holds. */
  lemma VerdictSurvivesExactly(s: Setting)
    ensures (forall rs :: SameVerdict(s, Run(s, Fresh, rs))) <==> KeepsVerdict(s.config)
  {
    hide Run, SameVerdict;
    var c := s.config;
    if KeepsVerdict(c) {
      forall rs: seq<Request>
        ensures SameVerdict(s, Run(s, Fresh, rs))
      {
        VerdictOfHeld(s, rs);
      }
    } else {
      var n: nat := if c.maxTurns <= 0 then 0 else if c.maxTurns < 8 then c.maxTurns else 8;
      VerdictOfHeld(s, Submissions(n));
      assert !SameVerdict(s, Run(s, Fresh, Submissions(n)));
    }
  }

  // ---------- the verdict on all later prompts ----------

  /** The verdict after more submissions, without and with an interruption in between. */
  predicate SameLater(s: Setting, before: seq<Request>, after: seq<Request>) {
    Refuses(s, Run(s, Fresh, before + after)) <==>
      Refuses(Resumed(s), Run(Resumed(s), Restored(Stored(s.sessionId, Run(s, Fresh, before))), after))
  }

  /** The turn limit is the default one, and every prompt counts. */
  predicate KeepsGate(c: Config) {
    c.maxTurns == 8 && GateSeesAll(c) && !AlwaysRaises(c)
  }

  lemma OneMore(s: Setting, a: State, b: State, r: Request)
    requires KeepsGate(s.config) && a.messages == b.messages && |a.messages| <= 8
    ensures var a', b' := Submit(s, a, r).1, Submit(Resumed(s), b, r).1;
            a'.messages == b'.messages && |a'.messages| <= 8
  {
    hide WordCount, SummaryLines;
  }

  lemma {:induction false} SameMessages(s: Setting, a: State, b: State, rs: seq<Request>)
    requires KeepsGate(s.config) && a.messages == b.messages && |a.messages| <= 8
    ensures var a', b' := Run(s, a, rs), Run(Resumed(s), b, rs);
            a'.messages == b'.messages && |a'.messages| <= 8
  {
    hide Submit;
    if rs != [] {
      var n := |rs| - 1;
      SameMessages(s, a, b, rs[..n]);
      OneMore(s, Run(s, a, rs[..n]), Run(Resumed(s), b, rs[..n]), rs[n]);
    }
  }

  /** For every setting: resuming at any point changes no later verdict of the gate if and
      only if `KeepsGate` holds. */
  lemma GateSurvivesExactly(s: Setting)
    ensures (forall before, after :: SameLater(s, before, after)) <==> KeepsGate(s.config)
  {
    hide Run, Submit;
    var c := s.config;
    if KeepsGate(c) {
      forall before: seq<Request>, after: seq<Request>
        ensures SameLater(s, before, after)
      {
        var st := Run(s, Fresh, before);
        HeldMessages(s, before);
        RunOn(s, Fresh, before, after);
        SameMessages(s, st, Restored(Stored(s.sessionId, st)), after);
      }
    } else {
      var n: nat := if c.maxTurns <= 0 then 0
                    else if AlwaysRaises(c) || !GateSeesAll(c) || c.maxTurns > 8 then 8
                    else c.maxTurns;
      FromTheStart(s, Submissions(n));
      assert !SameLater(s, [], Submissions(n));
    }
  }

  lemma FromTheStart(s: Setting, rs: seq<Request>)
    ensures SameLater(s, [], rs) <==> (Held(s.config, |rs|) >= s.config.maxTurns <==> Held(DEFAULT_CONFIG, |rs|) >= 8)
  {
    hide Submit, Held;
    assert [] + rs == rs && Run(s, Fresh, []) == Fresh;
    SameSessionsRunAlike(Resumed(s), Restored(Stored(s.sessionId, Fresh)), Fresh, rs);
    HeldMessages(s, rs);
    HeldMessages(Resumed(s), rs);
  }
}
