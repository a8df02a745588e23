/** What the results of a session's turns show: the request they answer and its summary. */
module SessionResults {
  import opened Text
  import opened Decimal
  import opened Session

  /** Every result shows the request it answers and the usage after it. */
  lemma ResultEchoes(s: Setting, st: State, r: Request)
    ensures var (result, st') := Submit(s, st, r);
            result.Some? ==>
              && result.value.prompt == r.prompt
              && result.value.commands == r.commands && result.value.tools == r.tools
              && result.value.denials == r.denied
              && result.value.usage == st'.usage
              && (result.value.stopReason == MaxTurnsReached ==>
                    result.value.output == "Max turns reached before processing prompt: " + r.prompt)
  {
    hide FormatOutput, WordCount, KeepLast;
  }

  /** No line break in any of the texts. */
  predicate OneLine(r: Request) {
    '\n' !in r.prompt && (forall c <- r.commands :: '\n' !in c) && (forall t <- r.tools :: '\n' !in t)
  }

  lemma {:induction false} CommaListHolds(names: seq<string>, c: char)
    requires c != ',' && c != ' ' && forall n <- names :: c !in n
    ensures c !in CommaList(names)
  {
    if |names| > 1 {
      assert forall n <- names[1..] :: n in names;
      CommaListHolds(names[1..], c);
    }
  }

  lemma DigitsHoldNoBreak(n: nat)
    ensures '\n' !in Dec(n)
  {
    assert Digits(Dec(n)) && !IsDigit('\n');
  }

  /** A plain output has four lines: the prompt, the commands, the tools and the number of
      denials, in this order. */
  lemma PlainOutputLines(s: Setting, r: Request)
    requires !s.config.structuredOutput && OneLine(r)
    ensures FormatOutput(s, r).Some?
    ensures var lines := Split(FormatOutput(s, r).value, '\n');
            && |lines| == 4
            && lines[0] == "Prompt: " + r.prompt
            && lines[1] == "Matched commands: " + NamesOrNone(r.commands)
            && lines[2] == "Matched tools: " + NamesOrNone(r.tools)
            && lines[3] == "Permission denials: " + Dec(|r.denied|)
  {
    hide CommaList, Dec, Split, Join;
    CommaListHolds(r.commands, '\n');
    CommaListHolds(r.tools, '\n');
    DigitsHoldNoBreak(|r.denied|);
    SplitJoin(SummaryLines(r), '\n');
  }

  /** A structured output is the dump of the same four lines with the session's identity,
      and fails exactly when no attempt is allowed. */
  lemma StructuredOutput(s: Setting, r: Request)
    requires s.config.structuredOutput
    ensures FormatOutput(s, r).None? <==> s.config.structuredRetryLimit <= 0
    ensures FormatOutput(s, r).Some? ==> FormatOutput(s, r).value == s.dumps(
              ["Prompt: " + r.prompt, "Matched commands: " + NamesOrNone(r.commands),
               "Matched tools: " + NamesOrNone(r.tools), "Permission denials: " + Dec(|r.denied|)], s.sessionId)
  {
  }

  /** Splitting a list of names at its commas gives back the names, all but the first behind
      a space, and "none" stands for no names at all. */
  lemma {:induction false} ListsNames(names: seq<string>)
    requires forall n <- names :: ',' !in n
    ensures names == [] ==> NamesOrNone(names) == "none"
    ensures names != [] ==>
              var parts := Split(NamesOrNone(names), ',');
              && |parts| == |names| && parts[0] == names[0]
              && forall i | 0 < i < |names| :: parts[i] == " " + names[i]
  {
    hide Split, CommaList;
    if |names| == 1 {
      SplitAfter(names[0], "", ',');
      OneName(names[0]);
      assert names == [names[0]];
    } else if |names| > 1 {
      var rest := names[1..];
      assert forall n <- rest :: n in names;
      ListsNames(rest);
      MoreNames(names[0], rest);
      assert names == [names[0]] + rest;
      SplitAfter(names[0], " " + CommaList(rest), ',');
      SplitBehindSpace(CommaList(rest));
    }
  }

  lemma OneName(name: string)
    ensures CommaList([name]) == name
  {
  }

  lemma MoreNames(name: string, rest: seq<string>)
    requires rest != []
    ensures CommaList([name] + rest) == name + [','] + (" " + CommaList(rest))
  {
    assert ([name] + rest)[1..] == rest;
    assert name + ", " + CommaList(rest) == name + [','] + (" " + CommaList(rest));
  }

  lemma SplitBehindSpace(s: string)
    ensures Split(" " + s, ',') == [" " + Split(s, ',')[0]] + Split(s, ',')[1..]
  {
    assert (" " + s)[1..] == s;
  }

  /** Turn `i` of the loop answers the prompt, numbered from the second turn on, and always
      shows the names that were routed. */
  lemma {:induction false} LoopEchoes(s: Setting, prompt: string, commands: seq<string>, tools: seq<string>,
                                      results: seq<TurnResult>, i: nat)
    requires LoopResults(s, prompt, commands, tools, results) && i < |results|
    ensures results[i].prompt == if i == 0 then prompt else prompt + " [turn " + Dec(i + 1) + "]"
    ensures results[i].commands == commands && results[i].tools == tools && results[i].denials == []
    ensures i + 1 < |results| ==> results[i].stopReason == Completed
    decreases |results|
  {
    hide Submit;
    var n := |results| - 1;
    if i < n {
      LoopEchoes(s, prompt, commands, tools, results[..n], i);
    } else {
      ResultEchoes(s, Run(s, Fresh, LoopRequests(prompt, commands, tools, n)),
                   Request(TurnPrompt(prompt, n), commands, tools, []));
    }
  }

  /** Compacting keeps an end of the list: at most `k` elements for a positive `k`, all of it
      for zero, and all but the first `-k` for a negative one. */
  lemma KeepLastExactly(xs: seq<string>, k: int)
    ensures var r := KeepLast(xs, k);
            && |r| <= |xs| && r == xs[|xs| - |r|..]
            && |r| == if k == 0 || |xs| <= k then |xs| else if k > 0 then k else if -k < |xs| then |xs| + k else 0
  {
  }
}
