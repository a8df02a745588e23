/** Routing a prompt to the best matching commands and tools. */
module Router {
  import opened Text
  import opened Sorting
  import Session

  datatype Kind = Command | Tool
  datatype PortingModule = PortingModule(name: string, responsibility: string, sourceHint: string)
  datatype Match = Match(kind: Kind, name: string, sourceHint: string, score: nat)

  // ---------- scoring ----------

  function Spaced(prompt: string): string {
    seq(|prompt|, i requires 0 <= i < |prompt| => if prompt[i] == '/' || prompt[i] == '-' then ' ' else prompt[i])
  }

  /** `lower` stands for `str.lower`. */
  function Tokens(lower: string -> string, prompt: string): set<string> {
    set w | w in Words(Spaced(prompt), Session.IsPySpace) :: lower(w)
  }

  predicate Hits(lower: string -> string, token: string, m: PortingModule) {
    Contains(lower(m.name), token) || Contains(lower(m.sourceHint), token) || Contains(lower(m.responsibility), token)
  }

  /** How many of the tokens occur in the module. */
  function Score(lower: string -> string, tokens: set<string>, m: PortingModule): nat {
    |set t | t in tokens && Hits(lower, t, m)|
  }

  lemma ScoreGrows(lower: string -> string, seen: set<string>, token: string, m: PortingModule)
    requires token !in seen
    ensures Score(lower, seen + {token}, m) == Score(lower, seen, m) + if Hits(lower, token, m) then 1 else 0
  {
    var hits := set t | t in seen && Hits(lower, t, m);
    assert (set t | t in seen + {token} && Hits(lower, t, m)) == hits + if Hits(lower, token, m) then {token} else {};
  }

  method ScoreLoop(lower: string -> string, tokens: set<string>, m: PortingModule) returns (score: nat)
    ensures score == Score(lower, tokens, m)
  {
    score := 0;
    var todo := tokens;
    ghost var seen: set<string> := {};
    while todo != {}
      invariant todo + seen == tokens && todo !! seen
      invariant score == Score(lower, seen, m)
      decreases todo
    {
      var token :| token in todo;
      ScoreGrows(lower, seen, token, m);
      if Hits(lower, token, m) {
        score := score + 1;
      }
      todo, seen := todo - {token}, seen + {token};
    }
    assert seen == tokens;
  }

  // ---------- ranking ----------

  predicate KindLe(a: Kind, b: Kind) {
    a.Command? || b.Tool?
  }

  /** The order of `(-score, name)` within one kind. */
  function ByScore(): (Match, Match) -> bool {
    (a: Match, b: Match) => a.score > b.score || (a.score == b.score && StrLe(a.name, b.name))
  }

  /** The order of `(-score, kind, name)`. */
  function ByRank(): (Match, Match) -> bool {
    (a: Match, b: Match) =>
      a.score > b.score ||
      (a.score == b.score && (if a.kind == b.kind then StrLe(a.name, b.name) else KindLe(a.kind, b.kind)))
  }

  lemma ByScoreOrders()
    ensures TotalPreorder(ByScore())
  {
    forall x: Match, y: Match
      ensures ByScore()(x, y) || ByScore()(y, x)
    {
      StrLeTotal(x.name, y.name);
    }
    forall x: Match, y: Match, z: Match | ByScore()(x, y) && ByScore()(y, z)
      ensures ByScore()(x, z)
    {
      if x.score == y.score == z.score {
        StrLeTransitive(x.name, y.name, z.name);
      }
    }
  }

  lemma ByRankOrders()
    ensures TotalPreorder(ByRank())
  {
    forall x: Match, y: Match
      ensures ByRank()(x, y) || ByRank()(y, x)
    {
      StrLeTotal(x.name, y.name);
    }
    forall x: Match, y: Match, z: Match | ByRank()(x, y) && ByRank()(y, z)
      ensures ByRank()(x, z)
    {
      if x.score == y.score == z.score && x.kind == y.kind == z.kind {
        StrLeTransitive(x.name, y.name, z.name);
      }
    }
  }

  // ---------- collecting ----------

  function Matches(lower: string -> string, tokens: set<string>, modules: seq<PortingModule>, kind: Kind): seq<Match> {
    if modules == [] then []
    else
      var m := modules[|modules| - 1];
      var init := Matches(lower, tokens, modules[..|modules| - 1], kind);
      if Score(lower, tokens, m) > 0 then init + [Match(kind, m.name, m.sourceHint, Score(lower, tokens, m))] else init
  }

  method CollectMatches(lower: string -> string, tokens: set<string>, modules: seq<PortingModule>, kind: Kind)
    returns (matches: seq<Match>)
    ensures matches == Sort(Matches(lower, tokens, modules, kind), ByScore())
  {
    matches := [];
    for i := 0 to |modules|
      invariant matches == Matches(lower, tokens, modules[..i], kind)
    {
      assert modules[..i + 1][..i] == modules[..i];
      var score := ScoreLoop(lower, tokens, modules[i]);
      if score > 0 {
        matches := matches + [Match(kind, modules[i].name, modules[i].sourceHint, score)];
      }
    }
    assert modules[..|modules|] == modules;
    matches := Sort(matches, ByScore());
  }

  // ---------- routing ----------

  /** `xs[:n]`: a negative bound counts from the end. */
  function Take(xs: seq<Match>, n: int): seq<Match> {
    if n >= |xs| then xs else if n >= 0 then xs[..n] else if |xs| + n >= 0 then xs[..|xs| + n] else []
  }

  function Head(xs: seq<Match>): seq<Match> {
    if xs == [] then [] else [xs[0]]
  }

  function Tail(xs: seq<Match>): seq<Match> {
    if xs == [] then [] else xs[1..]
  }

  /** `route_prompt` on the sorted matches of both kinds. */
  function Route(commands: seq<Match>, tools: seq<Match>, limit: int): seq<Match> {
    var selected := Head(commands) + Head(tools);
    var leftovers := Sort(Tail(commands) + Tail(tools), ByRank());
    Take(selected + Take(leftovers, if limit - |selected| > 0 then limit - |selected| else 0), limit)
  }

  /** What `route_prompt` selects from the matches of both kinds for a prompt. */
  function Selected(lower: string -> string, prompt: string, commandModules: seq<PortingModule>,
                    toolModules: seq<PortingModule>, limit: int): seq<Match>
  {
    Route(Sort(Matches(lower, Tokens(lower, prompt), commandModules, Command), ByScore()),
          Sort(Matches(lower, Tokens(lower, prompt), toolModules, Tool), ByScore()), limit)
  }

  method RoutePrompt(lower: string -> string, prompt: string, commandModules: seq<PortingModule>,
                     toolModules: seq<PortingModule>, limit: int)
    returns (selected: seq<Match>)
    ensures selected == Selected(lower, prompt, commandModules, toolModules, limit)
  {
    hide Matches, Tokens, Take, ByScore, Sort;
    var tokens := Tokens(lower, prompt);
    var commands := CollectMatches(lower, tokens, commandModules, Command);
    var tools := CollectMatches(lower, tokens, toolModules, Tool);
    selected := [];
    ghost var allCommands, allTools := commands, tools;
    if |commands| > 0 {
      selected := selected + [commands[0]];
      commands := commands[1..];
    }
    if |tools| > 0 {
      selected := selected + [tools[0]];
      tools := tools[1..];
    }
    assert commands == Tail(allCommands) && tools == Tail(allTools);
    assert selected == Head(allCommands) + Head(allTools);
    var leftovers := Sort(commands + tools, ByRank());
    selected := selected + Take(leftovers, if limit - |selected| > 0 then limit - |selected| else 0);
    selected := Take(selected, limit);
  }

  // ---------- what a route guarantees ----------

  /** The best of each kind, then all the others in rank order. */
  function Line(commands: seq<Match>, tools: seq<Match>): seq<Match> {
    Head(commands) + Head(tools) + Sort(Tail(commands) + Tail(tools), ByRank())
  }

  lemma TakeTwice(selected: seq<Match>, leftovers: seq<Match>, limit: nat)
    ensures Take(selected + Take(leftovers, if limit - |selected| > 0 then limit - |selected| else 0), limit)
         == Take(selected + leftovers, limit)
  {
    var line := selected + leftovers;
    if limit < |line| {
      if limit <= |selected| {
        assert Take(leftovers, 0) == [] && selected + [] == selected;
        assert line[..limit] == selected[..limit];
      } else {
        assert line[..limit] == selected + leftovers[..limit - |selected|];
      }
    }
  }

  lemma HeadTail(xs: seq<Match>)
    ensures multiset(xs) == multiset(Head(xs)) + multiset(Tail(xs))
    ensures |xs| == |Head(xs)| + |Tail(xs)|
  {
    assert xs == Head(xs) + Tail(xs);
  }

  /** The route is the front of the line, and the line holds every match once. */
  lemma RouteIsPrefix(commands: seq<Match>, tools: seq<Match>, limit: nat)
    ensures Route(commands, tools, limit) == Take(Line(commands, tools), limit)
    ensures multiset(Line(commands, tools)) == multiset(commands) + multiset(tools)
    ensures |Line(commands, tools)| == |commands| + |tools|
  {
    var rest := Tail(commands) + Tail(tools);
    TakeTwice(Head(commands) + Head(tools), Sort(rest, ByRank()), limit);
    SortPermutes(rest, ByRank());
    HeadTail(commands);
    HeadTail(tools);
  }

  /** The best element of a list under an order, at its head once sorted. */
  lemma HeadIsBest(xs: seq<Match>)
    requires xs != []
    ensures var s := Sort(xs, ByScore()); s != [] && s[0] in xs && forall x <- xs :: ByScore()(s[0], x)
  {
    var s := Sort(xs, ByScore());
    ByScoreOrders();
    SortPermutes(xs, ByScore());
    SortSorted(xs, ByScore());
    assert s[0] in s;
    forall x | x in xs
      ensures ByScore()(s[0], x)
    {
      var i :| 0 <= i < |s| && s[i] == x;
      assert ByScore()(x, x) by {
        StrLeTotal(x.name, x.name);
      }
    }
  }

  /** For a non-negative limit: as many entries as the limit and the matches allow, drawn
      from the matches. */
  lemma RouteDraws(cs: seq<Match>, ts: seq<Match>, limit: nat)
    ensures var r := Route(Sort(cs, ByScore()), Sort(ts, ByScore()), limit);
            && |r| == (if limit < |cs| + |ts| then limit else |cs| + |ts|)
            && multiset(r) <= multiset(cs) + multiset(ts)
  {
    var commands, tools := Sort(cs, ByScore()), Sort(ts, ByScore());
    SortPermutes(cs, ByScore());
    SortPermutes(ts, ByScore());
    RouteIsPrefix(commands, tools, limit);
    TakeDraws(Line(commands, tools), limit);
  }

  lemma TakeDraws(line: seq<Match>, limit: nat)
    ensures |Take(line, limit)| == if limit < |line| then limit else |line|
    ensures multiset(Take(line, limit)) <= multiset(line)
  {
    if limit < |line| {
      assert line == line[..limit] + line[limit..];
    }
  }

  /** When both kinds match and two entries fit, the best command and the best tool come
      first. */
  lemma BestOfEachKind(cs: seq<Match>, ts: seq<Match>, limit: nat)
    requires cs != [] && ts != [] && limit >= 2
    ensures var r := Route(Sort(cs, ByScore()), Sort(ts, ByScore()), limit);
            && |r| >= 2
            && r[0] in cs && (forall c <- cs :: ByScore()(r[0], c))
            && r[1] in ts && (forall t <- ts :: ByScore()(r[1], t))
  {
    HeadIsBest(cs);
    HeadIsBest(ts);
    SortPermutes(cs, ByScore());
    SortPermutes(ts, ByScore());
    RouteIsPrefix(Sort(cs, ByScore()), Sort(ts, ByScore()), limit);
  }

  lemma {:induction false} MatchesKind(lower: string -> string, tokens: set<string>, modules: seq<PortingModule>, kind: Kind)
    ensures forall m <- Matches(lower, tokens, modules, kind) :: m.kind == kind && m.score > 0
  {
    if modules != [] {
      MatchesKind(lower, tokens, modules[..|modules| - 1], kind);
    }
  }

  /** For a prompt that hits a command and a tool, with room for two, the first entry is a
      command that no matching command beats and the second such a tool. */
  lemma BothKindsRouted(lower: string -> string, prompt: string, commandModules: seq<PortingModule>,
                        toolModules: seq<PortingModule>, limit: nat)
    requires limit >= 2
    requires exists m :: m in commandModules && Score(lower, Tokens(lower, prompt), m) > 0
    requires exists m :: m in toolModules && Score(lower, Tokens(lower, prompt), m) > 0
    ensures var r := Selected(lower, prompt, commandModules, toolModules, limit);
            && |r| >= 2 && r[0].kind == Command && r[1].kind == Tool && r[0].score > 0 && r[1].score > 0
            && (forall m <- commandModules :: Score(lower, Tokens(lower, prompt), m) <= r[0].score)
            && (forall m <- toolModules :: Score(lower, Tokens(lower, prompt), m) <= r[1].score)
  {
    var tokens := Tokens(lower, prompt);
    var cs, ts := Matches(lower, tokens, commandModules, Command), Matches(lower, tokens, toolModules, Tool);
    MatchesKind(lower, tokens, commandModules, Command);
    MatchesKind(lower, tokens, toolModules, Tool);
    MatchesAll(lower, tokens, commandModules, Command);
    MatchesAll(lower, tokens, toolModules, Tool);
    BestOfEachKind(cs, ts, limit);
  }

  lemma {:induction false} MatchesAll(lower: string -> string, tokens: set<string>, modules: seq<PortingModule>, kind: Kind)
    ensures forall m <- modules | Score(lower, tokens, m) > 0 ::
              Match(kind, m.name, m.sourceHint, Score(lower, tokens, m)) in Matches(lower, tokens, modules, kind)
  {
    if modules != [] {
      MatchesAll(lower, tokens, modules[..|modules| - 1], kind);
      assert modules == modules[..|modules| - 1] + [modules[|modules| - 1]];
    }
  }

  /** In a list that ends in rank order, nothing behind a cut ranks above that part. */
  lemma CutRanks(heads: seq<Match>, leftovers: seq<Match>, n: nat, i: nat, x: Match)
    requires TotalPreorder(ByRank()) && SortedBy(leftovers, ByRank())
    requires |heads| <= i < n <= |heads| + |leftovers|
    requires x in multiset(heads + leftovers) - multiset((heads + leftovers)[..n])
    ensures ByRank()((heads + leftovers)[i], x)
  {
    var line := heads + leftovers;
    assert line == line[..n] + line[n..];
    assert multiset(line) == multiset(line[..n]) + multiset(line[n..]);
    assert x in multiset(line[n..]);
    var j :| 0 <= j < |line[n..]| && line[n..][j] == x;
    assert line[i] == leftovers[i - |heads|] && line[n + j] == leftovers[n + j - |heads|];
  }

  /** No match left out ranks above a leftover that was taken. */
  lemma LeftOutRanksBelow(commands: seq<Match>, tools: seq<Match>, limit: nat)
    ensures var r := Route(commands, tools, limit);
            forall i, x | |Head(commands)| + |Head(tools)| <= i < |r| && x in multiset(commands) + multiset(tools) - multiset(r) ::
              ByRank()(r[i], x)
  {
    var heads := Head(commands) + Head(tools);
    var leftovers := Sort(Tail(commands) + Tail(tools), ByRank());
    var r := Route(commands, tools, limit);
    RouteIsPrefix(commands, tools, limit);
    ByRankOrders();
    SortSorted(Tail(commands) + Tail(tools), ByRank());
    assert Line(commands, tools) == heads + leftovers;
    assert r == (heads + leftovers)[..|r|];
    forall i, x | |heads| <= i < |r| && x in multiset(commands) + multiset(tools) - multiset(r)
      ensures ByRank()(r[i], x)
    {
      CutRanks(heads, leftovers, |r|, i, x);
    }
  }

  // ---------- what a hit is ----------

  ghost predicate Occurs(token: string, text: string) {
    exists a, b :: text == a + token + b
  }

  /** A token hits a module exactly if it occurs in its name, its source or its purpose. */
  lemma HitsExactly(lower: string -> string, token: string, m: PortingModule)
    ensures Hits(lower, token, m) <==>
              Occurs(token, lower(m.name)) || Occurs(token, lower(m.sourceHint)) || Occurs(token, lower(m.responsibility))
  {
    ContainsExactly(lower(m.name), token);
    ContainsExactly(lower(m.sourceHint), token);
    ContainsExactly(lower(m.responsibility), token);
  }

  predicate SplitsTokens(c: char) {
    c == '/' || c == '-' || Session.IsPySpace(c)
  }

  /** White space, slashes and dashes separate tokens. */
  lemma TokensAround(lower: string -> string, a: string, c: char, b: string)
    requires SplitsTokens(c)
    ensures Tokens(lower, a + [c] + b) == Tokens(lower, a) + Tokens(lower, b)
  {
    hide Session.IsPySpace, Words;
    var d := if c == '/' || c == '-' then ' ' else c;
    assert Session.IsPySpace(' ') by {
      SpaceIsSpace();
    }
    assert Spaced(a + [c] + b) == Spaced(a) + [d] + Spaced(b);
    WordsAround(Spaced(a), Spaced(b), d, Session.IsPySpace);
  }

  lemma SpaceIsSpace()
    ensures Session.IsPySpace(' ')
  {
  }

  /** A text without any of these is one token, in lower case, or none. */
  lemma TokensOne(lower: string -> string, w: string)
    requires forall c <- w :: !SplitsTokens(c)
    ensures Tokens(lower, w) == if w == "" then {} else {lower(w)}
  {
    hide Session.IsPySpace, Words;
    assert Spaced(w) == w by {
      assert forall i | 0 <= i < |w| :: w[i] in w;
    }
    WordsOne(w, Session.IsPySpace);
    if w != "" {
      assert w in [w];
    }
  }

  /** The matches of one kind: the modules that some token hits, with the number of tokens
      that do. */
  lemma {:induction false} MatchesExactly(lower: string -> string, tokens: set<string>, modules: seq<PortingModule>, kind: Kind, e: Match)
    ensures e in Matches(lower, tokens, modules, kind) <==>
              && e.kind == kind && e.score > 0
              && exists m :: m in modules && m.name == e.name && m.sourceHint == e.sourceHint &&
                             e.score == |set t | t in tokens && Hits(lower, t, m)|
  {
    hide Hits;
    if modules != [] {
      var n := |modules| - 1;
      MatchesExactly(lower, tokens, modules[..n], kind, e);
      assert modules == modules[..n] + [modules[n]];
    }
  }

  /** A negative limit counts from the end of the best entries: -1 leaves the best command
      alone if both kinds match, and nothing is left from -2 on. */
  lemma NegativeLimit(cs: seq<Match>, ts: seq<Match>, limit: int)
    requires limit < 0
    ensures var r := Route(Sort(cs, ByScore()), Sort(ts, ByScore()), limit);
            && (limit == -1 && cs != [] && ts != [] ==> r == [Sort(cs, ByScore())[0]] && forall c <- cs :: ByScore()(r[0], c))
            && (limit < -1 || cs == [] || ts == [] ==> r == [])
  {
    SortPermutes(cs, ByScore());
    SortPermutes(ts, ByScore());
    if cs != [] {
      HeadIsBest(cs);
    }
    var commands, tools := Sort(cs, ByScore()), Sort(ts, ByScore());
    var leftovers := Sort(Tail(commands) + Tail(tools), ByRank());
    assert Take(leftovers, 0) == [];
    assert Head(commands) + Head(tools) + [] == Head(commands) + Head(tools);
  }

  // ---------- what the order of the selection is ----------

  /** A higher score, or a command before a tool, or the earlier name. */
  ghost predicate Outranks(a: Match, b: Match) {
    || a.score > b.score
    || (a.score == b.score && a.kind.Command? && b.kind.Tool?)
    || (a.score == b.score && a.kind == b.kind && (a.name == b.name || exists i: nat :: PrecedesAt(a.name, b.name, i)))
  }

  lemma RankMeans(a: Match, b: Match)
    ensures ByRank()(a, b) <==> Outranks(a, b)
    ensures a.kind == b.kind ==> (ByScore()(a, b) <==> Outranks(a, b))
  {
    StrLeExactly(a.name, b.name);
  }

  /** The leftovers that are taken come in the order of score, kind and name, and none that
      is not taken comes before one of them. */
  lemma LeftoversInOrder(commands: seq<Match>, tools: seq<Match>, limit: nat)
    ensures var r := Route(commands, tools, limit);
            var heads := |Head(commands)| + |Head(tools)|;
            && (forall i, j | heads <= i < j < |r| :: Outranks(r[i], r[j]))
            && forall i, x | heads <= i < |r| && x in multiset(commands) + multiset(tools) - multiset(r) :: Outranks(r[i], x)
  {
    hide Outranks, ByRank;
    var r := Route(commands, tools, limit);
    var heads := Head(commands) + Head(tools);
    var leftovers := Sort(Tail(commands) + Tail(tools), ByRank());
    LeftOutRanksBelow(commands, tools, limit);
    RouteIsPrefix(commands, tools, limit);
    ByRankOrders();
    SortSorted(Tail(commands) + Tail(tools), ByRank());
    forall a: Match, b: Match
      ensures ByRank()(a, b) <==> Outranks(a, b)
    {
      RankMeans(a, b);
    }
    assert r == (heads + leftovers)[..|r|];
    forall i, j | |heads| <= i < j < |r|
      ensures Outranks(r[i], r[j])
    {
      assert ByRank()(leftovers[i - |heads|], leftovers[j - |heads|]);
    }
  }

  /** With both kinds matching and room for two, no command comes before the first entry and
      no tool before the second. */
  lemma BestComeFirst(cs: seq<Match>, ts: seq<Match>, limit: nat)
    requires cs != [] && ts != [] && limit >= 2
    requires (forall c <- cs :: c.kind.Command?) && (forall t <- ts :: t.kind.Tool?)
    ensures var r := Route(Sort(cs, ByScore()), Sort(ts, ByScore()), limit);
            && |r| >= 2
            && r[0] in cs && (forall c <- cs :: Outranks(r[0], c))
            && r[1] in ts && (forall t <- ts :: Outranks(r[1], t))
  {
    hide Outranks, ByScore, Route;
    BestOfEachKind(cs, ts, limit);
    var r := Route(Sort(cs, ByScore()), Sort(ts, ByScore()), limit);
    forall c | c in cs
      ensures Outranks(r[0], c)
    {
      RankMeans(r[0], c);
    }
    forall t | t in ts
      ensures Outranks(r[1], t)
    {
      RankMeans(r[1], t);
    }
  }
}
