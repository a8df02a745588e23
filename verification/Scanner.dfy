/** The quote-aware scanners of the temp-path guard: finding a closing parenthesis and
    splitting an argument list at its top-level commas. */
module Scanner {
  import opened Text

  /** `QuoteScanState`. */
  datatype Quote = Quote(open: Option<char>, escaped: bool)

  const NoQuote := Quote(None, false)

  predicate IsQuoteChar(c: char) {
    c == '\'' || c == '"' || c == '`'
  }

  /** The quote state after one more character. */
  function Advance(q: Quote, c: char): Quote {
    match q.open
    case None => if IsQuoteChar(c) then q.(open := Some(c)) else q
    case Some(mark) =>
      if q.escaped then q.(escaped := false)
      else if c == '\\' then q.(escaped := true)
      else if c == mark then q.(open := None)
      else q
  }

  class QuoteScanState {
    var quote: Option<char>
    var escaped: bool

    ghost function Now(): Quote
      reads this
    {
      Quote(quote, escaped)
    }

    constructor ()
      ensures Now() == NoQuote
    {
      quote, escaped := None, false;
    }

    method BeginQuotedSection(c: char) returns (begun: bool)
      requires quote.None?
      modifies this
      ensures begun == IsQuoteChar(c)
      ensures Now() == Advance(old(Now()), c)
    {
      if c != '\'' && c != '"' && c != '`' {
        return false;
      }
      quote := Some(c);
      return true;
    }

    method ConsumeQuotedChar(c: char) returns (consumed: bool)
      modifies this
      ensures consumed == old(quote).Some?
      ensures Now() == if consumed then Advance(old(Now()), c) else old(Now())
    {
      if quote.None? {
        return false;
      }
      if escaped {
        escaped := false;
        return true;
      }
      if c == '\\' {
        escaped := true;
        return true;
      }
      if Some(c) == quote {
        quote := None;
      }
      return true;
    }
  }

  // ---------- reference notions: quotes and nesting of a text ----------

  datatype Bracket = Paren | Square | Curly

  function Delta(kind: Bracket, c: char): int {
    match kind
    case Paren => if c == '(' then 1 else if c == ')' then -1 else 0
    case Square => if c == '[' then 1 else if c == ']' then -1 else 0
    case Curly => if c == '{' then 1 else if c == '}' then -1 else 0
  }

  function QuoteAfter(s: string): Quote {
    if s == "" then NoQuote else Advance(QuoteAfter(s[..|s| - 1]), s[|s| - 1])
  }

  /** Opening minus closing brackets of one kind outside quotes. */
  function Net(kind: Bracket, s: string): int {
    if s == "" then 0
    else
      var init := s[..|s| - 1];
      Net(kind, init) + if QuoteAfter(init).open.None? then Delta(kind, s[|s| - 1]) else 0
  }

  /** No prefix closes more brackets of this kind than it opens. */
  ghost predicate NeverBelow(kind: Bracket, s: string) {
    forall k | 0 <= k <= |s| :: Net(kind, s[..k]) >= 0
  }

  // ---------- findMatchingParen ----------

  /** Position `i` closes the parenthesis that opens at `openIndex`. */
  ghost predicate Closes(source: string, openIndex: nat, i: nat)
    requires openIndex < |source|
  {
    var from := openIndex + 1;
    && from <= i < |source| && source[i] == ')'
    && QuoteAfter(source[from..i]) == NoQuote
    && Net(Paren, source[from..i]) == 0
    && NeverBelow(Paren, source[from..i])
  }

  lemma SliceStep(source: string, from: nat, i: nat)
    requires from <= i < |source|
    ensures source[from..i + 1] == source[from..i] + [source[i]]
    ensures QuoteAfter(source[from..i + 1]) == Advance(QuoteAfter(source[from..i]), source[i])
    ensures forall kind :: Net(kind, source[from..i + 1])
                        == Net(kind, source[from..i])
                           + if QuoteAfter(source[from..i]).open.None? then Delta(kind, source[i]) else 0
    ensures forall kind :: NeverBelow(kind, source[from..i]) && Net(kind, source[from..i + 1]) >= 0
                       ==> NeverBelow(kind, source[from..i + 1])
  {
    var s, s' := source[from..i], source[from..i + 1];
    assert s'[..|s|] == s;
    forall kind: Bracket, k | NeverBelow(kind, s) && Net(kind, s') >= 0 && 0 <= k <= |s'|
      ensures Net(kind, s'[..k]) >= 0
    {
      if k <= |s| {
        assert s'[..k] == s[..k];
      } else {
        assert s'[..k] == s';
      }
    }
  }

  lemma {:induction false} EscapedOnlyInside(s: string)
    ensures QuoteAfter(s).escaped ==> QuoteAfter(s).open.Some?
  {
    if s != "" {
      EscapedOnlyInside(s[..|s| - 1]);
    }
  }

  /** The loop of `findMatchingParen`: the result is the one position that closes the
      parenthesis, or -1 if there is none. */
  method FindMatchingParen(source: string, openIndex: nat) returns (r: int)
    requires openIndex < |source|
    ensures r == -1 || (0 <= r && Closes(source, openIndex, r))
    ensures r == -1 ==> forall i: nat :: !Closes(source, openIndex, i)
    ensures r >= 0 ==> forall i: nat :: Closes(source, openIndex, i) ==> i == r
  {
    hide QuoteAfter, Net, NeverBelow;
    var depth := 1;
    var quoteState := new QuoteScanState();
    var from := openIndex + 1;
    NothingRead(source, from);
    for i := from to |source|
      invariant fresh(quoteState)
      invariant quoteState.Now() == QuoteAfter(source[from..i])
      invariant depth == Net(Paren, source[from..i]) + 1 >= 1
      invariant NeverBelow(Paren, source[from..i])
      invariant forall j | from <= j < i :: !Closes(source, openIndex, j)
    {
      var ch := source[i];
      SliceStep(source, from, i);
      EscapedOnlyInside(source[from..i]);
      var consumed := quoteState.ConsumeQuotedChar(ch);
      if consumed {
        continue;
      }
      var begun := quoteState.BeginQuotedSection(ch);
      if begun {
        continue;
      }
      if ch == '(' {
        depth := depth + 1;
        continue;
      }
      if ch == ')' {
        depth := depth - 1;
        if depth == 0 {
          assert Net(Paren, source[from..i + 1]) == -1;
          NothingClosesAfter(source, openIndex, i);
          return i;
        }
      }
    }
    return -1;
  }

  lemma NothingRead(source: string, from: nat)
    requires from <= |source|
    ensures QuoteAfter(source[from..from]) == NoQuote && Net(Paren, source[from..from]) == 0
    ensures NeverBelow(Paren, source[from..from])
  {
  }

  lemma NothingClosesAfter(source: string, openIndex: nat, i: nat)
    requires openIndex < i < |source|
    requires Net(Paren, source[openIndex + 1..i + 1]) < 0
    ensures forall j: nat | j > i :: !Closes(source, openIndex, j)
  {
    forall j: nat | j > i
      ensures !Closes(source, openIndex, j)
    {
      if j < |source| {
        assert source[openIndex + 1..j][..i - openIndex] == source[openIndex + 1..i + 1];
      }
    }
  }

  // ---------- splitTopLevelArguments ----------

  /** The splitter's variables: the quote state and three clamped depths. */
  datatype Scan = Scan(quote: Quote, paren: nat, square: nat, curly: nat)

  const Neutral := Scan(NoQuote, 0, 0, 0)

  function Clamp(depth: nat, delta: int): nat {
    if depth + delta < 0 then 0 else depth + delta
  }

  /** The splitter's variables after one more character that is not a separator. */
  function Next(s: Scan, c: char): Scan {
    var quote := Advance(s.quote, c);
    if s.quote.open.Some? || IsQuoteChar(c) then s.(quote := quote)
    else Scan(quote, Clamp(s.paren, Delta(Paren, c)), Clamp(s.square, Delta(Square, c)), Clamp(s.curly, Delta(Curly, c)))
  }

  predicate Separates(s: Scan, c: char) {
    s.quote.open.None? && c == ',' && s.paren == 0 && s.square == 0 && s.curly == 0
  }

  /** The untrimmed pieces between separators, `current` being the piece so far. */
  function Pieces(source: string, s: Scan, current: string): (r: seq<string>)
    ensures r != []
    decreases |source|
  {
    if source == "" then [current]
    else if Separates(s, source[0]) then [current] + Pieces(source[1..], s, "")
    else Pieces(source[1..], Next(s, source[0]), current + [source[0]])
  }

  /** What is reported for pieces: all trimmed, a blank last one dropped. */
  function Arguments(pieces: seq<string>): seq<string>
    requires pieces != []
  {
    if |pieces| == 1 then (if Blank(pieces[0]) then [] else [Trim(pieces[0])])
    else [Trim(pieces[0])] + Arguments(pieces[1..])
  }

  method SplitTopLevelArguments(source: string) returns (out: seq<string>)
    ensures out == Arguments(Pieces(source, Neutral, ""))
  {
    hide Trim, Blank;
    out := [];
    var current := "";
    var parenDepth: nat, bracketDepth: nat, braceDepth: nat := 0, 0, 0;
    var quoteState := new QuoteScanState();
    ghost var all := Arguments(Pieces(source, Neutral, ""));
    for i := 0 to |source|
      invariant fresh(quoteState)
      invariant out + Arguments(Pieces(source[i..], Scan(quoteState.Now(), parenDepth, bracketDepth, braceDepth), current)) == all
    {
      var ch := source[i];
      assert source[i..][1..] == source[i + 1..];
      if quoteState.quote.Some? {
        current := current + [ch];
        var _ := quoteState.ConsumeQuotedChar(ch);
        continue;
      }
      var begun := quoteState.BeginQuotedSection(ch);
      if begun {
        current := current + [ch];
        continue;
      }
      if ch == '(' {
        parenDepth := parenDepth + 1;
        current := current + [ch];
        continue;
      }
      if ch == ')' {
        if parenDepth > 0 {
          parenDepth := parenDepth - 1;
        }
        current := current + [ch];
        continue;
      }
      if ch == '[' {
        bracketDepth := bracketDepth + 1;
        current := current + [ch];
        continue;
      }
      if ch == ']' {
        if bracketDepth > 0 {
          bracketDepth := bracketDepth - 1;
        }
        current := current + [ch];
        continue;
      }
      if ch == '{' {
        braceDepth := braceDepth + 1;
        current := current + [ch];
        continue;
      }
      if ch == '}' {
        if braceDepth > 0 {
          braceDepth := braceDepth - 1;
        }
        current := current + [ch];
        continue;
      }
      if ch == ',' && parenDepth == 0 && bracketDepth == 0 && braceDepth == 0 {
        out := out + [Trim(current)];
        current := "";
        continue;
      }
      current := current + [ch];
    }
    if !Blank(current) {
      out := out + [Trim(current)];
    }
  }

  // ---------- the pieces are the unique decomposition ----------

  function ScanAfter(s: Scan, text: string): Scan {
    if text == "" then s else Next(ScanAfter(s, text[..|text| - 1]), text[|text| - 1])
  }

  /** No character of the text separates when scanned from the neutral state. */
  ghost predicate Unseparated(text: string) {
    forall k | 0 <= k < |text| :: !Separates(ScanAfter(Neutral, text[..k]), text[k])
  }

  /** All pieces hold no separator, and all but the last end where they started. */
  ghost predicate Decomposes(pieces: seq<string>) {
    && pieces != []
    && (forall p <- pieces :: Unseparated(p))
    && (forall i | 0 <= i < |pieces| - 1 :: ScanAfter(Neutral, pieces[i]) == Neutral)
  }

  lemma {:induction false} NeutralWhenSeparating(text: string, c: char)
    requires Separates(ScanAfter(Neutral, text), c)
    ensures ScanAfter(Neutral, text) == Neutral
  {
    QuoteOfScan(text);
    EscapedOnlyInside(text);
  }

  /** The splitter's quote state is the plain quote state of what it has read. */
  lemma {:induction false} QuoteOfScan(text: string)
    ensures ScanAfter(Neutral, text).quote == QuoteAfter(text)
  {
    if text != "" {
      QuoteOfScan(text[..|text| - 1]);
    }
  }

  lemma UnseparatedGrows(text: string, c: char)
    requires Unseparated(text) && !Separates(ScanAfter(Neutral, text), c)
    ensures Unseparated(text + [c]) && ScanAfter(Neutral, text + [c]) == Next(ScanAfter(Neutral, text), c)
  {
    var next := text + [c];
    assert next[..|text|] == text;
    forall k | 0 <= k < |next|
      ensures !Separates(ScanAfter(Neutral, next[..k]), next[k])
    {
      if k < |text| {
        assert next[..k] == text[..k];
      }
    }
  }

  lemma DecomposesCons(piece: string, tail: seq<string>)
    requires Unseparated(piece) && ScanAfter(Neutral, piece) == Neutral && Decomposes(tail)
    ensures Decomposes([piece] + tail) && Join([piece] + tail, ',') == piece + [','] + Join(tail, ',')
  {
    hide ScanAfter, Unseparated;
    assert ([piece] + tail)[1..] == tail;
  }

  lemma {:induction false} PiecesDecompose(source: string, current: string)
    requires Unseparated(current)
    ensures var pieces := Pieces(source, ScanAfter(Neutral, current), current);
            Decomposes(pieces) && Join(pieces, ',') == current + source
    decreases |source|
  {
    hide ScanAfter, Unseparated, Next, Join, Decomposes;
    var s := ScanAfter(Neutral, current);
    if source == "" {
      OnePiece(current);
      assert current + source == current;
    } else {
      var c, rest := source[0], source[1..];
      assert current + source == current + [c] + rest;
      if Separates(s, c) {
        NeutralWhenSeparating(current, c);
        EmptyPiece();
        PiecesDecompose(rest, "");
        DecomposesCons(current, Pieces(rest, s, ""));
        assert c == ',' && "" + rest == rest;
      } else {
        UnseparatedGrows(current, c);
        PiecesDecompose(rest, current + [c]);
      }
    }
  }

  lemma OnePiece(piece: string)
    requires Unseparated(piece)
    ensures Decomposes([piece]) && Join([piece], ',') == piece
  {
  }

  lemma EmptyPiece()
    ensures Unseparated("") && ScanAfter(Neutral, "") == Neutral
  {
  }

  lemma {:induction false} PiecesThroughPart(part: string, rest: string, n: nat)
    requires n <= |part| && Unseparated(part)
    ensures Pieces(part[n..] + rest, ScanAfter(Neutral, part[..n]), part[..n])
         == Pieces(rest, ScanAfter(Neutral, part), part)
    decreases |part| - n
  {
    if n == |part| {
      assert part[..n] == part && part[n..] + rest == rest;
    } else {
      var s := part[n..] + rest;
      assert s[1..] == part[n + 1..] + rest;
      assert part[..n + 1] == part[..n] + [part[n]];
      assert part[..n + 1][..n] == part[..n];
      PiecesThroughPart(part, rest, n + 1);
    }
  }

  lemma {:induction false} PiecesOfJoin(parts: seq<string>)
    requires Decomposes(parts)
    ensures Pieces(Join(parts, ','), Neutral, "") == parts
  {
    if |parts| == 1 {
      PiecesThroughPart(parts[0], "", 0);
      assert parts[0][0..] + "" == parts[0];
    } else {
      var tail := parts[1..];
      forall i | 0 <= i < |tail| - 1
        ensures ScanAfter(Neutral, tail[i]) == Neutral
      {
        assert tail[i] == parts[i + 1];
      }
      PiecesOfJoin(tail);
      var rest := [','] + Join(tail, ',');
      PiecesThroughPart(parts[0], rest, 0);
      assert parts[0][0..] + rest == Join(parts, ',');
      assert ScanAfter(Neutral, parts[0]) == Neutral;
      assert rest[1..] == Join(tail, ',');
    }
  }

  /** Every source is the comma-join of its pieces, and no other list of unseparated
      pieces, closed but for the last one, joins to it. */
  lemma PiecesUnique(source: string, parts: seq<string>)
    ensures Decomposes(parts) && Join(parts, ',') == source <==> parts == Pieces(source, Neutral, "")
  {
    PiecesDecompose(source, "");
    assert "" + source == source;
    if Decomposes(parts) && Join(parts, ',') == source {
      PiecesOfJoin(parts);
    }
  }

  lemma {:induction false} ArgumentsOfTight(parts: seq<string>)
    requires parts != [] && forall p <- parts :: p != "" && Tight(p)
    ensures Arguments(parts) == parts
  {
    TrimTight(parts[0]);
    if |parts| > 1 {
      assert forall p <- parts[1..] :: p in parts;
      ArgumentsOfTight(parts[1..]);
    }
  }

  // ---------- balanced arguments ----------

  /** Closed quotes, and brackets of each kind balanced outside them. */
  ghost predicate Balanced(text: string) {
    QuoteAfter(text) == NoQuote && forall kind :: NeverBelow(kind, text) && Net(kind, text) == 0
  }

  function Depth(s: Scan, kind: Bracket): nat {
    match kind
    case Paren => s.paren
    case Square => s.square
    case Curly => s.curly
  }

  /** While no prefix closes too much, the clamp never fires: the splitter's depth is the
      plain difference of opening and closing brackets. */
  lemma {:induction false} DepthIsNet(kind: Bracket, text: string)
    requires NeverBelow(kind, text)
    ensures Depth(ScanAfter(Neutral, text), kind) == Net(kind, text)
  {
    if text != "" {
      var init := text[..|text| - 1];
      forall k | 0 <= k <= |init|
        ensures Net(kind, init[..k]) >= 0
      {
        assert init[..k] == text[..k];
      }
      DepthIsNet(kind, init);
      QuoteOfScan(init);
      assert text[..|text|] == text && Net(kind, text) >= 0;
      assert IsQuoteChar(text[|text| - 1]) ==> Delta(kind, text[|text| - 1]) == 0;
    }
  }

  lemma BalancedIsNeutral(text: string)
    requires Balanced(text)
    ensures ScanAfter(Neutral, text) == Neutral
  {
    DepthIsNet(Paren, text);
    DepthIsNet(Square, text);
    DepthIsNet(Curly, text);
    QuoteOfScan(text);
    var s := ScanAfter(Neutral, text);
    assert s.paren == Depth(s, Paren) && s.square == Depth(s, Square) && s.curly == Depth(s, Curly);
  }

  /** Splitting undoes joining: a comma-joined list of trimmed, non-empty, balanced
      arguments without top-level commas splits into just that list. */
  lemma SplitOfJoin(args: seq<string>)
    requires forall a <- args :: a != "" && Tight(a) && Balanced(a) && Unseparated(a)
    ensures Arguments(Pieces(Join(args, ','), Neutral, "")) == args
  {
    if args == [] {
      return;
    }
    forall i | 0 <= i < |args| - 1
      ensures ScanAfter(Neutral, args[i]) == Neutral
    {
      BalancedIsNeutral(args[i]);
    }
    PiecesOfJoin(args);
    ArgumentsOfTight(args);
  }

  /** A separator leaves the splitter's variables as they are. */
  lemma SeparatorKeeps(s: Scan, c: char)
    requires Separates(s, c)
    ensures Next(s, c) == s
  {
  }

  /** After any part of its source, separators included, the splitter is in the state that
      scanning the part leads to, with some pieces done. */
  lemma {:induction false} SplitterState(source: string, k: nat) returns (done: seq<string>, current: string)
    requires k <= |source|
    ensures Pieces(source, Neutral, "") == done + Pieces(source[k..], ScanAfter(Neutral, source[..k]), current)
  {
    if k == 0 {
      done, current := [], "";
      assert source[0..] == source;
    } else {
      done, current := SplitterState(source, k - 1);
      var s, c := ScanAfter(Neutral, source[..k - 1]), source[k - 1];
      assert source[..k][..k - 1] == source[..k - 1] && source[k - 1..][1..] == source[k..];
      if Separates(s, c) {
        SeparatorKeeps(s, c);
        done, current := done + [current], "";
      } else {
        current := current + [c];
      }
    }
  }

  /** Both scanners agree on what `findMatchingParen` delimits: wherever the splitter stands
      in the slice, its parenthesis depth is the other scanner's depth less one, so its clamp
      never fires, and it ends the slice at depth 0 with no open quote. */
  lemma ScannersAgree(source: string, openIndex: nat, close: nat, k: nat)
    requires openIndex < |source| && Closes(source, openIndex, close)
    requires openIndex + 1 <= k <= close
    ensures var slice, s := source[openIndex + 1..close], ScanAfter(Neutral, source[openIndex + 1..k]);
            && (exists done, current :: Pieces(slice, Neutral, "") == done + Pieces(source[k..close], s, current))
            && s.quote == QuoteAfter(source[openIndex + 1..k])
            && s.paren == Net(Paren, source[openIndex + 1..k])
            && (k == close ==> s.paren == 0 && s.quote == NoQuote)
  {
    var slice, part := source[openIndex + 1..close], source[openIndex + 1..k];
    var n := k - (openIndex + 1);
    assert slice[..n] == part && slice[n..] == source[k..close];
    var done, current := SplitterState(slice, n);
    QuoteOfScan(part);
    forall j | 0 <= j <= |part|
      ensures Net(Paren, part[..j]) >= 0
    {
      assert part[..j] == slice[..j];
    }
    DepthIsNet(Paren, part);
  }

  // ---------- what quotes mean ----------

  /** How many backslashes stand directly before position `i`. */
  function Backslashes(body: string, i: nat): nat
    requires i <= |body|
  {
    if i == 0 || body[i - 1] != '\\' then 0 else 1 + Backslashes(body, i - 1)
  }

  /** The mark at position `i` ends the section: it is not escaped. */
  predicate EndsSection(mark: char, body: string, i: nat)
    requires i < |body|
  {
    body[i] == mark && Backslashes(body, i) % 2 == 0
  }

  lemma {:induction false} BackslashesOfPrefix(body: string, n: nat, i: nat)
    requires i <= n <= |body|
    ensures Backslashes(body[..n], i) == Backslashes(body, i)
  {
    if i > 0 {
      BackslashesOfPrefix(body, n, i - 1);
    }
  }

  lemma QuoteLast(s: string, c: char)
    ensures QuoteAfter(s + [c]) == Advance(QuoteAfter(s), c)
  {
    assert (s + [c])[..|s|] == s;
  }

  /** Outside quotes exactly an apostrophe, a quotation mark or a backtick opens a section. */
  lemma SectionOpens(s: string, c: char)
    requires QuoteAfter(s) == NoQuote
    ensures QuoteAfter(s + [c]) == if c == '\'' || c == '"' || c == '`' then Quote(Some(c), false) else NoQuote
  {
    QuoteLast(s, c);
  }

  /** A section lasts while its mark does not occur, but for occurrences behind an odd
      number of backslashes. */
  lemma {:induction false} SectionLasts(s: string, mark: char, body: string)
    requires QuoteAfter(s) == NoQuote && (mark == '\'' || mark == '"' || mark == '`')
    requires forall i | 0 <= i < |body| :: !EndsSection(mark, body, i)
    ensures QuoteAfter(s + [mark] + body) == Quote(Some(mark), Backslashes(body, |body|) % 2 == 1)
  {
    if body == "" {
      SectionOpens(s, mark);
      assert s + [mark] + body == s + [mark];
    } else {
      var n := |body| - 1;
      var init, c := body[..n], body[n];
      forall i | 0 <= i < n
        ensures !EndsSection(mark, init, i)
      {
        BackslashesOfPrefix(body, n, i);
        assert !EndsSection(mark, body, i);
      }
      SectionLasts(s, mark, init);
      BackslashesOfPrefix(body, n, n);
      assert s + [mark] + body == s + [mark] + init + [c];
      QuoteLast(s + [mark] + init, c);
      assert !EndsSection(mark, body, n);
    }
  }

  /** The first mark that is not escaped ends the section. */
  lemma SectionEnds(s: string, mark: char, body: string)
    requires QuoteAfter(s) == NoQuote && (mark == '\'' || mark == '"' || mark == '`')
    requires forall i | 0 <= i < |body| :: !EndsSection(mark, body, i)
    requires Backslashes(body, |body|) % 2 == 0
    ensures QuoteAfter(s + [mark] + body + [mark]) == NoQuote
  {
    SectionLasts(s, mark, body);
    QuoteLast(s + [mark] + body, mark);
  }

  lemma NetLast(kind: Bracket, s: string, c: char)
    ensures Net(kind, s + [c]) == Net(kind, s) + if QuoteAfter(s).open.None? then Delta(kind, c) else 0
  {
    assert (s + [c])[..|s|] == s;
  }

  /** Outside quotes the round, square and curly brackets count, and nothing else. */
  lemma BracketCounts(s: string, c: char)
    requires QuoteAfter(s) == NoQuote
    ensures Net(Paren, s + [c]) == Net(Paren, s) + (if c == '(' then 1 else if c == ')' then -1 else 0)
    ensures Net(Square, s + [c]) == Net(Square, s) + (if c == '[' then 1 else if c == ']' then -1 else 0)
    ensures Net(Curly, s + [c]) == Net(Curly, s) + (if c == '{' then 1 else if c == '}' then -1 else 0)
  {
    NetLast(Paren, s, c);
    NetLast(Square, s, c);
    NetLast(Curly, s, c);
  }

  /** No bracket counts inside a section. */
  lemma {:induction false} SectionHidesBrackets(kind: Bracket, s: string, mark: char, body: string)
    requires QuoteAfter(s) == NoQuote && (mark == '\'' || mark == '"' || mark == '`')
    requires forall i | 0 <= i < |body| :: !EndsSection(mark, body, i)
    ensures Net(kind, s + [mark] + body) == Net(kind, s)
  {
    if body == "" {
      NetLast(kind, s, mark);
      assert s + [mark] + body == s + [mark];
    } else {
      var n := |body| - 1;
      var init, c := body[..n], body[n];
      forall i | 0 <= i < n
        ensures !EndsSection(mark, init, i)
      {
        BackslashesOfPrefix(body, n, i);
        assert !EndsSection(mark, body, i);
      }
      SectionHidesBrackets(kind, s, mark, init);
      SectionLasts(s, mark, init);
      assert s + [mark] + body == s + [mark] + init + [c];
      NetLast(kind, s + [mark] + init, c);
    }
  }

  /** What is reported for the pieces: each one trimmed and in order, but for a last one that
      is blank. */
  lemma {:induction false} ArgumentsExactly(pieces: seq<string>)
    requires pieces != []
    ensures |Arguments(pieces)| == if Trim(pieces[|pieces| - 1]) == "" then |pieces| - 1 else |pieces|
    ensures forall i | 0 <= i < |Arguments(pieces)| :: Arguments(pieces)[i] == Trim(pieces[i])
  {
    hide Trim;
    if |pieces| > 1 {
      ArgumentsExactly(pieces[1..]);
    }
  }
}
