/** Strings as the scripts use them: splitting on a separator, joining, trimming
    and splitting into words. A `char` stands for one code unit. */
module Text {

  /** Optional values, for the source's `undefined` and `null`. */
  datatype Option<+T> = None | Some(value: T)

  /** A computation that may throw, with the message of the error. */
  datatype Result<+T> = Ok(value: T) | Thrown(message: string)

  /** The white space that `trim` and `\s` recognise. */
  predicate IsSpace(c: char) {
    '\t' <= c <= '\r' || c == ' ' || c == '\U{00A0}' || c == '\U{1680}' ||
    '\U{2000}' <= c <= '\U{200A}' || c == '\U{2028}' || c == '\U{2029}' ||
    c == '\U{202F}' || c == '\U{205F}' || c == '\U{3000}' || c == '\U{FEFF}'
  }

  function TrimStart(s: string): (r: string)
    ensures |r| <= |s|
  {
    if s != "" && IsSpace(s[0]) then TrimStart(s[1..]) else s
  }

  function TrimEnd(s: string): (r: string)
    ensures |r| <= |s|
  {
    if s != "" && IsSpace(s[|s| - 1]) then TrimEnd(s[..|s| - 1]) else s
  }

  function Trim(s: string): string {
    TrimEnd(TrimStart(s))
  }

  /** A string whose `trim()` is empty. */
  predicate Blank(s: string) {
    Trim(s) == ""
  }

  /** Neither end of the string is white space. */
  predicate Tight(s: string) {
    s != "" ==> !IsSpace(s[0]) && !IsSpace(s[|s| - 1])
  }

  /** `trim` takes white space off both ends and nothing else. */
  lemma TrimLaw(s: string) returns (a: string, b: string)
    ensures s == a + Trim(s) + b && Tight(Trim(s))
    ensures (forall c <- a :: IsSpace(c)) && (forall c <- b :: IsSpace(c))
  {
    hide IsSpace, Trim, TrimStart, TrimEnd;
    TrimIsBoth(s);
    var t, u := TrimStart(s), Trim(s);
    a := TrimStartLaw(s);
    b := TrimEndLaw(t);
    assert s == a + t && t == u + b;
    assert a + (u + b) == a + u + b;
    assert u != "" ==> u[0] == t[0];
  }

  lemma TrimIsBoth(s: string)
    ensures Trim(s) == TrimEnd(TrimStart(s))
  {
  }

  lemma {:induction false} TrimStartLaw(s: string) returns (a: string)
    ensures s == a + TrimStart(s) && forall c <- a :: IsSpace(c)
    ensures TrimStart(s) != "" ==> !IsSpace(TrimStart(s)[0])
  {
    hide IsSpace;
    a := "";
    if s != "" && IsSpace(s[0]) {
      var b := TrimStartLaw(s[1..]);
      a := [s[0]] + b;
    }
  }

  lemma {:induction false} TrimEndLaw(s: string) returns (b: string)
    ensures s == TrimEnd(s) + b && forall c <- b :: IsSpace(c)
    ensures TrimEnd(s) != "" ==> !IsSpace(TrimEnd(s)[|TrimEnd(s)| - 1])
  {
    hide IsSpace;
    b := "";
    if s != "" && IsSpace(s[|s| - 1]) {
      var a := TrimEndLaw(s[..|s| - 1]);
      b := a + [s[|s| - 1]];
    }
  }

  lemma TrimTight(s: string)
    requires Tight(s)
    ensures Trim(s) == s
  {
  }

  /** `s.split(c)`: never empty, and "" splits into one empty part. */
  function Split(s: string, c: char): (parts: seq<string>)
    ensures |parts| >= 1
    ensures forall p <- parts :: c !in p
  {
    if s == "" then [""]
    else
      var rest := Split(s[1..], c);
      if s[0] == c then [""] + rest else [[s[0]] + rest[0]] + rest[1..]
  }

  /** `parts.join(c)`. */
  function Join(parts: seq<string>, c: char): string {
    if parts == [] then ""
    else if |parts| == 1 then parts[0]
    else parts[0] + [c] + Join(parts[1..], c)
  }

  lemma {:induction false} JoinSplit(s: string, c: char)
    ensures Join(Split(s, c), c) == s
  {
    hide Join, Split;
    if s == "" {
      JoinOfNothing(c);
    } else {
      JoinSplit(s[1..], c);
      var rest := Split(s[1..], c);
      SplitHead(s, c);
      assert s == [s[0]] + s[1..];
      if s[0] == c {
        JoinBlankHead(rest, c);
      } else {
        JoinLongerHead(s[0], rest, c);
      }
    }
  }

  lemma JoinOfNothing(c: char)
    ensures Join(Split("", c), c) == ""
  {
  }

  lemma SplitHead(s: string, c: char)
    requires s != ""
    ensures var rest := Split(s[1..], c);
            Split(s, c) == if s[0] == c then [""] + rest else [[s[0]] + rest[0]] + rest[1..]
  {
  }

  lemma JoinBlankHead(rest: seq<string>, c: char)
    requires rest != []
    ensures Join([""] + rest, c) == [c] + Join(rest, c)
  {
    assert ([""] + rest)[1..] == rest;
  }

  lemma JoinLongerHead(d: char, rest: seq<string>, c: char)
    requires rest != []
    ensures Join([[d] + rest[0]] + rest[1..], c) == [d] + Join(rest, c)
  {
    var parts := [[d] + rest[0]] + rest[1..];
    assert parts[1..] == rest[1..];
  }

  /** Splitting a string that starts with a separator-free part. */
  lemma {:induction false} SplitAfter(p: string, s: string, c: char)
    requires c !in p
    ensures Split(p, c) == [p]
    ensures Split(p + [c] + s, c) == [p] + Split(s, c)
  {
    if p == "" {
      assert p + [c] + s == [c] + s;
      assert ([c] + s)[1..] == s;
    } else {
      SplitAfter(p[1..], s, c);
      assert p == [p[0]] + p[1..];
      assert (p + [c] + s)[1..] == p[1..] + [c] + s;
    }
  }

  lemma {:induction false} SplitJoin(parts: seq<string>, c: char)
    requires parts != []
    requires forall p <- parts :: c !in p
    ensures Split(Join(parts, c), c) == parts
  {
    if |parts| == 1 {
      SplitAfter(parts[0], "", c);
    } else {
      SplitJoin(parts[1..], c);
      SplitAfter(parts[0], Join(parts[1..], c), c);
      assert parts == [parts[0]] + parts[1..];
    }
  }

  /** `s.split()` on runs of separators, without empty words. */
  function Words(s: string, space: char -> bool): seq<string> {
    WordsFrom(s, "", space)
  }

  /** The words of `s` when `word` is the word being read. */
  function WordsFrom(s: string, word: string, space: char -> bool): seq<string>
    decreases |s|
  {
    if s == "" then Flush(word)
    else if space(s[0]) then Flush(word) + WordsFrom(s[1..], "", space)
    else WordsFrom(s[1..], word + [s[0]], space)
  }

  function Flush(word: string): seq<string> {
    if word == "" then [] else [word]
  }

  lemma {:induction false} WordsFromAround(a: string, b: string, word: string, c: char, space: char -> bool)
    requires space(c)
    ensures WordsFrom(a + [c] + b, word, space) == WordsFrom(a, word, space) + Words(b, space)
    decreases |a|
  {
    var s := a + [c] + b;
    if a == "" {
      assert s[1..] == b;
    } else {
      assert s[1..] == a[1..] + [c] + b;
      if space(a[0]) {
        WordsFromAround(a[1..], b, "", c, space);
      } else {
        WordsFromAround(a[1..], b, word + [a[0]], c, space);
      }
    }
  }

  /** White space between two texts separates their words. */
  lemma WordsAround(a: string, b: string, c: char, space: char -> bool)
    requires space(c)
    ensures Words(a + [c] + b, space) == Words(a, space) + Words(b, space)
  {
    WordsFromAround(a, b, "", c, space);
  }

  /** A text without white space is one word, or none. */
  lemma WordsOne(s: string, space: char -> bool)
    requires forall c <- s :: !space(c)
    ensures Words(s, space) == if s == "" then [] else [s]
  {
    WordsFromOne(s, "", space);
    assert "" + s == s;
  }

  lemma {:induction false} WordsFromOne(s: string, word: string, space: char -> bool)
    requires forall c <- s :: !space(c)
    ensures WordsFrom(s, word, space) == Flush(word + s)
    decreases |s|
  {
    if s == "" {
      assert word + s == word;
    } else {
      WordsFromOne(s[1..], word + [s[0]], space);
      assert word + [s[0]] + s[1..] == word + s;
    }
  }

  /** Lower case of the ASCII letters. */
  function Lower(s: string): string {
    seq(|s|, i requires 0 <= i < |s| => if 'A' <= s[i] <= 'Z' then (s[i] as int + 32) as char else s[i])
  }

  predicate StartsWith(s: string, prefix: string) {
    prefix <= s
  }

  /** `s.includes(needle)`. */
  predicate Contains(s: string, needle: string) {
    needle <= s || (s != "" && Contains(s[1..], needle))
  }

  /** The needle occurs at some position. */
  lemma {:induction false} ContainsExactly(s: string, needle: string)
    ensures Contains(s, needle) <==> exists a, b :: s == a + needle + b
  {
    if needle <= s {
      assert s == "" + needle + s[|needle|..];
    } else if s != "" {
      ContainsExactly(s[1..], needle);
      if a, b :| s[1..] == a + needle + b {
        assert s == [s[0]] + a + needle + b;
      }
      if a, b :| s == a + needle + b {
        if a != "" {
          assert s[1..] == a[1..] + needle + b;
        }
      }
    }
  }

  /** Comparison by code unit, as in `toSorted()` without a comparator. */
  predicate StrLe(a: string, b: string) {
    a == "" || (b != "" && (a[0] < b[0] || (a[0] == b[0] && StrLe(a[1..], b[1..]))))
  }

  lemma {:induction false} StrLeTotal(a: string, b: string)
    ensures StrLe(a, b) || StrLe(b, a)
    ensures StrLe(a, b) && StrLe(b, a) ==> a == b
  {
    if a != "" && b != "" && a[0] == b[0] {
      StrLeTotal(a[1..], b[1..]);
      assert a == [a[0]] + a[1..] && b == [b[0]] + b[1..];
    }
  }

  lemma {:induction false} StrLeTransitive(a: string, b: string, c: string)
    requires StrLe(a, b) && StrLe(b, c)
    ensures StrLe(a, c)
  {
    if a != "" && a[0] == b[0] && b[0] == c[0] {
      StrLeTransitive(a[1..], b[1..], c[1..]);
    }
  }

  /** The texts agree up to position `i`, where the first one ends or has a smaller unit. */
  predicate PrecedesAt(a: string, b: string, i: nat) {
    && i <= |a| && i < |b| && (forall j | 0 <= j < i :: a[j] == b[j])
    && (i == |a| || a[i] < b[i])
  }

  /** The comparison by code unit is the lexicographic order. */
  lemma {:induction false} StrLeExactly(a: string, b: string)
    ensures StrLe(a, b) <==> a == b || exists i: nat :: PrecedesAt(a, b, i)
  {
    if a == "" {
      assert b != "" ==> PrecedesAt(a, b, 0);
    } else if b != "" {
      if a[0] == b[0] {
        StrLeExactly(a[1..], b[1..]);
        PrecedesBehind(a, b);
        assert a == [a[0]] + a[1..] && b == [b[0]] + b[1..];
      } else {
        assert PrecedesAt(a, b, 0) <==> a[0] < b[0];
        forall i: nat | PrecedesAt(a, b, i)
          ensures i == 0
        {
        }
      }
    }
  }

  lemma PrecedesBehind(a: string, b: string)
    requires a != "" && b != "" && a[0] == b[0]
    ensures (exists i: nat :: PrecedesAt(a, b, i)) <==> exists i: nat :: PrecedesAt(a[1..], b[1..], i)
  {
    forall i: nat | PrecedesAt(a, b, i)
      ensures i > 0 && PrecedesAt(a[1..], b[1..], i - 1)
    {
    }
    forall i: nat | PrecedesAt(a[1..], b[1..], i)
      ensures PrecedesAt(a, b, i + 1)
    {
      forall j | 0 <= j < i + 1
        ensures a[j] == b[j]
      {
        assert j > 0 ==> a[1..][j - 1] == b[1..][j - 1];
      }
    }
  }
}
