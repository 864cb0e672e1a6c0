/** Normalising a query: its lower-cased tokens, sorted, joined by single spaces. */
module QueryNormalizer {
  import Sequences
  import Strings

  /** std::isspace and std::tolower of the "C" locale. */
  predicate IsSpace(c: char) {
    c == ' ' || '\t' <= c <= '\r'
  }

  function ToLower(c: char): char {
    if 'A' <= c <= 'Z' then (c as int + 32) as char else c
  }

  /** The tokens still to come, when current has been read of the token being built. */
  ghost function TokensFrom(current: string, query: string): seq<string>
    decreases |query|
  {
    if query == [] then
      if current == [] then [] else [current]
    else if !IsSpace(query[0]) then
      TokensFrom(current + [ToLower(query[0])], query[1..])
    else if current != [] then
      [current] + TokensFrom([], query[1..])
    else
      TokensFrom([], query[1..])
  }

  ghost function Tokens(query: string): seq<string> {
    TokensFrom([], query)
  }

  method TokenizeQuery(query: string, before: seq<string>) returns (tokens: seq<string>)
    ensures tokens == before + Tokens(query)
  {
    tokens := before;
    var current := [];
    for i := 0 to |query|
      invariant before + Tokens(query) == tokens + TokensFrom(current, query[i..])
    {
      var ch := query[i];
      assert query[i..][1..] == query[i + 1..];
      if !IsSpace(ch) {
        current := current + [ToLower(ch)];
      } else if current != [] {
        tokens := tokens + [current];
        current := [];
      }
    }
    if current != [] {
      tokens := tokens + [current];
    }
  }

  const DELIMITER := ' '

  ghost function Join(tokens: seq<string>): string {
    if tokens == [] then []
    else if |tokens| == 1 then tokens[0]
    else Join(tokens[..|tokens| - 1]) + [DELIMITER] + tokens[|tokens| - 1]
  }

  method MergeTokens(tokens: seq<string>) returns (output: string)
    ensures output == Join(tokens)
  {
    output := "";
    var lastPos := |tokens| - 1;
    var i := 0;
    while i < lastPos
      invariant 0 <= i <= Sequences.Max(lastPos, 0)
      invariant i == 0 ==> output == ""
      invariant i > 0 ==> output == Join(tokens[..i]) + [DELIMITER]
    {
      assert tokens[..i + 1][..i] == tokens[..i];
      output := output + tokens[i];
      output := output + [DELIMITER];
      i := i + 1;
    }
    if lastPos >= 0 {
      assert tokens[..lastPos] == tokens[..|tokens| - 1];
      output := output + tokens[lastPos];
    }
  }

  // ----- sorting

  ghost predicate Sorted(s: seq<string>) {
    forall i, j :: 0 <= i < j < |s| ==> Strings.AtMost(s[i], s[j])
  }

  function Insert(x: string, s: seq<string>): seq<string> {
    if s == [] then [x]
    else if Strings.AtMost(x, s[0]) then [x] + s
    else [s[0]] + Insert(x, s[1..])
  }

  /** Any sorting of the tokens gives this one result. */
  function Sort(s: seq<string>): seq<string> {
    if s == [] then [] else Insert(s[0], Sort(s[1..]))
  }

  lemma {:induction false} InsertPermutes(x: string, s: seq<string>)
    ensures multiset(Insert(x, s)) == multiset(s) + multiset{x}
    ensures forall y :: y in Insert(x, s) ==> y == x || y in s
  {
    hide Strings.AtMost;
    if s != [] {
      InsertPermutes(x, s[1..]);
      assert s == [s[0]] + s[1..];
    }
  }

  lemma SortedCons(x: string, s: seq<string>)
    requires Sorted(s) && forall j :: 0 <= j < |s| ==> Strings.AtMost(x, s[j])
    ensures Sorted([x] + s)
  {
    hide Strings.AtMost;
  }

  lemma {:induction false} InsertSorts(x: string, s: seq<string>)
    requires Sorted(s)
    ensures Sorted(Insert(x, s)) && multiset(Insert(x, s)) == multiset(s) + multiset{x}
  {
    InsertPermutes(x, s);
    if s == [] {
    } else {
      hide Strings.Less;
      if Strings.AtMost(x, s[0]) {
        forall j | 0 <= j < |s|
          ensures Strings.AtMost(x, s[j])
        {
          if j > 0 {
            Strings.AtMostTransitive(x, s[0], s[j]);
          }
        }
        SortedCons(x, s);
      } else {
        var rest := Insert(x, s[1..]);
        InsertSorts(x, s[1..]);
        InsertPermutes(x, s[1..]);
        Strings.LessAsymmetric(s[0], x);
        forall j | 0 <= j < |rest|
          ensures Strings.AtMost(s[0], rest[j])
        {
          assert rest[j] in rest;
          if rest[j] != x {
            var k :| 0 <= k < |s[1..]| && s[1..][k] == rest[j];
            assert s[k + 1] == rest[j];
          }
        }
        SortedCons(s[0], rest);
      }
    }
  }

  lemma {:induction false} SortSorts(s: seq<string>)
    ensures Sorted(Sort(s)) && multiset(Sort(s)) == multiset(s)
  {
    if s != [] {
      assert s == [s[0]] + s[1..];
      SortSorts(s[1..]);
      InsertSorts(s[0], Sort(s[1..]));
    }
  }

  lemma SortedHeadIsLeast(s: seq<string>, t: seq<string>)
    requires Sorted(s) && multiset(s) == multiset(t) && s != []
    ensures t != [] && Strings.AtMost(s[0], t[0])
  {
    assert |t| == |multiset(t)| == |multiset(s)| > 0;
    assert t[0] in multiset(s);
    var j :| 0 <= j < |s| && s[j] == t[0];
    Strings.LessIrreflexive(s[0]);
  }

  lemma TailsAgree(s: seq<string>, t: seq<string>)
    requires s != [] && t != [] && s[0] == t[0] && multiset(s) == multiset(t)
    ensures multiset(s[1..]) == multiset(t[1..])
  {
    assert s == [s[0]] + s[1..] && t == [t[0]] + t[1..];
    assert multiset(s[1..]) == multiset(s) - multiset{s[0]};
    assert multiset(t[1..]) == multiset(t) - multiset{t[0]};
  }

  /** A multiset of strings has only one sorted sequence. */
  lemma {:induction false} SortedIsUnique(s: seq<string>, t: seq<string>)
    requires Sorted(s) && Sorted(t) && multiset(s) == multiset(t)
    ensures s == t
  {
    if s == [] {
      assert |t| == |multiset(t)| == |multiset(s)| == 0;
    } else {
      hide Strings.AtMost, Strings.Less;
      SortedHeadIsLeast(s, t);
      SortedHeadIsLeast(t, s);
      Strings.AtMostAntisymmetric(s[0], t[0]);
      TailsAgree(s, t);
      SortedIsUnique(s[1..], t[1..]);
      assert s == [s[0]] + s[1..] && t == [t[0]] + t[1..];
    }
  }

  /** std::sort, of which only this is known. */
  method SortTokens(tokens: seq<string>) returns (r: seq<string>)
    ensures Sorted(r) && multiset(r) == multiset(tokens)
  {
    SortSorts(tokens);
    r := Sort(tokens);
  }

  ghost function Normalized(query: string): string {
    Join(Sort(Tokens(query)))
  }

  method Normalize(fromStr: string) returns (toStr: string)
    ensures toStr == Normalized(fromStr)
  {
    var tokens := TokenizeQuery(fromStr, []);
    var sorted := SortTokens(tokens);
    SortSorts(tokens);
    SortedIsUnique(sorted, Sort(tokens));
    assert [] + Tokens(fromStr) == Tokens(fromStr);
    toStr := MergeTokens(sorted);
  }

  // ----- the tokenizer undoes the printer

  /** What a token looks like: not empty, no white space, no upper-case letter. */
  ghost predicate IsToken(t: string) {
    t != [] && forall i :: 0 <= i < |t| ==> !IsSpace(t[i]) && ToLower(t[i]) == t[i]
  }

  ghost predicate AllTokens(tokens: seq<string>) {
    forall k :: 0 <= k < |tokens| ==> IsToken(tokens[k])
  }

  /** A character as it stands in a token: no capital letter, and none of blank, tab, line feed, vertical tab, form
      feed and carriage return. */
  ghost predicate Plain(c: char) {
    !('A' <= c <= 'Z') && c as int !in {9, 10, 11, 12, 13, 32}
  }

  /** Tokens are exactly the nonempty strings of plain characters. */
  lemma TokensArePlain(t: string)
    ensures IsToken(t) <==> t != [] && forall i :: 0 <= i < |t| ==> Plain(t[i])
  {
    forall c: char
      ensures !IsSpace(c) && ToLower(c) == c <==> Plain(c)
    {
    }
  }

  /** The two strings differ at most in whether a letter is a capital. */
  ghost predicate SameButCase(a: string, b: string) {
    |a| == |b| && forall i :: 0 <= i < |a| ==>
      || a[i] == b[i]
      || ('A' <= a[i] <= 'Z' && b[i] as int == a[i] as int + 32)
      || ('A' <= b[i] <= 'Z' && a[i] as int == b[i] as int + 32)
  }

  lemma {:induction false} CaseMakesNoToken(current: string, a: string, b: string)
    requires SameButCase(a, b)
    ensures TokensFrom(current, a) == TokensFrom(current, b)
    decreases |a|
  {
    if a != [] {
      assert IsSpace(a[0]) <==> IsSpace(b[0]);
      assert ToLower(a[0]) == ToLower(b[0]);
      assert SameButCase(a[1..], b[1..]);
      hide SameButCase, IsSpace, ToLower;
      CaseMakesNoToken(current + [ToLower(a[0])], a[1..], b[1..]);
      CaseMakesNoToken([], a[1..], b[1..]);
    }
  }

  /** Queries that differ only in case normalise alike. */
  lemma NormalizeIgnoresCase(a: string, b: string)
    requires SameButCase(a, b)
    ensures Normalized(a) == Normalized(b)
  {
    CaseMakesNoToken([], a, b);
  }

  lemma LowerIsStable(c: char)
    requires !IsSpace(c)
    ensures !IsSpace(ToLower(c)) && ToLower(ToLower(c)) == ToLower(c)
  {
  }

  lemma {:induction false} TokensAreTokens(current: string, query: string)
    requires current == [] || IsToken(current)
    ensures AllTokens(TokensFrom(current, query))
    decreases |query|
  {
    if query != [] {
      if !IsSpace(query[0]) {
        LowerIsStable(query[0]);
        TokensAreTokens(current + [ToLower(query[0])], query[1..]);
      } else {
        TokensAreTokens([], query[1..]);
      }
    }
  }

  lemma {:induction false} TokensOfToken(current: string, t: string)
    requires (current != [] || t != []) && forall i :: 0 <= i < |t| ==> !IsSpace(t[i]) && ToLower(t[i]) == t[i]
    ensures TokensFrom(current, t) == [current + t]
    decreases |t|
  {
    if t == [] {
      assert current + t == current;
    } else {
      TokensOfToken(current + [t[0]], t[1..]);
      assert current + [t[0]] + t[1..] == current + t;
    }
  }

  /** A delimiter cuts the query into two parts that are tokenised separately. */
  lemma {:induction false} TokensAtDelimiter(current: string, a: string, b: string)
    ensures TokensFrom(current, a + [DELIMITER] + b) == TokensFrom(current, a) + TokensFrom([], b)
    decreases |a|
  {
    var query := a + [DELIMITER] + b;
    if a == [] {
      assert query[1..] == b;
    } else {
      assert query[1..] == a[1..] + [DELIMITER] + b;
      if !IsSpace(a[0]) {
        TokensAtDelimiter(current + [ToLower(a[0])], a[1..], b);
      } else {
        TokensAtDelimiter([], a[1..], b);
        if current != [] {
          assert [current] + (TokensFrom([], a[1..]) + TokensFrom([], b)) == [current] + TokensFrom([], a[1..]) + TokensFrom([], b);
        }
      }
    }
  }

  /** Tokenising what was joined gives back the tokens. */
  lemma {:induction false} TokenizeUndoesMerge(tokens: seq<string>)
    requires AllTokens(tokens)
    ensures Tokens(Join(tokens)) == tokens
  {
    if |tokens| == 1 {
      TokensOfToken([], tokens[0]);
      assert [] + tokens[0] == tokens[0];
    } else if tokens != [] {
      var front, last := tokens[..|tokens| - 1], tokens[|tokens| - 1];
      TokenizeUndoesMerge(front);
      TokensAtDelimiter([], Join(front), last);
      TokensOfToken([], last);
      assert [] + last == last;
      assert tokens == front + [last];
    }
  }

  /** A joined query has one blank between two tokens, none at its ends and no other white space. */
  ghost predicate SingleBlanks(s: string) {
    forall i :: 0 <= i < |s| && IsSpace(s[i]) ==>
      s[i] == ' ' && 0 < i < |s| - 1 && !IsSpace(s[i - 1]) && !IsSpace(s[i + 1])
  }

  lemma BlankBetween(a: string, t: string)
    requires SingleBlanks(a) && a != [] && IsToken(t)
    ensures SingleBlanks(a + [DELIMITER] + t)
  {
    hide IsSpace, ToLower;
    var s := a + [DELIMITER] + t;
    assert !IsSpace(a[|a| - 1]) && !IsSpace(t[0]);
    forall i | 0 <= i < |s|
      ensures IsSpace(s[i]) ==> s[i] == ' ' && 0 < i < |s| - 1 && !IsSpace(s[i - 1]) && !IsSpace(s[i + 1])
    {
      if i < |a| {
        assert s[i] == a[i] && s[i + 1] == if i + 1 < |a| then a[i + 1] else DELIMITER;
      } else if i > |a| {
        assert s[i] == t[i - |a| - 1];
      }
    }
  }

  lemma {:induction false} JoinedBySingleBlanks(tokens: seq<string>)
    requires AllTokens(tokens)
    ensures SingleBlanks(Join(tokens)) && (tokens != [] ==> Join(tokens) != [])
  {
    if |tokens| > 1 {
      var front, last := tokens[..|tokens| - 1], tokens[|tokens| - 1];
      JoinedBySingleBlanks(front);
      BlankBetween(Join(front), last);
    }
  }

  /** Sorting keeps tokens tokens. */
  lemma SortedTokensAreTokens(query: string)
    ensures AllTokens(Sort(Tokens(query)))
  {
    TokensAreTokens([], query);
    SortSorts(Tokens(query));
    var sorted := Sort(Tokens(query));
    forall k | 0 <= k < |sorted|
      ensures IsToken(sorted[k])
    {
      assert sorted[k] in multiset(sorted);
      var j :| 0 <= j < |Tokens(query)| && Tokens(query)[j] == sorted[k];
    }
  }

  /** Normalising twice is normalising once. */
  lemma NormalizeIsIdempotent(query: string)
    ensures Normalized(Normalized(query)) == Normalized(query)
  {
    var sorted := Sort(Tokens(query));
    SortedTokensAreTokens(query);
    TokenizeUndoesMerge(sorted);
    SortSorts(Tokens(query));
    SortSorts(sorted);
    SortedIsUnique(sorted, Sort(sorted));
  }

  /** Two queries normalise alike exactly when they have the same lower-cased tokens, as often. */
  lemma NormalizeIsCanonical(q1: string, q2: string)
    ensures Normalized(q1) == Normalized(q2) <==> multiset(Tokens(q1)) == multiset(Tokens(q2))
  {
    SortSorts(Tokens(q1));
    SortSorts(Tokens(q2));
    if multiset(Tokens(q1)) == multiset(Tokens(q2)) {
      SortedIsUnique(Sort(Tokens(q1)), Sort(Tokens(q2)));
    }
    if Normalized(q1) == Normalized(q2) {
      SortedTokensAreTokens(q1);
      SortedTokensAreTokens(q2);
      TokenizeUndoesMerge(Sort(Tokens(q1)));
      TokenizeUndoesMerge(Sort(Tokens(q2)));
    }
  }

  // ----- what the tokens are

  /** The query's visible characters, lower-cased, in order. */
  ghost function Visible(query: string): string {
    if query == [] then []
    else (if IsSpace(query[0]) then [] else [ToLower(query[0])]) + Visible(query[1..])
  }

  ghost function Flat(tokens: seq<string>): string {
    if tokens == [] then [] else tokens[0] + Flat(tokens[1..])
  }

  /** The tokens spell the query: nothing visible is lost, added or reordered. */
  lemma {:induction false} TokensSpellQuery(current: string, query: string)
    ensures Flat(TokensFrom(current, query)) == current + Visible(query)
    decreases |query|
  {
    if query == [] {
      assert current + Visible(query) == current;
      if current != [] {
        assert [current][1..] == [];
        assert current + Flat([]) == current;
      }
    } else if !IsSpace(query[0]) {
      TokensSpellQuery(current + [ToLower(query[0])], query[1..]);
      assert current + [ToLower(query[0])] + Visible(query[1..]) == current + ([ToLower(query[0])] + Visible(query[1..]));
    } else {
      TokensSpellQuery([], query[1..]);
      assert [] + Visible(query[1..]) == Visible(query[1..]);
      if current != [] {
        assert ([current] + TokensFrom([], query[1..]))[1..] == TokensFrom([], query[1..]);
      }
    }
  }
}
