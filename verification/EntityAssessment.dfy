/** The raw-text alias matcher, against the normalized whole-token matcher. */
module EntityAssessment {
  import opened Normalization
  import Texts

  const AND := "and"

  /** The ordinary-word aliases that take another path. */
  predicate Ambiguous(normalized: string) {
    normalized == "target"
  }

  // ----- The raw pattern as a match predicate -----

  /** One pattern token matches `s[i..j]`, ignoring case; `and` also matches `&`. */
  predicate TokenAt(token: string, s: string, i: nat, j: nat) {
    && i <= j <= |s|
    && (Casefold(s[i..j]) == Casefold(token) || (token == AND && s[i..j] == "&"))
  }

  /** The gap `[^0-9A-Za-z]*` matches `s[i..j]`. */
  predicate GapAt(s: string, i: nat, j: nat) {
    i <= j <= |s| && forall k :: i <= k < j ==> !IsAlnum(s[k])
  }

  /** The tokens, joined by gaps, match `s[i..j]`. */
  ghost predicate TokensAt(tokens: seq<string>, s: string, i: nat, j: nat)
    decreases |tokens|
  {
    if tokens == [] then i == j <= |s|
    else if |tokens| == 1 then TokenAt(tokens[0], s, i, j)
    else exists m: nat, g: nat ::
      TokenAt(tokens[0], s, i, m) && GapAt(s, m, g) && TokensAt(tokens[1..], s, g, j)
  }

  /** The whole pattern, with its word-boundary assertions, matches `s[i..j]`. */
  ghost predicate PatternAt(tokens: seq<string>, s: string, i: nat, j: nat) {
    && TokensAt(tokens, s, i, j) && i <= j <= |s|
    && (i == 0 || !IsWord(s[i - 1]))
    && (j == |s| || !IsWord(s[j]))
  }

  /** The non-ambiguous path of the raw matcher. */
  ghost predicate AliasMatch(alias: string, answer: string)
    requires !Ambiguous(NormalizeAlias(alias))
  {
    var normalized := NormalizeAlias(alias);
    normalized != "" && exists i: nat, j: nat :: PatternAt(Split(normalized), answer, i, j)
  }

  // ----- Where the normalized tokens of a text come from in the raw text -----

  datatype Span = Span(lo: nat, hi: nat, token: string)

  function Spans(s: string, i: nat): seq<Span>
    requires i <= |s|
    decreases |s| - i
  {
    if i == |s| then []
    else if IsWord(s[i]) then
      var n := WordRun(s[i..]);
      [Span(i, i + n, Casefold(s[i..i + n]))] + Spans(s, i + n)
    else if s[i] == '&' then [Span(i, i + 1, AND)] + Spans(s, i + 1)
    else Spans(s, i + 1)
  }

  function TokensOf(spans: seq<Span>): seq<string> {
    seq(|spans|, k requires 0 <= k < |spans| => spans[k].token)
  }

  lemma TokensAfterRun(run: string, rest: string)
    requires run != "" && AllWord(run) && (rest == "" || !IsWord(rest[0]))
    ensures Tokens(run + rest) == [Casefold(run)] + Tokens(rest)
  {
    var low, tail := Casefold(run), ReplaceAmpersands(Casefold(rest));
    assert Casefold(run + rest) == low + Casefold(rest);
    Texts.ReplaceAppend(low, Casefold(rest), '&', " and ");
    PlainUnchanged(low);
    assert tail == "" || !IsWord(tail[0]);
    WordsOfRun(low, tail);
  }

  lemma TokensAfterAmpersand(rest: string)
    ensures Tokens("&" + rest) == [AND] + Tokens(rest)
  {
    var tail := ReplaceAmpersands(Casefold(rest));
    assert Casefold("&" + rest) == "&" + Casefold(rest);
    assert ("&" + Casefold(rest))[1..] == Casefold(rest);
    var t := " and " + tail;
    assert ReplaceAmpersands("&" + Casefold(rest)) == t;
    assert t[1..] == AND + (" " + tail);
    WordsOfRun(AND, " " + tail);
    assert (" " + tail)[1..] == tail;
  }

  lemma TokensAfterOther(c: char, rest: string)
    requires !IsWord(c) && c != '&'
    ensures Tokens([c] + rest) == Tokens(rest)
  {
    var low := Casefold(rest);
    assert Casefold([c] + rest) == [c] + low;
    assert ([c] + low)[1..] == low;
    var t := ReplaceAmpersands([c] + low);
    assert t == [c] + ReplaceAmpersands(low);
    assert t[1..] == ReplaceAmpersands(low);
  }

  lemma SpansOfRun(s: string, i: nat)
    requires i < |s| && IsWord(s[i])
    ensures var n := WordRun(s[i..]);
            0 < n <= |s| - i && Spans(s, i) == [Span(i, i + n, Casefold(s[i..i + n]))] + Spans(s, i + n)
  {
  }

  lemma SpansOfOther(s: string, i: nat)
    requires i < |s| && !IsWord(s[i])
    ensures Spans(s, i) == (if s[i] == '&' then [Span(i, i + 1, AND)] else []) + Spans(s, i + 1)
  {
  }

  lemma SpansAtEnd(s: string)
    ensures Spans(s, |s|) == []
  {
  }

  lemma TokensOfCons(first: Span, others: seq<Span>)
    ensures TokensOf([first] + others) == [first.token] + TokensOf(others)
  {
  }

  /** Reading the spans' tokens gives the normalized tokens of the text. */
  lemma {:induction false} SpansAreTokens(s: string, i: nat)
    requires i <= |s|
    ensures TokensOf(Spans(s, i)) == Tokens(s[i..])
    decreases |s| - i
  {
    if i == |s| {
      SpansAtEnd(s);
      assert s[i..] == "";
    } else if IsWord(s[i]) {
      RunTokens(s, i);
      SpansAreTokens(s, i + WordRun(s[i..]));
    } else {
      OtherTokens(s, i);
      SpansAreTokens(s, i + 1);
    }
  }

  lemma RunTokens(s: string, i: nat)
    requires i < |s| && IsWord(s[i])
    ensures var n := WordRun(s[i..]);
            0 < n <= |s| - i
            && (TokensOf(Spans(s, i + n)) == Tokens(s[i + n..]) ==> TokensOf(Spans(s, i)) == Tokens(s[i..]))
  {
    hide Spans, Tokens, TokensOf, Casefold;
    SpansOfRun(s, i);
    var n := WordRun(s[i..]);
    TokensOfCons(Span(i, i + n, Casefold(s[i..i + n])), Spans(s, i + n));
    assert s[i..] == s[i..i + n] + s[i + n..];
    TokensAfterRun(s[i..i + n], s[i + n..]);
  }

  lemma OtherTokens(s: string, i: nat)
    requires i < |s| && !IsWord(s[i])
    ensures TokensOf(Spans(s, i + 1)) == Tokens(s[i + 1..]) ==> TokensOf(Spans(s, i)) == Tokens(s[i..])
  {
    hide Spans, Tokens, TokensOf;
    SpansOfOther(s, i);
    if s[i] == '&' {
      TokensOfCons(Span(i, i + 1, AND), Spans(s, i + 1));
      assert s[i..] == "&" + s[i + 1..];
      TokensAfterAmpersand(s[i + 1..]);
    } else {
      assert [] + Spans(s, i + 1) == Spans(s, i + 1);
      assert s[i..] == [s[i]] + s[i + 1..];
      TokensAfterOther(s[i], s[i + 1..]);
    }
  }

  /** A span lies in the text, its token matches there, and a token other than `and` is a whole word. */
  predicate SpanOk(s: string, span: Span) {
    && span.lo < span.hi <= |s|
    && TokenAt(span.token, s, span.lo, span.hi)
    && (span.token != AND ==>
         (span.lo == 0 || !IsWord(s[span.lo - 1])) && (span.hi == |s| || !IsWord(s[span.hi])))
  }

  ghost predicate SpansOk(s: string, from: nat, spans: seq<Span>) {
    && (forall k :: 0 <= k < |spans| ==> SpanOk(s, spans[k]))
    && (forall k :: 0 < k < |spans| ==> GapAt(s, spans[k - 1].hi, spans[k].lo))
    && (spans != [] ==> GapAt(s, from, spans[0].lo))
  }

  lemma SpansCons(s: string, first: Span, others: seq<Span>)
    requires SpanOk(s, first) && SpansOk(s, first.hi, others)
    ensures SpansOk(s, first.lo, [first] + others)
  {
  }

  lemma SpansSkip(s: string, i: nat, spans: seq<Span>)
    requires i < |s| && !IsAlnum(s[i]) && SpansOk(s, i + 1, spans)
    ensures SpansOk(s, i, spans)
  {
  }

  lemma RunSpanOk(s: string, i: nat)
    requires i < |s| && IsWord(s[i]) && (i == 0 || !IsWord(s[i - 1]))
    ensures var n := WordRun(s[i..]);
            n > 0 && SpanOk(s, Span(i, i + n, Casefold(s[i..i + n]))) && (i + n < |s| ==> !IsWord(s[i + n]))
  {
  }

  lemma {:induction false} SpansAreOk(s: string, i: nat)
    requires i <= |s|
    requires i == 0 || i == |s| || !IsWord(s[i - 1]) || !IsWord(s[i])
    ensures SpansOk(s, i, Spans(s, i))
    decreases |s| - i
  {
    hide SpanOk, SpansOk, TokenAt, Spans, Casefold;
    if i == |s| {
      SpansNone(s, i);
      SpansAtEnd(s);
    } else if IsWord(s[i]) {
      SpansOfRun(s, i);
      var n := WordRun(s[i..]);
      RunSpanOk(s, i);
      SpansAreOk(s, i + n);
      SpansCons(s, Span(i, i + n, Casefold(s[i..i + n])), Spans(s, i + n));
    } else {
      SpansOfOther(s, i);
      SpansAreOk(s, i + 1);
      if s[i] == '&' {
        AmpersandSpanOk(s, i);
        SpansCons(s, Span(i, i + 1, AND), Spans(s, i + 1));
      } else {
        assert [] + Spans(s, i + 1) == Spans(s, i + 1);
        SpansSkip(s, i, Spans(s, i + 1));
      }
    }
  }

  lemma SpansNone(s: string, i: nat)
    ensures SpansOk(s, i, [])
  {
  }

  lemma AmpersandSpanOk(s: string, i: nat)
    requires i < |s| && s[i] == '&'
    ensures SpanOk(s, Span(i, i + 1, AND))
  {
  }

  /** Consecutive spans match the pattern built from their tokens. */
  lemma {:induction false} SpansMatch(s: string, spans: seq<Span>, k: nat, n: nat)
    requires SpansOk(s, 0, spans) && 0 < n && k + n <= |spans|
    ensures TokensAt(TokensOf(spans)[k..k + n], s, spans[k].lo, spans[k + n - 1].hi)
    decreases n
  {
    hide TokenAt;
    var tokens := TokensOf(spans)[k..k + n];
    assert SpanOk(s, spans[k]);
    if n > 1 {
      SpansMatch(s, spans, k + 1, n - 1);
      assert tokens[1..] == TokensOf(spans)[k + 1..k + n];
      assert TokenAt(tokens[0], s, spans[k].lo, spans[k].hi) && GapAt(s, spans[k].hi, spans[k + 1].lo);
    }
  }

  /** An alias that neither starts nor ends with the word `and`. */
  predicate WordEnded(tokens: seq<string>) {
    tokens != [] ==> tokens[0] != AND && tokens[|tokens| - 1] != AND
  }

  /** Tokens that are consecutive in the normalized text match the raw text. */
  lemma SublistMatchesRaw(tokens: seq<string>, answer: string, k: nat)
    requires tokens != [] && WordEnded(tokens) && SublistAt(tokens, Tokens(answer), k)
    ensures exists i: nat, j: nat :: PatternAt(tokens, answer, i, j)
  {
    hide Tokens, TokenAt, TokensAt;
    var spans := Spans(answer, 0);
    SpansAreTokens(answer, 0);
    SpansAreOk(answer, 0);
    assert answer[0..] == answer;
    SpansMatch(answer, spans, k, |tokens|);
    SpansInOrder(answer, spans, k, |tokens|);
    var first, last := spans[k], spans[k + |tokens| - 1];
    assert first.token == tokens[0];
    assert last.token == tokens[|tokens| - 1];
    assert SpanOk(answer, first) && SpanOk(answer, last);
    assert PatternAt(tokens, answer, first.lo, last.hi);
  }

  /** Presence of a normalized alias, in terms of the tokens of the two texts. */
  lemma PresenceOfTokens(alias: string, answer: string)
    ensures Split(NormalizeAlias(alias)) == Tokens(alias)
    ensures NormalizeAlias(alias) == "" <==> Tokens(alias) == []
    ensures AliasPresent(NormalizeAlias(alias), NormalizeAlias(answer))
       <==> Tokens(alias) != [] && exists k :: SublistAt(Tokens(alias), Tokens(answer), k)
  {
    hide Tokens, NormalizeAlias, AliasPresent;
    SplitNormalized(alias);
    SplitNormalized(answer);
    NormalizeIsJoinedTokens(alias);
    NormalizeIsJoinedTokens(answer);
    AliasPresentIff(Tokens(alias), Tokens(answer));
    StripJoin(Tokens(alias));
  }

  /** Whenever the normalized matcher finds such an alias, the raw matcher finds it in the raw answer. */
  lemma RawMatcherComplete(alias: string, answer: string)
    requires !Ambiguous(NormalizeAlias(alias)) && WordEnded(Split(NormalizeAlias(alias)))
    requires AliasPresent(NormalizeAlias(alias), NormalizeAlias(answer))
    ensures AliasMatch(alias, answer)
  {
    hide Tokens, NormalizeAlias, AliasPresent, PatternAt;
    PresenceOfTokens(alias, answer);
    var k :| SublistAt(Tokens(alias), Tokens(answer), k);
    SublistMatchesRaw(Tokens(alias), answer, k);
  }

  lemma SpanStep(s: string, spans: seq<Span>, k: nat)
    requires SpansOk(s, 0, spans) && k < |spans|
    ensures spans[k].lo < spans[k].hi <= |s|
    ensures k + 1 < |spans| ==> spans[k].hi <= spans[k + 1].lo
  {
  }

  lemma {:induction false} SpansInOrder(s: string, spans: seq<Span>, k: nat, n: nat)
    requires SpansOk(s, 0, spans) && 0 < n && k + n <= |spans|
    ensures spans[k].lo <= spans[k + n - 1].hi <= |s|
    decreases n
  {
    hide SpansOk;
    SpanStep(s, spans, k);
    if n > 1 { SpansInOrder(s, spans, k + 1, n - 1); }
  }

  // ----- Where an alias that starts or ends with `and` is missed -----

  function WordCount(s: string): nat {
    if s == "" then 0 else (if IsWord(s[0]) then 1 else 0) + WordCount(s[1..])
  }

  function TotalLength(tokens: seq<string>): nat {
    if tokens == [] then 0 else |tokens[0]| + TotalLength(tokens[1..])
  }

  lemma {:induction false} WordCountAppend(a: string, b: string)
    ensures WordCount(a + b) == WordCount(a) + WordCount(b)
  {
    if a == "" {
      assert a + b == b;
    } else {
      WordCountAppend(a[1..], b);
      assert (a + b)[1..] == a[1..] + b;
    }
  }

  lemma {:induction false} WordCountAll(s: string)
    ensures WordCount(s) <= |s|
    ensures AllWord(s) ==> WordCount(s) == |s|
  {
    if s != "" { WordCountAll(s[1..]); }
  }

  lemma {:induction false} WordCountJoin(tokens: seq<string>)
    requires TokenList(tokens)
    ensures WordCount(Join(tokens)) == TotalLength(tokens)
  {
    if tokens != [] {
      WordCountAll(tokens[0]);
      if |tokens| > 1 {
        WordCountJoin(tokens[1..]);
        WordCountAppend(tokens[0] + " ", Join(tokens[1..]));
        WordCountAppend(tokens[0], " ");
      }
    }
  }

  lemma WordCountPart(s: string, lo: nat, i: nat, j: nat, hi: nat)
    requires lo <= i <= j <= hi <= |s|
    ensures WordCount(s[i..j]) <= WordCount(s[lo..hi])
  {
    assert s[lo..hi] == s[lo..i] + (s[i..j] + s[j..hi]);
    WordCountAppend(s[lo..i], s[i..j] + s[j..hi]);
    WordCountAppend(s[i..j], s[j..hi]);
  }

  lemma TokenUses(token: string, s: string, i: nat, j: nat)
    requires LowerWord(token) && TokenAt(token, s, i, j) && '&' !in s[i..j]
    ensures WordCount(s[i..j]) == |token|
  {
    var part := s[i..j];
    assert "&"[0] == '&';
    assert |part| == |Casefold(part)| == |token|;
    forall k | 0 <= k < |part| ensures IsWord(part[k]) {
      assert LowerChar(part[k]) == Casefold(part)[k] == Casefold(token)[k] == token[k];
    }
    WordCountAll(part);
  }

  /** A match that uses no ampersand spells out every token. */
  lemma {:induction false} TokensUse(tokens: seq<string>, s: string, i: nat, j: nat)
    requires NormalTokens(tokens) && TokensAt(tokens, s, i, j) && i <= j <= |s| && '&' !in s[i..j]
    ensures WordCount(s[i..j]) >= TotalLength(tokens)
    decreases |tokens|
  {
    if |tokens| == 1 {
      TokenUses(tokens[0], s, i, j);
    } else if |tokens| > 1 {
      var m: nat, g: nat :|
        TokenAt(tokens[0], s, i, m) && GapAt(s, m, g) && TokensAt(tokens[1..], s, g, j);
      TokensOrdered(tokens[1..], s, g, j);
      PartWithout(s, i, i, m, j);
      PartWithout(s, i, g, j, j);
      TokenUses(tokens[0], s, i, m);
      TokensUse(tokens[1..], s, g, j);
      WordCountSplit(s, i, m, g, j);
    }
  }

  lemma PartWithout(s: string, lo: nat, i: nat, j: nat, hi: nat)
    requires lo <= i <= j <= hi <= |s| && '&' !in s[lo..hi]
    ensures '&' !in s[i..j]
  {
  }

  lemma WordCountSplit(s: string, i: nat, m: nat, g: nat, j: nat)
    requires i <= m <= g <= j <= |s|
    ensures WordCount(s[i..j]) >= WordCount(s[i..m]) + WordCount(s[g..j])
  {
    assert s[i..j] == s[i..m] + (s[m..g] + s[g..j]);
    WordCountAppend(s[i..m], s[m..g] + s[g..j]);
    WordCountAppend(s[m..g], s[g..j]);
  }

  lemma {:induction false} TokensOrdered(tokens: seq<string>, s: string, i: nat, j: nat)
    requires TokensAt(tokens, s, i, j)
    ensures i <= j <= |s|
    decreases |tokens|
  {
    if |tokens| > 1 {
      var m: nat, g: nat :|
        TokenAt(tokens[0], s, i, m) && GapAt(s, m, g) && TokensAt(tokens[1..], s, g, j);
      TokensOrdered(tokens[1..], s, g, j);
    }
  }

  function Last(tokens: seq<string>): string
    requires tokens != []
  {
    tokens[|tokens| - 1]
  }

  /** The first token of a match starts it, the last token ends it. */
  lemma {:induction false} LastTokenEnds(tokens: seq<string>, s: string, i: nat, j: nat)
    requires tokens != [] && TokensAt(tokens, s, i, j)
    ensures exists m: nat :: TokenAt(Last(tokens), s, m, j)
    decreases |tokens|
  {
    if |tokens| > 1 {
      var m: nat, g: nat :|
        TokenAt(tokens[0], s, i, m) && GapAt(s, m, g) && TokensAt(tokens[1..], s, g, j);
      LastTokenEnds(tokens[1..], s, g, j);
      assert Last(tokens[1..]) == Last(tokens);
    } else {
      assert TokenAt(Last(tokens), s, i, j);
    }
  }

  lemma FirstTokenStarts(tokens: seq<string>, s: string, i: nat, j: nat)
    requires tokens != [] && TokensAt(tokens, s, i, j)
    ensures exists m: nat :: TokenAt(tokens[0], s, i, m)
  {
  }

  // The two texts that show the miss: the `and` at the alias's edge is written `&`, up against a word.

  /** For an alias starting with `and`. */
  function GluedFront(tokens: seq<string>): string
    requires tokens != []
  {
    "x&" + (if |tokens| == 1 then "" else " " + Join(tokens[1..]))
  }

  /** For an alias ending with `and` after other tokens. */
  function GluedBack(tokens: seq<string>): string
    requires |tokens| > 1
  {
    Join(tokens[..|tokens| - 1]) + "&x"
  }

  lemma GluedFrontTokens(tokens: seq<string>)
    requires NormalTokens(tokens) && tokens != [] && tokens[0] == AND
    ensures Tokens(GluedFront(tokens)) == ["x"] + tokens
  {
    var rest := if |tokens| == 1 then "" else " " + Join(tokens[1..]);
    assert "x&" + rest == "x" + ("&" + rest);
    TokensAfterRun("x", "&" + rest);
    assert Casefold("x") == "x";
    TokensAfterAmpersand(rest);
    if |tokens| == 1 {
      assert Tokens("") == [] by { TokensOfJoin([]); }
      assert tokens == [AND];
    } else {
      assert rest == [' '] + Join(tokens[1..]);
      TokensAfterOther(' ', Join(tokens[1..]));
      TokensOfJoin(tokens[1..]);
      assert tokens == [AND] + tokens[1..];
    }
  }

  /** A match of such an alias starts at a word boundary, with the letter or the ampersand. */
  lemma MatchStart(tokens: seq<string>, s: string, i: nat, j: nat)
    requires tokens != [] && tokens[0] == AND && PatternAt(tokens, s, i, j)
    ensures i < |s| && s[i] in "aA&" && (i == 0 || !IsWord(s[i - 1]))
    ensures i <= j <= |s| && TokensAt(tokens, s, i, j)
  {
    hide TokensAt, TokenAt;
    FirstTokenStarts(tokens, s, i, j);
    var m: nat :| TokenAt(AND, s, i, m);
    StartsLikeAnd(s, i, m);
  }

  lemma GluedFrontText(tokens: seq<string>)
    requires tokens != []
    ensures var s := GluedFront(tokens);
            |s| >= 2 && s[0] == 'x' && s[1] == '&'
            && s[2..|s|] == (if |tokens| == 1 then "" else " " + Join(tokens[1..]))
  {
  }

  lemma GluedFrontMissed(tokens: seq<string>, i: nat, j: nat)
    requires NormalTokens(tokens) && tokens != [] && tokens[0] == AND
    ensures !PatternAt(tokens, GluedFront(tokens), i, j)
  {
    hide TokensAt, TokenAt, TotalLength, WordCount, PatternAt, GluedFront, Join, NormalTokens;
    var s := GluedFront(tokens);
    if PatternAt(tokens, s, i, j) {
      MatchStart(tokens, s, i, j);
      GluedFrontText(tokens);
      GluedRest(tokens);
      if i >= 2 { NoMatchWithin(tokens, s, 2, i, j, |s|); }
      assert false;
    }
  }

  /** A stretch of text without ampersands and with too few word characters holds no match. */
  lemma NoMatchWithin(tokens: seq<string>, s: string, lo: nat, i: nat, j: nat, hi: nat)
    requires NormalTokens(tokens) && lo <= i <= j <= hi <= |s|
    requires '&' !in s[lo..hi] && WordCount(s[lo..hi]) < TotalLength(tokens)
    ensures !TokensAt(tokens, s, i, j)
  {
    if TokensAt(tokens, s, i, j) {
      PartWithout(s, lo, i, j, hi);
      TokensUse(tokens, s, i, j);
      WordCountPart(s, lo, i, j, hi);
    }
  }

  lemma StartsLikeAnd(s: string, i: nat, m: nat)
    requires TokenAt(AND, s, i, m)
    ensures i < |s| && s[i] in "aA&"
  {
  }

  lemma EndsLikeAnd(s: string, m: nat, j: nat)
    requires TokenAt(AND, s, m, j)
    ensures j > 0 && s[j - 1] in "dD&"
  {
  }

  /** The text after the glued ampersand has fewer word characters than the alias, and no ampersand. */
  lemma GluedRest(tokens: seq<string>)
    requires NormalTokens(tokens) && tokens != []
    ensures var rest := if |tokens| == 1 then "" else " " + Join(tokens[1..]);
            WordCount(rest) == TotalLength(tokens[1..]) && '&' !in rest
    ensures TotalLength(tokens) > TotalLength(tokens[1..])
  {
    if |tokens| > 1 {
      JoinIsPlain(tokens[1..]);
      WordCountJoin(tokens[1..]);
      WordCountAppend(" ", Join(tokens[1..]));
    } else {
      assert tokens[1..] == [];
    }
  }

  lemma GluedBackTokens(tokens: seq<string>)
    requires NormalTokens(tokens) && |tokens| > 1 && Last(tokens) == AND
    ensures Tokens(GluedBack(tokens)) == tokens + ["x"]
  {
    hide Tokens, Join;
    var front := tokens[..|tokens| - 1];
    TokensJoinThen(front, "&x");
    assert "&x" == "&" + "x";
    TokensAfterAmpersand("x");
    TokensOfX();
    assert tokens == front + [AND];
    assert front + [AND, "x"] == front + [AND] + ["x"];
  }

  lemma {:induction false} TokensJoinThen(tokens: seq<string>, rest: string)
    requires NormalTokens(tokens) && tokens != [] && rest != "" && !IsWord(rest[0])
    ensures Tokens(Join(tokens) + rest) == tokens + Tokens(rest)
  {
    hide Tokens, Join;
    var tail := if |tokens| == 1 then rest else " " + (Join(tokens[1..]) + rest);
    JoinThen(tokens, rest);
    LowerWordCasefold(tokens[0]);
    TokensAfterRun(tokens[0], tail);
    if |tokens| > 1 {
      assert tail == [' '] + (Join(tokens[1..]) + rest);
      TokensAfterOther(' ', Join(tokens[1..]) + rest);
      TokensJoinThen(tokens[1..], rest);
      assert [tokens[0]] + (tokens[1..] + Tokens(rest)) == tokens + Tokens(rest);
    } else {
      assert [tokens[0]] == tokens;
    }
  }

  lemma JoinThen(tokens: seq<string>, rest: string)
    requires tokens != []
    ensures Join(tokens) + rest
         == tokens[0] + if |tokens| == 1 then rest else " " + (Join(tokens[1..]) + rest)
  {
  }

  lemma TokensOfX()
    ensures Tokens("x") == ["x"]
  {
  }

  lemma LowerWordCasefold(token: string)
    requires LowerWord(token)
    ensures Casefold(token) == token && AllWord(token)
  {
  }

  lemma {:induction false} TotalLengthInit(tokens: seq<string>)
    requires NormalTokens(tokens) && tokens != []
    ensures TotalLength(tokens) == TotalLength(tokens[..|tokens| - 1]) + |Last(tokens)|
    ensures TotalLength(tokens) > 0
  {
    if |tokens| > 1 {
      TotalLengthInit(tokens[1..]);
      assert tokens[1..][..|tokens| - 2] == tokens[..|tokens| - 1][1..];
    }
  }

  lemma GluedBackMissed(tokens: seq<string>, i: nat, j: nat)
    requires NormalTokens(tokens) && |tokens| > 1 && Last(tokens) == AND
    ensures !PatternAt(tokens, GluedBack(tokens), i, j)
  {
    hide TokensAt, TokenAt, TotalLength, WordCount, Join;
    var s, front := GluedBack(tokens), tokens[..|tokens| - 1];
    var cut := |Join(front)|;
    assert s[cut] == '&' && s[cut + 1] == 'x' && |s| == cut + 2;
    if PatternAt(tokens, s, i, j) {
      LastTokenEnds(tokens, s, i, j);
      var m: nat :| TokenAt(AND, s, m, j);
      EndsLikeAnd(s, m, j);
      if j <= cut {
        JoinIsPlain(front);
        WordCountJoin(front);
        TotalLengthInit(tokens);
        assert s[0..cut] == Join(front);
        NoMatchWithin(tokens, s, 0, i, j, cut);
      }
      assert false;
    }
  }

  /** For an alias off the ambiguous path, the raw matcher finds everything the normalized matcher finds
      if and only if the alias neither starts nor ends with `and`. */
  lemma RawMatcherCompleteIff(alias: string)
    requires !Ambiguous(NormalizeAlias(alias))
    ensures (forall answer :: AliasPresent(NormalizeAlias(alias), NormalizeAlias(answer)) ==> AliasMatch(alias, answer))
       <==> WordEnded(Split(NormalizeAlias(alias)))
  {
    hide AliasPresent, NormalizeAlias, Tokens;
    var tokens := Tokens(alias);
    PresenceOfTokens(alias, "");
    if WordEnded(tokens) {
      forall answer | AliasPresent(NormalizeAlias(alias), NormalizeAlias(answer)) ensures AliasMatch(alias, answer) {
        RawMatcherComplete(alias, answer);
      }
    } else {
      var answer := MissedAnswer(alias);
    }
  }

  /** The text on which the two matchers disagree; it is ASCII. */
  lemma MissedAnswer(alias: string) returns (answer: string)
    requires !Ambiguous(NormalizeAlias(alias)) && !WordEnded(Split(NormalizeAlias(alias)))
    ensures AliasPresent(NormalizeAlias(alias), NormalizeAlias(answer)) && !AliasMatch(alias, answer)
    ensures forall i :: 0 <= i < |answer| ==> answer[i] as int < 128
  {
    hide AliasPresent, NormalizeAlias, Tokens, PatternAt;
    var tokens := Tokens(alias);
    SplitNormalized(alias);
    JoinAscii(tokens);
    if tokens[0] == AND {
      answer := GluedFront(tokens);
      PresenceOfTokens(alias, answer);
      GluedFrontTokens(tokens);
      assert SublistAt(tokens, Tokens(answer), 1);
      if |tokens| > 1 { JoinAscii(tokens[1..]); }
      forall i: nat, j: nat ensures !PatternAt(tokens, answer, i, j) { GluedFrontMissed(tokens, i, j); }
    } else {
      answer := GluedBack(tokens);
      PresenceOfTokens(alias, answer);
      GluedBackTokens(tokens);
      assert SublistAt(tokens, Tokens(answer), 0);
      JoinAscii(tokens[..|tokens| - 1]);
      forall i: nat, j: nat ensures !PatternAt(tokens, answer, i, j) { GluedBackMissed(tokens, i, j); }
    }
  }

  lemma {:induction false} JoinAscii(tokens: seq<string>)
    requires NormalTokens(tokens)
    ensures forall i :: 0 <= i < |Join(tokens)| ==> Join(tokens)[i] as int < 128
  {
    if |tokens| > 1 { JoinAscii(tokens[1..]); }
  }
}
