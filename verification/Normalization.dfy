/** Alias normalization and whole-token search over ASCII text. */
module Normalization {
  import opened Options
  import Texts

  // ----- Character classes -----

  predicate IsAlnum(c: char) {
    'a' <= c <= 'z' || 'A' <= c <= 'Z' || '0' <= c <= '9'
  }

  /** Regex `\w`. */
  predicate IsWord(c: char) {
    IsAlnum(c) || c == '_'
  }

  /** Regex `\s`; the separators 0x1c to 0x1f count as white space. */
  predicate IsSpace(c: char) {
    c == ' ' || 9 <= c as int <= 13 || 28 <= c as int <= 31
  }

  function LowerChar(c: char): char {
    if 'A' <= c <= 'Z' then (c as int + 32) as char else c
  }

  ghost predicate AllWord(s: string) {
    forall i :: 0 <= i < |s| ==> IsWord(s[i])
  }

  // ----- The normalization pipeline, pass by pass -----

  function Casefold(s: string): (r: string)
    ensures |r| == |s|
    ensures forall i :: 0 <= i < |s| ==> r[i] == LowerChar(s[i])
  {
    seq(|s|, i requires 0 <= i < |s| => LowerChar(s[i]))
  }

  function ReplaceAmpersands(s: string): string { Texts.Replace(s, '&', " and ") }

  function BlankPunctuation(s: string): (r: string)
    ensures |r| == |s|
    ensures forall i :: 0 <= i < |s| ==> r[i] == if IsWord(s[i]) || IsSpace(s[i]) then s[i] else ' '
  {
    seq(|s|, i requires 0 <= i < |s| => if IsWord(s[i]) || IsSpace(s[i]) then s[i] else ' ')
  }

  /** Length of the leading run of white space. */
  function SpaceRun(s: string): (n: nat)
    ensures n <= |s| && (n < |s| ==> !IsSpace(s[n]))
    ensures forall i :: 0 <= i < n ==> IsSpace(s[i])
  {
    if s == "" || !IsSpace(s[0]) then 0 else 1 + SpaceRun(s[1..])
  }

  function CollapseSpaces(s: string): string
    decreases |s|
  {
    if s == "" then ""
    else if IsSpace(s[0]) then " " + CollapseSpaces(s[SpaceRun(s)..])
    else [s[0]] + CollapseSpaces(s[1..])
  }

  function StripLeft(s: string): string {
    if s == "" || !IsSpace(s[0]) then s else StripLeft(s[1..])
  }

  function StripRight(s: string): string {
    if s == "" || !IsSpace(s[|s| - 1]) then s else StripRight(s[..|s| - 1])
  }

  function Strip(s: string): string {
    StripRight(StripLeft(s))
  }

  lemma {:induction false} StripRightKeepsFront(s: string)
    ensures StripRight(s) == "" <==> forall k :: 0 <= k < |s| ==> IsSpace(s[k])
    decreases |s|
  {
    if s != "" && IsSpace(s[|s| - 1]) {
      StripRightKeepsFront(s[..|s| - 1]);
      assert forall k :: 0 <= k < |s| - 1 ==> s[..|s| - 1][k] == s[k];
    }
  }

  lemma {:induction false} StripLeftEmpties(s: string)
    ensures StripLeft(s) == "" <==> forall k :: 0 <= k < |s| ==> IsSpace(s[k])
    ensures StripLeft(s) != "" ==> !IsSpace(StripLeft(s)[0])
  {
    if s != "" && IsSpace(s[0]) {
      StripLeftEmpties(s[1..]);
      assert forall k :: 1 <= k < |s| ==> s[1..][k - 1] == s[k];
    }
  }

  /** Stripping leaves nothing exactly of a text that is all white space. */
  lemma StripEmptiesIff(s: string)
    ensures Strip(s) == "" <==> forall k :: 0 <= k < |s| ==> IsSpace(s[k])
  {
    StripLeftEmpties(s);
    StripRightKeepsFront(StripLeft(s));
    StripRightKeepsFront(s);
    StripLeftEmpties(StripRight(s));
  }

  function NormalizeAlias(s: string): string {
    Strip(CollapseSpaces(BlankPunctuation(ReplaceAmpersands(Casefold(s)))))
  }

  // ----- Tokens -----

  /** Length of the leading run of word characters. */
  function WordRun(s: string): (n: nat)
    ensures n <= |s| && (n < |s| ==> !IsWord(s[n]))
    ensures forall i :: 0 <= i < n ==> IsWord(s[i])
  {
    if s == "" || !IsWord(s[0]) then 0 else 1 + WordRun(s[1..])
  }

  /** The maximal runs of word characters. */
  function Words(s: string): seq<string>
    decreases |s|
  {
    if s == "" then []
    else if IsWord(s[0]) then [s[..WordRun(s)]] + Words(s[WordRun(s)..])
    else Words(s[1..])
  }

  function Tokens(s: string): seq<string> {
    Words(ReplaceAmpersands(Casefold(s)))
  }

  function Join(tokens: seq<string>): string {
    if tokens == [] then "" else if |tokens| == 1 then tokens[0] else tokens[0] + " " + Join(tokens[1..])
  }

  ghost predicate TokenList(tokens: seq<string>) {
    forall i :: 0 <= i < |tokens| ==> tokens[i] != "" && AllWord(tokens[i])
  }

  /** A maximal run in front contributes one word. */
  lemma WordsOfRun(run: string, rest: string)
    requires run != "" && AllWord(run)
    requires rest == "" || !IsWord(rest[0])
    ensures Words(run + rest) == [run] + Words(rest)
  {
    var s := run + rest;
    var n := WordRun(s);
    assert forall i :: 0 <= i < |run| ==> s[i] == run[i];
    assert rest != "" ==> s[|run|] == rest[0];
    assert n == |run|;
    assert s[..n] == run && s[n..] == rest;
  }

  /** Splitting a joined token list gives the tokens back. */
  lemma {:induction false} WordsOfJoin(tokens: seq<string>)
    requires TokenList(tokens)
    ensures Words(Join(tokens)) == tokens
  {
    if tokens != [] {
      var rest := if |tokens| == 1 then "" else " " + Join(tokens[1..]);
      assert Join(tokens) == tokens[0] + rest;
      WordsOfRun(tokens[0], rest);
      if |tokens| > 1 {
        WordsOfJoin(tokens[1..]);
        assert rest[1..] == Join(tokens[1..]);
      }
    }
  }

  // ----- The pipeline is: tokenize, then join with single spaces -----

  /** Blanking punctuation moves no word boundary. */
  lemma {:induction false} BlankingKeepsWords(s: string)
    ensures Words(BlankPunctuation(s)) == Words(s)
    decreases |s|
  {
    if s != "" {
      var n := WordRun(s);
      if n > 0 {
        BlankingKeepsWords(s[n..]);
        BlankingAfterRun(s, n);
      } else {
        BlankingKeepsWords(s[1..]);
        assert BlankPunctuation(s)[1..] == BlankPunctuation(s[1..]);
      }
    }
  }

  lemma BlankingAfterRun(s: string, n: nat)
    requires 0 < n == WordRun(s)
    requires Words(BlankPunctuation(s[n..])) == Words(s[n..])
    ensures Words(BlankPunctuation(s)) == Words(s)
  {
    hide Words, WordRun;
    var b := BlankPunctuation(s);
    assert b[..n] == s[..n] && b[n..] == BlankPunctuation(s[n..]);
    assert b == b[..n] + b[n..] && s == s[..n] + s[n..];
    WordsOfRun(b[..n], b[n..]);
    WordsOfRun(s[..n], s[n..]);
  }

  ghost predicate WordsAndSpaces(s: string) {
    forall i :: 0 <= i < |s| ==> IsWord(s[i]) || IsSpace(s[i])
  }

  lemma {:induction false} CollapseRun(run: string, rest: string)
    requires AllWord(run)
    ensures CollapseSpaces(run + rest) == run + CollapseSpaces(rest)
    decreases |run|
  {
    if run == "" {
      assert run + rest == rest;
    } else {
      CollapseRun(run[1..], rest);
      assert (run + rest)[1..] == run[1..] + rest;
      assert run == [run[0]] + run[1..];
    }
  }

  lemma {:induction false} SpacesHaveNoWords(n: nat, s: string)
    requires n <= |s| && forall i :: 0 <= i < n ==> IsSpace(s[i])
    ensures Words(s) == Words(s[n..])
    decreases n
  {
    if n == 0 {
      assert s[0..] == s;
    } else {
      SpacesHaveNoWords(n - 1, s[1..]);
      assert s[1..][n - 1..] == s[n..];
    }
  }

  /** Trailing white space is found behind any text that does not end the string in white space. */
  lemma {:induction false} StripRightBehind(front: string, back: string)
    requires back != "" && !IsSpace(back[0])
    ensures StripRight(front + back) == front + StripRight(back)
    decreases |back|
  {
    var s := front + back;
    if IsSpace(back[|back| - 1]) {
      assert s[|s| - 1] == back[|back| - 1];
      assert s[..|s| - 1] == front + back[..|back| - 1];
      StripRightBehind(front, back[..|back| - 1]);
    } else {
      assert s[|s| - 1] == back[|back| - 1];
    }
  }

  lemma StripRightOneSpace(s: string)
    requires s != "" && !IsSpace(s[|s| - 1])
    ensures StripRight(s) == s && StripRight(s + " ") == s
  {
  }

  lemma JoinCons(first: string, others: seq<string>)
    ensures Join([first] + others) == if others == [] then first else first + " " + Join(others)
  {
  }

  lemma CollapseStart(s: string)
    requires s != "" && IsWord(s[0])
    ensures CollapseSpaces(s) != "" && CollapseSpaces(s)[0] == s[0]
  {
  }

  /** Text that starts with a word collapses to its words joined by single spaces, bar a trailing space. */
  lemma {:induction false} CollapseIsJoin(s: string)
    requires WordsAndSpaces(s) && (s == "" || IsWord(s[0]))
    ensures StripRight(CollapseSpaces(s)) == Join(Words(s))
    ensures s != "" ==> Words(s) != []
    decreases |s|
  {
    if s != "" {
      var n := WordRun(s);
      var run, rest := s[..n], s[n..];
      assert s == run + rest;
      CollapseRun(run, rest);
      StripRightOneSpace(run);
      if rest == "" {
        assert run + "" == run;
      } else {
        CollapseAfterWord(run, rest);
      }
    }
  }

  lemma CollapseAfterWord(run: string, rest: string)
    requires run != "" && AllWord(run) && WordsAndSpaces(rest)
    requires rest != "" && IsSpace(rest[0])
    ensures StripRight(run + CollapseSpaces(rest)) == Join([run] + Words(rest))
    decreases |rest|
  {
    var tail := rest[SpaceRun(rest)..];
    CollapseLeadingSpaces(rest);
    SpacesHaveNoWords(SpaceRun(rest), rest);
    CollapseIsJoin(tail);
    if tail != "" { CollapseStart(tail); }
    CollapsedTail(run, tail, CollapseSpaces(tail));
  }

  lemma CollapseLeadingSpaces(s: string)
    requires s != "" && IsSpace(s[0])
    ensures SpaceRun(s) > 0
    ensures CollapseSpaces(s) == " " + CollapseSpaces(s[SpaceRun(s)..])
  {
  }

  lemma CollapsedTail(run: string, tail: string, collapsed: string)
    requires run != "" && AllWord(run)
    requires StripRight(collapsed) == Join(Words(tail))
    requires if tail == "" then collapsed == "" else Words(tail) != [] && collapsed != "" && !IsSpace(collapsed[0])
    ensures StripRight(run + (" " + collapsed)) == Join([run] + Words(tail))
  {
    hide Words, Join;
    JoinCons(run, Words(tail));
    var front := run + " ";
    assert run + (" " + collapsed) == front + collapsed;
    if tail == "" {
      assert Words(tail) == [] by { WordsOfEmpty(); }
      StripRightOneSpace(run);
      assert front + collapsed == front;
    } else {
      StripRightBehind(front, collapsed);
    }
  }

  lemma WordsOfEmpty()
    ensures Words("") == []
  {
  }

  lemma StripOfCollapse(s: string)
    requires WordsAndSpaces(s)
    ensures Strip(CollapseSpaces(s)) == Join(Words(s))
  {
    if s == "" {
    } else if IsWord(s[0]) {
      CollapseStart(s);
      CollapseIsJoin(s);
    } else {
      var tail := s[SpaceRun(s)..];
      SpacesHaveNoWords(SpaceRun(s), s);
      CollapseIsJoin(tail);
      if tail != "" { CollapseStart(tail); }
      assert CollapseSpaces(s)[1..] == CollapseSpaces(tail);
      assert StripLeft(CollapseSpaces(s)) == StripLeft(CollapseSpaces(tail)) == CollapseSpaces(tail);
    }
  }

  /** The five passes together: the lower-cased words, `&` counting as the word `and`, single-spaced. */
  lemma NormalizeIsJoinedTokens(s: string)
    ensures NormalizeAlias(s) == Join(Tokens(s))
  {
    var t := ReplaceAmpersands(Casefold(s));
    var b := BlankPunctuation(t);
    BlankingKeepsWords(t);
    StripOfCollapse(b);
  }

  // ----- Normal form -----

  predicate LowerWord(s: string) {
    s != "" && forall i :: 0 <= i < |s| ==> IsWord(s[i]) && LowerChar(s[i]) == s[i]
  }

  predicate NormalTokens(tokens: seq<string>) {
    forall i :: 0 <= i < |tokens| ==> LowerWord(tokens[i])
  }

  ghost predicate Plain(s: string) {
    forall i :: 0 <= i < |s| ==> s[i] != '&' && LowerChar(s[i]) == s[i]
  }

  lemma {:induction false} PlainUnchanged(s: string)
    requires Plain(s)
    ensures ReplaceAmpersands(s) == s
    ensures Casefold(s) == s
  {
    if s != "" {
      PlainUnchanged(s[1..]);
      assert s == [s[0]] + s[1..];
    }
  }

  lemma {:induction false} JoinIsPlain(tokens: seq<string>)
    requires NormalTokens(tokens)
    ensures Plain(Join(tokens)) && TokenList(tokens)
  {
    if |tokens| > 1 { JoinIsPlain(tokens[1..]); }
  }

  ghost predicate Lowered(s: string) {
    forall i :: 0 <= i < |s| ==> LowerChar(s[i]) == s[i]
  }

  lemma {:induction false} ReplaceKeepsLower(s: string)
    requires Lowered(s)
    ensures Lowered(ReplaceAmpersands(s))
  {
    if s != "" { ReplaceKeepsLower(s[1..]); }
  }

  lemma {:induction false} WordsOfLowered(s: string)
    requires Lowered(s)
    ensures NormalTokens(Words(s))
    decreases |s|
  {
    if s != "" {
      if IsWord(s[0]) {
        WordsOfLowered(s[WordRun(s)..]);
      } else {
        WordsOfLowered(s[1..]);
      }
    }
  }

  lemma TokensAreNormal(s: string)
    ensures NormalTokens(Tokens(s))
  {
    ReplaceKeepsLower(Casefold(s));
    WordsOfLowered(ReplaceAmpersands(Casefold(s)));
  }

  lemma TokensOfJoin(tokens: seq<string>)
    requires NormalTokens(tokens)
    ensures Tokens(Join(tokens)) == tokens
  {
    JoinIsPlain(tokens);
    PlainUnchanged(Join(tokens));
    WordsOfJoin(tokens);
  }

  /** Normalizing twice is normalizing once. */
  lemma NormalizeIdempotent(s: string)
    ensures NormalizeAlias(NormalizeAlias(s)) == NormalizeAlias(s)
  {
    NormalizeIsJoinedTokens(s);
    TokensAreNormal(s);
    TokensOfJoin(Tokens(s));
    NormalizeIsJoinedTokens(Join(Tokens(s)));
  }

  // ----- Whole-token search on normalized strings -----

  /** The regex `(?<!\w)` alias `(?!\w)` matches at offset `i`. */
  predicate AliasAt(alias: string, haystack: string, i: nat) {
    && i + |alias| <= |haystack|
    && haystack[i..i + |alias|] == alias
    && (i == 0 || !IsWord(haystack[i - 1]))
    && (i + |alias| == |haystack| || !IsWord(haystack[i + |alias|]))
  }

  /** The leftmost match at or after `from`. */
  function SearchFrom(alias: string, haystack: string, from: nat): (r: Option<nat>)
    requires from <= |haystack|
    ensures r.Some? ==> from <= r.value && AliasAt(alias, haystack, r.value)
    ensures r.Some? ==> forall i :: from <= i < r.value ==> !AliasAt(alias, haystack, i)
    ensures r.None? ==> forall i :: from <= i <= |haystack| ==> !AliasAt(alias, haystack, i)
    decreases |haystack| - from
  {
    if AliasAt(alias, haystack, from) then Some(from)
    else if from == |haystack| then None
    else SearchFrom(alias, haystack, from + 1)
  }

  function FirstAliasOffset(alias: string, haystack: string): Option<nat> {
    var a := Strip(alias);
    if a == "" then None else SearchFrom(a, haystack, 0)
  }

  predicate AliasPresent(alias: string, haystack: string) {
    var a := Strip(alias);
    a != "" && SearchFrom(a, haystack, 0).Some?
  }

  /** `sub` occurs in `all` as consecutive tokens, starting at token `k`. */
  ghost predicate SublistAt(sub: seq<string>, all: seq<string>, k: nat) {
    k + |sub| <= |all| && all[k..k + |sub|] == sub
  }

  /** Character offset of token `k` in the joined string. */
  function OffsetOf(tokens: seq<string>, k: nat): nat
    requires k <= |tokens|
  {
    if k == 0 then 0 else |tokens[0]| + 1 + OffsetOf(tokens[1..], k - 1)
  }

  lemma StripJoin(tokens: seq<string>)
    requires TokenList(tokens)
    ensures Strip(Join(tokens)) == Join(tokens)
    ensures Join(tokens) == "" <==> tokens == []
  {
    if tokens != [] { JoinEnds(tokens); }
  }

  lemma {:induction false} JoinEnds(tokens: seq<string>)
    requires TokenList(tokens) && tokens != []
    ensures Join(tokens) != "" && IsWord(Join(tokens)[0]) && IsWord(Join(tokens)[|Join(tokens)| - 1])
  {
    if |tokens| > 1 { JoinEnds(tokens[1..]); }
  }

  /** A token prefix is a string prefix that ends at a word boundary. */
  lemma {:induction false} PrefixMatches(sub: seq<string>, all: seq<string>)
    requires TokenList(all) && sub != [] && SublistAt(sub, all, 0)
    ensures AliasAt(Join(sub), Join(all), 0)
  {
    assert sub[0] == all[0];
    if |sub| == 1 {
      assert |all| > 1 ==> Join(all)[|sub[0]|] == ' ';
      assert Join(all)[..|sub[0]|] == sub[0];
    } else {
      assert all[1..][0..|sub| - 1] == sub[1..];
      PrefixMatches(sub[1..], all[1..]);
      var front := all[0] + " ";
      assert Join(all) == front + Join(all[1..]) && Join(sub) == front + Join(sub[1..]);
      ShiftMatch(Join(sub[1..]), front, Join(all[1..]), Join(sub));
    }
  }

  lemma ShiftMatch(alias: string, front: string, haystack: string, whole: string)
    requires AliasAt(alias, haystack, 0) && whole == front + alias
    ensures AliasAt(whole, front + haystack, 0)
  {
  }

  /** Consecutive tokens are found at their character offset. */
  lemma {:induction false} SublistMatches(sub: seq<string>, all: seq<string>, k: nat)
    requires TokenList(all) && sub != [] && SublistAt(sub, all, k)
    ensures AliasAt(Join(sub), Join(all), OffsetOf(all, k))
  {
    if k == 0 {
      PrefixMatches(sub, all);
    } else {
      assert all[1..][k - 1..k - 1 + |sub|] == sub;
      SublistMatches(sub, all[1..], k - 1);
      var front, haystack, i := all[0] + " ", Join(all[1..]), OffsetOf(all[1..], k - 1);
      assert Join(all) == front + haystack;
      BehindMatch(Join(sub), front, haystack, i);
    }
  }

  lemma BehindMatch(alias: string, front: string, haystack: string, i: nat)
    requires front != "" && !IsWord(front[|front| - 1])
    ensures AliasAt(alias, haystack, i) <==> AliasAt(alias, front + haystack, |front| + i)
  {
  }

  /** A string match at the start, at a word boundary, is a token prefix. */
  lemma {:induction false} MatchIsPrefix(sub: seq<string>, all: seq<string>)
    requires TokenList(sub) && TokenList(all) && sub != []
    requires AliasAt(Join(sub), Join(all), 0)
    ensures SublistAt(sub, all, 0)
  {
    JoinEnds(sub);
    var s, h := Join(sub), Join(all);
    assert all != [];
    FirstTokensAgree(sub, all);
    if |sub| > 1 {
      var front := sub[0] + " ";
      assert s == front + Join(sub[1..]);
      assert |all| > 1;
      assert h == front + Join(all[1..]);
      JoinEnds(sub[1..]);
      UnshiftMatch(Join(sub[1..]), front, Join(all[1..]));
      MatchIsPrefix(sub[1..], all[1..]);
      assert all[..|sub|] == [all[0]] + all[1..][..|sub| - 1];
    }
  }

  lemma UnshiftMatch(alias: string, front: string, haystack: string)
    requires AliasAt(front + alias, front + haystack, 0)
    ensures AliasAt(alias, haystack, 0)
  {
    var h := front + haystack;
    assert h[..|front + alias|] == front + alias;
    assert haystack[..|alias|] == h[|front|..|front| + |alias|];
    if |alias| < |haystack| { assert haystack[|alias|] == h[|front + alias|]; }
  }

  lemma FirstTokensAgree(sub: seq<string>, all: seq<string>)
    requires TokenList(sub) && TokenList(all) && sub != [] && all != []
    requires AliasAt(Join(sub), Join(all), 0)
    ensures sub[0] == all[0]
    ensures |sub| > 1 ==> |all| > 1
  {
    JoinFront(sub);
    JoinFront(all);
    SameFront(sub[0], JoinRest(sub), all[0], JoinRest(all));
  }

  /** What follows the first token of a joined list. */
  function JoinRest(tokens: seq<string>): string
    requires tokens != []
  {
    if |tokens| == 1 then "" else " " + Join(tokens[1..])
  }

  lemma JoinFront(tokens: seq<string>)
    requires tokens != []
    ensures Join(tokens) == tokens[0] + JoinRest(tokens)
  {
  }

  lemma SameFront(a: string, restA: string, b: string, restB: string)
    requires a != "" && AllWord(a) && (restA == "" || !IsWord(restA[0]))
    requires b != "" && AllWord(b) && (restB == "" || !IsWord(restB[0]))
    requires AliasAt(a + restA, b + restB, 0)
    ensures a == b
    ensures restA != "" ==> restB != ""
  {
    var s, h := a + restA, b + restB;
    RunOf(a, restA);
    RunOf(b, restB);
    SameRun(s, h, |a|);
    assert a == s[..|a|] && b == h[..|a|];
    assert s[..|a|] == h[..|a|];
  }

  lemma RunOf(run: string, rest: string)
    requires AllWord(run) && (rest == "" || !IsWord(rest[0]))
    ensures WordRun(run + rest) == |run|
  {
    var s := run + rest;
    assert forall i :: 0 <= i < |run| ==> s[i] == run[i];
    assert rest != "" ==> s[|run|] == rest[0];
  }

  lemma SameRun(s: string, h: string, n: nat)
    requires s != "" && AliasAt(s, h, 0) && WordRun(s) == n && n > 0
    ensures WordRun(h) == n
  {
  }

  lemma JoinTail(all: seq<string>)
    requires |all| > 1
    ensures Join(all) == (all[0] + " ") + Join(all[1..])
  {
  }

  lemma MatchHasTokens(alias: string, all: seq<string>, i: nat)
    requires alias != "" && AliasAt(alias, Join(all), i)
    ensures all != []
  {
  }

  lemma MatchPastFirst(alias: string, all: seq<string>, i: nat)
    requires TokenList(all) && all != [] && alias != "" && 0 < i && AliasAt(alias, Join(all), i)
    ensures |all| > 1 && i > |all[0]|
  {
  }

  /** A match past the start lies beyond the first token. */
  lemma MatchBeyondFirst(alias: string, all: seq<string>, i: nat)
    requires TokenList(all) && alias != "" && 0 < i && AliasAt(alias, Join(all), i)
    ensures |all| > 1 && i > |all[0]| && AliasAt(alias, Join(all[1..]), i - |all[0]| - 1)
  {
    hide AliasAt, Join, TokenList;
    MatchHasTokens(alias, all, i);
    MatchPastFirst(alias, all, i);
    JoinTail(all);
    BehindFirst(alias, all[0], Join(all[1..]), i - |all[0]| - 1);
  }

  lemma BehindFirst(alias: string, first: string, haystack: string, i: nat)
    requires AliasAt(alias, (first + " ") + haystack, |first| + 1 + i)
    ensures AliasAt(alias, haystack, i)
  {
  }

  /** Every string match at word boundaries is a run of consecutive tokens. */
  lemma {:induction false} MatchIsSublist(sub: seq<string>, all: seq<string>, i: nat) returns (k: nat)
    requires TokenList(sub) && TokenList(all) && sub != []
    requires AliasAt(Join(sub), Join(all), i)
    ensures SublistAt(sub, all, k) && OffsetOf(all, k) == i
    decreases |all|
  {
    hide Join;
    if i == 0 {
      MatchIsPrefix(sub, all);
      k := 0;
    } else {
      JoinEnds(sub);
      MatchBeyondFirst(Join(sub), all, i);
      var j := MatchIsSublist(sub, all[1..], i - |all[0]| - 1);
      k := j + 1;
      assert all[k..k + |sub|] == all[1..][j..j + |sub|];
    }
  }

  /** On normalized strings, an alias is present exactly when its tokens are consecutive tokens of the haystack. */
  lemma AliasPresentIff(sub: seq<string>, all: seq<string>)
    requires TokenList(sub) && TokenList(all)
    ensures AliasPresent(Join(sub), Join(all)) <==> sub != [] && exists k :: SublistAt(sub, all, k)
  {
    StripJoin(sub);
    if sub != [] {
      if AliasPresent(Join(sub), Join(all)) {
        var k := MatchIsSublist(sub, all, SearchFrom(Join(sub), Join(all), 0).value);
      }
      if exists k :: SublistAt(sub, all, k) {
        var k :| SublistAt(sub, all, k);
        SublistMatches(sub, all, k);
      }
    }
  }

  /** The reported offset is that of the first run of tokens that equals the alias, and there is none
      exactly when the alias is absent. */
  lemma FirstAliasOffsetSpec(sub: seq<string>, all: seq<string>)
    requires TokenList(sub) && TokenList(all)
    ensures var r := FirstAliasOffset(Join(sub), Join(all));
            && (r.None? <==> !AliasPresent(Join(sub), Join(all)))
            && (r.Some? ==> exists k :: SublistAt(sub, all, k) && r.value == OffsetOf(all, k)
                              && forall j :: SublistAt(sub, all, j) ==> OffsetOf(all, k) <= OffsetOf(all, j))
  {
    StripJoin(sub);
    var r := FirstAliasOffset(Join(sub), Join(all));
    if r.Some? {
      var k := MatchIsSublist(sub, all, r.value);
      forall j | SublistAt(sub, all, j) ensures OffsetOf(all, k) <= OffsetOf(all, j) {
        SublistMatches(sub, all, j);
      }
    }
  }

  // ----- str.split() -----

  /** Length of the leading run of characters that are not white space. */
  function SolidRun(s: string): (n: nat)
    ensures n <= |s| && (n < |s| ==> IsSpace(s[n]))
    ensures forall i :: 0 <= i < n ==> !IsSpace(s[i])
  {
    if s == "" || IsSpace(s[0]) then 0 else 1 + SolidRun(s[1..])
  }

  /** `str.split()`: the maximal runs of characters that are not white space. */
  function Split(s: string): seq<string>
    decreases |s|
  {
    if s == "" then []
    else if IsSpace(s[0]) then Split(s[1..])
    else [s[..SolidRun(s)]] + Split(s[SolidRun(s)..])
  }

  lemma {:induction false} SplitIsWords(s: string)
    requires WordsAndSpaces(s)
    ensures Split(s) == Words(s)
    decreases |s|
  {
    if s != "" {
      if IsSpace(s[0]) {
        SplitIsWords(s[1..]);
      } else {
        assert SolidRun(s) == WordRun(s);
        SplitIsWords(s[WordRun(s)..]);
      }
    }
  }

  lemma {:induction false} JoinWordsAndSpaces(tokens: seq<string>)
    requires TokenList(tokens)
    ensures WordsAndSpaces(Join(tokens))
  {
    if |tokens| > 1 { JoinWordsAndSpaces(tokens[1..]); }
  }

  /** Splitting a normalized string gives its tokens. */
  lemma SplitNormalized(s: string)
    ensures Split(NormalizeAlias(s)) == Tokens(s)
    ensures NormalTokens(Tokens(s)) && TokenList(Tokens(s))
  {
    NormalizeIsJoinedTokens(s);
    TokensAreNormal(s);
    JoinIsPlain(Tokens(s));
    JoinWordsAndSpaces(Tokens(s));
    SplitIsWords(Join(Tokens(s)));
    WordsOfJoin(Tokens(s));
  }
}
