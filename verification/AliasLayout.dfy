/** What a match of the raw alias pattern looks like in the answer, and what it contains. */
module AliasLayout {
  import opened Normalization
  import opened EntityAssessment

  // ----- Where the tokens lie -----

  /** The tokens lie one after another at `s[lo[k]..hi[k]]`, each spelled out up to case, or as `&` for "and", with
      no ASCII letter or digit between them. */
  ghost predicate Laid(tokens: seq<string>, s: string, lo: seq<nat>, hi: seq<nat>) {
    && |lo| == |hi| == |tokens|
    && (forall k :: 0 <= k < |tokens| ==>
         && lo[k] <= hi[k] <= |s|
         && (Casefold(s[lo[k]..hi[k]]) == tokens[k] || (tokens[k] == "and" && s[lo[k]..hi[k]] == "&")))
    && (forall k :: 0 < k < |tokens| ==> hi[k - 1] <= lo[k])
    && (forall k, x :: 0 < k < |tokens| && hi[k - 1] <= x < lo[k] ==>
         !('0' <= s[x] <= '9' || 'A' <= s[x] <= 'Z' || 'a' <= s[x] <= 'z'))
  }

  /** And no word character touches the whole stretch on either side. */
  ghost predicate Layout(tokens: seq<string>, s: string, lo: seq<nat>, hi: seq<nat>) {
    && tokens != [] && Laid(tokens, s, lo, hi)
    && (lo[0] == 0 || !IsWord(s[lo[0] - 1]))
    && (hi[|hi| - 1] == |s| || !IsWord(s[hi[|hi| - 1]]))
  }

  lemma LaidOne(token: string, s: string, i: nat, j: nat)
    requires LowerWord(token) && TokenAt(token, s, i, j)
    ensures Laid([token], s, [i], [j])
  {
    hide Casefold;
    LowerWordCasefold(token);
  }

  lemma OnlyToken(tokens: seq<string>, s: string, i: nat, j: nat)
    requires |tokens| == 1 && NormalTokens(tokens) && TokensAt(tokens, s, i, j)
    ensures Laid(tokens, s, [i], [j])
  {
    LaidOne(tokens[0], s, i, j);
    assert tokens == [tokens[0]];
  }

  lemma FirstToken(tokens: seq<string>, s: string, i: nat, j: nat) returns (m: nat, g: nat)
    requires |tokens| > 1 && NormalTokens(tokens) && TokensAt(tokens, s, i, j)
    ensures i <= m <= |s| && (Casefold(s[i..m]) == tokens[0] || (tokens[0] == "and" && s[i..m] == "&"))
    ensures GapAt(s, m, g) && TokensAt(tokens[1..], s, g, j)
  {
    LowerWordCasefold(tokens[0]);
    m, g :| TokenAt(tokens[0], s, i, m) && GapAt(s, m, g) && TokensAt(tokens[1..], s, g, j);
  }

  lemma {:induction false} MatchIsLaid(tokens: seq<string>, s: string, i: nat, j: nat) returns (lo: seq<nat>, hi: seq<nat>)
    requires tokens != [] && NormalTokens(tokens) && TokensAt(tokens, s, i, j)
    ensures |lo| == |hi| == |tokens| && Laid(tokens, s, lo, hi) && lo[0] == i && hi[|hi| - 1] == j
    decreases |tokens|
  {
    hide TokensAt, Laid, Casefold, LowerWord;
    if |tokens| == 1 {
      lo, hi := [i], [j];
      OnlyToken(tokens, s, i, j);
    } else {
      var m, g := FirstToken(tokens, s, i, j);
      var lo', hi' := MatchIsLaid(tokens[1..], s, g, j);
      lo, hi := [i] + lo', [m] + hi';
      LaidCons(tokens, s, i, m, lo', hi');
    }
  }

  lemma LaidCons(tokens: seq<string>, s: string, i: nat, m: nat, lo: seq<nat>, hi: seq<nat>)
    requires |tokens| > 1 && |lo| == |hi| == |tokens| - 1 && Laid(tokens[1..], s, lo, hi)
    requires i <= m <= |s| && (Casefold(s[i..m]) == tokens[0] || (tokens[0] == "and" && s[i..m] == "&"))
    requires GapAt(s, m, lo[0])
    ensures Laid(tokens, s, [i] + lo, [m] + hi)
  {
    hide Casefold;
    var (lo', hi') := ([i] + lo, [m] + hi);
    forall k | 0 < k < |tokens| ensures hi'[k - 1] <= lo'[k] {
      if k > 1 { assert hi[k - 2] <= lo[k - 1]; }
    }
    forall k | 0 <= k < |tokens|
      ensures lo'[k] <= hi'[k] <= |s|
           && (Casefold(s[lo'[k]..hi'[k]]) == tokens[k] || (tokens[k] == "and" && s[lo'[k]..hi'[k]] == "&"))
    {
      if k > 0 { assert tokens[k] == tokens[1..][k - 1]; }
    }
    forall k, x | 0 < k < |tokens| && hi'[k - 1] <= x < lo'[k]
      ensures !('0' <= s[x] <= '9' || 'A' <= s[x] <= 'Z' || 'a' <= s[x] <= 'z')
    {
      if k > 1 { assert hi[k - 2] <= x < lo[k - 1]; }
    }
  }

  lemma LaidTail(tokens: seq<string>, s: string, lo: seq<nat>, hi: seq<nat>)
    requires |tokens| > 1 && Laid(tokens, s, lo, hi)
    ensures Laid(tokens[1..], s, lo[1..], hi[1..])
    ensures GapAt(s, hi[0], lo[1]) && lo[0] <= hi[0] <= |s|
  {
    hide Casefold;
  }

  lemma {:induction false} LaidMatches(tokens: seq<string>, s: string, lo: seq<nat>, hi: seq<nat>)
    requires tokens != [] && NormalTokens(tokens) && Laid(tokens, s, lo, hi)
    ensures TokensAt(tokens, s, lo[0], hi[|hi| - 1])
    decreases |tokens|
  {
    LowerWordCasefold(tokens[0]);
    assert TokenAt(tokens[0], s, lo[0], hi[0]);
    if |tokens| > 1 {
      LaidTail(tokens, s, lo, hi);
      LaidMatches(tokens[1..], s, lo[1..], hi[1..]);
      assert GapAt(s, hi[0], lo[1]) && TokensAt(tokens[1..], s, lo[1], hi[|hi| - 1]);
    }
  }

  lemma PatternIsLayout(tokens: seq<string>, s: string, i: nat, j: nat) returns (lo: seq<nat>, hi: seq<nat>)
    requires tokens != [] && NormalTokens(tokens) && PatternAt(tokens, s, i, j)
    ensures Layout(tokens, s, lo, hi)
  {
    hide Laid, TokensAt, NormalTokens, IsWord;
    lo, hi := MatchIsLaid(tokens, s, i, j);
  }

  lemma LayoutIsPattern(tokens: seq<string>, s: string, lo: seq<nat>, hi: seq<nat>)
    requires NormalTokens(tokens) && Layout(tokens, s, lo, hi)
    ensures exists i: nat, j: nat :: PatternAt(tokens, s, i, j)
  {
    hide Laid, TokensAt, NormalTokens;
    LaidSizes(tokens, s, lo, hi);
    LaidMatches(tokens, s, lo, hi);
    TokensOrdered(tokens, s, lo[0], hi[|hi| - 1]);
    assert PatternAt(tokens, s, lo[0], hi[|hi| - 1]);
  }

  /** The raw matcher matches exactly when the alias's tokens are laid out like that somewhere in the answer. */
  lemma AliasMatchIff(alias: string, answer: string)
    requires !Ambiguous(NormalizeAlias(alias))
    ensures AliasMatch(alias, answer) <==>
              exists lo: seq<nat>, hi: seq<nat> :: Layout(Tokens(alias), answer, lo, hi)
  {
    hide PatternAt, Layout, Tokens, NormalizeAlias, Split, NormalTokens;
    var tokens := Tokens(alias);
    PresenceOfTokens(alias, answer);
    TokensAreNormal(alias);
    if AliasMatch(alias, answer) {
      var i: nat, j: nat :| PatternAt(tokens, answer, i, j);
      var lo, hi := PatternIsLayout(tokens, answer, i, j);
    }
    if lo: seq<nat>, hi: seq<nat> :| Layout(tokens, answer, lo, hi) {
      LayoutHasTokens(tokens, answer, lo, hi);
      LayoutIsPattern(tokens, answer, lo, hi);
    }
  }

  lemma LayoutHasTokens(tokens: seq<string>, s: string, lo: seq<nat>, hi: seq<nat>)
    requires Layout(tokens, s, lo, hi)
    ensures tokens != []
  {
  }

  lemma LaidSizes(tokens: seq<string>, s: string, lo: seq<nat>, hi: seq<nat>)
    requires Laid(tokens, s, lo, hi)
    ensures |lo| == |hi| == |tokens|
    ensures forall k :: 0 <= k < |tokens| ==> lo[k] <= hi[k] <= |s|
  {
  }

  // ----- What a match contains -----

  /** What a character contributes: a digit, a letter in lower case, "and" for an ampersand, else nothing. */
  function LetterOf(c: char): string {
    if c == '&' then "and"
    else if '0' <= c <= '9' || 'a' <= c <= 'z' then [c]
    else if 'A' <= c <= 'Z' then [(c as int + 32) as char]
    else ""
  }

  /** The letters and digits of a text, in lower case, `&` read as "and". */
  function Letters(s: string): string {
    if s == "" then "" else LetterOf(s[0]) + Letters(s[1..])
  }

  function AllLetters(tokens: seq<string>): string {
    if tokens == [] then "" else Letters(tokens[0]) + AllLetters(tokens[1..])
  }

  lemma {:induction false} LettersAppend(a: string, b: string)
    ensures Letters(a + b) == Letters(a) + Letters(b)
  {
    hide LetterOf;
    if a == "" {
      assert a + b == b;
    } else {
      LettersAppend(a[1..], b);
      assert (a + b)[0] == a[0] && (a + b)[1..] == a[1..] + b;
      var first := LetterOf(a[0]);
      assert first + (Letters(a[1..]) + Letters(b)) == first + Letters(a[1..]) + Letters(b);
    }
  }

  lemma {:induction false} LettersFold(s: string)
    ensures Letters(Casefold(s)) == Letters(s)
  {
    if s != "" {
      LettersFold(s[1..]);
      assert Casefold(s)[1..] == Casefold(s[1..]);
    }
  }

  lemma LettersOfToken(token: string, s: string)
    requires Casefold(s) == token || (token == "and" && s == "&")
    ensures Letters(s) == Letters(token)
  {
    if Casefold(s) == token {
      LettersFold(s);
    } else {
      LettersOfAnd();
    }
  }

  lemma LettersOfAnd()
    ensures Letters("&") == "and" == Letters("and")
  {
    assert "and"[1..] == "nd" && "nd"[1..] == "d" && "d"[1..] == "" && "&"[1..] == "";
    assert Letters("d") == "d" && Letters("nd") == "nd";
  }

  /** A gap contributes nothing but its ampersands. */
  lemma {:induction false} LettersOfGap(s: string)
    requires forall x :: 0 <= x < |s| ==> !('0' <= s[x] <= '9' || 'A' <= s[x] <= 'Z' || 'a' <= s[x] <= 'z')
    ensures Letters(s) == "" <==> '&' !in s
  {
    if s != "" { LettersOfGap(s[1..]); }
  }

  /** Some gap between tokens holds an ampersand. */
  ghost predicate AmpersandBetween(s: string, lo: seq<nat>, hi: seq<nat>) {
    |lo| == |hi| && exists k, x :: 0 < k < |lo| && hi[k - 1] <= x < lo[k] && x < |s| && s[x] == '&'
  }

  lemma ThreePieces(s: string, a: nat, b: nat, c: nat, d: nat)
    requires a <= b <= c <= d <= |s|
    ensures Letters(s[a..d]) == Letters(s[a..b]) + (Letters(s[b..c]) + Letters(s[c..d]))
  {
    hide Letters;
    assert s[a..d] == s[a..b] + (s[b..c] + s[c..d]);
    LettersAppend(s[a..b], s[b..c] + s[c..d]);
    LettersAppend(s[b..c], s[c..d]);
  }

  lemma FirstLaid(tokens: seq<string>, s: string, lo: seq<nat>, hi: seq<nat>)
    requires tokens != [] && Laid(tokens, s, lo, hi)
    ensures |lo| == |hi| == |tokens| && lo[0] <= hi[0] <= |s| && Letters(s[lo[0]..hi[0]]) == Letters(tokens[0])
    ensures |tokens| > 1 ==> hi[0] <= lo[1] <= hi[1] <= |s|
  {
    hide Letters, Casefold;
    LettersOfToken(tokens[0], s[lo[0]..hi[0]]);
  }

  lemma FirstGap(tokens: seq<string>, s: string, lo: seq<nat>, hi: seq<nat>)
    requires |tokens| > 1 && |lo| == |hi| == |tokens| && Laid(tokens, s, lo, hi) && hi[0] <= lo[1] <= |s|
    ensures Letters(s[hi[0]..lo[1]]) == "" <==> '&' !in s[hi[0]..lo[1]]
  {
    hide Letters, Casefold;
    var gap := s[hi[0]..lo[1]];
    forall x | 0 <= x < |gap| ensures !('0' <= gap[x] <= '9' || 'A' <= gap[x] <= 'Z' || 'a' <= gap[x] <= 'z') {
      assert gap[x] == s[hi[0] + x];
    }
    LettersOfGap(gap);
  }

  lemma {:induction false} LaidLetters(tokens: seq<string>, s: string, lo: seq<nat>, hi: seq<nat>)
    requires tokens != [] && Laid(tokens, s, lo, hi)
    ensures |lo| == |hi| == |tokens| && lo[0] <= hi[|hi| - 1] <= |s|
    ensures var stretch := s[lo[0]..hi[|hi| - 1]];
            && |Letters(stretch)| >= |AllLetters(tokens)|
            && (!AmpersandBetween(s, lo, hi) ==> Letters(stretch) == AllLetters(tokens))
            && (AmpersandBetween(s, lo, hi) ==> |Letters(stretch)| > |AllLetters(tokens)|)
    decreases |tokens|
  {
    FirstLaid(tokens, s, lo, hi);
    if |tokens| == 1 {
      hide Letters, Laid;
      assert tokens[1..] == [];
      assert Letters(tokens[0]) + "" == Letters(tokens[0]);
    } else {
      LaidTail(tokens, s, lo, hi);
      hide Letters, Laid, AmpersandBetween;
      LaidLetters(tokens[1..], s, lo[1..], hi[1..]);
      var end := hi[|hi| - 1];
      var gap, later := s[hi[0]..lo[1]], s[lo[1]..end];
      ThreePieces(s, lo[0], hi[0], lo[1], end);
      FirstGap(tokens, s, lo, hi);
      AmpersandHereOrLater(s, lo, hi);
      if Letters(gap) == "" { assert "" + Letters(later) == Letters(later); }
    }
  }

  lemma AmpersandHereOrLater(s: string, lo: seq<nat>, hi: seq<nat>)
    requires |lo| == |hi| > 1 && hi[0] <= lo[1] <= |s|
    ensures AmpersandBetween(s, lo, hi) <==> '&' in s[hi[0]..lo[1]] || AmpersandBetween(s, lo[1..], hi[1..])
  {
    if '&' in s[hi[0]..lo[1]] {
      var y :| 0 <= y < lo[1] - hi[0] && s[hi[0]..lo[1]][y] == '&';
      assert s[hi[0] + y] == '&';
    }
    if AmpersandBetween(s, lo[1..], hi[1..]) {
      var k, x :| 0 < k < |lo| - 1 && hi[1..][k - 1] <= x < lo[1..][k] && x < |s| && s[x] == '&';
      assert hi[k] <= x < lo[k + 1];
    }
    if AmpersandBetween(s, lo, hi) {
      var k, x :| 0 < k < |lo| && hi[k - 1] <= x < lo[k] && x < |s| && s[x] == '&';
      if k == 1 {
        assert s[hi[0]..lo[1]][x - hi[0]] == '&';
      } else {
        assert hi[1..][k - 2] <= x < lo[1..][k - 1];
      }
    }
  }

  /** A match spells out the alias, letter by letter and digit by digit, if and only if none of the gaps it
      skips holds an ampersand. */
  lemma MatchSpellsAliasIff(alias: string, answer: string, lo: seq<nat>, hi: seq<nat>)
    requires Layout(Tokens(alias), answer, lo, hi)
    ensures lo[0] < hi[|hi| - 1] <= |answer|
    ensures Letters(answer[lo[0]..hi[|hi| - 1]]) == AllLetters(Tokens(alias)) <==> !AmpersandBetween(answer, lo, hi)
  {
    hide Letters, Tokens;
    LaidLetters(Tokens(alias), answer, lo, hi);
    TokensAreNormal(alias);
    MatchIsLong(Tokens(alias), answer, lo, hi);
  }

  lemma {:induction false} MatchIsLong(tokens: seq<string>, s: string, lo: seq<nat>, hi: seq<nat>)
    requires tokens != [] && NormalTokens(tokens) && Laid(tokens, s, lo, hi)
    ensures lo[0] < hi[|hi| - 1]
    decreases |tokens|
  {
    assert tokens[0] != "";
    assert lo[0] < hi[0];
    if |tokens| > 1 {
      LaidTail(tokens, s, lo, hi);
      MatchIsLong(tokens[1..], s, lo[1..], hi[1..]);
    }
  }

  /** Soundness: in an answer without ampersands, a match is a stretch between word boundaries whose letters and
      digits are the alias's. */
  lemma RawMatcherSound(alias: string, answer: string)
    requires !Ambiguous(NormalizeAlias(alias)) && AliasMatch(alias, answer) && '&' !in answer
    ensures exists i: nat, j: nat ::
              && i < j <= |answer| && (i == 0 || !IsWord(answer[i - 1])) && (j == |answer| || !IsWord(answer[j]))
              && Letters(answer[i..j]) == AllLetters(Tokens(alias))
  {
    hide Letters, Laid, Tokens;
    AliasMatchIff(alias, answer);
    var lo: seq<nat>, hi: seq<nat> :| Layout(Tokens(alias), answer, lo, hi);
    LaidSizes(Tokens(alias), answer, lo, hi);
    MatchSpellsAliasIff(alias, answer, lo, hi);
    assert !AmpersandBetween(answer, lo, hi);
  }

  // ----- What the raw matcher finds and the normalized one does not -----

  lemma TwoTokens(a: string, b: string)
    requires LowerWord(a) && LowerWord(b)
    ensures Tokens(a + " " + b) == [a, b] && NormalizeAlias(a + " " + b) == a + " " + b
    ensures Tokens(a + " & " + b) == [a, AND, b]
  {
    hide Tokens, NormalizeAlias;
    JoinCons(a, [b]);
    assert [a] + [b] == [a, b] && Join([a, b]) == a + " " + b;
    NormalizeIsJoinedTokens(a + " " + b);
    TokensOfJoin([a, b]);
    var rest := " & " + b;
    assert a + " & " + b == a + rest && rest == [' '] + ("& " + b) && "& " + b == "&" + (" " + b) && " " + b == [' '] + b;
    LowerWordCasefold(a);
    TokensAfterRun(a, rest);
    TokensAfterOther(' ', "& " + b);
    TokensAfterAmpersand(" " + b);
    TokensAfterOther(' ', b);
    TokensOfJoin([b]);
    assert Join([b]) == b;
    assert [a] + ([AND] + [b]) == [a, AND, b];
  }

  lemma AmpersandLayout(a: string, b: string)
    requires LowerWord(a) && LowerWord(b)
    ensures Layout([a, b], a + " & " + b, [0, |a| + 3], [|a|, |a| + 3 + |b|])
  {
    hide LowerWord;
    var answer := a + " & " + b;
    LowerWordCasefold(a);
    LowerWordCasefold(b);
    assert answer[0..|a|] == a && answer[|a| + 3..|a| + 3 + |b|] == b;
    forall x | |a| <= x < |a| + 3 ensures answer[x] == " & "[x - |a|] { }
  }

  lemma SpacedIsNotAmbiguous(a: string, b: string)
    ensures !Ambiguous(a + " " + b)
  {
    var alias := a + " " + b;
    assert alias[|a|] == ' ';
    assert forall k :: 0 <= k < |"target"| ==> "target"[k] != ' ';
  }

  /** An ampersand between two tokens is no token to the raw matcher: it finds "a b" in "a & b", where the
      normalized matcher reads "a and b" and finds nothing. */
  lemma AmpersandSkipped(a: string, b: string)
    requires LowerWord(a) && LowerWord(b) && a != AND && b != AND
    ensures var (alias, answer) := (a + " " + b, a + " & " + b);
            && !Ambiguous(NormalizeAlias(alias)) && AliasMatch(alias, answer)
            && !AliasPresent(NormalizeAlias(alias), NormalizeAlias(answer))
  {
    hide Tokens, NormalizeAlias, AliasPresent, AliasMatch, Layout, LowerWord, Ambiguous;
    var alias, answer := a + " " + b, a + " & " + b;
    TwoTokens(a, b);
    SpacedIsNotAmbiguous(a, b);
    AmpersandLayout(a, b);
    AliasMatchIff(alias, answer);
    PresenceOfTokens(alias, answer);
    forall k ensures !SublistAt([a, b], [a, AND, b], k) { NotConsecutive(a, b, k); }
  }

  lemma NotConsecutive(a: string, b: string, k: nat)
    requires a != AND && b != AND
    ensures !SublistAt([a, b], [a, AND, b], k)
  {
    var all := [a, AND, b];
    if k + 2 <= 3 { assert all[k..k + 2][0] == all[k] && all[k..k + 2][1] == all[k + 1]; }
  }
}
