/**
 * Phrase matching of the matcher (app/llm/matcher.py `_tokenize`, `_deal_breaker_hit`,
 * `_missing_hard_skills`): the regular expression the code builds, and what it finds.
 */
module Phrases {
  import opened Options
  import opened TextTokens

  /** The regex classes `\s` and `\w`, taken as given; `folded` is `strip().lower()`. */
  datatype Chars = Chars(space: char -> bool, word: char -> bool, folded: string -> string)

  /** The class `[\s\-_/]`. */
  function Separator(chars: Chars): char -> bool {
    (c: char) => chars.space(c) || c == '-' || c == '_' || c == '/'
  }

  /** `_tokenize`. */
  function Tokenize(chars: Chars, text: string): seq<string> {
    Tokens(Separator(chars), chars.folded(text))
  }

  // ---------------------------------------------------------------- the regular expression

  datatype Piece = WordBoundary | Literal(text: string) | Separators

  /** Literals joined by optional separators. */
  function Body(tokens: seq<string>): seq<Piece> {
    if tokens == [] then []
    else if |tokens| == 1 then [Literal(tokens[0])]
    else [Literal(tokens[0]), Separators] + Body(tokens[1..])
  }

  function Pattern(tokens: seq<string>): seq<Piece> {
    [WordBoundary] + Body(tokens) + [WordBoundary]
  }

  /** `\b`: word and non-word meet here, the outside of the text counting as non-word. */
  predicate Boundary(chars: Chars, h: string, i: nat)
    requires i <= |h|
  {
    (i > 0 && chars.word(h[i - 1])) != (i < |h| && chars.word(h[i]))
  }

  predicate HasAt(h: string, i: nat, s: string) {
    i + |s| <= |h| && h[i..i + |s|] == s
  }

  /** Backtracking match of the pieces at position i. */
  predicate Matches(chars: Chars, pieces: seq<Piece>, h: string, i: nat)
    requires i <= |h|
    decreases |pieces|, |h| - i
  {
    if pieces == [] then true
    else
      match pieces[0]
      case WordBoundary => Boundary(chars, h, i) && Matches(chars, pieces[1..], h, i)
      case Literal(s) => HasAt(h, i, s) && Matches(chars, pieces[1..], h, i + |s|)
      case Separators =>
        || Matches(chars, pieces[1..], h, i)
        || (i < |h| && Separator(chars)(h[i]) && Matches(chars, pieces, h, i + 1))
  }

  /** `re.search` of the phrase's pattern. */
  predicate Search(chars: Chars, tokens: seq<string>, h: string) {
    exists i :: 0 <= i <= |h| && Matches(chars, Pattern(tokens), h, i)
  }

  // ---------------------------------------------------------------- what it means

  /** The tokens with the given separator runs between them. */
  function Weave(tokens: seq<string>, seps: seq<string>): string
    requires |seps| + 1 >= |tokens|
  {
    if tokens == [] then []
    else if |tokens| == 1 then tokens[0]
    else tokens[0] + seps[0] + Weave(tokens[1..], seps[1..])
  }

  ghost predicate SepRuns(chars: Chars, tokens: seq<string>, seps: seq<string>) {
    |seps| + 1 == |tokens| && forall k :: 0 <= k < |seps| ==> AllSep(Separator(chars), seps[k])
  }

  /** The stretch i..j of the text is the phrase: its tokens, possibly empty separator runs between. */
  ghost predicate Occurs(chars: Chars, tokens: seq<string>, h: string, i: nat, j: nat) {
    i <= j <= |h| && exists seps :: SepRuns(chars, tokens, seps) && h[i..j] == Weave(tokens, seps)
  }

  /** A word-bounded occurrence. */
  ghost predicate Hit(chars: Chars, tokens: seq<string>, h: string) {
    exists i: nat, j: nat :: Occurs(chars, tokens, h, i, j) && Boundary(chars, h, i) && Boundary(chars, h, j)
  }

  lemma JoinSlices(h: string, i: nat, k: nat, j: nat)
    requires i <= k <= j <= |h|
    ensures h[i..j] == h[i..k] + h[k..j]
  {
  }

  lemma Reassociate(a: string, b: string, c: string)
    ensures a + (b + c) == a + b + c
  {
  }

  lemma WeaveExtends(tokens: seq<string>, seps: seq<string>, h: string, i: nat, k: nat, j: nat)
    requires |tokens| > 1 && |seps| + 1 == |tokens| && i <= k <= j <= |h|
    requires h[i..k] == tokens[0] && h[k..j] == seps[0] + Weave(tokens[1..], seps[1..])
    ensures h[i..j] == Weave(tokens, seps)
  {
    JoinSlices(h, i, k, j);
    Reassociate(tokens[0], seps[0], Weave(tokens[1..], seps[1..]));
  }

  /** A separator run either ends here or takes one more separator. */
  lemma SeparatorStep(chars: Chars, rest: seq<Piece>, h: string, k: nat)
    requires k <= |h|
    ensures Matches(chars, [Separators] + rest, h, k) ==
              (Matches(chars, rest, h, k) ||
               (k < |h| && Separator(chars)(h[k]) && Matches(chars, [Separators] + rest, h, k + 1)))
  {
    assert ([Separators] + rest)[1..] == rest;
  }

  lemma EmptyRun(chars: Chars, tokens: seq<string>, tail: seq<string>)
    requires |tokens| > 1 && SepRuns(chars, tokens[1..], tail)
    ensures var seps := [[]] + tail;
            SepRuns(chars, tokens, seps) && seps[1..] == tail
            && seps[0] + Weave(tokens[1..], seps[1..]) == Weave(tokens[1..], tail)
  {
    assert ([[]] + tail)[1..] == tail;
  }

  lemma LongerRun(chars: Chars, tokens: seq<string>, seps: seq<string>, h: string, k: nat, j: nat)
    requires |tokens| > 1 && SepRuns(chars, tokens, seps) && k + 1 <= j <= |h| && Separator(chars)(h[k])
    requires h[k + 1..j] == seps[0] + Weave(tokens[1..], seps[1..])
    ensures var longer := [[h[k]] + seps[0]] + seps[1..];
            SepRuns(chars, tokens, longer) && h[k..j] == longer[0] + Weave(tokens[1..], longer[1..])
  {
    var longer := [[h[k]] + seps[0]] + seps[1..];
    var tail := Weave(tokens[1..], seps[1..]);
    assert longer[1..] == seps[1..];
    assert h[k..j] == [h[k]] + h[k + 1..j];
    assert [h[k]] + (seps[0] + tail) == ([h[k]] + seps[0]) + tail;
  }

  lemma {:induction false} BodyMatches(chars: Chars, tokens: seq<string>, h: string, i: nat) returns (j: nat)
    requires tokens != [] && i <= |h| && Matches(chars, Body(tokens) + [WordBoundary], h, i)
    ensures Occurs(chars, tokens, h, i, j) && Boundary(chars, h, j)
    decreases |tokens|, |h| - i
  {
    var k := i + |tokens[0]|;
    if |tokens| == 1 {
      assert tokens == [tokens[0]];
      LastLiteral(chars, tokens[0], h, i);
      j := k;
      assert SepRuns(chars, tokens, []) && h[i..j] == Weave(tokens, []);
    } else {
      var rest := Body(tokens[1..]) + [WordBoundary];
      BodySplits(tokens);
      LiteralThen(chars, tokens[0], [Separators] + rest, h, i);
      var seps;
      j, seps := SeparatorsMatch(chars, tokens, h, k);
      WeaveExtends(tokens, seps, h, i, k, j);
    }
  }

  /** After the first token: a separator run, then the rest of the phrase. */
  lemma {:induction false} SeparatorsMatch(chars: Chars, tokens: seq<string>, h: string, k: nat) returns (j: nat, seps: seq<string>)
    requires |tokens| > 1 && k <= |h|
    requires Matches(chars, [Separators] + (Body(tokens[1..]) + [WordBoundary]), h, k)
    ensures k <= j <= |h| && Boundary(chars, h, j)
    ensures SepRuns(chars, tokens, seps) && h[k..j] == seps[0] + Weave(tokens[1..], seps[1..])
    decreases |tokens|, |h| - k, 0
  {
    var rest := Body(tokens[1..]) + [WordBoundary];
    SeparatorStep(chars, rest, h, k);
    if Matches(chars, rest, h, k) {
      j := BodyMatches(chars, tokens[1..], h, k);
      var tail :| SepRuns(chars, tokens[1..], tail) && h[k..j] == Weave(tokens[1..], tail);
      seps := [[]] + tail;
      EmptyRun(chars, tokens, tail);
    } else {
      var more;
      j, more := SeparatorsMatch(chars, tokens, h, k + 1);
      seps := [[h[k]] + more[0]] + more[1..];
      LongerRun(chars, tokens, more, h, k, j);
    }
  }

  lemma SliceOfSlice(h: string, i: nat, j: nat, a: nat, b: nat)
    requires i <= j <= |h| && a <= b <= j - i
    ensures h[i..j][a..b] == h[i + a..i + b]
  {
    var part := h[i..j];
    assert |part[a..b]| == |h[i + a..i + b]|;
    forall k | 0 <= k < b - a
      ensures part[a..b][k] == h[i + a..i + b][k]
    {
      assert part[a + k] == h[i + (a + k)];
    }
  }

  lemma WeaveCons(tokens: seq<string>, seps: seq<string>)
    requires |tokens| > 1 && |seps| + 1 == |tokens|
    ensures Weave(tokens, seps) == tokens[0] + seps[0] + Weave(tokens[1..], seps[1..])
  {
  }

  /** The stretch i..j of the text falls into three given parts. */
  predicate FallsInto(h: string, i: nat, j: nat, a: string, b: string, c: string) {
    var k, m := i + |a|, i + |a| + |b|;
    m <= j <= |h| && h[i..k] == a && h[k..m] == b && h[m..j] == c
  }

  lemma ThreeSlices(h: string, i: nat, j: nat, a: string, b: string, c: string)
    requires i <= j <= |h| && h[i..j] == a + b + c
    ensures FallsInto(h, i, j, a, b, c)
  {
    var n, r := |a|, |a| + |b|;
    var w := a + b + c;
    assert |w| == r + |c| == j - i;
    assert w[0..n] == a && w[n..r] == b && w[r..j - i] == c;
    SliceOfSlice(h, i, j, 0, n);
    SliceOfSlice(h, i, j, n, r);
    SliceOfSlice(h, i, j, r, j - i);
  }

  lemma BodySplits(tokens: seq<string>)
    requires |tokens| > 1
    ensures Body(tokens) + [WordBoundary] == [Literal(tokens[0])] + ([Separators] + (Body(tokens[1..]) + [WordBoundary]))
  {
  }

  /** A literal and a separator run in front of a match. */
  lemma PrependLiteral(chars: Chars, text: string, rest: seq<Piece>, h: string, i: nat, m: nat)
    requires HasAt(h, i, text) && i + |text| <= m <= |h|
    requires AllSep(Separator(chars), h[i + |text|..m]) && Matches(chars, rest, h, m)
    ensures Matches(chars, [Literal(text)] + ([Separators] + rest), h, i)
  {
    SkipRun(chars, rest, h, i + |text|, m);
    LiteralThen(chars, text, [Separators] + rest, h, i);
  }

  lemma {:induction false} WeaveMatches(chars: Chars, tokens: seq<string>, h: string, i: nat, j: nat, seps: seq<string>)
    requires tokens != [] && i <= j <= |h| && SepRuns(chars, tokens, seps)
    requires h[i..j] == Weave(tokens, seps) && Boundary(chars, h, j)
    ensures Matches(chars, Body(tokens) + [WordBoundary], h, i)
    decreases |tokens|
  {
    if |tokens| == 1 {
      assert tokens == [tokens[0]];
      LastLiteral(chars, tokens[0], h, i);
    } else {
      var k := i + |tokens[0]|;
      var m := k + |seps[0]|;
      WeaveCons(tokens, seps);
      ThreeSlices(h, i, j, tokens[0], seps[0], Weave(tokens[1..], seps[1..]));
      WeaveMatches(chars, tokens[1..], h, m, j, seps[1..]);
      PrependLiteral(chars, tokens[0], Body(tokens[1..]) + [WordBoundary], h, i, m);
      BodySplits(tokens);
    }
  }

  lemma LiteralThen(chars: Chars, text: string, rest: seq<Piece>, h: string, i: nat)
    requires i <= |h|
    ensures Matches(chars, [Literal(text)] + rest, h, i) <==> HasAt(h, i, text) && Matches(chars, rest, h, i + |text|)
  {
    assert ([Literal(text)] + rest)[1..] == rest;
  }

  lemma LastLiteral(chars: Chars, text: string, h: string, i: nat)
    requires i <= |h|
    ensures Matches(chars, Body([text]) + [WordBoundary], h, i) <==> HasAt(h, i, text) && Boundary(chars, h, i + |text|)
  {
    LiteralThen(chars, text, [WordBoundary], h, i);
    var end: seq<Piece> := [WordBoundary];
    assert end[1..] == [];
  }

  lemma {:induction false} SkipRun(chars: Chars, rest: seq<Piece>, h: string, k: nat, m: nat)
    requires k <= m <= |h| && AllSep(Separator(chars), h[k..m])
    requires Matches(chars, rest, h, m)
    ensures Matches(chars, [Separators] + rest, h, k)
    decreases m - k
  {
    assert ([Separators] + rest)[1..] == rest;
    if k < m {
      assert h[k] == h[k..m][0];
      assert h[k + 1..m] == h[k..m][1..];
      SkipRun(chars, rest, h, k + 1, m);
    }
  }

  /** The generated pattern finds a phrase exactly when it has a word-bounded occurrence. */
  lemma SearchIffHit(chars: Chars, tokens: seq<string>, h: string)
    requires tokens != []
    ensures Search(chars, tokens, h) <==> Hit(chars, tokens, h)
  {
    var pieces := Pattern(tokens);
    assert pieces[1..] == Body(tokens) + [WordBoundary];
    if Search(chars, tokens, h) {
      var i :| 0 <= i <= |h| && Matches(chars, pieces, h, i);
      var j := BodyMatches(chars, tokens, h, i);
    }
    if Hit(chars, tokens, h) {
      var i: nat, j: nat :| Occurs(chars, tokens, h, i, j) && Boundary(chars, h, i) && Boundary(chars, h, j);
      var seps :| SepRuns(chars, tokens, seps) && h[i..j] == Weave(tokens, seps);
      WeaveMatches(chars, tokens, h, i, j, seps);
      assert Matches(chars, pieces, h, i);
    }
  }

  // ---------------------------------------------------------------- separator variants

  /** No white space, hyphen, underscore or slash. */
  predicate Plain(chars: Chars, s: string) {
    s != [] && forall c :: c in s ==> !chars.space(c) && c != '-' && c != '_' && c != '/'
  }

  /** Two plain words with one character between them are two tokens if that is white space, a hyphen, an
      underscore or a slash, and otherwise one; only the folded phrase counts. */
  lemma SeparatorsSplit(chars: Chars, phrase: string, a: string, c: char, b: string)
    requires Plain(chars, a) && Plain(chars, b) && chars.folded(phrase) == a + [c] + b
    ensures Tokenize(chars, phrase)
         == if chars.space(c) || c in ['-', '_', '/'] then [a, b] else [a + [c] + b]
  {
    var isSep := Separator(chars);
    if chars.space(c) || c in ['-', '_', '/'] {
      TokensAroundSeps(isSep, a, [c], b);
      SolidRun(isSep, a, []);
      SolidRun(isSep, b, []);
      assert [] + a == a && [] + b == b;
    } else {
      SolidRun(isSep, a + [c] + b, []);
      assert [] + (a + [c] + b) == a + [c] + b;
    }
  }

  /** Rewriting a separator run of the phrase changes nothing: its tokens stay the same. */
  lemma PhraseVariants(chars: Chars, a: string, sep: string, sep': string, b: string)
    requires sep != [] && sep' != [] && AllSep(Separator(chars), sep) && AllSep(Separator(chars), sep')
    ensures Tokens(Separator(chars), a + sep + b) == Tokens(Separator(chars), a + sep' + b)
  {
    TokensAroundSeps(Separator(chars), a, sep, b);
    TokensAroundSeps(Separator(chars), a, sep', b);
  }

  /** A phrase as the tokenizer yields it: at least one token, none empty. */
  ghost predicate NonEmpty(tokens: seq<string>) {
    tokens != [] && forall k :: 0 <= k < |tokens| ==> tokens[k] != []
  }

  ghost function FirstChar(tokens: seq<string>): char
    requires NonEmpty(tokens)
  {
    tokens[0][0]
  }

  ghost function LastChar(tokens: seq<string>): char
    requires NonEmpty(tokens)
  {
    var last := tokens[|tokens| - 1];
    last[|last| - 1]
  }

  lemma {:induction false} WeaveEnds(tokens: seq<string>, seps: seq<string>)
    requires |seps| + 1 == |tokens| && NonEmpty(tokens)
    ensures var w := Weave(tokens, seps);
            w != [] && w[0] == FirstChar(tokens) && w[|w| - 1] == LastChar(tokens)
    decreases |tokens|
  {
    if |tokens| > 1 {
      var rest := Weave(tokens[1..], seps[1..]);
      WeaveEnds(tokens[1..], seps[1..]);
      ConcatEnds(tokens[0] + seps[0], rest);
      ConcatEnds(tokens[0], seps[0]);
    }
  }

  lemma ConcatEnds(a: string, b: string)
    ensures a != [] ==> (a + b)[0] == a[0]
    ensures b != [] ==> (a + b)[|a + b| - 1] == b[|b| - 1]
  {
  }

  /** An occurrence starts and ends with the phrase's own characters. */
  lemma OccurrenceEnds(chars: Chars, tokens: seq<string>, h: string, i: nat, j: nat)
    requires NonEmpty(tokens) && Occurs(chars, tokens, h, i, j)
    ensures i < j <= |h| && h[i] == FirstChar(tokens) && h[j - 1] == LastChar(tokens)
  {
    var seps :| SepRuns(chars, tokens, seps) && h[i..j] == Weave(tokens, seps);
    WeaveEnds(tokens, seps);
    assert h[i] == h[i..j][0] && h[j - 1] == h[i..j][j - i - 1];
  }

  /** Where a non-empty stretch and its neighbours are in a text. */
  lemma InContext(before: string, w: string, after: string)
    requires w != []
    ensures var h, i, j := before + w + after, |before|, |before| + |w|;
            && h[i..j] == w && h[i] == w[0] && h[j - 1] == w[|w| - 1]
            && (i > 0 ==> h[i - 1] == before[i - 1])
            && (j < |h| <==> after != []) && (j < |h| ==> h[j] == after[0])
  {
  }

  /** Whether a position is a word boundary depends on its two neighbours only. */
  lemma SameBoundary(chars: Chars, h: string, i: nat, h': string, i': nat)
    requires i <= |h| && i' <= |h'|
    requires (i > 0 <==> i' > 0) && (i > 0 ==> h[i - 1] == h'[i' - 1])
    requires (i < |h| <==> i' < |h'|) && (i < |h| ==> h[i] == h'[i'])
    ensures Boundary(chars, h, i) <==> Boundary(chars, h', i')
  {
  }

  lemma OccursInContext(chars: Chars, tokens: seq<string>, before: string, after: string, seps: seq<string>)
    requires NonEmpty(tokens) && SepRuns(chars, tokens, seps)
    ensures Occurs(chars, tokens, before + Weave(tokens, seps) + after, |before|, |before| + |Weave(tokens, seps)|)
  {
    WeaveEnds(tokens, seps);
    InContext(before, Weave(tokens, seps), after);
  }

  /** Two stretches that begin and end with the same characters. */
  predicate EndAlike(w: string, w': string) {
    w != [] && w' != [] && w[0] == w'[0] && w[|w| - 1] == w'[|w'| - 1]
  }

  /** A stretch that begins and ends alike is bounded alike. */
  lemma ContextBoundaries(chars: Chars, before: string, w: string, w': string, after: string)
    requires EndAlike(w, w')
    ensures Boundary(chars, before + w + after, |before|) <==> Boundary(chars, before + w' + after, |before|)
    ensures Boundary(chars, before + w + after, |before| + |w|) <==> Boundary(chars, before + w' + after, |before| + |w'|)
  {
    InContext(before, w, after);
    InContext(before, w', after);
    SameBoundary(chars, before + w + after, |before|, before + w' + after, |before|);
    SameBoundary(chars, before + w + after, |before| + |w|, before + w' + after, |before| + |w'|);
  }

  lemma HitInContext(chars: Chars, tokens: seq<string>, before: string, w: string, w': string, after: string)
    requires EndAlike(w, w')
    requires Boundary(chars, before + w + after, |before|) && Boundary(chars, before + w + after, |before| + |w|)
    requires Occurs(chars, tokens, before + w' + after, |before|, |before| + |w'|)
    ensures Hit(chars, tokens, before + w' + after)
  {
    ContextBoundaries(chars, before, w, w', after);
  }

  lemma WeavesEndAlike(tokens: seq<string>, seps: seq<string>, seps': seq<string>)
    requires |seps| + 1 == |tokens| && |seps'| + 1 == |tokens| && NonEmpty(tokens)
    ensures EndAlike(Weave(tokens, seps), Weave(tokens, seps'))
  {
    WeaveEnds(tokens, seps);
    WeaveEnds(tokens, seps');
  }

  /** Rewriting the separator runs inside an occurrence in the offer keeps it a hit. */
  lemma OfferVariants(chars: Chars, tokens: seq<string>, before: string, after: string, seps: seq<string>, seps': seq<string>)
    requires NonEmpty(tokens)
    requires SepRuns(chars, tokens, seps) && SepRuns(chars, tokens, seps')
    requires var h := before + Weave(tokens, seps) + after;
             Boundary(chars, h, |before|) && Boundary(chars, h, |before| + |Weave(tokens, seps)|)
    ensures Hit(chars, tokens, before + Weave(tokens, seps') + after)
  {
    WeavesEndAlike(tokens, seps, seps');
    OccursInContext(chars, tokens, before, after, seps');
    HitInContext(chars, tokens, before, Weave(tokens, seps), Weave(tokens, seps'), after);
  }

  // ---------------------------------------------------------------- phrases that begin or end in a symbol

  /** A free-standing occurrence, with no word character on either side, is word-bounded exactly
      when the phrase itself begins and ends with a word character. */
  lemma FreeStandingOccurrence(chars: Chars, tokens: seq<string>, h: string, i: nat, j: nat)
    requires NonEmpty(tokens) && Occurs(chars, tokens, h, i, j)
    requires (i > 0 ==> !chars.word(h[i - 1])) && (j < |h| ==> !chars.word(h[j]))
    ensures Boundary(chars, h, i) && Boundary(chars, h, j)
       <==> chars.word(FirstChar(tokens)) && chars.word(LastChar(tokens))
  {
    OccurrenceEnds(chars, tokens, h, i, j);
  }

  /** A phrase that begins and ends with word characters is found exactly where it stands alone: "java"
      is not found inside "javascript". */
  lemma WordPhraseStandsAlone(chars: Chars, tokens: seq<string>, h: string)
    requires NonEmpty(tokens) && chars.word(FirstChar(tokens)) && chars.word(LastChar(tokens))
    ensures Search(chars, tokens, h) <==>
              exists i: nat, j: nat :: Occurs(chars, tokens, h, i, j) &&
                (i == 0 || !chars.word(h[i - 1])) && (j == |h| || !chars.word(h[j]))
  {
    SearchIffHit(chars, tokens, h);
    forall i: nat, j: nat | Occurs(chars, tokens, h, i, j)
      ensures Boundary(chars, h, i) <==> i == 0 || !chars.word(h[i - 1])
      ensures Boundary(chars, h, j) <==> j == |h| || !chars.word(h[j])
    {
      OccurrenceEnds(chars, tokens, h, i, j);
    }
  }

  /** So a phrase that ends in a symbol, such as "c++", is found only where a word character follows
      it at once; standing on its own it is never found. */
  lemma SymbolEndingNeedsWordAfter(chars: Chars, tokens: seq<string>, h: string)
    requires NonEmpty(tokens) && !chars.word(LastChar(tokens))
    ensures Search(chars, tokens, h) <==>
              exists i: nat, j: nat :: Occurs(chars, tokens, h, i, j) && Boundary(chars, h, i) && j < |h| && chars.word(h[j])
  {
    SearchIffHit(chars, tokens, h);
    forall i: nat, j: nat | Occurs(chars, tokens, h, i, j)
      ensures Boundary(chars, h, j) <==> j < |h| && chars.word(h[j])
    {
      OccurrenceEnds(chars, tokens, h, i, j);
    }
  }

  /** Likewise a phrase that begins with a symbol, such as ".net", is found only where a word
      character directly precedes it. */
  lemma SymbolBeginningNeedsWordBefore(chars: Chars, tokens: seq<string>, h: string)
    requires NonEmpty(tokens) && !chars.word(FirstChar(tokens))
    ensures Search(chars, tokens, h) <==>
              exists i: nat, j: nat :: Occurs(chars, tokens, h, i, j) && Boundary(chars, h, j) && i > 0 && chars.word(h[i - 1])
  {
    SearchIffHit(chars, tokens, h);
    forall i: nat, j: nat | Occurs(chars, tokens, h, i, j)
      ensures Boundary(chars, h, i) <==> i > 0 && chars.word(h[i - 1])
    {
      OccurrenceEnds(chars, tokens, h, i, j);
    }
  }

  /** So a required hard skill that ends in a symbol is not found in an offer, however often it is
      named there, as long as no word character directly follows any occurrence. */
  lemma SymbolSkillMissing(chars: Chars, skill: string, h: string)
    requires NonEmpty(Tokenize(chars, skill)) && !chars.word(LastChar(Tokenize(chars, skill)))
    requires forall i: nat, j: nat :: Occurs(chars, Tokenize(chars, skill), h, i, j) ==> j == |h| || !chars.word(h[j])
    ensures !PhraseFound(chars, skill, h)
  {
    SymbolEndingNeedsWordAfter(chars, Tokenize(chars, skill), h);
  }

  // ---------------------------------------------------------------- deal breakers and hard skills

  /** The phrase has a token and the haystack matches it. */
  predicate PhraseFound(chars: Chars, phrase: string, h: string) {
    Tokenize(chars, phrase) != [] && Search(chars, Tokenize(chars, phrase), h)
  }

  /** The k-th phrase is found and none before it is. */
  ghost predicate FirstFound(chars: Chars, phrases: seq<string>, h: string, k: nat) {
    k < |phrases| && PhraseFound(chars, phrases[k], h) && forall m :: 0 <= m < k ==> !PhraseFound(chars, phrases[m], h)
  }

  /** `_deal_breaker_hit`: the first deal breaker found. */
  method DealBreakerHit(chars: Chars, dealBreakers: seq<string>, h: string) returns (hit: Option<string>)
    ensures hit.None? <==> forall d :: d in dealBreakers ==> !PhraseFound(chars, d, h)
    ensures hit.Some? ==> exists k :: 0 <= k < |dealBreakers| && FirstFound(chars, dealBreakers, h, k) && dealBreakers[k] == hit.value
  {
    for k := 0 to |dealBreakers|
      invariant forall m :: 0 <= m < k ==> !PhraseFound(chars, dealBreakers[m], h)
    {
      var tokens := Tokenize(chars, dealBreakers[k]);
      if |tokens| == 0 { continue; }
      if Search(chars, tokens, h) {
        assert FirstFound(chars, dealBreakers, h, k) && dealBreakers[k] in dealBreakers;
        return Some(dealBreakers[k]);
      }
    }
    return None;
  }

  /** `_missing_hard_skills`: some hard skill is required and none is found. */
  method MissingHardSkills(chars: Chars, hardSkills: seq<string>, h: string) returns (missing: bool)
    ensures missing <==> hardSkills != [] && forall s :: s in hardSkills ==> !PhraseFound(chars, s, h)
  {
    if |hardSkills| == 0 { return false; }
    for k := 0 to |hardSkills|
      invariant forall m :: 0 <= m < k ==> !PhraseFound(chars, hardSkills[m], h)
    {
      var tokens := Tokenize(chars, hardSkills[k]);
      if |tokens| == 0 { continue; }
      if Search(chars, tokens, h) {
        assert PhraseFound(chars, hardSkills[k], h) && hardSkills[k] in hardSkills;
        return false;
      }
    }
    return true;
  }

  /** One token without separators tokenizes to itself. */
  lemma OneToken(chars: Chars, text: string)
    requires Solid(Separator(chars), text) && chars.folded(text) == text
    ensures Tokenize(chars, text) == [text]
  {
    SolidRun(Separator(chars), text, []);
    assert [] + text == text;
  }

  lemma OneTokenOccurs(chars: Chars, text: string, h: string, i: nat, j: nat)
    requires Occurs(chars, [text], h, i, j)
    ensures i <= j <= |h| && h[i..j] == text
  {
    var seps :| SepRuns(chars, [text], seps) && h[i..j] == Weave([text], seps);
  }

  /** What the witnesses below need of the character classes; `\s`, `\w` and `strip().lower()` do it. */
  ghost predicate AsciiLike(chars: Chars) {
    && (forall c :: 'a' <= c <= 'z' ==> chars.word(c) && !chars.space(c))
    && chars.space(' ') && !chars.word(' ')
    && (forall c :: c == '+' || c == '.' ==> !chars.word(c) && !chars.space(c))
    && chars.folded("c++") == "c++" && chars.folded(".net") == ".net"
  }

  /** ASCII letters, digits and white space, for texts already stripped and lower case. */
  function Ascii(): Chars {
    Chars((c: char) => c == ' ' || c == '\t' || c == '\n' || c == '\r',
          (c: char) => 'a' <= c <= 'z' || 'A' <= c <= 'Z' || '0' <= c <= '9' || c == '_',
          (s: string) => s)
  }

  lemma AsciiIsAsciiLike()
    ensures AsciiLike(Ascii())
  {
  }

  /** An offer that names "c++" in so many words does not have the skill "c++". */
  lemma CPlusPlusNotFound(chars: Chars)
    requires AsciiLike(chars)
    ensures !PhraseFound(chars, "c++", "we use c++ daily")
  {
    var h := "we use c++ daily";
    OneToken(chars, "c++");
    forall i: nat, j: nat | Occurs(chars, ["c++"], h, i, j)
      ensures j == |h| || !chars.word(h[j])
    {
      OneTokenOccurs(chars, "c++", h, i, j);
      assert h[i + 1] == h[i..j][1] == '+' && h[i + 2] == h[i..j][2] == '+';
      assert j == 10;
    }
    SymbolSkillMissing(chars, "c++", h);
  }

  /** Nor does one that names ".net" have that one. */
  lemma DotNetNotFound(chars: Chars)
    requires AsciiLike(chars)
    ensures !PhraseFound(chars, ".net", "we use .net daily")
  {
    var h := "we use .net daily";
    OneToken(chars, ".net");
    forall i: nat, j: nat | Occurs(chars, [".net"], h, i, j)
      ensures i == 0 || !chars.word(h[i - 1])
    {
      OneTokenOccurs(chars, ".net", h, i, j);
      assert h[i] == h[i..j][0] == '.';
      assert i == 7;
    }
    SymbolBeginningNeedsWordBefore(chars, [".net"], h);
  }

  /** Found means found as whole words: every token is a separator-free run, and the phrase has a
      word-bounded occurrence in the offer text. */
  lemma PhraseFoundIffHit(chars: Chars, phrase: string, h: string)
    ensures PhraseFound(chars, phrase, h) <==>
              Tokenize(chars, phrase) != [] && Hit(chars, Tokenize(chars, phrase), h)
    ensures forall t :: t in Tokenize(chars, phrase) ==> Solid(Separator(chars), t)
  {
    TokensAreSolid(Separator(chars), chars.folded(phrase), []);
    if Tokenize(chars, phrase) != [] { SearchIffHit(chars, Tokenize(chars, phrase), h); }
  }
}
