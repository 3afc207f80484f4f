/**
 * The per-word parts of the engine: the basic filter, the importance score
 * with its context window, the categoriser with its character-overlap
 * similarity, the confidence combiner and `analyzeWord`, as functions of
 * their inputs.  The methods in module Engine compute the same values the
 * way the source does (loops with `break`, an accumulating window scan, a
 * counting loop) and are proved equal to these functions.
 *
 * Scores are exact hundredths: 50 stands for 0.5.
 */
module Scoring {
  import opened Text
  import opened Seqs
  import opened Lexicon

  const BaseScore := 50
  const PatternBonus := 30
  const CapitalBonus := 20
  const DomainBonus := 25
  const CategoryBonus := 10
  const CommonPenalty := 30
  /** `analyzeWord`'s `confidence > 0.3` */
  const LinkThreshold := 30
  const WindowSize := 3

  function Max(a: int, b: int): int {
    if a < b then b else a
  }

  // ---------------------------------------------------------------- filter

  /** `/^[a-zA-Z]{2,}$/.test(word)` */
  predicate IsAlphaWord(word: string) {
    |word| >= 2 && AllLetters(word)
  }

  /** `passesBasicFilters(word)` */
  predicate PassesBasicFilters(word: string) {
    if !IsAlphaWord(word) then false
    else if word in StopWords then false
    else if |word| < 3 then false
    else if word in Pronouns then false
    else true
  }

  /** The filter admits exactly the stop-word-free words of at least three
      ASCII letters: every pronoun of the second list is a stop word already. */
  lemma FilterCharacterised(word: string)
    ensures PassesBasicFilters(word) <==> 3 <= |word| && AllLetters(word) && word !in StopWords
  {
    assert "he" in StopWords && "she" in StopWords && "it" in StopWords;
    assert "we" in StopWords && "they" in StopWords && "his" in StopWords;
    assert "her" in StopWords && "its" in StopWords && "our" in StopWords;
    if word in Pronouns {
      var k :| 0 <= k < |Pronouns| && Pronouns[k] == word;
    }
  }

  // ---------------------------------------------------------- importance

  function LengthBonus(n: nat): int {
    (if n > 6 then 20 else 0) + (if n > 9 then 10 else 0)
  }

  /** `/^[A-Z]/.test(token)` */
  predicate StartsUpper(token: string) {
    token != [] && IsUpper(token[0])
  }

  /** `word.includes(keyword) || keyword.includes(word)` */
  predicate Overlaps(word: string, keyword: string) {
    Contains(word, keyword) || Contains(keyword, word)
  }

  /** `keywords.some(keyword => word.includes(keyword) || keyword.includes(word))` */
  predicate SomeOverlap(word: string, keywords: seq<string>) {
    exists k :: 0 <= k < |keywords| && Overlaps(word, keywords[k])
  }

  /** Some domain's keyword list overlaps the word. */
  predicate DomainTerm(word: string) {
    exists d :: 0 <= d < |Domains| && SomeOverlap(word, Domains[d].1)
  }

  /** `words.includes(word)`, one entry at a time. */
  predicate ListedIn(word: string, words: seq<string>) {
    words != [] && (words[0] == word || ListedIn(word, words[1..]))
  }

  /** `patterns.some(pattern => pattern.test(word))`, one pattern at a time. */
  predicate SomeMatch(word: string, patterns: seq<Pattern>) {
    patterns != [] && (Matches(patterns[0], word) || SomeMatch(word, patterns[1..]))
  }

  /** `isImportantWord(word)` */
  predicate IsImportantWord(word: string) {
    ListedIn(word, ImportantWords) || SomeMatch(word, HighValuePatterns)
  }

  lemma {:induction false} ListedInMeans(word: string, words: seq<string>)
    ensures ListedIn(word, words) <==> word in words
  {
    if words != [] {
      ListedInMeans(word, words[1..]);
      assert words == [words[0]] + words[1..];
    }
  }

  lemma {:induction false} SomeMatchMeans(word: string, patterns: seq<Pattern>)
    ensures SomeMatch(word, patterns) <==> exists i :: 0 <= i < |patterns| && Matches(patterns[i], word)
  {
    if patterns != [] {
      SomeMatchMeans(word, patterns[1..]);
      if !Matches(patterns[0], word) && exists i :: 0 <= i < |patterns| && Matches(patterns[i], word) {
        var i :| 0 <= i < |patterns| && Matches(patterns[i], word);
        assert patterns[1..][i - 1] == patterns[i];
      }
      if SomeMatch(word, patterns[1..]) {
        var i :| 0 <= i < |patterns| - 1 && Matches(patterns[1..][i], word);
        assert patterns[i + 1] == patterns[1..][i];
      }
    }
  }

  /** A word is important exactly when it is one of the listed words or
      some high-value pattern matches it. */
  lemma IsImportantWordMeans(word: string)
    ensures IsImportantWord(word) <==> word in ImportantWords || AnyPattern(word)
  {
    ListedInMeans(word, ImportantWords);
    SomeMatchMeans(word, HighValuePatterns);
  }

  /** 1 if `tokens[i]` counts for the context score of `position`, otherwise 0. */
  function NeighbourFlag(tokens: seq<string>, position: int, i: nat): nat
    requires i < |tokens|
  {
    if i != position && IsImportantWord(Lower(tokens[i])) then 1 else 0
  }

  /** Number of important words among `tokens[lo..hi]`, the token at `position` left out. */
  function ImportantIn(tokens: seq<string>, position: int, lo: int, hi: int): (n: nat)
    requires 0 <= lo && (hi <= lo || hi <= |tokens|)
    ensures n <= Max(hi - lo, 0)
    decreases hi - lo
  {
    if hi <= lo then 0 else ImportantIn(tokens, position, lo, hi - 1) + NeighbourFlag(tokens, position, hi - 1)
  }

  /** First index of the ±3 window. */
  function WindowLo(position: int): nat {
    Max(0, position - WindowSize)
  }

  /** One past the last index of the ±3 window. */
  function WindowHi(position: int, n: nat): int
    ensures WindowHi(position, n) <= n
  {
    Min(n - 1, position + WindowSize) + 1
  }

  /** `getContextScore(position, allWords)`: 0.2 per important neighbour, at most 1.0. */
  function ContextScore(position: int, tokens: seq<string>): (r: int)
    ensures 0 <= r <= 100 && r % 20 == 0
  {
    Min(20 * ImportantIn(tokens, position, WindowLo(position), WindowHi(position, |tokens|)), 100)
  }

  lemma {:induction false} ImportantInFrame(t1: seq<string>, t2: seq<string>, position: int, lo: int, hi: int)
    requires 0 <= lo && hi <= |t1| && hi <= |t2|
    requires forall i :: lo <= i < hi && i != position ==> t1[i] == t2[i]
    ensures ImportantIn(t1, position, lo, hi) == ImportantIn(t2, position, lo, hi)
    decreases hi - lo
  {
    if lo < hi {
      ImportantInFrame(t1, t2, position, lo, hi - 1);
    }
  }

  /** The context score never looks at the token at `position` itself, nor at
      any token more than three places away from it. */
  lemma ContextScoreFrame(position: int, t1: seq<string>, t2: seq<string>)
    requires |t1| == |t2|
    requires forall i :: 0 <= i < |t1| && position - WindowSize <= i <= position + WindowSize && i != position ==>
               t1[i] == t2[i]
    ensures ContextScore(position, t1) == ContextScore(position, t2)
  {
    ImportantInFrame(t1, t2, position, WindowLo(position), WindowHi(position, |t1|));
  }

  /** `calculateImportance(word, position, allWords)` */
  function Importance(word: string, position: int, tokens: seq<string>): (r: int)
    ensures BaseScore <= r <= 100
  {
    Min(BaseScore
        + LengthBonus(|word|)
        + (if AnyPattern(word) then PatternBonus else 0)
        + (if 0 <= position < |tokens| && StartsUpper(tokens[position]) then CapitalBonus else 0)
        + (if DomainTerm(word) then DomainBonus else 0)
        + ContextScore(position, tokens) / 10,
        100)
  }

  // -------------------------------------------------------- categorising

  /** A JavaScript number the similarity can produce: `0 / 0` is NaN. */
  datatype Number = NaN | Num(value: real)

  /** How many characters of `shorter` occur somewhere in `longer`. */
  function CharMatches(shorter: string, longer: string): (m: nat)
    ensures m <= |shorter|
  {
    if shorter == [] then 0
    else CharMatches(shorter[..|shorter| - 1], longer) + (if shorter[|shorter| - 1] in longer then 1 else 0)
  }

  /** `semanticSimilarity(word1, word2)`; on equal lengths `word2` counts as the longer. */
  function Similarity(word1: string, word2: string): (r: Number)
    ensures r.NaN? <==> word1 == [] && word2 == []
    ensures r.Num? ==> 0.0 <= r.value <= 1.0
  {
    var longer := if |word1| > |word2| then word1 else word2;
    var shorter := if |word1| > |word2| then word2 else word1;
    if |longer| == 0 then NaN
    else
      var m := CharMatches(shorter, longer);
      RatioAtMostOne(m as real, |longer| as real);
      Num(m as real / |longer| as real)
  }

  lemma RatioAtMostOne(m: real, n: real)
    requires 0.0 <= m <= n && n > 0.0
    ensures 0.0 <= m / n <= 1.0
  {
    assert m / n * n == m;
  }

  /** `x > 0.7` for a JavaScript number: false for NaN. */
  predicate AboveSimilarityThreshold(x: Number) {
    x.Num? && x.value > 0.7
  }

  /** The test `categorizeWord` applies to one keyword. */
  predicate KeywordMatch(word: string, keyword: string) {
    Contains(word, keyword) || Contains(keyword, word) || AboveSimilarityThreshold(Similarity(word, keyword))
  }

  predicate DomainMatch(word: string, keywords: seq<string>) {
    exists k :: 0 <= k < |keywords| && KeywordMatch(word, keywords[k])
  }

  function CategorizeIn(word: string, domains: seq<(Category, seq<string>)>): Category {
    if domains == [] then General
    else if DomainMatch(word, domains[0].1) then domains[0].0
    else CategorizeIn(word, domains[1..])
  }

  /** `categorizeWord(word)` */
  function Categorize(word: string): Category {
    CategorizeIn(word, Domains)
  }

  lemma {:induction false} CategorizeInFirst(word: string, domains: seq<(Category, seq<string>)>)
    requires forall d :: 0 <= d < |domains| ==> domains[d].0 != General
    ensures CategorizeIn(word, domains) == General <==>
              forall d :: 0 <= d < |domains| ==> !DomainMatch(word, domains[d].1)
    ensures CategorizeIn(word, domains) != General ==>
              exists d :: 0 <= d < |domains| && domains[d].0 == CategorizeIn(word, domains)
                && DomainMatch(word, domains[d].1)
                && forall e :: 0 <= e < d ==> !DomainMatch(word, domains[e].1)
  {
    if domains != [] && !DomainMatch(word, domains[0].1) {
      CategorizeInFirst(word, domains[1..]);
      assert forall d :: 1 <= d < |domains| ==> domains[d] == domains[1..][d - 1];
      if CategorizeIn(word, domains) != General {
        var d :| 0 <= d < |domains[1..]| && domains[1..][d].0 == CategorizeIn(word, domains)
          && DomainMatch(word, domains[1..][d].1)
          && forall e :: 0 <= e < d ==> !DomainMatch(word, domains[1..][e].1);
        assert domains[d + 1].0 == CategorizeIn(word, domains);
        forall e | 0 <= e < d + 1
          ensures !DomainMatch(word, domains[e].1)
        {
          if e > 0 { assert domains[e] == domains[1..][e - 1]; }
        }
      }
    }
  }

  /** The category is `general` exactly when no domain has a matching keyword,
      and otherwise the first domain, in table order, that has one. */
  lemma CategorizeFirstMatch(word: string)
    ensures Categorize(word) == General <==>
              forall d :: 0 <= d < |Domains| ==> !DomainMatch(word, Domains[d].1)
    ensures Categorize(word) != General ==>
              exists d :: 0 <= d < |Domains| && Domains[d].0 == Categorize(word)
                && DomainMatch(word, Domains[d].1)
                && forall e :: 0 <= e < d ==> !DomainMatch(word, Domains[e].1)
  {
    CategorizeInFirst(word, Domains);
  }

  /** A word that earns the domain bonus is never categorised `general`. */
  lemma DomainTermHasCategory(word: string)
    requires DomainTerm(word)
    ensures Categorize(word) != General
  {
    var d :| 0 <= d < |Domains| && SomeOverlap(word, Domains[d].1);
    var k :| 0 <= k < |Domains[d].1| && Overlaps(word, Domains[d].1[k]);
    assert KeywordMatch(word, Domains[d].1[k]);
    CategorizeFirstMatch(word);
  }

  // ----------------------------------------------------------- confidence

  function Clamp(x: int): (r: int)
    ensures 0 <= r <= 100
    ensures 0 <= x <= 100 ==> r == x
  {
    Max(0, Min(100, x))
  }

  /** `calculateConfidence(word, importance, category)` */
  function Confidence(word: string, importance: int, category: Category): (r: int)
    ensures 0 <= r <= 100
  {
    Clamp(importance
          + (if category != General then CategoryBonus else 0)
          - (if word in CommonWords then CommonPenalty else 0))
  }

  // -------------------------------------------------------------- analysis

  /** What `analyzeWord` returns: `{ isLinkable: false }` or the full record. */
  datatype Analysis =
    | Rejected
    | Scored(isLinkable: bool, importance: int, category: Category, confidence: int)

  /** `analyzeWord(word, position, allWords)` */
  function Analyze(word: string, position: int, tokens: seq<string>): (a: Analysis)
    ensures a.Scored? <==> PassesBasicFilters(Trim(Lower(word)))
    ensures a.Scored? ==> BaseScore <= a.importance <= 100 && 0 <= a.confidence <= 100
    ensures a.Scored? ==> (a.isLinkable <==> a.confidence > LinkThreshold)
  {
    var clean := Trim(Lower(word));
    if !PassesBasicFilters(clean) then Rejected
    else
      var importance := Importance(clean, position, tokens);
      var category := Categorize(clean);
      var confidence := Confidence(clean, importance, category);
      Scored(confidence > LinkThreshold, importance, category, confidence)
  }

  /** A word that passes the filter is linkable unless it is one of the
      over-common verbs; a common verb needs its boosted importance above 0.6. */
  lemma LinkableUnlessCommon(word: string, position: int, tokens: seq<string>)
    requires PassesBasicFilters(Trim(Lower(word)))
    ensures Analyze(word, position, tokens).isLinkable <==>
              var clean := Trim(Lower(word));
              clean !in CommonWords
              || Importance(clean, position, tokens) + (if Categorize(clean) != General then CategoryBonus else 0) > 60
  {
  }
}
