/**
 * The methods of `SmartLinkingEngine` that compute step by step: loops with
 * `break`, an accumulating window scan, a counting loop, the candidate loop
 * of `processText` and the lookup-filling `forEach` of `generateSmartLinks`.
 * Each is proved to compute the function of modules Scoring, Ranking and
 * Linking that states what it means.
 */
module Engine {
  import opened Text
  import opened Seqs
  import opened Tokenizer
  import opened Lexicon
  import opened Scoring
  import opened Ranking
  import opened Linking

  /** `getContextScore(position, allWords)` */
  method GetContextScore(position: int, allWords: seq<string>) returns (contextScore: int)
    ensures contextScore == ContextScore(position, allWords)
  {
    var lo := Max(0, position - WindowSize);
    var hi := Min(|allWords| - 1, position + WindowSize) + 1;
    contextScore := ScanWindow(position, allWords, lo, hi);
    contextScore := Min(contextScore, 100);
  }

  /** The loop of `getContextScore`: 0.2 for every important word in
      `allWords[lo..hi]` other than the one at `position`. */
  method ScanWindow(position: int, allWords: seq<string>, lo: nat, hi: int) returns (contextScore: int)
    requires hi <= |allWords|
    ensures contextScore == 20 * ImportantIn(allWords, position, lo, hi)
  {
    contextScore := 0;
    var i := lo;
    while i < hi
      invariant i == lo || lo <= i <= hi
      invariant contextScore == 20 * ImportantIn(allWords, position, lo, i)
      decreases hi - i
    {
      ImportantInStep(allWords, position, lo, i);
      if i != position {
        var contextWord := Lower(allWords[i]);
        if IsImportantWord(contextWord) {
          contextScore := contextScore + 20;
        }
      }
      i := i + 1;
    }
  }

  lemma ImportantInStep(tokens: seq<string>, position: int, lo: nat, i: nat)
    requires lo <= i < |tokens|
    ensures ImportantIn(tokens, position, lo, i + 1)
            == ImportantIn(tokens, position, lo, i) + (if i != position && IsImportantWord(Lower(tokens[i])) then 1 else 0)
  {
  }

  /** `calculateImportance(word, position, allWords)`: each bonus loop stops
      at its first hit, so the pattern and domain bonuses count once. */
  method CalculateImportance(word: string, position: int, allWords: seq<string>) returns (score: int)
    ensures score == Importance(word, position, allWords)
  {
    score := BaseScore;
    if |word| > 6 { score := score + 20; }
    if |word| > 9 { score := score + 10; }
    ghost var afterLength := score;

    var p := 0;
    while p < |HighValuePatterns|
      invariant 0 <= p <= |HighValuePatterns|
      invariant forall j :: 0 <= j < p ==> !Matches(HighValuePatterns[j], word)
      invariant score == afterLength
    {
      if Matches(HighValuePatterns[p], word) {
        score := score + PatternBonus;
        break;
      }
      p := p + 1;
    }
    assert score == afterLength + (if AnyPattern(word) then PatternBonus else 0);

    if 0 <= position < |allWords| && StartsUpper(allWords[position]) {
      score := score + CapitalBonus;
    }
    ghost var afterCapital := score;

    var d := 0;
    while d < |Domains|
      invariant 0 <= d <= |Domains|
      invariant forall e :: 0 <= e < d ==> !SomeOverlap(word, Domains[e].1)
      invariant score == afterCapital
    {
      if SomeOverlap(word, Domains[d].1) {
        score := score + DomainBonus;
        break;
      }
      d := d + 1;
    }
    assert score == afterCapital + (if DomainTerm(word) then DomainBonus else 0);

    var contextScore := GetContextScore(position, allWords);
    score := score + contextScore / 10;
    score := Min(score, 100);
  }

  /** `semanticSimilarity(word1, word2)` */
  method SemanticSimilarity(word1: string, word2: string) returns (similarity: Number)
    ensures similarity == Similarity(word1, word2)
  {
    var longer := if |word1| > |word2| then word1 else word2;
    var shorter := if |word1| > |word2| then word2 else word1;
    var matches := 0;
    for i := 0 to |shorter|
      invariant matches == CharMatches(shorter[..i], longer)
    {
      assert shorter[..i + 1][..i] == shorter[..i];
      if shorter[i] in longer {
        matches := matches + 1;
      }
    }
    assert shorter[..|shorter|] == shorter;
    if |longer| == 0 {
      similarity := NaN;
    } else {
      similarity := Num(matches as real / |longer| as real);
    }
  }

  /** `categorizeWord(word)`: the domains in table order, each one tested
      with `keywords.some(...)`; the first domain with a match is returned. */
  method CategorizeWord(word: string) returns (category: Category)
    ensures category == Categorize(word)
  {
    var d := 0;
    while d < |Domains|
      invariant 0 <= d <= |Domains|
      invariant CategorizeIn(word, Domains[d..]) == Categorize(word)
    {
      var found := SomeKeywordMatches(word, Domains[d].1);
      if found {
        return Domains[d].0;
      }
      assert Domains[d..][1..] == Domains[d + 1..];
      d := d + 1;
    }
    return General;
  }

  /** `keywords.some(keyword => ...)` in `categorizeWord`: stops at the first
      keyword the word contains, is contained in or is similar to. */
  method SomeKeywordMatches(word: string, keywords: seq<string>) returns (found: bool)
    ensures found <==> DomainMatch(word, keywords)
  {
    found := false;
    var k := 0;
    while k < |keywords| && !found
      invariant 0 <= k <= |keywords|
      invariant found <==> exists j :: 0 <= j < k && KeywordMatch(word, keywords[j])
    {
      var similarity := SemanticSimilarity(word, keywords[k]);
      if Contains(word, keywords[k]) || Contains(keywords[k], word) || AboveSimilarityThreshold(similarity) {
        found := true;
      }
      k := k + 1;
    }
  }

  /** `analyzeWord(word, position, allWords)` */
  method AnalyzeWord(word: string, position: int, allWords: seq<string>) returns (analysis: Analysis)
    ensures analysis == Analyze(word, position, allWords)
  {
    var cleanWord := Trim(Lower(word));
    if !PassesBasicFilters(cleanWord) {
      return Rejected;
    }
    var importance := CalculateImportance(cleanWord, position, allWords);
    var category := CategorizeWord(cleanWord);
    var confidence := Confidence(cleanWord, importance, category);
    analysis := Scored(confidence > LinkThreshold, importance, category, confidence);
  }

  /** `processText(text, excludedWords)`: one pass over the tokens pushing
      the record of every linkable, non-excluded one, then the ranking. */
  method ProcessText(text: string, excludedWords: seq<string>) returns (result: seq<LinkableWord>)
    ensures result == LinkableWords(text, excludedWords)
  {
    var words := Tokenize(text);
    var linkableWords: seq<LinkableWord> := [];
    for i := 0 to |words|
      invariant linkableWords == CandidatesUpTo(Analyze, words, excludedWords, i)
    {
      var word := words[i];
      var analysis := AnalyzeWord(word, i, words);
      if analysis.Scored? && analysis.isLinkable && Lower(word) !in excludedWords {
        linkableWords := linkableWords + [LinkableWord(word, i, analysis.importance, analysis.category, analysis.confidence)];
      }
    }
    result := RankAndFilter(linkableWords);
  }

  /** The `linkableData.forEach(...)` of `generateSmartLinks`. */
  method FillLookup(linkableData: seq<LinkableWord>) returns (linkableMap: map<string, LinkableWord>)
    ensures linkableMap == Lookup(linkableData)
  {
    linkableMap := map[];
    for k := 0 to |linkableData|
      invariant linkableMap == Lookup(linkableData[..k])
    {
      assert linkableData[..k + 1][..k] == linkableData[..k];
      linkableMap := linkableMap[Lower(linkableData[k].word) := linkableData[k]];
    }
    assert linkableData[..|linkableData|] == linkableData;
  }

  /** `generateSmartLinks(text, onWordClick, loadingWord)`: the lookup is
      filled record by record, then every token is decided. */
  method GenerateSmartLinks(text: string, loadingWord: string) returns (decisions: seq<LinkDecision>)
    ensures decisions == SmartLinks(text, loadingWord)
  {
    var tokens := Tokenize(text);
    var linkableData := ProcessText(text, []);
    var linkableMap := FillLookup(linkableData);
    decisions := DecideAll(tokens, linkableMap, loadingWord);
  }
}
