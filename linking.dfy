/**
 * `processText` and `generateSmartLinks` as functions: the candidate list
 * the per-token loop builds, the lookup the `forEach` fills, and the
 * decision taken for every token of the text.  The rendered markup is
 * reduced to a `LinkDecision` per token: plain text, or a link with the
 * category, confidence, styling class and "active" highlight it carries.
 */
module Linking {
  import opened Text
  import opened Seqs
  import opened Tokenizer
  import opened Lexicon
  import opened Scoring
  import opened Ranking

  // ----------------------------------------------------------- candidates

  /** `analyzeWord` as a value: the candidate loop is stated for any analyser. */
  type Analyzer = (string, int, seq<string>) -> Analysis

  /** The test `processText` applies to token `i`: linkable, and its
      lower-cased (untrimmed) form is not one of the excluded words. */
  predicate Selected(analyze: Analyzer, words: seq<string>, excluded: seq<string>, i: nat)
    requires i < |words|
  {
    var a := analyze(words[i], i, words);
    a.Scored? && a.isLinkable && Lower(words[i]) !in excluded
  }

  /** The record pushed for token `i`. */
  function RecordAt(analyze: Analyzer, words: seq<string>, i: nat): LinkableWord
    requires i < |words| && analyze(words[i], i, words).Scored?
  {
    var a := analyze(words[i], i, words);
    LinkableWord(words[i], i, a.importance, a.category, a.confidence)
  }

  /** `w` is the record of a token that the candidate test accepts. */
  predicate IsCandidate(analyze: Analyzer, words: seq<string>, excluded: seq<string>, w: LinkableWord) {
    && w.position < |words|
    && Selected(analyze, words, excluded, w.position)
    && w == RecordAt(analyze, words, w.position)
  }

  /** The candidates among the first `n` tokens, in token order. */
  function CandidatesUpTo(analyze: Analyzer, words: seq<string>, excluded: seq<string>, n: nat): (r: seq<LinkableWord>)
    requires n <= |words|
    ensures |r| <= n
    ensures forall k :: 0 <= k < |r| ==> r[k].position < n && IsCandidate(analyze, words, excluded, r[k])
    ensures forall j, k :: 0 <= j < k < |r| ==> r[j].position < r[k].position
  {
    if n == 0 then []
    else
      var r := CandidatesUpTo(analyze, words, excluded, n - 1);
      if Selected(analyze, words, excluded, n - 1) then r + [RecordAt(analyze, words, n - 1)] else r
  }

  /** The array `processText` hands to `rankAndFilterWords`. */
  function Candidates(analyze: Analyzer, words: seq<string>, excluded: seq<string>): seq<LinkableWord> {
    CandidatesUpTo(analyze, words, excluded, |words|)
  }

  /** No accepted token is skipped. */
  lemma {:induction false} CandidatesComplete(analyze: Analyzer, words: seq<string>, excluded: seq<string>, n: nat, i: nat)
    requires i < n <= |words| && Selected(analyze, words, excluded, i)
    ensures exists k :: 0 <= k < |CandidatesUpTo(analyze, words, excluded, n)| && CandidatesUpTo(analyze, words, excluded, n)[k].position == i
  {
    var r := CandidatesUpTo(analyze, words, excluded, n - 1);
    var full := CandidatesUpTo(analyze, words, excluded, n);
    if i == n - 1 {
      assert full == r + [RecordAt(analyze, words, n - 1)];
      assert full[|r|].position == i;
    } else {
      CandidatesComplete(analyze, words, excluded, n - 1, i);
      CandidatesGrow(analyze, words, excluded, n);
      var k :| 0 <= k < |r| && r[k].position == i;
      assert full[k] == r[k];
    }
  }

  lemma CandidatesGrow(analyze: Analyzer, words: seq<string>, excluded: seq<string>, n: nat)
    requires 0 < n <= |words|
    ensures CandidatesUpTo(analyze, words, excluded, n - 1) <= CandidatesUpTo(analyze, words, excluded, n)
  {
  }

  /** What every candidate carries: it passed the word filter, and its
      scores are the ones `analyzeWord` computed, above the link threshold. */
  lemma CandidateFacts(words: seq<string>, excluded: seq<string>, w: LinkableWord)
    requires IsCandidate(Analyze, words, excluded, w)
    ensures w.word == words[w.position] && Lower(w.word) !in excluded
    ensures PassesBasicFilters(Trim(Lower(w.word)))
    ensures w.importance == Importance(Trim(Lower(w.word)), w.position, words)
    ensures w.category == Categorize(Trim(Lower(w.word)))
    ensures LinkThreshold < w.confidence <= 100
  {
    var a := Analyze(words[w.position], w.position, words);
    assert a.Scored? && a.isLinkable;
  }

  /** `processText(text, excludedWords)`: the ranked and filtered candidates. */
  function LinkableWords(text: string, excluded: seq<string>): (r: seq<LinkableWord>)
    ensures |r| <= MaxLinks(|Candidates(Analyze, Tokenize(text), excluded)|)
    ensures SortedDesc(r, ConfidenceOf)
    ensures forall w :: w in r ==> IsCandidate(Analyze, Tokenize(text), excluded, w) && AboveFloor(w)
  {
    var candidates := Candidates(Analyze, Tokenize(text), excluded);
    assert forall w :: w in candidates ==> IsCandidate(Analyze, Tokenize(text), excluded, w);
    RankAndFilter(candidates)
  }

  // --------------------------------------------------------------- lookup

  /** The `Map` filled by `linkableData.forEach`: a later record with the
      same lower-cased word replaces an earlier one. */
  function Lookup(items: seq<LinkableWord>): map<string, LinkableWord> {
    if items == [] then map[]
    else
      var last := items[|items| - 1];
      Lookup(items[..|items| - 1])[Lower(last.word) := last]
  }

  /** The index of the last record whose lower-cased word is `key`, or -1. */
  function LastWith(items: seq<LinkableWord>, key: string): (k: int)
    ensures -1 <= k < |items|
    ensures 0 <= k ==> Lower(items[k].word) == key
    ensures forall j :: k < j < |items| ==> Lower(items[j].word) != key
  {
    if items == [] then -1
    else if Lower(items[|items| - 1].word) == key then |items| - 1
    else
      var k := LastWith(items[..|items| - 1], key);
      assert forall j :: k < j < |items| - 1 ==> items[j] == items[..|items| - 1][j];
      k
  }

  /** The lookup holds a key exactly when some record has that lower-cased
      word, and maps it to the last such record. */
  lemma {:induction false} LookupLastWins(items: seq<LinkableWord>, key: string)
    ensures key in Lookup(items) <==> LastWith(items, key) >= 0
    ensures key in Lookup(items) ==> Lookup(items)[key] == items[LastWith(items, key)]
  {
    if items != [] {
      var init := items[..|items| - 1];
      LookupLastWins(init, key);
      if Lower(items[|items| - 1].word) != key && LastWith(init, key) >= 0 {
        assert items[LastWith(init, key)] == init[LastWith(init, key)];
      }
    }
  }

  // -------------------------------------------------------------- styling

  /** The three styling classes of `getWordStyling`. */
  datatype Styling = HighImportance | MediumImportance | Standard

  /** `getWordStyling(importance, category)`: the category is not consulted. */
  function WordStyling(importance: int): (s: Styling)
    ensures s == HighImportance <==> importance > 80
    ensures s == MediumImportance <==> 60 < importance <= 80
    ensures s == Standard <==> importance <= 60
  {
    if importance > 80 then HighImportance
    else if importance > 60 then MediumImportance
    else Standard
  }

  function StylingRank(s: Styling): nat {
    match s
    case Standard => 0
    case MediumImportance => 1
    case HighImportance => 2
  }

  /** A more important word never gets a weaker styling class. */
  lemma StylingMonotone(a: int, b: int)
    requires a <= b
    ensures StylingRank(WordStyling(a)) <= StylingRank(WordStyling(b))
  {
  }

  // ------------------------------------------------------------ decisions

  /** What `generateSmartLinks` renders for one token. */
  datatype LinkDecision =
    | PassThrough(text: string)
    | Link(text: string, category: Category, confidence: int, styling: Styling, active: bool)

  /** The callback of `tokens.map`. */
  function Decide(token: string, lookup: map<string, LinkableWord>, loadingWord: string): LinkDecision {
    var clean := Trim(Lower(token));
    if clean in lookup && IsAlphaWord(token) then
      var data := lookup[clean];
      Link(token, data.category, data.confidence, WordStyling(data.importance), loadingWord == token)
    else PassThrough(token)
  }

  /** `tokens.map(...)` */
  function DecideAll(tokens: seq<string>, lookup: map<string, LinkableWord>, loadingWord: string): (r: seq<LinkDecision>)
    ensures |r| == |tokens|
    ensures forall i :: 0 <= i < |tokens| ==> r[i] == Decide(tokens[i], lookup, loadingWord)
  {
    if tokens == [] then []
    else [Decide(tokens[0], lookup, loadingWord)] + DecideAll(tokens[1..], lookup, loadingWord)
  }

  /** The rendered text, span after span. */
  function Texts(ds: seq<LinkDecision>): string {
    if ds == [] then [] else ds[0].text + Texts(ds[1..])
  }

  /** `generateSmartLinks(text, onWordClick, loadingWord)`: the candidates are
      computed with no excluded words. */
  function SmartLinks(text: string, loadingWord: string): seq<LinkDecision> {
    DecideAll(Tokenize(text), Lookup(LinkableWords(text, [])), loadingWord)
  }

  // ---------------------------------------------------- what it promises

  lemma {:induction false} TextsOfDecisions(tokens: seq<string>, lookup: map<string, LinkableWord>, loadingWord: string)
    ensures Texts(DecideAll(tokens, lookup, loadingWord)) == Concat(tokens)
  {
    if tokens != [] {
      TextsOfDecisions(tokens[1..], lookup, loadingWord);
    }
  }

  /** One span per token, and the spans spell out the text unchanged. */
  lemma SmartLinksLossless(text: string, loadingWord: string)
    ensures |SmartLinks(text, loadingWord)| == |Tokenize(text)|
    ensures Texts(SmartLinks(text, loadingWord)) == text
  {
    TextsOfDecisions(Tokenize(text), Lookup(LinkableWords(text, [])), loadingWord);
  }

  /** A word of letters only is its own trim, after lower-casing too. */
  lemma TrimLowerOfLetters(token: string)
    requires AllLetters(token)
    ensures Trim(Lower(token)) == Lower(token)
    ensures AllLetters(Lower(token))
  {
    forall i | 0 <= i < |token|
      ensures !IsWhitespace(Lower(token)[i]) && IsLetter(Lower(token)[i])
    {
      LowerAt(token, i);
    }
    TrimNoWhitespace(Lower(token));
  }

  /** A record with lower-cased word `key` exists exactly when `LastWith`
      finds one. */
  lemma LastWithFound(items: seq<LinkableWord>, key: string)
    ensures 0 <= LastWith(items, key) <==> exists w :: w in items && Lower(w.word) == key
  {
    var k := LastWith(items, key);
    if 0 <= k {
      assert items[k] in items;
    }
  }

  /** With any records behind the lookup, a token becomes a link exactly
      when it is two or more ASCII letters and some record has its
      lower-cased form. */
  lemma DecideLinkIff(token: string, items: seq<LinkableWord>, loadingWord: string)
    ensures Decide(token, Lookup(items), loadingWord).Link? <==>
              IsAlphaWord(token) && 0 <= LastWith(items, Lower(token))
  {
    if IsAlphaWord(token) {
      TrimLowerOfLetters(token);
      LookupLastWins(items, Lower(token));
    }
  }

  /** A link carries the data of the last record with the token's
      lower-cased form, and is active exactly for the loading word. */
  lemma DecideLinkData(token: string, items: seq<LinkableWord>, loadingWord: string)
    requires Decide(token, Lookup(items), loadingWord).Link?
    ensures 0 <= LastWith(items, Lower(token))
    ensures Decide(token, Lookup(items), loadingWord) ==
              var w := items[LastWith(items, Lower(token))];
              Link(token, w.category, w.confidence, WordStyling(w.importance), loadingWord == token)
  {
    TrimLowerOfLetters(token);
    LookupLastWins(items, Lower(token));
  }

  /** Token `i` of the text becomes a link exactly when it is two or more
      ASCII letters and some selected record has the same lower-cased form. */
  lemma LinkIff(text: string, loadingWord: string, i: nat)
    requires i < |Tokenize(text)|
    ensures var token := Tokenize(text)[i];
      SmartLinks(text, loadingWord)[i].Link? <==>
        IsAlphaWord(token) && exists w :: w in LinkableWords(text, []) && Lower(w.word) == Lower(token)
  {
    var token := Tokenize(text)[i];
    DecideLinkIff(token, LinkableWords(text, []), loadingWord);
    LastWithFound(LinkableWords(text, []), Lower(token));
  }

  /** A link is drawn from a selected record with the token's lower-cased
      form: it shows that record's category, confidence and importance
      class, and is active exactly when the loading word is the token. */
  lemma LinkData(text: string, loadingWord: string, i: nat)
    requires i < |Tokenize(text)| && SmartLinks(text, loadingWord)[i].Link?
    ensures var token := Tokenize(text)[i];
      exists w :: w in LinkableWords(text, []) && Lower(w.word) == Lower(token)
        && SmartLinks(text, loadingWord)[i]
           == Link(token, w.category, w.confidence, WordStyling(w.importance), loadingWord == token)
  {
    var token := Tokenize(text)[i];
    var items := LinkableWords(text, []);
    DecideLinkData(token, items, loadingWord);
    assert items[LastWith(items, Lower(token))] in items;
  }

  /** The linked form passes the word filter and the link's confidence is
      above the quality floor. */
  lemma LinkQuality(text: string, loadingWord: string, i: nat)
    requires i < |Tokenize(text)| && SmartLinks(text, loadingWord)[i].Link?
    ensures PassesBasicFilters(Lower(Tokenize(text)[i]))
    ensures QualityFloor < SmartLinks(text, loadingWord)[i].confidence <= 100
  {
    var token := Tokenize(text)[i];
    var items := LinkableWords(text, []);
    DecideLinkData(token, items, loadingWord);
    var w := items[LastWith(items, Lower(token))];
    assert w in items;
    CandidateFacts(Tokenize(text), [], w);
    TrimLowerOfLetters(token);
  }

  /** Every occurrence of a linked form is linked, with the same data:
      the lookup does not remember which occurrence was selected. */
  lemma SameFormSameLink(text: string, loadingWord: string, i: nat, j: nat)
    requires i < |Tokenize(text)| && j < |Tokenize(text)|
    requires Lower(Tokenize(text)[i]) == Lower(Tokenize(text)[j])
    requires IsAlphaWord(Tokenize(text)[i]) && IsAlphaWord(Tokenize(text)[j])
    ensures var r := SmartLinks(text, loadingWord);
      r[i].Link? == r[j].Link?
      && (r[i].Link? ==> r[i].category == r[j].category && r[i].confidence == r[j].confidence
                          && r[i].styling == r[j].styling)
  {
    DecideAllSameForm(Tokenize(text), Lookup(LinkableWords(text, [])), loadingWord, i, j);
  }

  lemma DecideAllSameForm(tokens: seq<string>, lookup: map<string, LinkableWord>, loadingWord: string, i: nat, j: nat)
    requires i < |tokens| && j < |tokens|
    requires Lower(tokens[i]) == Lower(tokens[j]) && IsAlphaWord(tokens[i]) && IsAlphaWord(tokens[j])
    ensures var r := DecideAll(tokens, lookup, loadingWord);
      r[i].Link? == r[j].Link?
      && (r[i].Link? ==> r[i].category == r[j].category && r[i].confidence == r[j].confidence
                          && r[i].styling == r[j].styling)
  {
    DecideSameForm(tokens[i], tokens[j], lookup, loadingWord);
  }

  lemma DecideSameForm(t1: string, t2: string, lookup: map<string, LinkableWord>, loadingWord: string)
    requires Lower(t1) == Lower(t2) && IsAlphaWord(t1) && IsAlphaWord(t2)
    ensures var d1, d2 := Decide(t1, lookup, loadingWord), Decide(t2, lookup, loadingWord);
      d1.Link? == d2.Link?
      && (d1.Link? ==> d1.category == d2.category && d1.confidence == d2.confidence && d1.styling == d2.styling)
  {
  }

  /** The lookup does not count links: records that all share one
      lower-cased form, however few, link every alphabetic token of that
      form, however many there are. */
  lemma LinksBeyondCap(tokens: seq<string>, items: seq<LinkableWord>, key: string, loadingWord: string)
    requires items != []
    requires forall j :: 0 <= j < |items| ==> Lower(items[j].word) == key
    requires forall i :: 0 <= i < |tokens| ==> IsAlphaWord(tokens[i]) && Lower(tokens[i]) == key
    ensures forall i :: 0 <= i < |tokens| ==> DecideAll(tokens, Lookup(items), loadingWord)[i].Link?
  {
    forall i | 0 <= i < |tokens| ensures DecideAll(tokens, Lookup(items), loadingWord)[i].Link? {
      DecideLinkIff(tokens[i], items, loadingWord);
      assert Lower(items[|items| - 1].word) == Lower(tokens[i]);
    }
  }

  /** A text none of whose tokens passes the word filter gets no link. */
  lemma NoCandidateNoLink(text: string, loadingWord: string)
    requires forall i :: 0 <= i < |Tokenize(text)| ==> !PassesBasicFilters(Trim(Lower(Tokenize(text)[i])))
    ensures forall d :: d in SmartLinks(text, loadingWord) ==> d.PassThrough?
  {
    var r := SmartLinks(text, loadingWord);
    forall i | 0 <= i < |r| ensures r[i].PassThrough? {
      LinkedPasses(text, loadingWord, i);
    }
  }

  lemma LinkedPasses(text: string, loadingWord: string, i: nat)
    requires i < |Tokenize(text)|
    ensures SmartLinks(text, loadingWord)[i].Link? ==> PassesBasicFilters(Trim(Lower(Tokenize(text)[i])))
  {
    if SmartLinks(text, loadingWord)[i].Link? {
      LinkQuality(text, loadingWord, i);
      TrimLowerOfLetters(Tokenize(text)[i]);
    }
  }

  /** The empty text renders as one empty plain span. */
  lemma EmptyText(loadingWord: string)
    ensures SmartLinks("", loadingWord) == [PassThrough("")]
  {
    var tokens := Tokenize("");
    assert tokens == [""];
    assert !IsAlphaWord(tokens[0]);
  }
}
