# Infinite Wiki: smart linking and search history, modelled in Dafny

Infinite Wiki displays an explanation of a word and turns the words of that
explanation into links to further explanations. Two utilities decide what a
reader sees. This project models both and proves what they promise.

- **The smart-linking engine** works in several steps:
  - it splits the text into tokens;
  - it scores every token: a word filter, an importance score with a
    ±3-token context window, a domain category found by keyword overlap or
    character similarity, and a confidence;
  - it keeps the linkable tokens that are not excluded, ranks them by
    confidence with a stable sort, cuts the list to the best 70% (rounded
    up) and drops those at 0.4 or below;
  - for every token it then decides whether the token is rendered as a link
    and with what data.
- **The search history** is a list of at most 100 entries, newest first.
  Each entry holds a word, the first 500 characters of its explanation, a
  timestamp and an id. Recording a word moves it to the front. The history
  can be cleared, counted, listed, searched, ranked by frequency and
  previewed.

Scores are exact integer hundredths: 50 stands for 0.5. Each step of the
scoring adds a fixed number of hundredths, so every threshold test in the
source (`> 0.3`, `> 0.4`, `> 0.6`, `> 0.8`) becomes an integer comparison.
The sort by confidence does not carry over that way (see "## Left out").
The 70% cap `Math.ceil(n * 0.7)` becomes `(7n + 9) / 10`.
`semanticSimilarity` is a real ratio or NaN, as in JavaScript.

Modules:

- `Text`: ASCII lower-casing, ECMAScript whitespace, `trim` and `includes`.
- `Seqs`: filter, `slice(0, end)` including a negative `end`, and a stable
  descending insertion sort with its permutation, stability and
  distinctness lemmas.
- `Tokenizer`: the capturing `split` of `tokenizeText`.
- `Lexicon`: the constant tables of the engine's constructor.
- `Scoring`: the per-word analysis, as functions.
- `Ranking`: `rankAndFilterWords`.
- `Linking`: the candidate list of `processText`, the lookup `Map` and the
  per-token decisions of `generateSmartLinks`.
- `Engine`: the source's loops as methods. Each is proved to compute the
  matching function above.
- `History`: the stored list, the read-only queries as functions of it, and
  a class `SearchHistory` whose methods update it or count over it.

`generateSmartLinks` returns React elements. Here it returns one
`LinkDecision` per token instead:

- `PassThrough(text)` for a plain span;
- `Link(text, category, confidence, styling, active)` for a link, where
  `active` is the source's `loadingWord === token` highlight.

`Date.now()` becomes a parameter `now`. The browser's `localStorage` becomes
the field `history` of the class.

Where the code does something a reader might not expect, the model follows
the code:

- `split` with a capturing group produces empty pieces between adjacent
  separators, and `""` splits into `[""]`. They are tokens here too.
- `generateSmartLinks` calls `processText(text)` with no excluded words.
- The active test compares the loading word with the token exactly,
  including case.
- The lookup keeps one record per lower-cased word. Every occurrence of that
  form becomes a link, not only the occurrence that was ranked
  (`Linking.SameFormSameLink`). Records that share one lower-cased form link
  every alphabetic token of that form, however many there are
  (`Linking.LinksBeyondCap`), while the cap is below the number of
  candidates from four candidates on (`Ranking.CapBelowCount`). So the
  number of links can exceed the 70% cap.
- The capitalised `-ism`/`-ology`/`-graphy` patterns are tested against
  lower-cased words and can never match (`Lexicon.CapitalPatternsNeedUpper`).
- The context window counts every token, including whitespace and
  punctuation tokens.

## Model

| member | source | states |
|---|---|---|
| Text.TrimEmpty | src/app/utils/searchHistory.js:66-68 | a trimmed query is empty exactly when the query is all whitespace |
| Text.IsWhitespace | src/app/utils/smartLinking.js:90 | the characters `trim` removes: the ECMAScript whitespace and line terminators (tab, line feed, vertical tab, form feed, carriage return, space, no-break space, U+1680, U+2000 to U+200A, U+2028, U+2029, U+202F, U+205F, U+3000, U+FEFF); the same set is `\s` in the tokenizer at lines 84-86 and `trim` in searchHistory.js at line 66 |
| Text.Lower | src/app/utils/smartLinking.js:90 | `toLowerCase` keeps the length of the string |
| Text.LowerAt | src/app/utils/smartLinking.js:90 | `toLowerCase` works character by character: an ASCII upper-case letter becomes its lower-case letter, any other character is kept |
| Text.Trim | src/app/utils/smartLinking.js:90 | `trim`: leading, then trailing whitespace dropped; what it yields is stated by Text.TrimEmpty and Text.TrimNoWhitespace |
| Text.TrimNoWhitespace | src/app/utils/smartLinking.js:90 | a string without whitespace is its own `trim` |
| Text.Contains | src/app/utils/searchHistory.js:71-72 | `includes`, tried at each start index in turn; its meaning is stated by Text.ContainsMeans |
| Text.ContainsMeans | src/app/utils/searchHistory.js:71-72 | `s.includes(sub)` holds exactly when `sub` occurs in `s` at some index |
| Seqs.Filter | src/app/utils/smartLinking.js:239 | `filter`: no longer than the input, keeps exactly the elements satisfying the test (their multiplicities by Seqs.FilterCounts); also models searchHistory.js lines 25 and 70 |
| Seqs.FilterCounts | src/app/utils/smartLinking.js:239 | `filter` keeps every occurrence of an element that passes the test and none of one that fails it |
| Seqs.FilterIsSubsequence | src/app/utils/smartLinking.js:239 | `filter` keeps the kept elements in their input order |
| Seqs.Prefix | src/app/utils/smartLinking.js:236 | `slice(0, end)`: a prefix of the input, of length `min(end, n)` for a non-negative end, and `min(-end, n)` elements short of the whole for a negative one; also models searchHistory.js lines 30, 38, 88, 98 and 102 |
| Seqs.SortDesc | src/app/utils/smartLinking.js:232 | the sort by descending key: same length, same elements with the same multiplicities, keys non-increasing; also models searchHistory.js lines 73 and 87 |
| Seqs.SortStable | src/app/utils/smartLinking.js:232 | the sort is stable: the elements of any one key keep their input order, as `Array.prototype.sort` guarantees |
| Tokenizer.Tokenize | src/app/utils/smartLinking.js:84-86 | tokens concatenate back to the text; an empty text gives `[""]`; a text starting with a separator gives an empty first piece followed by that separator |
| Tokenizer.TokenizeWellFormed | src/app/utils/smartLinking.js:84-86 | pieces without separators sit at even indices and separators (a maximal whitespace run or one punctuation mark) at odd indices |
| Lexicon.Matches | src/app/utils/smartLinking.js:22-39 | `pattern.test(s)` for the four regex shapes of the table; each shape is characterised by the four lemmas below |
| Lexicon.CapitalSuffixMeans | src/app/utils/smartLinking.js:22-24 | `^[A-Z][a-z]+suffix$` matches exactly an upper-case letter, at least one lower-case letter, then the suffix and nothing more |
| Lexicon.LowerSuffixMeans | src/app/utils/smartLinking.js:25-31 | `^[a-z]+suffix$` matches exactly a non-empty lower-case stem followed by the suffix |
| Lexicon.LowerPrefixMeans | src/app/utils/smartLinking.js:32-35 | `^prefix[a-z]+` matches exactly the prefix followed by a lower-case letter and then anything |
| Lexicon.LowerRootMeans | src/app/utils/smartLinking.js:36-39 | `^[a-z]*root[a-z]*` matches exactly a possibly empty lower-case run followed by the root and then anything |
| Lexicon.AnyPattern | src/app/utils/smartLinking.js:136-141 | some pattern of the table matches; it is the condition of the pattern bonus loop and of the `some` in `isImportantWord` at line 226 |
| Lexicon.CapitalPatternsNeedUpper | src/app/utils/smartLinking.js:21-24 | on a string not starting with an upper-case letter only the lower-case patterns can match |
| Scoring.PassesBasicFilters | src/app/utils/smartLinking.js:111-125 | the rejections of `passesBasicFilters` in source order; characterised by Scoring.FilterCharacterised |
| Scoring.IsImportantWord | src/app/utils/smartLinking.js:223-227 | `includes` over the joined high and medium lists, then `some` over the patterns; characterised by Scoring.IsImportantWordMeans |
| Scoring.FilterCharacterised | src/app/utils/smartLinking.js:111-125 | the basic filter admits exactly words of at least three ASCII letters that are not stop words |
| Scoring.ListedInMeans | src/app/utils/smartLinking.js:224-225 | the entry-by-entry `includes` holds exactly for the words in the list |
| Scoring.SomeMatchMeans | src/app/utils/smartLinking.js:226 | the pattern-by-pattern `some` holds exactly when one of the patterns matches |
| Scoring.IsImportantWordMeans | src/app/utils/smartLinking.js:223-227 | a word is important exactly when it is a high or medium weight word or a high-value pattern matches it |
| Scoring.ContextScore | src/app/utils/smartLinking.js:205-220 | the context score lies between 0 and 1.0 and is a multiple of 0.2 |
| Scoring.ContextScoreFrame | src/app/utils/smartLinking.js:205-220 | the context score depends only on the tokens at most three places away, not on the token itself |
| Scoring.Importance | src/app/utils/smartLinking.js:127-161 | the importance lies between the base 0.5 and 1.0 |
| Scoring.Similarity | src/app/utils/smartLinking.js:177-189 | NaN exactly when both words are empty, otherwise a ratio in [0, 1] |
| Scoring.CategorizeIn | src/app/utils/smartLinking.js:165-174 | the domains tried in table order, the first whose keywords match returned, `general` when none does; characterised by Scoring.CategorizeFirstMatch |
| Scoring.Categorize | src/app/utils/smartLinking.js:164-175 | `categorizeWord` is that search over the whole domain table |
| Scoring.CategorizeFirstMatch | src/app/utils/smartLinking.js:163-175 | `general` exactly when no domain has a matching keyword; otherwise the first matching domain in table order |
| Scoring.DomainTermHasCategory | src/app/utils/smartLinking.js:148-154 | a word that earns the domain bonus is never categorised `general` |
| Scoring.Confidence | src/app/utils/smartLinking.js:191-203 | the confidence is clamped to [0, 1] |
| Scoring.Analyze | src/app/utils/smartLinking.js:88-108 | a word is scored exactly when its trimmed lower-cased form passes the filter; scores are in range; it is linkable exactly when its confidence is above 0.3 |
| Scoring.LinkableUnlessCommon | src/app/utils/smartLinking.js:192-203 | a filtered word is linkable unless it is a common verb whose boosted importance is at most 0.6 |
| Ranking.MaxLinks | src/app/utils/smartLinking.js:235 | the cap is the least count whose tenfold reaches seven times the number of candidates |
| Ranking.CapBelowCount | src/app/utils/smartLinking.js:235-236 | `Math.ceil(n * 0.7)` is below n exactly when n is at least four, so the cut drops a candidate exactly then |
| Ranking.RankAndFilter | src/app/utils/smartLinking.js:229-240 | at most the cap, sorted by descending confidence, every word taken from the input and above 0.4 |
| Ranking.RankSelected | src/app/utils/smartLinking.js:229-240 | the result is exactly the first min(cap, number above 0.4) words of the stable sort |
| Ranking.RankStable | src/app/utils/smartLinking.js:232 | words of equal confidence keep their input order |
| Linking.CandidatesUpTo | src/app/utils/smartLinking.js:65-78 | every record belongs to an accepted token and records appear in token order |
| Linking.CandidatesComplete | src/app/utils/smartLinking.js:65-78 | no accepted token is skipped |
| Linking.Candidates | src/app/utils/smartLinking.js:61-78 | the array `processText` builds: the candidates of all tokens, with the properties stated for Linking.CandidatesUpTo |
| Linking.CandidateFacts | src/app/utils/smartLinking.js:65-78 | a candidate is its token, is not excluded, passes the filter and carries the importance and category computed for it; its confidence is above 0.3 |
| Linking.LinkableWords | src/app/utils/smartLinking.js:61-81 | the result respects the cap, is sorted by confidence, and every member is a candidate above 0.4 |
| Linking.Lookup | src/app/utils/smartLinking.js:255-258 | the `Map` filled by `forEach`; which record a key holds is stated by Linking.LookupLastWins |
| Linking.LookupLastWins | src/app/utils/smartLinking.js:255-258 | the lookup has a key exactly when some record has that lower-cased word, and holds the last such record |
| Linking.WordStyling | src/app/utils/smartLinking.js:243-247 | high above 0.8, medium in (0.6, 0.8], standard otherwise, each as an if-and-only-if |
| Linking.StylingMonotone | src/app/utils/smartLinking.js:243-247 | a more important word never gets a weaker class |
| Linking.Decide | src/app/utils/smartLinking.js:260-295 | the decision for one token; characterised by Linking.DecideLinkIff and Linking.DecideLinkData |
| Linking.DecideAll | src/app/utils/smartLinking.js:260-296 | `tokens.map`: one decision per token, the i-th taken for token i alone |
| Linking.SmartLinks | src/app/utils/smartLinking.js:250-297 | `generateSmartLinks`; what it yields is stated by the lemmas below |
| Linking.SmartLinksLossless | src/app/utils/smartLinking.js:250-297 | one span per token, and the spans spell out the text unchanged |
| Linking.DecideLinkIff | src/app/utils/smartLinking.js:260-264 | a token is linked exactly when it is two or more ASCII letters and some record has its lower-cased form |
| Linking.DecideLinkData | src/app/utils/smartLinking.js:264-288 | a link shows the category, confidence and styling of the last such record, and is active exactly for the loading word |
| Linking.LinkIff | src/app/utils/smartLinking.js:250-264 | token i of the text is linked exactly when it is alphabetic and a selected record has its lower-cased form |
| Linking.LinkData | src/app/utils/smartLinking.js:250-288 | a link carries the data of a selected record with the token's lower-cased form |
| Linking.LinkQuality | src/app/utils/smartLinking.js:250-264 | a linked token's lower-cased form passes the filter and its confidence is above 0.4 |
| Linking.SameFormSameLink | src/app/utils/smartLinking.js:255-264 | two alphabetic tokens with the same lower-cased form are both linked or both plain, with the same data |
| Linking.LinksBeyondCap | src/app/utils/smartLinking.js:255-264 | a lookup built from any non-empty list of records sharing one lower-cased form links every alphabetic token of that form, however many tokens there are |
| Linking.NoCandidateNoLink | src/app/utils/smartLinking.js:250-297 | a text with no token passing the filter gets no link |
| Linking.EmptyText | src/app/utils/smartLinking.js:250-297 | the empty text renders as one empty plain span |
| Engine.GetContextScore | src/app/utils/smartLinking.js:206-220 | the clamped window scan computes the context score |
| Engine.ScanWindow | src/app/utils/smartLinking.js:210-217 | the `for` loop adds 0.2 for each important word of the window other than the one at `position` |
| Engine.CalculateImportance | src/app/utils/smartLinking.js:127-161 | the loops with `break` compute the importance, each bonus counted once |
| Engine.SemanticSimilarity | src/app/utils/smartLinking.js:177-189 | the counting loop computes the similarity |
| Engine.CategorizeWord | src/app/utils/smartLinking.js:163-175 | the loop over the domains returns the category |
| Engine.SomeKeywordMatches | src/app/utils/smartLinking.js:166-170 | the `some` over a domain's keywords holds exactly when one keyword overlaps the word or is similar to it |
| Engine.AnalyzeWord | src/app/utils/smartLinking.js:88-108 | the method computes the analysis |
| Engine.ProcessText | src/app/utils/smartLinking.js:60-81 | the candidate loop followed by the ranking computes the linkable words |
| Engine.FillLookup | src/app/utils/smartLinking.js:254-258 | the `forEach` fills the lookup, a later record replacing an earlier one |
| Engine.GenerateSmartLinks | src/app/utils/smartLinking.js:249-297 | the method computes the decision for every token |
| History.DecimalRoundTrip | src/app/utils/searchHistory.js:32 | the decimal digits in an id read back as the timestamp |
| History.NewEntryFields | src/app/utils/searchHistory.js:28-33 | a new entry keeps the word, the first 500 characters of the content and the time, and its id is the word, a dash and the time |
| History.NewEntry | src/app/utils/searchHistory.js:28-33 | the entry `addToHistory` builds; its fields are stated by History.NewEntryFields |
| History.WordCount | src/app/utils/searchHistory.js:56-58 | `getWordCount` is the number of stored entries |
| History.ExploredWords | src/app/utils/searchHistory.js:60-62 | one word per entry, in list order |
| History.Recorded | src/app/utils/searchHistory.js:18-44 | the recorded list is non-empty and has at most 100 entries |
| History.Without | src/app/utils/searchHistory.js:25 | the `filter`: exactly the entries of other words are kept, none added |
| History.RecordedShape | src/app/utils/searchHistory.js:24-38 | the new entry comes first, no other entry has its word, and the rest is the old list without that word, in order, cut to the bound |
| History.RecordedWordOnce | src/app/utils/searchHistory.js:24-35 | after recording, the word is the first explored word and occurs once |
| History.RecordedValid | src/app/utils/searchHistory.js:18-44 | recording keeps the history bounded and one entry per word |
| History.RecordedKeepsOrder | src/app/utils/searchHistory.js:24-38 | the entries behind the new one appear in the old list in the same order |
| History.RecordedCount | src/app/utils/searchHistory.js:56-58 | recording a word already present keeps the count; a new word adds one, up to 100 |
| History.WithoutCount | src/app/utils/searchHistory.js:25 | with one entry per word, removing a word drops exactly its entry |
| History.SearchInHistory | src/app/utils/searchHistory.js:64-74 | an empty trimmed query gives nothing; otherwise exactly the entries whose word or content contains it, newest first |
| History.SearchStable | src/app/utils/searchHistory.js:70-73 | the search result is a permutation of the matches, and matches with equal timestamps keep their list order |
| History.Preview | src/app/utils/searchHistory.js:102 | a preview is the first 100 characters of the content followed by `...` |
| History.ExplorationsOf | src/app/utils/searchHistory.js:99-103 | the `map`: item i is entry i's word, timestamp and preview |
| History.RecentExplorations | src/app/utils/searchHistory.js:96-104 | `getRecentExplorations`: `slice(0, limit)` then that `map`; its shape is stated by History.RecentShape |
| History.RecentShape | src/app/utils/searchHistory.js:96-104 | the first `limit` entries, or all but the last `-limit` ones, each with its word, time and preview |
| History.FirstWords | src/app/utils/searchHistory.js:81-83 | the counted words are distinct and are exactly the words of the list |
| History.Find | src/app/utils/searchHistory.js:92 | found exactly when some entry has the word; the result is the first such entry |
| History.Tallies | src/app/utils/searchHistory.js:86 | the pairs of `Object.entries(wordCount)`: item i is key i with the number of entries of that word |
| History.TopTallies | src/app/utils/searchHistory.js:86-88 | the pairs sorted by count, then `slice(0, limit)`; their order is stated by History.MostExploredTies |
| History.ToTopic | src/app/utils/searchHistory.js:89-93 | one topic: the word, its count, and the timestamp of the first entry `find` returns for it |
| History.TopicsOf | src/app/utils/searchHistory.js:89-93 | the `map`: topic i is made from pair i |
| History.MostExploredTopics | src/app/utils/searchHistory.js:76-94 | `getMostExploredTopics`; what it yields is stated by the lemmas below |
| History.MostExploredSize | src/app/utils/searchHistory.js:86-88 | at most `limit` topics, or all but the last `-limit` ones |
| History.MostExploredEach | src/app/utils/searchHistory.js:76-94 | each topic is a word of the list with its number of entries (at least one) and the timestamp of its first entry in list order, the one `find` returns |
| History.MostExploredOrdered | src/app/utils/searchHistory.js:85-88 | counts never increase along the result and no word comes twice |
| History.MostExploredTop | src/app/utils/searchHistory.js:85-88 | the topics are the most explored words: a word of the list left out of the result has no more entries than any topic returned |
| History.MostExploredTies | src/app/utils/searchHistory.js:86-88 | the topics of equal count are, in order, the first words of that count in the first-seen key order of `wordCount`; topic i carries pair i's word and count |
| History.MostExploredOnDistinct | src/app/utils/searchHistory.js:76-94 | on a history with one entry per word, topic i is entry i's word with count one and its timestamp |
| History.SortedTalliesOnDistinct | src/app/utils/searchHistory.js:85-87 | with one entry per word, the stable sort by count leaves the words in list order |
| History.SearchHistory.constructor | src/app/utils/searchHistory.js:6-16 | nothing stored reads as the empty history |
| History.SearchHistory.AddToHistory | src/app/utils/searchHistory.js:18-44 | the stored list becomes the recorded list, valid whenever the old one had one entry per word |
| History.SearchHistory.ClearHistory | src/app/utils/searchHistory.js:46-54 | the stored list becomes empty |
| History.SearchHistory.GetMostExploredTopics | src/app/utils/searchHistory.js:76-94 | the counting loop and ranking compute the most explored topics |
| History.CountWords | src/app/utils/searchHistory.js:78-83 | the dictionary's keys are the list's words in first-seen order, each mapped to its number of entries |
| History.EntriesAreTallies | src/app/utils/searchHistory.js:86 | the dictionary's entries are the words with their counts |

## Left out

- Floating point: scores are exact hundredths. The sums in the source are
  IEEE doubles. The model takes the sums to be exact, and for the ceiling
  of `n * 0.7` that holds for realistic lengths.
- Ranking.RankAndFilter, Ranking.RankSelected, Ranking.RankStable: two
  confidences equal in hundredths can be different doubles in the source
  (0.5 + 0.2 + 0.2 + 0.1 is 0.9999999999999999, not 1), and the comparator
  `b.confidence - a.confidence` orders them. The source's order, and so the
  words the 70% cap keeps and the links, can then differ from the model's:
  in `"Citadel Quantum Quantum Quantum"` all four candidates score 100 here
  and the stable sort keeps `Citadel`, while the source sorts it last and
  cuts it.
- `toLowerCase` is modelled on ASCII letters only. Other characters are
  unchanged, so Unicode case mapping is left out. This can change the
  output: in JavaScript a non-ASCII character may lower-case to an ASCII
  letter (U+212A KELVIN SIGN gives `k`). A token such as `\u212Aelvin` then
  passes the word filter. If its score is high enough it becomes a
  candidate, which changes the count the 70% cap is taken from. If it is
  selected, it puts the key `kelvin` into the lookup, so plain `kelvin`
  tokens are linked. The token itself is not linked, because the
  link test reads the original token. The model rejects that token.
- Strings are sequences of characters, not of UTF-16 code units. `slice`
  cuts at characters.
- The JSX markup is reduced to `LinkDecision`: the CSS class text, the
  `title`, the `key` and the `onWordClick` callback are left out. The
  confidence is kept in hundredths; the title's `Math.round` is not
  modelled.
- `getWordStyling` ignores its `category` argument, so `WordStyling` takes
  only the importance.
- The `typeof window` guard, `localStorage`, `JSON` and the `try`/`catch`
  blocks are not modelled: `getHistory` is the field `history`. A parse
  error that reads as `[]` is not modelled either.
- Default arguments are explicit parameters here: `excludedWords = []` of
  `processText`, `loadingWord = ''` of `generateSmartLinks`, and `limit = 10`
  of `getMostExploredTopics` and `getRecentExplorations`.
- Date.now(): `addToHistory` calls it twice, for the timestamp and for the
  id. Both calls read one parameter `now` here.
- History.CountWords: the keys are kept in first-seen order. JavaScript's
  `Object.entries` lists integer-like keys first, in ascending order. The
  count object is also a plain `{}`, so a word such as `constructor` would
  read an inherited property. Neither is modelled.
- The React hook `useSearchHistory`, the API route, the page and the
  components are not part of this model.
- The remaining queries (`getWordCount`, `getExploredWords`,
  `searchInHistory`, `getRecentExplorations`) are functions of the stored
  list (`WordCount`, `ExploredWords`, `SearchInHistory`,
  `RecentExplorations`), not methods of the class: they only read it.
