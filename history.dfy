/**
 * `SearchHistory`: the list of explored words kept in browser storage.
 *
 * The stored list is the `history` field of a `SearchHistory` object; the
 * two operations that rewrite it (`addToHistory`, `clearHistory`) are
 * methods, and the read-only queries are functions of the list (what
 * `getHistory()` returns).  `Date.now()` is the parameter `now`.
 */
module History {
  import opened Text
  import opened Seqs

  /** `SearchHistory.MAX_HISTORY_SIZE` */
  const MaxHistorySize := 100
  /** `content.slice(0, 500)` */
  const StoredContentLength := 500
  /** `item.content.slice(0, 100)` */
  const PreviewLength := 100

  datatype Option<T> = None | Some(value: T)

  /** One stored item. */
  datatype Entry = Entry(word: string, content: string, timestamp: int, id: string)

  // ------------------------------------------------------------ decimals

  function Digit(d: nat): char
    requires d < 10
  {
    "0123456789"[d]
  }

  predicate IsDigit(c: char) { '0' <= c <= '9' }

  /** The decimal text of a non-negative integer, as a template literal
      writes it. */
  function Decimal(n: nat): (s: string)
    ensures |s| > 0 && forall i :: 0 <= i < |s| ==> IsDigit(s[i])
    ensures s[0] == '0' ==> n == 0
  {
    if n < 10 then [Digit(n)] else Decimal(n / 10) + [Digit(n % 10)]
  }

  /** The value of a string of decimal digits. */
  function DecimalValue(s: string): nat
    requires forall i :: 0 <= i < |s| ==> IsDigit(s[i])
  {
    if s == [] then 0
    else
      var last := s[|s| - 1];
      assert IsDigit(last);
      DecimalValue(s[..|s| - 1]) * 10 + (last as int - '0' as int)
  }

  /** Reading the digits back gives the number: the id suffix determines
      the timestamp. */
  lemma {:induction false} DecimalRoundTrip(n: nat)
    ensures DecimalValue(Decimal(n)) == n
  {
    if n >= 10 {
      DecimalRoundTrip(n / 10);
      var s := Decimal(n);
      assert s[..|s| - 1] == Decimal(n / 10);
    }
  }

  // ------------------------------------------------------------ entries

  /** The `newEntry` of `addToHistory`; both `Date.now()` calls read `now`. */
  function NewEntry(word: string, content: string, now: nat): Entry {
    Entry(word, Prefix(content, StoredContentLength), now, word + "-" + Decimal(now))
  }

  /** What a new entry keeps: the word, the first 500 characters of the
      content, the time, and an id that is the word, a dash and the time. */
  lemma NewEntryFields(word: string, content: string, now: nat)
    ensures var e := NewEntry(word, content, now);
      && e.word == word && e.timestamp == now
      && e.content <= content && |e.content| == Min(|content|, StoredContentLength)
      && e.id[..|word| + 1] == word + "-"
      && DecimalValue(e.id[|word| + 1..]) == now
  {
    var e := NewEntry(word, content, now);
    assert e.id[|word| + 1..] == Decimal(now);
    DecimalRoundTrip(now);
  }

  function WordOf(e: Entry): string { e.word }

  /** `getExploredWords()` */
  function ExploredWords(h: seq<Entry>): (r: seq<string>)
    ensures |r| == |h| && forall i :: 0 <= i < |h| ==> r[i] == h[i].word
  {
    if h == [] then [] else [h[0].word] + ExploredWords(h[1..])
  }

  /** `getWordCount()` */
  function WordCount(h: seq<Entry>): nat {
    |h|
  }

  /** Some entry of `h` has word `w`. */
  predicate HasWord(h: seq<Entry>, w: string) {
    exists i :: 0 <= i < |h| && h[i].word == w
  }

  /** What `addToHistory` maintains: a bounded list with one entry per word. */
  predicate Valid(h: seq<Entry>) {
    |h| <= MaxHistorySize && DistinctBy(h, WordOf)
  }

  /** `history.filter(item => item.word !== word)` */
  function Without(h: seq<Entry>, word: string): (r: seq<Entry>)
    ensures |r| <= |h|
    ensures forall e :: e in r <==> e in h && e.word != word
  {
    Filter(h, (e: Entry) => e.word != word)
  }

  /** The list `addToHistory(word, content)` stores. */
  function Recorded(h: seq<Entry>, word: string, content: string, now: nat): (r: seq<Entry>)
    ensures 0 < |r| <= MaxHistorySize
  {
    Prefix([NewEntry(word, content, now)] + Without(h, word), MaxHistorySize)
  }

  /** After `addToHistory` the new entry comes first, no other entry has its
      word, and the rest is the old list without that word, in its order,
      cut to the size bound. */
  lemma RecordedShape(h: seq<Entry>, word: string, content: string, now: nat)
    ensures var r := Recorded(h, word, content, now);
      && r[0] == NewEntry(word, content, now)
      && |r| == Min(MaxHistorySize, |Without(h, word)| + 1)
      && r[1..] == Without(h, word)[..|r| - 1]
      && forall i :: 1 <= i < |r| ==> r[i].word != word
  {
    var r := Recorded(h, word, content, now);
    var t := [NewEntry(word, content, now)] + Without(h, word);
    assert r == t[..|r|];
    forall i | 1 <= i < |r| ensures r[i].word != word {
      assert r[i] == Without(h, word)[i - 1];
      assert r[i] in Without(h, word);
    }
  }

  /** The words recorded after `addToHistory`: the new word first, exactly once. */
  lemma RecordedWordOnce(h: seq<Entry>, word: string, content: string, now: nat)
    ensures var ws := ExploredWords(Recorded(h, word, content, now));
      ws[0] == word && forall i :: 1 <= i < |ws| ==> ws[i] != word
  {
    RecordedShape(h, word, content, now);
  }

  /** From a list with one entry per word, `addToHistory` keeps the history
      valid: bounded, and still one entry per word. */
  lemma RecordedValid(h: seq<Entry>, word: string, content: string, now: nat)
    ensures DistinctBy(h, WordOf) ==> Valid(Recorded(h, word, content, now))
  {
    if DistinctBy(h, WordOf) {
      var r := Recorded(h, word, content, now);
      var w := Without(h, word);
      RecordedShape(h, word, content, now);
      FilterDistinctBy(h, (e: Entry) => e.word != word, WordOf);
      DistinctByCons(NewEntry(word, content, now), w, WordOf);
      var t := [NewEntry(word, content, now)] + w;
      assert r == t[..|r|];
      forall i, j | 0 <= i < j < |r| ensures WordOf(r[i]) != WordOf(r[j]) {
        assert r[i] == t[i] && r[j] == t[j];
      }
    }
  }

  lemma HasWordCons(h: seq<Entry>)
    requires h != []
    ensures forall w :: HasWord(h, w) <==> h[0].word == w || HasWord(h[1..], w)
  {
    forall w | HasWord(h, w) && h[0].word != w ensures HasWord(h[1..], w) {
      var i :| 0 <= i < |h| && h[i].word == w;
      assert h[1..][i - 1] == h[i];
    }
    forall w | HasWord(h[1..], w) ensures HasWord(h, w) {
      var i :| 0 <= i < |h[1..]| && h[1..][i].word == w;
      assert h[i + 1] == h[1..][i];
    }
  }

  /** With one entry per word, removing a word drops exactly its entry. */
  lemma {:induction false} WithoutCount(h: seq<Entry>, word: string)
    requires DistinctBy(h, WordOf)
    ensures |Without(h, word)| == |h| - (if HasWord(h, word) then 1 else 0)
  {
    if h != [] {
      DistinctByTail(h, WordOf);
      HasWordCons(h);
      WithoutCount(h[1..], word);
      if h[0].word == word {
        assert !HasWord(h[1..], word) by {
          forall i | 0 <= i < |h[1..]| ensures h[1..][i].word != word {
            assert h[1..][i] in h[1..];
          }
        }
      }
    }
  }

  /** `getWordCount()` after `addToHistory`: exploring a word again does not
      grow the count, a new word adds one, up to the size bound. */
  lemma RecordedCount(h: seq<Entry>, word: string, content: string, now: nat)
    requires DistinctBy(h, WordOf)
    ensures WordCount(Recorded(h, word, content, now))
            == Min(MaxHistorySize, WordCount(h) + (if HasWord(h, word) then 0 else 1))
  {
    RecordedShape(h, word, content, now);
    WithoutCount(h, word);
  }

  /** The entries kept behind the new one appear in the old list, in the
      same order. */
  lemma RecordedKeepsOrder(h: seq<Entry>, word: string, content: string, now: nat)
    ensures IsSubsequence(Recorded(h, word, content, now)[1..], h)
  {
    var r := Recorded(h, word, content, now);
    var w := Without(h, word);
    RecordedShape(h, word, content, now);
    PrefixIsSubsequence(w, |r| - 1);
    FilterIsSubsequence(h, (e: Entry) => e.word != word);
    SubsequenceTrans(r[1..], w, h);
  }

  // ------------------------------------------------------------- search

  function TimestampOf(e: Entry): int { e.timestamp }

  /** The `filter` test of `searchInHistory`. */
  predicate Mentions(e: Entry, term: string) {
    Contains(Lower(e.word), term) || Contains(Lower(e.content), term)
  }

  /** `searchInHistory(query)` */
  function SearchInHistory(h: seq<Entry>, query: string): (r: seq<Entry>)
    ensures Trim(Lower(query)) == [] ==> r == []
    ensures forall e :: e in r <==> Trim(Lower(query)) != [] && e in h && Mentions(e, Trim(Lower(query)))
    ensures |r| <= |h|
    ensures SortedDesc(r, TimestampOf)
  {
    var term := Trim(Lower(query));
    if term == [] then []
    else SortDesc(Filter(h, (e: Entry) => Mentions(e, term)), TimestampOf)
  }

  /** The search is the stable sort of the matching entries: each match
      occurs as often as in the list, and matches with the same timestamp
      keep their order in the list. */
  lemma SearchStable(h: seq<Entry>, query: string, c: int)
    requires Trim(Lower(query)) != []
    ensures var matches := Filter(h, (e: Entry) => Mentions(e, Trim(Lower(query))));
      && multiset(SearchInHistory(h, query)) == multiset(matches)
      && WithKey(SearchInHistory(h, query), TimestampOf, c) == WithKey(matches, TimestampOf, c)
  {
    var term := Trim(Lower(query));
    SortStable(Filter(h, (e: Entry) => Mentions(e, term)), TimestampOf, c);
  }

  // ------------------------------------------------------ recent entries

  /** One item of `getRecentExplorations`. */
  datatype Exploration = Exploration(word: string, timestamp: int, preview: string)

  /** `item.content.slice(0, 100) + '...'` */
  function Preview(content: string): (p: string)
    ensures |p| == Min(|content|, PreviewLength) + 3
    ensures p[..|p| - 3] <= content && p[|p| - 3..] == "..."
  {
    Prefix(content, PreviewLength) + "..."
  }

  function ExplorationsOf(h: seq<Entry>): (r: seq<Exploration>)
    ensures |r| == |h|
    ensures forall i :: 0 <= i < |h| ==>
              r[i] == Exploration(h[i].word, h[i].timestamp, Preview(h[i].content))
  {
    if h == [] then [] else [Exploration(h[0].word, h[0].timestamp, Preview(h[0].content))] + ExplorationsOf(h[1..])
  }

  /** `getRecentExplorations(limit)` */
  function RecentExplorations(h: seq<Entry>, limit: int): seq<Exploration> {
    ExplorationsOf(Prefix(h, limit))
  }

  /** The newest `limit` entries (fewer if the list is shorter; for a
      negative limit, all but the last `-limit`), each with its word, its
      time and a preview of its content. */
  lemma RecentShape(h: seq<Entry>, limit: int)
    ensures var r := RecentExplorations(h, limit);
      && |r| == SliceEnd(|h|, limit)
      && (0 <= limit ==> |r| == Min(limit, |h|))
      && forall i :: 0 <= i < |r| ==>
           r[i].word == h[i].word && r[i].timestamp == h[i].timestamp
           && r[i].preview[..|r[i].preview| - 3] <= h[i].content
  {
    var p := Prefix(h, limit);
    assert forall i :: 0 <= i < |p| ==> p[i] == h[i];
  }

  // -------------------------------------------------------- most explored

  /** How many entries of `h` have word `w`. */
  function Occurrences(h: seq<Entry>, w: string): (n: nat)
    ensures n <= |h|
  {
    if h == [] then 0
    else Occurrences(h[..|h| - 1], w) + (if h[|h| - 1].word == w then 1 else 0)
  }

  /** The keys of `wordCount` in the order they were first set. */
  function FirstWords(h: seq<Entry>): (r: seq<string>)
    ensures DistinctBy(r, (w: string) => w)
    ensures forall w :: w in r <==> HasWord(h, w)
  {
    if h == [] then []
    else
      var init := h[..|h| - 1];
      var d := FirstWords(init);
      HasWordSnoc(h);
      if h[|h| - 1].word in d then d else d + [h[|h| - 1].word]
  }

  lemma HasWordSnoc(h: seq<Entry>)
    requires h != []
    ensures forall w :: HasWord(h, w) <==> HasWord(h[..|h| - 1], w) || h[|h| - 1].word == w
  {
    var init := h[..|h| - 1];
    forall w | HasWord(h, w) && h[|h| - 1].word != w ensures HasWord(init, w) {
      var i :| 0 <= i < |h| && h[i].word == w;
      assert init[i] == h[i];
    }
    forall w | HasWord(init, w) ensures HasWord(h, w) {
      var i :| 0 <= i < |init| && init[i].word == w;
      assert h[i] == init[i];
    }
  }

  /** One `[word, count]` pair of `Object.entries(wordCount)`. */
  datatype Tally = Tally(word: string, count: nat)

  function CountOf(t: Tally): int { t.count }

  /** `Object.entries(wordCount)` for the counts of `h`. */
  function Tallies(keys: seq<string>, h: seq<Entry>): (r: seq<Tally>)
    ensures |r| == |keys|
    ensures forall i :: 0 <= i < |keys| ==> r[i] == Tally(keys[i], Occurrences(h, keys[i]))
  {
    if keys == [] then [] else [Tally(keys[0], Occurrences(h, keys[0]))] + Tallies(keys[1..], h)
  }

  /** `history.find(item => item.word === word)` */
  function Find(h: seq<Entry>, w: string): (r: Option<Entry>)
    ensures r.Some? <==> HasWord(h, w)
    ensures r.Some? ==> exists i :: 0 <= i < |h| && h[i] == r.value && h[i].word == w
                          && forall j :: 0 <= j < i ==> h[j].word != w
  {
    if h == [] then None
    else if h[0].word == w then Some(h[0])
    else
      var r := Find(h[1..], w);
      assert forall j :: 1 <= j < |h| ==> h[j] == h[1..][j - 1];
      r
  }

  /** One item of `getMostExploredTopics`. */
  datatype Topic = Topic(word: string, count: nat, lastExplored: Option<int>)

  function ToTopic(t: Tally, h: seq<Entry>): Topic {
    Topic(t.word, t.count, match Find(h, t.word) case Some(e) => Some(e.timestamp) case None => None)
  }

  function TopicsOf(ts: seq<Tally>, h: seq<Entry>): (r: seq<Topic>)
    ensures |r| == |ts|
    ensures forall i :: 0 <= i < |ts| ==> r[i] == ToTopic(ts[i], h)
  {
    if ts == [] then [] else [ToTopic(ts[0], h)] + TopicsOf(ts[1..], h)
  }

  /** The word counts `getMostExploredTopics` keeps: sorted by count, then cut. */
  function TopTallies(h: seq<Entry>, limit: int): seq<Tally> {
    Prefix(SortDesc(Tallies(FirstWords(h), h), CountOf), limit)
  }

  /** `getMostExploredTopics(limit)` */
  function MostExploredTopics(h: seq<Entry>, limit: int): seq<Topic> {
    TopicsOf(TopTallies(h, limit), h)
  }

  /** At most `limit` topics are returned (for a negative limit, all but
      the last `-limit` words). */
  lemma MostExploredSize(h: seq<Entry>, limit: int)
    ensures |MostExploredTopics(h, limit)| == SliceEnd(|FirstWords(h)|, limit)
  {
  }

  /** Each topic is a word of the list with its number of entries (at least
      one) and the time of its first entry in list order, the one `find`
      returns. */
  lemma MostExploredEach(h: seq<Entry>, limit: int, i: nat)
    requires i < |MostExploredTopics(h, limit)|
    ensures var t := MostExploredTopics(h, limit)[i];
      && HasWord(h, t.word) && 1 <= t.count
      && t == Topic(t.word, Occurrences(h, t.word), Some(Find(h, t.word).value.timestamp))
  {
    var ts := Tallies(FirstWords(h), h);
    var sorted := SortDesc(ts, CountOf);
    var top := Prefix(sorted, limit);
    assert top[i] == sorted[i] && sorted[i] in ts;
    var k :| 0 <= k < |ts| && ts[k] == top[i];
    OccursAtLeastOnce(h, FirstWords(h)[k]);
  }

  /** Counts never increase along the result and no word comes twice. */
  lemma MostExploredOrdered(h: seq<Entry>, limit: int, i: nat, j: nat)
    requires i < j < |MostExploredTopics(h, limit)|
    ensures var r := MostExploredTopics(h, limit);
      r[i].count >= r[j].count && r[i].word != r[j].word
  {
    var ts := Tallies(FirstWords(h), h);
    var sorted := SortDesc(ts, CountOf);
    var top := Prefix(sorted, limit);
    assert top[i] == sorted[i] && top[j] == sorted[j];
    TalliesDistinct(FirstWords(h), h);
    SortDistinctBy(ts, CountOf, WordOfTally);
  }

  /** The topics are the most explored words: a word of the list left out
      of the result has no more entries than any topic returned. */
  lemma MostExploredTop(h: seq<Entry>, limit: int, i: nat, w: string)
    requires i < |MostExploredTopics(h, limit)| && HasWord(h, w)
    requires forall j :: 0 <= j < |MostExploredTopics(h, limit)| ==> MostExploredTopics(h, limit)[j].word != w
    ensures Occurrences(h, w) <= MostExploredTopics(h, limit)[i].count
  {
    var keys := FirstWords(h);
    var ts := Tallies(keys, h);
    var sorted := SortDesc(ts, CountOf);
    var top := TopTallies(h, limit);
    var r := MostExploredTopics(h, limit);
    var k :| 0 <= k < |keys| && keys[k] == w;
    assert ts[k] == Tally(w, Occurrences(h, w));
    forall j | 0 <= j < |top| ensures sorted[j].word != w {
      assert sorted[j] == top[j] && r[j].word == top[j].word;
    }
    TallyBelowCut(sorted, |top|, i, ts[k]);
    assert r[i].count == top[i].count == sorted[i].count;
  }

  /** In a list sorted by count, a tally beyond the first `n` has a count no
      larger than any of them. */
  lemma TallyBelowCut(sorted: seq<Tally>, n: nat, i: nat, t: Tally)
    requires SortedDesc(sorted, CountOf) && i < n <= |sorted| && t in sorted
    requires forall j :: 0 <= j < n ==> sorted[j].word != t.word
    ensures t.count <= sorted[i].count
  {
    var m :| 0 <= m < |sorted| && sorted[m] == t;
    assert CountOf(sorted[i]) >= CountOf(sorted[m]);
  }

  /** Ties keep their first-seen order: the topics of equal count are, in
      order, the first words of that count in `wordCount`'s key order. */
  lemma MostExploredTies(h: seq<Entry>, limit: int, c: int)
    ensures WithKey(TopTallies(h, limit), CountOf, c) <= WithKey(Tallies(FirstWords(h), h), CountOf, c)
    ensures forall i :: 0 <= i < |MostExploredTopics(h, limit)| ==>
              MostExploredTopics(h, limit)[i].word == TopTallies(h, limit)[i].word
              && MostExploredTopics(h, limit)[i].count == TopTallies(h, limit)[i].count
  {
    var ts := Tallies(FirstWords(h), h);
    var sorted := SortDesc(ts, CountOf);
    SortStable(ts, CountOf, c);
    WithKeyPrefix(sorted, |TopTallies(h, limit)|, CountOf, c);
  }

  lemma {:induction false} OccursAtLeastOnce(h: seq<Entry>, w: string)
    requires HasWord(h, w)
    ensures Occurrences(h, w) >= 1
  {
    if h[|h| - 1].word != w {
      HasWordSnoc(h);
      OccursAtLeastOnce(h[..|h| - 1], w);
    }
  }

  function WordOfTally(t: Tally): string { t.word }

  lemma TalliesDistinct(keys: seq<string>, h: seq<Entry>)
    requires DistinctBy(keys, (w: string) => w)
    ensures DistinctBy(Tallies(keys, h), WordOfTally)
  {
  }

  // ----------------------------------------------- one entry per word

  lemma DistinctByInit(h: seq<Entry>)
    requires h != [] && DistinctBy(h, WordOf)
    ensures DistinctBy(h[..|h| - 1], WordOf) && !HasWord(h[..|h| - 1], h[|h| - 1].word)
  {
    var init := h[..|h| - 1];
    assert forall i :: 0 <= i < |init| ==> init[i] == h[i];
  }

  lemma {:induction false} AbsentNoOccurrences(h: seq<Entry>, w: string)
    requires !HasWord(h, w)
    ensures Occurrences(h, w) == 0
  {
    if h != [] {
      HasWordSnoc(h);
      AbsentNoOccurrences(h[..|h| - 1], w);
    }
  }

  /** With one entry per word, `wordCount` meets the words in list order. */
  lemma {:induction false} FirstWordsOnDistinct(h: seq<Entry>)
    requires DistinctBy(h, WordOf)
    ensures FirstWords(h) == ExploredWords(h)
  {
    if h != [] {
      var init := h[..|h| - 1];
      DistinctByInit(h);
      FirstWordsOnDistinct(init);
      assert forall i :: 0 <= i < |init| ==> init[i] == h[i];
    }
  }

  /** With one entry per word, every word is counted once. */
  lemma {:induction false} OccursOnce(h: seq<Entry>, i: nat)
    requires DistinctBy(h, WordOf) && i < |h|
    ensures Occurrences(h, h[i].word) == 1
  {
    var init := h[..|h| - 1];
    DistinctByInit(h);
    if i == |h| - 1 {
      AbsentNoOccurrences(init, h[i].word);
    } else {
      assert init[i] == h[i];
      OccursOnce(init, i);
    }
  }

  /** With one entry per word, `history.find` returns that entry. */
  lemma FindOnDistinct(h: seq<Entry>, i: nat)
    requires DistinctBy(h, WordOf) && i < |h|
    ensures Find(h, h[i].word) == Some(h[i])
  {
    var j :| 0 <= j < |h| && h[j] == Find(h, h[i].word).value && h[j].word == h[i].word
              && forall k :: 0 <= k < j ==> h[k].word != h[i].word;
    assert WordOf(h[j]) == WordOf(h[i]);
  }

  /** With one entry per word, every count is one, so the stable sort by
      count leaves the words in list order. */
  lemma SortedTalliesOnDistinct(h: seq<Entry>)
    requires DistinctBy(h, WordOf)
    ensures SortDesc(Tallies(FirstWords(h), h), CountOf) == Tallies(ExploredWords(h), h)
  {
    FirstWordsOnDistinct(h);
    var ts := Tallies(ExploredWords(h), h);
    forall i | 0 <= i < |ts| ensures CountOf(ts[i]) == 1 {
      OccursOnce(h, i);
    }
    var sorted := SortDesc(ts, CountOf);
    forall i | 0 <= i < |sorted| ensures CountOf(sorted[i]) == 1 {
      assert sorted[i] in ts;
    }
    WithKeyAll(ts, CountOf, 1);
    WithKeyAll(sorted, CountOf, 1);
    SortStable(ts, CountOf, 1);
  }

  /** On a history kept by `addToHistory` each word has one entry, so the
      "most explored" topics are the newest words, in recency order, each
      with count one and its own timestamp. */
  lemma MostExploredOnDistinct(h: seq<Entry>, limit: int, i: nat)
    requires DistinctBy(h, WordOf) && i < |MostExploredTopics(h, limit)|
    ensures i < |h| && MostExploredTopics(h, limit)[i] == Topic(h[i].word, 1, Some(h[i].timestamp))
  {
    SortedTalliesOnDistinct(h);
    var ts := Tallies(ExploredWords(h), h);
    var top := Prefix(ts, limit);
    assert top[i] == ts[i];
    OccursOnce(h, i);
    FindOnDistinct(h, i);
  }

  // ------------------------------------------------------ stored list

  /** The list stored under the `infinite-wiki-history` key. */
  class SearchHistory {
    var history: seq<Entry>

    constructor ()
      ensures history == []
    {
      history := [];
    }

    /** `addToHistory(word, content)`; `now` is `Date.now()`. */
    method AddToHistory(word: string, content: string, now: nat)
      modifies this
      ensures history == Recorded(old(history), word, content, now)
      ensures DistinctBy(old(history), WordOf) ==> Valid(history)
    {
      var filtered := Without(history, word);
      var newEntry := NewEntry(word, content, now);
      filtered := [newEntry] + filtered;
      RecordedValid(history, word, content, now);
      history := Prefix(filtered, MaxHistorySize);
    }

    /** `clearHistory()` */
    method ClearHistory()
      modifies this
      ensures history == []
    {
      history := [];
    }

    /** `getMostExploredTopics(limit)`: counts the entries of each word in
        a dictionary, then ranks the dictionary's entries. */
    method GetMostExploredTopics(limit: int) returns (topics: seq<Topic>)
      ensures topics == MostExploredTopics(history, limit)
    {
      var wordCount, keys := CountWords(history);
      var entries := EntriesOf(keys, wordCount);
      EntriesAreTallies(keys, wordCount, history);
      topics := TopicsOf(Prefix(SortDesc(entries, CountOf), limit), history);
    }
  }

  /** The `forEach` of `getMostExploredTopics`: `wordCount` and the order in
      which its keys were first set. */
  method CountWords(h: seq<Entry>) returns (wordCount: map<string, nat>, keys: seq<string>)
    ensures keys == FirstWords(h)
    ensures forall w :: w in wordCount <==> w in keys
    ensures forall w :: w in wordCount ==> wordCount[w] == Occurrences(h, w)
  {
    wordCount := map[];
    keys := [];
    for i := 0 to |h|
      invariant keys == FirstWords(h[..i])
      invariant forall w :: w in wordCount <==> w in keys
      invariant forall w :: w in wordCount ==> wordCount[w] == Occurrences(h[..i], w)
    {
      var w := h[i].word;
      CountStep(h, i);
      if w in wordCount {
        wordCount := wordCount[w := wordCount[w] + 1];
      } else {
        AbsentNoOccurrences(h[..i], w);
        wordCount := wordCount[w := 1];
        keys := keys + [w];
      }
    }
    assert h[..|h|] == h;
  }

  lemma CountStep(h: seq<Entry>, i: nat)
    requires i < |h|
    ensures var d := FirstWords(h[..i]);
      FirstWords(h[..i + 1]) == if h[i].word in d then d else d + [h[i].word]
    ensures forall w :: Occurrences(h[..i + 1], w) == Occurrences(h[..i], w) + (if h[i].word == w then 1 else 0)
  {
    assert h[..i + 1][..i] == h[..i];
  }

  /** `Object.entries(wordCount)`, keys in insertion order. */
  function EntriesOf(keys: seq<string>, wordCount: map<string, nat>): (r: seq<Tally>)
    requires forall w :: w in keys ==> w in wordCount
    ensures |r| == |keys| && forall j :: 0 <= j < |keys| ==> r[j].word == keys[j]
  {
    if keys == [] then [] else [Tally(keys[0], wordCount[keys[0]])] + EntriesOf(keys[1..], wordCount)
  }

  lemma {:induction false} EntriesAreTallies(keys: seq<string>, wordCount: map<string, nat>, h: seq<Entry>)
    requires forall w :: w in keys ==> w in wordCount && wordCount[w] == Occurrences(h, w)
    ensures EntriesOf(keys, wordCount) == Tallies(keys, h)
  {
    if keys != [] {
      EntriesAreTallies(keys[1..], wordCount, h);
    }
  }
}
