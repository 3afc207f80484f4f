/**
 * `rankAndFilterWords`: the candidates of `processText` sorted by descending
 * confidence (a stable sort), cut to the first 70% (rounded up) and then
 * stripped of every candidate whose confidence is not above 0.4.
 */
module Ranking {
  import opened Seqs
  import opened Lexicon

  /** `item.confidence > 0.4`, in hundredths. */
  const QualityFloor := 40

  /** One record pushed by `processText`, scores in hundredths. */
  datatype LinkableWord = LinkableWord(
    word: string,
    position: nat,
    importance: int,
    category: Category,
    confidence: int)

  function ConfidenceOf(w: LinkableWord): int { w.confidence }

  predicate AboveFloor(w: LinkableWord) { w.confidence > QualityFloor }

  /** `Math.ceil(n * 0.7)`: the least count whose tenfold reaches `7 * n`. */
  function MaxLinks(n: nat): (r: nat)
    ensures 7 * n <= 10 * r < 7 * n + 10
  {
    (7 * n + 9) / 10
  }

  /** The cap removes something exactly when there are at least four words. */
  lemma CapBelowCount(n: nat)
    ensures MaxLinks(n) < n <==> 4 <= n
  {
  }

  lemma SortedPart(s: seq<LinkableWord>, lo: nat, hi: nat)
    requires SortedDesc(s, ConfidenceOf) && lo <= hi <= |s|
    ensures SortedDesc(s[lo..hi], ConfidenceOf)
  {
    var t := s[lo..hi];
    forall i, j | 0 <= i < j < |t| ensures ConfidenceOf(t[i]) >= ConfidenceOf(t[j]) {
      assert t[i] == s[lo + i] && t[j] == s[lo + j];
    }
  }

  /** Whether a word is above the floor, read off its rank. */
  predicate FloorSplitAt(s: seq<LinkableWord>, m: nat) {
    m <= |s| && forall i :: 0 <= i < |s| ==> (AboveFloor(s[i]) <==> i < m)
  }

  lemma FloorPrefixAbove(s: seq<LinkableWord>, m: nat)
    requires s != [] && AboveFloor(s[0])
    requires FloorSplitAt(s[1..], m) && Filter(s[1..], AboveFloor) == s[1..][..m]
    ensures Filter(s, AboveFloor) == s[..m + 1] && FloorSplitAt(s, m + 1)
  {
    assert Filter(s, AboveFloor) == [s[0]] + Filter(s[1..], AboveFloor);
    assert s[..m + 1] == [s[0]] + s[1..][..m];
    FloorSplitCons(s, m);
  }

  lemma FloorSplitCons(s: seq<LinkableWord>, m: nat)
    requires s != [] && AboveFloor(s[0]) && FloorSplitAt(s[1..], m)
    ensures FloorSplitAt(s, m + 1)
  {
    forall i | 0 <= i < |s| ensures AboveFloor(s[i]) <==> i < m + 1 {
      if i > 0 {
        assert s[i] == s[1..][i - 1];
      }
    }
  }

  lemma FloorPrefixBelow(s: seq<LinkableWord>, m: nat)
    requires s != [] && !AboveFloor(s[0]) && SortedDesc(s, ConfidenceOf)
    requires FloorSplitAt(s[1..], m) && Filter(s[1..], AboveFloor) == s[1..][..m]
    ensures Filter(s, AboveFloor) == [] && FloorSplitAt(s, 0)
  {
    forall i | 0 <= i < |s| ensures !AboveFloor(s[i]) {
      if i > 0 {
        assert ConfidenceOf(s[0]) >= ConfidenceOf(s[i]);
      }
    }
  }

  /** In a list sorted by confidence the words above the floor form a prefix. */
  lemma {:induction false} FloorPrefix(s: seq<LinkableWord>)
    requires SortedDesc(s, ConfidenceOf)
    ensures Filter(s, AboveFloor) == s[..|Filter(s, AboveFloor)|]
    ensures FloorSplitAt(s, |Filter(s, AboveFloor)|)
  {
    if s != [] {
      SortedPart(s, 1, |s|);
      FloorPrefix(s[1..]);
      if AboveFloor(s[0]) {
        FloorPrefixAbove(s, |Filter(s[1..], AboveFloor)|);
      } else {
        FloorPrefixBelow(s, |Filter(s[1..], AboveFloor)|);
      }
    }
  }

  /** `rankAndFilterWords(linkableWords)` */
  function RankAndFilter(words: seq<LinkableWord>): (r: seq<LinkableWord>)
    ensures |r| <= MaxLinks(|words|)
    ensures SortedDesc(r, ConfidenceOf)
    ensures forall w :: w in r ==> w in words && AboveFloor(w)
  {
    var sorted := SortDesc(words, ConfidenceOf);
    FilterPrefixFacts(sorted, MaxLinks(|words|));
    Filter(Prefix(sorted, MaxLinks(|words|)), AboveFloor)
  }

  /** Cutting a sorted list and keeping the words above the floor leaves a
      sorted list of its own words. */
  lemma FilterPrefixFacts(sorted: seq<LinkableWord>, k: int)
    requires SortedDesc(sorted, ConfidenceOf)
    ensures var r := Filter(Prefix(sorted, k), AboveFloor);
      SortedDesc(r, ConfidenceOf) && forall w :: w in r ==> w in sorted && AboveFloor(w)
  {
    var kept := Prefix(sorted, k);
    SortedPart(sorted, 0, |kept|);
    FloorPrefix(kept);
    SortedPart(kept, 0, |Filter(kept, AboveFloor)|);
    PrefixMembers(sorted, k);
  }

  lemma PrefixMembers(s: seq<LinkableWord>, k: int)
    ensures forall w :: w in Prefix(s, k) ==> w in s
  {
    var kept := Prefix(s, k);
    forall w | w in kept ensures w in s {
      var j :| 0 <= j < |kept| && kept[j] == w;
      assert s[j] == w;
    }
  }

  /** The result is exactly the best-ranked words: the first
      `min(ceil(0.7 n), #above floor)` of the stable sort. */
  lemma RankSelected(words: seq<LinkableWord>)
    ensures var sorted := SortDesc(words, ConfidenceOf);
      RankAndFilter(words) == sorted[..Min(MaxLinks(|words|), |Filter(words, AboveFloor)|)]
  {
    var sorted := SortDesc(words, ConfidenceOf);
    var kept := Prefix(sorted, MaxLinks(|words|));
    var k := |kept|;
    FloorPrefix(sorted);
    SortCount(words, ConfidenceOf, AboveFloor);
    var above := |Filter(words, AboveFloor)|;
    SortedPart(sorted, 0, |kept|);
    FloorPrefix(kept);
    var m := |Filter(kept, AboveFloor)|;
    SplitOfPrefix(sorted, k, above, m);
    PrefixOfPrefix(sorted, k, m);
  }

  // Stated as a lemma of its own to keep the context of RankSelected small.
  lemma PrefixOfPrefix(s: seq<LinkableWord>, k: nat, m: nat)
    requires m <= k <= |s|
    ensures s[..k][..m] == s[..m]
  {
  }

  lemma SplitOfPrefix(s: seq<LinkableWord>, k: nat, above: nat, m: nat)
    requires k <= |s| && FloorSplitAt(s, above) && FloorSplitAt(s[..k], m)
    ensures m == Min(k, above)
  {
    if m > 0 {
      assert s[..k][m - 1] == s[m - 1];
    }
    if m < k {
      assert s[..k][m] == s[m];
    }
  }

  /** Ranking is stable: words of equal confidence come out in the order
      they went in (some possibly cut off at the end). */
  lemma RankStable(words: seq<LinkableWord>, c: int)
    ensures WithKey(RankAndFilter(words), ConfidenceOf, c) <= WithKey(words, ConfidenceOf, c)
  {
    RankSelected(words);
    var sorted := SortDesc(words, ConfidenceOf);
    SortStable(words, ConfidenceOf, c);
    WithKeyPrefix(sorted, Min(MaxLinks(|words|), |Filter(words, AboveFloor)|), ConfidenceOf, c);
  }
}
