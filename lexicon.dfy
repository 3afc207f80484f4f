/**
 * The fixed reference tables the engine's constructor builds once and never
 * changes: stop words, the high-value word patterns, the per-domain keyword
 * lists, the "inherently important" words and the over-common verbs.
 */
module Lexicon {
  import opened Text

  /** The topical categories, in the order the domain table lists them,
      and the fallback `'general'`. */
  datatype Category = Science | Philosophy | Psychology | Art | History | Technology | General

  /** The stop-word `Set`, written as a union of one set per source line. */
  const StopWords: set<string> :=
    {"the", "a", "an", "and", "or", "but", "in", "on", "at", "to", "for", "of", "with"} +
    {"by", "from", "up", "about", "into", "through", "during", "before", "after", "above"} +
    {"below", "between", "among", "this", "that", "these", "those", "i", "me", "my", "myself"} +
    {"we", "our", "ours", "ourselves", "you", "your", "yours", "yourself", "yourselves", "he"} +
    {"him", "his", "himself", "she", "her", "hers", "herself", "it", "its", "itself", "they"} +
    {"them", "their", "theirs", "themselves", "what", "which", "who", "whom", "whose", "this"} +
    {"that", "these", "those", "am", "is", "are", "was", "were", "be", "been", "being", "have"} +
    {"has", "had", "having", "do", "does", "did", "doing", "will", "would", "could", "should"} +
    {"may", "might", "must", "can", "shall", "not", "no", "nor", "so", "than", "too", "very"} +
    {"just", "now", "here", "there", "where", "when", "why", "how", "all", "any", "both"} +
    {"each", "few", "more", "most", "other", "some", "such", "only", "own", "same", "also"} +
    {"as", "if", "because", "while", "since", "until", "although", "unless", "whether"}

  /** The second, explicit pronoun list of the basic filter. */
  const Pronouns: seq<string> := ["he", "she", "it", "we", "they", "his", "her", "its", "our"]

  /** The four shapes the high-value regular expressions take. */
  datatype Pattern =
    | CapitalSuffix(suffix: string)   // ^[A-Z][a-z]+suffix$
    | LowerSuffix(suffix: string)     // ^[a-z]+suffix$
    | LowerPrefix(prefix: string)     // ^prefix[a-z]+   (no end anchor)
    | LowerRoot(root: string)         // ^[a-z]*root[a-z]*   (no end anchor)

  const HighValuePatterns: seq<Pattern> := [
    CapitalSuffix("ism"), CapitalSuffix("ology"), CapitalSuffix("graphy"),
    LowerSuffix("tion"), LowerSuffix("ness"), LowerSuffix("ment"), LowerSuffix("ical"),
    LowerSuffix("eous"), LowerSuffix("ous"), LowerSuffix("ing"),
    LowerPrefix("un"), LowerPrefix("re"), LowerPrefix("pre"), LowerPrefix("meta"),
    LowerRoot("phon"), LowerRoot("graph"), LowerRoot("psych"), LowerRoot("philosoph")
  ]

  /** `^[a-z]*root` matched at the start of `s`. */
  predicate RootFrom(s: string, root: string) {
    root <= s || (s != [] && IsLower(s[0]) && RootFrom(s[1..], root))
  }

  /** `pattern.test(s)` */
  predicate Matches(p: Pattern, s: string) {
    match p
    case CapitalSuffix(suf) =>
      |s| >= |suf| + 2 && IsUpper(s[0]) && AllLower(s[1..|s| - |suf|]) && s[|s| - |suf|..] == suf
    case LowerSuffix(suf) =>
      |s| >= |suf| + 1 && AllLower(s[..|s| - |suf|]) && s[|s| - |suf|..] == suf
    case LowerPrefix(pre) =>
      |s| >= |pre| + 1 && s[..|pre|] == pre && IsLower(s[|pre|])
    case LowerRoot(root) =>
      RootFrom(s, root)
  }

  /** `^[A-Z][a-z]+suffix$`: an upper-case letter, a non-empty run of
      lower-case letters, then the suffix, and nothing else. */
  lemma CapitalSuffixMeans(suf: string, s: string)
    ensures Matches(CapitalSuffix(suf), s) <==>
      exists c: char, stem: string :: IsUpper(c) && stem != [] && AllLower(stem) && s == [c] + stem + suf
  {
    if Matches(CapitalSuffix(suf), s) {
      var stem := s[1..|s| - |suf|];
      assert s == [s[0]] + stem + suf;
    }
    if exists c: char, stem: string :: IsUpper(c) && stem != [] && AllLower(stem) && s == [c] + stem + suf {
      var c: char, stem: string :| IsUpper(c) && stem != [] && AllLower(stem) && s == [c] + stem + suf;
      assert s[0] == c && s[1..|s| - |suf|] == stem && s[|s| - |suf|..] == suf;
    }
  }

  /** `^[a-z]+suffix$`: a non-empty run of lower-case letters, then the suffix. */
  lemma LowerSuffixMeans(suf: string, s: string)
    ensures Matches(LowerSuffix(suf), s) <==>
      exists stem :: stem != [] && AllLower(stem) && s == stem + suf
  {
    if Matches(LowerSuffix(suf), s) {
      var stem := s[..|s| - |suf|];
      assert s == stem + suf;
    }
    if exists stem :: stem != [] && AllLower(stem) && s == stem + suf {
      var stem :| stem != [] && AllLower(stem) && s == stem + suf;
      assert s[..|s| - |suf|] == stem && s[|s| - |suf|..] == suf;
    }
  }

  /** `^prefix[a-z]+` (no end anchor): the prefix, then at least one
      lower-case letter, then anything. */
  lemma LowerPrefixMeans(pre: string, s: string)
    ensures Matches(LowerPrefix(pre), s) <==>
      exists rest :: rest != [] && IsLower(rest[0]) && s == pre + rest
  {
    if Matches(LowerPrefix(pre), s) {
      var rest := s[|pre|..];
      assert s == pre + rest;
    }
    if exists rest :: rest != [] && IsLower(rest[0]) && s == pre + rest {
      var rest :| rest != [] && IsLower(rest[0]) && s == pre + rest;
      assert s[..|pre|] == pre && s[|pre|] == rest[0];
    }
  }

  /** `s` is a run of `k` lower-case letters followed by `root` and anything. */
  predicate RootAt(s: string, root: string, k: int) {
    0 <= k <= |s| && AllLower(s[..k]) && root <= s[k..]
  }

  /** `^[a-z]*root` (no end anchor): a run of lower-case letters, possibly
      empty, then the root, then anything. */
  lemma LowerRootMeans(root: string, s: string)
    ensures Matches(LowerRoot(root), s) <==> exists k :: RootAt(s, root, k)
  {
    if RootFrom(s, root) {
      var k := RootFromAt(s, root);
    }
    if exists k :: RootAt(s, root, k) {
      var k :| RootAt(s, root, k);
      RootAtFrom(s, root, k);
    }
  }

  lemma {:induction false} RootFromAt(s: string, root: string) returns (k: int)
    requires RootFrom(s, root)
    ensures RootAt(s, root, k)
  {
    if root <= s {
      k := 0;
      assert s[..0] == [] && s[0..] == s;
    } else {
      var j := RootFromAt(s[1..], root);
      k := j + 1;
      assert s[..k] == [s[0]] + s[1..][..j] && s[k..] == s[1..][j..];
    }
  }

  lemma {:induction false} RootAtFrom(s: string, root: string, k: int)
    requires RootAt(s, root, k)
    ensures RootFrom(s, root)
  {
    if k == 0 {
      assert s[0..] == s;
    } else {
      assert IsLower(s[..k][0]);
      assert s[1..][..k - 1] == s[1..k] && s[1..][k - 1..] == s[k..];
      RootAtFrom(s[1..], root, k - 1);
    }
  }

  /** `highValuePatterns.some(pattern => pattern.test(s))` */
  predicate AnyPattern(s: string) {
    exists i :: 0 <= i < |HighValuePatterns| && Matches(HighValuePatterns[i], s)
  }

  /** `domainKeywords`, in its `Object.entries` order. */
  const Domains: seq<(Category, seq<string>)> := [
    (Science, ["quantum", "molecular", "atomic", "neural", "genetic", "chemical", "physical", "biological"]),
    (Philosophy, ["existential", "metaphysical", "ethical", "consciousness", "reality", "truth", "meaning"]),
    (Psychology, ["cognitive", "behavioral", "emotional", "mental", "psychological", "subconscious"]),
    (Art, ["aesthetic", "creative", "artistic", "visual", "musical", "literary", "cultural"]),
    (History, ["ancient", "medieval", "renaissance", "historical", "traditional", "classical"]),
    (Technology, ["digital", "computational", "algorithmic", "technological", "innovative", "systematic"])
  ]

  /** `importanceWeights.high` followed by `importanceWeights.medium`. */
  const ImportantWords: seq<string> := [
    "concept", "theory", "principle", "phenomenon", "paradigm", "methodology",
    "process", "system", "structure", "function", "element", "factor"
  ]

  /** The over-common verbs `calculateConfidence` penalises. */
  const CommonWords: seq<string> := [
    "time", "make", "take", "come", "know", "get", "give", "think", "look", "use", "find",
    "want", "tell", "ask", "seem", "feel", "try", "leave"
  ]

  /** The three capitalised patterns never match a string without an
      upper-case first letter, in particular no lower-cased string. */
  lemma CapitalPatternsNeedUpper(s: string)
    requires s == [] || !IsUpper(s[0])
    ensures AnyPattern(s) <==> exists i :: 3 <= i < |HighValuePatterns| && Matches(HighValuePatterns[i], s)
  {
  }
}
