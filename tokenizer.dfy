/**
 * `tokenizeText`: `text.split(/(\s+|[.,;:!?()[\]{}"\-–—])/)`.
 *
 * Splitting on a pattern with a capturing group keeps every separator as a
 * token of its own, so the result alternates between the pieces between
 * separators (even indices, possibly empty) and the separators themselves
 * (odd indices): a maximal run of whitespace, or one punctuation character.
 */
module Tokenizer {
  import opened Text

  /** The single-character alternative of the split pattern. */
  predicate IsPunctuation(c: char) {
    c in ".,;:!?()[]{}\"-" || c == '\U{2013}' || c == '\U{2014}'
  }

  predicate IsSeparator(c: char) {
    IsWhitespace(c) || IsPunctuation(c)
  }

  /** A token the split pattern matched. */
  predicate IsSeparatorToken(t: string) {
    (t != [] && AllWhitespace(t)) || (|t| == 1 && IsPunctuation(t[0]))
  }

  /** A piece between two matches: it holds no separator character. */
  predicate IsPiece(t: string) {
    forall i :: 0 <= i < |t| ==> !IsSeparator(t[i])
  }

  /** Pieces at even indices, separators at odd ones, and no two whitespace
      separators with only an empty piece between them (the `\s+` run is
      maximal). */
  predicate WellFormed(tokens: seq<string>) {
    && |tokens| % 2 == 1
    && (forall i :: 0 <= i < |tokens| && i % 2 == 0 ==> IsPiece(tokens[i]))
    && (forall i :: 0 <= i < |tokens| && i % 2 == 1 ==> IsSeparatorToken(tokens[i]))
    && (forall i :: 0 < i < |tokens| - 2 && i % 2 == 1 && AllWhitespace(tokens[i]) && tokens[i + 1] == [] ==>
          !AllWhitespace(tokens[i + 2]))
  }

  /** The tokens joined back together in order. */
  function Concat(tokens: seq<string>): string {
    if tokens == [] then [] else tokens[0] + Concat(tokens[1..])
  }

  /** Length of the whitespace run `s` starts with. */
  function LeadingWhitespace(s: string): (k: nat)
    ensures 0 < k <= |s| || (k == 0 && (s == [] || !IsWhitespace(s[0])))
    ensures AllWhitespace(s[..k])
    ensures k < |s| ==> !IsWhitespace(s[k])
  {
    if s != [] && IsWhitespace(s[0]) then 1 + LeadingWhitespace(s[1..]) else 0
  }

  /** `tokenizeText(text)`: lossless, of odd length, well formed; `""` gives `[""]`. */
  function Tokenize(text: string): (tokens: seq<string>)
    ensures |tokens| > 0 && Concat(tokens) == text
    ensures text == [] ==> tokens == [""]
    ensures text != [] && !IsSeparator(text[0]) ==> tokens[0] != [] && tokens[0][0] == text[0]
    ensures text != [] && IsSeparator(text[0]) ==> tokens[0] == [] && |tokens| >= 3 && tokens[1] != [] && tokens[1][0] == text[0]
    decreases |text|
  {
    if text == [] then [""]
    else if IsWhitespace(text[0]) then
      var k := LeadingWhitespace(text);
      var rest := Tokenize(text[k..]);
      assert text == text[..k] + text[k..];
      ConcatSeparator(text[..k], rest);
      ["", text[..k]] + rest
    else if IsPunctuation(text[0]) then
      var rest := Tokenize(text[1..]);
      assert text == [text[0]] + text[1..];
      ConcatSeparator([text[0]], rest);
      ["", [text[0]]] + rest
    else
      var rest := Tokenize(text[1..]);
      assert text == [text[0]] + text[1..];
      ConcatExtend(text[0], rest);
      [[text[0]] + rest[0]] + rest[1..]
  }

  lemma ConcatCons(a: string, t: seq<string>)
    ensures Concat([a] + t) == a + Concat(t)
  {
    assert ([a] + t)[1..] == t;
  }

  lemma ConcatSeparator(sep: string, rest: seq<string>)
    ensures Concat(["", sep] + rest) == sep + Concat(rest)
  {
    ConcatCons(sep, rest);
    ConcatCons("", [sep] + rest);
    assert ["", sep] + rest == [""] + ([sep] + rest);
  }

  lemma ConcatExtend(c: char, rest: seq<string>)
    requires rest != []
    ensures Concat([[c] + rest[0]] + rest[1..]) == [c] + Concat(rest)
  {
    var a, u := rest[0], rest[1..];
    assert [a] + u == rest;
    ConcatCons(a, u);
    ConcatCons([c] + a, u);
    AppendAssoc([c], a, Concat(u));
  }

  // Stated as a lemma of its own because the solver finds this step far
  // faster here than inline in ConcatExtend.
  lemma AppendAssoc(x: string, y: string, z: string)
    ensures (x + y) + z == x + (y + z)
  {
  }

  lemma ConsSeparator(sep: string, rest: seq<string>)
    requires WellFormed(rest) && IsSeparatorToken(sep)
    requires AllWhitespace(sep) && rest[0] == [] && |rest| > 1 ==> !AllWhitespace(rest[1])
    ensures WellFormed(["", sep] + rest)
  {
    var t := ["", sep] + rest;
    forall i | 0 <= i < |t| && i % 2 == 0 ensures IsPiece(t[i]) {
      if i >= 2 { assert t[i] == rest[i - 2]; }
    }
    forall i | 0 <= i < |t| && i % 2 == 1 ensures IsSeparatorToken(t[i]) {
      if i >= 2 { assert t[i] == rest[i - 2]; }
    }
    forall i | 0 < i < |t| - 2 && i % 2 == 1 && AllWhitespace(t[i]) && t[i + 1] == []
      ensures !AllWhitespace(t[i + 2])
    {
      assert t[i + 2] == rest[i];
      if i >= 2 { assert t[i] == rest[i - 2] && t[i + 1] == rest[i - 1]; }
    }
  }

  lemma ExtendPiece(c: char, rest: seq<string>)
    requires WellFormed(rest) && !IsSeparator(c)
    ensures WellFormed([[c] + rest[0]] + rest[1..])
  {
    var t := [[c] + rest[0]] + rest[1..];
    forall i | 0 <= i < |t| && i % 2 == 0 ensures IsPiece(t[i]) {
      if i >= 1 { assert t[i] == rest[i]; }
    }
    forall i | 0 <= i < |t| && i % 2 == 1 ensures IsSeparatorToken(t[i]) {
      assert t[i] == rest[i];
    }
    forall i | 0 < i < |t| - 2 && i % 2 == 1 && AllWhitespace(t[i]) && t[i + 1] == []
      ensures !AllWhitespace(t[i + 2])
    {
      assert t[i] == rest[i] && t[i + 1] == rest[i + 1] && t[i + 2] == rest[i + 2];
    }
  }

  /** Every tokenization has the alternating piece/separator shape. */
  lemma {:induction false} TokenizeWellFormed(text: string)
    ensures WellFormed(Tokenize(text))
    decreases |text|
  {
    if text == [] {
    } else if IsWhitespace(text[0]) {
      var k := LeadingWhitespace(text);
      TokenizeWellFormed(text[k..]);
      ConsSeparator(text[..k], Tokenize(text[k..]));
    } else if IsPunctuation(text[0]) {
      TokenizeWellFormed(text[1..]);
      ConsSeparator([text[0]], Tokenize(text[1..]));
    } else {
      TokenizeWellFormed(text[1..]);
      ExtendPiece(text[0], Tokenize(text[1..]));
    }
  }
}
