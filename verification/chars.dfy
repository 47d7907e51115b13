/** The character classes of the shader-source scanner (src/core/Chars.ts). Each
    classifier takes a JavaScript string, so a "character" is a string of length 1. */
module Chars {
  import opened Js

  /** The whitespace strings `isWhitespace` looks up with `indexOf`. */
  const WhitespaceList: seq<string> := ["\t", "\n", "\r", " "]

  /** The sixteen symbol strings `isSymbol` looks up with `indexOf`. */
  const SymbolList: seq<string> :=
    ["(", ")", "{", "}", "=", "-", "+", "*", "/", "#", ">", "<", "^", "%", ".", ";"]

  predicate IsAsciiLetter(ch: char)
  {
    'a' <= ch <= 'z' || 'A' <= ch <= 'Z'
  }

  /** `c.match(re) != null` for a one-character class `re`: some character of `c` is in it. */
  predicate MatchesSomewhere(c: string, cls: char -> bool)
  {
    exists j :: 0 <= j < |c| && cls(c[j])
  }

  /** The characters of the four whitespace strings. */
  predicate IsWhitespaceChar(ch: char)
  {
    ch == '\t' || ch == '\n' || ch == '\r' || ch == ' '
  }

  /** The characters of the sixteen symbols. */
  predicate IsSymbolChar(ch: char)
  {
    ch == '(' || ch == ')' || ch == '{' || ch == '}' || ch == '=' || ch == '-' || ch == '+' || ch == '*'
    || ch == '/' || ch == '#' || ch == '>' || ch == '<' || ch == '^' || ch == '%' || ch == '.' || ch == ';'
  }

  /** `isLetter`: one character, an ASCII letter in either case. */
  predicate IsLetter(c: string)
  {
    |c| == 1 && IsAsciiLetter(c[0])
  }

  /** `isLetterOrDigit`: one character, a letter or a decimal digit. */
  predicate IsLetterOrDigit(c: string)
  {
    |c| == 1 && (IsAsciiLetter(c[0]) || IsDigit(c[0]))
  }

  /** `isWhitespace`: one character, tab, line feed, carriage return or space. */
  predicate IsWhitespace(c: string)
  {
    |c| == 1 && IsWhitespaceChar(c[0])
  }

  /** `isSymbol`: one character, one of the sixteen symbols. */
  predicate IsSymbol(c: string)
  {
    |c| == 1 && IsSymbolChar(c[0])
  }

  /** The two letter tests are the source's regular-expression matches: a length
      check and a case-insensitive `/[a-z]/`, then `/[0-9]/`. */
  lemma LettersAreRegexMatches(c: string)
    ensures IsLetter(c) <==> |c| == 1 && MatchesSomewhere(c, IsAsciiLetter)
    ensures IsLetterOrDigit(c) <==> IsLetter(c) || (|c| == 1 && MatchesSomewhere(c, IsDigit))
  {
    if |c| == 1 && MatchesSomewhere(c, IsAsciiLetter) {
      var j :| 0 <= j < |c| && IsAsciiLetter(c[j]);
      assert j == 0;
    }
    if |c| == 1 && MatchesSomewhere(c, IsDigit) {
      var j :| 0 <= j < |c| && IsDigit(c[j]);
      assert j == 0;
    }
  }

  /** `isWhitespace` is the source's length check and `indexOf` lookup in its list. */
  lemma WhitespaceIsLookup(c: string)
    ensures IsWhitespace(c) <==> |c| == 1 && c in WhitespaceList
  {
    if |c| == 1 {
      assert c == [c[0]];
    }
  }

  /** `isSymbol` is the source's length check and `indexOf` lookup in its list. */
  lemma SymbolIsLookup(c: string)
    ensures IsSymbol(c) <==> |c| == 1 && c in SymbolList
  {
    if |c| == 1 {
      assert c == [c[0]];
    }
  }

  /** The three classes never overlap, and none accepts a string whose length is not 1. */
  lemma ClassesDisjoint(c: string)
    ensures !(IsLetterOrDigit(c) && IsWhitespace(c))
    ensures !(IsLetterOrDigit(c) && IsSymbol(c))
    ensures !(IsWhitespace(c) && IsSymbol(c))
    ensures |c| != 1 ==> !IsLetter(c) && !IsLetterOrDigit(c) && !IsWhitespace(c) && !IsSymbol(c)
  {
  }

  /** Characters the scanner leaves unclassified: underscore, brackets, comma and
      everything outside ASCII. */
  lemma Unclassified(ch: char)
    requires ch == '_' || ch == '[' || ch == ']' || ch == ',' || ch > '\U{007F}'
    ensures !IsLetterOrDigit([ch]) && !IsWhitespace([ch]) && !IsSymbol([ch])
  {
  }
}
