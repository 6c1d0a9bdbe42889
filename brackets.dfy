/**
 * Alpino's bracketed input syntax: brackets in words and ids are escaped with a
 * backslash, `[ @folia lemma pos word ]` and `[ @add_lex correction word ]`
 * give the parser lexical hints.
 */
module AlpinoBrackets {
  import opened Wrappers
  import opened Text

  predicate IsBracket(c: char) {
    c == '[' || c == ']'
  }

  /** What one character becomes in an escaped word. */
  function EscapeChar(c: char): (r: string)
    ensures IsBracket(c) ==> r == ['\\', c]
    ensures !IsBracket(c) ==> r == [c]
  {
    if IsBracket(c) then ['\\', c] else [c]
  }

  /** The escape defined character by character. */
  function EscapeEach(s: string): string {
    if s == [] then [] else EscapeChar(s[0]) + EscapeEach(s[1..])
  }

  function CountBrackets(s: string): nat {
    if s == [] then 0 else (if IsBracket(s[0]) then 1 else 0) + CountBrackets(s[1..])
  }

  /** `escape_word`: `[` becomes `\[`, then `]` becomes `\]`. */
  function EscapeWord(s: string): string {
    ReplaceChar(ReplaceChar(s, '[', "\\["), ']', "\\]")
  }

  /** `escape_id`: `|` becomes `_`, then the result is escaped as a word. */
  function EscapeId(s: string): string {
    EscapeWord(ReplaceChar(s, '|', "_"))
  }

  /** `format_folia`: the hint for a word with a lemma and a part-of-speech tag, or `''` for no word. */
  function FormatFolia(lemmaText: string, pos: string, word: string): (r: string)
    ensures word == [] <==> r == []
  {
    if word == [] then "" else "[ @folia " + lemmaText + " " + pos + " " + word + " ]"
  }

  /** `format_add_lex`: read `word` as if it were `correction`. */
  function FormatAddLex(correction: string, word: string): string {
    "[ @add_lex " + EscapeWord(correction) + " " + EscapeWord(word) + " ]"
  }

  lemma {:induction false} EscapeEachAppend(a: string, b: string)
    ensures EscapeEach(a + b) == EscapeEach(a) + EscapeEach(b)
  {
    if a == [] {
      assert a + b == b;
    } else {
      assert (a + b)[1..] == a[1..] + b;
      EscapeEachAppend(a[1..], b);
    }
  }

  /** The two chained replacements escape every bracket and change nothing else. */
  lemma {:induction false} EscapeWordIsEscapeEach(s: string)
    ensures EscapeWord(s) == EscapeEach(s)
  {
    if s != [] {
      var c, rest := s[0], s[1..];
      assert s == [c] + rest;
      ReplaceCharAppend([c], rest, '[', "\\[");
      var first := ReplaceChar([c], '[', "\\[");
      ReplaceCharAppend(first, ReplaceChar(rest, '[', "\\["), ']', "\\]");
      EscapeWordIsEscapeEach(rest);
      assert ReplaceChar(first, ']', "\\]") == EscapeChar(c);
    }
  }

  /** Escaping adds one backslash per bracket. */
  lemma {:induction false} EscapeWordLength(s: string)
    ensures |EscapeWord(s)| == |s| + CountBrackets(s)
  {
    EscapeWordIsEscapeEach(s);
    EscapeEachLength(s);
  }

  lemma {:induction false} EscapeEachLength(s: string)
    ensures |EscapeEach(s)| == |s| + CountBrackets(s)
  {
    if s != [] {
      EscapeEachLength(s[1..]);
    }
  }

  /** A word without brackets is its own escape. */
  lemma EscapeWordNoBrackets(s: string)
    requires '[' !in s && ']' !in s
    ensures EscapeWord(s) == s
  {
    ReplaceCharAbsent(s, '[', "\\[");
    ReplaceCharAbsent(s, ']', "\\]");
  }

  /** An escaped word never starts with a bracket: every bracket is preceded by its backslash. */
  lemma {:induction false} EscapeEachHead(s: string)
    requires EscapeEach(s) != []
    ensures !IsBracket(EscapeEach(s)[0])
  {
  }

  /** Reads an escaped word back: `\[` and `\]` stand for the bracket, everything else for itself. */
  function Unescape(t: string): string
    decreases |t|
  {
    if t == [] then []
    else if |t| >= 2 && t[0] == '\\' && IsBracket(t[1]) then [t[1]] + Unescape(t[2..])
    else [t[0]] + Unescape(t[1..])
  }

  lemma {:induction false} UnescapeEscapeEach(s: string)
    ensures Unescape(EscapeEach(s)) == s
  {
    if s != [] {
      var c, rest := s[0], s[1..];
      var tail := EscapeEach(rest);
      UnescapeEscapeEach(rest);
      assert EscapeEach(s) == EscapeChar(c) + tail;
      if !IsBracket(c) && c == '\\' && tail != [] {
        EscapeEachHead(rest);
      }
      assert s == [c] + rest;
    }
  }

  /** Escaping loses nothing: `Unescape` inverts `escape_word`, so different words escape differently. */
  lemma EscapeWordRoundTrip(s: string)
    ensures Unescape(EscapeWord(s)) == s
  {
    EscapeWordIsEscapeEach(s);
    UnescapeEscapeEach(s);
  }

  /** An escaped id contains no `|`, the separator between id and sentence. */
  lemma EscapeIdNoBar(s: string)
    ensures '|' !in EscapeId(s)
  {
    var t := ReplaceChar(s, '|', "_");
    ReplaceCharRemoves(s, '|', "_");
    EscapeWordIsEscapeEach(t);
    EscapeEachKeeps(t, '|');
  }

  lemma {:induction false} EscapeEachKeeps(s: string, c: char)
    requires c !in s && c != '\\'
    ensures c !in EscapeEach(s)
  {
    if s != [] {
      EscapeEachKeeps(s[1..], c);
    }
  }

  /** Reads an `add_lex` hint back into its correction and word. */
  function ParseAddLex(t: string): Option<(string, string)> {
    var prefix, suffix := "[ @add_lex ", " ]";
    if |t| < |prefix| + |suffix| || t[..|prefix|] != prefix || t[|t| - |suffix|..] != suffix then None
    else
      var body := t[|prefix|..|t| - |suffix|];
      match Find(body, " ")
      case None => None
      case Some(i) => Some((Unescape(body[..i]), Unescape(body[i + 1..])))
  }

  /** A correction without spaces and the word can be recovered from the hint. */
  lemma {:induction false} AddLexRoundTrip(correction: string, word: string)
    requires ' ' !in correction
    ensures ParseAddLex(FormatAddLex(correction, word)) == Some((correction, word))
  {
    var c, w := EscapeWord(correction), EscapeWord(word);
    var t := FormatAddLex(correction, word);
    var body := c + " " + w;
    assert t == "[ @add_lex " + body + " ]";
    assert |t| == 13 + |body|;
    assert t[..11] == "[ @add_lex ";
    assert t[|t| - 2..] == " ]";
    assert t[11..|t| - 2] == body;
    EscapeWordIsEscapeEach(correction);
    EscapeEachKeeps(correction, ' ');
    FindAfterSpaceFree(c, w);
    assert body[..|c|] == c && body[|c| + 1..] == w;
    EscapeWordRoundTrip(correction);
    EscapeWordRoundTrip(word);
  }

  /** The first space of `c + " " + w` is the one after `c` when `c` has none. */
  lemma {:induction false} FindAfterSpaceFree(c: string, w: string)
    requires ' ' !in c
    ensures Find(c + " " + w, " ") == Some(|c|)
  {
    var body := c + " " + w;
    assert body[|c|..|c| + 1] == " ";
    ContainsAt(body, " ", |c|);
    FindNone(body, " ");
    var found := Find(body, " ");
    assert body[found.value..found.value + 1] == " ";
    assert body[found.value] == ' ';
    assert forall j :: 0 <= j < |c| ==> body[j] == c[j];
    assert found.value >= |c|;
    assert body[|c|..][..1] == " ";
    FindIsFirst(body, " ");
    assert " " <= body[|c|..];
  }
}
