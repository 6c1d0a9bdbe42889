/**
 * The older copy of the bracket helpers used by the first converters. Its
 * `escape_word`, `escape_id` and `format_add_lex` are the same functions as in
 * `AlpinoBrackets`; only `format_folia` differs: it wraps even an empty word.
 */
module LegacyBrackets {
  import AlpinoBrackets

  /** `format_folia` of the older copy: always a bracketed hint. */
  function FormatFolia(lemmaText: string, pos: string, word: string): (r: string)
    ensures |r| == 13 + |lemmaText| + |pos| + |word|
    ensures r[..9] == "[ @folia " && r[|r| - 2..] == " ]"
  {
    "[ @folia " + lemmaText + " " + pos + " " + word + " ]"
  }

  /** The two copies agree on every non-empty word and differ exactly on the empty one. */
  lemma FormatFoliaCopies(lemmaText: string, pos: string, word: string)
    ensures word != [] ==> FormatFolia(lemmaText, pos, word) == AlpinoBrackets.FormatFolia(lemmaText, pos, word)
    ensures word == [] ==> AlpinoBrackets.FormatFolia(lemmaText, pos, word) == [] != FormatFolia(lemmaText, pos, word)
  {
  }
}
