/**
 * `xml.sax.saxutils.escape` with no extra entities: `&` becomes `&amp;`, then
 * `>` becomes `&gt;` and `<` becomes `&lt;`. The attribute escapers of the
 * writers and annotators start from it.
 */
module SaxUtils {
  import opened Text

  function Escape(s: string): string {
    ReplaceChar(ReplaceChar(ReplaceChar(s, '&', "&amp;"), '>', "&gt;"), '<', "&lt;")
  }

  /** What `Escape` makes of one character. */
  function EscapeChar(c: char): string {
    if c == '&' then "&amp;" else if c == '>' then "&gt;" else if c == '<' then "&lt;" else [c]
  }

  lemma EscapeAppend(a: string, b: string)
    ensures Escape(a + b) == Escape(a) + Escape(b)
  {
    ReplaceCharAppend(a, b, '&', "&amp;");
    var a1, b1 := ReplaceChar(a, '&', "&amp;"), ReplaceChar(b, '&', "&amp;");
    ReplaceCharAppend(a1, b1, '>', "&gt;");
    var a2, b2 := ReplaceChar(a1, '>', "&gt;"), ReplaceChar(b1, '>', "&gt;");
    ReplaceCharAppend(a2, b2, '<', "&lt;");
  }

  lemma EscapeSingle(c: char)
    ensures Escape([c]) == EscapeChar(c)
  {
    ReplaceCharSingle(c, '&', "&amp;");
    if c == '&' {
      ReplaceCharAbsent("&amp;", '>', "&gt;");
      ReplaceCharAbsent("&amp;", '<', "&lt;");
    } else {
      ReplaceCharSingle(c, '>', "&gt;");
      if c == '>' {
        ReplaceCharAbsent("&gt;", '<', "&lt;");
      } else {
        ReplaceCharSingle(c, '<', "&lt;");
      }
    }
  }
}
