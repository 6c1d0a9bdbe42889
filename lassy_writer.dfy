/**
 * The Lassy XML writer. Every utterance's parse (its `alpino` annotation) is
 * written out with the document's and the utterance's metadata re-embedded:
 * `<meta>` lines already inside a `<metadata>` block are re-rendered from the
 * metadata and the rest is inserted as a block of its own. In merge mode the
 * parses go into one `<treebank>`; otherwise each goes to a file `k.xml`.
 */
module LassyWriter {
  import Seqs
  import opened Wrappers
  import opened Text
  import opened Dicts
  import opened Models
  import SaxUtils
  import AlpinoAnnotator

  // Attribute escaping

  /**
   * `escape_xml_attribute`: `&`, `<` and `>` are escaped as in XML 1.0 section
   * 2.4, `\n` becomes a character reference so that attribute-value
   * normalisation (section 3.3.3) keeps it, `\r` is dropped, `"` becomes
   * `&quot;` and the CHAT time-alignment mark U+0015 becomes `&#183;`.
   */
  function EscapeXmlAttribute(value: string): string {
    Later(SaxUtils.Escape(value))
  }

  /** The replacements after `xml.sax.saxutils.escape`, in the order they are applied. */
  function Later(t: string): string {
    AfterNewline(ReplaceChar(t, '\n', "&#10;"))
  }

  function AfterNewline(t: string): string {
    ReplaceChar(ReplaceChar(ReplaceChar(t, '\r', ""), '"', "&quot;"), '\U{15}', "&#183;")
  }

  /** What `EscapeXmlAttribute` makes of one character. */
  function AttributeChar(c: char): string {
    if c == '\n' then "&#10;"
    else if c == '\r' then ""
    else if c == '"' then "&quot;"
    else if c == '\U{15}' then "&#183;"
    else SaxUtils.EscapeChar(c)
  }

  function EscapeEach(s: string): string {
    if s == [] then [] else AttributeChar(s[0]) + EscapeEach(s[1..])
  }

  lemma EscapeAppend(a: string, b: string)
    ensures EscapeXmlAttribute(a + b) == EscapeXmlAttribute(a) + EscapeXmlAttribute(b)
  {
    SaxUtils.EscapeAppend(a, b);
    LaterAppend(SaxUtils.Escape(a), SaxUtils.Escape(b));
  }

  lemma LaterAppend(a0: string, b0: string)
    ensures Later(a0 + b0) == Later(a0) + Later(b0)
  {
    ReplaceCharAppend(a0, b0, '\n', "&#10;");
    var a1, b1 := ReplaceChar(a0, '\n', "&#10;"), ReplaceChar(b0, '\n', "&#10;");
    ReplaceCharAppend(a1, b1, '\r', "");
    var a2, b2 := ReplaceChar(a1, '\r', ""), ReplaceChar(b1, '\r', "");
    ReplaceCharAppend(a2, b2, '"', "&quot;");
    var a3, b3 := ReplaceChar(a2, '"', "&quot;"), ReplaceChar(b2, '"', "&quot;");
    ReplaceCharAppend(a3, b3, '\U{15}', "&#183;");
  }

  /** The later replacements leave a string without their characters alone. */
  lemma LaterAbsent(t: string)
    requires '\n' !in t && '\r' !in t && '"' !in t && '\U{15}' !in t
    ensures Later(t) == t
  {
    ReplaceCharAbsent(t, '\n', "&#10;");
    ReplaceCharAbsent(t, '\r', "");
    ReplaceCharAbsent(t, '"', "&quot;");
    ReplaceCharAbsent(t, '\U{15}', "&#183;");
  }

  lemma EscapeSingle(c: char)
    ensures EscapeXmlAttribute([c]) == AttributeChar(c)
  {
    if c == '&' || c == '<' || c == '>' {
      EscapeEntity(c);
    } else {
      EscapePlain(c);
    }
  }

  lemma EscapeEntity(c: char)
    requires c == '&' || c == '<' || c == '>'
    ensures EscapeXmlAttribute([c]) == AttributeChar(c)
  {
    SaxUtils.EscapeSingle(c);
    LaterEntity(c);
  }

  lemma EscapePlain(c: char)
    requires c != '&' && c != '<' && c != '>'
    ensures EscapeXmlAttribute([c]) == AttributeChar(c)
  {
    SaxUtils.EscapeSingle(c);
    LaterSingle(c);
  }

  lemma LaterEntity(c: char)
    requires c == '&' || c == '<' || c == '>'
    ensures Later(SaxUtils.EscapeChar(c)) == AttributeChar(c)
  {
    var t := SaxUtils.EscapeChar(c);
    assert '\n' !in t && '\r' !in t && '"' !in t && '\U{15}' !in t;
    LaterAbsent(t);
  }

  lemma AfterNewlineAbsent(t: string)
    requires '\r' !in t && '"' !in t && '\U{15}' !in t
    ensures AfterNewline(t) == t
  {
    ReplaceCharAbsent(t, '\r', "");
    ReplaceCharAbsent(t, '"', "&quot;");
    ReplaceCharAbsent(t, '\U{15}', "&#183;");
  }

  lemma LaterSingle(c: char)
    requires c != '&' && c != '<' && c != '>'
    ensures Later([c]) == AttributeChar(c)
  {
    ReplaceCharSingle(c, '\n', "&#10;");
    if c == '\n' {
      var t := "&#10;";
      assert '\r' !in t && '"' !in t && '\U{15}' !in t;
      AfterNewlineAbsent(t);
    } else {
      AfterNewlineSingle(c);
    }
  }

  lemma AfterNewlineSingle(c: char)
    requires c != '&' && c != '<' && c != '>' && c != '\n'
    ensures AfterNewline([c]) == AttributeChar(c)
  {
    ReplaceCharSingle(c, '\r', "");
    if c == '\r' {
      assert ReplaceChar([c], '\r', "") == [];
    } else {
      ReplaceCharSingle(c, '"', "&quot;");
      if c == '"' {
        var t := "&quot;";
        assert '\U{15}' !in t;
        ReplaceCharAbsent(t, '\U{15}', "&#183;");
      } else {
        ReplaceCharSingle(c, '\U{15}', "&#183;");
      }
    }
  }

  /** The chain of replacements escapes each character on its own. */
  lemma {:induction false} EscapeIsEscapeEach(s: string)
    ensures EscapeXmlAttribute(s) == EscapeEach(s)
  {
    if s != [] {
      assert s == [s[0]] + s[1..];
      EscapeAppend([s[0]], s[1..]);
      EscapeSingle(s[0]);
      EscapeIsEscapeEach(s[1..]);
    }
  }

  /** A character that may stand in a `"`-delimited attribute value as it is. */
  predicate AttributeSafe(c: char) {
    c != '<' && c != '"' && c != '\n' && c != '\r'
  }

  /** The escaped value has no `<`, no `"` and no line break. */
  lemma {:induction false} EscapedSafe(s: string)
    ensures forall i :: 0 <= i < |EscapeXmlAttribute(s)| ==> AttributeSafe(EscapeXmlAttribute(s)[i])
  {
    EscapeIsEscapeEach(s);
    EscapeEachSafe(s);
  }

  lemma {:induction false} EscapeEachSafe(s: string)
    ensures forall i :: 0 <= i < |EscapeEach(s)| ==> AttributeSafe(EscapeEach(s)[i])
  {
    if s != [] {
      EscapeEachSafe(s[1..]);
      var head := AttributeChar(s[0]);
      assert forall i :: 0 <= i < |head| ==> AttributeSafe(head[i]);
      var r := EscapeEach(s);
      assert r == head + EscapeEach(s[1..]);
      forall i | 0 <= i < |r| ensures AttributeSafe(r[i]) {
        if i >= |head| {
          assert r[i] == EscapeEach(s[1..])[i - |head|];
        }
      }
    }
  }

  /** How an XML processor reads the references the escaper writes back into characters. */
  function ReadAttribute(t: string): string
    decreases |t|
  {
    if t == [] then []
    else if "&amp;" <= t then "&" + ReadAttribute(t[5..])
    else if "&lt;" <= t then "<" + ReadAttribute(t[4..])
    else if "&gt;" <= t then ">" + ReadAttribute(t[4..])
    else if "&quot;" <= t then "\"" + ReadAttribute(t[6..])
    else if "&#10;" <= t then "\n" + ReadAttribute(t[5..])
    else if "&#183;" <= t then "\U{B7}" + ReadAttribute(t[6..])
    else [t[0]] + ReadAttribute(t[1..])
  }

  /** What a value reads back as: `\r` is lost and U+0015 comes back as a middle dot. */
  function ReadBackChar(c: char): string {
    if c == '\r' then "" else if c == '\U{15}' then "\U{B7}" else [c]
  }

  function ReadBack(s: string): string {
    if s == [] then [] else ReadBackChar(s[0]) + ReadBack(s[1..])
  }

  lemma ReadEscapedChar(c: char, rest: string)
    ensures ReadAttribute(AttributeChar(c) + rest) == ReadBackChar(c) + ReadAttribute(rest)
  {
    if c == '&' || c == '<' || c == '>' || c == '"' || c == '\n' || c == '\U{15}' {
      ReadEntity(c, rest);
    } else if c == '\r' {
      assert AttributeChar(c) + rest == rest;
    } else {
      ReadPlainChar(c, rest);
    }
  }

  lemma ReadEntity(c: char, rest: string)
    requires c == '&' || c == '<' || c == '>' || c == '"' || c == '\n' || c == '\U{15}'
    ensures ReadAttribute(AttributeChar(c) + rest) == ReadBackChar(c) + ReadAttribute(rest)
  {
    var e := AttributeChar(c);
    var t := e + rest;
    assert e <= t && t[|e|..] == rest;
    if c != '&' {
      assert t[1] == e[1];
    }
    if c == '\n' || c == '\U{15}' {
      assert t[2] == e[2] && t[3] == e[3];
    }
  }

  lemma ReadPlainChar(c: char, rest: string)
    requires c !in "&<>\"\n\r\U{15}"
    ensures ReadAttribute(AttributeChar(c) + rest) == ReadBackChar(c) + ReadAttribute(rest)
  {
    var t := [c] + rest;
    assert AttributeChar(c) == [c];
    assert t[0] == c && t[1..] == rest;
  }

  /**
   * Reading the escaped value back gives the value, except that `\r` is gone
   * and U+0015 has become a middle dot.
   */
  lemma {:induction false} ReadEscaped(s: string)
    ensures ReadAttribute(EscapeXmlAttribute(s)) == ReadBack(s)
  {
    EscapeIsEscapeEach(s);
    ReadEscapeEach(s);
  }

  lemma {:induction false} ReadEscapeEach(s: string)
    ensures ReadAttribute(EscapeEach(s)) == ReadBack(s)
  {
    if s != [] {
      ReadEscapedChar(s[0], EscapeEach(s[1..]));
      ReadEscapeEach(s[1..]);
    }
  }

  /** A value with neither `\r` nor U+0015 is read back exactly. */
  lemma {:induction false} ReadBackPlain(s: string)
    requires '\r' !in s && '\U{15}' !in s
    ensures ReadBack(s) == s
  {
    if s != [] {
      assert s[0] in s;
      ReadBackPlain(s[1..]);
    }
  }

  // Rendering metadata

  /** `render_metadata_value(key, item)` */
  function RenderValue(key: string, item: MetadataValue): string {
    "<meta type=\"" + item.kind + "\" name=\"" + key + "\" value=\"" + EscapeXmlAttribute(item.value) + "\" />"
  }

  function RenderValues(metadata: seq<(string, MetadataValue)>): (r: seq<string>)
    ensures |r| == |metadata|
    ensures forall i :: 0 <= i < |r| ==> r[i] == RenderValue(metadata[i].0, metadata[i].1)
  {
    seq(|metadata|, i requires 0 <= i < |metadata| => RenderValue(metadata[i].0, metadata[i].1))
  }

  /** `render_metadata(metadata, wrap)`: the lines in the map's order, inside `<metadata>` … `</metadata>` when wrapped. */
  function RenderMetadata(metadata: Metadata, wrap: bool): string {
    (if wrap then "<metadata>\n" else "") + Join("\n", RenderValues(metadata)) + (if wrap then "\n</metadata>" else "")
  }

  // The meta-name search

  /** `name="` at `p`, a non-empty run of non-quote characters and its closing quote, and a `/>` somewhere after that. */
  function NameAt(line: string, p: nat): (r: Option<string>)
    ensures r.Some? ==> p + 6 + |r.value| < |line| && line[p..p + 6] == "name=\"" && line[p + 6..p + 6 + |r.value|] == r.value
    ensures r.Some? ==> |r.value| > 0 && '"' !in r.value && line[p + 6 + |r.value|] == '"'
  {
    if p + 6 <= |line| && line[p..p + 6] == "name=\"" then
      match Find(line[p + 6..], "\"")
      case None => None
      case Some(j) =>
        var q := p + 6 + j;
        if j > 0 && Contains(line[q + 1..], "/>") then
          QuoteFree(line[p + 6..], j);
          assert line[p + 6..q] == line[p + 6..][..j];
          Some(line[p + 6..q])
        else None
    else None
  }

  /** The name found at the last position in `[lo, hi)` that has one. */
  function LastName(line: string, lo: nat, hi: nat): (r: Option<string>)
    requires lo <= hi <= |line|
    decreases hi - lo
  {
    if hi == lo then None
    else match NameAt(line, hi - 1)
      case Some(name) => Some(name)
      case None => LastName(line, lo, hi - 1)
  }

  /**
   * `re.search('<meta .*name="([^"]+)".*?/>', line)`, group 1: the search
   * starts at the first `<meta `, and the greedy `.*` takes the last `name="`
   * after it that is followed by a name, its closing quote and a `/>`.
   */
  function MetaName(line: string): Option<string> {
    match Find(line, "<meta ")
    case None => None
    case Some(m) => LastName(line, m + 6, |line|)
  }

  // Re-rendering the lines

  /**
   * The state of the line loop of `render_annotation`: the lines, the entries
   * not written yet, the index of the block start or end found so far (-1 for
   * none), where each entry written in place went, and whether `</metadata>`
   * ended the loop.
   */
  datatype Rewrite = Rewrite(lines: seq<string>, pending: Metadata, existing: int, placed: Dict<nat>, closed: bool)

  /** One line of the loop; a `<meta>` line naming an entry that is no longer pending raises `KeyError`. */
  function RewriteLine(st: Rewrite, i: nat): (r: Result<Rewrite>)
    requires i < |st.lines|
    ensures r.Ok? ==> |r.value.lines| == |st.lines|
  {
    var line := st.lines[i];
    if Contains(line, "<metadata") then Ok(st.(existing := i))
    else if st.existing < 0 then Ok(st)
    else match MetaName(line)
      case Some(name) =>
        if Has(st.pending, name) then
          Ok(Rewrite(st.lines[i := RenderValue(name, Get(st.pending, name))], Delete(st.pending, name), st.existing, Set(st.placed, name, i), false))
        else Err("KeyError: " + name)
      case None =>
        if Contains(line, "</metadata>") then Ok(st.(existing := i, closed := true)) else Ok(st)
  }

  /** The loop from line `i` on, until the lines run out or `</metadata>` is found. */
  function RewriteFrom(st: Rewrite, i: nat): Result<Rewrite>
    requires i <= |st.lines|
    decreases |st.lines| - i
  {
    if i == |st.lines| then Ok(st)
    else match RewriteLine(st, i)
      case Err(e) => Err(e)
      case Ok(next) => if next.closed then Ok(next) else RewriteFrom(next, i + 1)
  }

  /** The lines of the annotation, without the header line and with the new last line right-stripped when asked; `IndexError` when too short. */
  function Lines(annotation: string, removeHeader: bool): Result<seq<string>> {
    var lines := SplitLines(annotation);
    if !removeHeader then Ok(lines)
    else if |lines| < 2 then Err("IndexError: list index out of range")
    else
      var rest := lines[1..];
      Ok(rest[|rest| - 1 := RStrip(rest[|rest| - 1])])
  }

  /** The combined metadata: the document's, overlaid by the utterance's. */
  function Combined(docMetadata: Metadata, u: Utterance): Metadata {
    Overlay(docMetadata, u.metadata)
  }

  function Start(lines: seq<string>, metadata: Metadata): Rewrite {
    Rewrite(lines, metadata, -1, [], false)
  }

  /** The lines after re-rendering, and the leftover entries inserted where `render_annotation` puts them. */
  function Finish(st: Rewrite): seq<string> {
    if st.pending == [] then st.lines else Insert(st.lines, st.existing, RenderMetadata(st.pending, st.existing == -1))
  }

  /** `render_annotation(document, utterance, remove_header)` */
  function Render(docMetadata: Metadata, u: Utterance, removeHeader: bool): Result<string> {
    var metadata := Combined(docMetadata, u);
    if !Has(u.annotations, AlpinoAnnotator.AnnotationKey) then Err("KeyError: " + AlpinoAnnotator.AnnotationKey)
    else
      var annotation := Get(u.annotations, AlpinoAnnotator.AnnotationKey);
      if metadata == [] && !removeHeader then Ok(annotation)
      else match Lines(annotation, removeHeader)
        case Err(e) => Err(e)
        case Ok(lines) =>
          if metadata == [] then Ok(Join("\n", lines))
          else match RewriteFrom(Start(lines, metadata), 0)
            case Err(e) => Err(e)
            case Ok(st) => Ok(Join("\n", Finish(st)))
  }

  lemma RewriteStep(st: Rewrite, i: nat, next: Rewrite)
    requires i < |st.lines| && RewriteLine(st, i) == Ok(next) && !next.closed
    ensures RewriteFrom(st, i) == RewriteFrom(next, i + 1)
  {
  }

  lemma RewriteStops(st: Rewrite, i: nat)
    requires i < |st.lines| && (RewriteLine(st, i).Err? || RewriteLine(st, i).value.closed)
    ensures RewriteFrom(st, i) == RewriteLine(st, i)
  {
  }

  /** The line loop of `render_annotation`, on a list of lines and a pending map that it changes. */
  method RewriteLines(lines0: seq<string>, metadata: Metadata) returns (r: Result<(seq<string>, Metadata, int)>)
    ensures match RewriteFrom(Start(lines0, metadata), 0)
            case Err(e) => r == Err(e)
            case Ok(st) => r == Ok((st.lines, st.pending, st.existing))
  {
    var lines, pending, existing := lines0, metadata, -1;
    ghost var placed: Dict<nat> := [];
    var i := 0;
    while i < |lines|
      invariant 0 <= i <= |lines| == |lines0|
      invariant RewriteFrom(Rewrite(lines, pending, existing, placed, false), i) == RewriteFrom(Start(lines0, metadata), 0)
      decreases |lines| - i
    {
      ghost var st := Rewrite(lines, pending, existing, placed, false);
      var line := lines[i];
      if Contains(line, "<metadata") {
        existing := i;
      } else if existing >= 0 {
        var found := MetaName(line);
        if found.Some? {
          var name := found.value;
          if !Has(pending, name) {
            RewriteStops(st, i);
            return Err("KeyError: " + name);
          }
          lines := lines[i := RenderValue(name, Get(pending, name))];
          pending := Delete(pending, name);
          placed := Set(placed, name, i);
        } else if Contains(line, "</metadata>") {
          existing := i;
          RewriteStops(st, i);
          return Ok((lines, pending, existing));
        }
      }
      RewriteStep(st, i, Rewrite(lines, pending, existing, placed, false));
      i := i + 1;
    }
    return Ok((lines, pending, existing));
  }

  /** `render_annotation`, with the lines and the pending map updated in place. */
  method RenderAnnotation(docMetadata: Metadata, u: Utterance, removeHeader: bool) returns (r: Result<string>)
    ensures r == Render(docMetadata, u, removeHeader)
  {
    var metadata := Overlay(docMetadata, u.metadata);
    if !Has(u.annotations, AlpinoAnnotator.AnnotationKey) {
      return Err("KeyError: " + AlpinoAnnotator.AnnotationKey);
    }
    var annotation := Get(u.annotations, AlpinoAnnotator.AnnotationKey);
    if metadata == [] && !removeHeader {
      return Ok(annotation);
    }
    var lines := SplitLines(annotation);
    if removeHeader {
      if |lines| < 2 {
        return Err("IndexError: list index out of range");
      }
      lines := lines[1..];
      lines := lines[|lines| - 1 := RStrip(lines[|lines| - 1])];
    }
    var existing := -1;
    if metadata != [] {
      var rewritten := RewriteLines(lines, metadata);
      if rewritten.Err? {
        return Err(rewritten.error);
      }
      lines, metadata, existing := rewritten.value.0, rewritten.value.1, rewritten.value.2;
    }
    if metadata != [] {
      lines := Insert(lines, existing, RenderMetadata(metadata, existing == -1));
    }
    return Ok(Join("\n", lines));
  }

  // What the rewriting keeps

  /**
   * Every entry of the combined metadata is either still pending, with its
   * value, or was written in place on an earlier line, never both.
   */
  ghost predicate Accounted(metadata: Metadata, st: Rewrite, i: nat) {
    && (forall k :: Has(metadata, k) <==> Has(st.pending, k) || Has(st.placed, k))
    && (forall k :: Has(st.pending, k) ==> !Has(st.placed, k) && Has(metadata, k) && Get(st.pending, k) == Get(metadata, k))
    && (forall k :: Has(st.placed, k) ==> Has(metadata, k) && Get(st.placed, k) < i && Get(st.placed, k) < |st.lines|
                                          && st.lines[Get(st.placed, k)] == RenderValue(k, Get(metadata, k)))
  }

  lemma RewriteLineAccounted(metadata: Metadata, st: Rewrite, i: nat)
    requires i < |st.lines| && Accounted(metadata, st, i) && RewriteLine(st, i).Ok?
    ensures Accounted(metadata, RewriteLine(st, i).value, i + 1)
  {
    var line := st.lines[i];
    if !Contains(line, "<metadata") && st.existing >= 0 && MetaName(line).Some? {
      var name := MetaName(line).value;
      var next := RewriteLine(st, i).value;
      assert next.pending == Delete(st.pending, name) && next.placed == Set(st.placed, name, i);
      forall k | Has(next.placed, k)
        ensures Has(metadata, k) && Get(next.placed, k) < i + 1 && Get(next.placed, k) < |next.lines|
                && next.lines[Get(next.placed, k)] == RenderValue(k, Get(metadata, k))
      {
        if k != name {
          assert Has(st.placed, k) && Get(next.placed, k) == Get(st.placed, k);
        }
      }
    }
  }

  /** The rewriting loop keeps every entry accounted for. */
  lemma {:induction false} RewriteFromAccounted(metadata: Metadata, st: Rewrite, i: nat)
    requires i <= |st.lines| && Accounted(metadata, st, i) && RewriteFrom(st, i).Ok?
    ensures Accounted(metadata, RewriteFrom(st, i).value, |st.lines|)
    decreases |st.lines| - i
  {
    if i < |st.lines| {
      RewriteLineAccounted(metadata, st, i);
      var next := RewriteLine(st, i).value;
      if !next.closed {
        RewriteFromAccounted(metadata, next, i + 1);
      } else {
        AccountedLater(metadata, next, i + 1, |st.lines|);
      }
    }
  }

  lemma AccountedLater(metadata: Metadata, st: Rewrite, i: nat, j: nat)
    requires Accounted(metadata, st, i) && i <= j
    ensures Accounted(metadata, st, j)
  {
  }

  /**
   * Rendering keeps every entry of the combined metadata: each one is either
   * re-rendered on the line where its `<meta>` stood or written in the block
   * of leftover entries, which holds exactly the entries not written in place.
   */
  lemma RenderKeepsEntries(lines: seq<string>, metadata: Metadata)
    requires RewriteFrom(Start(lines, metadata), 0).Ok?
    ensures var st := RewriteFrom(Start(lines, metadata), 0).value;
            forall k :: Has(metadata, k) ==>
              || (Has(st.placed, k) && !Has(st.pending, k) && Get(st.placed, k) < |st.lines| && st.lines[Get(st.placed, k)] == RenderValue(k, Get(metadata, k)))
              || (Has(st.pending, k) && !Has(st.placed, k) && Get(st.pending, k) == Get(metadata, k))
  {
    var start := Start(lines, metadata);
    assert Accounted(metadata, start, 0) by {
      forall k | Has(metadata, k) ensures Get(start.pending, k) == Get(metadata, k) {
      }
    }
    RewriteFromAccounted(metadata, start, 0);
  }

  /** Without a `<metadata` line nothing is rewritten: the whole metadata is left over, with no block position. */
  lemma {:induction false} NoBlockUntouched(st: Rewrite, i: nat)
    requires i <= |st.lines| && st.existing == -1 && !st.closed
    requires forall j :: i <= j < |st.lines| ==> !Contains(st.lines[j], "<metadata")
    ensures RewriteFrom(st, i) == Ok(st)
    decreases |st.lines| - i
  {
    if i < |st.lines| {
      NoBlockUntouched(st, i + 1);
    }
  }

  /**
   * An annotation without a `<metadata` line gets all the combined metadata
   * as one wrapped block inserted before its last line.
   */
  lemma NoBlockInsertsWrapped(docMetadata: Metadata, u: Utterance, removeHeader: bool, lines: seq<string>)
    requires Has(u.annotations, AlpinoAnnotator.AnnotationKey)
    requires Combined(docMetadata, u) != []
    requires Lines(Get(u.annotations, AlpinoAnnotator.AnnotationKey), removeHeader) == Ok(lines)
    requires forall j :: 0 <= j < |lines| ==> !Contains(lines[j], "<metadata")
    ensures Render(docMetadata, u, removeHeader) == Ok(Join("\n", Insert(lines, -1, RenderMetadata(Combined(docMetadata, u), true))))
  {
    NoBlockUntouched(Start(lines, Combined(docMetadata, u)), 0);
  }

  /** With no metadata at all and the header kept, the annotation is returned as it is. */
  lemma NoMetadataVerbatim(docMetadata: Metadata, u: Utterance)
    requires Has(u.annotations, AlpinoAnnotator.AnnotationKey)
    requires docMetadata == [] && u.metadata == []
    ensures Render(docMetadata, u, false) == Ok(Get(u.annotations, AlpinoAnnotator.AnnotationKey))
  {
    OverlayEmpty(u.metadata);
  }

  // Writing a document

  const TreebankHeader := "<?xml version=\"1.0\" encoding=\"UTF-8\"?>\n<treebank>"
  const TreebankFooter := "</treebank>"

  /** The rendered utterances in order, up to the first one that fails, and that failure. */
  function RenderAll(docMetadata: Metadata, us: seq<Utterance>, removeHeader: bool): (r: (seq<string>, Option<string>))
    ensures |r.0| <= |us| && (r.1.None? ==> |r.0| == |us|) && (r.1.Some? ==> |r.0| < |us|)
  {
    if us == [] then ([], None)
    else match Render(docMetadata, us[0], removeHeader)
      case Err(e) => ([], Some(e))
      case Ok(s) =>
        var rest := RenderAll(docMetadata, us[1..], removeHeader);
        ([s] + rest.0, rest.1)
  }

  /** Every rendered utterance is what `render_annotation` makes of it, and the failure is the first utterance that fails. */
  lemma {:induction false} RenderAllSound(docMetadata: Metadata, us: seq<Utterance>, removeHeader: bool)
    ensures var r := RenderAll(docMetadata, us, removeHeader);
            && (forall k :: 0 <= k < |r.0| ==> Render(docMetadata, us[k], removeHeader) == Ok(r.0[k]))
            && (r.1.Some? ==> Render(docMetadata, us[|r.0|], removeHeader) == Err(r.1.value))
  {
    if us != [] && Render(docMetadata, us[0], removeHeader).Ok? {
      var s := Render(docMetadata, us[0], removeHeader).value;
      var rest := RenderAll(docMetadata, us[1..], removeHeader);
      RenderAllSound(docMetadata, us[1..], removeHeader);
      var r := RenderAll(docMetadata, us, removeHeader);
      assert r.0 == [s] + rest.0 && r.1 == rest.1;
      forall k | 0 <= k < |r.0|
        ensures Render(docMetadata, us[k], removeHeader) == Ok(r.0[k])
      {
        if k > 0 {
          assert us[k] == us[1..][k - 1] && r.0[k] == rest.0[k - 1];
        }
      }
      if r.1.Some? {
        assert us[|r.0|] == us[1..][|rest.0|];
      }
    }
  }

  function Plain(contents: seq<string>): (r: seq<TargetWrite>)
    ensures |r| == |contents| && forall k :: 0 <= k < |r| ==> r[k] == TargetWrite(contents[k], None, None)
  {
    seq(|contents|, k requires 0 <= k < |contents| => TargetWrite(contents[k], None, None))
  }

  /** The file name of the `k`-th utterance, counting from 1. */
  function FileName(k: nat): string {
    NatToString(k) + ".xml"
  }

  /** Split mode: the `k`-th write (from 0) goes to the file named after `k + 1`. */
  function Numbered(contents: seq<string>): (r: seq<TargetWrite>)
    ensures |r| == |contents| && forall k :: 0 <= k < |r| ==> r[k] == TargetWrite(contents[k], Some(FileName(k + 1)), None)
  {
    seq(|contents|, k requires 0 <= k < |contents| => TargetWrite(contents[k], Some(FileName(k + 1)), None))
  }

  /** The writes of `LassyWriter.write` once the utterances are rendered: merge mode wraps them in the treebank header and, when nothing failed, footer. */
  function WritesOf(rendered: seq<string>, failure: Option<string>, merge: bool): seq<TargetWrite> {
    if merge then
      [TargetWrite(TreebankHeader, None, None)] + Plain(rendered) + (if failure.None? then [TargetWrite(TreebankFooter, None, None)] else [])
    else Numbered(rendered)
  }

  /** The writes of `LassyWriter.write`, and the error it raises, if any, after them. */
  function Writes(document: Document, merge: bool): (seq<TargetWrite>, Option<string>) {
    var (rendered, failure) := RenderAll(document.metadata, document.utterances, merge);
    (WritesOf(rendered, failure, merge), failure)
  }

  lemma RenderAllStep(docMetadata: Metadata, us: seq<Utterance>, i: nat, removeHeader: bool, s: string)
    requires i < |us| && Render(docMetadata, us[i], removeHeader) == Ok(s)
    ensures RenderAll(docMetadata, us[i..], removeHeader).0 == [s] + RenderAll(docMetadata, us[i + 1..], removeHeader).0
    ensures RenderAll(docMetadata, us[i..], removeHeader).1 == RenderAll(docMetadata, us[i + 1..], removeHeader).1
  {
    assert us[i..][1..] == us[i + 1..];
  }

  lemma RenderAllFails(docMetadata: Metadata, us: seq<Utterance>, i: nat, removeHeader: bool, e: string)
    requires i < |us| && Render(docMetadata, us[i], removeHeader) == Err(e)
    ensures RenderAll(docMetadata, us[i..], removeHeader) == ([], Some(e))
  {
    assert us[i..][0] == us[i];
  }

  /** The loop of `LassyWriter.write` over the utterances, stopping at the first failure. */
  method RenderUtterances(document: Document, removeHeader: bool) returns (rendered: seq<string>, failure: Option<string>)
    ensures (rendered, failure) == RenderAll(document.metadata, document.utterances, removeHeader)
  {
    var us := document.utterances;
    rendered := [];
    var i := 0;
    while i < |us|
      invariant 0 <= i <= |us|
      invariant rendered + RenderAll(document.metadata, us[i..], removeHeader).0 == RenderAll(document.metadata, us, removeHeader).0
      invariant RenderAll(document.metadata, us[i..], removeHeader).1 == RenderAll(document.metadata, us, removeHeader).1
    {
      var r := RenderAnnotation(document.metadata, us[i], removeHeader);
      if r.Err? {
        RenderAllFails(document.metadata, us, i, removeHeader, r.error);
        assert rendered == RenderAll(document.metadata, us, removeHeader).0;
        return rendered, Some(r.error);
      }
      RenderAllStep(document.metadata, us, i, removeHeader, r.value);
      Seqs.Regroup(rendered, [r.value], RenderAll(document.metadata, us[i + 1..], removeHeader).0);
      rendered := rendered + [r.value];
      i := i + 1;
    }
    assert us[i..] == [];
    assert RenderAll(document.metadata, us[i..], removeHeader) == ([], None);
    assert rendered == RenderAll(document.metadata, us, removeHeader).0;
    return rendered, None;
  }

  /** The loop of merge mode: one write per rendered utterance, with no file name. */
  method WritePlain(rendered: seq<string>) returns (writes: seq<TargetWrite>)
    ensures writes == Plain(rendered)
  {
    writes := [];
    var k := 0;
    while k < |rendered|
      invariant 0 <= k <= |rendered|
      invariant writes == Plain(rendered[..k])
    {
      assert rendered[..k + 1] == rendered[..k] + [rendered[k]];
      writes := writes + [TargetWrite(rendered[k], None, None)];
      k := k + 1;
    }
    assert rendered[..k] == rendered;
  }

  /** The loop of split mode: `index` counts the utterances from 1 and names their files. */
  method WriteNumbered(rendered: seq<string>) returns (writes: seq<TargetWrite>)
    ensures writes == Numbered(rendered)
  {
    writes := [];
    var index := 1;
    while index <= |rendered|
      invariant 1 <= index <= |rendered| + 1
      invariant writes == Numbered(rendered[..index - 1])
    {
      assert rendered[..index] == rendered[..index - 1] + [rendered[index - 1]];
      writes := writes + [TargetWrite(rendered[index - 1], Some(NatToString(index) + ".xml"), None)];
      index := index + 1;
    }
    assert rendered[..index - 1] == rendered;
  }

  /** The writes of one document once its utterances are rendered. */
  method WriteRendered(rendered: seq<string>, failure: Option<string>, merge: bool) returns (writes: seq<TargetWrite>)
    ensures writes == WritesOf(rendered, failure, merge)
  {
    if merge {
      var body := WritePlain(rendered);
      var footer := if failure.None? then [TargetWrite(TreebankFooter, None, None)] else [];
      writes := [TargetWrite(TreebankHeader, None, None)] + body + footer;
    } else {
      writes := WriteNumbered(rendered);
    }
  }

  /** `LassyWriter.write`: the target writes in order, and the error raised after them, if any. */
  method Write(document: Document, merge: bool) returns (writes: seq<TargetWrite>, failure: Option<string>)
    ensures (writes, failure) == Writes(document, merge)
  {
    var rendered;
    rendered, failure := RenderUtterances(document, merge);
    writes := WriteRendered(rendered, failure, merge);
  }

  /** Merge mode with nothing failed: the header, one write per rendered utterance, then the footer. */
  lemma MergedWrites(rendered: seq<string>)
    ensures var writes := WritesOf(rendered, None, true);
            && |writes| == |rendered| + 2
            && writes[0].content == TreebankHeader && writes[|rendered| + 1].content == TreebankFooter
            && forall k :: 0 <= k < |rendered| ==> writes[k + 1].content == rendered[k]
  {
    var body := Plain(rendered);
    var writes := [TargetWrite(TreebankHeader, None, None)] + body + [TargetWrite(TreebankFooter, None, None)];
    assert WritesOf(rendered, None, true) == writes;
    forall k | 0 <= k < |rendered| ensures writes[k + 1] == body[k] {
    }
  }

  /** Merge mode: the treebank header, every utterance rendered without its header, in order, then the footer. */
  lemma MergeShape(document: Document)
    requires Writes(document, true).1.None?
    ensures var writes := Writes(document, true).0;
            var us := document.utterances;
            && |writes| == |us| + 2
            && writes[0].content == TreebankHeader && writes[|us| + 1].content == TreebankFooter
            && forall k :: 0 <= k < |us| ==> Render(document.metadata, us[k], true) == Ok(writes[k + 1].content)
  {
    var all := RenderAll(document.metadata, document.utterances, true);
    RenderAllSound(document.metadata, document.utterances, true);
    MergedWrites(all.0);
  }

  /** Split mode writes every utterance to a file of its own: no two writes share a file name. */
  lemma SplitNamesDistinct(document: Document, j: nat, k: nat)
    requires j < k < |Writes(document, false).0|
    ensures Writes(document, false).0[j].filename != Writes(document, false).0[k].filename
  {
    NumberedNamesDistinct(RenderAll(document.metadata, document.utterances, false).0, j, k);
  }

  lemma NumberedNamesDistinct(rendered: seq<string>, j: nat, k: nat)
    requires j < k < |rendered|
    ensures Numbered(rendered)[j].filename != Numbered(rendered)[k].filename
  {
    var writes := Numbered(rendered);
    if writes[j].filename == writes[k].filename {
      var a, b := NatToString(j + 1), NatToString(k + 1);
      assert a + ".xml" == b + ".xml";
      assert |a| == |b|;
      assert a == (a + ".xml")[..|a|];
      NatToStringInjective(j + 1, k + 1);
    }
  }
}
