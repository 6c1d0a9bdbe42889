/**
 * The annotator that sends every utterance to an Alpino parser server and
 * stores the parse under the `alpino` annotation key. The server is a
 * function from the request to the response.
 */
module AlpinoAnnotator {
  import opened Wrappers
  import opened Text
  import opened Dicts
  import opened Models
  import SaxUtils
  import opened AlpinoXml

  /** The annotation key under which the parse is stored. */
  const AnnotationKey := "alpino"

  // Attribute escaping

  /** `escape_xml_attribute`: `&`, `<` and `>` escaped, `\n` as a character reference, `\r` dropped; quotes stay. */
  function EscapeXmlAttribute(value: string): string {
    Newlines(SaxUtils.Escape(value))
  }

  /** The replacements after `xml.sax.saxutils.escape`, in the order they are applied. */
  function Newlines(t: string): string {
    ReplaceChar(ReplaceChar(t, '\n', "&#10;"), '\r', "")
  }

  /** What `EscapeXmlAttribute` makes of one character. */
  function AttributeChar(c: char): string {
    if c == '\n' then "&#10;"
    else if c == '\r' then ""
    else SaxUtils.EscapeChar(c)
  }

  function EscapeEach(s: string): string {
    if s == [] then [] else AttributeChar(s[0]) + EscapeEach(s[1..])
  }

  lemma NewlinesAppend(a0: string, b0: string)
    ensures Newlines(a0 + b0) == Newlines(a0) + Newlines(b0)
  {
    ReplaceCharAppend(a0, b0, '\n', "&#10;");
    var a1, b1 := ReplaceChar(a0, '\n', "&#10;"), ReplaceChar(b0, '\n', "&#10;");
    ReplaceCharAppend(a1, b1, '\r', "");
  }

  lemma EscapeAppend(a: string, b: string)
    ensures EscapeXmlAttribute(a + b) == EscapeXmlAttribute(a) + EscapeXmlAttribute(b)
  {
    SaxUtils.EscapeAppend(a, b);
    NewlinesAppend(SaxUtils.Escape(a), SaxUtils.Escape(b));
  }

  lemma NewlinesAbsent(t: string)
    requires '\n' !in t && '\r' !in t
    ensures Newlines(t) == t
  {
    ReplaceCharAbsent(t, '\n', "&#10;");
    ReplaceCharAbsent(t, '\r', "");
  }

  lemma EscapeSingle(c: char)
    ensures EscapeXmlAttribute([c]) == AttributeChar(c)
  {
    if c == '&' || c == '<' || c == '>' {
      EscapeEntity(c);
    } else {
      EscapePlain(c);
    }
  }

  lemma EscapeEntity(c: char)
    requires c == '&' || c == '<' || c == '>'
    ensures EscapeXmlAttribute([c]) == AttributeChar(c)
  {
    SaxUtils.EscapeSingle(c);
    var t := SaxUtils.EscapeChar(c);
    assert '\n' !in t && '\r' !in t;
    NewlinesAbsent(t);
  }

  lemma EscapePlain(c: char)
    requires c != '&' && c != '<' && c != '>'
    ensures EscapeXmlAttribute([c]) == AttributeChar(c)
  {
    SaxUtils.EscapeSingle(c);
    ReplaceCharSingle(c, '\n', "&#10;");
    if c == '\n' {
      var t := "&#10;";
      assert '\r' !in t;
      ReplaceCharAbsent(t, '\r', "");
    } else {
      ReplaceCharSingle(c, '\r', "");
    }
  }

  /** The chain of replacements escapes every character on its own. */
  lemma {:induction false} EscapeIsEscapeEach(s: string)
    ensures EscapeXmlAttribute(s) == EscapeEach(s)
  {
    if s != [] {
      assert s == [s[0]] + s[1..];
      EscapeAppend([s[0]], s[1..]);
      EscapeSingle(s[0]);
      EscapeIsEscapeEach(s[1..]);
    }
  }

  /** No `<`, newline or carriage return survives escaping, and a quote is in the output exactly when it was in the input. */
  lemma {:induction false} EscapeEachFacts(s: string)
    ensures '<' !in EscapeEach(s) && '\n' !in EscapeEach(s) && '\r' !in EscapeEach(s)
    ensures '"' in EscapeEach(s) <==> '"' in s
  {
    if s != [] {
      EscapeEachFacts(s[1..]);
      var head := AttributeChar(s[0]);
      assert '<' !in head && '\n' !in head && '\r' !in head;
      assert '"' in head <==> s[0] == '"';
      assert EscapeEach(s) == head + EscapeEach(s[1..]);
      assert '"' in s <==> s[0] == '"' || '"' in s[1..];
    }
  }

  /** The escaped value cannot close a tag or break a line, but every quote of the value is still a quote. */
  lemma EscapedFacts(value: string)
    ensures var e := EscapeXmlAttribute(value);
            '<' !in e && '\n' !in e && '\r' !in e && ('"' in e <==> '"' in value)
  {
    EscapeIsEscapeEach(value);
    EscapeEachFacts(value);
  }

  // The metadata block

  function RenderValue(key: string, item: MetadataValue): string {
    "<meta type=\"" + item.kind + "\" name=\"" + key + "\" value=\"" + EscapeXmlAttribute(item.value) + "\" />"
  }

  /** A character the attribute escaping leaves alone. */
  predicate Plain(c: char) {
    c != '&' && c != '<' && c != '>' && c != '\n' && c != '\r'
  }

  lemma {:induction false} PlainEscapeEach(s: string)
    requires forall i :: 0 <= i < |s| ==> Plain(s[i])
    ensures EscapeEach(s) == s
  {
    if s != [] {
      PlainEscapeEach(s[1..]);
      assert AttributeChar(s[0]) == [s[0]];
    }
  }

  /**
   * A value made of plain characters is written verbatim, quotes included:
   * a quote in it ends the `value` attribute early and the rest of the value
   * lands outside every attribute.
   */
  lemma QuoteEndsValue(key: string, kind: string, value: string)
    requires forall i :: 0 <= i < |value| ==> Plain(value[i])
    ensures RenderValue(key, MetadataValue(value, kind)) ==
              "<meta type=\"" + kind + "\" name=\"" + key + "\" value=\"" + value + "\" />"
  {
    EscapeIsEscapeEach(value);
    PlainEscapeEach(value);
  }

  function RenderValues(metadata: seq<(string, MetadataValue)>): (r: seq<string>)
    ensures |r| == |metadata|
    ensures forall i :: 0 <= i < |r| ==> r[i] == RenderValue(metadata[i].0, metadata[i].1)
  {
    seq(|metadata|, i requires 0 <= i < |metadata| => RenderValue(metadata[i].0, metadata[i].1))
  }

  /** `render_metadata(metadata)`: one `<meta>` line per entry in the map's order, inside `<metadata>` … `</metadata>`. */
  function RenderMetadata(metadata: Metadata): string {
    "<metadata>\n" + Join("\n", RenderValues(metadata)) + "\n</metadata>"
  }

  // Parsing a line

  /** The request of `parse_line`: `<id>|<line>` in prefix mode, the bare line otherwise, then an empty line. */
  function Request(prefixId: bool, line: string, id: string): (r: string)
    ensures |r| >= 2 && r[|r| - 2..] == "\n\n"
    ensures prefixId ==> |r| > |id| && r[..|id| + 1] == id + "|"
  {
    (if prefixId then id + "|" + line else line) + "\n\n"
  }

  /** The response once sentence ids are renamed outside prefix mode and U+0015 is written as `&#21;`. */
  function Received(server: string -> string, prefixId: bool, line: string, id: string): (r: string)
    ensures '\U{15}' !in r
  {
    var xml := server(Request(prefixId, line, id));
    var renamed := if prefixId then xml else SubSentIds(xml, id);
    ReplaceCharRemoves(renamed, '\U{15}', "&#21;");
    ReplaceChar(renamed, '\U{15}', "&#21;")
  }

  /** `parse_line(line, sentence_id, metadata)`: the received lines, with the metadata block before the last one when there is metadata. */
  function Parse(server: string -> string, prefixId: bool, line: string, id: string, metadata: Metadata): string {
    var lines := SplitLines(Received(server, prefixId, line, id));
    Join("\n", if metadata == [] then lines else Insert(lines, -1, RenderMetadata(metadata)))
  }

  /** Without metadata, a response whose only line breaks are single inner `\n`s comes back as received. */
  lemma PlainParse(server: string -> string, prefixId: bool, line: string, id: string)
    requires NewlinesOnly(Received(server, prefixId, line, id))
    ensures Parse(server, prefixId, line, id, []) == Received(server, prefixId, line, id)
  {
    JoinSplitLines(Received(server, prefixId, line, id));
  }

  /** With metadata, the block is its own line just before the last line of the response. */
  lemma MetadataBeforeLastLine(server: string -> string, prefixId: bool, line: string, id: string, metadata: Metadata)
    requires metadata != [] && SplitLines(Received(server, prefixId, line, id)) != []
    ensures var lines := SplitLines(Received(server, prefixId, line, id));
            var n := |lines|;
            Parse(server, prefixId, line, id, metadata) ==
              (if n == 1 then "" else Join("\n", lines[..n - 1]) + "\n") + RenderMetadata(metadata) + "\n" + lines[n - 1]
  {
    JoinInsertBeforeLast("\n", SplitLines(Received(server, prefixId, line, id)), RenderMetadata(metadata));
  }

  // Annotating a document

  /** The utterance with the parse of its text stored under the annotation key. */
  function Annotated(server: string -> string, prefixId: bool, u: Utterance): Utterance {
    u.(annotations := Set(u.annotations, AnnotationKey, Parse(server, prefixId, u.text, u.id, u.metadata)))
  }

  function AnnotateAll(server: string -> string, prefixId: bool, us: seq<Utterance>): (r: seq<Utterance>)
    ensures |r| == |us| && forall k :: 0 <= k < |us| ==> r[k] == Annotated(server, prefixId, us[k])
  {
    seq(|us|, k requires 0 <= k < |us| => Annotated(server, prefixId, us[k]))
  }

  /**
   * `annotate` overwrites the `alpino` annotation of every utterance with its
   * parse, whatever it held, and changes nothing else.
   */
  lemma AnnotateOverwrites(server: string -> string, prefixId: bool, us: seq<Utterance>, k: nat)
    requires k < |us|
    ensures var u, v := us[k], AnnotateAll(server, prefixId, us)[k];
            && Has(v.annotations, AnnotationKey)
            && Get(v.annotations, AnnotationKey) == Parse(server, prefixId, u.text, u.id, u.metadata)
            && v.text == u.text && v.id == u.id && v.metadata == u.metadata && v.line == u.line
            && (forall x :: Has(v.annotations, x) <==> x == AnnotationKey || Has(u.annotations, x))
            && (forall x :: x != AnnotationKey && Has(u.annotations, x) ==> Get(v.annotations, x) == Get(u.annotations, x))
  {
  }

  // The annotations every utterance shares

  /**
   * The readers never pass `annotations` to `Utterance`, so every utterance
   * holds the one dict that is the constructor's default argument, and
   * `annotate` stores each parse in that same dict. This is that dict after
   * annotating `us`, starting from `shared`.
   */
  function SharedAnnotated(server: string -> string, prefixId: bool, shared: Dict<string>, us: seq<Utterance>): Dict<string> {
    if us == [] then shared
    else
      var n := |us| - 1;
      Set(SharedAnnotated(server, prefixId, shared, us[..n]), AnnotationKey, Parse(server, prefixId, us[n].text, us[n].id, us[n].metadata))
  }

  /**
   * As written, the earlier parses leave no trace: after `annotate` the
   * shared dict, and so every utterance, holds the last utterance's parse.
   */
  lemma {:induction false} SharedHoldsLastParse(server: string -> string, prefixId: bool, shared: Dict<string>, us: seq<Utterance>)
    requires us != []
    ensures var last := us[|us| - 1];
            SharedAnnotated(server, prefixId, shared, us) ==
              Set(shared, AnnotationKey, Parse(server, prefixId, last.text, last.id, last.metadata))
  {
    var n := |us| - 1;
    if n > 0 {
      var before := us[..n];
      assert before[..n - 1] == us[..n - 1];
      SharedHoldsLastParse(server, prefixId, shared, before);
      SetTwice(shared, AnnotationKey, Parse(server, prefixId, before[n - 1].text, before[n - 1].id, before[n - 1].metadata),
               Parse(server, prefixId, us[n].text, us[n].id, us[n].metadata));
    }
  }

  /**
   * An utterance whose parse differs from the last utterance's loses it: the
   * shared dict holds another parse than the one `AnnotateAll` gives it.
   */
  lemma SharedLosesParse(server: string -> string, prefixId: bool, shared: Dict<string>, us: seq<Utterance>, k: nat)
    requires k < |us|
    requires var u, last := us[k], us[|us| - 1];
             Parse(server, prefixId, u.text, u.id, u.metadata) != Parse(server, prefixId, last.text, last.id, last.metadata)
    ensures Get(SharedAnnotated(server, prefixId, shared, us), AnnotationKey) !=
              Get(AnnotateAll(server, prefixId, us)[k].annotations, AnnotationKey)
  {
    SharedHoldsLastParse(server, prefixId, shared, us);
  }

  // Calibration

  /**
   * The calibration of `AlpinoAnnotator.__init__`: prefix mode unless the
   * server echoes the prefix, in which case the bare first word must come back;
   * the last parse must carry an id, and in prefix mode that id must be `42`.
   */
  function Calibrate(server: string -> string): Result<bool> {
    var parsed := Parse(server, true, Probe, ProbeId, []);
    var echoed := Contains(parsed, "\"42|hallo\"");
    var last := if echoed then Parse(server, false, Probe, ProbeId, []) else parsed;
    if echoed && !Contains(last, "\"hallo\"") then Err("Alpino has unsupported sentence ID behavior")
    else match SearchSentId(last)
      case None => Err("No sentence id returned in XML structure by Alpino")
      case Some(found) =>
        if !echoed && found != ProbeId then Err("Unexpected sentence id: " + found + " instead of 42")
        else Ok(!echoed)
  }

  /** After calibration the probe's parse carries an id, and in prefix mode it is the probe's. */
  lemma CalibratedIds(server: string -> string)
    requires Calibrate(server).Ok?
    ensures var prefixId := Calibrate(server).value;
            var found := SearchSentId(Parse(server, prefixId, Probe, ProbeId, []));
            found.Some? && (prefixId ==> found.value == ProbeId)
  {
  }

  /** `AlpinoAnnotator`: the server and the prefix mode its constructor settles. */
  class Annotator {
    const server: string -> string
    var prefixId: bool

    constructor (server: string -> string)
      ensures this.server == server && prefixId
    {
      this.server := server;
      prefixId := true;
    }

    /** `parse_line(line, sentence_id, metadata)` in the annotator's mode. */
    method ParseLine(line: string, id: string, metadata: Metadata) returns (r: string)
      ensures r == Parse(server, prefixId, line, id, metadata)
    {
      var xml := server(Request(prefixId, line, id));
      if !prefixId {
        xml := SubSentIds(xml, id);
      }
      xml := ReplaceChar(xml, '\U{15}', "&#21;");
      var lines := SplitLines(xml);
      if metadata != [] {
        lines := Insert(lines, -1, RenderMetadata(metadata));
      }
      r := Join("\n", lines);
    }

    /** `annotate(document)`: every utterance, in order, gets its parse. */
    method Annotate(document: Document) returns (result: Document)
      ensures result == document.(utterances := AnnotateAll(server, prefixId, document.utterances))
    {
      var us := document.utterances;
      var done: seq<Utterance> := [];
      var i := 0;
      while i < |us|
        invariant 0 <= i <= |us| && |done| == i
        invariant forall k :: 0 <= k < i ==> done[k] == Annotated(server, prefixId, us[k])
      {
        var parse := ParseLine(us[i].text, us[i].id, us[i].metadata);
        done := done + [us[i].(annotations := Set(us[i].annotations, AnnotationKey, parse))];
        i := i + 1;
      }
      assert done == AnnotateAll(server, prefixId, us);
      result := document.(utterances := done);
    }

    /**
     * `annotate(document)` as written, on the one dict all utterances share:
     * each parse is stored in `shared` in turn.
     */
    method AnnotateShared(document: Document, shared: Dict<string>) returns (after: Dict<string>)
      ensures after == SharedAnnotated(server, prefixId, shared, document.utterances)
    {
      var us := document.utterances;
      after := shared;
      for i := 0 to |us|
        invariant after == SharedAnnotated(server, prefixId, shared, us[..i])
      {
        var parse := ParseLine(us[i].text, us[i].id, us[i].metadata);
        assert us[..i + 1][..i] == us[..i];
        after := Set(after, AnnotationKey, parse);
      }
      assert us[..|us|] == us;
    }
  }

  /** `AlpinoAnnotator(host, port)`: a new annotator in its calibrated mode, or the exception calibration raises. */
  method Connect(server: string -> string) returns (r: Result<Annotator>)
    ensures r.Ok? ==> fresh(r.value) && r.value.server == server && Calibrate(server) == Ok(r.value.prefixId)
    ensures r.Err? ==> Calibrate(server) == Err(r.error)
  {
    var annotator := new Annotator(server);
    var parsed := annotator.ParseLine(Probe, ProbeId, []);
    if Contains(parsed, "\"42|hallo\"") {
      annotator.prefixId := false;
      parsed := annotator.ParseLine(Probe, ProbeId, []);
      if !Contains(parsed, "\"hallo\"") {
        return Err("Alpino has unsupported sentence ID behavior");
      }
    }
    match SearchSentId(parsed) {
      case None =>
        return Err("No sentence id returned in XML structure by Alpino");
      case Some(found) =>
        if annotator.prefixId && found != ProbeId {
          return Err("Unexpected sentence id: " + found + " instead of 42");
        }
    }
    return Ok(annotator);
  }
}
