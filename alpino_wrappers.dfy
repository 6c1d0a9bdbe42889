/**
 * The parser wrappers of the older `folia2alpino` tool: the service wrapper
 * that calibrates against an Alpino server, wraps each parse in a treebank,
 * and the passthrough wrapper that hands the sentences on unparsed. The
 * server is a function from the request to the response.
 */
module AlpinoWrappers {
  import opened Wrappers
  import opened Text
  import opened Dicts
  import opened Models
  import opened AlpinoXml
  import AlpinoAnnotator

  /** A sentence to parse as the converters yield it: its text, its id and its metadata strings. */
  datatype Line = Line(text: string, id: string, metadata: Dict<string>)

  const Header := "<?xml version=\"1.0\" encoding=\"UTF-8\"?>\n<treebank>"
  const Footer := "</treebank>"

  // The metadata block

  function RenderValue(key: string, value: string): string {
    "<meta type=\"text\" name=\"" + key + "\" value=\"" + AlpinoAnnotator.EscapeXmlAttribute(value) + "\" />"
  }

  function RenderValues(metadata: Dict<string>): (r: seq<string>)
    ensures |r| == |metadata| && forall i :: 0 <= i < |r| ==> r[i] == RenderValue(metadata[i].0, metadata[i].1)
  {
    seq(|metadata|, i requires 0 <= i < |metadata| => RenderValue(metadata[i].0, metadata[i].1))
  }

  /** `render_metadata(metadata)`: one `<meta>` line per entry in the dict's order, inside `<metadata>` … `</metadata>`. */
  function RenderMetadata(metadata: Dict<string>): string {
    "<metadata>\n" + Join("\n", RenderValues(metadata)) + "\n</metadata>"
  }

  /** The plain strings as metadata values of type `text`, in the same order. */
  function TextValues(metadata: Dict<string>): (r: Metadata)
    ensures Keys(r) == Keys(metadata)
    ensures forall i :: 0 <= i < |r| ==> r[i].1 == TextValue(metadata[i].1)
  {
    var r := seq(|metadata|, i requires 0 <= i < |metadata| => (metadata[i].0, TextValue(metadata[i].1)));
    assert Keys(r) == Keys(metadata);
    r
  }

  /**
   * Every entry is typed `text`: the block is the one the newer annotator
   * renders for the same values as `text` values, so the values are escaped
   * the same way.
   */
  lemma RenderedAsText(metadata: Dict<string>)
    ensures RenderMetadata(metadata) == AlpinoAnnotator.RenderMetadata(TextValues(metadata))
  {
    var mine, theirs := RenderValues(metadata), AlpinoAnnotator.RenderValues(TextValues(metadata));
    forall i | 0 <= i < |mine|
      ensures mine[i] == theirs[i]
    {
      var key, e := metadata[i].0, AlpinoAnnotator.EscapeXmlAttribute(metadata[i].1);
      assert "<meta type=\"" + "text" + "\" name=\"" == "<meta type=\"text\" name=\"";
      assert theirs[i] == "<meta type=\"" + "text" + "\" name=\"" + key + "\" value=\"" + e + "\" />";
    }
    assert mine == theirs;
  }

  // Parsing a line

  /** The lines of the server's response, with every sentence id renamed to the caller's outside prefix mode. */
  function ResponseLines(server: string -> string, prefixId: bool, line: string, id: string): seq<string> {
    var xml := server(AlpinoAnnotator.Request(prefixId, line, id));
    SplitLines(if prefixId then xml else SubSentIds(xml, id))
  }

  /** The metadata block inserted before the last line, when there is metadata. */
  function WithMetadata(lines: seq<string>, metadata: Dict<string>): seq<string> {
    if metadata == [] then lines else Insert(lines, -1, RenderMetadata(metadata))
  }

  /** The `strip` step: the first line dropped and the new last line right-stripped; fewer than two lines raise. */
  function StripLines(lines: seq<string>): (r: Result<seq<string>>)
    ensures r.Err? <==> |lines| < 2
    ensures r.Err? ==> r.error == "IndexError: list index out of range"
  {
    if |lines| < 2 then Err("IndexError: list index out of range")
    else Ok(lines[1..|lines| - 1] + [RStrip(lines[|lines| - 1])])
  }

  /** `parse_line(line, sentence_id, metadata, strip)` */
  function Parse(server: string -> string, prefixId: bool, line: string, id: string, metadata: Dict<string>, strip: bool): Result<string> {
    var lines := WithMetadata(ResponseLines(server, prefixId, line, id), metadata);
    if !strip then Ok(Join("\n", lines))
    else match StripLines(lines)
      case Err(e) => Err(e)
      case Ok(kept) => Ok(Join("\n", kept))
  }

  /**
   * Stripping drops exactly the first line: when the last line has no
   * trailing white space, the unstripped parse is the first line, a line
   * break and the stripped parse.
   */
  lemma StripDropsFirstLine(server: string -> string, prefixId: bool, line: string, id: string, metadata: Dict<string>)
    requires var lines := WithMetadata(ResponseLines(server, prefixId, line, id), metadata);
             |lines| >= 2 && RStrip(lines[|lines| - 1]) == lines[|lines| - 1]
    ensures Parse(server, prefixId, line, id, metadata, true).Ok?
    ensures Parse(server, prefixId, line, id, metadata, false) ==
              Ok(WithMetadata(ResponseLines(server, prefixId, line, id), metadata)[0] + "\n" + Parse(server, prefixId, line, id, metadata, true).value)
  {
    var lines := WithMetadata(ResponseLines(server, prefixId, line, id), metadata);
    var n := |lines|;
    assert lines[1..n - 1] + [RStrip(lines[n - 1])] == lines[1..];
    assert lines == [lines[0]] + lines[1..];
    JoinCons("\n", lines[0], lines[1..]);
  }

  /** Without metadata and without stripping, a response whose only line breaks are single inner `\n`s comes back as renamed. */
  lemma PlainParse(server: string -> string, prefixId: bool, line: string, id: string)
    requires var xml := server(AlpinoAnnotator.Request(prefixId, line, id));
             NewlinesOnly(if prefixId then xml else SubSentIds(xml, id))
    ensures var xml := server(AlpinoAnnotator.Request(prefixId, line, id));
            Parse(server, prefixId, line, id, [], false) == Ok(if prefixId then xml else SubSentIds(xml, id))
  {
    var xml := server(AlpinoAnnotator.Request(prefixId, line, id));
    JoinSplitLines(if prefixId then xml else SubSentIds(xml, id));
  }

  /** With metadata, the block is its own line just before the last line of the response. */
  lemma MetadataBeforeLastLine(server: string -> string, prefixId: bool, line: string, id: string, metadata: Dict<string>)
    requires metadata != [] && ResponseLines(server, prefixId, line, id) != []
    ensures var lines := ResponseLines(server, prefixId, line, id);
            var n := |lines|;
            Parse(server, prefixId, line, id, metadata, false) ==
              Ok((if n == 1 then "" else Join("\n", lines[..n - 1]) + "\n") + RenderMetadata(metadata) + "\n" + lines[n - 1])
  {
    JoinInsertBeforeLast("\n", ResponseLines(server, prefixId, line, id), RenderMetadata(metadata));
  }

  /** Outside prefix mode, the first sentence id of an unstripped parse without metadata is the caller's. */
  lemma RenamedParseId(server: string -> string, line: string, id: string)
    requires id != [] && '"' !in id
    requires var xml := server(AlpinoAnnotator.Request(false, line, id));
             SearchSentId(xml).Some? && NewlinesOnly(SubSentIds(xml, id))
    ensures SearchSentId(Parse(server, false, line, id, [], false).value) == Some(id)
  {
    var xml := server(AlpinoAnnotator.Request(false, line, id));
    PlainParse(server, false, line, id);
    SearchAfterSub(xml, id);
  }

  // Calibration

  /** The probe's parse in the given mode, unstripped and without metadata. */
  function ProbeParse(server: string -> string, prefixId: bool): string {
    Join("\n", ResponseLines(server, prefixId, Probe, ProbeId))
  }

  /**
   * The calibration of `AlpinoServiceWrapper.__init__`: prefix mode unless
   * the server echoes the prefix, in which case the bare first word must
   * come back; the last parse must carry an id, and in prefix mode that id
   * must be `42`.
   */
  function Calibrate(server: string -> string): Result<bool> {
    var parsed := ProbeParse(server, true);
    var echoed := Contains(parsed, "\"42|hallo\"");
    var last := if echoed then ProbeParse(server, false) else parsed;
    if echoed && !Contains(last, "\"hallo\"") then Err("Alpino has unsupported sentence ID behavior")
    else match SearchSentId(last)
      case None => Err("No sentence id returned in XML structure by Alpino")
      case Some(found) =>
        if !echoed && found != ProbeId then Err("Unexpected sentence id: " + found + " instead of 42")
        else Ok(!echoed)
  }

  /**
   * Prefix mode is switched off exactly when the server echoed the prefix
   * and the retry came back with the bare first word and an id; it is kept
   * exactly when the server did not echo it and returned the id `42`.
   */
  lemma CalibrateModes(server: string -> string)
    ensures Calibrate(server) == Ok(false) <==>
              Contains(ProbeParse(server, true), "\"42|hallo\"") &&
              Contains(ProbeParse(server, false), "\"hallo\"") && SearchSentId(ProbeParse(server, false)).Some?
    ensures Calibrate(server) == Ok(true) <==>
              !Contains(ProbeParse(server, true), "\"42|hallo\"") && SearchSentId(ProbeParse(server, true)) == Some(ProbeId)
  {
  }

  /** `AlpinoServiceWrapper`: the server and the prefix mode its constructor settles. */
  class ServiceWrapper {
    const server: string -> string
    var prefixId: bool

    constructor (server: string -> string)
      ensures this.server == server && prefixId
    {
      this.server := server;
      prefixId := true;
    }

    /** `parse_line(line, sentence_id, metadata, strip)` in the wrapper's mode. */
    method ParseLine(line: string, id: string, metadata: Dict<string>, strip: bool) returns (r: Result<string>)
      ensures r == Parse(server, prefixId, line, id, metadata, strip)
    {
      var xml := server(AlpinoAnnotator.Request(prefixId, line, id));
      if !prefixId {
        xml := SubSentIds(xml, id);
      }
      var lines := SplitLines(xml);
      if metadata != [] {
        lines := Insert(lines, -1, RenderMetadata(metadata));
      }
      if strip {
        if |lines| < 2 {
          return Err("IndexError: list index out of range");
        }
        ghost var all := lines;
        lines := lines[1..];
        lines := lines[|lines| - 1 := RStrip(lines[|lines| - 1])];
        assert lines == StripLines(all).value;
      }
      r := Ok(Join("\n", lines));
    }

    /** `parse_lines(lines)`: the header, each line's stripped parse in order, and the footer; the first failing parse ends it. */
    method ParseLines(lines: seq<Line>) returns (r: Result<seq<string>>)
      ensures r == Chunks(server, prefixId, lines)
    {
      ghost var rs := Results(server, prefixId, lines);
      var parses: seq<string> := [];
      for i := 0 to |lines|
        invariant Collect(rs[..i]) == Ok(parses)
      {
        var parsed := ParseLine(lines[i].text, lines[i].id, lines[i].metadata, true);
        CollectStep(rs, i, parses);
        if parsed.Err? {
          CollectErr(rs, i + 1);
          return Err(parsed.error);
        }
        parses := parses + [parsed.value];
      }
      assert rs[..|lines|] == rs;
      return Ok([Header] + parses + [Footer]);
    }
  }

  /** `AlpinoServiceWrapper(host, port)`: a new wrapper in its calibrated mode, or the exception calibration raises. */
  method Connect(server: string -> string) returns (r: Result<ServiceWrapper>)
    ensures r.Ok? ==> fresh(r.value) && r.value.server == server && Calibrate(server) == Ok(r.value.prefixId)
    ensures r.Err? ==> Calibrate(server) == Err(r.error)
  {
    var wrapper := new ServiceWrapper(server);
    var parsed := wrapper.ParseLine(Probe, ProbeId, [], false);
    if Contains(parsed.value, "\"42|hallo\"") {
      wrapper.prefixId := false;
      parsed := wrapper.ParseLine(Probe, ProbeId, [], false);
      if !Contains(parsed.value, "\"hallo\"") {
        return Err("Alpino has unsupported sentence ID behavior");
      }
    }
    match SearchSentId(parsed.value) {
      case None =>
        return Err("No sentence id returned in XML structure by Alpino");
      case Some(found) =>
        if wrapper.prefixId && found != ProbeId {
          return Err("Unexpected sentence id: " + found + " instead of 42");
        }
    }
    return Ok(wrapper);
  }

  // The treebank

  /** The stripped parse of one sentence. */
  function ParseOf(server: string -> string, prefixId: bool, l: Line): Result<string> {
    Parse(server, prefixId, l.text, l.id, l.metadata, true)
  }

  function Results(server: string -> string, prefixId: bool, lines: seq<Line>): (r: seq<Result<string>>)
    ensures |r| == |lines| && forall i :: 0 <= i < |lines| ==> r[i] == ParseOf(server, prefixId, lines[i])
  {
    seq(|lines|, i requires 0 <= i < |lines| => ParseOf(server, prefixId, lines[i]))
  }

  /** What `parse_lines` yields: the header, the parses and the footer, or the first failure. */
  function Chunks(server: string -> string, prefixId: bool, lines: seq<Line>): Result<seq<string>> {
    match Collect(Results(server, prefixId, lines))
    case Err(e) => Err(e)
    case Ok(ps) => Ok([Header] + ps + [Footer])
  }

  /** `parse_lines` succeeds exactly when every line's parse does. */
  lemma ChunksOk(server: string -> string, prefixId: bool, lines: seq<Line>)
    ensures Chunks(server, prefixId, lines).Ok? <==> forall i :: 0 <= i < |lines| ==> ParseOf(server, prefixId, lines[i]).Ok?
  {
    CollectOk(Results(server, prefixId, lines));
  }

  /**
   * When every line's parse succeeds, `parse_lines` yields n + 2 chunks: the
   * header, the i-th line's stripped parse at position i + 1, and the footer.
   */
  lemma ChunksShape(server: string -> string, prefixId: bool, lines: seq<Line>)
    requires forall i :: 0 <= i < |lines| ==> ParseOf(server, prefixId, lines[i]).Ok?
    ensures Chunks(server, prefixId, lines).Ok?
    ensures var r := Chunks(server, prefixId, lines).value;
            && |r| == |lines| + 2 && r[0] == Header && r[|lines| + 1] == Footer
            && forall i :: 0 <= i < |lines| ==> r[i + 1] == ParseOf(server, prefixId, lines[i]).value
  {
    var rs := Results(server, prefixId, lines);
    assert forall i :: 0 <= i < |rs| ==> rs[i].Ok?;
    CollectFramed(rs, Header, Footer);
  }

  /** A failing `parse_lines` carries the error of the first line whose parse fails. */
  lemma ChunksFail(server: string -> string, prefixId: bool, lines: seq<Line>)
    requires Chunks(server, prefixId, lines).Err?
    ensures exists j :: 0 <= j < |lines| && ParseOf(server, prefixId, lines[j]) == Err(Chunks(server, prefixId, lines).error) &&
                        forall k :: 0 <= k < j ==> ParseOf(server, prefixId, lines[k]).Ok?
  {
    CollectFail(Results(server, prefixId, lines));
  }

  // The two wrappers

  /** The wrapper a converter is given: the service wrapper, or the passthrough wrapper that parses nothing. */
  datatype Wrapper = Service(service: ServiceWrapper) | Passthrough

  /** What `parse_lines` returns: the treebank chunks, or the sentences themselves. */
  datatype Parsed = Chunked(chunks: Result<seq<string>>) | Passed(lines: seq<Line>)

  /** `wrapper.parse_lines(lines)`: the passthrough wrapper returns its input unchanged. */
  method ParseLines(wrapper: Wrapper, lines: seq<Line>) returns (r: Parsed)
    ensures wrapper.Passthrough? ==> r == Passed(lines)
    ensures wrapper.Service? ==> r == Chunked(Chunks(wrapper.service.server, wrapper.service.prefixId, lines))
  {
    match wrapper {
      case Passthrough =>
        r := Passed(lines);
      case Service(service) =>
        var chunks := service.ParseLines(lines);
        r := Chunked(chunks);
    }
  }
}
