/**
 * The clients of the Alpino parser: the server client, whose socket exchange
 * is a function from the request to the response, and the path resolution of
 * the process client over abstract `isfile`/`isdir` predicates.
 */
module AlpinoClient {
  import opened Wrappers
  import opened Text
  import opened AlpinoXml

  // Closing punctuation

  predicate IsClosing(c: char) {
    c == '.' || c == '?' || c == '!'
  }

  /**
   * Where `([^\s])([\.?!])$` matches, as the index of its punctuation mark:
   * `$` is the end of the line or the position before a final newline.
   */
  function ClosingAt(line: string): (r: Option<nat>)
    ensures r.Some? ==> 1 <= r.value < |line| && IsClosing(line[r.value]) && !IsSpace(line[r.value - 1])
    ensures r.Some? ==> r.value == |line| - 1 || (r.value == |line| - 2 && line[|line| - 1] == '\n')
  {
    var n := |line|;
    if n >= 2 && IsClosing(line[n - 1]) && !IsSpace(line[n - 2]) then Some(n - 1)
    else if n >= 3 && line[n - 1] == '\n' && IsClosing(line[n - 2]) && !IsSpace(line[n - 3]) then Some(n - 2)
    else None
  }

  /** `closing_punctuation.sub(lambda m: m.group(1) + ' ' + m.group(2), line)` */
  function Normalize(line: string): string {
    match ClosingAt(line)
    case None => line
    case Some(k) => line[..k] + " " + line[k..]
  }

  /**
   * Normalisation changes a line exactly when it ends, before an optional
   * final newline, in a closing mark right after a non-space, and then it only
   * inserts one space before that mark.
   */
  lemma NormalizeInsertsSpace(line: string)
    ensures Normalize(line) != line <==> ClosingAt(line).Some?
    ensures ClosingAt(line).Some? ==>
              var k := ClosingAt(line).value;
              |Normalize(line)| == |line| + 1 && Normalize(line)[k] == ' ' &&
              Normalize(line)[..k] + Normalize(line)[k + 1..] == line
  {
    if ClosingAt(line).Some? {
      var k := ClosingAt(line).value;
      var r := Normalize(line);
      assert |r| == |line| + 1;
      assert r[..k] == line[..k] && r[k + 1..] == line[k..];
      assert line[..k] + line[k..] == line;
    }
  }

  /** A normalised line needs no more normalisation. */
  lemma NormalizeIdempotent(line: string)
    ensures Normalize(Normalize(line)) == Normalize(line)
  {
    var n := |line|;
    match ClosingAt(line)
    case None =>
    case Some(k) =>
      var r := Normalize(line);
      assert |r| == n + 1 && r[k] == ' ' && r[k + 1] == line[k];
      if k == n - 1 {
        assert r[n] == line[n - 1] && r[n - 1] == ' ';
      } else {
        assert r[n] == '\n' && r[n - 1] == line[k] && r[n - 2] == ' ';
      }
      assert ClosingAt(r).None?;
  }

  // The server client

  /** The request `parse_line` sends: the normalised line, prefixed with `<id>|` in prefix mode, then an empty line. */
  function Request(prefixId: bool, line: string, id: string): (r: string)
    ensures |r| == (if prefixId then |id| + 1 else 0) + |Normalize(line)| + 2
    ensures r[|r| - 2..] == "\n\n"
    ensures prefixId ==> r[..|id| + 1] == id + "|"
    ensures r[|r| - 2 - |Normalize(line)|..|r| - 2] == Normalize(line)
  {
    (if prefixId then id + "|" + Normalize(line) else Normalize(line)) + "\n\n"
  }

  /** The calibration state of a server client. */
  datatype Modes = Modes(prefixId: bool, writeId: bool)

  /**
   * `parse_line(line, sentence_id)` against a server: a response that is no
   * Alpino document raises with the response; otherwise outside prefix mode
   * every sentence id becomes the caller's, and in write-id mode the id is
   * added to every `<sentence` tag.
   */
  function Parse(server: string -> string, modes: Modes, line: string, id: string): (r: Result<string>)
    ensures r.Err? <==> !Contains(server(Request(modes.prefixId, line, id)), "<alpino_ds")
    ensures r.Err? ==> r.error == server(Request(modes.prefixId, line, id))
  {
    var xml := server(Request(modes.prefixId, line, id));
    if !Contains(xml, "<alpino_ds") then Err(xml)
    else
      var renamed := if modes.prefixId then xml else SubSentIds(xml, id);
      Ok(if modes.writeId then InjectSentId(renamed, id) else renamed)
  }

  /** In prefix mode without id injection, an Alpino document comes back exactly as the server sent it. */
  lemma PrefixParseVerbatim(server: string -> string, line: string, id: string)
    requires Contains(server(Request(true, line, id)), "<alpino_ds")
    ensures Parse(server, Modes(true, false), line, id) == Ok(server(Request(true, line, id)))
  {
  }

  /** Outside prefix mode, the first sentence id of the parse is the caller's. */
  lemma RenamedParseId(server: string -> string, line: string, id: string)
    requires id != [] && '"' !in id
    requires Parse(server, Modes(false, false), line, id).Ok?
    requires SearchSentId(server(Request(false, line, id))).Some?
    ensures SearchSentId(Parse(server, Modes(false, false), line, id).value) == Some(id)
  {
    SearchAfterSub(server(Request(false, line, id)), id);
  }

  /** The end of calibration: no id in the last parse turns on write-id mode; in prefix mode an id other than `42` is fatal. */
  function CheckId(parsed: string, modes: Modes): (r: Result<Modes>)
    ensures r.Ok? ==> r.value.prefixId == modes.prefixId
    ensures r.Ok? && r.value.writeId != modes.writeId ==> SearchSentId(parsed).None?
  {
    match SearchSentId(parsed)
    case None => Ok(modes.(writeId := true))
    case Some(found) =>
      if modes.prefixId && found != ProbeId then Err("Unexpected sentence id: " + found + " instead of 42")
      else Ok(modes)
  }

  /**
   * The calibration of `AlpinoServerClient.__init__`: parse the probe in
   * prefix mode; if the server echoed the prefix, parse it again without and
   * require the bare first word; then check the id.
   */
  function Calibrate(server: string -> string): Result<Modes> {
    var start := Modes(true, false);
    match Parse(server, start, Probe, ProbeId)
    case Err(e) => Err(e)
    case Ok(parsed) =>
      if !Contains(parsed, "\"42|hallo\"") then CheckId(parsed, start)
      else
        var plain := Modes(false, false);
        match Parse(server, plain, Probe, ProbeId)
        case Err(e) => Err(e)
        case Ok(again) =>
          if !Contains(again, "\"hallo\"") then Err("Alpino has unsupported sentence ID behavior")
          else CheckId(again, plain)
  }

  /**
   * What calibration guarantees: unless it had to turn on write-id mode,
   * parsing the probe in the calibrated modes gives back the probe's id.
   */
  lemma CalibratedIds(server: string -> string)
    requires Calibrate(server).Ok? && !Calibrate(server).value.writeId
    ensures Parse(server, Calibrate(server).value, Probe, ProbeId).Ok?
    ensures SearchSentId(Parse(server, Calibrate(server).value, Probe, ProbeId).value) == Some(ProbeId)
  {
    var start := Modes(true, false);
    var parsed := Parse(server, start, Probe, ProbeId).value;
    if Contains(parsed, "\"42|hallo\"") {
      var xml := server(Request(false, Probe, ProbeId));
      var again := Parse(server, Modes(false, false), Probe, ProbeId).value;
      assert SearchSentId(again).Some?;
      NoSentIdUnchanged(xml, ProbeId);
      RenamedParseId(server, Probe, ProbeId);
    }
  }

  /** Write-id mode is turned on only when the probe's parse, in the calibrated prefix mode, had no id. */
  lemma CalibratedWriteId(server: string -> string)
    requires Calibrate(server).Ok? && Calibrate(server).value.writeId
    ensures var m := Calibrate(server).value;
            && Parse(server, m.(writeId := false), Probe, ProbeId).Ok?
            && SearchSentId(Parse(server, m.(writeId := false), Probe, ProbeId).value).None?
  {
    var start := Modes(true, false);
    var parsed := Parse(server, start, Probe, ProbeId).value;
    if !Contains(parsed, "\"42|hallo\"") {
      assert Calibrate(server) == CheckId(parsed, start);
    } else {
      var plain := Modes(false, false);
      var again := Parse(server, plain, Probe, ProbeId).value;
      assert Calibrate(server) == CheckId(again, plain);
    }
  }

  /** `AlpinoServerClient`: the server, and the calibration state its constructor settles. */
  class ServerClient {
    const server: string -> string
    var prefixId: bool
    var writeId: bool

    constructor (server: string -> string)
      ensures this.server == server && prefixId && !writeId
    {
      this.server := server;
      prefixId := true;
      writeId := false;
    }

    /** `parse_line(line, sentence_id)` in the client's current modes. */
    method ParseLine(line: string, id: string) returns (r: Result<string>)
      ensures r == Parse(server, Modes(prefixId, writeId), line, id)
    {
      var xml := server(Request(prefixId, line, id));
      if !Contains(xml, "<alpino_ds") {
        return Err(xml);
      }
      if !prefixId {
        xml := SubSentIds(xml, id);
      }
      if writeId {
        xml := InjectSentId(xml, id);
      }
      return Ok(xml);
    }
  }

  /** `AlpinoServerClient(host, port)`: a new client with its modes calibrated, or the exception the calibration raises. */
  method Connect(server: string -> string) returns (r: Result<ServerClient>)
    ensures r.Ok? ==> fresh(r.value) && r.value.server == server
    ensures r.Ok? ==> Calibrate(server) == Ok(Modes(r.value.prefixId, r.value.writeId))
    ensures r.Err? ==> Calibrate(server) == Err(r.error)
  {
    var client := new ServerClient(server);
    var parsed := client.ParseLine(Probe, ProbeId);
    if parsed.Err? {
      return Err(parsed.error);
    }
    var xml := parsed.value;
    if Contains(xml, "\"42|hallo\"") {
      client.prefixId := false;
      parsed := client.ParseLine(Probe, ProbeId);
      if parsed.Err? {
        return Err(parsed.error);
      }
      xml := parsed.value;
      if !Contains(xml, "\"hallo\"") {
        return Err("Alpino has unsupported sentence ID behavior");
      }
    }
    match SearchSentId(xml) {
      case None =>
        client.writeId := true;
      case Some(found) =>
        if client.prefixId && found != ProbeId {
          return Err("Unexpected sentence id: " + found + " instead of 42");
        }
    }
    return Ok(client);
  }

  // The process client's executable

  /** The end of the head of `os.path.split(p)`: just after the last `/`, or 0. */
  function SlashEnd(p: string): (i: nat)
    ensures i <= |p| && (i > 0 ==> p[i - 1] == '/') && forall k :: i <= k < |p| ==> p[k] != '/'
  {
    if p == [] then 0
    else if p[|p| - 1] == '/' then |p|
    else SlashEnd(p[..|p| - 1])
  }

  function RStripSlashes(h: string): (r: string)
    ensures r <= h
  {
    if h != [] && h[|h| - 1] == '/' then RStripSlashes(h[..|h| - 1]) else h
  }

  predicate AllSlashes(h: string) {
    forall k :: 0 <= k < |h| ==> h[k] == '/'
  }

  /** `os.path.split(p)[0]`: up to the last `/`, with trailing slashes dropped unless it is nothing but slashes. */
  function Dirname(p: string): (r: string)
    ensures r <= p
  {
    var head := p[..SlashEnd(p)];
    if head != [] && !AllSlashes(head) then RStripSlashes(head) else head
  }

  /** `os.path.join(a, b)` for a relative `b`. */
  function JoinPath(a: string, b: string): (r: string)
    ensures a <= r && |r| >= |b| && r[|r| - |b|..] == b
  {
    if a == [] || a[|a| - 1] == '/' then a + b else a + "/" + b
  }

  /** `os.path.join(path, "bin", "Alpino")` */
  function BinAlpino(path: string): string {
    JoinPath(JoinPath(path, "bin"), "Alpino")
  }

  /**
   * `AlpinoProcessClient.__init__`: the executable and the Alpino directory.
   * A file is the executable itself, two levels below the directory; a
   * directory must hold `bin/Alpino`; anything else does not exist.
   */
  function Resolve(path: string, isFile: string -> bool, isDir: string -> bool): Result<(string, string)> {
    if isFile(path) then Ok((path, Dirname(Dirname(path))))
    else if !isDir(path) then Err("FileNotFoundError: No such file or directory: " + path)
    else
      var executable := BinAlpino(path);
      if !isFile(executable) then Err("FileNotFoundError: Cannot find Alpino executable within specified path: " + executable)
      else Ok((executable, path))
  }

  /**
   * Resolution succeeds exactly when the path or its `bin/Alpino` is a file,
   * the executable is then a file, and the directory is a prefix of its path.
   */
  lemma ResolveOutcome(path: string, isFile: string -> bool, isDir: string -> bool)
    ensures Resolve(path, isFile, isDir).Ok? <==> isFile(path) || (isDir(path) && isFile(BinAlpino(path)))
    ensures Resolve(path, isFile, isDir).Ok? ==>
              var (executable, directory) := Resolve(path, isFile, isDir).value;
              isFile(executable) && directory <= executable && path <= executable
  {
    if !isFile(path) && isDir(path) {
      var exe := BinAlpino(path);
      assert path <= JoinPath(path, "bin") <= exe;
    } else if isFile(path) {
      var d := Dirname(path);
      assert Dirname(d) <= d <= path;
    }
  }
}
