/**
 * Reading PaQu plain text: `##META type name = value` lines set metadata,
 * `id|text` lines (or plain lines) are text, and blank lines separate blocks.
 * Metadata before the first blank line belongs to the whole file; a metadata
 * line after text starts a new document.
 */
module PaQuReader {
  import opened Wrappers
  import opened Text
  import opened Dicts
  import opened Models

  /** The length of the run of non-whitespace characters of `s` starting at `from`. */
  function NonSpaceRun(s: string, from: nat): (n: nat)
    requires from <= |s|
    ensures from + n <= |s|
    ensures forall j :: from <= j < from + n ==> !IsSpace(s[j])
    ensures from + n == |s| || IsSpace(s[from + n])
    decreases |s| - from
  {
    if from == |s| || IsSpace(s[from]) then 0 else 1 + NonSpaceRun(s, from + 1)
  }

  /** The last index `j` with `lo <= j < hi` and `s[j] == c`, if any. */
  function LastIn(s: string, c: char, lo: nat, hi: nat): (r: Option<nat>)
    requires hi <= |s|
    ensures r.Some? ==> lo <= r.value < hi && s[r.value] == c
    ensures r.Some? ==> forall j :: r.value < j < hi ==> s[j] != c
    ensures r.None? ==> forall j :: lo <= j < hi ==> s[j] != c
    decreases hi
  {
    if hi <= lo then None
    else if s[hi - 1] == c then Some(hi - 1)
    else LastIn(s, c, lo, hi - 1)
  }

  /** The value group of the metadata pattern: the rest of the line, less one optional leading space. */
  function MetaValue(rest: string): string {
    if |rest| > 0 && rest[0] == ' ' then rest[1..] else rest
  }

  /**
   * Matching `^##META ([^\s]+) ([^\s]+) ?= ?(.*)$` against a stripped line:
   * the type is the run after `##META `, which must end in a space; the name
   * is the next run when ` =` follows it, else that run up to its last `=`.
   */
  function MatchMeta(line: string): (r: Option<(string, string, string)>)
    ensures r.Some? ==> |r.value.0| > 0 && NoSpace(r.value.0) && |r.value.1| > 0 && NoSpace(r.value.1)
  {
    if !("##META " <= line) then None
    else
      var n1 := NonSpaceRun(line, 7);
      if n1 == 0 || 7 + n1 == |line| || line[7 + n1] != ' ' then None
      else
        var p := 8 + n1;
        var n2 := NonSpaceRun(line, p);
        if n2 == 0 then None
        else if p + n2 + 1 < |line| && line[p + n2] == ' ' && line[p + n2 + 1] == '=' then
          Some((line[7..7 + n1], line[p..p + n2], MetaValue(line[p + n2 + 2..])))
        else
          match LastIn(line, '=', p + 1, p + n2)
          case None => None
          case Some(q) => Some((line[7..7 + n1], line[p..q], MetaValue(line[q + 1..])))
  }

  /**
   * Matching `([^\s]+)\|(.*)$` at the start of a stripped line: the id is the
   * leading non-whitespace run up to its last `|`, the text is the rest.
   */
  function MatchId(line: string): (r: Option<(string, string)>)
    ensures r.Some? ==> |r.value.0| > 0 && NoSpace(r.value.0) && line == r.value.0 + "|" + r.value.1
    ensures r.Some? ==> |r.value.0| < NonSpaceRun(line, 0) &&
                        forall j :: |r.value.0| < j < NonSpaceRun(line, 0) ==> line[j] != '|'
    ensures r.None? ==> forall j :: 0 < j < NonSpaceRun(line, 0) ==> line[j] != '|'
  {
    var n := NonSpaceRun(line, 0);
    match LastIn(line, '|', 1, n)
    case None => None
    case Some(k) =>
      assert line == line[..k] + "|" + line[k + 1..];
      Some((line[..k], line[k + 1..]))
  }

  /** `get_subpath`: the `id` metadata value, else `messageid`, else empty. */
  function GetSubpath(metadata: Metadata): (r: string)
    ensures Has(metadata, "id") ==> r == Get(metadata, "id").value
    ensures !Has(metadata, "id") && Has(metadata, "messageid") ==> r == Get(metadata, "messageid").value
    ensures !Has(metadata, "id") && !Has(metadata, "messageid") ==> r == []
  {
    if Has(metadata, "id") then Get(metadata, "id").value
    else if Has(metadata, "messageid") then Get(metadata, "messageid").value
    else []
  }

  /** `test_file`: the last three characters of the filename, upper-cased, are `TXT`. */
  predicate TestFile(file: CollectedFile) {
    UpperAscii(Last(file.filename, 3)) == "TXT"
  }

  /** A text line as read: its id, when the line had one, and its text. */
  type TextLine = (Option<string>, string)

  /** The id a text line's utterances are numbered under: its own, else `uttid`, else its index. */
  function LineId(metadata: Metadata, i: nat, id: Option<string>): string {
    match id
    case Some(x) => x
    case None => if Has(metadata, "uttid") then Get(metadata, "uttid").value else NatToString(i)
  }

  /** The utterances of text line `i`: one per sentence the tokenizer finds, numbered from 0. */
  function LineUtterances(metadata: Metadata, i: nat, line: TextLine, tokenize: string -> seq<string>): (r: seq<Utterance>)
    ensures |r| == |tokenize(line.1)|
    ensures forall j :: 0 <= j < |r| ==>
              r[j] == Utterance(tokenize(line.1)[j], LineId(metadata, i, line.0) + "-" + NatToString(j), metadata, LineNumber(i), [])
  {
    var sentences := tokenize(line.1);
    seq(|sentences|, j requires 0 <= j < |sentences| =>
      Utterance(sentences[j], LineId(metadata, i, line.0) + "-" + NatToString(j), metadata, LineNumber(i), []))
  }

  /** The utterances of the first `n` text lines, line by line. */
  function Utterances(metadata: Metadata, lines: seq<TextLine>, n: nat, tokenize: string -> seq<string>): seq<Utterance>
    requires n <= |lines|
  {
    if n == 0 then [] else Utterances(metadata, lines, n - 1, tokenize) + LineUtterances(metadata, n - 1, lines[n - 1], tokenize)
  }

  /** `parse_utterances` */
  method ParseUtterances(metadata: Metadata, lines: seq<TextLine>, tokenize: string -> seq<string>) returns (r: seq<Utterance>)
    ensures r == Utterances(metadata, lines, |lines|, tokenize)
  {
    r := [];
    var i := 0;
    while i < |lines|
      invariant 0 <= i <= |lines|
      invariant r == Utterances(metadata, lines, i, tokenize)
    {
      var (id, text) := lines[i];
      var base: string;
      if id.Some? {
        base := id.value;
      } else if Has(metadata, "uttid") {
        base := Get(metadata, "uttid").value;
      } else {
        base := NatToString(i);
      }
      var sentences := tokenize(text);
      ghost var before := r;
      ghost var expected := LineUtterances(metadata, i, lines[i], tokenize);
      assert base == LineId(metadata, i, lines[i].0);
      var j := 0;
      while j < |sentences|
        invariant 0 <= j <= |sentences| == |expected|
        invariant r == before + expected[..j]
      {
        assert expected[..j + 1] == expected[..j] + [expected[j]];
        r := r + [Utterance(sentences[j], base + "-" + NatToString(j), metadata, LineNumber(i), [])];
        j := j + 1;
      }
      assert expected[..j] == expected;
      i := i + 1;
    }
  }

  /** The reader's variables between two lines. */
  datatype ReaderState = ReaderState(fileMetadata: Option<Metadata>, metadata: Metadata, readingFileMetadata: bool, textLines: seq<TextLine>)

  const Start := ReaderState(None, [], true, [])

  /** The document made of the pending text lines: file metadata overlaid by the current metadata. */
  function MakeDocument(file: CollectedFile, st: ReaderState, tokenize: string -> seq<string>): Document {
    var fileMetadata := if st.fileMetadata.Some? then st.fileMetadata.value else [];
    Document(file, Utterances(st.metadata, st.textLines, |st.textLines|, tokenize), Overlay(fileMetadata, st.metadata), GetSubpath(st.metadata))
  }

  /** What a line is, once stripped: blank, metadata, or text. */
  datatype LineKind = Blank | Meta(kind: string, name: string, value: string) | Text(textLine: TextLine)

  function Classify(line: string): LineKind {
    var stripped := Strip(line);
    if stripped == [] then Blank
    else match MatchMeta(stripped)
      case Some((kind, name, value)) => Meta(kind, name, value)
      case None => Text(match MatchId(stripped) case Some((id, text)) => (Some(id), text) case None => (None, stripped))
  }

  /** The documents made of a sequence of completed blocks. */
  function MakeDocuments(file: CollectedFile, blocks: seq<ReaderState>, tokenize: string -> seq<string>): (docs: seq<Document>)
    ensures |docs| == |blocks| && forall i :: 0 <= i < |blocks| ==> docs[i] == MakeDocument(file, blocks[i], tokenize)
  {
    seq(|blocks|, i requires 0 <= i < |blocks| => MakeDocument(file, blocks[i], tokenize))
  }

  /**
   * What one line of the file does to the reader's variables, and the block of
   * text lines it completes, if any, as the reader's variables at that moment.
   */
  function Step(st: ReaderState, kind: LineKind): (ReaderState, seq<ReaderState>) {
    match kind
    case Blank =>
      if st.metadata != [] && st.readingFileMetadata then
        (st.(fileMetadata := Some(st.metadata), metadata := [], readingFileMetadata := false), [])
      else
        (st.(readingFileMetadata := false), [])
    case Meta(kind, name, value) =>
      var (st', closed) := if st.textLines != [] then (st.(metadata := [], textLines := []), [st]) else (st, []);
      (st'.(metadata := Set(st'.metadata, name, MetadataValue(value, kind))), closed)
    case Text(textLine) =>
      (st.(textLines := st.textLines + [textLine]), [])
  }

  /** The reader's variables after the first `n` lines, classified, and the blocks completed so far. */
  function Scan(kinds: seq<LineKind>, n: nat): (ReaderState, seq<ReaderState>)
    requires n <= |kinds|
  {
    if n == 0 then (Start, [])
    else
      var (st, closed) := Scan(kinds, n - 1);
      var (st', more) := Step(st, kinds[n - 1]);
      (st', closed + more)
  }

  /** The lines of a file, classified. */
  function Kinds(content: string): (kinds: seq<LineKind>)
    ensures |kinds| == |SplitLines(content)|
    ensures forall i :: 0 <= i < |kinds| ==> kinds[i] == Classify(SplitLines(content)[i])
  {
    var lines := SplitLines(content);
    seq(|lines|, i requires 0 <= i < |lines| => Classify(lines[i]))
  }

  /** The blocks of a whole file: those completed by metadata lines, then the one pending at the end. */
  function Blocks(content: string): seq<ReaderState> {
    var kinds := Kinds(content);
    var (st, closed) := Scan(kinds, |kinds|);
    closed + if st.textLines != [] then [st] else []
  }

  /** The documents of a whole file. */
  function Documents(file: CollectedFile, tokenize: string -> seq<string>): seq<Document> {
    MakeDocuments(file, Blocks(file.content), tokenize)
  }

  /** The `Document(...)` the reader yields for the pending text lines. */
  method NewDocument(file: CollectedFile, fileMetadata: Option<Metadata>, metadata: Metadata, textLines: seq<TextLine>,
                     tokenize: string -> seq<string>) returns (doc: Document)
    ensures doc == MakeDocument(file, ReaderState(fileMetadata, metadata, false, textLines), tokenize)
  {
    var utterances := ParseUtterances(metadata, textLines, tokenize);
    var fm := if fileMetadata.Some? then fileMetadata.value else [];
    doc := Document(file, utterances, Overlay(fm, metadata), GetSubpath(metadata));
  }

  /** A metadata line: completes the pending text lines, if any, then stores the entry. */
  method ReadMetaLine(file: CollectedFile, fileMetadata0: Option<Metadata>, metadata0: Metadata, readingFileMetadata0: bool,
                      textLines0: seq<TextLine>, kind: string, name: string, value: string, tokenize: string -> seq<string>)
    returns (fileMetadata: Option<Metadata>, metadata: Metadata, readingFileMetadata: bool, textLines: seq<TextLine>, completed: seq<Document>)
    ensures ReaderState(fileMetadata, metadata, readingFileMetadata, textLines)
         == Step(ReaderState(fileMetadata0, metadata0, readingFileMetadata0, textLines0), Meta(kind, name, value)).0
    ensures completed == MakeDocuments(file, Step(ReaderState(fileMetadata0, metadata0, readingFileMetadata0, textLines0), Meta(kind, name, value)).1, tokenize)
  {
    fileMetadata, metadata, readingFileMetadata, textLines := fileMetadata0, metadata0, readingFileMetadata0, textLines0;
    completed := [];
    if textLines != [] {
      var doc := NewDocument(file, fileMetadata, metadata, textLines, tokenize);
      completed := [doc];
      metadata := [];
      textLines := [];
    }
    metadata := Set(metadata, name, MetadataValue(value, kind));
  }

  /** The body of the reader's line loop: one line updates the reader's variables and may complete a document. */
  method ReadLine(file: CollectedFile, fileMetadata0: Option<Metadata>, metadata0: Metadata, readingFileMetadata0: bool,
                  textLines0: seq<TextLine>, line: string, tokenize: string -> seq<string>)
    returns (fileMetadata: Option<Metadata>, metadata: Metadata, readingFileMetadata: bool, textLines: seq<TextLine>, completed: seq<Document>)
    ensures ReaderState(fileMetadata, metadata, readingFileMetadata, textLines)
         == Step(ReaderState(fileMetadata0, metadata0, readingFileMetadata0, textLines0), Classify(line)).0
    ensures completed == MakeDocuments(file, Step(ReaderState(fileMetadata0, metadata0, readingFileMetadata0, textLines0), Classify(line)).1, tokenize)
  {
    fileMetadata, metadata, readingFileMetadata, textLines := fileMetadata0, metadata0, readingFileMetadata0, textLines0;
    completed := [];
    var stripped := Strip(line);
    if stripped == [] {
      assert Classify(line) == Blank;
      if metadata != [] && readingFileMetadata {
        fileMetadata := Some(metadata);
        metadata := [];
      }
      readingFileMetadata := false;
      return;
    }
    var metadataMatch := MatchMeta(stripped);
    if metadataMatch.Some? {
      var (kind, name, value) := metadataMatch.value;
      assert Classify(line) == Meta(kind, name, value);
      fileMetadata, metadata, readingFileMetadata, textLines, completed :=
        ReadMetaLine(file, fileMetadata, metadata, readingFileMetadata, textLines, kind, name, value, tokenize);
    } else {
      var idMatch := MatchId(stripped);
      var textLine: TextLine := if idMatch.Some? then (Some(idMatch.value.0), idMatch.value.1) else (None, stripped);
      assert Classify(line) == Text(textLine);
      textLines := textLines + [textLine];
    }
  }

  /** `PaQuReader.read` */
  method Read(file: CollectedFile, tokenize: string -> seq<string>) returns (docs: seq<Document>)
    ensures docs == Documents(file, tokenize)
  {
    var fileMetadata: Option<Metadata> := None;
    var metadata: Metadata := [];
    var readingFileMetadata := true;
    var textLines: seq<TextLine> := [];
    docs := [];
    var lines := SplitLines(file.content);
    ghost var kinds := Kinds(file.content);
    var i := 0;
    while i < |lines|
      invariant 0 <= i <= |lines|
      invariant ReaderState(fileMetadata, metadata, readingFileMetadata, textLines) == Scan(kinds, i).0
      invariant docs == MakeDocuments(file, Scan(kinds, i).1, tokenize)
    {
      var completed;
      fileMetadata, metadata, readingFileMetadata, textLines, completed :=
        ReadLine(file, fileMetadata, metadata, readingFileMetadata, textLines, lines[i], tokenize);
      ScanStep(file, kinds, i, docs, completed, tokenize);
      docs := docs + completed;
      i := i + 1;
    }
    ghost var pending := if textLines != [] then [Scan(kinds, i).0] else [];
    if textLines != [] {
      var doc := NewDocument(file, fileMetadata, metadata, textLines, tokenize);
      docs := docs + [doc];
    }
    MakeDocumentsAppend(file, Scan(kinds, i).1, pending, tokenize);
    ReadEnd(file, kinds, docs, pending, tokenize);
  }

  /** After the last line, the documents read are those of the whole file. */
  lemma ReadEnd(file: CollectedFile, kinds: seq<LineKind>, docs: seq<Document>, pending: seq<ReaderState>,
                tokenize: string -> seq<string>)
    requires kinds == Kinds(file.content)
    requires pending == if Scan(kinds, |kinds|).0.textLines != [] then [Scan(kinds, |kinds|).0] else []
    requires docs == MakeDocuments(file, Scan(kinds, |kinds|).1 + pending, tokenize)
    ensures docs == Documents(file, tokenize)
  {
  }

  /**
   * The blocks closed by metadata lines come first, one document each; text
   * still pending after the last line makes exactly one more, final
   * document. A file whose last line is text therefore ends with the
   * document holding that line as its last text line.
   */
  lemma FinalDocument(file: CollectedFile, tokenize: string -> seq<string>)
    ensures var kinds := Kinds(file.content);
            var st, closed := Scan(kinds, |kinds|).0, Scan(kinds, |kinds|).1;
            var docs := Documents(file, tokenize);
            && |docs| == |closed| + (if st.textLines != [] then 1 else 0)
            && (forall i :: 0 <= i < |closed| ==> docs[i] == MakeDocument(file, closed[i], tokenize))
            && (st.textLines != [] ==> docs[|closed|] == MakeDocument(file, st, tokenize))
            && (kinds != [] && kinds[|kinds| - 1].Text? ==>
                  st.textLines != [] && st.textLines[|st.textLines| - 1] == kinds[|kinds| - 1].textLine)
  {
    var kinds := Kinds(file.content);
    var st, closed := Scan(kinds, |kinds|).0, Scan(kinds, |kinds|).1;
    var pending := if st.textLines != [] then [st] else [];
    assert Blocks(file.content) == closed + pending;
    if kinds != [] && kinds[|kinds| - 1].Text? {
      var prev := Scan(kinds, |kinds| - 1);
      assert st == Step(prev.0, kinds[|kinds| - 1]).0;
    }
  }

  /** One turn of the reader's loop extends the documents by those the line completes. */
  lemma ScanStep(file: CollectedFile, kinds: seq<LineKind>, i: nat, docs: seq<Document>, completed: seq<Document>,
                 tokenize: string -> seq<string>)
    requires i < |kinds|
    requires docs == MakeDocuments(file, Scan(kinds, i).1, tokenize)
    requires completed == MakeDocuments(file, Step(Scan(kinds, i).0, kinds[i]).1, tokenize)
    ensures Scan(kinds, i + 1).0 == Step(Scan(kinds, i).0, kinds[i]).0
    ensures docs + completed == MakeDocuments(file, Scan(kinds, i + 1).1, tokenize)
  {
    MakeDocumentsAppend(file, Scan(kinds, i).1, Step(Scan(kinds, i).0, kinds[i]).1, tokenize);
  }

  lemma MakeDocumentsAppend(file: CollectedFile, a: seq<ReaderState>, b: seq<ReaderState>, tokenize: string -> seq<string>)
    ensures MakeDocuments(file, a + b, tokenize) == MakeDocuments(file, a, tokenize) + MakeDocuments(file, b, tokenize)
  {
  }
  /**
   * A blank line ends the reading of file metadata: metadata read before the
   * first blank line becomes the file metadata and the current map is reset;
   * any later blank line changes nothing else.
   */
  lemma BlankLine(st: ReaderState)
    ensures var (st', closed) := Step(st, Blank);
            && closed == [] && !st'.readingFileMetadata && st'.textLines == st.textLines
            && (st.readingFileMetadata && st.metadata != [] ==> st'.fileMetadata == Some(st.metadata) && st'.metadata == [])
            && (!(st.readingFileMetadata && st.metadata != []) ==> st'.fileMetadata == st.fileMetadata && st'.metadata == st.metadata)
  {
  }

  /** A metadata line stores its value, typed as the line says, under its name in the current metadata. */
  lemma MetaLineStores(st: ReaderState, m: LineKind)
    requires m.Meta?
    ensures var st' := Step(st, m).0;
            Has(st'.metadata, m.name) && Get(st'.metadata, m.name) == MetadataValue(m.value, m.kind)
  {
  }

  /**
   * A metadata line after text closes the pending block, and the reader
   * starts afresh with just the new entry; the file metadata stays.
   */
  lemma MetaLineAfterText(st: ReaderState, m: LineKind)
    requires st.textLines != [] && m.Meta?
    ensures var (st', closed) := Step(st, m);
            && closed == [st]
            && st'.textLines == []
            && st'.metadata == [(m.name, MetadataValue(m.value, m.kind))]
            && st'.fileMetadata == st.fileMetadata
  {
    var empty: Metadata := [];
    assert !Has(empty, m.name);
  }

  /** A completed block becomes a document with the file metadata overlaid by the block's own. */
  lemma DocumentMetadata(file: CollectedFile, st: ReaderState, tokenize: string -> seq<string>, key: string)
    ensures var doc := MakeDocument(file, st, tokenize);
            var fileMetadata := if st.fileMetadata.Some? then st.fileMetadata.value else [];
            && (Has(doc.metadata, key) <==> Has(fileMetadata, key) || Has(st.metadata, key))
            && (Has(st.metadata, key) ==> Get(doc.metadata, key) == Get(st.metadata, key))
            && (!Has(st.metadata, key) && Has(fileMetadata, key) ==> Get(doc.metadata, key) == Get(fileMetadata, key))
            && doc.subpath == GetSubpath(st.metadata)
  {
    OverlayFacts(if st.fileMetadata.Some? then st.fileMetadata.value else [], st.metadata);
  }

  /** Once a blank line has been read, the file metadata never changes again. */
  lemma {:induction false} FileMetadataSettles(kinds: seq<LineKind>, m: nat, n: nat)
    requires m <= n <= |kinds|
    requires !Scan(kinds, m).0.readingFileMetadata
    ensures !Scan(kinds, n).0.readingFileMetadata
    ensures Scan(kinds, n).0.fileMetadata == Scan(kinds, m).0.fileMetadata
    decreases n - m
  {
    if m < n {
      FileMetadataSettles(kinds, m, n - 1);
    }
  }

  /** Pending text lines or completed blocks: what a document is made of. */
  predicate HasText(r: (ReaderState, seq<ReaderState>)) {
    r.0.textLines != [] || r.1 != []
  }

  /** A line never takes away the material for a document. */
  lemma StepKeepsText(st: ReaderState, kind: LineKind)
    requires st.textLines != []
    ensures Step(st, kind).0.textLines != [] || Step(st, kind).1 != []
  {
  }

  /** A line that is not text adds no text and completes nothing when there is none. */
  lemma StepWithoutText(st: ReaderState, kind: LineKind)
    requires st.textLines == [] && !kind.Text?
    ensures Step(st, kind).0.textLines == [] && Step(st, kind).1 == []
  {
  }

  lemma {:induction false} ScanKeepsText(kinds: seq<LineKind>, m: nat, n: nat)
    requires m <= n <= |kinds|
    requires HasText(Scan(kinds, m))
    ensures HasText(Scan(kinds, n))
    decreases n - m
  {
    if m < n {
      ScanKeepsText(kinds, m, n - 1);
      var (st, closed) := Scan(kinds, n - 1);
      if st.textLines != [] {
        StepKeepsText(st, kinds[n - 1]);
      }
    }
  }

  lemma {:induction false} ScanNoText(kinds: seq<LineKind>, n: nat)
    requires n <= |kinds|
    requires forall k :: 0 <= k < n ==> !kinds[k].Text?
    ensures !HasText(Scan(kinds, n))
  {
    if n > 0 {
      ScanNoText(kinds, n - 1);
      var prev := Scan(kinds, n - 1);
      StepWithoutText(prev.0, kinds[n - 1]);
      assert Scan(kinds, n) == (Step(prev.0, kinds[n - 1]).0, prev.1 + Step(prev.0, kinds[n - 1]).1);
    }
  }

  /** Text lines are the only thing that leads to documents. */
  lemma ScanWithoutText(kinds: seq<LineKind>, n: nat)
    requires n <= |kinds|
    ensures (forall k :: 0 <= k < n ==> !kinds[k].Text?) <==> !HasText(Scan(kinds, n))
  {
    if forall k :: 0 <= k < n ==> !kinds[k].Text? {
      ScanNoText(kinds, n);
    } else {
      var k :| 0 <= k < n && kinds[k].Text?;
      assert Scan(kinds, k + 1).0.textLines != [];
      ScanKeepsText(kinds, k + 1, n);
    }
  }

  /** A file yields no document exactly when it has no text line. */
  lemma NoTextNoDocuments(file: CollectedFile, tokenize: string -> seq<string>)
    ensures Documents(file, tokenize) == [] <==>
            forall k :: 0 <= k < |Kinds(file.content)| ==> !Kinds(file.content)[k].Text?
  {
    var kinds := Kinds(file.content);
    ScanWithoutText(kinds, |kinds|);
    var blocks := Blocks(file.content);
    assert blocks == [] <==> !HasText(Scan(kinds, |kinds|));
    assert |Documents(file, tokenize)| == |blocks|;
  }
}
