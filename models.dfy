/**
 * The records the converters pass around: a collected file, a metadata value,
 * an utterance and a document. Maps whose iteration order shows in the output
 * are insertion-ordered dicts.
 */
module Models {
  import opened Wrappers
  import opened Dicts

  datatype CollectedFile = CollectedFile(relpath: string, filename: string, mimetype: string, content: string)

  /** A metadata value and its type (`text` unless the reader found another). */
  datatype MetadataValue = MetadataValue(value: string, kind: string)

  /** A metadata value of the default type, `text`. */
  function TextValue(value: string): (m: MetadataValue)
    ensures m.value == value && m.kind == "text"
  {
    MetadataValue(value, "text")
  }

  type Metadata = Dict<MetadataValue>

  /**
   * The `line` of an utterance is a line number, except where the FoLiA reader
   * passes the sentence text in that position.
   */
  datatype LineRef = LineNumber(n: int) | LineText(s: string)

  datatype Utterance = Utterance(text: string, id: string, metadata: Metadata, line: LineRef, annotations: Dict<string>)

  datatype Document = Document(collectedFile: CollectedFile, utterances: seq<Utterance>, metadata: Metadata, subpath: string)

  /** One call of `target.write`: the content, and the filename and suffix when given. */
  datatype TargetWrite = TargetWrite(content: string, filename: Option<string>, suffix: Option<string>)

  /** The contents of a sequence of writes, concatenated. */
  function Contents(writes: seq<TargetWrite>): (r: string)
    ensures writes == [] ==> r == []
  {
    if writes == [] then [] else Contents(writes[..|writes| - 1]) + writes[|writes| - 1].content
  }
}
