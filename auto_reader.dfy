/**
 * The reader that picks the reader for a file: the first of the CHAT,
 * FoLiA, Lassy, PaQu and TEI readers whose `test_file` accepts it. The
 * readers themselves are an input: a function from the chosen format and
 * the file to the documents read.
 */
module AutoReader {
  import opened Wrappers
  import opened Text
  import opened Models
  import PaQuReader
  import FoliaReader
  import TeiReader

  datatype Format = Chat | Folia | Lassy | PaQu | Tei

  /** The readers in the order they are tried. */
  const Readers: seq<Format> := [Chat, Folia, Lassy, PaQu, Tei]

  /** Each reader's `test_file`: a filename suffix, or a tag among the first 400 characters. */
  predicate Accepts(format: Format, file: CollectedFile) {
    match format
    case Chat => UpperAscii(Last(file.filename, 3)) == "CHA"
    case Folia => FoliaReader.TestFile(file)
    case Lassy => Contains(Take(file.content, 400), "<alpino_ds")
    case PaQu => PaQuReader.TestFile(file)
    case Tei => TeiReader.TestFile(file)
  }

  /** The position of the first format in `formats` that accepts the file. */
  function FirstAccepting(formats: seq<Format>, file: CollectedFile): (r: Option<nat>)
    ensures r.Some? ==> r.value < |formats| && Accepts(formats[r.value], file)
    ensures r.Some? ==> forall j :: 0 <= j < r.value ==> !Accepts(formats[j], file)
    ensures r.None? <==> forall j :: 0 <= j < |formats| ==> !Accepts(formats[j], file)
  {
    if formats == [] then None
    else if Accepts(formats[0], file) then Some(0)
    else match FirstAccepting(formats[1..], file)
      case None => None
      case Some(j) => Some(j + 1)
  }

  /** `read(file)`: the documents of the first reader that accepts the file, none when no reader does. */
  function Read(read: (Format, CollectedFile) -> seq<Document>, file: CollectedFile): seq<Document> {
    match FirstAccepting(Readers, file)
    case None => []
    case Some(i) => read(Readers[i], file)
  }

  /** `test_file(file)`: the same search, answering whether it found a reader. */
  predicate TestFile(file: CollectedFile) {
    FirstAccepting(Readers, file).Some?
  }

  /** The format at `i` is the one chosen when it accepts the file and none before it does. */
  lemma {:induction false} FirstAcceptingAt(formats: seq<Format>, file: CollectedFile, i: nat)
    requires i < |formats| && Accepts(formats[i], file)
    requires forall j :: 0 <= j < i ==> !Accepts(formats[j], file)
    ensures FirstAccepting(formats, file) == Some(i)
  {
    if i > 0 {
      FirstAcceptingAt(formats[1..], file, i - 1);
    }
  }

  /**
   * `test_file` holds exactly when some reader accepts the file, and `read`
   * hands the file to the first one in the order CHAT, FoLiA, Lassy, PaQu,
   * TEI; a file no reader accepts reads as no documents.
   */
  lemma Dispatch(read: (Format, CollectedFile) -> seq<Document>, file: CollectedFile, i: nat)
    ensures TestFile(file) <==> exists k :: 0 <= k < |Readers| && Accepts(Readers[k], file)
    ensures !TestFile(file) ==> Read(read, file) == []
    ensures i < |Readers| && Accepts(Readers[i], file) && (forall j :: 0 <= j < i ==> !Accepts(Readers[j], file)) ==>
              Read(read, file) == read(Readers[i], file)
  {
    if i < |Readers| && Accepts(Readers[i], file) && (forall j :: 0 <= j < i ==> !Accepts(Readers[j], file)) {
      FirstAcceptingAt(Readers, file, i);
    }
  }

  /**
   * `read` comes back empty exactly when every reader that accepts the file
   * with no accepting reader before it finds no documents in it; in
   * particular when no reader accepts the file at all.
   */
  lemma ReadEmpty(read: (Format, CollectedFile) -> seq<Document>, file: CollectedFile)
    ensures Read(read, file) == [] <==>
              forall k :: (0 <= k < |Readers| && Accepts(Readers[k], file) &&
                           forall j :: 0 <= j < k ==> !Accepts(Readers[j], file)) ==> read(Readers[k], file) == []
  {
    var first := FirstAccepting(Readers, file);
    if first.Some? {
      forall k | 0 <= k < |Readers| && Accepts(Readers[k], file) && (forall j :: 0 <= j < k ==> !Accepts(Readers[j], file))
        ensures k == first.value
      {
        FirstAcceptingAt(Readers, file, k);
      }
    }
  }
}
