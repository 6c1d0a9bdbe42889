/**
 * The converter of the `folia2alpino` package: every file is offered to the
 * FoLiA converter and then to the TEI converter, and each converter whose
 * probe accepts the file contributes all its sentences. A file is its name,
 * the lines the probes read, and what the FoLiA and the TEI parser make of
 * it.
 */
module Folia2AlpinoConverter {
  import Seqs
  import opened Text
  import TeiReader
  import AlpinoWrappers
  import LegacyProbe
  import FoliaConverter
  import TeiConverter

  datatype InputFile = InputFile(name: string, lines: seq<string>, folia: FoliaConverter.FoliaFile, tei: seq<TeiReader.TeiDocument>)

  datatype Kind = FoliaKind | TeiKind

  /** `self.converters`: FoLiA first, then TEI. */
  const Converters: seq<Kind> := [FoliaKind, TeiKind]

  /** The tag each converter's `test_file` looks for. */
  function Marker(kind: Kind): string {
    match kind
    case FoliaKind => "<FoLiA"
    case TeiKind => "<TEI"
  }

  /** `converter.test_file(file_name)` */
  predicate Accepts(kind: Kind, file: InputFile) {
    LegacyProbe.Probe(file.lines, Marker(kind), LegacyProbe.Lines)
  }

  /** `converter.get_sentences([file_name])` */
  function KindLines(kind: Kind, file: InputFile, tokenize: string -> seq<string>): seq<AlpinoWrappers.Line> {
    match kind
    case FoliaKind => FoliaConverter.Lines(FoliaConverter.FileSentences([file.folia]))
    case TeiKind => TeiConverter.FilesLines([TeiConverter.TeiFile(file.name, file.tei)], tokenize)
  }

  /** What one converter adds for a file: all its sentences if it accepts the file, none otherwise. */
  function Contribution(kind: Kind, file: InputFile, tokenize: string -> seq<string>): seq<AlpinoWrappers.Line> {
    if Accepts(kind, file) then KindLines(kind, file, tokenize) else []
  }

  /** The converter loop for one file: the sentences of every converter that accepts it, in converter order. */
  function Dispatch(kinds: seq<Kind>, file: InputFile, tokenize: string -> seq<string>): seq<AlpinoWrappers.Line>
    decreases |kinds|
  {
    if kinds == [] then []
    else Dispatch(kinds[..|kinds| - 1], file, tokenize) + Contribution(kinds[|kinds| - 1], file, tokenize)
  }

  /** `get_sentences(file_names)`: file by file, what the converters make of the file. */
  function GetSentences(files: seq<InputFile>, tokenize: string -> seq<string>): seq<AlpinoWrappers.Line>
    decreases |files|
  {
    if files == [] then []
    else GetSentences(files[..|files| - 1], tokenize) + Dispatch(Converters, files[|files| - 1], tokenize)
  }

  /**
   * A converter accepts a file exactly when one of its first five lines
   * holds the converter's tag and no earlier line ends the file.
   */
  lemma AcceptsIff(kind: Kind, file: InputFile)
    ensures Accepts(kind, file) <==>
              exists i :: 0 <= i < LegacyProbe.Lines && i < |file.lines| &&
                Contains(file.lines[i], Marker(kind)) && LegacyProbe.NotEndedBy(file.lines, i)
  {
    LegacyProbe.ProbeFinds(file.lines, Marker(kind), LegacyProbe.Lines);
  }

  /**
   * A file gives the FoLiA converter's sentences if it accepts the file, then
   * the TEI converter's if it accepts the file: both when both do, none when
   * neither does.
   */
  lemma FileCases(file: InputFile, tokenize: string -> seq<string>)
    ensures Dispatch(Converters, file, tokenize) ==
              (if Accepts(FoliaKind, file) then KindLines(FoliaKind, file, tokenize) else []) +
              (if Accepts(TeiKind, file) then KindLines(TeiKind, file, tokenize) else [])
    ensures !Accepts(FoliaKind, file) && !Accepts(TeiKind, file) ==> Dispatch(Converters, file, tokenize) == []
  {
    var folia, tei := Contribution(FoliaKind, file, tokenize), Contribution(TeiKind, file, tokenize);
    assert Converters[..1] == [FoliaKind] && [FoliaKind][..0] == [];
    assert Dispatch([FoliaKind], file, tokenize) == [] + folia;
    Seqs.EmptyLeft(folia);
    assert Dispatch(Converters, file, tokenize) == folia + tei;
  }

  lemma {:induction false} GetSentencesAppend(a: seq<InputFile>, b: seq<InputFile>, tokenize: string -> seq<string>)
    ensures GetSentences(a + b, tokenize) == GetSentences(a, tokenize) + GetSentences(b, tokenize)
    decreases |b|
  {
    if b != [] {
      var b' := b[..|b| - 1];
      var last := Dispatch(Converters, b[|b| - 1], tokenize);
      Seqs.SplitLast(a, b);
      GetSentencesAppend(a, b', tokenize);
      Seqs.Regroup(GetSentences(a, tokenize), GetSentences(b', tokenize), last);
    } else {
      assert a + b == a;
    }
  }

  /**
   * Files keep their input order: the sentences of file `i` come after those
   * of the files before it and before those of the files after it.
   */
  lemma FileOrder(files: seq<InputFile>, i: nat, tokenize: string -> seq<string>)
    requires i < |files|
    ensures GetSentences(files, tokenize) ==
              GetSentences(files[..i], tokenize) + Dispatch(Converters, files[i], tokenize) + GetSentences(files[i + 1..], tokenize)
  {
    var before, rest := files[..i], files[i + 1..];
    Seqs.SplitAround(files, i);
    GetSentencesAppend(before + [files[i]], rest, tokenize);
    GetSentencesAppend(before, [files[i]], tokenize);
    GetSentencesOne(files[i], tokenize);
  }

  lemma GetSentencesOne(file: InputFile, tokenize: string -> seq<string>)
    ensures GetSentences([file], tokenize) == Dispatch(Converters, file, tokenize)
  {
    assert [file][..0] == [];
    assert GetSentences([file], tokenize) == [] + Dispatch(Converters, file, tokenize);
  }

  /** `get_parses(file_names)`: the wrapper's `parse_lines` over the sentences. */
  method GetParses(wrapper: AlpinoWrappers.Wrapper, files: seq<InputFile>, tokenize: string -> seq<string>) returns (r: AlpinoWrappers.Parsed)
    ensures wrapper.Passthrough? ==> r == AlpinoWrappers.Passed(GetSentences(files, tokenize))
    ensures wrapper.Service? ==>
              r == AlpinoWrappers.Chunked(AlpinoWrappers.Chunks(wrapper.service.server, wrapper.service.prefixId, GetSentences(files, tokenize)))
  {
    r := AlpinoWrappers.ParseLines(wrapper, GetSentences(files, tokenize));
  }
}
