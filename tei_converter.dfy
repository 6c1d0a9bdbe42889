/**
 * The older TEI converter: the text of every lowest division of every
 * document is cut into sentences, and each sentence becomes a line for the
 * parser wrapper with the metadata of its division path and an id unique in
 * the document as far as the numbering goes. The TEI parser and the
 * tokenizer are inputs: a parsed file is its name and documents, and the
 * tokenizer a function from a division's text to its sentences.
 */
module TeiConverter {
  import Seqs
  import opened Wrappers
  import opened Text
  import opened Dicts
  import opened AlpinoBrackets
  import TeiReader
  import AlpinoWrappers
  import LegacyProbe
  import Models

  type Division = TeiReader.Division
  type Attribute = TeiReader.Attribute

  // Metadata of one element

  /**
   * `get_element_metadata(attributes)`: the first attribute with a key
   * creates its value, a later one appends `' | '` and its text.
   */
  function ElementMetadata(attributes: seq<Attribute>): Dict<string>
    decreases |attributes|
  {
    if attributes == [] then []
    else
      var m := ElementMetadata(attributes[..|attributes| - 1]);
      var a := attributes[|attributes| - 1];
      if Has(m, a.key) then Set(m, a.key, Get(m, a.key) + " | " + a.text) else Set(m, a.key, a.text)
  }

  /** Exactly the keys named by some attribute are present. */
  lemma {:induction false} ElementMetadataKeys(attributes: seq<Attribute>, key: string)
    ensures Has(ElementMetadata(attributes), key) <==> TeiReader.TextsFor(attributes, key) != []
    decreases |attributes|
  {
    if attributes != [] {
      ElementMetadataKeys(attributes[..|attributes| - 1], key);
    }
  }

  /** Each key holds its texts joined by `' | '` in attribute order. */
  lemma {:induction false} ElementMetadataValues(attributes: seq<Attribute>, key: string)
    requires Has(ElementMetadata(attributes), key)
    ensures Get(ElementMetadata(attributes), key) == Join(" | ", TeiReader.TextsFor(attributes, key))
    decreases |attributes|
  {
    var init := attributes[..|attributes| - 1];
    var a := attributes[|attributes| - 1];
    var m := ElementMetadata(init);
    ElementMetadataKeys(init, key);
    if a.key == key {
      if Has(m, key) {
        ElementMetadataValues(init, key);
        JoinAppend(" | ", TeiReader.TextsFor(init, key), a.text);
      } else {
        assert TeiReader.TextsFor(attributes, key) == [] + [a.text] == [a.text];
        assert Join(" | ", [a.text]) == a.text;
      }
    } else {
      assert TeiReader.TextsFor(attributes, key) == TeiReader.TextsFor(init, key) + [] == TeiReader.TextsFor(init, key);
      assert Has(m, key);
      ElementMetadataValues(init, key);
      var v := if Has(m, a.key) then Get(m, a.key) + " | " + a.text else a.text;
      assert ElementMetadata(attributes) == Set(m, a.key, v);
    }
  }

  /**
   * The same keys as the newer reader finds, each holding the text of the
   * reader's value, which the reader types `text`.
   */
  lemma ElementMetadataAsReader(attributes: seq<Attribute>, key: string)
    ensures Has(ElementMetadata(attributes), key) <==> Has(TeiReader.ElementMetadata(attributes), key)
    ensures Has(ElementMetadata(attributes), key) ==>
              TeiReader.ElementMetadata(attributes) != [] &&
              Get(TeiReader.ElementMetadata(attributes), key).value == Get(ElementMetadata(attributes), key) &&
              Get(TeiReader.ElementMetadata(attributes), key).kind == "text"
  {
    ElementMetadataKeys(attributes, key);
    TeiReader.ElementMetadataKeys(attributes, key);
    if Has(ElementMetadata(attributes), key) {
      ElementMetadataValues(attributes, key);
      TeiReader.ElementMetadataValues(attributes, key);
    }
  }

  /** The loop of `get_element_metadata`. */
  method GetElementMetadata(attributes: seq<Attribute>) returns (m: Dict<string>)
    ensures m == ElementMetadata(attributes)
  {
    m := [];
    for i := 0 to |attributes|
      invariant m == ElementMetadata(attributes[..i])
    {
      Seqs.PrefixNext(attributes, i);
      var a := attributes[i];
      if Has(m, a.key) {
        m := Set(m, a.key, Get(m, a.key) + " | " + a.text);
      } else {
        m := Set(m, a.key, a.text);
      }
    }
    assert attributes[..|attributes|] == attributes;
  }

  // Metadata of a division path

  /** `get_metadata(document, division_path)`: the document's metadata, overlaid by each division's from the root down. */
  function PathMetadata(document: TeiReader.TeiDocument, path: seq<Division>): Dict<string>
    decreases |path|
  {
    if path == [] then ElementMetadata(document.attributes)
    else Overlay(PathMetadata(document, path[..|path| - 1]), ElementMetadata(path[|path| - 1].attributes))
  }

  /** A key some division of the path has takes the value of the deepest such division. */
  lemma {:induction false} MetadataDeepest(document: TeiReader.TeiDocument, path: seq<Division>, key: string, j: nat)
    requires j < |path| && Has(ElementMetadata(path[j].attributes), key)
    requires forall i :: j < i < |path| ==> !Has(ElementMetadata(path[i].attributes), key)
    ensures Has(PathMetadata(document, path), key)
    ensures Get(PathMetadata(document, path), key) == Get(ElementMetadata(path[j].attributes), key)
    decreases |path|
  {
    var init := path[..|path| - 1];
    OverlayFacts(PathMetadata(document, init), ElementMetadata(path[|path| - 1].attributes));
    if j < |path| - 1 {
      MetadataDeepest(document, init, key, j);
    }
  }

  /** A key no division of the path has is the document's, or absent. */
  lemma {:induction false} MetadataFromDocument(document: TeiReader.TeiDocument, path: seq<Division>, key: string)
    requires forall i :: 0 <= i < |path| ==> !Has(ElementMetadata(path[i].attributes), key)
    ensures Has(PathMetadata(document, path), key) <==> Has(ElementMetadata(document.attributes), key)
    ensures Has(PathMetadata(document, path), key) ==>
              Get(PathMetadata(document, path), key) == Get(ElementMetadata(document.attributes), key)
    decreases |path|
  {
    if path != [] {
      var init := path[..|path| - 1];
      OverlayFacts(PathMetadata(document, init), ElementMetadata(path[|path| - 1].attributes));
      MetadataFromDocument(document, init, key);
    }
  }

  /** The loop of `get_metadata`. */
  method GetMetadata(document: TeiReader.TeiDocument, path: seq<Division>) returns (m: Dict<string>)
    ensures m == PathMetadata(document, path)
  {
    m := GetElementMetadata(document.attributes);
    for i := 0 to |path|
      invariant m == PathMetadata(document, path[..i])
    {
      Seqs.PrefixNext(path, i);
      var own := GetElementMetadata(path[i].attributes);
      m := Overlay(m, own);
    }
    assert path[..|path|] == path;
  }

  // Lowest divisions

  /**
   * `get_lowest_divisions(divisions, path)`: for each division in order, the
   * paths to the lowest divisions below it, or the path to the division
   * itself when it has none below it.
   */
  function LowestDivisions(divisions: seq<Division>, path: seq<Division>): seq<seq<Division>>
    decreases divisions
  {
    if divisions == [] then []
    else LowestUnder(divisions[0], path) + LowestDivisions(divisions[1..], path)
  }

  function LowestUnder(division: Division, path: seq<Division>): seq<seq<Division>>
    decreases division
  {
    var below := LowestDivisions(division.divisions, path + [division]);
    if below == [] then [path + [division]] else below
  }

  function Paths(leaves: seq<(seq<Division>, Models.Metadata)>): (r: seq<seq<Division>>)
    ensures |r| == |leaves| && forall i :: 0 <= i < |r| ==> r[i] == leaves[i].0
  {
    seq(|leaves|, i requires 0 <= i < |leaves| => leaves[i].0)
  }

  lemma PathsAppend(a: seq<(seq<Division>, Models.Metadata)>, b: seq<(seq<Division>, Models.Metadata)>)
    ensures Paths(a + b) == Paths(a) + Paths(b)
  {
  }

  /** The paths are those of the newer reader's walk, in the same order. */
  lemma {:induction false} LowestDivisionsAsReader(divisions: seq<Division>, path: seq<Division>)
    ensures LowestDivisions(divisions, path) == Paths(TeiReader.Lowest(divisions, path))
    decreases divisions
  {
    if divisions != [] {
      LowestUnderAsReader(divisions[0], path);
      LowestDivisionsAsReader(divisions[1..], path);
      PathsAppend(TeiReader.LowestUnder(divisions[0], path), TeiReader.Lowest(divisions[1..], path));
    }
  }

  lemma {:induction false} LowestUnderAsReader(division: Division, path: seq<Division>)
    ensures LowestUnder(division, path) == Paths(TeiReader.LowestUnder(division, path))
    decreases division
  {
    var below := TeiReader.Lowest(division.divisions, path + [division]);
    LowestDivisionsAsReader(division.divisions, path + [division]);
    if below != [] {
      var m := TeiReader.ElementMetadata(division.attributes);
      var theirs := TeiReader.LowestUnder(division, path);
      assert theirs == seq(|below|, i requires 0 <= i < |below| => (below[i].0, Overlay(m, below[i].1)));
      assert Paths(theirs) == Paths(below);
    }
  }

  /**
   * One path per division without children, each running from one of the
   * document's top divisions, child by child, down to that division.
   */
  lemma LowestDivisionsLeaves(divisions: seq<Division>)
    ensures |LowestDivisions(divisions, [])| == TeiReader.LeafCount(divisions)
    ensures forall p: seq<Division> :: p in LowestDivisions(divisions, []) ==>
              |p| > 0 && p[0] in divisions && TeiReader.Chain(p) && p[|p| - 1].divisions == []
  {
    LowestDivisionsAsReader(divisions, []);
    TeiReader.LowestLeaves(divisions, []);
    var leaves := TeiReader.Lowest(divisions, []);
    forall p: seq<Division> | p in LowestDivisions(divisions, [])
      ensures |p| > 0 && p[0] in divisions && TeiReader.Chain(p) && p[|p| - 1].divisions == []
    {
      var i :| 0 <= i < |leaves| && p == leaves[i].0;
      assert TeiReader.LeafPath(leaves[i], divisions, []);
      assert p[0..] == p;
    }
  }

  // Sentence ids

  /** The id a sentence is named after: its metadata's escaped id, else the file's full name. */
  function IdBase(fileName: string, metadata: Dict<string>): string {
    if Has(metadata, "id") then EscapeId(Get(metadata, "id")) else fileName
  }

  /** The `unique_ids` counters of one document. */
  class SentenceIds {
    var counts: map<string, nat>

    constructor ()
      ensures counts == map[]
    {
      counts := map[];
    }

    /** `determine_id(sentence, file_name, metadata, unique_ids)` */
    method DetermineId(fileName: string, metadata: Dict<string>) returns (id: string)
      modifies this
      ensures (id, counts) == TeiReader.NextId(IdBase(fileName, metadata), old(counts))
    {
      var base := if Has(metadata, "id") then EscapeId(Get(metadata, "id")) else fileName;
      if base in counts {
        counts := counts[base := counts[base] + 1];
        id := base + "_" + NatToString(counts[base]);
      } else {
        counts := counts[base := 0];
        id := base;
      }
    }
  }

  // Sentences of a document

  /** A sentence with the metadata of its division path. */
  datatype Item = Item(sentence: string, metadata: Dict<string>)

  /** The sentences of the last division of a path, each with the path's metadata. */
  function LeafItems(document: TeiReader.TeiDocument, path: seq<Division>, tokenize: string -> seq<string>): (r: seq<Item>)
    requires |path| > 0
    ensures var sentences := tokenize(path[|path| - 1].text);
            |r| == |sentences| && forall i :: 0 <= i < |r| ==> r[i] == Item(sentences[i], PathMetadata(document, path))
  {
    var sentences := tokenize(path[|path| - 1].text);
    seq(|sentences|, i requires 0 <= i < |sentences| => Item(sentences[i], PathMetadata(document, path)))
  }

  /** The sentences of the paths in turn. */
  function Items(document: TeiReader.TeiDocument, paths: seq<seq<Division>>, tokenize: string -> seq<string>): seq<Item>
    requires forall p :: p in paths ==> |p| > 0
    decreases |paths|
  {
    if paths == [] then []
    else Items(document, paths[..|paths| - 1], tokenize) + LeafItems(document, paths[|paths| - 1], tokenize)
  }

  function Bases(fileName: string, items: seq<Item>): (r: seq<string>)
    ensures |r| == |items| && forall i :: 0 <= i < |r| ==> r[i] == IdBase(fileName, items[i].metadata)
  {
    seq(|items|, i requires 0 <= i < |items| => IdBase(fileName, items[i].metadata))
  }

  /** The paths to the document's lowest divisions. */
  function Leaves(document: TeiReader.TeiDocument): (r: seq<seq<Division>>)
    ensures forall p :: p in r ==> |p| > 0
  {
    LowestDivisionsLeaves(document.divisions);
    LowestDivisions(document.divisions, [])
  }

  /** The lines of a run of sentences, each named by `determine_id` from the counters the earlier ones leave. */
  function NameItems(fileName: string, items: seq<Item>, counts: map<string, nat>): (seq<AlpinoWrappers.Line>, map<string, nat>)
    decreases |items|
  {
    if items == [] then ([], counts)
    else
      var (lines, c) := NameItems(fileName, items[..|items| - 1], counts);
      var item := items[|items| - 1];
      var (id, c') := TeiReader.NextId(IdBase(fileName, item.metadata), c);
      (lines + [AlpinoWrappers.Line(item.sentence, id, item.metadata)], c')
  }

  lemma NameItemsStep(fileName: string, items: seq<Item>, item: Item, lines: seq<AlpinoWrappers.Line>, counts: map<string, nat>)
    requires (lines, counts) == NameItems(fileName, items, map[])
    ensures var (id, c) := TeiReader.NextId(IdBase(fileName, item.metadata), counts);
            NameItems(fileName, items + [item], map[]) == (lines + [AlpinoWrappers.Line(item.sentence, id, item.metadata)], c)
  {
    assert (items + [item])[..|items|] == items;
  }

  /** The counters `NameItems` leaves are those `AssignIds` leaves for the sentences' bases. */
  lemma {:induction false} NameItemsCounts(fileName: string, items: seq<Item>)
    ensures NameItems(fileName, items, map[]).1 == TeiReader.AssignIds(Bases(fileName, items), map[]).1
    ensures |NameItems(fileName, items, map[]).0| == |items|
    decreases |items|
  {
    if items != [] {
      var init := items[..|items| - 1];
      NameItemsCounts(fileName, init);
      var bases := Bases(fileName, items);
      TeiReader.AssignIdsLast(bases, map[]);
      assert bases[..|bases| - 1] == Bases(fileName, init);
    }
  }

  /** The lines are the sentences with their metadata in order, named by the ids `AssignIds` gives their bases. */
  lemma {:induction false} NameItemsIds(fileName: string, items: seq<Item>)
    ensures var lines := NameItems(fileName, items, map[]).0;
            var ids := TeiReader.AssignIds(Bases(fileName, items), map[]).0;
            |lines| == |items| &&
            forall i :: 0 <= i < |items| ==> lines[i] == AlpinoWrappers.Line(items[i].sentence, ids[i], items[i].metadata)
    decreases |items|
  {
    NameItemsCounts(fileName, items);
    if items != [] {
      var init := items[..|items| - 1];
      var item := items[|items| - 1];
      NameItemsIds(fileName, init);
      NameItemsCounts(fileName, init);
      var bases := Bases(fileName, items);
      TeiReader.AssignIdsLast(bases, map[]);
      assert bases[..|bases| - 1] == Bases(fileName, init);
      var (lines, c) := NameItems(fileName, init, map[]);
      var id := TeiReader.NextId(IdBase(fileName, item.metadata), c).0;
      var line := AlpinoWrappers.Line(item.sentence, id, item.metadata);
      var idsInit := TeiReader.AssignIds(Bases(fileName, init), map[]).0;
      forall i | 0 <= i < |items|
        ensures NameItems(fileName, items, map[]).0[i] ==
                AlpinoWrappers.Line(items[i].sentence, TeiReader.AssignIds(bases, map[]).0[i], items[i].metadata)
      {
        Seqs.IndexAppend(lines, line, i);
        Seqs.IndexAppend(idsInit, id, i);
        if i < |init| {
          assert items[i] == init[i];
        }
      }
    }
  }

  /** What one document contributes: a line per sentence, named by the `determine_id` calls in turn. */
  function DocumentLines(fileName: string, document: TeiReader.TeiDocument, tokenize: string -> seq<string>): seq<AlpinoWrappers.Line> {
    NameItems(fileName, Items(document, Leaves(document), tokenize), map[]).0
  }

  /**
   * The i-th line of a document is the i-th sentence with its metadata, and
   * its id is its base numbered by the number of earlier sentences in the
   * document with the same base.
   */
  lemma DocumentIds(fileName: string, document: TeiReader.TeiDocument, tokenize: string -> seq<string>)
    ensures var items := Items(document, Leaves(document), tokenize);
            var bases := Bases(fileName, items);
            var lines := DocumentLines(fileName, document, tokenize);
            |lines| == |items| &&
            forall i :: 0 <= i < |lines| ==>
              lines[i].text == items[i].sentence && lines[i].metadata == items[i].metadata &&
              lines[i].id == TeiReader.Numbered(bases[i], TeiReader.Count(bases[..i], bases[i]))
  {
    var items := Items(document, Leaves(document), tokenize);
    NameItemsIds(fileName, items);
    TeiReader.AssignIdsNumbers(Bases(fileName, items));
  }

  /** The body of the sentence loop: the path's metadata and the next id from the counters. */
  method NameSentence(ids: SentenceIds, fileName: string, document: TeiReader.TeiDocument, path: seq<Division>, sentence: string)
    returns (line: AlpinoWrappers.Line)
    modifies ids
    ensures var metadata := PathMetadata(document, path);
            var (id, counts) := TeiReader.NextId(IdBase(fileName, metadata), old(ids.counts));
            line == AlpinoWrappers.Line(sentence, id, metadata) && ids.counts == counts
  {
    var metadata := GetMetadata(document, path);
    var id := ids.DetermineId(fileName, metadata);
    line := AlpinoWrappers.Line(sentence, id, metadata);
  }

  /** The sentences of one lowest division, with the counters carried on from the sentences before. */
  method LeafLines(ids: SentenceIds, fileName: string, document: TeiReader.TeiDocument, path: seq<Division>,
                   tokenize: string -> seq<string>, ghost itemsBefore: seq<Item>, ghost linesBefore: seq<AlpinoWrappers.Line>)
    returns (r: seq<AlpinoWrappers.Line>)
    requires |path| > 0
    requires (linesBefore, ids.counts) == NameItems(fileName, itemsBefore, map[])
    modifies ids
    ensures (linesBefore + r, ids.counts) == NameItems(fileName, itemsBefore + LeafItems(document, path, tokenize), map[])
  {
    ghost var items := LeafItems(document, path, tokenize);
    var sentences := tokenize(path[|path| - 1].text);
    r := [];
    assert itemsBefore + items[..0] == itemsBefore && linesBefore + r == linesBefore;
    for k := 0 to |sentences|
      invariant (linesBefore + r, ids.counts) == NameItems(fileName, itemsBefore + items[..k], map[])
    {
      ghost var counts := ids.counts;
      var line := NameSentence(ids, fileName, document, path, sentences[k]);
      NameItemsStep(fileName, itemsBefore + items[..k], items[k], linesBefore + r, counts);
      Seqs.AppendNext(itemsBefore, items, k);
      Seqs.AppendOne(linesBefore, r, line);
      r := r + [line];
    }
    assert items[..|sentences|] == items;
  }

  /** `get_sentences` for one document, with fresh counters. */
  method DocumentSentences(fileName: string, document: TeiReader.TeiDocument, tokenize: string -> seq<string>)
    returns (r: seq<AlpinoWrappers.Line>)
    ensures r == DocumentLines(fileName, document, tokenize)
  {
    var ids := new SentenceIds();
    var paths := Leaves(document);
    ghost var items: seq<Item> := [];
    r := [];
    for j := 0 to |paths|
      invariant items == Items(document, paths[..j], tokenize)
      invariant (r, ids.counts) == NameItems(fileName, items, map[])
    {
      Seqs.PrefixNext(paths, j);
      var more := LeafLines(ids, fileName, document, paths[j], tokenize, items, r);
      items := items + LeafItems(document, paths[j], tokenize);
      r := r + more;
    }
    assert paths[..|paths|] == paths;
  }

  /** A parsed TEI file: its name and documents. */
  datatype TeiFile = TeiFile(name: string, documents: seq<TeiReader.TeiDocument>)

  function DocumentsLines(fileName: string, documents: seq<TeiReader.TeiDocument>, tokenize: string -> seq<string>): seq<AlpinoWrappers.Line>
    decreases |documents|
  {
    if documents == [] then []
    else DocumentsLines(fileName, documents[..|documents| - 1], tokenize) + DocumentLines(fileName, documents[|documents| - 1], tokenize)
  }

  /** What `get_sentences` yields: file by file, document by document, the document's lines. */
  function FilesLines(files: seq<TeiFile>, tokenize: string -> seq<string>): seq<AlpinoWrappers.Line>
    decreases |files|
  {
    if files == [] then []
    else FilesLines(files[..|files| - 1], tokenize) + DocumentsLines(files[|files| - 1].name, files[|files| - 1].documents, tokenize)
  }

  /** The document loop of `get_sentences` for one file. */
  method FileSentences(file: TeiFile, tokenize: string -> seq<string>) returns (r: seq<AlpinoWrappers.Line>)
    ensures r == DocumentsLines(file.name, file.documents, tokenize)
  {
    var documents := file.documents;
    r := [];
    for j := 0 to |documents|
      invariant r == DocumentsLines(file.name, documents[..j], tokenize)
    {
      Seqs.PrefixNext(documents, j);
      var more := DocumentSentences(file.name, documents[j], tokenize);
      r := r + more;
    }
    assert documents[..|documents|] == documents;
  }

  /** `get_sentences(file_names)` */
  method GetSentences(files: seq<TeiFile>, tokenize: string -> seq<string>) returns (r: seq<AlpinoWrappers.Line>)
    ensures r == FilesLines(files, tokenize)
  {
    r := [];
    for i := 0 to |files|
      invariant r == FilesLines(files[..i], tokenize)
    {
      Seqs.PrefixNext(files, i);
      var more := FileSentences(files[i], tokenize);
      r := r + more;
    }
    assert files[..|files|] == files;
  }

  /** `get_parses(file_names)`: the wrapper's `parse_lines` over the sentences. */
  method GetParses(wrapper: AlpinoWrappers.Wrapper, files: seq<TeiFile>, tokenize: string -> seq<string>) returns (r: AlpinoWrappers.Parsed)
    ensures wrapper.Passthrough? ==> r == AlpinoWrappers.Passed(FilesLines(files, tokenize))
    ensures wrapper.Service? ==>
              r == AlpinoWrappers.Chunked(AlpinoWrappers.Chunks(wrapper.service.server, wrapper.service.prefixId, FilesLines(files, tokenize)))
  {
    var sentences := GetSentences(files, tokenize);
    r := AlpinoWrappers.ParseLines(wrapper, sentences);
  }

  /** `test_file(file_name)`: a `<TEI` tag in one of the first five lines, before the end of the file. */
  method TestFile(lines: seq<string>) returns (r: bool)
    ensures r <==> exists i :: 0 <= i < LegacyProbe.Lines && i < |lines| &&
                             Contains(lines[i], "<TEI") && LegacyProbe.NotEndedBy(lines, i)
  {
    r := LegacyProbe.TestLines(lines, "<TEI");
    LegacyProbe.ProbeFinds(lines, "<TEI", LegacyProbe.Lines);
  }
}
