/**
 * The older PaQu writer. It takes sentences that each carry their document's
 * metadata and their own, as plain string maps. A document block is written
 * whenever the document metadata differs from the previous sentence's. Every
 * sentence is written as `id|line` after the `##META` lines of its entries that
 * changed. The previous map is one dict object that is cleared and refilled in
 * place with the sentence's own metadata.
 */
module LegacyPaQuWriter {
  import Seqs
  import opened Wrappers
  import opened Text
  import opened Dicts

  /** One input of `parse_lines`: the line, its id, the document's metadata and the sentence's own. */
  datatype Sentence = Sentence(line: string, id: string, docMetadata: Dict<string>, metadata: Dict<string>)

  /** A dict object whose entries are changed in place. */
  class MutableDict {
    var entries: Dict<string>

    /** `{**d}`: a fresh copy. */
    constructor(d: Dict<string>)
      ensures entries == d
    {
      entries := d;
    }

    /** `d.clear()` */
    method Clear()
      modifies this
      ensures entries == []
    {
      entries := [];
    }

    /** `d.update(other)` */
    method Update(other: Dict<string>)
      modifies this
      ensures entries == Overlay(old(entries), other)
    {
      entries := Overlay(entries, other);
    }
  }

  /** Python's `==` on two dicts: the same keys with the same values, in whatever order. */
  predicate DictEqual(a: Dict<string>, b: Dict<string>) {
    |a| == |b| && forall i :: 0 <= i < |a| ==> Has(b, a[i].0) && Get(b, a[i].0) == a[i].1
  }

  /** `'##META text {key} = {value}'`: every entry is written with type `text`. */
  function MetaLine(key: string, value: string): string {
    "##META text " + key + " = " + value
  }

  predicate Changed(prev: Option<Dict<string>>, key: string, value: string) {
    prev.None? || !Has(prev.value, key) || Get(prev.value, key) != value
  }

  /** The lines `output_metadata_items` yields: the changed entries, in the map's order. */
  function Items(entries: seq<(string, string)>, prev: Option<Dict<string>>): (r: seq<string>)
    ensures |r| <= |entries|
  {
    if entries == [] then []
    else
      var (k, v) := entries[0];
      var rest := Items(entries[1..], prev);
      if Changed(prev, k, v) then [MetaLine(k, v)] + rest else rest
  }

  /** Every changed entry has its line, and every line is that of a changed entry. */
  lemma {:induction false} ItemsMembers(entries: seq<(string, string)>, prev: Option<Dict<string>>)
    ensures forall i :: 0 <= i < |entries| && Changed(prev, entries[i].0, entries[i].1) ==> MetaLine(entries[i].0, entries[i].1) in Items(entries, prev)
    ensures forall x :: x in Items(entries, prev) ==>
              exists i :: 0 <= i < |entries| && Changed(prev, entries[i].0, entries[i].1) && x == MetaLine(entries[i].0, entries[i].1)
  {
    if entries != [] {
      ItemsMembers(entries[1..], prev);
      assert forall i :: 1 <= i < |entries| ==> entries[i] == entries[1..][i - 1];
      var r := Items(entries, prev);
      forall x | x in r
        ensures exists i :: 0 <= i < |entries| && Changed(prev, entries[i].0, entries[i].1) && x == MetaLine(entries[i].0, entries[i].1)
      {
        if x !in Items(entries[1..], prev) {
          assert x == MetaLine(entries[0].0, entries[0].1) && Changed(prev, entries[0].0, entries[0].1);
        } else {
          var j :| 0 <= j < |entries[1..]| && Changed(prev, entries[1..][j].0, entries[1..][j].1) && x == MetaLine(entries[1..][j].0, entries[1..][j].1);
          assert entries[j + 1] == entries[1..][j];
        }
      }
    }
  }

  /** With no previous map every entry is written, in order. */
  lemma {:induction false} ItemsWithoutPrevious(entries: seq<(string, string)>)
    ensures Items(entries, None) == seq(|entries|, i requires 0 <= i < |entries| => MetaLine(entries[i].0, entries[i].1))
  {
    if entries != [] {
      ItemsWithoutPrevious(entries[1..]);
    }
  }

  /** Entries that the previous map already has with the same values produce no line. */
  lemma {:induction false} ItemsUnchanged(entries: seq<(string, string)>, prev: Dict<string>)
    requires forall i :: 0 <= i < |entries| ==> Has(prev, entries[i].0) && Get(prev, entries[i].0) == entries[i].1
    ensures Items(entries, Some(prev)) == []
  {
    if entries != [] {
      ItemsUnchanged(entries[1..], prev);
    }
  }

  lemma ItemsStep(entries: seq<(string, string)>, i: nat, prev: Option<Dict<string>>)
    requires i < |entries|
    ensures Items(entries[i..], prev) ==
              (if Changed(prev, entries[i].0, entries[i].1) then [MetaLine(entries[i].0, entries[i].1)] else []) + Items(entries[i + 1..], prev)
  {
    assert entries[i..][1..] == entries[i + 1..];
  }

  /** A dict equals itself. */
  lemma DictEqualReflexive(d: Dict<string>)
    ensures DictEqual(d, d)
  {
    forall i | 0 <= i < |d| ensures Has(d, d[i].0) && Get(d, d[i].0) == d[i].1 {
      assert Keys(d)[i] == d[i].0;
    }
  }

  /**
   * `output_metadata_items(metadata, prev_metadata)`, run to the end: the lines
   * of the changed entries, after which the previous map, if given, holds
   * exactly the metadata.
   */
  method OutputMetadataItems(metadata: Dict<string>, prev: MutableDict?) returns (items: seq<string>)
    modifies prev
    ensures items == Items(metadata, if prev == null then None else Some(old(prev.entries)))
    ensures prev != null ==> prev.entries == metadata
  {
    ghost var previous := if prev == null then None else Some(prev.entries);
    items := [];
    var i := 0;
    while i < |metadata|
      invariant 0 <= i <= |metadata|
      invariant prev != null ==> prev.entries == previous.value
      invariant items + Items(metadata[i..], previous) == Items(metadata, previous)
    {
      var (key, value) := metadata[i];
      ItemsStep(metadata, i, previous);
      if prev == null || !Has(prev.entries, key) || Get(prev.entries, key) != value {
        Seqs.Regroup(items, [MetaLine(key, value)], Items(metadata[i + 1..], previous));
        items := items + [MetaLine(key, value)];
      }
      i := i + 1;
    }
    if prev != null {
      prev.Clear();
      prev.Update(metadata);
      OverlayEmpty(metadata);
    }
  }

  /** The lines of a metadata map after the given previous map, joined, with a final line break; `''` for an empty map. */
  function Display(metadata: Dict<string>, prev: Option<Dict<string>>): string {
    if metadata == [] then "" else Join("\n", Items(metadata, prev)) + "\n"
  }

  /** The state `parse_lines` carries from one sentence to the next. */
  datatype State = State(prevDoc: Option<Dict<string>>, prev: Dict<string>)

  /** The document block is written for the first sentence and whenever the document metadata differs from the previous one. */
  predicate NewDocument(st: State, s: Sentence) {
    st.prevDoc.None? || !DictEqual(st.prevDoc.value, s.docMetadata)
  }

  /** The state in which a sentence's own line is written. */
  function Entered(st: State, s: Sentence): State {
    if NewDocument(st, s) then State(Some(s.docMetadata), s.docMetadata) else st
  }

  /** The state after a sentence: the previous map is replaced by the sentence's metadata unless that is empty. */
  function Leave(st: State, s: Sentence): State {
    if s.metadata == [] then st else State(st.prevDoc, s.metadata)
  }

  /** What one sentence yields: the document block if it is due, then its own line. */
  function SentenceOutput(st: State, s: Sentence): seq<string> {
    (if NewDocument(st, s) then [Display(s.docMetadata, None)] else [])
      + [Display(s.metadata, Some(Entered(st, s).prev)) + s.id + "|" + s.line + "\n"]
  }

  /** Everything `parse_lines` yields for the given sentences from a state on. */
  function Emit(sentences: seq<Sentence>, st: State): seq<string> {
    if sentences == [] then []
    else SentenceOutput(st, sentences[0]) + Emit(sentences[1..], Leave(Entered(st, sentences[0]), sentences[0]))
  }

  /** The state `parse_lines` starts from: no document yet and an empty previous map. */
  const Start := State(None, [])

  lemma EmitStep(sentences: seq<Sentence>, i: nat, st: State)
    requires i < |sentences|
    ensures Emit(sentences[i..], st)
         == SentenceOutput(st, sentences[i]) + Emit(sentences[i + 1..], Leave(Entered(st, sentences[i]), sentences[i]))
  {
    assert sentences[i..][1..] == sentences[i + 1..];
  }

  lemma EmitAdvance(sentences: seq<Sentence>, i: nat, st: State, out: seq<string>, chunk: seq<string>, next: State, total: seq<string>)
    requires i < |sentences| && out + Emit(sentences[i..], st) == total
    requires chunk == SentenceOutput(st, sentences[i]) && next == Leave(Entered(st, sentences[i]), sentences[i])
    ensures (out + chunk) + Emit(sentences[i + 1..], next) == total
  {
    EmitStep(sentences, i, st);
    Seqs.Regroup(out, chunk, Emit(sentences[i + 1..], next));
  }

  /** One sentence of the loop of `parse_lines`, with the previous map held in one dict object. */
  method OutputSentence(s: Sentence, prevDoc: Option<Dict<string>>, prev: MutableDict) returns (out: seq<string>, prevDoc': Option<Dict<string>>, prev': MutableDict)
    modifies prev
    ensures var st := State(prevDoc, old(prev.entries));
            && out == SentenceOutput(st, s)
            && Leave(Entered(st, s), s) == State(prevDoc', prev'.entries)
    ensures prev' == prev || fresh(prev')
  {
    ghost var st := State(prevDoc, prev.entries);
    out := [];
    prevDoc', prev' := prevDoc, prev;
    if prevDoc.None? || !DictEqual(prevDoc.value, s.docMetadata) {
      var block := [];
      if s.docMetadata != [] {
        var items := OutputMetadataItems(s.docMetadata, null);
        block := [Join("\n", items) + "\n"];
      } else {
        block := [""];
      }
      out := block;
      prevDoc' := Some(s.docMetadata);
      prev' := new MutableDict(s.docMetadata);
    }
    assert State(prevDoc', prev'.entries) == Entered(st, s);
    var display := "";
    if s.metadata != [] {
      var items := OutputMetadataItems(s.metadata, prev');
      display := Join("\n", items) + "\n";
    }
    out := out + [display + s.id + "|" + s.line + "\n"];
  }

  /** `PaQuWriter.parse_lines`, everything it yields collected in order. */
  method ParseLines(sentences: seq<Sentence>) returns (out: seq<string>)
    ensures out == Emit(sentences, Start)
  {
    var prevDoc: Option<Dict<string>> := None;
    var prev := new MutableDict([]);
    out := [];
    var i := 0;
    while i < |sentences|
      invariant 0 <= i <= |sentences|
      invariant fresh(prev)
      invariant out + Emit(sentences[i..], State(prevDoc, prev.entries)) == Emit(sentences, Start)
    {
      ghost var st := State(prevDoc, prev.entries);
      var chunk;
      chunk, prevDoc, prev := OutputSentence(sentences[i], prevDoc, prev);
      EmitAdvance(sentences, i, st, out, chunk, State(prevDoc, prev.entries), Emit(sentences, Start));
      out := out + chunk;
      i := i + 1;
    }
    assert Emit(sentences[i..], State(prevDoc, prev.entries)) == [];
  }

  /** The number of document blocks written for the given sentences from a state on. */
  function Blocks(sentences: seq<Sentence>, st: State): nat {
    if sentences == [] then 0
    else (if NewDocument(st, sentences[0]) then 1 else 0) + Blocks(sentences[1..], Leave(Entered(st, sentences[0]), sentences[0]))
  }

  /** One line per sentence plus one block per document change. */
  lemma {:induction false} EmitLength(sentences: seq<Sentence>, st: State)
    ensures |Emit(sentences, st)| == |sentences| + Blocks(sentences, st)
  {
    if sentences != [] {
      EmitLength(sentences[1..], Leave(Entered(st, sentences[0]), sentences[0]));
    }
  }

  /** Sentences that all belong to the document already written get no new block. */
  lemma {:induction false} SameDocumentNoBlock(sentences: seq<Sentence>, st: State, doc: Dict<string>)
    requires st.prevDoc == Some(doc)
    requires forall i :: 0 <= i < |sentences| ==> sentences[i].docMetadata == doc
    ensures Blocks(sentences, st) == 0
  {
    if sentences != [] {
      DictEqualReflexive(doc);
      SameDocumentNoBlock(sentences[1..], Leave(Entered(st, sentences[0]), sentences[0]), doc);
    }
  }

  /** Sentences of one document: the document block first, then one line per sentence. */
  lemma OneDocument(sentences: seq<Sentence>, doc: Dict<string>)
    requires sentences != []
    requires forall i :: 0 <= i < |sentences| ==> sentences[i].docMetadata == doc
    ensures Emit(sentences, Start)[0] == Display(doc, None)
    ensures |Emit(sentences, Start)| == |sentences| + 1
  {
    EmitLength(sentences, Start);
    var s := sentences[0];
    SameDocumentNoBlock(sentences[1..], Leave(Entered(Start, s), s), doc);
  }

  /**
   * A sentence repeating the previous sentence's non-empty metadata, in the
   * same document, writes no `##META` line: only a line break before its own line.
   */
  lemma RepeatedMetadataSilent(st: State, s: Sentence)
    requires st.prevDoc.Some? && DictEqual(st.prevDoc.value, s.docMetadata)
    requires s.metadata != [] && st.prev == s.metadata
    ensures SentenceOutput(st, s) == ["\n" + s.id + "|" + s.line + "\n"]
    ensures Leave(Entered(st, s), s) == st
  {
    DictEqualReflexive(s.metadata);
    ItemsUnchanged(s.metadata, s.metadata);
    assert !NewDocument(st, s) && Entered(st, s) == st;
    assert Items(s.metadata, Some(st.prev)) == [];
    assert Display(s.metadata, Some(st.prev)) == "\n";
  }
}
