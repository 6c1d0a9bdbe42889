/**
 * The PaQu plain-text writer. The document metadata comes first, one
 * `##META type key = value` line per key in key order and a blank line after
 * them. Every utterance follows as `id|text` plus a blank line, preceded by the
 * metadata lines that changed since the previous utterance. A key that an
 * utterance no longer has is written out with an empty value, so that a reader
 * carrying metadata from line to line sees it disappear.
 */
module PaQuWriter {
  import Seqs
  import opened Wrappers
  import opened Text
  import opened Dicts
  import opened StringOrder
  import opened Models

  const FileSuffix := ".txt"

  /** `'##META {type} {key} = {value}'` */
  function MetaLine(key: string, item: MetadataValue): string {
    "##META " + item.kind + " " + key + " = " + item.value
  }

  /** An entry is written when there is no previous map, the key is new, or its value string differs; the type is not compared. */
  predicate Changed(prev: Option<Metadata>, key: string, item: MetadataValue) {
    prev.None? || !Has(prev.value, key) || Get(prev.value, key).value != item.value
  }

  /** The keys of `keys`, in order, whose entries changed. */
  function ChangedAmong(metadata: Metadata, keys: seq<string>, prev: Option<Metadata>): (r: seq<string>)
    requires forall k :: k in keys ==> Has(metadata, k)
    ensures forall k :: k in r <==> k in keys && Changed(prev, k, Get(metadata, k))
    ensures StrictlySorted(keys) ==> StrictlySorted(r)
  {
    if keys == [] then []
    else
      var rest := ChangedAmong(metadata, keys[1..], prev);
      if Changed(prev, keys[0], Get(metadata, keys[0])) then
        assert StrictlySorted(keys) ==> forall j :: 0 <= j < |rest| ==> Less(keys[0], rest[j]) by {
          if StrictlySorted(keys) {
            forall j | 0 <= j < |rest| ensures Less(keys[0], rest[j]) {
              assert rest[j] in rest;
              assert rest[j] in keys[1..];
              var m :| 0 <= m < |keys| - 1 && keys[1..][m] == rest[j];
              assert keys[m + 1] == rest[j];
            }
          }
        }
        [keys[0]] + rest
      else rest
  }

  /** The keys `output_metadata_items` writes: those that changed, in sorted order. */
  function ChangedKeys(metadata: Metadata, prev: Option<Metadata>): (r: seq<string>)
    ensures StrictlySorted(r)
    ensures forall k :: k in r <==> Has(metadata, k) && Changed(prev, k, Get(metadata, k))
  {
    ChangedAmong(metadata, SortedSet(Keys(metadata)), prev)
  }

  /** `output_metadata_items(metadata, prev_metadata)` */
  function MetadataItems(metadata: Metadata, prev: Option<Metadata>): (r: seq<string>)
    ensures |r| == |ChangedKeys(metadata, prev)|
    ensures forall i :: 0 <= i < |r| ==> r[i] == MetaLine(ChangedKeys(metadata, prev)[i], Get(metadata, ChangedKeys(metadata, prev)[i]))
  {
    var ks := ChangedKeys(metadata, prev);
    seq(|ks|, i requires 0 <= i < |ks| => MetaLine(ks[i], Get(metadata, ks[i])))
  }

  /** Without a previous map every key is written, in sorted order. */
  lemma AllItemsWithoutPrevious(metadata: Metadata)
    ensures ChangedKeys(metadata, None) == SortedSet(Keys(metadata))
  {
    SortedUnique(ChangedKeys(metadata, None), SortedSet(Keys(metadata)));
  }

  /** The reset entries: every previously written key the utterance lacks, with an empty value, in the previous map's order. */
  function ResetFor(keys: seq<string>, utterance: Metadata): (r: Metadata)
    ensures forall k :: Has(r, k) <==> k in keys && !Has(utterance, k)
    ensures forall k :: Has(r, k) ==> Get(r, k) == TextValue("")
  {
    if keys == [] then []
    else
      var r := ResetFor(keys[..|keys| - 1], utterance);
      var k := keys[|keys| - 1];
      assert forall x :: x in keys <==> x in keys[..|keys| - 1] || x == k;
      if Has(utterance, k) then r else Set(r, k, TextValue(""))
  }

  /** The reset loop of `output_utterances`. */
  method Resets(prev: Metadata, utterance: Metadata) returns (metadata: Metadata)
    ensures metadata == ResetFor(Keys(prev), utterance)
  {
    metadata := [];
    var i := 0;
    while i < |prev|
      invariant 0 <= i <= |prev|
      invariant metadata == ResetFor(Keys(prev)[..i], utterance)
    {
      var key := prev[i].0;
      assert Keys(prev)[..i + 1][..i] == Keys(prev)[..i];
      if !Has(utterance, key) {
        metadata := Set(metadata, key, TextValue(""));
      }
      i := i + 1;
    }
    assert Keys(prev)[..|prev|] == Keys(prev);
  }

  /** The metadata in force for an utterance: resets, overlaid by the document's, then the utterance's own. */
  function Effective(prev: Metadata, doc: Metadata, utterance: Metadata): Metadata {
    Overlay(Overlay(ResetFor(Keys(prev), utterance), doc), utterance)
  }

  /** The text written for one utterance. */
  function Chunk(prev: Metadata, doc: Metadata, u: Utterance): string {
    var metadata := Effective(prev, doc, u.metadata);
    var display := if metadata == [] then "" else Join("\n", MetadataItems(metadata, Some(prev))) + "\n";
    display + u.id + "|" + u.text + "\n\n"
  }

  /** The previous map after one more utterance. */
  function NextPrev(prev: Metadata, doc: Metadata, u: Utterance): Metadata {
    Overlay(prev, Effective(prev, doc, u.metadata))
  }

  /** `output_utterances` from a given previous map on. */
  function Chunks(utterances: seq<Utterance>, doc: Metadata, prev: Metadata): (r: seq<string>)
    ensures |r| == |utterances|
  {
    if utterances == [] then []
    else [Chunk(prev, doc, utterances[0])] + Chunks(utterances[1..], doc, NextPrev(prev, doc, utterances[0]))
  }

  /** The previous map after the given utterances. */
  function PrevAfter(utterances: seq<Utterance>, doc: Metadata, prev: Metadata): Metadata {
    if utterances == [] then prev else PrevAfter(utterances[1..], doc, NextPrev(prev, doc, utterances[0]))
  }

  /**
   * The metadata in force for an utterance has every key seen before, every key
   * of the document and every key of the utterance. The utterance's value wins,
   * then the document's; a key only seen before gets an empty value.
   */
  lemma EffectiveEntries(prev: Metadata, doc: Metadata, utterance: Metadata, k: string)
    ensures var e := Effective(prev, doc, utterance);
            && (Has(e, k) <==> Has(prev, k) || Has(doc, k) || Has(utterance, k))
            && (Has(utterance, k) ==> Get(e, k) == Get(utterance, k))
            && (!Has(utterance, k) && Has(doc, k) ==> Get(e, k) == Get(doc, k))
            && (!Has(utterance, k) && !Has(doc, k) && Has(prev, k) ==> Get(e, k) == TextValue(""))
  {
    var resets := ResetFor(Keys(prev), utterance);
    OverlayFacts(resets, doc);
    OverlayFacts(Overlay(resets, doc), utterance);
  }

  /** Keys are never removed from the previous map. */
  lemma {:induction false} PrevKeysKept(utterances: seq<Utterance>, doc: Metadata, prev: Metadata, k: string)
    requires Has(prev, k)
    ensures Has(PrevAfter(utterances, doc, prev), k)
  {
    if utterances != [] {
      OverlayFacts(prev, Effective(prev, doc, utterances[0].metadata));
      PrevKeysKept(utterances[1..], doc, NextPrev(prev, doc, utterances[0]), k);
    }
  }

  /**
   * A key written before that the document does not have and two utterances in
   * a row lack: the first writes it with an empty value (unless it was already
   * empty), the second does not write it again.
   */
  lemma AbsentKeyOnce(prev: Metadata, doc: Metadata, first: Utterance, second: Utterance, k: string)
    requires Has(prev, k) && !Has(doc, k) && !Has(first.metadata, k) && !Has(second.metadata, k)
    ensures var e := Effective(prev, doc, first.metadata);
            Has(e, k) && Get(e, k) == TextValue("") &&
            (k in ChangedKeys(e, Some(prev)) <==> Get(prev, k).value != "")
    ensures var next := NextPrev(prev, doc, first);
            k !in ChangedKeys(Effective(next, doc, second.metadata), Some(next))
  {
    var e := Effective(prev, doc, first.metadata);
    EffectiveEntries(prev, doc, first.metadata, k);
    var next := NextPrev(prev, doc, first);
    OverlayFacts(prev, e);
    EffectiveEntries(next, doc, second.metadata, k);
  }

  /** Every entry of `a` is in `b` with the same value. */
  ghost predicate SubMap(a: Metadata, b: Metadata) {
    forall k :: Has(a, k) ==> Has(b, k) && Get(a, k) == Get(b, k)
  }

  /** `a` and `b` have the same keys with the same values, in whatever order. */
  ghost predicate SameEntries(a: Metadata, b: Metadata) {
    SubMap(a, b) && SubMap(b, a)
  }

  lemma SameEntriesEmpty(a: Metadata, b: Metadata)
    requires SameEntries(a, b)
    ensures a == [] <==> b == []
  {
    if a != [] { assert Has(a, a[0].0); }
    if b != [] { assert Has(b, b[0].0); }
  }

  /** An utterance that only repeats document entries, after a previous map equal to the document's, is in force with exactly the document's entries. */
  lemma EffectiveSame(prev: Metadata, doc: Metadata, utterance: Metadata)
    requires SameEntries(prev, doc) && SubMap(utterance, doc)
    ensures SameEntries(Effective(prev, doc, utterance), doc)
  {
    var e := Effective(prev, doc, utterance);
    forall k ensures (Has(e, k) ==> Has(doc, k) && Get(e, k) == Get(doc, k)) && (Has(doc, k) ==> Has(e, k)) {
      EffectiveEntries(prev, doc, utterance, k);
    }
  }

  lemma {:induction false} NoneChangedAmong(metadata: Metadata, keys: seq<string>, prev: Option<Metadata>)
    requires forall k :: k in keys ==> Has(metadata, k) && !Changed(prev, k, Get(metadata, k))
    ensures ChangedAmong(metadata, keys, prev) == []
  {
    if keys != [] {
      assert keys[0] in keys;
      NoneChangedAmong(metadata, keys[1..], prev);
    }
  }

  /** Metadata with the same entries as the previous map has nothing to write. */
  lemma NothingChanged(metadata: Metadata, prev: Metadata)
    requires SameEntries(metadata, prev)
    ensures ChangedKeys(metadata, Some(prev)) == []
  {
    NoneChangedAmong(metadata, SortedSet(Keys(metadata)), Some(prev));
  }

  /** With the previous map equal to the document's and an utterance that only repeats document entries, nothing changes. */
  lemma SubMapStep(prev: Metadata, doc: Metadata, u: Utterance)
    requires SameEntries(prev, doc) && SubMap(u.metadata, doc)
    ensures SameEntries(Effective(prev, doc, u.metadata), doc)
    ensures ChangedKeys(Effective(prev, doc, u.metadata), Some(prev)) == []
    ensures SameEntries(NextPrev(prev, doc, u), doc)
  {
    var e := Effective(prev, doc, u.metadata);
    EffectiveSame(prev, doc, u.metadata);
    NothingChanged(e, prev);
    OverlayFacts(prev, e);
  }

  /** The text written for an utterance without `##META` lines. */
  function Bare(doc: Metadata, u: Utterance): string {
    (if doc == [] then "" else "\n") + u.id + "|" + u.text + "\n\n"
  }

  lemma SilentChunk(prev: Metadata, doc: Metadata, u: Utterance)
    requires SameEntries(prev, doc) && SubMap(u.metadata, doc)
    ensures Chunk(prev, doc, u) == Bare(doc, u)
    ensures SameEntries(NextPrev(prev, doc, u), doc)
  {
    var e := Effective(prev, doc, u.metadata);
    SubMapStep(prev, doc, u);
    SameEntriesEmpty(e, doc);
    var items := MetadataItems(e, Some(prev));
    assert items == [];
    assert Join("\n", items) == "";
    var display := if e == [] then "" else Join("\n", items) + "\n";
    assert display == (if doc == [] then "" else "\n");
  }

  /**
   * When every utterance's metadata only repeats entries of the document, no
   * utterance gets a `##META` line: its text is `id|text` and a blank line,
   * after one empty line when the document has metadata.
   */
  lemma {:induction false} SubMapSilent(utterances: seq<Utterance>, doc: Metadata, prev: Metadata)
    requires SameEntries(prev, doc)
    requires forall i :: 0 <= i < |utterances| ==> SubMap(utterances[i].metadata, doc)
    ensures forall i :: 0 <= i < |utterances| ==> Chunks(utterances, doc, prev)[i] == Bare(doc, utterances[i])
  {
    if utterances != [] {
      var u := utterances[0];
      var next := NextPrev(prev, doc, u);
      SilentChunk(prev, doc, u);
      var tail := utterances[1..];
      assert forall i :: 0 <= i < |tail| ==> tail[i] == utterances[i + 1];
      SubMapSilent(tail, doc, next);
      var r := Chunks(utterances, doc, prev);
      var rest := Chunks(tail, doc, next);
      assert r == [Chunk(prev, doc, u)] + rest;
      forall i | 1 <= i < |utterances| ensures r[i] == Bare(doc, utterances[i]) {
        assert r[i] == rest[i - 1];
      }
    }
  }

  /** One turn of the loop of `output_utterances`: the text for the utterance and the new previous map. */
  method OutputUtterance(prev: Metadata, doc: Metadata, u: Utterance) returns (line: string, next: Metadata)
    ensures line == Chunk(prev, doc, u) && next == NextPrev(prev, doc, u)
  {
    var resets := Resets(prev, u.metadata);
    var metadata := Overlay(Overlay(resets, doc), u.metadata);
    var display := if metadata == [] then "" else Join("\n", MetadataItems(metadata, Some(prev))) + "\n";
    line := display + u.id + "|" + u.text + "\n\n";
    next := Overlay(prev, metadata);
  }

  lemma ChunksStep(utterances: seq<Utterance>, i: nat, doc: Metadata, prev: Metadata)
    requires i < |utterances|
    ensures Chunks(utterances[i..], doc, prev)
         == [Chunk(prev, doc, utterances[i])] + Chunks(utterances[i + 1..], doc, NextPrev(prev, doc, utterances[i]))
  {
    assert utterances[i..][1..] == utterances[i + 1..];
  }

  /** `output_utterances(utterances, doc_metadata)` */
  method OutputUtterances(utterances: seq<Utterance>, doc: Metadata) returns (lines: seq<string>)
    ensures lines == Chunks(utterances, doc, doc)
  {
    var prev := Overlay([], doc);
    OverlayEmpty(doc);
    lines := [];
    var i := 0;
    while i < |utterances|
      invariant 0 <= i <= |utterances|
      invariant lines + Chunks(utterances[i..], doc, prev) == Chunks(utterances, doc, doc)
    {
      var line;
      ChunksStep(utterances, i, doc, prev);
      line, prev := OutputUtterance(prev, doc, utterances[i]);
      ghost var rest := Chunks(utterances[i + 1..], doc, prev);
      Seqs.Regroup(lines, [line], rest);
      lines := lines + [line];
      i := i + 1;
    }
  }

  /** Writes of the given contents, each with the PaQu suffix and no filename. */
  function Tagged(contents: seq<string>): (r: seq<TargetWrite>)
    ensures |r| == |contents|
    ensures forall i :: 0 <= i < |r| ==> r[i] == TargetWrite(contents[i], None, Some(FileSuffix))
  {
    seq(|contents|, i requires 0 <= i < |contents| => TargetWrite(contents[i], None, Some(FileSuffix)))
  }

  /** The document's `##META` lines, each ended by a line break, and one blank line after them if there are any. */
  function Header(metadata: Metadata): (r: seq<string>)
    ensures var items := MetadataItems(metadata, None);
            && |r| == |items| + (if items == [] then 0 else 1)
            && (forall i :: 0 <= i < |items| ==> r[i] == items[i] + "\n")
            && (items != [] ==> r[|items|] == "\n")
  {
    var items := MetadataItems(metadata, None);
    seq(|items|, i requires 0 <= i < |items| => items[i] + "\n") + (if items != [] then ["\n"] else [])
  }

  /** The writes of `PaQuWriter.write` for a document. */
  function Writes(document: Document): seq<TargetWrite> {
    Tagged(Header(document.metadata) + Chunks(document.utterances, document.metadata, document.metadata))
  }

  lemma TaggedAppend(contents: seq<string>, x: string)
    ensures Tagged(contents + [x]) == Tagged(contents) + [TargetWrite(x, None, Some(FileSuffix))]
  {
  }

  lemma TaggedNext(contents: seq<string>, more: seq<string>, j: nat)
    requires j < |more|
    ensures Tagged(contents + more[..j + 1]) == Tagged(contents + more[..j]) + [TargetWrite(more[j], None, Some(FileSuffix))]
  {
    assert contents + more[..j + 1] == (contents + more[..j]) + [more[j]];
    TaggedAppend(contents + more[..j], more[j]);
  }

  /** `PaQuWriter.write`, its target writes collected in order. */
  method Write(document: Document) returns (writes: seq<TargetWrite>)
    ensures writes == Writes(document)
  {
    var hasMetadata := false;
    writes := [];
    ghost var contents: seq<string> := [];
    ghost var header := Header(document.metadata);
    var items := MetadataItems(document.metadata, None);
    var i := 0;
    while i < |items|
      invariant 0 <= i <= |items|
      invariant hasMetadata <==> i > 0
      invariant contents == header[..i]
      invariant writes == Tagged(contents)
    {
      TaggedAppend(contents, items[i] + "\n");
      writes := writes + [TargetWrite(items[i] + "\n", None, Some(FileSuffix))];
      Seqs.PrefixNext(header, i);
      contents := contents + [items[i] + "\n"];
      hasMetadata := true;
      i := i + 1;
    }
    if hasMetadata {
      TaggedAppend(contents, "\n");
      writes := writes + [TargetWrite("\n", None, Some(FileSuffix))];
      Seqs.PrefixNext(header, i);
      contents := contents + ["\n"];
      assert contents == header[..i + 1];
    }
    assert contents == header;
    var chunks := OutputUtterances(document.utterances, document.metadata);
    var j := 0;
    while j < |chunks|
      invariant 0 <= j <= |chunks|
      invariant writes == Tagged(contents + chunks[..j])
    {
      TaggedNext(contents, chunks, j);
      writes := writes + [TargetWrite(chunks[j], None, Some(FileSuffix))];
      j := j + 1;
    }
    assert chunks[..j] == chunks;
  }
}
