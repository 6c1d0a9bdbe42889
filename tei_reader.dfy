/**
 * The TEI reader: metadata from element attributes, merged up and down the
 * division and part trees, sentence ids made unique per document, and the
 * utterances assembled from the parts the sentence emitter aligns. The TEI
 * parser and the tokenizer are inputs: the document trees and a function
 * from a division's text to its sentences.
 */
module TeiReader {
  import Seqs
  import opened Wrappers
  import opened Text
  import opened Dicts
  import opened Models
  import StringOrder
  import AlpinoBrackets
  import TeiEmitter

  /** An attribute of a TEI element as the parser reports it. */
  datatype Attribute = Attribute(key: string, text: string)

  // Metadata of one element

  /** The texts of the attributes named `key`, in order. */
  function TextsFor(attributes: seq<Attribute>, key: string): seq<string>
    decreases |attributes|
  {
    if attributes == [] then []
    else
      var a := attributes[|attributes| - 1];
      TextsFor(attributes[..|attributes| - 1], key) + (if a.key == key then [a.text] else [])
  }

  /**
   * `get_element_metadata(attributes)`: the first attribute with a key
   * creates its value, a later one appends `' | '` and its text.
   */
  function ElementMetadata(attributes: seq<Attribute>): Metadata
    decreases |attributes|
  {
    if attributes == [] then []
    else
      var m := ElementMetadata(attributes[..|attributes| - 1]);
      var a := attributes[|attributes| - 1];
      if Has(m, a.key) then Set(m, a.key, Get(m, a.key).(value := Get(m, a.key).value + " | " + a.text))
      else Set(m, a.key, TextValue(a.text))
  }

  /** Exactly the keys named by some attribute are present. */
  lemma {:induction false} ElementMetadataKeys(attributes: seq<Attribute>, key: string)
    ensures Has(ElementMetadata(attributes), key) <==> TextsFor(attributes, key) != []
    decreases |attributes|
  {
    if attributes != [] {
      ElementMetadataKeys(attributes[..|attributes| - 1], key);
    }
  }

  /** Each key holds its texts joined by `' | '` in attribute order. */
  lemma {:induction false} ElementMetadataValues(attributes: seq<Attribute>, key: string)
    requires Has(ElementMetadata(attributes), key)
    ensures Get(ElementMetadata(attributes), key) == TextValue(Join(" | ", TextsFor(attributes, key)))
    decreases |attributes|
  {
    var init := attributes[..|attributes| - 1];
    var a := attributes[|attributes| - 1];
    var m := ElementMetadata(init);
    ElementMetadataKeys(init, key);
    if a.key == key {
      if Has(m, key) {
        ElementMetadataValues(init, key);
        JoinAppend(" | ", TextsFor(init, key), a.text);
      } else {
        assert TextsFor(attributes, key) == [] + [a.text] == [a.text];
        assert Join(" | ", [a.text]) == a.text;
      }
    } else {
      assert TextsFor(attributes, key) == TextsFor(init, key) + [] == TextsFor(init, key);
      assert Has(m, key);
      ElementMetadataValues(init, key);
      var v := if Has(m, a.key) then Get(m, a.key).(value := Get(m, a.key).value + " | " + a.text) else TextValue(a.text);
      assert ElementMetadata(attributes) == Set(m, a.key, v);
    }
  }

  /** The loop of `get_element_metadata`. */
  method GetElementMetadata(attributes: seq<Attribute>) returns (m: Metadata)
    ensures m == ElementMetadata(attributes)
  {
    m := [];
    for i := 0 to |attributes|
      invariant m == ElementMetadata(attributes[..i])
    {
      Seqs.PrefixNext(attributes, i);
      var a := attributes[i];
      if Has(m, a.key) {
        var v := Get(m, a.key);
        m := Set(m, a.key, v.(value := v.value + " | " + a.text));
      } else {
        m := Set(m, a.key, TextValue(a.text));
      }
    }
    assert attributes[..|attributes|] == attributes;
  }

  // Merging metadata

  /** Overlaying only keys that are already present moves no key. */
  lemma {:induction false} OverlayPresent<V>(a: Dict<V>, b: Dict<V>)
    requires forall x :: Has(b, x) ==> Has(a, x)
    ensures Keys(Overlay(a, b)) == Keys(a)
    decreases |b|
  {
    if b != [] {
      DictTail(b);
      var a' := Set(a, b[0].0, b[0].1);
      assert Has(b, b[0].0);
      assert Keys(a') == Keys(a);
      OverlayPresent(a', b[1..]);
    }
  }

  /** The sorted, de-duplicated union of two `' | '`-separated lists. */
  function MergedValue(prev: string, current: string): string {
    Join(" | ", StringOrder.SortedSet(Split(prev, " | ") + Split(current, " | ")))
  }

  /** The merged value does not depend on which side is which. */
  lemma MergedValueSymmetric(a: string, b: string)
    ensures MergedValue(a, b) == MergedValue(b, a)
  {
    StringOrder.SortedSetCommutes(Split(a, " | "), Split(b, " | "));
  }

  /** The keys `current` shares with `prev`, holding the merged values. */
  function Shared(prev: Metadata, current: Metadata): (r: Metadata)
    ensures forall k :: Has(r, k) <==> Has(prev, k) && Has(current, k)
    ensures forall k :: Has(r, k) ==> Get(r, k) == TextValue(MergedValue(Get(prev, k).value, Get(current, k).value))
    decreases |current|
  {
    if current == [] then []
    else
      DictTail(current);
      var (k, v) := current[0];
      var rest := Shared(prev, current[1..]);
      if Has(prev, k) then Set(rest, k, TextValue(MergedValue(Get(prev, k).value, v.value))) else rest
  }

  /** `merge_metadata_sibbling(prev, current)`: `{**prev, **current}`, with the shared keys merged. */
  function MergeSibling(prev: Metadata, current: Metadata): Metadata {
    Overlay(Overlay(prev, current), Shared(prev, current))
  }

  /**
   * The merge holds the keys of both sides in `{**prev, **current}` order; a
   * key on one side keeps that side's value, a key on both sides gets the
   * merged value.
   */
  lemma MergeSiblingFacts(prev: Metadata, current: Metadata, k: string)
    ensures Keys(MergeSibling(prev, current)) == Keys(Overlay(prev, current))
    ensures Has(MergeSibling(prev, current), k) <==> Has(prev, k) || Has(current, k)
    ensures Has(prev, k) && Has(current, k) ==>
              Get(MergeSibling(prev, current), k) == TextValue(MergedValue(Get(prev, k).value, Get(current, k).value))
    ensures Has(prev, k) && !Has(current, k) ==> Get(MergeSibling(prev, current), k) == Get(prev, k)
    ensures !Has(prev, k) && Has(current, k) ==> Get(MergeSibling(prev, current), k) == Get(current, k)
  {
    var o := Overlay(prev, current);
    OverlayFacts(prev, current);
    OverlayFacts(o, Shared(prev, current));
    OverlayPresent(o, Shared(prev, current));
  }

  /** The keys whose parent value wins. */
  predicate ParentWins(key: string) {
    key == "tei-tag" || key == "id"
  }

  /** The entries of `parent` whose value wins over the child's. */
  function Winning(parent: Metadata): (r: Metadata)
    ensures forall k :: Has(r, k) <==> Has(parent, k) && ParentWins(k)
    ensures forall k :: Has(r, k) ==> Get(r, k) == Get(parent, k)
    decreases |parent|
  {
    if parent == [] then []
    else
      DictTail(parent);
      var rest := Winning(parent[1..]);
      if ParentWins(parent[0].0) then Set(rest, parent[0].0, parent[0].1) else rest
  }

  /** `merge_metadata_child(child, parent)`: `{**parent, **child}`, with the parent's `tei-tag` and `id` put back. */
  function MergeChild(child: Metadata, parent: Metadata): Metadata {
    Overlay(Overlay(parent, child), Winning(parent))
  }

  /** The child's value wins, except for `tei-tag` and `id` when the parent has them. */
  lemma MergeChildFacts(child: Metadata, parent: Metadata, k: string)
    ensures Keys(MergeChild(child, parent)) == Keys(Overlay(parent, child))
    ensures Has(MergeChild(child, parent), k) <==> Has(parent, k) || Has(child, k)
    ensures Has(MergeChild(child, parent), k) ==>
              Get(MergeChild(child, parent), k) ==
                if Has(parent, k) && (ParentWins(k) || !Has(child, k)) then Get(parent, k) else Get(child, k)
  {
    var o := Overlay(parent, child);
    OverlayFacts(parent, child);
    OverlayFacts(o, Winning(parent));
    OverlayPresent(o, Winning(parent));
  }

  // Alpino bracket hints written into the text

  /**
   * `inline_metadata(text, metadata)`: double spaces collapsed once; a `q`
   * element becomes a quotation; a lemma with a `pos` (or else `type`) becomes
   * a FoLiA hint and both keys are removed from the part's metadata.
   */
  function InlineMetadata(text: string, m: Metadata): (r: (string, Metadata))
    ensures var hint := !(Has(m, "tei-tag") && Get(m, "tei-tag").value == "q") &&
                        Has(m, "lemma") && (Has(m, "pos") || Has(m, "type"));
            var posKey := if Has(m, "pos") then "pos" else "type";
            forall x :: Has(r.1, x) <==> Has(m, x) && !(hint && (x == "lemma" || x == posKey))
    ensures forall x :: Has(r.1, x) ==> Get(r.1, x) == Get(m, x)
  {
    var t := Replace(text, "  ", " ");
    if Has(m, "tei-tag") && Get(m, "tei-tag").value == "q" then (" \" " + Strip(t) + " \" ", m)
    else if Has(m, "lemma") && (Has(m, "pos") || Has(m, "type")) then
      var posKey := if Has(m, "pos") then "pos" else "type";
      var withoutLemma := Delete(m, "lemma");
      (AlpinoBrackets.FormatFolia(Get(m, "lemma").value, Get(m, posKey).value, Strip(t)) + " ", Delete(withoutLemma, posKey))
    else (t, m)
  }

  /** A part's lemma hint is written once: the metadata it leaves behind yields no second hint. */
  lemma InlineMetadataOnce(first: string, second: string, m: Metadata)
    requires !(Has(m, "tei-tag") && Get(m, "tei-tag").value == "q")
    requires Has(m, "lemma") && (Has(m, "pos") || Has(m, "type"))
    ensures var after := InlineMetadata(first, m).1;
            !Has(after, "lemma") && InlineMetadata(second, after) == (Replace(second, "  ", " "), after)
  {
  }

  /** Text without double spaces and without a quotation or lemma to mark comes through unchanged. */
  lemma InlineMetadataPlain(text: string, m: Metadata)
    requires !Contains(text, "  ")
    requires !Has(m, "tei-tag") || Get(m, "tei-tag").value != "q"
    requires !Has(m, "lemma")
    ensures InlineMetadata(text, m) == (text, m)
  {
    ReplaceAbsent(text, "  ", " ");
  }

  // Divisions

  datatype Division = Division(attributes: seq<Attribute>, divisions: seq<Division>, text: string, parts: seq<Part>)

  datatype Part = Part(attributes: seq<Attribute>, parts: seq<Part>, text: string)

  datatype TeiDocument = TeiDocument(attributes: seq<Attribute>, divisions: seq<Division>)

  /**
   * `get_lowest_divisions(divisions, path)`: for each division in order, the
   * lowest divisions below it with their metadata overlaid on its own, or
   * the division itself when it has none below it.
   */
  function Lowest(divisions: seq<Division>, path: seq<Division>): seq<(seq<Division>, Metadata)>
    decreases divisions
  {
    if divisions == [] then []
    else LowestUnder(divisions[0], path) + Lowest(divisions[1..], path)
  }

  function LowestUnder(division: Division, path: seq<Division>): seq<(seq<Division>, Metadata)>
    decreases division
  {
    var m := ElementMetadata(division.attributes);
    var below := Lowest(division.divisions, path + [division]);
    if below == [] then [(path + [division], m)]
    else seq(|below|, i requires 0 <= i < |below| => (below[i].0, Overlay(m, below[i].1)))
  }

  /** The metadata of a path: each division's own overlaid on its ancestors'. */
  function PathMetadata(divisions: seq<Division>): Metadata {
    if divisions == [] then [] else Overlay(ElementMetadata(divisions[0].attributes), PathMetadata(divisions[1..]))
  }

  /** Each division of a path is a child of the one before it. */
  predicate Chain(divisions: seq<Division>) {
    forall j :: 0 <= j < |divisions| - 1 ==> divisions[j + 1] in divisions[j].divisions
  }

  /** The number of divisions without children in or below `divisions`. */
  function LeafCount(divisions: seq<Division>): nat
    decreases divisions
  {
    if divisions == [] then 0
    else (if divisions[0].divisions == [] then 1 else LeafCount(divisions[0].divisions)) + LeafCount(divisions[1..])
  }

  /**
   * Every path yielded runs from one of `divisions`, child by child, down to
   * a division without children, after the given `path`; its metadata is
   * that of the path with descendants winning over ancestors. There is one
   * path per such division.
   */
  lemma {:induction false} LowestLeaves(divisions: seq<Division>, path: seq<Division>)
    ensures |Lowest(divisions, path)| == LeafCount(divisions)
    ensures forall e :: e in Lowest(divisions, path) ==> LeafPath(e, divisions, path)
    decreases divisions
  {
    if divisions != [] {
      LowestUnderLeaves(divisions[0], path);
      LowestLeaves(divisions[1..], path);
      forall e | e in Lowest(divisions, path)
        ensures LeafPath(e, divisions, path)
      {
        if e in LowestUnder(divisions[0], path) {
          assert LeafPath(e, [divisions[0]], path);
        } else {
          assert LeafPath(e, divisions[1..], path);
        }
      }
    }
  }

  /** `e` is a path below `path` starting at one of `divisions` and ending at a division without children. */
  predicate LeafPath(e: (seq<Division>, Metadata), divisions: seq<Division>, path: seq<Division>) {
    |e.0| > |path| && e.0[..|path|] == path && e.0[|path|] in divisions && Chain(e.0[|path|..]) &&
    e.0[|e.0| - 1].divisions == [] && e.1 == PathMetadata(e.0[|path|..])
  }

  lemma {:induction false} LowestUnderLeaves(division: Division, path: seq<Division>)
    ensures |LowestUnder(division, path)| == LeafCount([division])
    ensures forall e :: e in LowestUnder(division, path) ==> LeafPath(e, [division], path)
    decreases division
  {
    var below := Lowest(division.divisions, path + [division]);
    var m := ElementMetadata(division.attributes);
    assert [division][1..] == [];
    if division.divisions == [] {
      assert below == [];
      LeafPathSelf(division, path);
    } else {
      LowestLeaves(division.divisions, path + [division]);
      forall e | e in LowestUnder(division, path)
        ensures LeafPath(e, [division], path)
      {
        var i :| 0 <= i < |below| && e == (below[i].0, Overlay(m, below[i].1));
        LeafPathExtend(division, path, below[i]);
      }
    }
  }

  lemma LeafPathSelf(division: Division, path: seq<Division>)
    requires division.divisions == []
    ensures LeafPath((path + [division], ElementMetadata(division.attributes)), [division], path)
  {
    assert (path + [division])[|path|..] == [division];
  }

  /** A path below a child, seen from the parent, with the parent's metadata underneath. */
  lemma LeafPathExtend(division: Division, path: seq<Division>, e: (seq<Division>, Metadata))
    requires LeafPath(e, division.divisions, path + [division])
    ensures LeafPath((e.0, Overlay(ElementMetadata(division.attributes), e.1)), [division], path)
  {
    var p, n := e.0, |path|;
    Seqs.PrefixShape(p, path, division);
    ChainCons(division, p[n + 1..]);
    assert PathMetadata([division] + p[n + 1..]) == Overlay(ElementMetadata(division.attributes), PathMetadata(p[n + 1..]));
  }

  /** A chain that starts at a child of `division` is still a chain with `division` in front. */
  lemma ChainCons(division: Division, below: seq<Division>)
    requires Chain(below) && below != [] && below[0] in division.divisions
    ensures Chain([division] + below)
  {
    var tail := [division] + below;
    forall j | 0 <= j < |tail| - 1
      ensures tail[j + 1] in tail[j].divisions
    {
      if j > 0 {
        assert tail[j] == below[j - 1] && tail[j + 1] == below[j];
      }
    }
  }

  // Sentence ids

  /** `os.path.split(file_name)[1]`: what follows the last `/`. */
  function Basename(path: string): (r: string)
    ensures '/' !in r && |r| <= |path| && r == path[|path| - |r|..]
    ensures |r| < |path| ==> path[|path| - |r| - 1] == '/'
    decreases |path|
  {
    if path == [] || path[|path| - 1] == '/' then []
    else Basename(path[..|path| - 1]) + [path[|path| - 1]]
  }

  /** The id a sentence is named after: the document's id, else the sentence's own, else the file's name. */
  function IdBase(fileName: string, docMetadata: Metadata, sentenceMetadata: Metadata): string {
    if Has(docMetadata, "id") then AlpinoBrackets.EscapeId(Get(docMetadata, "id").value)
    else if Has(sentenceMetadata, "id") then AlpinoBrackets.EscapeId(Get(sentenceMetadata, "id").value)
    else Basename(fileName)
  }

  /** A base and the number of times it was used before. */
  function Numbered(base: string, k: nat): string {
    if k == 0 then base else base + "_" + NatToString(k)
  }

  /** `determine_id` on the counters: a new base is used as it is, the k-th repeat gets `_k`. */
  function NextId(base: string, counts: map<string, nat>): (string, map<string, nat>) {
    if base in counts then (Numbered(base, counts[base] + 1), counts[base := counts[base] + 1])
    else (base, counts[base := 0])
  }

  /** The counters of one document's `determine_id` calls. */
  class UniqueIds {
    var counts: map<string, nat>

    constructor ()
      ensures counts == map[]
    {
      counts := map[];
    }

    /** `determine_id(file_name, doc_metadata, sentence_metadata, unique_ids)` */
    method DetermineId(fileName: string, docMetadata: Metadata, sentenceMetadata: Metadata) returns (id: string)
      modifies this
      ensures (id, counts) == NextId(IdBase(fileName, docMetadata, sentenceMetadata), old(counts))
    {
      var base := IdBase(fileName, docMetadata, sentenceMetadata);
      if base in counts {
        counts := counts[base := counts[base] + 1];
        id := Numbered(base, counts[base]);
      } else {
        counts := counts[base := 0];
        id := base;
      }
    }
  }

  /** The number of times `x` occurs in `xs`. */
  function Count(xs: seq<string>, x: string): nat
    decreases |xs|
  {
    if xs == [] then 0 else Count(xs[..|xs| - 1], x) + (if xs[|xs| - 1] == x then 1 else 0)
  }

  /** The ids of a run of `determine_id` calls, with the counters they leave. */
  function AssignIds(bases: seq<string>, counts: map<string, nat>): (r: (seq<string>, map<string, nat>))
    ensures |r.0| == |bases|
    decreases |bases|
  {
    if bases == [] then ([], counts)
    else
      var (ids, c) := AssignIds(bases[..|bases| - 1], counts);
      var (id, c') := NextId(bases[|bases| - 1], c);
      (ids + [id], c')
  }

  /** Each counter holds one less than the number of uses of its base. */
  lemma {:induction false} AssignIdsCounts(bases: seq<string>)
    ensures var c := AssignIds(bases, map[]).1;
            && (forall b :: b in c <==> b in bases)
            && (forall b :: b in c ==> c[b] + 1 == Count(bases, b))
    decreases |bases|
  {
    if bases != [] {
      var init := bases[..|bases| - 1];
      var last := bases[|bases| - 1];
      AssignIdsCounts(init);
      CountPositive(init, last);
      assert bases == init + [last];
    }
  }

  /**
   * Within a document the i-th sentence gets its base numbered by the number
   * of earlier sentences with the same base.
   */
  lemma {:induction false} AssignIdsNumbers(bases: seq<string>)
    ensures forall i :: 0 <= i < |bases| ==>
              AssignIds(bases, map[]).0[i] == Numbered(bases[i], Count(bases[..i], bases[i]))
    decreases |bases|
  {
    if bases != [] {
      var init := bases[..|bases| - 1];
      var last := bases[|bases| - 1];
      AssignIdsNumbers(init);
      var (ids, c) := AssignIds(init, map[]);
      var all := AssignIds(bases, map[]).0;
      assert all == ids + [NextId(last, c).0];
      forall i | 0 <= i < |bases|
        ensures all[i] == Numbered(bases[i], Count(bases[..i], bases[i]))
      {
        if i < |init| {
          assert bases[..i] == init[..i];
        } else {
          AssignIdsCounts(init);
          CountPositive(init, last);
        }
      }
    }
  }

  lemma CountPositive(xs: seq<string>, x: string)
    ensures x in xs <==> Count(xs, x) > 0
    decreases |xs|
  {
    if xs != [] {
      CountPositive(xs[..|xs| - 1], x);
      assert xs == xs[..|xs| - 1] + [xs[|xs| - 1]];
    }
  }

  /**
   * The numbered ids are not always unique: a base that itself ends in `_1`
   * meets the numbered repeat of a shorter base.
   */
  lemma IdsCanCollide(b: string)
    ensures var (id1, c1) := NextId(b, map[]);
            var (id2, c2) := NextId(b, c1);
            var (id3, _) := NextId(Numbered(b, 1), c2);
            id1 == b && id2 == Numbered(b, 1) && id3 == id2
  {
    var first := Numbered(b, 1);
    assert |first| > |b|;
    var c2 := map[b := 0][b := 1];
    assert first !in c2;
  }

  // Annotating the parts of a division

  /** What `annotate_parts` yields: text, its metadata, and whether a sentence ends after it. */
  datatype Emitted = Emitted(text: string, metadata: Metadata, newline: bool)

  /** The items yielded so far, and the sentence emitter's sentences and offset after them. */
  datatype Progress = Progress(items: seq<Emitted>, sentences: seq<string>, offset: nat)

  /**
   * `emit_part(text, subparts_metadata, part_metadata, newline)`: the text
   * gets the part's hints first, and the part's metadata, with any lemma
   * hint's keys removed, then wins over that of the subparts.
   */
  function EmitPart(text: string, subparts: Metadata, part: Metadata, newline: bool): (Emitted, Metadata) {
    var (t, part') := InlineMetadata(text, part);
    (Emitted(t, MergeChild(subparts, part'), newline), part')
  }

  /** What is pending while a part's subparts are collected: the items so far, the text and metadata not yet yielded, and the part's metadata. */
  datatype Collected = Collected(items: seq<Emitted>, text: string, metadata: Metadata, part: Metadata)

  /** The loop over the subparts' items: text and metadata accumulate, and a sentence end yields them. */
  function Collect(subs: seq<Emitted>, text: string, metadata: Metadata, part: Metadata): Collected
    decreases |subs|
  {
    if subs == [] then Collected([], text, metadata, part)
    else
      var text' := text + subs[0].text;
      var metadata' := MergeSibling(metadata, subs[0].metadata);
      if subs[0].newline then
        var (e, part') := EmitPart(text', metadata', part, true);
        var c := Collect(subs[1..], "", [], part');
        c.(items := [e] + c.items)
      else Collect(subs[1..], text', metadata', part)
  }

  /** The sentences of a part without subparts: all but the last are yielded as they are, the last gets the part's hints and stays pending. */
  function Leaf(sentences: seq<string>, part: Metadata): Collected
    requires sentences != []
    decreases |sentences|
  {
    if |sentences| == 1 then
      var (t, part') := InlineMetadata(sentences[0], part);
      Collected([], t, [], part')
    else
      var (e, part') := EmitPart(sentences[0], [], part, true);
      var c := Leaf(sentences[1..], part');
      c.(items := [e] + c.items)
  }

  /** The pending text, when there is any, yielded without a sentence end. */
  function Pending(c: Collected): seq<Emitted> {
    c.items + if c.text != "" then [EmitPart(c.text, c.metadata, c.part, false).0] else []
  }

  /**
   * `annotate_parts(parts, sentence_emitter)`: the items of each part in
   * turn, the emitter's state threaded from one to the next; an alignment
   * error ends the reading.
   */
  function AnnotateParts(parts: seq<Part>, sentences: seq<string>, offset: nat): Result<Progress>
    decreases parts
  {
    if parts == [] then Ok(Progress([], sentences, offset))
    else
      match AnnotatePart(parts[0], sentences, offset)
      case Err(e) => Err(e)
      case Ok(first) =>
        match AnnotateParts(parts[1..], first.sentences, first.offset)
        case Err(e) => Err(e)
        case Ok(rest) => Ok(rest.(items := first.items + rest.items))
  }

  /** One part: its subparts' items collected, or, when they yield nothing, the sentences its own text covers. */
  function AnnotatePart(part: Part, sentences: seq<string>, offset: nat): Result<Progress>
    decreases part
  {
    var metadata := ElementMetadata(part.attributes);
    match AnnotateParts(part.parts, sentences, offset)
    case Err(e) => Err(e)
    case Ok(sub) =>
      if sub.items != [] then
        Ok(Progress(Pending(Collect(sub.items, "", [], metadata)), sub.sentences, sub.offset))
      else
        match TeiEmitter.Emit(sub.sentences, sub.offset, TeiEmitter.AlignableText(part.text), 0)
        case Err(e) => Err(e)
        case Ok((pieces, rest, o)) =>
          var items := if pieces == [] then [] else Pending(Leaf(pieces, metadata));
          Ok(Progress(items, rest, o))
  }

  /** `b` ends with `a`. */
  predicate IsSuffix(a: string, b: string) {
    |a| <= |b| && b[|b| - |a|..] == a
  }

  lemma SuffixTransitive(a: string, b: string, c: string)
    requires IsSuffix(a, b) && IsSuffix(b, c)
    ensures IsSuffix(a, c)
  {
    assert c[|c| - |a|..] == c[|c| - |b|..][|b| - |a|..];
  }

  /**
   * Annotating parts only moves the sentence emitter forward: its state stays
   * well formed and the text it has left is a suffix of what it had.
   */
  lemma {:induction false} AnnotatePartsAdvance(parts: seq<Part>, sentences: seq<string>, offset: nat)
    requires TeiEmitter.InSentence(sentences, offset)
    requires AnnotateParts(parts, sentences, offset).Ok?
    ensures Advances(sentences, offset, AnnotateParts(parts, sentences, offset).value)
    decreases parts
  {
    if parts != [] {
      AnnotatePartAdvance(parts[0], sentences, offset);
      var first := AnnotatePart(parts[0], sentences, offset).value;
      AnnotatePartsAdvance(parts[1..], first.sentences, first.offset);
      var rest := AnnotateParts(parts[1..], first.sentences, first.offset).value;
      SuffixTransitive(TeiEmitter.Stream(rest.sentences, rest.offset),
                       TeiEmitter.Stream(first.sentences, first.offset),
                       TeiEmitter.Stream(sentences, offset));
    } else {
      assert IsSuffix(TeiEmitter.Stream(sentences, offset), TeiEmitter.Stream(sentences, offset));
    }
  }

  /** The emitter state after `p` is well formed and has only text of the state before it left. */
  predicate Advances(sentences: seq<string>, offset: nat, p: Progress)
    requires TeiEmitter.InSentence(sentences, offset)
  {
    TeiEmitter.InSentence(p.sentences, p.offset) &&
    IsSuffix(TeiEmitter.Stream(p.sentences, p.offset), TeiEmitter.Stream(sentences, offset))
  }

  lemma {:induction false} AnnotatePartAdvance(part: Part, sentences: seq<string>, offset: nat)
    requires TeiEmitter.InSentence(sentences, offset)
    requires AnnotatePart(part, sentences, offset).Ok?
    ensures Advances(sentences, offset, AnnotatePart(part, sentences, offset).value)
    decreases part
  {
    AnnotatePartsAdvance(part.parts, sentences, offset);
    var sub := AnnotateParts(part.parts, sentences, offset).value;
    if sub.items == [] {
      var alignable := TeiEmitter.AlignableText(part.text);
      TeiEmitter.EmitConsumes(sub.sentences, sub.offset, alignable, 0);
      var (pieces, rest, o) := TeiEmitter.Emit(sub.sentences, sub.offset, alignable, 0).value;
      SuffixTransitive(TeiEmitter.Stream(rest, o), TeiEmitter.Stream(sub.sentences, sub.offset),
                       TeiEmitter.Stream(sentences, offset));
    }
  }

  // Reading a document

  function NewlineCount(items: seq<Emitted>): nat
    decreases |items|
  {
    if items == [] then 0 else NewlineCount(items[..|items| - 1]) + (if items[|items| - 1].newline then 1 else 0)
  }

  /**
   * The sentences of a division in `read`: each item's text is appended to
   * the last sentence and its metadata merged as a sibling's; an item ending a
   * sentence starts a new, empty one.
   */
  function Aggregated(items: seq<Emitted>): (r: seq<(string, Metadata)>)
    ensures |r| == NewlineCount(items) + 1
    decreases |items|
  {
    if items == [] then [("", [])]
    else
      var prev := Aggregated(items[..|items| - 1]);
      var item := items[|items| - 1];
      var (text, metadata) := prev[|prev| - 1];
      var updated := prev[..|prev| - 1] + [(text + item.text, MergeSibling(metadata, item.metadata))];
      if item.newline then updated + [("", [])] else updated
  }

  function ItemsText(items: seq<Emitted>): string
    decreases |items|
  {
    if items == [] then [] else ItemsText(items[..|items| - 1]) + items[|items| - 1].text
  }

  function SentencesText(sentences: seq<(string, Metadata)>): string
    decreases |sentences|
  {
    if sentences == [] then [] else SentencesText(sentences[..|sentences| - 1]) + sentences[|sentences| - 1].0
  }

  /** The sentences hold all the items' text, in order, and one more sentence than there are sentence ends. */
  lemma {:induction false} AggregatedText(items: seq<Emitted>)
    ensures SentencesText(Aggregated(items)) == ItemsText(items)
    decreases |items|
  {
    if items != [] {
      var init := items[..|items| - 1];
      var item := items[|items| - 1];
      AggregatedText(init);
      var prev := Aggregated(init);
      var last := prev[|prev| - 1];
      var updated := prev[..|prev| - 1] + [(last.0 + item.text, MergeSibling(last.1, item.metadata))];
      assert updated[..|updated| - 1] == prev[..|prev| - 1];
      assert prev[..|prev| - 1] + [last] == prev;
      assert SentencesText(prev) == SentencesText(prev[..|prev| - 1]) + last.0;
      assert SentencesText(updated) == SentencesText(prev[..|prev| - 1]) + (last.0 + item.text);
      if item.newline {
        var grown := updated + [("", [])];
        assert grown[..|grown| - 1] == updated;
      }
    }
  }

  /** The loop of `read` over what `annotate_parts` yields. */
  method Aggregate(items: seq<Emitted>) returns (sentences: seq<(string, Metadata)>)
    ensures sentences == Aggregated(items)
  {
    sentences := [("", [])];
    for i := 0 to |items|
      invariant sentences == Aggregated(items[..i])
    {
      Seqs.PrefixNext(items, i);
      var (text, metadata) := sentences[|sentences| - 1];
      sentences := sentences[..|sentences| - 1] + [(text + items[i].text, MergeSibling(metadata, items[i].metadata))];
      if items[i].newline {
        sentences := sentences + [("", [])];
      }
    }
    assert items[..|items|] == items;
  }

  /** The non-empty sentences, the division's metadata winning over theirs for `tei-tag` and `id`. */
  function Kept(sentences: seq<(string, Metadata)>, divisionMetadata: Metadata): seq<(string, Metadata)>
    decreases |sentences|
  {
    if sentences == [] then []
    else
      var init := Kept(sentences[..|sentences| - 1], divisionMetadata);
      var (text, metadata) := sentences[|sentences| - 1];
      if text == "" then init else init + [(text, MergeChild(metadata, divisionMetadata))]
  }

  function MakeUtterance(sentence: (string, Metadata), id: string): Utterance {
    Utterance(Replace(sentence.0, "  ", " "), id, sentence.1, LineNumber(0), [])
  }

  /** The utterances of a document's sentences, each named by `determine_id` in turn. */
  function Utterances(sentences: seq<(string, Metadata)>, fileName: string, docMetadata: Metadata, counts: map<string, nat>): (r: (seq<Utterance>, map<string, nat>))
    ensures |r.0| == |sentences|
    decreases |sentences|
  {
    if sentences == [] then ([], counts)
    else
      var prev := Utterances(sentences[..|sentences| - 1], fileName, docMetadata, counts);
      var s := sentences[|sentences| - 1];
      var next := NextId(IdBase(fileName, docMetadata, s.1), prev.1);
      (prev.0 + [MakeUtterance(s, next.0)], next.1)
  }

  lemma UtterancesLast(sentences: seq<(string, Metadata)>, fileName: string, docMetadata: Metadata, counts: map<string, nat>)
    requires sentences != []
    ensures var prev := Utterances(sentences[..|sentences| - 1], fileName, docMetadata, counts);
            var s := sentences[|sentences| - 1];
            var next := NextId(IdBase(fileName, docMetadata, s.1), prev.1);
            Utterances(sentences, fileName, docMetadata, counts) == (prev.0 + [MakeUtterance(s, next.0)], next.1)
  {
  }

  lemma {:induction false} UtterancesAppend(a: seq<(string, Metadata)>, b: seq<(string, Metadata)>, fileName: string, docMetadata: Metadata, counts: map<string, nat>)
    ensures var ra := Utterances(a, fileName, docMetadata, counts);
            var rb := Utterances(b, fileName, docMetadata, ra.1);
            Utterances(a + b, fileName, docMetadata, counts) == (ra.0 + rb.0, rb.1)
    decreases |b|
  {
    var ra := Utterances(a, fileName, docMetadata, counts);
    if b == [] {
      assert a + b == a;
      assert ra.0 + [] == ra.0;
    } else {
      var b' := b[..|b| - 1];
      var s := b[|b| - 1];
      UtterancesAppend(a, b', fileName, docMetadata, counts);
      var rb' := Utterances(b', fileName, docMetadata, ra.1);
      var next := NextId(IdBase(fileName, docMetadata, s.1), rb'.1);
      UtterancesLast(b, fileName, docMetadata, ra.1);
      var ab := a + b;
      UtterancesLast(ab, fileName, docMetadata, counts);
      Seqs.SplitLast(a, b);
      Seqs.Regroup(ra.0, rb'.0, [MakeUtterance(s, next.0)]);
    }
  }

  /** The bases of the sentences' ids, in order. */
  function Bases(sentences: seq<(string, Metadata)>, fileName: string, docMetadata: Metadata): (r: seq<string>)
    ensures |r| == |sentences|
    decreases |sentences|
  {
    if sentences == [] then []
    else Bases(sentences[..|sentences| - 1], fileName, docMetadata) + [IdBase(fileName, docMetadata, sentences[|sentences| - 1].1)]
  }

  lemma AssignIdsLast(bases: seq<string>, counts: map<string, nat>)
    requires bases != []
    ensures var prev := AssignIds(bases[..|bases| - 1], counts);
            var next := NextId(bases[|bases| - 1], prev.1);
            AssignIds(bases, counts) == (prev.0 + [next.0], next.1)
  {
  }

  /** The utterances leave the counters `AssignIds` leaves for the sentences' bases. */
  lemma {:induction false} UtteranceCounts(sentences: seq<(string, Metadata)>, fileName: string, docMetadata: Metadata, counts: map<string, nat>)
    ensures Utterances(sentences, fileName, docMetadata, counts).1 == AssignIds(Bases(sentences, fileName, docMetadata), counts).1
    decreases |sentences|
  {
    if sentences != [] {
      var init := sentences[..|sentences| - 1];
      UtteranceCounts(init, fileName, docMetadata, counts);
      UtterancesLast(sentences, fileName, docMetadata, counts);
      var bases := Bases(sentences, fileName, docMetadata);
      AssignIdsLast(bases, counts);
      assert bases[..|bases| - 1] == Bases(init, fileName, docMetadata);
    }
  }

  /** The utterances name their sentences in order, with the ids `AssignIds` gives the sentences' bases. */
  lemma {:induction false} UtteranceIds(sentences: seq<(string, Metadata)>, fileName: string, docMetadata: Metadata, counts: map<string, nat>)
    ensures var us := Utterances(sentences, fileName, docMetadata, counts).0;
            var ids := AssignIds(Bases(sentences, fileName, docMetadata), counts).0;
            forall i :: 0 <= i < |us| ==> us[i] == MakeUtterance(sentences[i], ids[i])
    decreases |sentences|
  {
    if sentences != [] {
      var init := sentences[..|sentences| - 1];
      UtteranceIds(init, fileName, docMetadata, counts);
      UtteranceCounts(init, fileName, docMetadata, counts);
      UtterancesLast(sentences, fileName, docMetadata, counts);
      var bases := Bases(sentences, fileName, docMetadata);
      AssignIdsLast(bases, counts);
      assert bases[..|bases| - 1] == Bases(init, fileName, docMetadata);
      var us := Utterances(sentences, fileName, docMetadata, counts).0;
      var ids := AssignIds(bases, counts).0;
      var usInit := Utterances(init, fileName, docMetadata, counts).0;
      var idsInit := AssignIds(Bases(init, fileName, docMetadata), counts).0;
      forall i | 0 <= i < |us|
        ensures us[i] == MakeUtterance(sentences[i], ids[i])
      {
        Seqs.IndexAppend(usInit, us[|us| - 1], i);
        Seqs.IndexAppend(idsInit, ids[|ids| - 1], i);
        if i < |init| {
          assert sentences[i] == init[i];
        }
      }
    }
  }

  /** The sentences one division contributes. */
  function DivisionSentences(division: Division, divisionMetadata: Metadata, tokenize: string -> seq<string>): Result<seq<(string, Metadata)>> {
    match AnnotateParts(division.parts, tokenize(division.text), 0)
    case Err(e) => Err(e)
    case Ok(p) => Ok(Kept(Aggregated(p.items), divisionMetadata))
  }

  /** The sentences of the lowest divisions in turn; the first alignment error ends the reading. */
  function LeafSentences(leaves: seq<(seq<Division>, Metadata)>, tokenize: string -> seq<string>): Result<seq<(string, Metadata)>>
    requires forall i :: 0 <= i < |leaves| ==> |leaves[i].0| > 0
    decreases |leaves|
  {
    if leaves == [] then Ok([])
    else
      var (path, metadata) := leaves[|leaves| - 1];
      match LeafSentences(leaves[..|leaves| - 1], tokenize)
      case Err(e) => Err(e)
      case Ok(init) =>
        match DivisionSentences(path[|path| - 1], metadata, tokenize)
        case Err(e) => Err(e)
        case Ok(more) => Ok(init + more)
  }

  /** One document of `read`: its utterances over all lowest divisions, with the document's own metadata. */
  function DocumentOf(file: CollectedFile, document: TeiDocument, tokenize: string -> seq<string>): Result<Document> {
    var docMetadata := ElementMetadata(document.attributes);
    var leaves := Lowest(document.divisions, []);
    LowestLeaves(document.divisions, []);
    assert forall i :: 0 <= i < |leaves| ==> LeafPath(leaves[i], document.divisions, []);
    match LeafSentences(leaves, tokenize)
    case Err(e) => Err(e)
    case Ok(sentences) => Ok(Document(file, Utterances(sentences, file.filename, docMetadata, map[]).0, docMetadata, ""))
  }

  /** `read(collected_file)` over the parsed documents and the tokenizer. */
  function Documents(file: CollectedFile, documents: seq<TeiDocument>, tokenize: string -> seq<string>): Result<seq<Document>>
    decreases |documents|
  {
    if documents == [] then Ok([])
    else
      match Documents(file, documents[..|documents| - 1], tokenize)
      case Err(e) => Err(e)
      case Ok(init) =>
        match DocumentOf(file, documents[|documents| - 1], tokenize)
        case Err(e) => Err(e)
        case Ok(d) => Ok(init + [d])
  }

  /** The inner loop of `read`: the non-empty sentences of one division become utterances. */
  method DivisionUtterances(ids: UniqueIds, fileName: string, docMetadata: Metadata, sentences: seq<(string, Metadata)>, divisionMetadata: Metadata)
    returns (utterances: seq<Utterance>)
    modifies ids
    ensures (utterances, ids.counts) == Utterances(Kept(sentences, divisionMetadata), fileName, docMetadata, old(ids.counts))
  {
    utterances := [];
    for k := 0 to |sentences|
      invariant (utterances, ids.counts) == Utterances(Kept(sentences[..k], divisionMetadata), fileName, docMetadata, old(ids.counts))
    {
      Seqs.PrefixNext(sentences, k);
      var (sentence, sentenceMetadata) := sentences[k];
      if sentence != "" {
        var metadata := MergeChild(sentenceMetadata, divisionMetadata);
        ghost var kept := Kept(sentences[..k], divisionMetadata);
        assert Kept(sentences[..k + 1], divisionMetadata) == kept + [(sentence, metadata)];
        assert (kept + [(sentence, metadata)])[..|kept|] == kept;
        var id := ids.DetermineId(fileName, docMetadata, metadata);
        utterances := utterances + [MakeUtterance((sentence, metadata), id)];
      }
    }
    assert sentences[..|sentences|] == sentences;
  }

  /** One lowest division in `read`: its parts annotated, the sentences aggregated, and the non-empty ones named. */
  method ReadDivision(ids: UniqueIds, fileName: string, docMetadata: Metadata, division: Division, divisionMetadata: Metadata, tokenize: string -> seq<string>)
    returns (r: Result<seq<Utterance>>)
    modifies ids
    ensures var d := DivisionSentences(division, divisionMetadata, tokenize);
            && (r.Ok? <==> d.Ok?)
            && (r.Err? ==> r.error == d.error)
            && (r.Ok? ==> (r.value, ids.counts) == Utterances(d.value, fileName, docMetadata, old(ids.counts)))
  {
    var annotated := AnnotateParts(division.parts, tokenize(division.text), 0);
    if annotated.Err? {
      return Err(annotated.error);
    }
    var aggregated := Aggregate(annotated.value.items);
    var utterances := DivisionUtterances(ids, fileName, docMetadata, aggregated, divisionMetadata);
    return Ok(utterances);
  }

  lemma LeafSentencesStep(leaves: seq<(seq<Division>, Metadata)>, j: nat, tokenize: string -> seq<string>)
    requires forall i :: 0 <= i < |leaves| ==> |leaves[i].0| > 0
    requires j < |leaves|
    ensures var d := DivisionSentences(leaves[j].0[|leaves[j].0| - 1], leaves[j].1, tokenize);
            var prev := LeafSentences(leaves[..j], tokenize);
            LeafSentences(leaves[..j + 1], tokenize) ==
              if prev.Err? then prev else if d.Err? then Err(d.error) else Ok(prev.value + d.value)
  {
    Seqs.PrefixNext(leaves, j);
  }

  /** The body of `read` for one parsed document. */
  method ReadDocument(file: CollectedFile, document: TeiDocument, tokenize: string -> seq<string>) returns (r: Result<Document>)
    ensures r == DocumentOf(file, document, tokenize)
  {
    var docMetadata := GetElementMetadata(document.attributes);
    var ids := new UniqueIds();
    var leaves := Lowest(document.divisions, []);
    assert forall i :: 0 <= i < |leaves| ==> |leaves[i].0| > 0 by {
      LowestLeaves(document.divisions, []);
      assert forall i :: 0 <= i < |leaves| ==> LeafPath(leaves[i], document.divisions, []);
    }
    var utterances := ReadLeaves(ids, file.filename, docMetadata, leaves, tokenize);
    if utterances.Err? {
      return Err(utterances.error);
    }
    return Ok(Document(file, utterances.value, docMetadata, ""));
  }

  /** The division loop of `read`: the sentences of every lowest division, named with one set of counters. */
  method ReadLeaves(ids: UniqueIds, fileName: string, docMetadata: Metadata, leaves: seq<(seq<Division>, Metadata)>, tokenize: string -> seq<string>)
    returns (r: Result<seq<Utterance>>)
    requires forall i :: 0 <= i < |leaves| ==> |leaves[i].0| > 0
    requires ids.counts == map[]
    modifies ids
    ensures match LeafSentences(leaves, tokenize)
            case Err(e) => r == Err(e)
            case Ok(sentences) => r == Ok(Utterances(sentences, fileName, docMetadata, map[]).0)
  {
    var utterances: seq<Utterance> := [];
    ghost var sentences: seq<(string, Metadata)> := [];
    for j := 0 to |leaves|
      invariant LeafSentences(leaves[..j], tokenize) == Ok(sentences)
      invariant (utterances, ids.counts) == Utterances(sentences, fileName, docMetadata, map[])
    {
      var path := leaves[j].0;
      var more := ReadDivision(ids, fileName, docMetadata, path[|path| - 1], leaves[j].1, tokenize);
      LeafSentencesStep(leaves, j, tokenize);
      if more.Err? {
        LeafSentencesErr(leaves, j + 1, tokenize);
        return Err(more.error);
      }
      ghost var added := DivisionSentences(path[|path| - 1], leaves[j].1, tokenize).value;
      UtterancesAppend(sentences, added, fileName, docMetadata, map[]);
      sentences := sentences + added;
      utterances := utterances + more.value;
    }
    assert leaves[..|leaves|] == leaves;
    return Ok(utterances);
  }

  /** An error in the first `j` divisions is the error of all of them. */
  lemma {:induction false} LeafSentencesErr(leaves: seq<(seq<Division>, Metadata)>, j: nat, tokenize: string -> seq<string>)
    requires forall i :: 0 <= i < |leaves| ==> |leaves[i].0| > 0
    requires j <= |leaves| && LeafSentences(leaves[..j], tokenize).Err?
    ensures LeafSentences(leaves, tokenize) == LeafSentences(leaves[..j], tokenize)
    decreases |leaves| - j
  {
    if j < |leaves| {
      Seqs.PrefixNext(leaves, j);
      LeafSentencesErr(leaves, j + 1, tokenize);
    } else {
      assert leaves[..j] == leaves;
    }
  }

  /** `read(collected_file)`: one document per parsed TEI document, in order. */
  method Read(file: CollectedFile, documents: seq<TeiDocument>, tokenize: string -> seq<string>) returns (r: Result<seq<Document>>)
    ensures r == Documents(file, documents, tokenize)
  {
    var read: seq<Document> := [];
    for i := 0 to |documents|
      invariant Documents(file, documents[..i], tokenize) == Ok(read)
    {
      Seqs.PrefixNext(documents, i);
      var d := ReadDocument(file, documents[i], tokenize);
      if d.Err? {
        DocumentsErr(file, documents, i + 1, tokenize);
        return Err(d.error);
      }
      read := read + [d.value];
    }
    assert documents[..|documents|] == documents;
    return Ok(read);
  }

  lemma {:induction false} DocumentsErr(file: CollectedFile, documents: seq<TeiDocument>, j: nat, tokenize: string -> seq<string>)
    requires j <= |documents| && Documents(file, documents[..j], tokenize).Err?
    ensures Documents(file, documents, tokenize) == Documents(file, documents[..j], tokenize)
    decreases |documents| - j
  {
    if j < |documents| {
      Seqs.PrefixNext(documents, j);
      DocumentsErr(file, documents, j + 1, tokenize);
    } else {
      assert documents[..j] == documents;
    }
  }

  /** `test_file(file)`: a `<TEI` tag among the first 400 characters. */
  predicate TestFile(file: CollectedFile) {
    Contains(Take(file.content, 400), "<TEI")
  }
}
