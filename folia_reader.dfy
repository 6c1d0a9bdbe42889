/**
 * The FoLiA reader: the words of a FoLiA document grouped into sentences,
 * each sentence turned into an utterance in Alpino's bracketed syntax. The
 * FoLiA parser is an input: a parsed document is its metadata pairs and its
 * words in document order, each with its ancestors from the innermost out,
 * and sentences are looked up by reference.
 */
module FoliaReader {
  import opened Wrappers
  import opened Text
  import opened Dicts
  import opened Models
  import opened AlpinoBrackets

  /** A word's correction: none, or one with or without text. */
  datatype Correction = NoCorrection | Correction(text: Option<string>)

  /** What the reader asks of a word; `None` stands for the library's "no such text" or "no such annotation". */
  datatype Word = Word(text: Option<string>, correction: Correction, lemmaText: Option<string>, pos: Option<string>)

  /** An ancestor of a word: a sentence or a paragraph, by reference, or any other element. */
  datatype Ancestor = SentenceOf(ref: nat) | ParagraphOf(ref: nat) | OtherElement

  datatype DocWord = DocWord(word: Word, ancestors: seq<Ancestor>)

  /** A sentence as `get_sentence` reads it: its id, all its words and its metadata pairs. */
  datatype Sentence = Sentence(id: string, words: seq<Word>, metadata: seq<(string, string)>)

  /** A parsed FoLiA document: its metadata pairs and its words. */
  datatype FoliaDocument = FoliaDocument(metadata: seq<(string, string)>, words: seq<DocWord>)

  // Words

  /** `get_word_string(word)` */
  function WordString(w: Word): string {
    match w.text
    case None => ""
    case Some(text) =>
      if w.correction.Correction? && w.correction.text.Some? && w.correction.text.value != text then
        FormatAddLex(w.correction.text.value, text)
      else if w.lemmaText.Some? && w.pos.Some? && w.lemmaText.value != "" && w.pos.value != "" then
        FormatFolia(w.lemmaText.value, w.pos.value, text)
      else EscapeWord(text)
  }

  /**
   * The word string gives the word back to the parser: a word without text is
   * dropped, a corrected word reads back as its correction and its text, and
   * a plain word unescapes to its text.
   */
  lemma WordStringReadsBack(w: Word)
    ensures w.text.None? ==> WordString(w) == ""
    ensures w.text.Some? && w.correction.Correction? && w.correction.text.Some? &&
            w.correction.text.value != w.text.value && ' ' !in w.correction.text.value ==>
              ParseAddLex(WordString(w)) == Some((w.correction.text.value, w.text.value))
    ensures w.text.Some? && !(w.correction.Correction? && w.correction.text.Some? && w.correction.text.value != w.text.value) &&
            !(w.lemmaText.Some? && w.pos.Some? && w.lemmaText.value != "" && w.pos.value != "") ==>
              Unescape(WordString(w)) == w.text.value
  {
    if w.text.Some? {
      var text := w.text.value;
      if w.correction.Correction? && w.correction.text.Some? && w.correction.text.value != text {
        if ' ' !in w.correction.text.value {
          AddLexRoundTrip(w.correction.text.value, text);
        }
      } else if !(w.lemmaText.Some? && w.pos.Some? && w.lemmaText.value != "" && w.pos.value != "") {
        EscapeWordRoundTrip(text);
      }
    }
  }

  /** The non-empty strings, in order. */
  function NonEmpty(xs: seq<string>): (r: seq<string>)
    ensures forall i :: 0 <= i < |r| ==> r[i] != ""
    ensures r == [] <==> forall i :: 0 <= i < |xs| ==> xs[i] == ""
  {
    if xs == [] then []
    else (if xs[0] == "" then [] else [xs[0]]) + NonEmpty(xs[1..])
  }

  /** A join of non-empty strings is empty only when there is nothing to join. */
  lemma {:induction false} JoinNonEmpty(sep: string, xs: seq<string>)
    requires forall i :: 0 <= i < |xs| ==> xs[i] != ""
    ensures Join(sep, xs) == "" <==> xs == []
  {
    if |xs| > 1 {
      assert Join(sep, xs) == xs[0] + sep + Join(sep, xs[1..]);
    }
  }

  function WordStrings(words: seq<Word>): (r: seq<string>)
    ensures |r| == |words| && forall i :: 0 <= i < |words| ==> r[i] == WordString(words[i])
  {
    seq(|words|, i requires 0 <= i < |words| => WordString(words[i]))
  }

  /** The utterance text of a sentence: its non-empty word strings joined by single spaces. */
  function SentenceLine(words: seq<Word>): string {
    Join(" ", NonEmpty(WordStrings(words)))
  }

  /** The line is empty exactly when every word string is. */
  lemma SentenceLineEmpty(words: seq<Word>)
    ensures SentenceLine(words) == "" <==> forall i :: 0 <= i < |words| ==> WordString(words[i]) == ""
  {
    JoinNonEmpty(" ", NonEmpty(WordStrings(words)));
  }

  // Metadata

  /** Whether `get_metadata_dict` keeps a pair: always without a filter, else unless the filter has the key with that value. */
  predicate Kept(pair: (string, string), filter: Option<Metadata>) {
    filter.None? || !Has(filter.value, pair.0) || Get(filter.value, pair.0).value != pair.1
  }

  /** The dict of the kept pairs, each as a `text` value; a repeated key takes its last kept value. */
  function MetadataDict(items: seq<(string, string)>, filter: Option<Metadata>): Metadata {
    if items == [] then []
    else
      var n := |items| - 1;
      var d := MetadataDict(items[..n], filter);
      if Kept(items[n], filter) then Set(d, items[n].0, TextValue(items[n].1)) else d
  }

  /** `get_metadata_dict(native_metadata, filter_by)` */
  method GetMetadataDict(items: seq<(string, string)>, filter: Option<Metadata>) returns (metadata: Metadata)
    ensures metadata == MetadataDict(items, filter)
  {
    metadata := [];
    var i := 0;
    while i < |items|
      invariant 0 <= i <= |items|
      invariant metadata == MetadataDict(items[..i], filter)
    {
      assert items[..i + 1][..i] == items[..i];
      var (key, value) := items[i];
      if filter.None? || !Has(filter.value, key) || Get(filter.value, key).value != value {
        metadata := Set(metadata, key, TextValue(value));
      }
      i := i + 1;
    }
    assert items[..i] == items;
  }

  /** A key is in the dict exactly when some kept pair has it. */
  lemma {:induction false} MetadataDictKeys(items: seq<(string, string)>, filter: Option<Metadata>, k: string)
    ensures Has(MetadataDict(items, filter), k) <==> exists i :: 0 <= i < |items| && items[i].0 == k && Kept(items[i], filter)
  {
    if items != [] {
      var n := |items| - 1;
      MetadataDictKeys(items[..n], filter, k);
      assert forall i :: 0 <= i < n ==> items[..n][i] == items[i];
    }
  }

  /** The value of a key is the text of the last kept pair with that key. */
  lemma {:induction false} MetadataDictValue(items: seq<(string, string)>, filter: Option<Metadata>, i: nat)
    requires i < |items| && Kept(items[i], filter)
    requires forall j :: i < j < |items| && items[j].0 == items[i].0 ==> !Kept(items[j], filter)
    ensures Has(MetadataDict(items, filter), items[i].0)
    ensures Get(MetadataDict(items, filter), items[i].0) == TextValue(items[i].1)
  {
    var n := |items| - 1;
    var d := MetadataDict(items[..n], filter);
    var k := items[i].0;
    if i < n {
      var prefix := items[..n];
      assert prefix[i] == items[i];
      assert forall j :: i < j < |prefix| ==> prefix[j] == items[j];
      MetadataDictValue(prefix, filter, i);
      assert Has(d, k) && Get(d, k) == TextValue(items[i].1);
      assert items[n].0 != k || !Kept(items[n], filter);
    }
  }

  // Grouping words into sentences

  /** A group of words and the sentence current when it was closed. */
  datatype Group = Group(sentence: Option<nat>, words: seq<DocWord>)

  /** The loop state of `get_utterances`: current paragraph and sentence, pending words, groups closed so far. */
  datatype Scan = Scan(paragraph: Option<nat>, sentence: Option<nat>, pending: seq<DocWord>, closed: seq<Group>)

  /** The pending words closed as a group under the current sentence. */
  function Close(st: Scan): Scan {
    st.(pending := [], closed := st.closed + [Group(st.sentence, st.pending)])
  }

  /** One ancestor: a new sentence or paragraph closes the pending words, if any, and becomes current. */
  function AncestorStep(st: Scan, a: Ancestor): Scan {
    match a
    case SentenceOf(r) =>
      (if st.sentence != Some(r) && st.pending != [] then Close(st) else st).(sentence := Some(r))
    case ParagraphOf(r) =>
      (if st.paragraph != Some(r) && st.pending != [] then Close(st) else st).(paragraph := Some(r))
    case OtherElement => st
  }

  function AncestorSteps(st: Scan, ancestors: seq<Ancestor>): Scan {
    if ancestors == [] then st
    else
      var n := |ancestors| - 1;
      AncestorStep(AncestorSteps(st, ancestors[..n]), ancestors[n])
  }

  /** The state after the first `n` words. */
  function ScanWords(words: seq<DocWord>): Scan {
    if words == [] then Scan(None, None, [], [])
    else
      var n := |words| - 1;
      var st := AncestorSteps(ScanWords(words[..n]), words[n].ancestors);
      st.(pending := st.pending + [words[n]])
  }

  /** The groups `get_utterances` yields: those closed during the scan, then the pending words if any. */
  function Groups(words: seq<DocWord>): seq<Group> {
    var st := ScanWords(words);
    if st.pending != [] then Close(st).closed else st.closed
  }

  /** The words of the groups, concatenated. */
  function Flatten(groups: seq<Group>): seq<DocWord> {
    if groups == [] then [] else Flatten(groups[..|groups| - 1]) + groups[|groups| - 1].words
  }

  /** Scan states whose groups are non-empty and hold, with the pending words, the words seen. */
  predicate Accounts(st: Scan, seen: seq<DocWord>) {
    (forall i :: 0 <= i < |st.closed| ==> st.closed[i].words != []) && Flatten(st.closed) + st.pending == seen
  }

  lemma CloseAccounts(st: Scan, seen: seq<DocWord>)
    requires Accounts(st, seen) && st.pending != []
    ensures Accounts(Close(st), seen)
  {
    var c := Close(st).closed;
    assert c[..|c| - 1] == st.closed;
    assert Flatten(c) == Flatten(st.closed) + st.pending;
  }

  lemma {:induction false} AncestorStepsAccount(st: Scan, ancestors: seq<Ancestor>, seen: seq<DocWord>)
    requires Accounts(st, seen)
    ensures Accounts(AncestorSteps(st, ancestors), seen)
  {
    if ancestors != [] {
      var n := |ancestors| - 1;
      AncestorStepsAccount(st, ancestors[..n], seen);
      var before := AncestorSteps(st, ancestors[..n]);
      if before.pending != [] {
        CloseAccounts(before, seen);
      }
    }
  }

  lemma {:induction false} ScanAccounts(words: seq<DocWord>)
    ensures Accounts(ScanWords(words), words)
  {
    if words != [] {
      var n := |words| - 1;
      ScanAccounts(words[..n]);
      AncestorStepsAccount(ScanWords(words[..n]), words[n].ancestors, words[..n]);
      assert words[..n] + [words[n]] == words;
    }
  }

  /** `get_utterances` never yields an empty group, and its groups hold every word once, in order. */
  lemma GroupsPartition(words: seq<DocWord>)
    ensures forall i :: 0 <= i < |Groups(words)| ==> Groups(words)[i].words != []
    ensures Flatten(Groups(words)) == words
  {
    var st := ScanWords(words);
    ScanAccounts(words);
    if st.pending != [] {
      CloseAccounts(st, words);
    }
  }

  /** The grouping loop of `get_utterances`. */
  method GetGroups(words: seq<DocWord>) returns (groups: seq<Group>)
    ensures groups == Groups(words)
  {
    var paragraph: Option<nat> := None;
    var sentence: Option<nat> := None;
    var pending: seq<DocWord> := [];
    groups := [];
    var k := 0;
    while k < |words|
      invariant 0 <= k <= |words|
      invariant Scan(paragraph, sentence, pending, groups) == ScanWords(words[..k])
    {
      assert words[..k + 1][..k] == words[..k];
      var ancestors := words[k].ancestors;
      ghost var start := Scan(paragraph, sentence, pending, groups);
      var j := 0;
      while j < |ancestors|
        invariant 0 <= j <= |ancestors|
        invariant Scan(paragraph, sentence, pending, groups) == AncestorSteps(start, ancestors[..j])
      {
        assert ancestors[..j + 1][..j] == ancestors[..j];
        match ancestors[j] {
          case SentenceOf(r) =>
            if sentence != Some(r) && pending != [] {
              groups := groups + [Group(sentence, pending)];
              pending := [];
            }
            sentence := Some(r);
          case ParagraphOf(r) =>
            if paragraph != Some(r) && pending != [] {
              groups := groups + [Group(sentence, pending)];
              pending := [];
            }
            paragraph := Some(r);
          case OtherElement =>
        }
        j := j + 1;
      }
      assert ancestors[..j] == ancestors;
      pending := pending + [words[k]];
      k := k + 1;
    }
    assert words[..k] == words;
    if pending != [] {
      groups := groups + [Group(sentence, pending)];
    }
  }

  // Sentences and documents

  /**
   * `get_sentence`: the utterance of the group's sentence, built from all the
   * words of that sentence; a group before any sentence fails.
   */
  function GetSentence(sentences: nat -> Sentence, group: Group, docMetadata: Metadata): Result<Utterance> {
    match group.sentence
    case None => Err("AttributeError: 'NoneType' object has no attribute 'words'")
    case Some(r) =>
      var s := sentences(r);
      var line := SentenceLine(s.words);
      Ok(Utterance(line, EscapeId(s.id), MetadataDict(s.metadata, Some(docMetadata)), LineText(line), []))
  }

  /** The utterances of the groups, in order, or the first failure. */
  function GetUtterances(sentences: nat -> Sentence, groups: seq<Group>, docMetadata: Metadata): (r: Result<seq<Utterance>>)
    ensures r.Ok? ==> |r.value| == |groups|
    ensures r.Ok? ==> forall i :: 0 <= i < |groups| ==> GetSentence(sentences, groups[i], docMetadata) == Ok(r.value[i])
  {
    if groups == [] then Ok([])
    else
      var n := |groups| - 1;
      match GetUtterances(sentences, groups[..n], docMetadata)
      case Err(e) => Err(e)
      case Ok(us) =>
        match GetSentence(sentences, groups[n], docMetadata)
        case Err(e) => Err(e)
        case Ok(u) => Ok(us + [u])
  }

  /** Reading the sentences fails exactly when some group has no sentence. */
  lemma {:induction false} GetUtterancesFails(sentences: nat -> Sentence, groups: seq<Group>, docMetadata: Metadata)
    ensures GetUtterances(sentences, groups, docMetadata).Err? <==> exists i :: 0 <= i < |groups| && groups[i].sentence.None?
  {
    if groups != [] {
      var n := |groups| - 1;
      GetUtterancesFails(sentences, groups[..n], docMetadata);
      assert forall i :: 0 <= i < n ==> groups[..n][i] == groups[i];
    }
  }

  /**
   * `read(collected_file)`: one document with the document's metadata and an
   * utterance per group; any failure, of the FoLiA parser included, becomes
   * an error naming the file.
   */
  function Read(file: CollectedFile, parsed: Option<FoliaDocument>, sentences: nat -> Sentence): (r: Result<Document>)
    ensures r.Err? ==> r.error == file.relpath + "/" + file.filename
    ensures r.Ok? ==> r.value.collectedFile == file && r.value.subpath == ""
  {
    match parsed
    case None => Err(file.relpath + "/" + file.filename)
    case Some(doc) =>
      var docMetadata := MetadataDict(doc.metadata, None);
      match GetUtterances(sentences, Groups(doc.words), docMetadata)
      case Err(_) => Err(file.relpath + "/" + file.filename)
      case Ok(us) => Ok(Document(file, us, docMetadata, ""))
  }

  /**
   * Reading succeeds exactly when the file parses and no word comes before
   * the first sentence; the document then has one utterance per group, read
   * from that group's sentence, and the document's own metadata.
   */
  lemma ReadOutcome(file: CollectedFile, parsed: Option<FoliaDocument>, sentences: nat -> Sentence)
    ensures Read(file, parsed, sentences).Ok? <==>
              parsed.Some? && forall i :: 0 <= i < |Groups(parsed.value.words)| ==> Groups(parsed.value.words)[i].sentence.Some?
    ensures Read(file, parsed, sentences).Ok? ==>
              var d := Read(file, parsed, sentences).value;
              var groups := Groups(parsed.value.words);
              && d.metadata == MetadataDict(parsed.value.metadata, None)
              && |d.utterances| == |groups|
              && forall i :: 0 <= i < |groups| ==> GetSentence(sentences, groups[i], d.metadata) == Ok(d.utterances[i])
  {
    if parsed.Some? {
      GetUtterancesFails(sentences, Groups(parsed.value.words), MetadataDict(parsed.value.metadata, None));
    }
  }

  /** `test_file`: `<FoLiA` among the first 400 characters. */
  predicate TestFile(file: CollectedFile) {
    Contains(Take(file.content, 400), "<FoLiA")
  }

  /** Without a filter every pair is kept, and a sentence's metadata drops exactly the pairs the document already has. */
  lemma KeptFilter(pair: (string, string), docMetadata: Metadata)
    ensures Kept(pair, None)
    ensures !Kept(pair, Some(docMetadata)) <==> Has(docMetadata, pair.0) && Get(docMetadata, pair.0).value == pair.1
  {
  }
}
