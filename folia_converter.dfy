/**
 * The older FoLiA converter: every sentence of every paragraph of every file
 * becomes a line for the parser wrapper, its words in Alpino's bracketed
 * syntax. The FoLiA parser is an input: a parsed file is its paragraphs,
 * each the sentences in it, each with its id and words.
 */
module FoliaConverter {
  import opened Wrappers
  import opened Text
  import opened AlpinoBrackets
  import FoliaReader
  import AlpinoWrappers
  import LegacyProbe

  /** What the converter asks of a word: its text and its correction, if any. */
  datatype Word = Word(text: string, correction: FoliaReader.Correction)

  datatype Sentence = Sentence(id: string, words: seq<Word>)

  /** A parsed FoLiA file: its paragraphs in order, each the sentences in it. */
  datatype FoliaFile = FoliaFile(paragraphs: seq<seq<Sentence>>)

  // Words

  /** The word has a correction with a text other than its own. */
  predicate Corrected(w: Word) {
    w.correction.Correction? && w.correction.text.Some? && w.correction.text.value != w.text
  }

  /** `get_word_string(word)`: a differing correction as an `add_lex` hint, else the escaped text. */
  function WordString(w: Word): string {
    if Corrected(w) then FormatAddLex(w.correction.text.value, w.text) else EscapeWord(w.text)
  }

  /**
   * The word string gives the word back to the parser: a corrected word
   * reads back as its correction and its text, and any other word unescapes
   * to its text.
   */
  lemma WordStringReadsBack(w: Word)
    ensures Corrected(w) && ' ' !in w.correction.text.value ==>
              ParseAddLex(WordString(w)) == Some((w.correction.text.value, w.text))
    ensures !Corrected(w) ==> Unescape(WordString(w)) == w.text
  {
    if Corrected(w) {
      if ' ' !in w.correction.text.value {
        AddLexRoundTrip(w.correction.text.value, w.text);
      }
    } else {
      EscapeWordRoundTrip(w.text);
    }
  }

  /** The word as the newer reader sees it, without a lemma or a part-of-speech tag. */
  function AsReaderWord(w: Word): FoliaReader.Word {
    FoliaReader.Word(Some(w.text), w.correction, None, None)
  }

  /** The older word string is the newer reader's for a word without a lemma hint. */
  lemma WordStringAsReader(w: Word)
    ensures WordString(w) == FoliaReader.WordString(AsReaderWord(w))
  {
  }

  function WordStrings(words: seq<Word>): (r: seq<string>)
    ensures |r| == |words| && forall i :: 0 <= i < |words| ==> r[i] == WordString(words[i])
  {
    seq(|words|, i requires 0 <= i < |words| => WordString(words[i]))
  }

  // Sentences

  /** `get_sentence(sentence)`: the word strings joined by single spaces, the escaped id, and no metadata. */
  function SentenceLine(s: Sentence): AlpinoWrappers.Line {
    AlpinoWrappers.Line(Join(" ", WordStrings(s.words)), EscapeId(s.id), [])
  }

  lemma {:induction false} NonEmptyKeeps(xs: seq<string>)
    requires forall i :: 0 <= i < |xs| ==> xs[i] != ""
    ensures FoliaReader.NonEmpty(xs) == xs
  {
    if xs != [] {
      NonEmptyKeeps(xs[1..]);
      assert xs == [xs[0]] + xs[1..];
    }
  }

  /**
   * The id carries no `|` and unescapes to the sentence id with every `|`
   * read as `_`; the line is the newer reader's line for the same words
   * whenever no word string is empty.
   */
  lemma SentenceLineFacts(s: Sentence)
    ensures '|' !in SentenceLine(s).id
    ensures Unescape(SentenceLine(s).id) == ReplaceChar(s.id, '|', "_")
    ensures var readerWords := seq(|s.words|, i requires 0 <= i < |s.words| => AsReaderWord(s.words[i]));
            (forall i :: 0 <= i < |s.words| ==> WordString(s.words[i]) != "") ==>
              SentenceLine(s).text == FoliaReader.SentenceLine(readerWords)
  {
    EscapeIdNoBar(s.id);
    EscapeWordRoundTrip(ReplaceChar(s.id, '|', "_"));
    var readerWords := seq(|s.words|, i requires 0 <= i < |s.words| => AsReaderWord(s.words[i]));
    assert FoliaReader.WordStrings(readerWords) == WordStrings(s.words);
    if forall i :: 0 <= i < |s.words| ==> WordString(s.words[i]) != "" {
      NonEmptyKeeps(WordStrings(s.words));
    }
  }

  /** Unlike the newer reader, an empty word string still takes its place: two of them make a single space. */
  lemma EmptyWordsKept(id: string, w: Word)
    requires WordString(w) == ""
    ensures SentenceLine(Sentence(id, [w, w])).text == " "
    ensures FoliaReader.SentenceLine([AsReaderWord(w), AsReaderWord(w)]) == ""
  {
    assert WordStrings([w, w]) == ["", ""];
    assert Join(" ", ["", ""]) == "" + " " + Join(" ", [""]);
    assert FoliaReader.WordStrings([AsReaderWord(w), AsReaderWord(w)]) == ["", ""];
    assert FoliaReader.NonEmpty(["", ""]) == [] + FoliaReader.NonEmpty([""]);
    assert FoliaReader.NonEmpty([""]) == [] + FoliaReader.NonEmpty([]);
  }

  /** The sentences of paragraphs in order. */
  function ParagraphSentences(paragraphs: seq<seq<Sentence>>): seq<Sentence>
    decreases |paragraphs|
  {
    if paragraphs == [] then []
    else ParagraphSentences(paragraphs[..|paragraphs| - 1]) + paragraphs[|paragraphs| - 1]
  }

  /** The sentences of files in order: file by file, paragraph by paragraph. */
  function FileSentences(files: seq<FoliaFile>): seq<Sentence>
    decreases |files|
  {
    if files == [] then []
    else FileSentences(files[..|files| - 1]) + ParagraphSentences(files[|files| - 1].paragraphs)
  }

  lemma {:induction false} ParagraphSentencesAppend(a: seq<seq<Sentence>>, b: seq<seq<Sentence>>)
    ensures ParagraphSentences(a + b) == ParagraphSentences(a) + ParagraphSentences(b)
    decreases |b|
  {
    if b != [] {
      var b' := b[..|b| - 1];
      ParagraphSentencesAppend(a, b');
      assert (a + b)[..|a + b| - 1] == a + b';
      assert (a + b)[|a + b| - 1] == b[|b| - 1];
    } else {
      assert a + b == a;
    }
  }

  lemma {:induction false} FileSentencesAppend(a: seq<FoliaFile>, b: seq<FoliaFile>)
    ensures FileSentences(a + b) == FileSentences(a) + FileSentences(b)
    decreases |b|
  {
    if b != [] {
      var b' := b[..|b| - 1];
      FileSentencesAppend(a, b');
      assert (a + b)[..|a + b| - 1] == a + b';
      assert (a + b)[|a + b| - 1] == b[|b| - 1];
    } else {
      assert a + b == a;
    }
  }

  /**
   * The order of `get_sentences`: the sentences of file `i` come after those
   * of the files before it and before those of the files after it, and
   * within the file paragraph `j`'s sentences come in their own order after
   * those of the paragraphs before it.
   */
  lemma SentenceOrder(files: seq<FoliaFile>, i: nat, j: nat)
    requires i < |files| && j < |files[i].paragraphs|
    ensures FileSentences(files) ==
              FileSentences(files[..i]) + ParagraphSentences(files[i].paragraphs) + FileSentences(files[i + 1..])
    ensures ParagraphSentences(files[i].paragraphs) ==
              ParagraphSentences(files[i].paragraphs[..j]) + files[i].paragraphs[j] + ParagraphSentences(files[i].paragraphs[j + 1..])
  {
    assert files == files[..i] + [files[i]] + files[i + 1..];
    FileSentencesAppend(files[..i] + [files[i]], files[i + 1..]);
    FileSentencesAppend(files[..i], [files[i]]);
    assert FileSentences([files[i]]) == [] + ParagraphSentences(files[i].paragraphs);
    var ps := files[i].paragraphs;
    assert ps == ps[..j] + [ps[j]] + ps[j + 1..];
    ParagraphSentencesAppend(ps[..j] + [ps[j]], ps[j + 1..]);
    ParagraphSentencesAppend(ps[..j], [ps[j]]);
    assert ParagraphSentences([ps[j]]) == [] + ps[j];
  }

  function Lines(sentences: seq<Sentence>): (r: seq<AlpinoWrappers.Line>)
    ensures |r| == |sentences| && forall i :: 0 <= i < |r| ==> r[i] == SentenceLine(sentences[i])
  {
    seq(|sentences|, i requires 0 <= i < |sentences| => SentenceLine(sentences[i]))
  }

  /** The two inner loops of `get_sentences`: one line per sentence of one file, paragraph by paragraph. */
  method FileLines(file: FoliaFile) returns (r: seq<AlpinoWrappers.Line>)
    ensures |r| == |ParagraphSentences(file.paragraphs)|
    ensures forall n :: 0 <= n < |r| ==> r[n] == SentenceLine(ParagraphSentences(file.paragraphs)[n])
  {
    var paragraphs := file.paragraphs;
    r := [];
    ghost var done: seq<Sentence> := [];
    for j := 0 to |paragraphs|
      invariant done == ParagraphSentences(paragraphs[..j])
      invariant |r| == |done| && forall n :: 0 <= n < |r| ==> r[n] == SentenceLine(done[n])
    {
      var sentences := paragraphs[j];
      for k := 0 to |sentences|
        invariant done == ParagraphSentences(paragraphs[..j]) + sentences[..k]
        invariant |r| == |done| && forall n :: 0 <= n < |r| ==> r[n] == SentenceLine(done[n])
      {
        r := r + [SentenceLine(sentences[k])];
        done := done + [sentences[k]];
        assert sentences[..k + 1] == sentences[..k] + [sentences[k]];
      }
      assert paragraphs[..j + 1][..j] == paragraphs[..j];
      assert sentences[..|sentences|] == sentences;
    }
    assert paragraphs[..|paragraphs|] == paragraphs;
  }

  /** `get_sentences(file_names)`: one line per sentence, file by file, paragraph by paragraph. */
  method GetSentences(files: seq<FoliaFile>) returns (r: seq<AlpinoWrappers.Line>)
    ensures r == Lines(FileSentences(files))
  {
    r := [];
    for i := 0 to |files|
      invariant |r| == |FileSentences(files[..i])|
      invariant forall n :: 0 <= n < |r| ==> r[n] == SentenceLine(FileSentences(files[..i])[n])
    {
      var more := FileLines(files[i]);
      assert files[..i + 1][..i] == files[..i];
      ghost var before := FileSentences(files[..i]);
      ghost var added := ParagraphSentences(files[i].paragraphs);
      assert FileSentences(files[..i + 1]) == before + added;
      r := r + more;
    }
    assert files[..|files|] == files;
  }

  /** `get_parses(file_names)`: the wrapper's `parse_lines` over the sentences. */
  method GetParses(wrapper: AlpinoWrappers.Wrapper, files: seq<FoliaFile>) returns (r: AlpinoWrappers.Parsed)
    ensures wrapper.Passthrough? ==> r == AlpinoWrappers.Passed(Lines(FileSentences(files)))
    ensures wrapper.Service? ==>
              r == AlpinoWrappers.Chunked(AlpinoWrappers.Chunks(wrapper.service.server, wrapper.service.prefixId, Lines(FileSentences(files))))
  {
    var sentences := GetSentences(files);
    r := AlpinoWrappers.ParseLines(wrapper, sentences);
  }

  /** `test_file(file_name)`: a `<FoLiA` tag in one of the first five lines, before the end of the file. */
  method TestFile(lines: seq<string>) returns (r: bool)
    ensures r <==> exists i :: 0 <= i < LegacyProbe.Lines && i < |lines| &&
                             Contains(lines[i], "<FoLiA") && LegacyProbe.NotEndedBy(lines, i)
  {
    r := LegacyProbe.TestLines(lines, "<FoLiA");
    LegacyProbe.ProbeFinds(lines, "<FoLiA", LegacyProbe.Lines);
  }
}
