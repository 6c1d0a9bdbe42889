/**
 * The first `folia2alpino` script: every FoLiA sentence becomes the string
 * `id|words` that Alpino reads in prefix mode, and with a server each is
 * parsed in turn inside a treebank. The FoLiA parser and the server are
 * inputs; a word is read as the older converter reads it.
 */
module Folia2Alpino {
  import opened Wrappers
  import opened Text
  import opened AlpinoBrackets
  import AlpinoAnnotator
  import AlpinoWrappers
  import FoliaConverter

  /** `get_sentence(sentence)`: the escaped id, a `|`, and the word strings joined by single spaces. */
  function SentenceString(s: FoliaConverter.Sentence): string {
    EscapeId(s.id) + "|" + Join(" ", FoliaConverter.WordStrings(s.words))
  }

  lemma {:induction false} FindAfterBarFree(c: string, w: string)
    requires '|' !in c
    ensures Find(c + "|" + w, "|") == Some(|c|)
    decreases |c|
  {
    var s := c + "|" + w;
    if c != [] {
      assert s[0] == c[0] && c[0] in c;
      assert !("|" <= s);
      assert s[1..] == c[1..] + "|" + w;
      FindAfterBarFree(c[1..], w);
    }
  }

  /**
   * The string is the converter's line in the form Alpino reads in prefix
   * mode: the first `|` ends the escaped id, and with the closing empty line
   * it is the prefix-mode request of the newer wrappers.
   */
  lemma SentenceStringSplits(s: FoliaConverter.Sentence)
    ensures var line := FoliaConverter.SentenceLine(s);
            && Find(SentenceString(s), "|") == Some(|line.id|)
            && SentenceString(s)[..|line.id|] == line.id
            && SentenceString(s)[|line.id| + 1..] == line.text
            && SentenceString(s) + "\n\n" == AlpinoAnnotator.Request(true, line.text, line.id)
  {
    EscapeIdNoBar(s.id);
    FindAfterBarFree(EscapeId(s.id), Join(" ", FoliaConverter.WordStrings(s.words)));
  }

  /** The sentence strings of files in order: file by file, paragraph by paragraph. */
  function Strings(sentences: seq<FoliaConverter.Sentence>): (r: seq<string>)
    ensures |r| == |sentences| && forall i :: 0 <= i < |r| ==> r[i] == SentenceString(sentences[i])
  {
    seq(|sentences|, i requires 0 <= i < |sentences| => SentenceString(sentences[i]))
  }

  lemma StringsAppend(a: seq<FoliaConverter.Sentence>, b: seq<FoliaConverter.Sentence>)
    ensures Strings(a + b) == Strings(a) + Strings(b)
  {
  }

  /** The two inner loops of `get_sentences` for one file. */
  method FileStrings(file: FoliaConverter.FoliaFile) returns (r: seq<string>)
    ensures r == Strings(FoliaConverter.ParagraphSentences(file.paragraphs))
  {
    var paragraphs := file.paragraphs;
    r := [];
    ghost var done: seq<FoliaConverter.Sentence> := [];
    for j := 0 to |paragraphs|
      invariant done == FoliaConverter.ParagraphSentences(paragraphs[..j])
      invariant r == Strings(done)
    {
      var sentences := paragraphs[j];
      for k := 0 to |sentences|
        invariant done == FoliaConverter.ParagraphSentences(paragraphs[..j]) + sentences[..k]
        invariant r == Strings(done)
      {
        r := r + [SentenceString(sentences[k])];
        done := done + [sentences[k]];
        assert sentences[..k + 1] == sentences[..k] + [sentences[k]];
      }
      assert paragraphs[..j + 1][..j] == paragraphs[..j];
      assert sentences[..|sentences|] == sentences;
    }
    assert paragraphs[..|paragraphs|] == paragraphs;
  }

  /** `get_sentences(file_names)` */
  method GetSentences(files: seq<FoliaConverter.FoliaFile>) returns (r: seq<string>)
    ensures r == Strings(FoliaConverter.FileSentences(files))
  {
    r := [];
    for i := 0 to |files|
      invariant r == Strings(FoliaConverter.FileSentences(files[..i]))
    {
      var more := FileStrings(files[i]);
      assert files[..i + 1][..i] == files[..i];
      ghost var before := FoliaConverter.FileSentences(files[..i]);
      ghost var added := FoliaConverter.ParagraphSentences(files[i].paragraphs);
      assert FoliaConverter.FileSentences(files[..i + 1]) == before + added;
      StringsAppend(before, added);
      r := r + more;
    }
    assert files[..|files|] == files;
  }

  // Parsing

  /**
   * `AlpinoWrapper.parse(line, True)`: the server's response to the line and
   * an empty line, its first line dropped and its last line right-stripped.
   */
  function Parse(server: string -> string, line: string): Result<string> {
    match AlpinoWrappers.StripLines(SplitLines(server(line + "\n\n")))
    case Err(e) => Err(e)
    case Ok(kept) => Ok(Join("\n", kept))
  }

  /** The parse of a sentence string is the newer service wrapper's stripped parse in prefix mode. */
  lemma ParseAsService(server: string -> string, s: FoliaConverter.Sentence)
    ensures var line := FoliaConverter.SentenceLine(s);
            Parse(server, SentenceString(s)) == AlpinoWrappers.ParseOf(server, true, line)
  {
    SentenceStringSplits(s);
  }

  function Results(server: string -> string, strings: seq<string>): (r: seq<Result<string>>)
    ensures |r| == |strings| && forall i :: 0 <= i < |r| ==> r[i] == Parse(server, strings[i])
  {
    seq(|strings|, i requires 0 <= i < |strings| => Parse(server, strings[i]))
  }

  /** What `get_parses` yields: the header, the parses and the footer, or the first failure. */
  function Parses(server: string -> string, files: seq<FoliaConverter.FoliaFile>): Result<seq<string>> {
    match Collect(Results(server, Strings(FoliaConverter.FileSentences(files))))
    case Err(e) => Err(e)
    case Ok(ps) => Ok([AlpinoWrappers.Header] + ps + [AlpinoWrappers.Footer])
  }

  /** `get_parses(file_names, host, port)` */
  method GetParses(server: string -> string, files: seq<FoliaConverter.FoliaFile>) returns (r: Result<seq<string>>)
    ensures r == Parses(server, files)
  {
    var sentences := GetSentences(files);
    ghost var rs := Results(server, sentences);
    var parses: seq<string> := [];
    for i := 0 to |sentences|
      invariant Collect(rs[..i]) == Ok(parses)
    {
      var parsed := Parse(server, sentences[i]);
      CollectStep(rs, i, parses);
      if parsed.Err? {
        CollectErr(rs, i + 1);
        return Err(parsed.error);
      }
      parses := parses + [parsed.value];
    }
    assert rs[..|sentences|] == rs;
    return Ok([AlpinoWrappers.Header] + parses + [AlpinoWrappers.Footer]);
  }

  /**
   * The script yields what the newer converter's service wrapper yields in
   * prefix mode for the same sentences: the header, one stripped parse per
   * sentence in order, and the footer.
   */
  lemma ParsesAsService(server: string -> string, files: seq<FoliaConverter.FoliaFile>)
    ensures Parses(server, files) ==
              AlpinoWrappers.Chunks(server, true, FoliaConverter.Lines(FoliaConverter.FileSentences(files)))
  {
    var sentences := FoliaConverter.FileSentences(files);
    var mine := Results(server, Strings(sentences));
    var theirs := AlpinoWrappers.Results(server, true, FoliaConverter.Lines(sentences));
    forall i | 0 <= i < |sentences|
      ensures mine[i] == theirs[i]
    {
      ParseAsService(server, sentences[i]);
    }
    assert mine == theirs;
  }
}
