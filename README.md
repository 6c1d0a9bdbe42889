# corpus2alpino, modelled in Dafny

corpus2alpino turns annotated text corpora into input for the Alpino
dependency parser of Dutch, and optionally into Alpino's parses. A
collector yields files; a reader turns each file into documents of
utterances with metadata; annotators add to each document (the parse an
Alpino server returns, or attributes copied onto parse nodes from an
enrichment table); a writer renders the document to a target; and the
target's output is handed back one document at a time.

This project models that core as Dafny datatypes, functions, classes and
methods, and proves properties of it:

- the readers: the format dispatcher, the TEI reader with its sentence
  emitter, the PaQu plain-text reader and the FoLiA reader, and the bracket
  syntax they use to pass word hints to Alpino;
- the annotators: the Alpino server annotator and client, and the Lassy
  enrichment annotator;
- the writers: the PaQu metadata writer and the Lassy XML writer, and the
  in-memory target;
- the conversion pipeline that drives them;
- the older converters kept in the repository: the FoLiA and TEI converters,
  the older PaQu writer and bracket helpers, the `folia2alpino` script and
  package, and its Alpino service and passthrough wrappers.

Python dicts are insertion-ordered association lists (module `Dicts`), so
that every output whose order depends on dict iteration keeps that order.
Errors the source raises are `Err` values of a `Result`. The parsers of
FoLiA, TEI and XML, the tokenizer, the Alpino server and the file system are
function parameters or input datatypes. Regular expressions are written out
as scanners.

## Model

Several files carry their own copies of a function. The model defines each one
once, and its row cites the newest copy:
- `escape_id`, `escape_word` and `format_add_lex` also appear in
  `corpus2alpino/alpino_brackets.py:2-31`, `corpus2alpino/tei_converter.py:92-104`,
  `corpus2alpino/folia_converter.py:65-77` and `folia2alpino.py:93-106`. Each
  of these is modelled by the `AlpinoBrackets` member of the same name.
- `get_word_string` in `folia2alpino.py:78-90` is
  `FoliaConverter.WordString`.

| member | source | states |
|---|---|---|
| Models.TextValue | corpus2alpino/models.py:14-17 | a metadata value keeps its value and its type defaults to `text` |
| AlpinoBrackets.FormatFolia | corpus2alpino/readers/alpino_brackets.py:10-15 | the hint is empty exactly when the word is empty |
| AlpinoBrackets.EscapeWordIsEscapeEach | corpus2alpino/readers/alpino_brackets.py:26-31 | the two chained replacements equal the character-by-character escape: each `[` and `]` gets a backslash in front, every other character is kept |
| AlpinoBrackets.EscapeWordLength | corpus2alpino/readers/alpino_brackets.py:26-31 | the escaped word is longer than the word by exactly its number of brackets |
| AlpinoBrackets.EscapeWordNoBrackets | corpus2alpino/readers/alpino_brackets.py:31 | a word without brackets is returned unchanged |
| AlpinoBrackets.EscapeEachHead | corpus2alpino/readers/alpino_brackets.py:26-31 | a non-empty escaped word never starts with a bracket |
| AlpinoBrackets.EscapeWordRoundTrip | corpus2alpino/readers/alpino_brackets.py:26-31 | unescaping gives the word back, so different words escape differently |
| AlpinoBrackets.EscapeIdNoBar | corpus2alpino/readers/alpino_brackets.py:18-23 | an escaped id contains no `|` |
| AlpinoBrackets.AddLexRoundTrip | corpus2alpino/readers/alpino_brackets.py:2-7 | reading the `[ @add_lex … ]` hint back gives the correction and the word, when the correction holds no space |
| LegacyBrackets.FormatFolia | corpus2alpino/alpino_brackets.py:10-15 | the older copy always wraps: `[ @folia ` … ` ]`, 13 characters longer than lemma, tag and word together |
| LegacyBrackets.FormatFoliaCopies | corpus2alpino/alpino_brackets.py:10-15 | the two copies agree on every non-empty word, and only the newer gives `''` for the empty word |
| MemoryTargets.MemoryTarget.constructor | corpus2alpino/targets/memory.py:12 | the buffer starts empty |
| MemoryTargets.MemoryTarget.Write | corpus2alpino/targets/memory.py:14-22 | the content is appended to the buffer; document, filename and suffix play no part |
| MemoryTargets.MemoryTarget.Flush | corpus2alpino/targets/memory.py:24-28 | returns the buffer and leaves it empty |
| MemoryTargets.MemoryTarget.Close | corpus2alpino/targets/memory.py:30-31 | changes nothing |
| MemoryTargets.FlushTwice | corpus2alpino/targets/memory.py:24-28 | a second flush with no write in between returns `''` |
| AutoReader.FirstAccepting | corpus2alpino/readers/auto.py:29-33 | the position found accepts the file and no earlier reader does; none is found exactly when no reader accepts |
| AutoReader.FirstAcceptingAt | corpus2alpino/readers/auto.py:30-32 | the first accepting reader is the one chosen |
| AutoReader.Dispatch | corpus2alpino/readers/auto.py:27-39 | `test_file` holds iff some reader in the order CHAT, FoLiA, Lassy, PaQu, TEI accepts; `read` is the first accepting reader's documents, and empty when none accepts |
| AutoReader.ReadEmpty | corpus2alpino/readers/auto.py:29-39 | `read` is empty exactly when every reader that accepts the file, with no accepting reader before it, yields nothing; so also when no reader accepts the file |
| TeiEmitter.AlignableOnly | corpus2alpino/readers/tei.py:44-45 | the filter keeps only alignable characters (letters, `àéëüïóò`, digits and `,.:;`) and never lengthens the text |
| TeiEmitter.AlignableOnlyIdempotent | corpus2alpino/readers/tei.py:44-45 | text of alignable characters only passes the filter unchanged |
| TeiEmitter.PartLengthFrom | corpus2alpino/readers/tei.py:67-85 | a successful alignment ends within the sentence, never before where it started |
| TeiEmitter.GetPartLength | corpus2alpino/readers/tei.py:67-85 | the loop returns the recursive definition's result, error cases included |
| TeiEmitter.PartEndsInside | corpus2alpino/readers/tei.py:73-77 | when the part ends inside the sentence it stops at an alignable character with every part character matched, and the sentence's alignable characters before that point are exactly the rest of the part |
| TeiEmitter.PartRunsOver | corpus2alpino/readers/tei.py:73-85 | when the part does not end inside the sentence the length is the whole sentence and the sentence's alignable characters are the next part characters in order |
| TeiEmitter.PartLengthFails | corpus2alpino/readers/tei.py:73-82 | alignment fails exactly when neither the sentence's alignable characters nor the rest of the part is a prefix of the other |
| TeiEmitter.EmitConsumes | corpus2alpino/readers/tei.py:47-65 | the pieces one call yields, followed by the text still left, are exactly the text left before: each sentence (with its newline) is handed out once and in order |
| TeiEmitter.EmitPast | corpus2alpino/readers/tei.py:56-65 | a part running past the current sentence takes all the rest of it, then continues with the next sentence from offset 0 |
| TeiEmitter.TokenizedSentenceEmitter.constructor | corpus2alpino/readers/tei.py:39-42 | the emitter starts at offset 0 of the given sentences |
| TeiEmitter.TokenizedSentenceEmitter.GetSentences | corpus2alpino/readers/tei.py:47-65 | the pieces yielded and the new sentences and offset are those of the emitter definition; an alignment error is passed on |
| TeiReader.ElementMetadataKeys | corpus2alpino/readers/tei.py:172-179 | exactly the keys named by some attribute are present |
| TeiReader.ElementMetadataValues | corpus2alpino/readers/tei.py:172-179 | each key holds its attributes' texts joined by `' | '` in attribute order, typed `text` |
| TeiReader.GetElementMetadata | corpus2alpino/readers/tei.py:172-179 | the loop builds the element metadata: first occurrence creates, later ones append |
| TeiReader.MergedValueSymmetric | corpus2alpino/readers/tei.py:193-196 | the sorted, de-duplicated union does not depend on the order of the two sides |
| TeiReader.Shared | corpus2alpino/readers/tei.py:191-196 | exactly the keys on both sides, each holding the merged value |
| TeiReader.MergeSiblingFacts | corpus2alpino/readers/tei.py:188-197 | keys are the union in `{**prev, **current}` order; a key on one side keeps that value; a key on both sides gets the sorted, de-duplicated `' | '` union |
| TeiReader.Winning | corpus2alpino/readers/tei.py:202-207 | exactly the parent's `tei-tag` and `id` entries, with the parent's values |
| TeiReader.MergeChildFacts | corpus2alpino/readers/tei.py:199-208 | keys are those of `{**parent, **child}`; the child's value wins except for `tei-tag` and `id`, where the parent's wins whenever it has them |
| TeiReader.InlineMetadata | corpus2alpino/readers/tei.py:254-284 | the metadata left is the given map minus `lemma` and the chosen `pos`/`type` key exactly when a lemma hint is written (no `q` tag, `lemma` with `pos` or `type`); no value changes |
| TeiReader.InlineMetadataOnce | corpus2alpino/readers/tei.py:273-282 | after a lemma hint is written the map it leaves yields no second hint, so the second `inline_metadata` of the same part only collapses spaces |
| TeiReader.InlineMetadataPlain | corpus2alpino/readers/tei.py:260-284 | text without double spaces, with no `q` tag and no lemma, comes through unchanged with its metadata |
| TeiReader.LowestLeaves | corpus2alpino/readers/tei.py:160-170 | one path per childless division; each path runs child by child from one of the divisions to a childless one, after the given path, with descendant metadata overriding ancestor metadata |
| TeiReader.LowestUnderLeaves | corpus2alpino/readers/tei.py:161-170 | the same for the paths yielded under a single division |
| TeiReader.Basename | corpus2alpino/readers/tei.py:151 | the result is the text after the last `/` of the path |
| TeiReader.UniqueIds.constructor | corpus2alpino/readers/tei.py:103 | the counters of a document start empty |
| TeiReader.UniqueIds.DetermineId | corpus2alpino/readers/tei.py:145-158 | the id is the escaped document id, else the escaped sentence id, else the file's basename; a new base is used as is with counter 0, the k-th repeat gets `_k` and bumps the counter |
| TeiReader.AssignIds | corpus2alpino/readers/tei.py:145-158 | a run of `determine_id` calls gives one id per sentence |
| TeiReader.AssignIdsCounts | corpus2alpino/readers/tei.py:153-158 | after a run, exactly the bases used have counters, each one less than its number of uses |
| TeiReader.AssignIdsNumbers | corpus2alpino/readers/tei.py:153-158 | the i-th sentence's id is its base numbered by how many earlier sentences had the same base |
| TeiReader.IdsCanCollide | corpus2alpino/readers/tei.py:153-158 | the ids are not always unique: a base that already ends in `_1` meets the numbered repeat of a shorter base |
| TeiReader.AnnotatePartsAdvance | corpus2alpino/readers/tei.py:210-245 | annotating parts keeps the sentence emitter's state well formed and only moves it forward: the text it has left is a suffix of what it had |
| TeiReader.AnnotatePartAdvance | corpus2alpino/readers/tei.py:212-245 | the same for a single part |
| TeiReader.Aggregated | corpus2alpino/readers/tei.py:115-124 | one more sentence than there are sentence ends among the items |
| TeiReader.AggregatedText | corpus2alpino/readers/tei.py:115-124 | the sentences together hold all the items' text, in order |
| TeiReader.Aggregate | corpus2alpino/readers/tei.py:115-124 | the loop builds the aggregated sentences |
| TeiReader.Utterances | corpus2alpino/readers/tei.py:126-141 | one utterance per kept sentence |
| TeiReader.UtteranceIds | corpus2alpino/readers/tei.py:126-141 | the utterances name their sentences in order with the ids a run of `determine_id` gives their bases |
| TeiReader.UtteranceCounts | corpus2alpino/readers/tei.py:153-158 | the utterances leave the counters that run leaves |
| TeiReader.DivisionUtterances | corpus2alpino/readers/tei.py:126-141 | empty sentences are skipped; each other gets the division's metadata merged as parent and an id from the shared counters |
| TeiReader.ReadDivision | corpus2alpino/readers/tei.py:108-141 | a lowest division's parts are annotated against the tokenizer's sentences, aggregated and named; an alignment error is passed on |
| TeiReader.ReadLeaves | corpus2alpino/readers/tei.py:106-141 | the lowest divisions are read in turn with one set of counters per document; the first alignment error ends the reading |
| TeiReader.ReadDocument | corpus2alpino/readers/tei.py:101-143 | one document: its utterances over all lowest divisions, with the document's own metadata |
| TeiReader.Read | corpus2alpino/readers/tei.py:98-143 | one document per parsed TEI document, in order; the first error ends the reading |
| PaQuReader.MatchMeta | corpus2alpino/readers/paqu.py:14 | a `##META` match gives a non-empty, whitespace-free type and name |
| PaQuReader.MatchId | corpus2alpino/readers/paqu.py:15 | a match splits the line into a non-empty, whitespace-free id, a `|` and the text, the id ending at the last `|` of the leading run; no match means no `|` in that run after its first character |
| PaQuReader.GetSubpath | corpus2alpino/readers/paqu.py:100-106 | the `id` value if present, else `messageid`, else `''` |
| PaQuReader.LineUtterances | corpus2alpino/readers/paqu.py:77-91 | one utterance per tokenizer sentence of line i, the j-th with id `<id>-<j>`, the id falling back to `uttid`, then to `str(i)`; the line field is i and the metadata is the block's |
| PaQuReader.ParseUtterances | corpus2alpino/readers/paqu.py:76-91 | the loop yields the utterances of every text line in order |
| PaQuReader.Kinds | corpus2alpino/readers/paqu.py:35-36 | one classification per line of `splitlines`, each of the stripped line |
| PaQuReader.MakeDocuments | corpus2alpino/readers/paqu.py:51-55 | one document per completed block, in order |
| PaQuReader.NewDocument | corpus2alpino/readers/paqu.py:51-55 | the document of the pending text lines: their utterances, file metadata overlaid by the current metadata, and the subpath of the current metadata |
| PaQuReader.ReadMetaLine | corpus2alpino/readers/paqu.py:48-59 | a metadata line completes the pending text lines, if any, resets both accumulators, then stores its entry |
| PaQuReader.ReadLine | corpus2alpino/readers/paqu.py:36-68 | one line updates the reader's variables as the line step does and yields the documents it completes |
| PaQuReader.Read | corpus2alpino/readers/paqu.py:28-74 | the documents are those completed by metadata lines, then the one pending at the end |
| PaQuReader.FinalDocument | corpus2alpino/readers/paqu.py:70-74 | one document per block closed by a metadata line, then exactly one more for text still pending at the end; a file ending in a text line ends with the document holding that line last |
| PaQuReader.BlankLine | corpus2alpino/readers/paqu.py:37-44 | at a blank line, non-empty metadata read before the first blank line becomes file metadata and the current map is reset; later blank lines change nothing else |
| PaQuReader.MetaLineStores | corpus2alpino/readers/paqu.py:58-59 | a metadata line stores `MetadataValue(value, type)` under its name |
| PaQuReader.MetaLineAfterText | corpus2alpino/readers/paqu.py:49-59 | a metadata line after text closes the pending block; the reader goes on with only the new entry and the same file metadata |
| PaQuReader.DocumentMetadata | corpus2alpino/readers/paqu.py:51-55 | a document's metadata is the file metadata overlaid by the block's current metadata, and its subpath comes from the current metadata |
| PaQuReader.FileMetadataSettles | corpus2alpino/readers/paqu.py:37-44 | after any blank line the file metadata never changes again |
| PaQuReader.ScanWithoutText | corpus2alpino/readers/paqu.py:50-70 | lines without a text line leave neither pending text nor completed blocks, and conversely |
| PaQuReader.NoTextNoDocuments | corpus2alpino/readers/paqu.py:28-74 | a file yields no document exactly when it has no text line |
| PaQuWriter.ChangedAmong | corpus2alpino/writers/paqu.py:58-61 | exactly the listed keys whose entries changed, in the order given |
| PaQuWriter.ChangedKeys | corpus2alpino/writers/paqu.py:57-61 | the keys written are exactly those that are new or whose value string differs (the type is not compared), in strictly increasing order |
| PaQuWriter.MetadataItems | corpus2alpino/writers/paqu.py:57-61 | one `##META type key = value` line per changed key, in key order |
| PaQuWriter.AllItemsWithoutPrevious | corpus2alpino/writers/paqu.py:58-61 | with no previous map every key is written, in sorted order |
| PaQuWriter.ResetFor | corpus2alpino/writers/paqu.py:44-49 | exactly the previously seen keys the utterance lacks, each with an empty `text` value |
| PaQuWriter.Resets | corpus2alpino/writers/paqu.py:44-49 | the reset loop builds those entries in the previous map's order |
| PaQuWriter.EffectiveEntries | corpus2alpino/writers/paqu.py:44-51 | the effective metadata has every key seen before, of the document and of the utterance; the utterance's value wins, then the document's, and a key only seen before is empty |
| PaQuWriter.PrevKeysKept | corpus2alpino/writers/paqu.py:36-55 | keys are never removed from the previous map |
| PaQuWriter.AbsentKeyOnce | corpus2alpino/writers/paqu.py:47-60 | a key seen before and absent from the document and the utterance is written once with an empty value (unless already empty) and not again while it stays absent |
| PaQuWriter.SameEntriesEmpty | corpus2alpino/writers/paqu.py:52-53 | maps with the same entries are empty together, so the display choice depends only on the entries |
| PaQuWriter.EffectiveSame | corpus2alpino/writers/paqu.py:36-51 | an utterance that repeats only document entries, after a previous map equal to the document's, is in force with exactly the document's entries |
| PaQuWriter.NothingChanged | corpus2alpino/writers/paqu.py:57-61 | metadata equal to the previous map writes no line |
| PaQuWriter.SubMapStep | corpus2alpino/writers/paqu.py:44-55 | such an utterance writes no `##META` line and leaves the previous map equal to the document's |
| PaQuWriter.SilentChunk | corpus2alpino/writers/paqu.py:52-55 | such an utterance is written as `id|text` and a blank line, after one empty line when the document has metadata |
| PaQuWriter.SubMapSilent | corpus2alpino/writers/paqu.py:36-60 | if every utterance's metadata is a sub-map of the document's, no utterance gets a `##META` line |
| PaQuWriter.Chunks | corpus2alpino/writers/paqu.py:38-55 | one chunk per utterance |
| PaQuWriter.OutputUtterance | corpus2alpino/writers/paqu.py:44-55 | one turn gives `<display><id>|<text>` and a blank line, the display empty for empty effective metadata and otherwise the changed lines each ended by a line break, and the previous map overlaid by the effective metadata |
| PaQuWriter.OutputUtterances | corpus2alpino/writers/paqu.py:31-55 | the loop yields the chunks, the previous map starting as a copy of the document's |
| PaQuWriter.Tagged | corpus2alpino/writers/paqu.py:22-29 | one write per content, each with suffix `.txt` and no filename |
| PaQuWriter.Header | corpus2alpino/writers/paqu.py:20-26 | the document's lines in key order, each ended by a line break, then one `'\n'` only if there was at least one |
| PaQuWriter.Write | corpus2alpino/writers/paqu.py:19-29 | the target receives the header, then the utterance chunks, in order |
| StringOrder.SortedSet | corpus2alpino/writers/paqu.py:58 | `sorted` gives every key once, in strictly increasing code-point order |
| LegacyPaQuWriter.MutableDict.constructor | corpus2alpino/paqu_writer.py:28 | `{**d}` makes a fresh dict with the same entries |
| LegacyPaQuWriter.MutableDict.Clear | corpus2alpino/paqu_writer.py:41 | `clear()` empties the dict in place |
| LegacyPaQuWriter.MutableDict.Update | corpus2alpino/paqu_writer.py:42 | `update(other)` overlays the other map's entries in place |
| LegacyPaQuWriter.Items | corpus2alpino/paqu_writer.py:34-38 | at most one line per entry |
| LegacyPaQuWriter.ItemsMembers | corpus2alpino/paqu_writer.py:35-38 | a line is written exactly for each entry that is new or whose value differs from the previous map's |
| LegacyPaQuWriter.ItemsWithoutPrevious | corpus2alpino/paqu_writer.py:35-38 | with no previous map every entry is written, in the map's order |
| LegacyPaQuWriter.ItemsUnchanged | corpus2alpino/paqu_writer.py:35-38 | entries the previous map already has with equal values write nothing |
| LegacyPaQuWriter.OutputMetadataItems | corpus2alpino/paqu_writer.py:34-42 | the lines of the changed entries, after which the previous dict, if given, holds exactly the metadata |
| LegacyPaQuWriter.OutputSentence | corpus2alpino/paqu_writer.py:25-32 | one sentence writes the document block when the document metadata differs from the previous one (resetting the previous map to a fresh copy), then its changed lines and `id|line` |
| LegacyPaQuWriter.ParseLines | corpus2alpino/paqu_writer.py:16-32 | the loop yields exactly the specified output for the sentences in order |
| LegacyPaQuWriter.EmitLength | corpus2alpino/paqu_writer.py:24-32 | one string per sentence plus one per document change |
| LegacyPaQuWriter.SameDocumentNoBlock | corpus2alpino/paqu_writer.py:25-28 | sentences of the document already written get no new block |
| LegacyPaQuWriter.OneDocument | corpus2alpino/paqu_writer.py:21-32 | sentences of one document give the document block first, then one string per sentence |
| LegacyPaQuWriter.RepeatedMetadataSilent | corpus2alpino/paqu_writer.py:25-42 | a sentence repeating the previous sentence's metadata in the same document writes no `##META` line and leaves the state unchanged |
| LassyWriter.EscapeAppend | corpus2alpino/writers/lassy.py:82-85 | escaping a concatenation is the concatenation of the escapes (every replacement works on single characters) |
| LassyWriter.EscapeIsEscapeEach | corpus2alpino/writers/lassy.py:82-85 | the chained replacements equal a character-by-character escape: `&`, `<`, `>`, `"`, line feed and `\x15` become entities, `\r` is dropped |
| LassyWriter.EscapedSafe | corpus2alpino/writers/lassy.py:82-85 | the escaped value holds no `<`, no `"` and no line feed or carriage return |
| LassyWriter.ReadEscaped | corpus2alpino/writers/lassy.py:82-85 | reading the attribute back gives the value with `\r` dropped and `\x15` as a middle dot |
| LassyWriter.ReadBackPlain | corpus2alpino/writers/lassy.py:82-85 | a value without `\r` or `\x15` reads back unchanged |
| LassyWriter.RenderValues | corpus2alpino/writers/lassy.py:74-77 | one `<meta type name value />` line per entry, in the map's order |
| LassyWriter.NameAt | corpus2alpino/writers/lassy.py:58-60 | a name found is a non-empty run without `"`, right after `name="` and before a closing `"` |
| LassyWriter.RewriteLine | corpus2alpino/writers/lassy.py:53-67 | one line of the loop keeps the number of lines |
| LassyWriter.RewriteLines | corpus2alpino/writers/lassy.py:52-67 | the loop gives the rewritten lines, the entries still pending and the block position of the specified rewrite, or its `KeyError` |
| LassyWriter.RenderAnnotation | corpus2alpino/writers/lassy.py:36-72 | the rendering equals the specification: the annotation verbatim without metadata or header removal, else the lines with metadata rewritten in place and the rest inserted |
| LassyWriter.RenderKeepsEntries | corpus2alpino/writers/lassy.py:50-70 | every combined entry is either written in place on its `<meta>` line or left for the inserted block, never both |
| LassyWriter.NoBlockUntouched | corpus2alpino/writers/lassy.py:52-67 | without a `<metadata` line nothing is rewritten |
| LassyWriter.NoBlockInsertsWrapped | corpus2alpino/writers/lassy.py:50-72 | then the whole metadata is inserted, wrapped in `<metadata>`, before the last line |
| LassyWriter.NoMetadataVerbatim | corpus2alpino/writers/lassy.py:37-41 | with no metadata and the header kept, the annotation is returned unchanged |
| LassyWriter.RenderAll | corpus2alpino/writers/lassy.py:22-34 | rendering stops at the first failure: all utterances rendered without one, fewer with one |
| LassyWriter.RenderAllSound | corpus2alpino/writers/lassy.py:22-34 | every rendered text is that utterance's rendering, and the failure is the error of the first utterance not rendered |
| LassyWriter.Plain | corpus2alpino/writers/lassy.py:22-23 | merge mode writes each rendering without a file name |
| LassyWriter.Numbered | corpus2alpino/writers/lassy.py:27-34 | split mode writes the `k`-th rendering to `<k>.xml`, counting from 1 |
| LassyWriter.RenderUtterances | corpus2alpino/writers/lassy.py:22-34 | the loop renders the utterances in order up to the first failure |
| LassyWriter.WritePlain | corpus2alpino/writers/lassy.py:22-23 | the merge loop issues the unnamed writes |
| LassyWriter.WriteNumbered | corpus2alpino/writers/lassy.py:27-34 | the split loop issues the numbered writes, the index starting at 1 |
| LassyWriter.WriteRendered | corpus2alpino/writers/lassy.py:17-34 | merge mode adds the treebank header first and the footer only when nothing failed |
| LassyWriter.Write | corpus2alpino/writers/lassy.py:15-34 | `write` issues exactly the specified writes and raises the first rendering error after them |
| LassyWriter.MergedWrites | corpus2alpino/writers/lassy.py:17-25 | merge mode: header, one write per utterance in order, footer |
| LassyWriter.MergeShape | corpus2alpino/writers/lassy.py:17-25 | merge mode renders every utterance without its XML header, between the treebank header and footer |
| LassyWriter.SplitNamesDistinct | corpus2alpino/writers/lassy.py:27-34 | split mode never writes two utterances to the same file name |
| EnrichLassy.MatcherKeys | corpus2alpino/annotators/enrich_lassy.py:48-53 | a key is a matcher exactly when some header is `@` followed by the key |
| EnrichLassy.MatcherColumn | corpus2alpino/annotators/enrich_lassy.py:49-51 | a matcher's column is the last header naming it |
| EnrichLassy.AssignerKeys | corpus2alpino/annotators/enrich_lassy.py:48-53 | a header is an assigner exactly when it does not start with `@` |
| EnrichLassy.AssignerColumn | corpus2alpino/annotators/enrich_lassy.py:52-53 | an assigner's column is the last header equal to it |
| EnrichLassy.Pick | corpus2alpino/annotators/enrich_lassy.py:61-66 | the comprehension keeps exactly the columns whose cell is non-empty, with that cell as value |
| EnrichLassy.RulesErrStays | corpus2alpino/annotators/enrich_lassy.py:57-66 | once a row fails, reading the rest does not recover |
| EnrichLassy.RulesOutcome | corpus2alpino/annotators/enrich_lassy.py:57-66 | reading the rows fails exactly when a non-empty row is too short for some column, and otherwise gives one rule per cell (the rule is appended inside the loop over the row's cells) |
| EnrichLassy.EnrichLassyAnnotator.constructor | corpus2alpino/annotators/enrich_lassy.py:55 | the annotator holds the rules in table order |
| EnrichLassy.Load | corpus2alpino/annotators/enrich_lassy.py:17-66 | loading gives a fresh annotator with the table's rules, or the table's error |
| EnrichLassy.ReadHeaders | corpus2alpino/annotators/enrich_lassy.py:48-53 | the header loop builds the matcher and assigner columns |
| EnrichLassy.ReadRows | corpus2alpino/annotators/enrich_lassy.py:57-66 | the row loop builds the rules or fails with the `IndexError` |
| EnrichLassy.Node.constructor | corpus2alpino/annotators/enrich_lassy.py:80 | a node holds its attribute map |
| EnrichLassy.IsMatch | corpus2alpino/annotators/enrich_lassy.py:95-115 | a node matches exactly when it has every matcher attribute with the matcher's value (a missing attribute does not match); on a match the assigners overwrite its attributes, otherwise nothing changes |
| EnrichLassy.FirstRule | corpus2alpino/annotators/enrich_lassy.py:81-84 | the index of the first matching rule, no earlier rule matching, or none when no rule matches |
| EnrichLassy.EnrichNode | corpus2alpino/annotators/enrich_lassy.py:81-84 | the rules are tried in order and only the first matching rule assigns |
| EnrichLassy.FirstRuleAt | corpus2alpino/annotators/enrich_lassy.py:81-84 | the first rule that matches is the one chosen |
| EnrichLassy.FirstRuleNone | corpus2alpino/annotators/enrich_lassy.py:81-84 | no matching rule, none chosen |
| EnrichLassy.AnyMatchIff | corpus2alpino/annotators/enrich_lassy.py:79-84 | the parse is modified exactly when some node matches some rule |
| EnrichLassy.EnrichNodes | corpus2alpino/annotators/enrich_lassy.py:79-84 | every node is enriched on its own, and `modified` tells whether any matched |
| EnrichLassy.EnrichUtterance | corpus2alpino/annotators/enrich_lassy.py:76-87 | the annotation is re-serialised only when some node matched, and kept as it was otherwise |
| EnrichLassy.NewNodes | corpus2alpino/annotators/enrich_lassy.py:78-80 | one distinct fresh node per `node` element of the parse |
| EnrichLassy.Attributes | corpus2alpino/annotators/enrich_lassy.py:85-87 | the attributes of the nodes as they are after enrichment, in document order |
| EnrichLassy.Annotate | corpus2alpino/annotators/enrich_lassy.py:68-74 | every utterance with a parse is enriched, every one without is left alone and logs one error, in order; the rest of the document is kept |
| EnrichLassy.AnnotatedKeeps | corpus2alpino/annotators/enrich_lassy.py:76-87 | enrichment keeps the utterance's text, id, metadata and other annotations, and a parse nobody matched is left as it was |
| AlpinoClient.ClosingAt | corpus2alpino/annotators/alpino_client.py:20 | the pattern matches only a closing `.`, `?` or `!` right after a non-space, at the end of the line or before a final newline |
| AlpinoClient.NormalizeInsertsSpace | corpus2alpino/annotators/alpino_client.py:86-88 | normalisation changes a line exactly when the pattern matches, and then only inserts one space before the mark |
| AlpinoClient.NormalizeIdempotent | corpus2alpino/annotators/alpino_client.py:86-88 | a normalised line is not changed again |
| AlpinoClient.Request | corpus2alpino/annotators/alpino_client.py:92-94 | the request is the normalised line, prefixed with `<id>|` in prefix mode, followed by an empty line |
| AlpinoClient.Parse | corpus2alpino/annotators/alpino_client.py:74-113 | a response without `<alpino_ds` raises with the response as message, and only then |
| AlpinoClient.PrefixParseVerbatim | corpus2alpino/annotators/alpino_client.py:105-113 | in prefix mode without id injection the response comes back unchanged |
| AlpinoClient.RenamedParseId | corpus2alpino/annotators/alpino_client.py:108-109 | outside prefix mode the first sentence id of the parse becomes the caller's id |
| AlpinoClient.CheckId | corpus2alpino/annotators/alpino_client.py:57-65 | the check keeps the prefix mode and turns on write-id mode only when the parse has no sentence id |
| AlpinoClient.CalibratedIds | corpus2alpino/annotators/alpino_client.py:48-65 | after calibration without write-id mode, parsing the probe gives back the probe's id `42` |
| AlpinoClient.CalibratedWriteId | corpus2alpino/annotators/alpino_client.py:57-61 | write-id mode is on only when the probe's parse in the calibrated prefix mode had no sentence id |
| AlpinoClient.ServerClient.constructor | corpus2alpino/annotators/alpino_client.py:44-49 | a new client starts in prefix mode with write-id mode off |
| AlpinoClient.ServerClient.ParseLine | corpus2alpino/annotators/alpino_client.py:74-113 | `parse_line` gives the specified parse in the client's current modes |
| AlpinoClient.Connect | corpus2alpino/annotators/alpino_client.py:44-65 | the constructor gives a fresh client whose modes are the calibration's, or raises the calibration's exception |
| AlpinoClient.SlashEnd | corpus2alpino/annotators/alpino_client.py:132 | the head of `os.path.split` ends right after the last `/`, or is empty |
| AlpinoClient.Dirname | corpus2alpino/annotators/alpino_client.py:132 | `os.path.split(p)[0]` is a prefix of `p` |
| AlpinoClient.JoinPath | corpus2alpino/annotators/alpino_client.py:142 | a joined path starts with the first part and ends with the second |
| AlpinoClient.ResolveOutcome | corpus2alpino/annotators/alpino_client.py:129-148 | the process client is created exactly when the path or its `bin/Alpino` is a file; the executable is then a file and both the directory and the given path are prefixes of it |
| AlpinoAnnotator.EscapeAppend | corpus2alpino/annotators/alpino.py:94-95 | escaping a concatenation is the concatenation of the escapes |
| AlpinoAnnotator.EscapeIsEscapeEach | corpus2alpino/annotators/alpino.py:94-95 | the chained replacements equal a character-by-character escape of `&`, `<`, `>` and line feed, with `\r` dropped |
| AlpinoAnnotator.EscapedFacts | corpus2alpino/annotators/alpino.py:94-95 | the escaped value has no `<` and no line break, but keeps every `"` of the value |
| AlpinoAnnotator.QuoteEndsValue | corpus2alpino/annotators/alpino.py:89-95 | a value of plain characters is written verbatim, so a `"` in it ends the `value` attribute early |
| AlpinoAnnotator.RenderValues | corpus2alpino/annotators/alpino.py:90-92 | one `<meta>` line per entry, in the map's order |
| AlpinoAnnotator.Request | corpus2alpino/annotators/alpino.py:63-65 | the request ends in an empty line and starts with `<id>|` in prefix mode |
| AlpinoAnnotator.Received | corpus2alpino/annotators/alpino.py:74-80 | no `\x15` is left in the response once it is written as `&#21;` |
| AlpinoAnnotator.PlainParse | corpus2alpino/annotators/alpino.py:82-87 | without metadata a response with only single inner line feeds comes back unchanged |
| AlpinoAnnotator.MetadataBeforeLastLine | corpus2alpino/annotators/alpino.py:82-87 | with metadata the rendered block becomes its own line just before the response's last line |
| AlpinoAnnotator.AnnotateAll | corpus2alpino/annotators/alpino.py:46-50 | as intended, with an annotations dict per utterance (see Findings): every utterance, in order, gets its own parse |
| AlpinoAnnotator.AnnotateOverwrites | corpus2alpino/annotators/alpino.py:45-50 | as intended, with an annotations dict per utterance (see Findings): the `alpino` annotation of every utterance is overwritten with the parse of its text, id and metadata, whatever it held; nothing else changes |
| AlpinoAnnotator.SharedHoldsLastParse | corpus2alpino/models.py:20-31 | as written, with the one default `annotations` dict all utterances share: after `annotate` that dict holds the last utterance's parse and no trace of the earlier ones |
| AlpinoAnnotator.SharedLosesParse | corpus2alpino/annotators/alpino.py:45-50 | as written, an utterance whose parse differs from the last one's does not hold its own parse after `annotate` |
| AlpinoAnnotator.CalibratedIds | corpus2alpino/annotators/alpino.py:27-43 | after calibration the probe's parse carries a sentence id, which is `42` in prefix mode |
| AlpinoAnnotator.Annotator.constructor | corpus2alpino/annotators/alpino.py:23-27 | a new annotator starts in prefix mode |
| AlpinoAnnotator.Annotator.ParseLine | corpus2alpino/annotators/alpino.py:52-87 | `parse_line` gives the specified parse in the current mode |
| AlpinoAnnotator.Annotator.Annotate | corpus2alpino/annotators/alpino.py:45-50 | as intended, with an annotations dict per utterance (see Findings): `annotate` gives the document with every utterance annotated, everything else kept |
| AlpinoAnnotator.Annotator.AnnotateShared | corpus2alpino/annotators/alpino.py:45-50 | as written: the loop stores every parse, in order, in the one dict the utterances share |
| AlpinoAnnotator.Connect | corpus2alpino/annotators/alpino.py:23-43 | the constructor gives a fresh annotator in the calibrated mode, or raises the calibration's exception |
| AlpinoWrappers.RenderValues | folia2alpino/alpino_wrappers.py:89-92 | one `<meta type="text">` line per entry, in the map's order |
| AlpinoWrappers.TextValues | folia2alpino/alpino_wrappers.py:91 | the plain string map as `text` metadata values, keys and order kept |
| AlpinoWrappers.RenderedAsText | folia2alpino/alpino_wrappers.py:89-95 | the block is the one the corpus annotator renders for the same entries typed `text` |
| AlpinoWrappers.StripLines | folia2alpino/alpino_wrappers.py:83-85 | stripping raises `IndexError` exactly when fewer than two lines are left |
| AlpinoWrappers.StripDropsFirstLine | folia2alpino/alpino_wrappers.py:51-87 | stripping drops exactly the first line (the XML header) when the last line has no trailing white space |
| AlpinoWrappers.PlainParse | folia2alpino/alpino_wrappers.py:73-87 | without metadata or stripping, a response with only single inner line feeds comes back as renamed |
| AlpinoWrappers.MetadataBeforeLastLine | folia2alpino/alpino_wrappers.py:78-81 | with metadata the rendered block becomes its own line just before the response's last line |
| AlpinoWrappers.RenamedParseId | folia2alpino/alpino_wrappers.py:75-76 | outside prefix mode the first sentence id of the parse becomes the caller's |
| AlpinoWrappers.CalibrateModes | folia2alpino/alpino_wrappers.py:21-35 | prefix mode is switched off exactly when the server echoed the prefix and the retry came back with the bare word and an id; it is kept exactly when the server did not echo it and returned id `42` |
| AlpinoWrappers.ServiceWrapper.constructor | folia2alpino/alpino_wrappers.py:17-21 | a new wrapper starts in prefix mode |
| AlpinoWrappers.ServiceWrapper.ParseLine | folia2alpino/alpino_wrappers.py:51-87 | `parse_line` gives the specified parse in the current mode |
| AlpinoWrappers.ServiceWrapper.ParseLines | folia2alpino/alpino_wrappers.py:37-49 | `parse_lines` yields the treebank header, each stripped parse and the footer, or the first failure |
| AlpinoWrappers.Connect | folia2alpino/alpino_wrappers.py:17-35 | the constructor gives a fresh wrapper in the calibrated mode, or raises the calibration's exception |
| AlpinoWrappers.Results | folia2alpino/alpino_wrappers.py:47-48 | one stripped parse per sentence, in order |
| AlpinoWrappers.ChunksOk | folia2alpino/alpino_wrappers.py:46-49 | the treebank is produced exactly when every sentence parses |
| AlpinoWrappers.ChunksShape | folia2alpino/alpino_wrappers.py:46-49 | then it has n + 2 chunks: header, the i-th parse at position i + 1, footer |
| AlpinoWrappers.ChunksFail | folia2alpino/alpino_wrappers.py:46-49 | a failure is the error of the first sentence that fails, all earlier ones parsing |
| AlpinoWrappers.ParseLines | folia2alpino/alpino_wrappers.py:97-107 | the passthrough wrapper returns its input unchanged; the service wrapper returns the treebank chunks |
| AlpinoXml.MatchAt | corpus2alpino/annotators/alpino_client.py:21 | a match of the id pattern is a non-empty run without `"` right after `sentid="` and before a `"` |
| AlpinoXml.FirstMatchIsFirst | corpus2alpino/annotators/alpino_client.py:21 | `search` finds the leftmost match |
| AlpinoXml.SearchSentId | corpus2alpino/annotators/alpino_client.py:21 | a found id is non-empty and has no `"` |
| AlpinoXml.NoSentIdUnchanged | corpus2alpino/annotators/alpino_client.py:108-109 | without a sentence id, renaming changes nothing |
| AlpinoXml.SearchAfterSub | corpus2alpino/annotators/alpino_client.py:108-109 | after renaming, the first sentence id found is the new id |
| AlpinoXml.NoTagUnchanged | corpus2alpino/annotators/alpino_client.py:110-111 | XML without a `<sentence` tag is left as it is |
| AlpinoXml.InjectAfterFirstTag | corpus2alpino/annotators/alpino_client.py:110-111 | the id attribute lands right after the first `<sentence` tag name |
| Converter.Documents | corpus2alpino/converter.py:32-33 | no files, no documents |
| Converter.NextFile | corpus2alpino/converter.py:32-33 | the documents of each file follow those of the files before it |
| Converter.DocumentsPrefix | corpus2alpino/converter.py:32-33 | the documents of the first files come first among all documents |
| Converter.DocumentEvents | corpus2alpino/converter.py:34-37 | per document: one annotation per annotator, one event per write, one flush |
| Converter.ConvertDocument | corpus2alpino/converter.py:34-37 | one document is annotated by every annotator in list order, written, and the flushed text is what the target held plus the writes; the target is left empty |
| Converter.ConvertFile | corpus2alpino/converter.py:33-37 | the inner loop handles the file's documents in reader order until the consumer's demand is met |
| Converter.NextDocument | corpus2alpino/converter.py:33-37 | one more document adds its result to the outputs and its events to the trace, and the target is empty after its flush |
| Converter.ConvertFiles | corpus2alpino/converter.py:32-37 | the outer loop yields the results of the first `demand` documents, or all of them |
| Converter.Convert | corpus2alpino/converter.py:31-38 | `convert` yields one flushed result per document in file then reader order, and closes the target only when the consumer asks past the last result |
| Converter.TraceFlushes | corpus2alpino/converter.py:33-37 | exactly one flush per document |
| Converter.DocumentFlushesOnce | corpus2alpino/converter.py:34-37 | each document is flushed once |
| Converter.OutputsAt | corpus2alpino/converter.py:33-37 | the `k`-th result is exactly what was written for the `k`-th document (after what the target held before, for the first) |
| Converter.TraceOrdered | corpus2alpino/converter.py:32-37 | documents are handled one after another, and for each every annotator runs in list order before the writer, then the flush |
| Converter.DocumentEventsOrdered | corpus2alpino/converter.py:34-37 | the events of one document all belong to it and come in pipeline order |
| FoliaReader.WordStringReadsBack | corpus2alpino/readers/folia.py:78-105 | a word without text gives the empty string; a word whose correction has other text reads back as that correction and the text; a plain word unescapes to its text |
| FoliaReader.NonEmpty | corpus2alpino/readers/folia.py:70 | the filter keeps exactly the non-empty word strings |
| FoliaReader.JoinNonEmpty | corpus2alpino/readers/folia.py:70 | a join of non-empty strings is empty only when nothing is joined |
| FoliaReader.WordStrings | corpus2alpino/readers/folia.py:69 | one word string per word, in order |
| FoliaReader.SentenceLineEmpty | corpus2alpino/readers/folia.py:68-70 | the sentence line is empty exactly when every word string is |
| FoliaReader.GetMetadataDict | corpus2alpino/readers/folia.py:107-113 | the loop builds the dict of the kept pairs |
| FoliaReader.MetadataDictKeys | corpus2alpino/readers/folia.py:107-113 | a key is in the dict exactly when some kept pair has it |
| FoliaReader.MetadataDictValue | corpus2alpino/readers/folia.py:107-113 | a key's value is the text of its last kept pair |
| FoliaReader.KeptFilter | corpus2alpino/readers/folia.py:110-111 | without a filter every pair is kept; a sentence drops exactly the pairs whose key the document has with the same value |
| FoliaReader.ScanAccounts | corpus2alpino/readers/folia.py:40-58 | during the scan every closed group is non-empty and the groups and the pending words hold the words seen, in order |
| FoliaReader.GroupsPartition | corpus2alpino/readers/folia.py:35-61 | `get_utterances` never yields an empty group, and its groups hold every word once, in document order |
| FoliaReader.GetGroups | corpus2alpino/readers/folia.py:40-61 | the word loop closes a group whenever a new sentence or paragraph starts while words are pending, and the last group at the end |
| FoliaReader.GetUtterances | corpus2alpino/readers/folia.py:35-76 | one utterance per group, each the utterance of that group's sentence |
| FoliaReader.GetUtterancesFails | corpus2alpino/readers/folia.py:47-76 | reading the sentences fails exactly when some group has no sentence (words before the first sentence) |
| FoliaReader.Read | corpus2alpino/readers/folia.py:20-33 | every failure becomes an error naming `relpath/filename`; a document keeps the collected file |
| FoliaReader.ReadOutcome | corpus2alpino/readers/folia.py:20-76 | reading succeeds exactly when the file parses and no group lacks a sentence; the document has the document metadata and one utterance per group, read from its sentence |
| TeiConverter.ElementMetadataKeys | corpus2alpino/tei_converter.py:83-90 | exactly the keys named by some attribute are present |
| TeiConverter.ElementMetadataValues | corpus2alpino/tei_converter.py:83-90 | each key holds its texts joined by `' | '` in attribute order |
| TeiConverter.ElementMetadataAsReader | corpus2alpino/tei_converter.py:83-90 | the same keys as the newer TEI reader finds, each with the text of the reader's `text` value |
| TeiConverter.GetElementMetadata | corpus2alpino/tei_converter.py:83-90 | the attribute loop builds that dict |
| TeiConverter.MetadataDeepest | corpus2alpino/tei_converter.py:73-81 | a key some division of the path has takes the value of the deepest such division |
| TeiConverter.MetadataFromDocument | corpus2alpino/tei_converter.py:73-81 | a key no division of the path has is the document's, or absent |
| TeiConverter.GetMetadata | corpus2alpino/tei_converter.py:73-81 | the path loop overlays the divisions' metadata from the root down |
| TeiConverter.LowestDivisionsAsReader | corpus2alpino/tei_converter.py:63-71 | the lowest-division paths are those of the newer reader's walk, in the same order |
| TeiConverter.LowestDivisionsLeaves | corpus2alpino/tei_converter.py:63-71 | one path per division without children, each running child by child from a top division down to it |
| TeiConverter.SentenceIds.constructor | corpus2alpino/tei_converter.py:38 | every document starts with no counters |
| TeiConverter.SentenceIds.DetermineId | corpus2alpino/tei_converter.py:50-61 | the base is the escaped metadata id, else the full file name; a new base is used as it is and counted 0, a seen one gets its count raised and appended as `_<count>` |
| TeiConverter.LeafItems | corpus2alpino/tei_converter.py:40-45 | one item per tokenized sentence of the path's last division, each with the path's metadata |
| TeiConverter.Bases | corpus2alpino/tei_converter.py:50-54 | the id base of every sentence, in order |
| TeiConverter.NameItemsCounts | corpus2alpino/tei_converter.py:45-48 | naming the sentences one by one leaves the counters of the newer reader's id assignment, one line per sentence |
| TeiConverter.NameItemsIds | corpus2alpino/tei_converter.py:45-48 | the lines are the sentences with their metadata, in order, named by the ids that assignment gives their bases |
| TeiConverter.DocumentIds | corpus2alpino/tei_converter.py:37-48 | the i-th line of a document is its i-th sentence, and its id is its base numbered by how many earlier sentences of the document share that base |
| TeiConverter.NameSentence | corpus2alpino/tei_converter.py:45-48 | the body of the sentence loop takes the path's metadata and the next id from the counters |
| TeiConverter.LeafLines | corpus2alpino/tei_converter.py:40-48 | the sentences of one division are named with the counters carried on from the sentences before |
| TeiConverter.DocumentSentences | corpus2alpino/tei_converter.py:37-48 | one document gives its lines with fresh counters |
| TeiConverter.FileSentences | corpus2alpino/tei_converter.py:35-48 | one file gives its documents' lines in turn |
| TeiConverter.GetSentences | corpus2alpino/tei_converter.py:29-48 | `get_sentences` yields the lines file by file, document by document |
| TeiConverter.GetParses | corpus2alpino/tei_converter.py:21-27 | `get_parses` hands the sentences to the wrapper's `parse_lines` |
| TeiConverter.TestFile | corpus2alpino/tei_converter.py:106-119 | a TEI file is one with `<TEI` in one of its first five lines, read before the file ends |
| FoliaConverter.WordStringReadsBack | corpus2alpino/folia_converter.py:51-63 | a word whose correction has other text reads back as that correction and the text; any other word unescapes to its text |
| FoliaConverter.WordStringAsReader | corpus2alpino/folia_converter.py:51-63 | the word string is the newer FoLiA reader's for a word without lemma or part of speech |
| FoliaConverter.WordStrings | corpus2alpino/folia_converter.py:45 | one word string per word, in order |
| FoliaConverter.SentenceLineFacts | corpus2alpino/folia_converter.py:39-49 | the id has no `|` and unescapes to the sentence id with every `|` as `_`; the line is the newer reader's whenever no word string is empty |
| FoliaConverter.EmptyWordsKept | corpus2alpino/folia_converter.py:44-45 | unlike the newer reader, an empty word string keeps its place, so two of them make one space |
| FoliaConverter.SentenceOrder | corpus2alpino/folia_converter.py:32-37 | sentences come file by file, and within a file paragraph by paragraph, each in its own order |
| FoliaConverter.Lines | corpus2alpino/folia_converter.py:37 | one line per sentence, in order |
| FoliaConverter.FileLines | corpus2alpino/folia_converter.py:35-37 | the paragraph and sentence loops give one line per sentence of the file, in order |
| FoliaConverter.GetSentences | corpus2alpino/folia_converter.py:27-37 | `get_sentences` yields one line per sentence, file by file |
| FoliaConverter.GetParses | corpus2alpino/folia_converter.py:19-25 | `get_parses` hands the sentences to the wrapper's `parse_lines` |
| FoliaConverter.TestFile | corpus2alpino/folia_converter.py:79-92 | a FoLiA file is one with `<FoLiA` in one of its first five lines, read before the file ends |
| LegacyProbe.ProbeFinds | corpus2alpino/folia_converter.py:84-92 | the probe succeeds exactly when one of the first five lines holds the marker and no earlier `readline` hit the end of the file |
| LegacyProbe.TestLines | corpus2alpino/folia_converter.py:84-92 | the `readline` loop stops at the end of the file or the marker, after at most five lines |
| Folia2Alpino.SentenceStringSplits | folia2alpino.py:69-75 | the first `|` of the sentence string ends the escaped id and the words follow it, so with the closing empty line it is the prefix-mode request of the newer wrappers |
| Folia2Alpino.Strings | folia2alpino.py:61-66 | one sentence string per sentence, in order |
| Folia2Alpino.FileStrings | folia2alpino.py:64-66 | the paragraph and sentence loops of one file give its sentence strings in order |
| Folia2Alpino.GetSentences | folia2alpino.py:56-66 | `get_sentences` yields the sentence strings file by file, paragraph by paragraph |
| Folia2Alpino.ParseAsService | folia2alpino.py:52 | the parse of a sentence string is the newer service wrapper's stripped parse in prefix mode |
| Folia2Alpino.Results | folia2alpino.py:51-52 | one parse per sentence string, in order |
| Folia2Alpino.GetParses | folia2alpino.py:43-53 | `get_parses` yields the treebank header, each parse in turn and the footer, or stops at the first failure |
| Folia2Alpino.ParsesAsService | folia2alpino.py:43-53 | the script yields what the newer converter's service wrapper yields in prefix mode for the same sentences |
| Folia2AlpinoConverter.AcceptsIff | folia2alpino/converter.py:28-29 | a converter accepts a file exactly when one of its first five lines holds the converter's tag and no earlier line ends the file |
| Folia2AlpinoConverter.FileCases | folia2alpino/converter.py:12-31 | a file gives the FoLiA converter's sentences if it accepts the file, then the TEI converter's if it does: both when both do, none when neither does |
| Folia2AlpinoConverter.GetSentencesAppend | folia2alpino/converter.py:27-31 | the sentences of two runs of files are those of each, in order |
| Folia2AlpinoConverter.FileOrder | folia2alpino/converter.py:27-31 | files keep their input order: file `i`'s sentences come after those of the files before it and before those after it |
| Folia2AlpinoConverter.GetSentencesOne | folia2alpino/converter.py:28-31 | one file gives what its converters make of it |
| Folia2AlpinoConverter.GetParses | folia2alpino/converter.py:14-20 | `get_parses` hands the sentences to the wrapper's `parse_lines` |

## Behaviour as the code has it

Where the code does something other than its comments, docstrings or
evident intent suggest, the model follows the code:

- The Lassy writer has no guard for an utterance without an `alpino`
  annotation (the warning is only a TODO at `corpus2alpino/writers/lassy.py:16`).
  Reading the missing key raises `KeyError`, so `LassyWriter.Write` returns
  the writes made before that utterance together with the error.
- The Alpino annotator parses every utterance and overwrites any `alpino`
  annotation already there (`AlpinoAnnotator.AnnotateOverwrites`).
- An enrichment matcher naming an attribute the node lacks is a non-match,
  because the `KeyError` is caught and returns `False` (`EnrichLassy.IsMatch`).
- The enrichment loader appends a row's rule once for every cell of the row,
  not once per row (`EnrichLassy.RulesOutcome`). First-match-wins makes the
  copies harmless.
- `determine_id` in the TEI reader can give two sentences the same id
  (`TeiReader.IdsCanCollide`).
- The Alpino annotator's attribute escaping leaves `"` as it is. A quote in a
  metadata value therefore ends the `value` attribute early
  (`AlpinoAnnotator.QuoteEndsValue`).
- The older TEI converter names sentences without an `id` after the full file
  name, where the newer reader uses its basename.
- The older FoLiA converter joins empty word strings too, so two empty words
  give a single space (`FoliaConverter.EmptyWordsKept`).
- The PaQu writer compares metadata by value only, so a change of type alone
  writes no `##META` line (`PaQuWriter.ChangedKeys`).
- No reader passes `annotations` to `Utterance`, so every utterance holds the
  same default dict (`corpus2alpino/models.py:26`). The Alpino annotator
  therefore leaves every utterance with the last utterance's parse
  (`AlpinoAnnotator.SharedHoldsLastParse`). The Lassy writer then renders that
  one parse for every utterance, and the enrichment annotator enriches that one
  parse once per utterance. The rest of the model gives each utterance its own
  dict; see Findings.
- The PaQu reader stores the generator `parse_utterances(...)` as a
  document's utterances (`corpus2alpino/readers/paqu.py:50-54` and `:70-74`).
  The first loop over them uses it up. In `Converter.convert` the first
  annotator therefore sees the utterances, while later annotators and the
  writer see none.

## Findings

| source | as written | input that shows it | evidently intended | confidence | as-written member | corrected member |
|---|---|---|---|---|---|---|
| corpus2alpino/models.py:26 | the default `annotations={}` is one dict shared by every utterance no reader gives its own, so `annotate` (`corpus2alpino/annotators/alpino.py:47`) overwrites the same entry for each utterance | a document of two utterances whose texts the server parses differently: after `annotate` both hold the second parse | each utterance holds the parse of its own text | high; not executed | AlpinoAnnotator.SharedLosesParse | AlpinoAnnotator.AnnotateOverwrites |

## Left out

- Sockets, subprocesses, temporary directories, environment variables and
  the file system are outside the model. The Alpino server is a function from
  request to response, and `isfile`/`isdir` are predicates given to the
  process client.
- `determine_alpino_version` and the `version`/`version_date` fields are not
  modelled, because they read a file's contents and modification time.
- `AlpinoProcessClient.parse_line` is not modelled. It runs the Alpino
  executable and reads back the XML file it writes, so there is no logic of
  its own to state beyond the path resolution (`AlpinoClient.ResolveOutcome`).
- The FoLiA, TEI and XML parsers (pynlpl, tei_reader, lxml), the ucto
  tokenizer, CSV dialect sniffing and XML serialisation are inputs: parsed
  documents as datatypes, the tokenizer and the serialiser as functions, the
  enrichment table as rows of cells.
- Logging is not modelled, except that `EnrichLassy.Annotate` returns the
  errors it would log.
- Command-line entry points (`main`, argparse) and the console and file-system
  targets and collectors are not modelled.
- Generators are modelled as the full sequences they yield. Only
  `Converter.Convert` takes a consumer's demand, because it decides whether
  the target is closed.
- TeiReader.Read: when a document fails to align, the model returns only the
  error. The documents the generator yielded before it are not returned.
- TeiEmitter.TokenizedSentenceEmitter.GetSentences: after an alignment error
  the contract does not state the emitter's remaining sentences or offset,
  since the reader stops at that error.
- The annotators return the updated document instead of mutating the
  caller's document in place. Aliasing between documents is not captured.
- EnrichLassy.Annotate: enriches each utterance's own parse. It does not model
  the shared default `annotations` dict, under which the one shared parse is
  enriched once per utterance, so a rule whose assignment creates another
  rule's match fires again on a later pass. The Alpino annotator's side of
  this is modelled (`AlpinoAnnotator.SharedHoldsLastParse`).
- Converter.Convert: the reader, the annotators and the writer are total
  functions. When one of them raises in the source, the generator ends with
  no flush, no further result and no `close()`; the model does not express
  that path.
- PaQuReader.Read: the utterances of a document are a sequence that can be
  read any number of times. The one-shot generator of the source, used up by
  its first reader, is not modelled (see above).
- AlpinoWrappers.ServiceWrapper.ParseLines: on a failing parse the model
  returns only the error. The source generator has already yielded the
  treebank header and every earlier parse by then.
- Folia2Alpino.GetParses: the same holds here. The header and the earlier
  parses have already been yielded, and `main` has printed them.
- AlpinoXml.SubSentIds and AlpinoXml.InjectSentId: the id is inserted
  verbatim. The source passes it to `re.sub` as a replacement template, so a
  backslash escape or group reference in an id is expanded there (`a\\b`
  is written as `a\b`), or raises for an unknown escape.
- FoliaConverter.WordString: every word has text. The older converters call
  `word.text()` outside their exception handler, so a word without text
  raises `NoSuchText` there; that path is not modelled.
- The mutable default arguments of `Converter.__init__` (a shared annotator
  list and reader and writer instances) are not modelled. Each call gets its
  own values.
- The `test_file` of the older converters reads a file as the sequence of
  strings `readline` returns.
- Regular expressions are modelled by hand-written scanners:
  - `\s` is `str.isspace` (`Text.IsSpace`).
  - `\w` in the `<sentence` pattern covers ASCII letters, digits and `_`
    only (`AlpinoXml.IsWordChar`).
- Strings are sequences of code points, with no encoding or decoding of bytes.
