/**
 * The TEI reader's sentence emitter: the tokenizer's sentences of a division
 * are handed out piece by piece as the division's text parts consume them.
 * A part consumes the sentence characters that are alignable (letters, a few
 * accented letters, digits and `,.:;`), which must match the part's own
 * alignable characters one for one.
 */
module TeiEmitter {
  import opened Wrappers
  import opened Text

  /** The characters the alignment compares; every other character is skipped. */
  predicate IsAlignable(c: char) {
    ('A' <= c <= 'Z') || ('a' <= c <= 'z') || ('0' <= c <= '9')
    || c == 'à' || c == 'é' || c == 'ë' || c == 'ü' || c == 'ï' || c == 'ó' || c == 'ò'
    || c == ',' || c == '.' || c == ':' || c == ';'
  }

  /** The ligatures the tokenizer writes out, and how. */
  function Ligature(c: char): Option<string> {
    match c
    case 'æ' => Some("ae") case 'Æ' => Some("AE")
    case 'œ' => Some("oe") case 'Œ' => Some("OE")
    case 'ĳ' => Some("ij") case 'Ĳ' => Some("IJ")
    case 'ﬂ' => Some("fl") case 'ﬀ' => Some("ff")
    case 'ﬃ' => Some("ffi") case 'ﬄ' => Some("ffl")
    case 'ﬅ' => Some("st") case 'ß' => Some("ss")
    case _ => None
  }

  function ExpandLigatures(s: string): string {
    if s == [] then []
    else (match Ligature(s[0]) case Some(l) => l case None => [s[0]]) + ExpandLigatures(s[1..])
  }

  /** The alignable characters of a string, in order. */
  function AlignableOnly(s: string): (r: string)
    ensures |r| <= |s| && forall i :: 0 <= i < |r| ==> IsAlignable(r[i])
  {
    if s == [] then [] else (if IsAlignable(s[0]) then [s[0]] else []) + AlignableOnly(s[1..])
  }

  /** `__get_alignable_text(text)`: ligatures written out, then everything not alignable removed. */
  function AlignableText(text: string): string {
    AlignableOnly(ExpandLigatures(text))
  }

  /** Filtering twice changes nothing. */
  lemma {:induction false} AlignableOnlyIdempotent(s: string)
    requires forall i :: 0 <= i < |s| ==> IsAlignable(s[i])
    ensures AlignableOnly(s) == s
  {
    if s != [] {
      AlignableOnlyIdempotent(s[1..]);
      assert s == [s[0]] + s[1..];
    }
  }

  lemma {:induction false} AlignableOnlyAppend(a: string, b: string)
    ensures AlignableOnly(a + b) == AlignableOnly(a) + AlignableOnly(b)
  {
    if a == [] {
      assert a + b == b;
    } else {
      assert (a + b)[1..] == a[1..] + b;
      AlignableOnlyAppend(a[1..], b);
    }
  }

  // Aligning a sentence with a part

  function AlignmentError(i: nat, n: nat, sentence: string, alignable: string): string {
    "Alignment error at (" + NatToString(i) + ", " + NatToString(n) + ")! Sentence: " + sentence + " Part: " + alignable
  }

  /** `get_part_length` from sentence position `i`, with `n` part characters matched. */
  function PartLengthFrom(sentence: string, alignable: string, i: nat, n: nat): (r: Result<(nat, nat, bool)>)
    requires i <= |sentence|
    ensures r.Ok? ==> i <= r.value.0 <= |sentence|
    decreases |sentence| - i
  {
    if i == |sentence| then Ok((|sentence|, n, false))
    else if IsAlignable(sentence[i]) then
      if |alignable| == n then Ok((i, n, true))
      else if n > |alignable| then Err("IndexError: string index out of range")
      else if alignable[n] != sentence[i] then Err(AlignmentError(i, n, sentence, alignable))
      else PartLengthFrom(sentence, alignable, i + 1, n + 1)
    else PartLengthFrom(sentence, alignable, i + 1, n)
  }

  /**
   * `get_part_length(sentence, alignable_text, n)`: the length of the sentence
   * the part covers, the part characters matched so far, and whether the part
   * ends inside the sentence.
   */
  function PartLength(sentence: string, alignable: string, n: nat): (r: Result<(nat, nat, bool)>)
    ensures r.Ok? ==> r.value.0 <= |sentence|
  {
    PartLengthFrom(sentence, alignable, 0, n)
  }

  /** The loop of `get_part_length`. */
  method GetPartLength(sentence: string, alignable: string, n: nat) returns (r: Result<(nat, nat, bool)>)
    ensures r == PartLength(sentence, alignable, n)
  {
    var m: nat := n;
    var i := 0;
    while i < |sentence|
      invariant 0 <= i <= |sentence|
      invariant PartLengthFrom(sentence, alignable, i, m) == PartLengthFrom(sentence, alignable, 0, n)
    {
      var c := sentence[i];
      if IsAlignable(c) {
        if |alignable| == m {
          return Ok((i, m, true));
        }
        if m > |alignable| {
          return Err("IndexError: string index out of range");
        }
        if alignable[m] != c {
          return Err(AlignmentError(i, m, sentence, alignable));
        }
        m := m + 1;
      }
      i := i + 1;
    }
    return Ok((|sentence|, m, false));
  }

  /**
   * A part that ends inside the sentence stops at an alignable character once
   * all its characters are matched, and the sentence's alignable characters
   * before that point are exactly the rest of the part.
   */
  lemma {:induction false} PartEndsInside(sentence: string, alignable: string, i: nat, n: nat)
    requires i <= |sentence| && n <= |alignable|
    requires PartLengthFrom(sentence, alignable, i, n).Ok? && PartLengthFrom(sentence, alignable, i, n).value.2
    ensures var (j, m, _) := PartLengthFrom(sentence, alignable, i, n).value;
            j < |sentence| && IsAlignable(sentence[j]) && m == |alignable| &&
            AlignableOnly(sentence[i..j]) == alignable[n..]
    decreases |sentence| - i
  {
    var j := PartLengthFrom(sentence, alignable, i, n).value.0;
    if IsAlignable(sentence[i]) && |alignable| != n {
      PartEndsInside(sentence, alignable, i + 1, n + 1);
      assert sentence[i..j] == [sentence[i]] + sentence[i + 1..j];
      assert alignable[n..] == [alignable[n]] + alignable[n + 1..];
    } else if !IsAlignable(sentence[i]) {
      PartEndsInside(sentence, alignable, i + 1, n);
      assert sentence[i..j] == [sentence[i]] + sentence[i + 1..j];
    }
  }

  /** A part that runs past the sentence has matched every alignable character of it. */
  lemma {:induction false} PartRunsOver(sentence: string, alignable: string, i: nat, n: nat)
    requires i <= |sentence| && n <= |alignable|
    requires PartLengthFrom(sentence, alignable, i, n).Ok? && !PartLengthFrom(sentence, alignable, i, n).value.2
    ensures var (j, m, _) := PartLengthFrom(sentence, alignable, i, n).value;
            j == |sentence| && n <= m <= |alignable| && AlignableOnly(sentence[i..]) == alignable[n..m]
    decreases |sentence| - i
  {
    if i < |sentence| {
      var m := PartLengthFrom(sentence, alignable, i, n).value.1;
      assert sentence[i..] == [sentence[i]] + sentence[i + 1..];
      if IsAlignable(sentence[i]) {
        PartRunsOver(sentence, alignable, i + 1, n + 1);
        assert alignable[n..m] == [alignable[n]] + alignable[n + 1..m];
      } else {
        PartRunsOver(sentence, alignable, i + 1, n);
      }
    }
  }

  /** The alignment fails exactly when neither the sentence's alignable characters nor the rest of the part is a prefix of the other. */
  lemma {:induction false} PartLengthFails(sentence: string, alignable: string, i: nat, n: nat)
    requires i <= |sentence| && n <= |alignable|
    ensures PartLengthFrom(sentence, alignable, i, n).Err? <==>
              !(AlignableOnly(sentence[i..]) <= alignable[n..]) && !(alignable[n..] <= AlignableOnly(sentence[i..]))
    decreases |sentence| - i
  {
    if i < |sentence| {
      var a, rest := AlignableOnly(sentence[i..]), alignable[n..];
      assert sentence[i..] == [sentence[i]] + sentence[i + 1..];
      if IsAlignable(sentence[i]) {
        assert a == [sentence[i]] + AlignableOnly(sentence[i + 1..]);
        if n < |alignable| {
          assert rest == [alignable[n]] + alignable[n + 1..];
          PartLengthFails(sentence, alignable, i + 1, n + 1);
        }
      } else {
        PartLengthFails(sentence, alignable, i + 1, n);
      }
    }
  }

  // The emitter

  /** `s[k:]` with Python's clamping. */
  function Drop(s: string, k: nat): (r: string)
    ensures k <= |s| ==> r == s[k..]
    ensures k > |s| ==> r == []
  {
    if k <= |s| then s[k..] else []
  }

  /**
   * `get_sentences(part_text, part_offset)` on the emitter state: the pieces
   * of sentences the part covers, and the sentences and offset left. A part
   * ending inside the current sentence moves the offset on; one running past
   * it drops the sentence and continues with the next from offset 0.
   */
  function Emit(sentences: seq<string>, offset: nat, alignable: string, partOffset: nat): Result<(seq<string>, seq<string>, nat)>
    decreases |sentences|
  {
    if sentences == [] then Ok(([], sentences, offset))
    else
      var remaining := Drop(sentences[0] + "\n", offset);
      var part := PartLength(remaining, alignable, partOffset);
      if part.Err? then Err(part.error)
      else if part.value.2 then Ok(([remaining[..part.value.0]], sentences, offset + part.value.0))
      else Prepend([remaining[..part.value.0]], Emit(sentences[1..], 0, alignable, part.value.1))
  }

  /** Pieces handed out before those of `e`. */
  function Prepend(pieces: seq<string>, e: Result<(seq<string>, seq<string>, nat)>): Result<(seq<string>, seq<string>, nat)> {
    if e.Err? then e else Ok((pieces + e.value.0, e.value.1, e.value.2))
  }

  lemma PrependNothing(e: Result<(seq<string>, seq<string>, nat)>)
    ensures Prepend([], e) == e
  {
    if e.Ok? {
      assert [] + e.value.0 == e.value.0;
    }
  }

  lemma PrependTwice(a: seq<string>, b: seq<string>, e: Result<(seq<string>, seq<string>, nat)>)
    ensures Prepend(a, Prepend(b, e)) == Prepend(a + b, e)
  {
    if e.Ok? {
      assert a + (b + e.value.0) == (a + b) + e.value.0;
    }
  }

  /** The sentences as one text, each ended by a newline. */
  function Lines(sentences: seq<string>): string {
    if sentences == [] then [] else sentences[0] + "\n" + Lines(sentences[1..])
  }

  function Concat(pieces: seq<string>): string {
    if pieces == [] then [] else pieces[0] + Concat(pieces[1..])
  }

  /** The offset points into the current sentence and its newline, and is 0 once the sentences are used up. */
  predicate InSentence(sentences: seq<string>, offset: nat) {
    if sentences == [] then offset == 0 else offset <= |sentences[0]| + 1
  }

  /** The text still to be handed out. */
  function Stream(sentences: seq<string>, offset: nat): string
    requires InSentence(sentences, offset)
  {
    if sentences == [] then [] else Lines(sentences)[offset..]
  }

  /**
   * The emitter hands out the sentences' text exactly once and in order: the
   * pieces of one call followed by what is left make up what was left before.
   */
  lemma {:induction false} EmitConsumes(sentences: seq<string>, offset: nat, alignable: string, partOffset: nat)
    requires InSentence(sentences, offset)
    requires Emit(sentences, offset, alignable, partOffset).Ok?
    ensures Consumes(sentences, offset, Emit(sentences, offset, alignable, partOffset).value)
    decreases |sentences|
  {
    if sentences != [] {
      var remaining := (sentences[0] + "\n")[offset..];
      var part := PartLength(remaining, alignable, partOffset).value;
      if part.2 {
        ConsumesInside(sentences, offset, alignable, partOffset);
      } else {
        EmitConsumes(sentences[1..], 0, alignable, part.1);
        ConsumesPast(sentences, offset, alignable, partOffset);
      }
    }
  }

  /** The pieces handed out and the state left make up the text that was left. */
  predicate Consumes(sentences: seq<string>, offset: nat, e: (seq<string>, seq<string>, nat))
    requires InSentence(sentences, offset)
  {
    InSentence(e.1, e.2) && Concat(e.0) + Stream(e.1, e.2) == Stream(sentences, offset)
  }

  lemma ConsumesInside(sentences: seq<string>, offset: nat, alignable: string, partOffset: nat)
    requires sentences != [] && InSentence(sentences, offset)
    requires var part := PartLength((sentences[0] + "\n")[offset..], alignable, partOffset);
             part.Ok? && part.value.2
    ensures Emit(sentences, offset, alignable, partOffset).Ok?
    ensures Consumes(sentences, offset, Emit(sentences, offset, alignable, partOffset).value)
  {
    var head := sentences[0] + "\n";
    var remaining := head[offset..];
    var length := PartLength(remaining, alignable, partOffset).value.0;
    var tail := Lines(sentences[1..]);
    assert Lines(sentences) == head + tail;
    SplitAfter(head, tail, offset, length);
    assert Concat([remaining[..length]]) == remaining[..length];
  }

  lemma ConsumesPast(sentences: seq<string>, offset: nat, alignable: string, partOffset: nat)
    requires sentences != [] && InSentence(sentences, offset)
    requires var part := PartLength((sentences[0] + "\n")[offset..], alignable, partOffset);
             part.Ok? && !part.value.2 &&
             var next := Emit(sentences[1..], 0, alignable, part.value.1);
             next.Ok? && Consumes(sentences[1..], 0, next.value)
    ensures Emit(sentences, offset, alignable, partOffset).Ok?
    ensures Consumes(sentences, offset, Emit(sentences, offset, alignable, partOffset).value)
  {
    var remaining := (sentences[0] + "\n")[offset..];
    var part := PartLength(remaining, alignable, partOffset).value;
    var next := Emit(sentences[1..], 0, alignable, part.1);
    EmitPast(sentences, offset, alignable, partOffset);
    StreamPast(sentences, offset);
    StreamFromStart(sentences[1..]);
    ConcatPast(remaining, Lines(sentences[1..]), next.value.0, Stream(next.value.1, next.value.2));
  }

  /** A part running past the sentence takes the whole rest of it. */
  lemma EmitPast(sentences: seq<string>, offset: nat, alignable: string, partOffset: nat)
    requires sentences != [] && InSentence(sentences, offset)
    requires var part := PartLength((sentences[0] + "\n")[offset..], alignable, partOffset);
             part.Ok? && !part.value.2
    ensures var remaining := (sentences[0] + "\n")[offset..];
            Emit(sentences, offset, alignable, partOffset) ==
              Prepend([remaining], Emit(sentences[1..], 0, alignable, PartLength(remaining, alignable, partOffset).value.1))
  {
    var remaining := (sentences[0] + "\n")[offset..];
    PartLengthFullRun(remaining, alignable, partOffset);
    assert remaining[..|remaining|] == remaining;
  }

  lemma StreamPast(sentences: seq<string>, offset: nat)
    requires sentences != [] && InSentence(sentences, offset)
    ensures Stream(sentences, offset) == (sentences[0] + "\n")[offset..] + Lines(sentences[1..])
  {
    SplitAfter(sentences[0] + "\n", Lines(sentences[1..]), offset, 0);
  }

  lemma ConcatPast(remaining: string, tail: string, pieces: seq<string>, rest: string)
    requires Concat(pieces) + rest == tail
    ensures Concat([remaining] + pieces) + rest == remaining + tail
  {
    assert ([remaining] + pieces)[1..] == pieces;
  }

  lemma StreamFromStart(sentences: seq<string>)
    ensures InSentence(sentences, 0) && Stream(sentences, 0) == Lines(sentences)
  {
  }

  /** Cutting the rest of a line after `length` more characters. */
  lemma SplitAfter(head: string, tail: string, offset: nat, length: nat)
    requires offset + length <= |head|
    ensures (head + tail)[offset..] == head[offset..] + tail
    ensures (head + tail)[offset + length..] == head[offset..][length..] + tail
    ensures head[offset..][..length] + head[offset..][length..] == head[offset..]
  {
  }

  /** A part that does not end inside the sentence covers all of it. */
  lemma PartLengthFullRun(sentence: string, alignable: string, n: nat)
    requires PartLength(sentence, alignable, n).Ok? && !PartLength(sentence, alignable, n).value.2
    ensures PartLength(sentence, alignable, n).value.0 == |sentence|
  {
    PartFullFrom(sentence, alignable, 0, n);
  }

  lemma {:induction false} PartFullFrom(sentence: string, alignable: string, i: nat, n: nat)
    requires i <= |sentence|
    requires PartLengthFrom(sentence, alignable, i, n).Ok? && !PartLengthFrom(sentence, alignable, i, n).value.2
    ensures PartLengthFrom(sentence, alignable, i, n).value.0 == |sentence|
    decreases |sentence| - i
  {
    if i < |sentence| {
      if IsAlignable(sentence[i]) {
        PartFullFrom(sentence, alignable, i + 1, n + 1);
      } else {
        PartFullFrom(sentence, alignable, i + 1, n);
      }
    }
  }

  /** `TokenizedSentenceEmitter`: the sentences not yet used up and the offset into the first. */
  class TokenizedSentenceEmitter {
    var offset: nat
    var sentences: seq<string>

    constructor (sentences: seq<string>)
      ensures this.sentences == sentences && offset == 0
    {
      this.sentences := sentences;
      offset := 0;
    }

    /** `get_sentences(part_text, part_offset)`, drained into a list. */
    method GetSentences(partText: string, partOffset: nat) returns (r: Result<seq<string>>)
      modifies this
      ensures var e := Emit(old(sentences), old(offset), AlignableText(partText), partOffset);
              && (e.Ok? ==> r == Ok(e.value.0) && sentences == e.value.1 && offset == e.value.2)
              && (e.Err? ==> r == Err(e.error))
    {
      var alignable := AlignableText(partText);
      var pieces: seq<string> := [];
      var n := partOffset;
      PrependNothing(Emit(sentences, offset, alignable, n));
      while sentences != []
        invariant Emit(old(sentences), old(offset), alignable, partOffset) == Prepend(pieces, Emit(sentences, offset, alignable, n))
        decreases |sentences|
      {
        var remaining := Drop(sentences[0] + "\n", offset);
        var part := GetPartLength(remaining, alignable, n);
        if part.Err? {
          return Err(part.error);
        }
        var (length, m, done) := part.value;
        if done {
          pieces := pieces + [remaining[..length]];
          offset := offset + length;
          return Ok(pieces);
        }
        PrependTwice(pieces, [remaining[..length]], Emit(sentences[1..], 0, alignable, m));
        pieces := pieces + [remaining[..length]];
        offset := 0;
        sentences := sentences[1..];
        n := m;
      }
      assert pieces + [] == pieces;
      return Ok(pieces);
    }
  }
}
