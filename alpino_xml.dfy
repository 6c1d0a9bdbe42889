/**
 * The two patterns the Alpino clients apply to the parser's XML, written as
 * scanners:
 *
 * - `(?<=sentid=")[^"]+(?=")`: a sentence id value, found by `search` and
 *   replaced, every occurrence left to right, by `sub`;
 * - `(?<=<sentence)(?![\w-])`: the empty position just after a `<sentence`
 *   tag name, where `sub` inserts a `sentid` attribute.
 */
module AlpinoXml {
  import opened Wrappers
  import opened Text

  /** The sentence and id the clients calibrate with. */
  const Probe := "hallo wereld !"
  const ProbeId := "42"

  const SentIdOpen := "sentid=\""
  const SentenceTag := "<sentence"

  /** The lookbehind of the id pattern: `sentid="` ends just before `i`. */
  predicate AfterSentIdOpen(xml: string, i: nat) {
    8 <= i <= |xml| && xml[i - 8..i] == SentIdOpen
  }

  /** The first quote at or after `i`. */
  function QuoteFrom(xml: string, i: nat): (r: Option<nat>)
    ensures r.Some? ==> i <= r.value < |xml| && xml[r.value] == '"' && forall k :: i <= k < r.value ==> xml[k] != '"'
    ensures r.None? ==> forall k :: i <= k < |xml| ==> xml[k] != '"'
    decreases |xml| - i
  {
    if i >= |xml| then None
    else if xml[i] == '"' then Some(i)
    else QuoteFrom(xml, i + 1)
  }

  /** The length of the id value the pattern matches at `i`: a non-empty run of non-quotes up to the next quote. */
  function MatchAt(xml: string, i: nat): (r: Option<nat>)
    ensures r.Some? ==> AfterSentIdOpen(xml, i) && 0 < r.value && i + r.value < |xml|
    ensures r.Some? ==> xml[i + r.value] == '"' && forall k :: i <= k < i + r.value ==> xml[k] != '"'
  {
    if AfterSentIdOpen(xml, i) && i < |xml| && xml[i] != '"' then
      match QuoteFrom(xml, i)
      case None => None
      case Some(q) => Some(q - i)
    else None
  }

  /** The first position at or after `i` where the id pattern matches. */
  function FirstMatch(xml: string, i: nat): (r: Option<nat>)
    ensures r.Some? ==> i <= r.value < |xml| && MatchAt(xml, r.value).Some?
    decreases |xml| - i
  {
    if i >= |xml| then None
    else if MatchAt(xml, i).Some? then Some(i)
    else FirstMatch(xml, i + 1)
  }

  /** `FirstMatch` skips only positions without a match, and fails only when there is none. */
  lemma {:induction false} FirstMatchIsFirst(xml: string, i: nat)
    ensures FirstMatch(xml, i).Some? ==> forall j :: i <= j < FirstMatch(xml, i).value ==> MatchAt(xml, j).None?
    ensures FirstMatch(xml, i).None? ==> forall j :: i <= j < |xml| ==> MatchAt(xml, j).None?
    decreases |xml| - i
  {
    if i < |xml| && MatchAt(xml, i).None? {
      FirstMatchIsFirst(xml, i + 1);
    }
  }

  /** `sentence_id_matcher.search(xml).group(0)`, or `None` when there is no match. */
  function SearchSentId(xml: string): (r: Option<string>)
    ensures r.Some? ==> |r.value| > 0 && '"' !in r.value
  {
    match FirstMatch(xml, 0)
    case None => None
    case Some(p) =>
      var v := xml[p..p + MatchAt(xml, p).value];
      assert forall k :: 0 <= k < |v| ==> v[k] == xml[p + k];
      Some(v)
  }

  /** `sentence_id_matcher.sub(id, xml)` from position `i`: a match is replaced and the scan resumes after it. */
  function SubFrom(xml: string, i: nat, id: string): string
    decreases |xml| - i
  {
    if i >= |xml| then ""
    else match MatchAt(xml, i)
      case Some(n) => id + SubFrom(xml, i + n, id)
      case None => [xml[i]] + SubFrom(xml, i + 1, id)
  }

  /** `sentence_id_matcher.sub(id, xml)`: every sentence id value becomes `id`. */
  function SubSentIds(xml: string, id: string): string {
    SubFrom(xml, 0, id)
  }

  /** Positions without a match are copied as they are. */
  lemma {:induction false} SubSkip(xml: string, i: nat, p: nat, id: string)
    requires i <= p <= |xml|
    requires forall j :: i <= j < p ==> MatchAt(xml, j).None?
    ensures SubFrom(xml, i, id) == xml[i..p] + SubFrom(xml, p, id)
    decreases p - i
  {
    if i < p {
      SubCopy(xml, i, id);
      SubSkip(xml, i + 1, p, id);
      var head, middle, tail := [xml[i]], xml[i + 1..p], SubFrom(xml, p, id);
      assert xml[i..p] == head + middle;
      assert head + (middle + tail) == (head + middle) + tail;
    }
  }

  /** Without an id in the XML, `sub` changes nothing. */
  lemma NoSentIdUnchanged(xml: string, id: string)
    ensures SearchSentId(xml).None? ==> SubSentIds(xml, id) == xml
  {
    if SearchSentId(xml).None? {
      FirstMatchIsFirst(xml, 0);
      SubSkip(xml, 0, |xml|, id);
    }
  }

  /**
   * In the rewritten XML the first sentence id is the caller's, when it is
   * non-empty and has no quote and the XML had an id at all.
   */
  lemma SearchAfterSub(xml: string, id: string)
    requires id != [] && '"' !in id && SearchSentId(xml).Some?
    ensures SearchSentId(SubSentIds(xml, id)) == Some(id)
  {
    var p := FirstMatch(xml, 0).value;
    var n := MatchAt(xml, p).value;
    var rest := SubFrom(xml, p + n + 1, id);
    var r := SubSentIds(xml, id);
    SubAtFirst(xml, id, p, n);
    FirstMatchIsFirst(xml, 0);
    NoEarlierMatch(xml, r, p, p + n);
    assert r[p - 8..p] == xml[p - 8..p];
    MatchAtValue(r, p, id, rest);
    FirstMatchAt(r, p);
    assert r[p..p + |id|] == id;
  }

  /** The rewritten XML: the text before the first id, the caller's id, and the rest from the closing quote on. */
  lemma SubAtFirst(xml: string, id: string, p: nat, n: nat)
    requires FirstMatch(xml, 0) == Some(p) && MatchAt(xml, p) == Some(n)
    ensures SubSentIds(xml, id) == xml[..p] + id + "\"" + SubFrom(xml, p + n + 1, id)
  {
    FirstMatchIsFirst(xml, 0);
    SubSkip(xml, 0, p, id);
    SubMatchStep(xml, p, n, id);
  }

  /** At a match the id replaces the value, and the closing quote is copied. */
  lemma SubMatchStep(xml: string, p: nat, n: nat, id: string)
    requires MatchAt(xml, p) == Some(n)
    ensures SubFrom(xml, p, id) == id + "\"" + SubFrom(xml, p + n + 1, id)
  {
    SubReplace(xml, p, n, id);
    assert xml[p + n] == '"';
    SubCopy(xml, p + n, id);
  }

  lemma SubReplace(xml: string, i: nat, n: nat, id: string)
    requires MatchAt(xml, i) == Some(n)
    ensures SubFrom(xml, i, id) == id + SubFrom(xml, i + n, id)
  {
  }

  lemma SubCopy(xml: string, i: nat, id: string)
    requires i < |xml| && MatchAt(xml, i).None?
    ensures SubFrom(xml, i, id) == [xml[i]] + SubFrom(xml, i + 1, id)
  {
  }

  /** Text that agrees with `xml` before `p`, where `xml` has no match but a quote at `q`, has no match before `p` either. */
  lemma NoEarlierMatch(xml: string, r: string, p: nat, q: nat)
    requires p < q < |xml| && xml[q] == '"' && p <= |r| && r[..p] == xml[..p]
    requires forall j :: 0 <= j < p ==> MatchAt(xml, j).None?
    ensures forall j :: 0 <= j < p ==> MatchAt(r, j).None?
  {
    forall j | 0 <= j < p
      ensures MatchAt(r, j).None?
    {
      assert r[j] == r[..p][j];
      if AfterSentIdOpen(r, j) && r[j] != '"' {
        assert r[j - 8..j] == r[..p][j - 8..j];
        QuoteAt(xml, j, q);
      }
    }
  }

  /** The pattern matches a whole quote-free id that is followed by a quote. */
  lemma MatchAtValue(r: string, p: nat, id: string, rest: string)
    requires AfterSentIdOpen(r, p) && p <= |r| && r[p..] == id + "\"" + rest
    requires id != [] && '"' !in id
    ensures MatchAt(r, p) == Some(|id|)
  {
    assert forall k :: 0 <= k < |id| ==> r[p + k] == id[k];
    assert r[p + |id|] == '"';
    assert QuoteFrom(r, p) == Some(p + |id|);
  }

  /** A quote at `q` after `j` means the pattern matches at `j` when its lookbehind and first character fit. */
  lemma QuoteAt(xml: string, j: nat, q: nat)
    requires AfterSentIdOpen(xml, j) && j < q < |xml| && xml[q] == '"' && xml[j] != '"'
    ensures MatchAt(xml, j).Some?
  {
  }

  /** A match at `p` with none before it is the first match. */
  lemma {:induction false} FirstMatchAt(xml: string, p: nat)
    requires p < |xml| && MatchAt(xml, p).Some?
    requires forall j :: 0 <= j < p ==> MatchAt(xml, j).None?
    ensures FirstMatch(xml, 0) == Some(p)
  {
    FirstMatchFrom(xml, 0, p);
  }

  lemma {:induction false} FirstMatchFrom(xml: string, i: nat, p: nat)
    requires i <= p < |xml| && MatchAt(xml, p).Some?
    requires forall j :: i <= j < p ==> MatchAt(xml, j).None?
    ensures FirstMatch(xml, i) == Some(p)
    decreases p - i
  {
    if i < p {
      FirstMatchFrom(xml, i + 1, p);
    }
  }

  // The `<sentence` position

  /** `\w` on the characters this model distinguishes: ASCII letters, digits and `_`. */
  predicate IsWordChar(c: char) {
    'a' <= c <= 'z' || 'A' <= c <= 'Z' || '0' <= c <= '9' || c == '_'
  }

  /** The empty match of the tag pattern: `<sentence` ends at `p`, and no word character or `-` follows. */
  predicate TagEndsAt(xml: string, p: nat) {
    9 <= p <= |xml| && xml[p - 9..p] == SentenceTag && !(p < |xml| && (IsWordChar(xml[p]) || xml[p] == '-'))
  }

  /** `sentence_tag_matcher.sub(attribute, xml)` from position `i`: `attribute` goes into every empty match. */
  function InjectFrom(xml: string, i: nat, attribute: string): string
    requires i <= |xml|
    decreases |xml| - i
  {
    (if TagEndsAt(xml, i) then attribute else "") + (if i == |xml| then "" else [xml[i]] + InjectFrom(xml, i + 1, attribute))
  }

  /** The attribute the server client injects: ` sentid="<id>"`. */
  function SentIdAttribute(id: string): string {
    " " + SentIdOpen + id + "\""
  }

  /** `sentence_tag_matcher.sub(f' sentid="{id}"', xml)` */
  function InjectSentId(xml: string, id: string): string {
    InjectFrom(xml, 0, SentIdAttribute(id))
  }

  /** Positions that end no tag are copied as they are. */
  lemma {:induction false} InjectSkip(xml: string, i: nat, p: nat, attribute: string)
    requires i <= p <= |xml|
    requires forall j :: i <= j < p ==> !TagEndsAt(xml, j)
    ensures InjectFrom(xml, i, attribute) == xml[i..p] + InjectFrom(xml, p, attribute)
    decreases p - i
  {
    if i < p {
      InjectSkip(xml, i + 1, p, attribute);
      assert xml[i..p] == [xml[i]] + xml[i + 1..p];
    }
  }

  /** XML without a `<sentence` tag is left as it is. */
  lemma NoTagUnchanged(xml: string, attribute: string)
    requires !Contains(xml, SentenceTag)
    ensures InjectFrom(xml, 0, attribute) == xml
  {
    forall j | 0 <= j <= |xml|
      ensures !TagEndsAt(xml, j)
    {
      if TagEndsAt(xml, j) {
        ContainsAt(xml, SentenceTag, j - 9);
      }
    }
    InjectSkip(xml, 0, |xml|, attribute);
  }

  /** The attribute lands right after the first tag: the text up to it, the attribute, then the rest. */
  lemma InjectAfterFirstTag(xml: string, p: nat, attribute: string)
    requires TagEndsAt(xml, p)
    requires forall j :: 0 <= j < p ==> !TagEndsAt(xml, j)
    ensures Contains(InjectFrom(xml, 0, attribute), SentenceTag + attribute)
  {
    InjectSkip(xml, 0, p, attribute);
    var r := InjectFrom(xml, 0, attribute);
    var tail := if p == |xml| then "" else [xml[p]] + InjectFrom(xml, p + 1, attribute);
    assert r == xml[..p] + attribute + tail;
    assert r[p - 9..p + |attribute|] == SentenceTag + attribute;
    ContainsAt(r, SentenceTag + attribute, p - 9);
  }
}
