/**
 * The annotator that enriches the nodes of a Lassy parse from a table of
 * rules. Columns whose header starts with `@` are matchers, the others are
 * assigners; a node takes the assigners of the first rule whose matchers it
 * satisfies. The CSV dialect detection and reading, and the XML parser and
 * serialiser, are inputs: the table is given as rows of cells, the parse of
 * an annotation as the attribute maps of its `node` elements in document
 * order, and the serialiser as a function of the annotation and the new maps.
 */
module EnrichLassy {
  import Seqs
  import opened Wrappers
  import opened Dicts
  import opened Models
  import AlpinoAnnotator

  // Reading the table

  /**
   * The column dicts built from the header row: a header `@k` maps `k` to its
   * column among the matchers, any other header maps itself among the
   * assigners; a repeated header keeps its first position and its last column.
   */
  function Columns(headers: seq<string>): (Dict<nat>, Dict<nat>)
  {
    if headers == [] then ([], [])
    else
      var n := |headers| - 1;
      var (matchers, assigners) := Columns(headers[..n]);
      var h := headers[n];
      if IsMatcherHeader(h) then (Set<nat>(matchers, h[1..], n), assigners)
      else (matchers, Set<nat>(assigners, h, n))
  }

  predicate IsMatcherHeader(h: string) {
    |h| > 0 && h[0] == '@'
  }

  /** A key is a matcher exactly when some header is `@` and the key. */
  lemma {:induction false} MatcherKeys(headers: seq<string>, k: string)
    ensures Has(Columns(headers).0, k) <==> ['@'] + k in headers
  {
    if headers != [] {
      var n := |headers| - 1;
      MatcherKeys(headers[..n], k);
      Seqs.InLast(headers, ['@'] + k);
      MatcherHeader(headers[n], k);
    }
  }

  /** A matcher's column is the last header that is `@` and the key. */
  lemma {:induction false} MatcherColumn(headers: seq<string>, k: string)
    requires Has(Columns(headers).0, k)
    ensures var c := Get(Columns(headers).0, k);
            c < |headers| && headers[c] == ['@'] + k && ['@'] + k !in headers[c + 1..]
  {
    var n := |headers| - 1;
    var h := headers[n];
    MatcherHeader(h, k);
    if h != ['@'] + k {
      MatcherColumn(headers[..n], k);
      var c := Get(Columns(headers).0, k);
      Seqs.AfterLast(headers, c);
      Seqs.InLast(headers[c + 1..], ['@'] + k);
    }
  }

  lemma MatcherHeader(h: string, k: string)
    ensures h == ['@'] + k <==> IsMatcherHeader(h) && h[1..] == k
  {
    if IsMatcherHeader(h) && h[1..] == k {
      assert h == [h[0]] + h[1..];
    }
  }

  /** A header is an assigner exactly when it does not start with `@`. */
  lemma {:induction false} AssignerKeys(headers: seq<string>, h: string)
    ensures Has(Columns(headers).1, h) <==> !IsMatcherHeader(h) && h in headers
  {
    if headers != [] {
      var n := |headers| - 1;
      AssignerKeys(headers[..n], h);
      Seqs.InLast(headers, h);
    }
  }

  /** An assigner's column is the last header equal to it. */
  lemma {:induction false} AssignerColumn(headers: seq<string>, h: string)
    requires Has(Columns(headers).1, h)
    ensures var c := Get(Columns(headers).1, h);
            c < |headers| && headers[c] == h && h !in headers[c + 1..]
  {
    var n := |headers| - 1;
    if headers[n] != h || IsMatcherHeader(h) {
      AssignerKeys(headers[..n], h);
      AssignerColumn(headers[..n], h);
      var c := Get(Columns(headers).1, h);
      Seqs.AfterLast(headers, c);
      Seqs.InLast(headers[c + 1..], h);
    }
  }

  /** Whether every column a dict names exists in the row. */
  predicate InRange(columns: Dict<nat>, row: seq<string>) {
    forall i :: 0 <= i < |columns| ==> columns[i].1 < |row|
  }

  /** `{key: row[index] for key, index in columns.items() if row[index]}` */
  function Pick(columns: Dict<nat>, row: seq<string>): (r: Dict<string>)
    requires InRange(columns, row)
    ensures forall k :: Has(r, k) <==> Has(columns, k) && row[Get(columns, k)] != ""
    ensures forall k :: Has(r, k) ==> Get(r, k) == row[Get(columns, k)]
    decreases |columns|
  {
    if columns == [] then []
    else
      DictTail(columns);
      var (key, index) := columns[0];
      var rest := Pick(columns[1..], row);
      if row[index] == "" then rest
      else
        DictCons(key, row[index], rest);
        [(key, row[index])] + rest
  }

  /** The rule of one row: its non-empty matcher cells and its non-empty assigner cells. */
  datatype Enrichment = Enrichment(matchers: Dict<string>, assigners: Dict<string>)

  /** The rules of the data rows, each row's rule once per cell; an error when a non-empty row lacks a column. */
  function Rules(matchers: Dict<nat>, assigners: Dict<nat>, rows: seq<seq<string>>): Result<seq<Enrichment>>
  {
    if rows == [] then Ok([])
    else
      var n := |rows| - 1;
      var row := rows[n];
      match Rules(matchers, assigners, rows[..n])
      case Err(e) => Err(e)
      case Ok(rules) =>
        if row == [] then Ok(rules)
        else if !InRange(matchers, row) || !InRange(assigners, row) then Err("IndexError: list index out of range")
        else Ok(rules + seq(|row|, _ => Enrichment(Pick(matchers, row), Pick(assigners, row))))
  }

  /** Once a prefix of the rows fails, all of them fail the same way. */
  lemma {:induction false} RulesErrStays(matchers: Dict<nat>, assigners: Dict<nat>, rows: seq<seq<string>>, k: nat)
    requires k <= |rows| && Rules(matchers, assigners, rows[..k]).Err?
    ensures Rules(matchers, assigners, rows) == Rules(matchers, assigners, rows[..k])
    decreases |rows| - k
  {
    if k < |rows| {
      assert rows[..k + 1][..k] == rows[..k];
      assert Rules(matchers, assigners, rows[..k + 1]) == Rules(matchers, assigners, rows[..k]);
      RulesErrStays(matchers, assigners, rows, k + 1);
    } else {
      assert rows[..k] == rows;
    }
  }

  /** The total number of cells of the rows. */
  function Cells(rows: seq<seq<string>>): nat {
    if rows == [] then 0 else Cells(rows[..|rows| - 1]) + |rows[|rows| - 1]|
  }

  /**
   * Reading the rows fails exactly when a non-empty row is too short for some
   * column, and otherwise yields one rule per cell.
   */
  lemma {:induction false} RulesOutcome(matchers: Dict<nat>, assigners: Dict<nat>, rows: seq<seq<string>>)
    ensures Rules(matchers, assigners, rows).Ok? <==>
              forall i :: 0 <= i < |rows| && rows[i] != [] ==> InRange(matchers, rows[i]) && InRange(assigners, rows[i])
    ensures Rules(matchers, assigners, rows).Ok? ==> |Rules(matchers, assigners, rows).value| == Cells(rows)
  {
    if rows != [] {
      var n := |rows| - 1;
      RulesOutcome(matchers, assigners, rows[..n]);
      assert forall i :: 0 <= i < n ==> rows[..n][i] == rows[i];
    }
  }

  /** `EnrichLassyAnnotator`: the rules, in table order. */
  class EnrichLassyAnnotator {
    var enrichments: seq<Enrichment>

    constructor (enrichments: seq<Enrichment>)
      ensures this.enrichments == enrichments
    {
      this.enrichments := enrichments;
    }
  }

  /** The table read by the annotator's constructor: the header row, then the data rows. */
  function Table(table: seq<seq<string>>): Result<seq<Enrichment>> {
    if table == [] then Err("StopIteration")
    else
      var (matchers, assigners) := Columns(table[0]);
      Rules(matchers, assigners, table[1..])
  }

  /** `EnrichLassyAnnotator(enrichment_file)` over the rows of the file. */
  method Load(table: seq<seq<string>>) returns (r: Result<EnrichLassyAnnotator>)
    ensures r.Ok? ==> fresh(r.value) && Table(table) == Ok(r.value.enrichments)
    ensures r.Err? ==> Table(table) == Err(r.error)
  {
    if table == [] {
      return Err("StopIteration");
    }
    var matchers, assigners := ReadHeaders(table[0]);
    var rules := ReadRows(matchers, assigners, table[1..]);
    match rules {
      case Err(e) =>
        return Err(e);
      case Ok(enrichments) =>
        var annotator := new EnrichLassyAnnotator(enrichments);
        return Ok(annotator);
    }
  }

  /** The loop over the header row. */
  method ReadHeaders(headers: seq<string>) returns (matchers: Dict<nat>, assigners: Dict<nat>)
    ensures (matchers, assigners) == Columns(headers)
  {
    matchers, assigners := [], [];
    var i := 0;
    while i < |headers|
      invariant 0 <= i <= |headers|
      invariant (matchers, assigners) == Columns(headers[..i])
    {
      assert headers[..i + 1][..i] == headers[..i];
      var header := headers[i];
      if |header| > 0 && header[0] == '@' {
        matchers := Set<nat>(matchers, header[1..], i);
      } else {
        assigners := Set<nat>(assigners, header, i);
      }
      i := i + 1;
    }
    assert headers[..i] == headers;
  }

  /** The loop over the data rows, appending each row's rule once per cell. */
  method ReadRows(matchers: Dict<nat>, assigners: Dict<nat>, rows: seq<seq<string>>) returns (r: Result<seq<Enrichment>>)
    ensures r == Rules(matchers, assigners, rows)
  {
    var enrichments: seq<Enrichment> := [];
    var k := 0;
    while k < |rows|
      invariant 0 <= k <= |rows|
      invariant Rules(matchers, assigners, rows[..k]) == Ok(enrichments)
    {
      var row := rows[k];
      assert rows[..k + 1][..k] == rows[..k];
      if row != [] && (!InRange(matchers, row) || !InRange(assigners, row)) {
        RulesErrStays(matchers, assigners, rows, k + 1);
        return Err("IndexError: list index out of range");
      }
      var rule := if row == [] then Enrichment([], []) else Enrichment(Pick(matchers, row), Pick(assigners, row));
      var before := enrichments;
      var c := 0;
      while c < |row|
        invariant 0 <= c <= |row|
        invariant enrichments == before + seq(c, _ => rule)
      {
        enrichments := enrichments + [rule];
        c := c + 1;
      }
      k := k + 1;
    }
    assert rows[..k] == rows;
    return Ok(enrichments);
  }

  // Matching nodes

  /** A node of the parse, whose attributes the rules rewrite. */
  class Node {
    var attrib: Dict<string>

    constructor (attrib: Dict<string>)
      ensures this.attrib == attrib
    {
      this.attrib := attrib;
    }
  }

  /** Every matcher names an attribute the node has, with the matcher's value; a missing attribute does not match. */
  predicate Matches(e: Enrichment, attrib: Dict<string>) {
    forall i :: 0 <= i < |e.matchers| ==> Has(attrib, e.matchers[i].0) && Get(attrib, e.matchers[i].0) == e.matchers[i].1
  }

  /** `Enrichment.is_match(node)`: on a match the assigners overwrite the node's attributes in order. */
  method IsMatch(e: Enrichment, node: Node) returns (matched: bool)
    modifies node
    ensures matched == Matches(e, old(node.attrib))
    ensures node.attrib == if matched then Overlay(old(node.attrib), e.assigners) else old(node.attrib)
  {
    var i := 0;
    while i < |e.matchers|
      invariant 0 <= i <= |e.matchers|
      invariant forall j :: 0 <= j < i ==> Has(node.attrib, e.matchers[j].0) && Get(node.attrib, e.matchers[j].0) == e.matchers[j].1
    {
      var key := e.matchers[i].0;
      if !Has(node.attrib, key) || Get(node.attrib, key) != e.matchers[i].1 {
        return false;
      }
      i := i + 1;
    }
    var j := 0;
    while j < |e.assigners|
      invariant 0 <= j <= |e.assigners|
      invariant Overlay(node.attrib, e.assigners[j..]) == Overlay(old(node.attrib), e.assigners)
    {
      var rest: Dict<string> := e.assigners[j..];
      assert rest[1..] == e.assigners[j + 1..];
      node.attrib := Set(node.attrib, e.assigners[j].0, e.assigners[j].1);
      j := j + 1;
    }
    return true;
  }

  /** The first rule a node's attributes match, if any. */
  function FirstRule(rules: seq<Enrichment>, attrib: Dict<string>): (r: Option<nat>)
    ensures r.Some? ==> r.value < |rules| && Matches(rules[r.value], attrib)
    ensures r.Some? ==> forall j :: 0 <= j < r.value ==> !Matches(rules[j], attrib)
    ensures r.None? ==> forall j :: 0 <= j < |rules| ==> !Matches(rules[j], attrib)
  {
    if rules == [] then None
    else if Matches(rules[0], attrib) then Some(0)
    else match FirstRule(rules[1..], attrib)
      case None => None
      case Some(j) => Some(j + 1)
  }

  /** The attributes after the rules: the first matching rule's assigners, and no other rule's. */
  function Enriched(rules: seq<Enrichment>, attrib: Dict<string>): Dict<string> {
    match FirstRule(rules, attrib)
    case None => attrib
    case Some(j) => Overlay(attrib, rules[j].assigners)
  }

  /** The rules tried in order on one node, stopping at the first match. */
  method EnrichNode(rules: seq<Enrichment>, node: Node) returns (matched: bool)
    modifies node
    ensures matched == FirstRule(rules, old(node.attrib)).Some?
    ensures node.attrib == Enriched(rules, old(node.attrib))
  {
    var i := 0;
    while i < |rules|
      invariant 0 <= i <= |rules|
      invariant node.attrib == old(node.attrib)
      invariant forall j :: 0 <= j < i ==> !Matches(rules[j], node.attrib)
    {
      matched := IsMatch(rules[i], node);
      if matched {
        FirstRuleAt(rules, old(node.attrib), i);
        return;
      }
      i := i + 1;
    }
    FirstRuleNone(rules, node.attrib);
    return false;
  }

  lemma {:induction false} FirstRuleAt(rules: seq<Enrichment>, attrib: Dict<string>, i: nat)
    requires i < |rules| && Matches(rules[i], attrib)
    requires forall j :: 0 <= j < i ==> !Matches(rules[j], attrib)
    ensures FirstRule(rules, attrib) == Some(i)
  {
    if i > 0 {
      FirstRuleAt(rules[1..], attrib, i - 1);
    }
  }

  lemma FirstRuleNone(rules: seq<Enrichment>, attrib: Dict<string>)
    requires forall j :: 0 <= j < |rules| ==> !Matches(rules[j], attrib)
    ensures FirstRule(rules, attrib).None?
  {
  }

  /** Whether some node of the parse matches some rule. */
  predicate AnyMatch(rules: seq<Enrichment>, attribs: seq<Dict<string>>) {
    Seqs.Any(attribs, a => FirstRule(rules, a).Some?)
  }

  /** Some node matches exactly when some rule matches the attributes of some node. */
  lemma AnyMatchIff(rules: seq<Enrichment>, attribs: seq<Dict<string>>)
    ensures AnyMatch(rules, attribs) <==> exists i :: 0 <= i < |attribs| && FirstRule(rules, attribs[i]).Some?
  {
    Seqs.AnyIff(attribs, a => FirstRule(rules, a).Some?);
  }

  lemma AnyMatchStep(rules: seq<Enrichment>, attribs: seq<Dict<string>>, k: nat)
    requires k < |attribs|
    ensures AnyMatch(rules, attribs[..k + 1]) <==> AnyMatch(rules, attribs[..k]) || FirstRule(rules, attribs[k]).Some?
  {
    Seqs.PrefixNext(attribs, k);
  }

  /** The loop over the `node` elements of a parse, whose attributes are `before`: each node enriched, and whether any matched. */
  method EnrichNodes(rules: seq<Enrichment>, nodes: seq<Node>, ghost before: seq<Dict<string>>) returns (modified: bool)
    requires |before| == |nodes|
    requires forall i :: 0 <= i < |nodes| ==> nodes[i].attrib == before[i]
    requires forall i, j :: 0 <= i < j < |nodes| ==> nodes[i] != nodes[j]
    modifies set i | 0 <= i < |nodes| :: nodes[i]
    ensures forall i :: 0 <= i < |nodes| ==> nodes[i].attrib == Enriched(rules, before[i])
    ensures modified == AnyMatch(rules, before)
  {
    modified := false;
    var k := 0;
    while k < |nodes|
      invariant 0 <= k <= |nodes|
      invariant forall i :: 0 <= i < k ==> nodes[i].attrib == Enriched(rules, before[i])
      invariant forall i :: k <= i < |nodes| ==> nodes[i].attrib == before[i]
      invariant modified == AnyMatch(rules, before[..k])
    {
      var matched := EnrichNode(rules, nodes[k]);
      AnyMatchStep(rules, before, k);
      if matched {
        modified := true;
      }
      k := k + 1;
    }
    assert before[..k] == before;
  }

  /** The annotation after enrichment: re-serialised when some node matched, otherwise unchanged. */
  function EnrichedAnnotation(rules: seq<Enrichment>, parse: string -> seq<Dict<string>>,
                              serialize: (string, seq<Dict<string>>) -> string, annotation: string): string
  {
    var attribs := parse(annotation);
    if AnyMatch(rules, attribs) then serialize(annotation, seq(|attribs|, i requires 0 <= i < |attribs| => Enriched(rules, attribs[i])))
    else annotation
  }

  /** `enrich_utterance`: the parse's nodes enriched, and the annotation replaced only when one matched. */
  method EnrichUtterance(rules: seq<Enrichment>, parse: string -> seq<Dict<string>>,
                         serialize: (string, seq<Dict<string>>) -> string, annotation: string) returns (r: string)
    ensures r == EnrichedAnnotation(rules, parse, serialize, annotation)
  {
    var attribs := parse(annotation);
    var nodes := NewNodes(attribs);
    var modified := EnrichNodes(rules, nodes, attribs);
    if modified {
      var enriched := Attributes(nodes);
      assert enriched == seq(|attribs|, i requires 0 <= i < |attribs| => Enriched(rules, attribs[i]));
      r := serialize(annotation, enriched);
    } else {
      r := annotation;
    }
  }

  /** One new node per attribute map. */
  method NewNodes(attribs: seq<Dict<string>>) returns (nodes: seq<Node>)
    ensures |nodes| == |attribs|
    ensures forall i :: 0 <= i < |nodes| ==> fresh(nodes[i]) && nodes[i].attrib == attribs[i]
    ensures forall i, j :: 0 <= i < j < |nodes| ==> nodes[i] != nodes[j]
  {
    nodes := [];
    while |nodes| < |attribs|
      invariant |nodes| <= |attribs|
      invariant forall i :: 0 <= i < |nodes| ==> fresh(nodes[i]) && nodes[i].attrib == attribs[i]
      invariant forall i, j :: 0 <= i < j < |nodes| ==> nodes[i] != nodes[j]
    {
      var node := new Node(attribs[|nodes|]);
      nodes := nodes + [node];
    }
  }

  /** The attribute maps of the nodes, in order. */
  method Attributes(nodes: seq<Node>) returns (attribs: seq<Dict<string>>)
    ensures |attribs| == |nodes| && forall i :: 0 <= i < |nodes| ==> attribs[i] == nodes[i].attrib
  {
    attribs := [];
    while |attribs| < |nodes|
      invariant |attribs| <= |nodes|
      invariant forall i :: 0 <= i < |attribs| ==> attribs[i] == nodes[i].attrib
    {
      attribs := attribs + [nodes[|attribs|].attrib];
    }
  }

  /** An utterance after `annotate`: enriched when it has a parse, untouched otherwise. */
  function AnnotatedUtterance(rules: seq<Enrichment>, parse: string -> seq<Dict<string>>,
                              serialize: (string, seq<Dict<string>>) -> string, u: Utterance): Utterance
  {
    var key := AlpinoAnnotator.AnnotationKey;
    if Has(u.annotations, key) then
      u.(annotations := Set(u.annotations, key, EnrichedAnnotation(rules, parse, serialize, Get(u.annotations, key))))
    else u
  }

  /** The errors `annotate` logs: one per utterance without a parse, in order. */
  function MissingErrors(us: seq<Utterance>): seq<string> {
    if us == [] then []
    else
      var n := |us| - 1;
      MissingErrors(us[..n]) +
        if Has(us[n].annotations, AlpinoAnnotator.AnnotationKey) then []
        else ["Lassy annotation missing for: " + us[n].id + "|" + us[n].text]
  }

  /** `annotate(document)`: the enriched document and the errors logged on the way. */
  method Annotate(annotator: EnrichLassyAnnotator, parse: string -> seq<Dict<string>>,
                  serialize: (string, seq<Dict<string>>) -> string, document: Document)
    returns (result: Document, errors: seq<string>)
    ensures result.collectedFile == document.collectedFile && result.metadata == document.metadata
    ensures result.subpath == document.subpath && |result.utterances| == |document.utterances|
    ensures forall k :: 0 <= k < |document.utterances| ==>
              result.utterances[k] == AnnotatedUtterance(annotator.enrichments, parse, serialize, document.utterances[k])
    ensures errors == MissingErrors(document.utterances)
  {
    var us := document.utterances;
    var done: seq<Utterance> := [];
    errors := [];
    var key := AlpinoAnnotator.AnnotationKey;
    while |done| < |us|
      invariant |done| <= |us|
      invariant forall k :: 0 <= k < |done| ==> done[k] == AnnotatedUtterance(annotator.enrichments, parse, serialize, us[k])
      invariant errors == MissingErrors(us[..|done|])
    {
      var i := |done|;
      var u := us[i];
      assert us[..i + 1][..i] == us[..i];
      if !Has(u.annotations, key) {
        errors := errors + ["Lassy annotation missing for: " + u.id + "|" + u.text];
        done := done + [u];
      } else {
        var enriched := EnrichUtterance(annotator.enrichments, parse, serialize, Get(u.annotations, key));
        done := done + [u.(annotations := Set(u.annotations, key, enriched))];
      }
    }
    assert us[..|done|] == us;
    result := document.(utterances := done);
  }

  /**
   * An utterance keeps its text, id and metadata, and every annotation but the
   * parse; the parse changes only when some node of it matched a rule.
   */
  lemma AnnotatedKeeps(rules: seq<Enrichment>, parse: string -> seq<Dict<string>>,
                       serialize: (string, seq<Dict<string>>) -> string, u: Utterance)
    ensures var v := AnnotatedUtterance(rules, parse, serialize, u);
            var key := AlpinoAnnotator.AnnotationKey;
            && v.text == u.text && v.id == u.id && v.metadata == u.metadata && v.line == u.line
            && Keys(v.annotations) == Keys(u.annotations)
            && (forall x :: Has(u.annotations, x) && x != key ==> Get(v.annotations, x) == Get(u.annotations, x))
            && (Has(u.annotations, key) && !AnyMatch(rules, parse(Get(u.annotations, key))) ==> v == u)
  {
    var key := AlpinoAnnotator.AnnotationKey;
    if Has(u.annotations, key) && !AnyMatch(rules, parse(Get(u.annotations, key))) {
      DictEquality(Set(u.annotations, key, Get(u.annotations, key)), u.annotations);
    }
  }
}
