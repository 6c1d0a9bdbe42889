/**
 * The conversion pipeline: every file the collector yields is read into
 * documents, every annotator runs on each document in turn, the writer writes
 * the document to the target, and the target's flushed output is yielded.
 * The pipeline is a generator; `demand` is the number of results its consumer
 * asks for, and the target is closed only when the consumer asks past the last.
 */
module Converter {
  import opened Models
  import opened MemoryTargets
  import Seqs

  /** What the pipeline does, in order; documents are numbered from 0 in output order. */
  datatype Event =
    | Annotated(document: nat, annotator: nat)
    | Written(document: nat, content: string)
    | Flushed(document: nat, output: string)
    | Closed

  /** The documents of all files, file by file, each file's in reader order. */
  function Documents(files: seq<CollectedFile>, read: CollectedFile -> seq<Document>): (docs: seq<Document>)
    ensures files == [] ==> docs == []
  {
    if files == [] then [] else Documents(files[..|files| - 1], read) + read(files[|files| - 1])
  }

  /** A document after every annotator, in list order, has run on it. */
  function ApplyAnnotators(doc: Document, annotators: seq<Document -> Document>): Document {
    if annotators == [] then doc else annotators[|annotators| - 1](ApplyAnnotators(doc, annotators[..|annotators| - 1]))
  }

  /** What the target holds at the flush of one document: what it held before, then every write. */
  function Rendered(doc: Document, annotators: seq<Document -> Document>, write: Document -> seq<TargetWrite>, before: string): string {
    before + Contents(write(ApplyAnnotators(doc, annotators)))
  }

  /** The first `n` annotators of document `k` having run, in order. */
  function Annotations(k: nat, n: nat): (r: seq<Event>)
    ensures |r| == n && forall i :: 0 <= i < n ==> r[i] == Annotated(k, i)
  {
    if n == 0 then [] else Annotations(k, n - 1) + [Annotated(k, n - 1)]
  }

  /** The writes of document `k`, in order. */
  function Writes(k: nat, ws: seq<TargetWrite>): (r: seq<Event>)
    ensures |r| == |ws| && forall i :: 0 <= i < |ws| ==> r[i] == Written(k, ws[i].content)
  {
    if ws == [] then [] else Writes(k, ws[..|ws| - 1]) + [Written(k, ws[|ws| - 1].content)]
  }

  /** The events for one document, numbered `k`: its annotations, its writes, one flush. */
  function DocumentEvents(k: nat, doc: Document, annotators: seq<Document -> Document>, write: Document -> seq<TargetWrite>, before: string): (r: seq<Event>)
    ensures |r| == |annotators| + |write(ApplyAnnotators(doc, annotators))| + 1
  {
    Annotations(k, |annotators|) + Writes(k, write(ApplyAnnotators(doc, annotators))) + [Flushed(k, Rendered(doc, annotators, write, before))]
  }

  /** Only the first flush sees what the target held before the pipeline started. */
  function Before(k: nat, initial: string): string {
    if k == 0 then initial else []
  }

  /** The events for the first `n` documents. */
  function Trace(docs: seq<Document>, n: nat, annotators: seq<Document -> Document>, write: Document -> seq<TargetWrite>, initial: string): seq<Event>
    requires n <= |docs|
  {
    if n == 0 then []
    else Trace(docs, n - 1, annotators, write, initial) + DocumentEvents(n - 1, docs[n - 1], annotators, write, Before(n - 1, initial))
  }

  /** The results yielded for the first `n` documents. */
  function Outputs(docs: seq<Document>, n: nat, annotators: seq<Document -> Document>, write: Document -> seq<TargetWrite>, initial: string): (r: seq<string>)
    requires n <= |docs|
  {
    if n == 0 then []
    else Outputs(docs, n - 1, annotators, write, initial) + [Rendered(docs[n - 1], annotators, write, Before(n - 1, initial))]
  }

  function Min(a: nat, b: nat): nat {
    if a <= b then a else b
  }

  /** One pass of the inner loop body: annotate, write, flush. */
  method ConvertDocument(k: nat, doc: Document, annotators: seq<Document -> Document>, write: Document -> seq<TargetWrite>, target: MemoryTarget)
    returns (result: string, events: seq<Event>)
    modifies target
    ensures result == Rendered(doc, annotators, write, old(target.buffer))
    ensures events == DocumentEvents(k, doc, annotators, write, old(target.buffer))
    ensures target.buffer == []
  {
    var annotated := doc;
    events := [];
    var ai := 0;
    while ai < |annotators|
      invariant 0 <= ai <= |annotators|
      invariant annotated == ApplyAnnotators(doc, annotators[..ai])
      invariant events == Annotations(k, ai)
    {
      assert annotators[..ai + 1][..ai] == annotators[..ai];
      annotated := annotators[ai](annotated);
      events := events + [Annotated(k, ai)];
      ai := ai + 1;
    }
    assert annotators[..ai] == annotators;
    var ws := write(annotated);
    ghost var before := target.buffer;
    var wi := 0;
    while wi < |ws|
      invariant 0 <= wi <= |ws|
      invariant target.buffer == before + Contents(ws[..wi])
      invariant events == Annotations(k, |annotators|) + Writes(k, ws[..wi])
    {
      Seqs.PrefixNext(ws, wi);
      Seqs.AppendOne(Annotations(k, |annotators|), Writes(k, ws[..wi]), Written(k, ws[wi].content));
      target.Write(annotated, ws[wi].content, ws[wi].filename, ws[wi].suffix);
      events := events + [Written(k, ws[wi].content)];
      wi := wi + 1;
    }
    assert ws[..wi] == ws;
    result := target.Flush();
    events := events + [Flushed(k, result)];
  }

  /**
   * The inner loop of `Converter.convert` over the documents `ds` of one file,
   * numbered from `count` on, stopping when the consumer's demand is met.
   */
  method ConvertFile(ghost all: seq<Document>, ghost initial: string, ds: seq<Document>, count: nat, demand: nat,
                     annotators: seq<Document -> Document>, write: Document -> seq<TargetWrite>, target: MemoryTarget,
                     outputs0: seq<string>, trace0: seq<Event>)
    returns (outputs: seq<string>, trace: seq<Event>, reached: nat)
    requires count + |ds| <= |all| && all[count..count + |ds|] == ds
    requires count < demand
    requires outputs0 == Outputs(all, count, annotators, write, initial)
    requires trace0 == Trace(all, count, annotators, write, initial)
    requires target.buffer == Before(count, initial)
    modifies target
    ensures reached == Min(count + |ds|, demand)
    ensures outputs == Outputs(all, reached, annotators, write, initial)
    ensures trace == Trace(all, reached, annotators, write, initial)
    ensures target.buffer == Before(reached, initial)
  {
    outputs, trace, reached := outputs0, trace0, count;
    var di := 0;
    while di < |ds|
      invariant 0 <= di <= |ds|
      invariant reached == count + di < demand
      invariant outputs == Outputs(all, reached, annotators, write, initial)
      invariant trace == Trace(all, reached, annotators, write, initial)
      invariant target.buffer == Before(reached, initial)
    {
      assert all[reached] == ds[di] by {
        assert all[count..count + |ds|][di] == ds[di];
      }
      var result, events := ConvertDocument(reached, ds[di], annotators, write, target);
      NextDocument(all, reached, annotators, write, initial);
      outputs := outputs + [result];
      trace := trace + events;
      di, reached := di + 1, reached + 1;
      if reached == demand {
        return;
      }
    }
  }

  lemma NextDocument(all: seq<Document>, k: nat, annotators: seq<Document -> Document>, write: Document -> seq<TargetWrite>, initial: string)
    requires k < |all|
    ensures Outputs(all, k + 1, annotators, write, initial) == Outputs(all, k, annotators, write, initial) + [Rendered(all[k], annotators, write, Before(k, initial))]
    ensures Trace(all, k + 1, annotators, write, initial) == Trace(all, k, annotators, write, initial) + DocumentEvents(k, all[k], annotators, write, Before(k, initial))
    ensures Before(k + 1, initial) == []
  {
  }

  /** The documents of one more file follow those of the files before it. */
  lemma NextFile(files: seq<CollectedFile>, i: nat, read: CollectedFile -> seq<Document>)
    requires i < |files|
    ensures Documents(files[..i + 1], read) == Documents(files[..i], read) + read(files[i])
    ensures Documents(files[..i + 1], read) <= Documents(files, read)
  {
    assert files[..i + 1][..i] == files[..i];
    DocumentsPrefix(files, i + 1, read);
  }

  /**
   * The outer loop of `Converter.convert` over the collected files, for a
   * consumer that asks for at least one result.
   */
  method ConvertFiles(files: seq<CollectedFile>, read: CollectedFile -> seq<Document>,
                      annotators: seq<Document -> Document>, write: Document -> seq<TargetWrite>,
                      target: MemoryTarget, demand: nat, ghost initial: string)
    returns (outputs: seq<string>, trace: seq<Event>, count: nat)
    requires 0 < demand && target.buffer == initial
    modifies target
    ensures count == Min(demand, |Documents(files, read)|)
    ensures outputs == Outputs(Documents(files, read), count, annotators, write, initial)
    ensures trace == Trace(Documents(files, read), count, annotators, write, initial)
    ensures target.buffer == Before(count, initial)
  {
    ghost var all := Documents(files, read);
    outputs, trace, count := [], [], 0;
    var fi := 0;
    while fi < |files|
      invariant 0 <= fi <= |files|
      invariant count == |Documents(files[..fi], read)| < demand
      invariant Documents(files[..fi], read) <= all
      invariant outputs == Outputs(all, count, annotators, write, initial)
      invariant trace == Trace(all, count, annotators, write, initial)
      invariant target.buffer == Before(count, initial)
    {
      var ds := read(files[fi]);
      NextFile(files, fi, read);
      assert all[count..count + |ds|] == ds;
      outputs, trace, count := ConvertFile(all, initial, ds, count, demand, annotators, write, target, outputs, trace);
      if count == demand {
        return;
      }
      fi := fi + 1;
    }
    assert files[..fi] == files;
  }

  /**
   * `Converter.convert`, run until its consumer has taken `demand` results or
   * the documents run out.
   */
  method Convert(files: seq<CollectedFile>, read: CollectedFile -> seq<Document>,
                 annotators: seq<Document -> Document>, write: Document -> seq<TargetWrite>,
                 target: MemoryTarget, demand: nat)
    returns (outputs: seq<string>, trace: seq<Event>)
    modifies target
    ensures var docs := Documents(files, read);
            var n := Min(demand, |docs|);
            && outputs == Outputs(docs, n, annotators, write, old(target.buffer))
            && trace == Trace(docs, n, annotators, write, old(target.buffer)) + (if demand > |docs| then [Closed] else [])
            && target.buffer == (if n == 0 then old(target.buffer) else [])
  {
    outputs, trace := [], [];
    if demand == 0 {
      return;
    }
    var count;
    outputs, trace, count := ConvertFiles(files, read, annotators, write, target, demand, target.buffer);
    if count < demand {
      target.Close();
      trace := trace + [Closed];
    }
  }

  /** The documents read from the first `i` files come first among all documents. */
  lemma {:induction false} DocumentsPrefix(files: seq<CollectedFile>, i: nat, read: CollectedFile -> seq<Document>)
    requires i <= |files|
    ensures Documents(files[..i], read) <= Documents(files, read)
    decreases |files| - i
  {
    if i < |files| {
      DocumentsPrefix(files, i + 1, read);
      assert files[..i + 1][..i] == files[..i];
    } else {
      assert files[..i] == files;
    }
  }
  /** The number of flushes in a trace. */
  function Flushes(t: seq<Event>): nat {
    if t == [] then 0 else Flushes(t[..|t| - 1]) + (if t[|t| - 1].Flushed? then 1 else 0)
  }

  lemma {:induction false} FlushesAppend(a: seq<Event>, b: seq<Event>)
    ensures Flushes(a + b) == Flushes(a) + Flushes(b)
    decreases |b|
  {
    if b == [] {
      assert a + b == a;
    } else {
      assert (a + b)[..|a + b| - 1] == a + b[..|b| - 1];
      FlushesAppend(a, b[..|b| - 1]);
    }
  }

  lemma {:induction false} FlushesNone(t: seq<Event>)
    requires forall i :: 0 <= i < |t| ==> !t[i].Flushed?
    ensures Flushes(t) == 0
  {
    if t != [] {
      FlushesNone(t[..|t| - 1]);
    }
  }

  /** Exactly one result is flushed per document. */
  lemma {:induction false} TraceFlushes(docs: seq<Document>, n: nat, annotators: seq<Document -> Document>, write: Document -> seq<TargetWrite>, initial: string)
    requires n <= |docs|
    ensures Flushes(Trace(docs, n, annotators, write, initial)) == n
  {
    if n > 0 {
      TraceFlushes(docs, n - 1, annotators, write, initial);
      assert Flushes(Trace(docs, n - 1, annotators, write, initial)) == n - 1;
      DocumentFlushesOnce(n - 1, docs[n - 1], annotators, write, Before(n - 1, initial));
      assert Flushes(DocumentEvents(n - 1, docs[n - 1], annotators, write, Before(n - 1, initial))) == 1;
      FlushesStep(Trace(docs, n - 1, annotators, write, initial), DocumentEvents(n - 1, docs[n - 1], annotators, write, Before(n - 1, initial)), Trace(docs, n, annotators, write, initial));
    }
  }

  lemma FlushesStep(prev: seq<Event>, events: seq<Event>, t: seq<Event>)
    requires t == prev + events
    ensures Flushes(t) == Flushes(prev) + Flushes(events)
  {
    FlushesAppend(prev, events);
  }

  /** Each document is flushed once. */
  lemma DocumentFlushesOnce(k: nat, doc: Document, annotators: seq<Document -> Document>, write: Document -> seq<TargetWrite>, before: string)
    ensures Flushes(DocumentEvents(k, doc, annotators, write, before)) == 1
  {
    var events := DocumentEvents(k, doc, annotators, write, before);
    var na := |annotators|;
    forall i | 0 <= i < |events| - 1 ensures !events[i].Flushed? {
      if i < na {
        assert events[i] == Annotated(k, i);
      }
    }
    FlushesNone(events[..|events| - 1]);
    assert Flushes(events) == Flushes(events[..|events| - 1]) + 1;
  }

  /** One result is yielded per document, the `k`-th being what the writer wrote for the `k`-th document. */
  lemma {:induction false} OutputsAt(docs: seq<Document>, n: nat, annotators: seq<Document -> Document>, write: Document -> seq<TargetWrite>, initial: string)
    requires n <= |docs|
    ensures |Outputs(docs, n, annotators, write, initial)| == n
    ensures forall k :: 0 <= k < n ==> Outputs(docs, n, annotators, write, initial)[k] == Rendered(docs[k], annotators, write, Before(k, initial))
  {
    if n > 0 {
      OutputsAt(docs, n - 1, annotators, write, initial);
      var prev := Outputs(docs, n - 1, annotators, write, initial);
      var r := Outputs(docs, n, annotators, write, initial);
      assert r == prev + [Rendered(docs[n - 1], annotators, write, Before(n - 1, initial))];
      forall k | 0 <= k < n - 1 ensures r[k] == Rendered(docs[k], annotators, write, Before(k, initial)) {
        assert r[k] == prev[k];
      }
    }
  }

  /** Where an event falls in the pipeline: its document, then annotation, write or flush. */
  function Rank(e: Event): nat {
    match e
    case Annotated(_, _) => 0
    case Written(_, _) => 1
    case Flushed(_, _) => 2
    case Closed => 3
  }

  /** `a` may come before `b`: an earlier document, or the same document and a stage no later. */
  predicate InOrder(a: Event, b: Event)
    requires !a.Closed? && !b.Closed?
  {
    a.document < b.document
    || (a.document == b.document && (Rank(a) < Rank(b) || (a.Annotated? && b.Annotated? && a.annotator < b.annotator) || (!a.Annotated? && Rank(a) == Rank(b))))
  }

  /** A trace of the first `n` documents, in pipeline order, with no close in it. */
  predicate WellOrdered(t: seq<Event>, n: nat) {
    && (forall i :: 0 <= i < |t| ==> !t[i].Closed? && t[i].document < n)
    && (forall i, j :: 0 <= i < j < |t| ==> InOrder(t[i], t[j]))
  }

  /**
   * Documents are handled one after another, and for each document every
   * annotator runs, in list order, before the writer writes it and the target
   * is flushed.
   */
  lemma {:induction false} TraceOrdered(docs: seq<Document>, n: nat, annotators: seq<Document -> Document>, write: Document -> seq<TargetWrite>, initial: string)
    requires n <= |docs|
    ensures WellOrdered(Trace(docs, n, annotators, write, initial), n)
  {
    if n > 0 {
      TraceOrdered(docs, n - 1, annotators, write, initial);
      var prefix := Trace(docs, n - 1, annotators, write, initial);
      var events := DocumentEvents(n - 1, docs[n - 1], annotators, write, Before(n - 1, initial));
      DocumentEventsOrdered(n - 1, docs[n - 1], annotators, write, Before(n - 1, initial));
      OrderedAppend(prefix, events, Trace(docs, n, annotators, write, initial), n);
    }
  }

  /** The events of document `k` all belong to it and come in pipeline order. */
  lemma DocumentEventsOrdered(k: nat, doc: Document, annotators: seq<Document -> Document>, write: Document -> seq<TargetWrite>, before: string)
    ensures var events := DocumentEvents(k, doc, annotators, write, before);
            && (forall i :: 0 <= i < |events| ==> !events[i].Closed? && events[i].document == k)
            && (forall i, j :: 0 <= i < j < |events| ==> InOrder(events[i], events[j]))
  {
    var events := DocumentEvents(k, doc, annotators, write, before);
    var na, nw := |annotators|, |write(ApplyAnnotators(doc, annotators))|;
    assert forall i :: 0 <= i < |events| ==> !events[i].Closed? && events[i].document == k;
    assert forall i :: 0 <= i < |events| ==> (i < na <==> events[i].Annotated?) && (i < na ==> events[i].annotator == i);
    assert forall i :: 0 <= i < |events| ==> (na <= i < na + nw <==> events[i].Written?);
  }

  /** The events of document `n - 1`, in order, appended to a well-ordered trace of the documents before it. */
  lemma OrderedAppend(prefix: seq<Event>, events: seq<Event>, t: seq<Event>, n: nat)
    requires n > 0 && t == prefix + events && WellOrdered(prefix, n - 1)
    requires forall i :: 0 <= i < |events| ==> !events[i].Closed? && events[i].document == n - 1
    requires forall i, j :: 0 <= i < j < |events| ==> InOrder(events[i], events[j])
    ensures WellOrdered(t, n)
  {
    forall i | 0 <= i < |t|
      ensures !t[i].Closed? && t[i].document < n
    {
      if i < |prefix| { assert t[i] == prefix[i]; } else { assert t[i] == events[i - |prefix|]; }
    }
    forall i, j | 0 <= i < j < |t|
      ensures InOrder(t[i], t[j])
    {
      if j < |prefix| {
        assert t[i] == prefix[i] && t[j] == prefix[j];
      } else if i < |prefix| {
        assert t[i] == prefix[i] && t[j] == events[j - |prefix|];
      } else {
        assert t[i] == events[i - |prefix|] && t[j] == events[j - |prefix|];
      }
    }
  }
}
