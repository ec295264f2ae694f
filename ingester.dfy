/**
 * The ingestion run: clean the database, check the embedding dimension, tag
 * every loaded document with the file it was converted from, number the
 * parsed nodes, and write the split chunks to the vector index fifty at a
 * time. The embedding model, the loader, the markdown parser and the token
 * splitter are library code; what they return is handed in as values.
 */
module Ingester {
  import opened Wrappers
  import opened Text
  import opened TextFacts
  import opened Retriever

  const SourceTag := "# Source:"
  const BatchSize := 50

  // ---------------------------------------------------------------------
  // doc_source

  /** A loaded markdown document; the tagging loop adds to its metadata in place. */
  class Document {
    var text: string
    var metadata: map<string, MetaValue>

    constructor(text: string, metadata: map<string, MetaValue>)
      ensures this.text == text && this.metadata == metadata
    {
      this.text := text;
      this.metadata := metadata;
    }
  }

  /** `text.split('\n')[0] if text else ""`. */
  function FirstLine(text: string): (r: string)
    ensures StartsWith(text, r) && Lacks(r, '\n')
    ensures |r| < |text| ==> text[|r|] == '\n'
  {
    if text != [] then
      var r := Split(text, "\n")[0];
      SplitHeadIsPrefix(text, "\n");
      SplitPiecesAreFree(text, "\n");
      IsAtChar(r, '\n');
      assert Lacks(r, '\n') by {
        forall i | 0 <= i < |r| ensures r[i] != '\n' {
          assert !IsAt(r, "\n", i);
        }
      }
      assert |r| < |text| ==> text[|r|] == '\n' by {
        if Find(text, "\n") < 0 {
          SplitNone(text, "\n");
        } else {
          SplitAt(text, "\n");
          FindIsAt(text, "\n");
          assert text[Find(text, "\n")..Find(text, "\n") + 1] == "\n";
        }
      }
      r
    else []
  }

  /**
   * The `doc_source` the tagging loop records for a document: its first
   * line with every `# Source:` removed and then stripped, when that line
   * starts with `# Source:`; nothing otherwise.
   */
  function DocSource(text: string): (r: Option<string>)
    ensures r.Some? ==> StartsWith(text, SourceTag)
    ensures r.Some? && r.value != [] ==> !IsSpace(r.value[0]) && !IsSpace(r.value[|r.value| - 1])
  {
    var first := FirstLine(text);
    assert StartsWith(first, SourceTag) ==> text[..|SourceTag|] == first[..|SourceTag|];
    if StartsWith(first, SourceTag) then Some(Strip(Replace(first, SourceTag, []))) else None
  }

  /** A document's metadata after tagging: `doc_source` set or overwritten, nothing else touched. */
  function Tagged(metadata: map<string, MetaValue>, text: string): (r: map<string, MetaValue>)
    ensures r.Keys == metadata.Keys + (if DocSource(text).Some? then {"doc_source"} else {})
    ensures forall k :: k in metadata && k != "doc_source" ==> r[k] == metadata[k]
    ensures "doc_source" in r ==> r["doc_source"] == match DocSource(text)
                                                     case Some(v) => Str(v)
                                                     case None => metadata["doc_source"]
  {
    match DocSource(text)
    case Some(v) => metadata["doc_source" := Str(v)]
    case None => metadata
  }

  /** A document gets a `doc_source` exactly when its text starts with `# Source:`; an empty text never does. */
  lemma {:induction false} SourceIffHeader(text: string)
    ensures DocSource(text).Some? <==> StartsWith(text, SourceTag)
    ensures text == [] ==> DocSource(text).None?
  {
    var first := FirstLine(text);
    assert Lacks(SourceTag, '\n');
    if StartsWith(text, SourceTag) && !StartsWith(first, SourceTag) {
      assert false;
    }
    if StartsWith(first, SourceTag) {
      assert text[..|SourceTag|] == first[..|SourceTag|];
    }
  }

  /** Tagging twice is tagging once. */
  lemma {:induction false} TaggedIdempotent(metadata: map<string, MetaValue>, text: string)
    ensures Tagged(Tagged(metadata, text), text) == Tagged(metadata, text)
  {
    if DocSource(text).Some? {
      var v := Str(DocSource(text).value);
      assert metadata["doc_source" := v]["doc_source" := v] == metadata["doc_source" := v];
    }
  }

  /**
   * The tagging loop. Each document is tagged from its own text; a document
   * listed twice is tagged twice, to the same effect.
   */
  method TagSources(documents: seq<Document>)
    modifies set d | d in documents
    ensures forall d :: d in documents ==> d.text == old(d.text) && d.metadata == Tagged(old(d.metadata), d.text)
  {
    for i := 0 to |documents|
      invariant forall d :: d in documents ==> d.text == old(d.text)
      invariant forall d :: d in documents ==>
        d.metadata == if d in documents[..i] then Tagged(old(d.metadata), d.text) else old(d.metadata)
    {
      var doc := documents[i];
      ghost var before := doc.metadata;
      var firstLine := FirstLine(doc.text);
      if StartsWith(firstLine, SourceTag) {
        doc.metadata := doc.metadata["doc_source" := Str(Strip(Replace(firstLine, SourceTag, [])))];
      }
      assert doc.metadata == Tagged(before, doc.text);
      TaggedIdempotent(old(doc.metadata), doc.text);
      assert documents[..i + 1] == documents[..i] + [doc];
    }
  }

  // ---------------------------------------------------------------------
  // page_number

  /** A parsed node; `metadata` is `None` when the node has no such attribute. */
  class Node {
    var text: string
    var metadata: Option<map<string, MetaValue>>

    constructor(text: string, metadata: Option<map<string, MetaValue>>)
      ensures this.text == text && this.metadata == metadata
    {
      this.text := text;
      this.metadata := metadata;
    }
  }

  /**
   * A node's metadata once numbered: `page_number` is its 1-based position,
   * overwriting any earlier value; every other key is kept, and absent or
   * empty metadata starts from an empty dict.
   */
  function Numbered(metadata: Option<map<string, MetaValue>>, position: nat): (r: map<string, MetaValue>)
    ensures "page_number" in r && r["page_number"] == Int(position)
    ensures forall k :: k in r <==> k == "page_number" || (metadata.Some? && k in metadata.value)
    ensures forall k :: metadata.Some? && k in metadata.value && k != "page_number" ==> r[k] == metadata.value[k]
  {
    var base := if metadata.None? || metadata.value == map[] then map[] else metadata.value;
    base["page_number" := Int(position)]
  }

  /** The retriever shows a numbered node's position as its page, unless the node carries a `page_label`. */
  lemma {:induction false} NumberedPageShown(metadata: Option<map<string, MetaValue>>, position: nat)
    requires metadata.None? || "page_label" !in metadata.value
    ensures PageOf(Numbered(metadata, position)) == IntToString(position)
  {
    var r := Numbered(metadata, position);
    assert "page_label" !in r;
  }

  /** The numbering loop: node `i` (from 0) gets page `i + 1`. */
  method NumberPages(nodes: seq<Node>)
    requires forall i, j :: 0 <= i < j < |nodes| ==> nodes[i] != nodes[j]
    modifies set n | n in nodes
    ensures forall k :: 0 <= k < |nodes| ==>
      nodes[k].text == old(nodes[k].text) && nodes[k].metadata == Some(Numbered(old(nodes[k].metadata), k + 1))
  {
    for i := 0 to |nodes|
      invariant forall k :: 0 <= k < |nodes| ==> nodes[k].text == old(nodes[k].text)
      invariant forall k :: 0 <= k < i ==> nodes[k].metadata == Some(Numbered(old(nodes[k].metadata), k + 1))
      invariant forall k :: i <= k < |nodes| ==> nodes[k].metadata == old(nodes[k].metadata)
    {
      var node := nodes[i];
      if node.metadata.None? || node.metadata.value == map[] {
        node.metadata := Some(map[]);
      }
      node.metadata := Some(node.metadata.value["page_number" := Int(i + 1)]);
    }
  }

  // ---------------------------------------------------------------------
  // Batches

  /** A chunk produced by the token splitter, as the index stores it. */
  datatype Chunk = Chunk(text: string, metadata: map<string, MetaValue>)

  /** The slices `items[i:i+size]` for `i` in `range(0, len(items), size)`. */
  function Batches<T>(items: seq<T>, size: nat): (r: seq<seq<T>>)
    requires size > 0
    ensures r == [] <==> items == []
    ensures r != [] ==> (|r| - 1) * size < |items| <= |r| * size
    decreases |items|
  {
    if items == [] then []
    else if |items| <= size then [items]
    else
      var rest := Batches(items[size..], size);
      assert (|rest| + 1 - 1) * size == |rest| * size;
      assert (|rest| + 1) * size == |rest| * size + size;
      [items[..size]] + rest
  }

  /** The batches laid end to end. */
  function Flatten<T>(batches: seq<seq<T>>): seq<T> {
    if batches == [] then [] else batches[0] + Flatten(batches[1..])
  }

  /** The batches cover the items exactly once and in order. */
  lemma {:induction false} BatchesCover<T>(items: seq<T>, size: nat)
    requires size > 0
    ensures Flatten(Batches(items, size)) == items
    decreases |items|
  {
    var bs := Batches(items, size);
    if items == [] {
    } else if |items| <= size {
      assert Flatten(bs) == items + Flatten([]);
      assert items + [] == items;
    } else {
      var rest := items[size..];
      BatchesCover(rest, size);
      assert bs[1..] == Batches(rest, size);
      assert items == items[..size] + rest;
    }
  }

  /**
   * Each batch holds between one and `size` items, every batch but the last
   * holds exactly `size`.
   */
  lemma {:induction false} BatchesSized<T>(items: seq<T>, size: nat)
    requires size > 0
    ensures forall k :: 0 <= k < |Batches(items, size)| ==> 1 <= |Batches(items, size)[k]| <= size
    ensures forall k :: 0 <= k < |Batches(items, size)| - 1 ==> |Batches(items, size)[k]| == size
    decreases |items|
  {
    if |items| > size {
      var rest := items[size..];
      BatchesSized(rest, size);
      var bs := Batches(items, size);
      assert bs[1..] == Batches(rest, size);
      forall k | 1 <= k < |bs| ensures bs[k] == Batches(rest, size)[k - 1] {
      }
    }
  }

  // ---------------------------------------------------------------------
  // The database and the run

  /** What the run does to the database, in order. */
  datatype Event = Cleaned | Inserted(batch: seq<Chunk>) | IndexChecked

  /** The insert events for a sequence of batches. */
  function InsertsOf(batches: seq<seq<Chunk>>): (r: seq<Event>)
    ensures |r| == |batches|
    ensures forall k :: 0 <= k < |r| ==> r[k] == Inserted(batches[k])
  {
    seq(|batches|, k requires 0 <= k < |batches| => Inserted(batches[k]))
  }

  /** The chunks the vector table holds after a trace of events: cleaning empties it. */
  function Contents(trace: seq<Event>): seq<Chunk> {
    if trace == [] then []
    else
      var init := Contents(trace[..|trace| - 1]);
      match trace[|trace| - 1]
      case Cleaned => []
      case Inserted(batch) => init + batch
      case IndexChecked => init
  }

  /** The database: the events it has seen, from which its contents follow. */
  class Store {
    var trace: seq<Event>

    constructor()
      ensures trace == []
    {
      trace := [];
    }

    /** `clean_db`: drop and recreate the tables. */
    method CleanDb()
      modifies this
      ensures trace == old(trace) + [Cleaned]
    {
      trace := trace + [Cleaned];
    }

    /** `index.insert_nodes(batch)`. */
    method InsertNodes(batch: seq<Chunk>)
      modifies this
      ensures trace == old(trace) + [Inserted(batch)]
    {
      trace := trace + [Inserted(batch)];
    }

    /** `check_index_in_db`: a read-only report. */
    method CheckIndexInDb()
      modifies this
      ensures trace == old(trace) + [IndexChecked]
    {
      trace := trace + [IndexChecked];
    }
  }

  /** The batching loop: one insert per slice of at most fifty chunks, in order. */
  method InsertBatches(store: Store, chunks: seq<Chunk>)
    modifies store
    ensures store.trace == old(store.trace) + InsertsOf(Batches(chunks, BatchSize))
  {
    ghost var done: seq<seq<Chunk>> := [];
    var i := 0;
    while i < |chunks|
      invariant 0 <= i
      invariant Batches(chunks, BatchSize) == done + (if i < |chunks| then Batches(chunks[i..], BatchSize) else [])
      invariant store.trace == old(store.trace) + InsertsOf(done)
      decreases |chunks| - i
    {
      var end := if i + BatchSize <= |chunks| then i + BatchSize else |chunks|;
      var batch := chunks[i..end];
      store.InsertNodes(batch);
      NextBatch(chunks, BatchSize, i, done);
      InsertsOfSnoc(done, batch);
      done := done + [batch];
      i := i + BatchSize;
    }
    assert done + [] == done;
  }

  /** The batches from position `i` on: the slice up to `end`, then the batches after it. */
  lemma BatchesStep<T>(items: seq<T>, size: nat, i: nat, end: nat)
    requires size > 0 && i < |items|
    requires end == if i + size <= |items| then i + size else |items|
    ensures Batches(items[i..], size) == [items[i..end]] + (if end < |items| then Batches(items[end..], size) else [])
  {
    var rest := items[i..];
    if end < |items| {
      assert rest[..size] == items[i..end];
      assert rest[size..] == items[end..];
    } else {
      assert rest == items[i..end];
    }
  }

  /** The loop step: the batches seen so far grow by the slice at `i`. */
  lemma NextBatch<T>(items: seq<T>, size: nat, i: nat, done: seq<seq<T>>)
    requires size > 0 && i < |items|
    requires Batches(items, size) == done + Batches(items[i..], size)
    ensures var end := if i + size <= |items| then i + size else |items|;
      Batches(items, size) == (done + [items[i..end]]) + (if i + size < |items| then Batches(items[i + size..], size) else [])
  {
    var end := if i + size <= |items| then i + size else |items|;
    BatchesStep(items, size, i, end);
  }

  lemma InsertsOfSnoc(batches: seq<seq<Chunk>>, last: seq<Chunk>)
    ensures InsertsOf(batches + [last]) == InsertsOf(batches) + [Inserted(last)]
  {
  }

  lemma ContentsAfterInsert(trace: seq<Event>, batch: seq<Chunk>)
    ensures Contents(trace + [Inserted(batch)]) == Contents(trace) + batch
  {
    assert (trace + [Inserted(batch)])[..|trace|] == trace;
  }

  /** Every event of a trace that inserts the batches and no more. */
  lemma {:induction false} ContentsAfterInserts(trace: seq<Event>, batches: seq<seq<Chunk>>)
    ensures Contents(trace + InsertsOf(batches)) == Contents(trace) + Flatten(batches)
    decreases |batches|
  {
    if batches == [] {
      assert trace + InsertsOf(batches) == trace;
      assert Contents(trace) + [] == Contents(trace);
    } else {
      var init := batches[..|batches| - 1];
      var last := batches[|batches| - 1];
      ContentsAfterInserts(trace, init);
      assert batches == init + [last];
      ContentsInsertStep(trace, init, last);
    }
  }

  /** One more insert adds its batch at the end of the contents. */
  lemma ContentsInsertStep(trace: seq<Event>, init: seq<seq<Chunk>>, last: seq<Chunk>)
    requires Contents(trace + InsertsOf(init)) == Contents(trace) + Flatten(init)
    ensures Contents(trace + InsertsOf(init + [last])) == Contents(trace) + Flatten(init + [last])
  {
    var t := trace + InsertsOf(init);
    InsertsOfSnoc(init, last);
    assert trace + InsertsOf(init + [last]) == t + [Inserted(last)];
    ContentsAfterInsert(t, last);
    FlattenSnoc(init, last);
    assert (Contents(trace) + Flatten(init)) + last == Contents(trace) + (Flatten(init) + last);
  }

  lemma {:induction false} FlattenSnoc<T>(batches: seq<seq<T>>, last: seq<T>)
    ensures Flatten(batches + [last]) == Flatten(batches) + last
    decreases |batches|
  {
    if batches == [] {
      assert [] + [last] == [last];
      assert Flatten([last]) == last + Flatten([]);
    } else {
      FlattenSnoc(batches[1..], last);
      assert (batches + [last])[1..] == batches[1..] + [last];
    }
  }

  /** After a successful run the vector table holds exactly the split chunks, in order. */
  lemma {:induction false} IngestedContents(trace: seq<Event>, chunks: seq<Chunk>)
    ensures Contents(trace + [Cleaned] + InsertsOf(Batches(chunks, BatchSize)) + [IndexChecked]) == chunks
  {
    var bs := Batches(chunks, BatchSize);
    ContentsAfterInserts(trace + [Cleaned], bs);
    BatchesCover(chunks, BatchSize);
    assert Contents(trace + [Cleaned]) == [];
    var t := trace + [Cleaned] + InsertsOf(bs);
    assert (t + [IndexChecked])[..|t|] == t;
  }

  function MismatchMessage(expected: int, got: nat): string {
    "Embedding dimension mismatch! Expected " + IntToString(expected) + ", got " + IntToString(got)
  }

  /** The ingester; `store` is the database its `db_admin` and vector index write to. */
  class Ingester {
    const store: Store

    constructor(store: Store)
      ensures this.store == store
    {
      this.store := store;
    }

    /**
     * `ingest`. `checkDim` is the length of the embedding of a probe text,
     * `documents` what the loader returns, `nodes` what the markdown parser
     * makes of the tagged documents and `chunks` what the token splitter makes
     * of the numbered nodes. A dimension mismatch stops the run right after
     * the database is cleaned, before any document is touched.
     */
    method Ingest(expectedDim: int, checkDim: nat, documents: seq<Document>, nodes: seq<Node>, chunks: seq<Chunk>)
      returns (r: Result<(), string>)
      requires forall i, j :: 0 <= i < j < |nodes| ==> nodes[i] != nodes[j]
      modifies store, set d | d in documents, set n | n in nodes
      ensures checkDim != expectedDim ==>
        && r == Err(MismatchMessage(expectedDim, checkDim))
        && store.trace == old(store.trace) + [Cleaned]
        && (forall d :: d in documents ==> unchanged(d))
        && (forall n :: n in nodes ==> unchanged(n))
      ensures checkDim == expectedDim ==>
        && r == Ok(())
        && store.trace == old(store.trace) + [Cleaned] + InsertsOf(Batches(chunks, BatchSize)) + [IndexChecked]
        && (forall d :: d in documents ==> d.text == old(d.text) && d.metadata == Tagged(old(d.metadata), d.text))
        && (forall k :: 0 <= k < |nodes| ==>
              nodes[k].text == old(nodes[k].text) && nodes[k].metadata == Some(Numbered(old(nodes[k].metadata), k + 1)))
    {
      store.CleanDb();
      if checkDim != expectedDim {
        return Err(MismatchMessage(expectedDim, checkDim));
      }
      TagSources(documents);
      NumberPages(nodes);
      InsertBatches(store, chunks);
      store.CheckIndexInDb();
      return Ok(());
    }
  }
}
