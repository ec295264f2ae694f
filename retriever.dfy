/**
 * The retriever: it asks the vector-store query engine for scored nodes,
 * keeps those at or above the score threshold, and serialises each kept node
 * into the text block the reranker parses.
 */
module Retriever {
  import opened Wrappers
  import opened Text
  import opened Scores

  /** A metadata value as the ingester and the loaders store it. */
  datatype MetaValue = Str(s: string) | Int(i: int) | Null

  /** Python truthiness of a metadata value. */
  predicate Truthy(v: MetaValue) {
    match v
    case Str(s) => s != []
    case Int(i) => i != 0
    case Null => false
  }

  /** How an f-string renders a metadata value. */
  function Show(v: MetaValue): string {
    match v
    case Str(s) => s
    case Int(i) => IntToString(i)
    case Null => "None"
  }

  /** A node returned by the query engine: its similarity score, metadata and text. */
  datatype ScoredNode = ScoredNode(score: Score, metadata: map<string, MetaValue>, text: string)

  /** The llama_index query engine, reduced to the nodes it returns for a query. */
  datatype QueryEngine = QueryEngine(query: string -> seq<ScoredNode>)

  const NotInitialized := "Vector store not initialized"

  /** `metadata.get('doc_source') or metadata.get('file_name', 'Unknown Document')`. */
  function DocName(metadata: map<string, MetaValue>): (r: string)
    ensures "doc_source" in metadata && Truthy(metadata["doc_source"]) ==> r == Show(metadata["doc_source"])
    ensures ("doc_source" !in metadata || !Truthy(metadata["doc_source"])) && "file_name" in metadata ==> r == Show(metadata["file_name"])
    ensures ("doc_source" !in metadata || !Truthy(metadata["doc_source"])) && "file_name" !in metadata ==> r == "Unknown Document"
  {
    if "doc_source" in metadata && Truthy(metadata["doc_source"]) then Show(metadata["doc_source"])
    else if "file_name" in metadata then Show(metadata["file_name"])
    else "Unknown Document"
  }

  /** `metadata.get('page_label', metadata.get('page_number', 'N/A'))`: a present key wins even when its value is falsy. */
  function PageOf(metadata: map<string, MetaValue>): (r: string)
    ensures "page_label" in metadata ==> r == Show(metadata["page_label"])
    ensures "page_label" !in metadata && "page_number" in metadata ==> r == Show(metadata["page_number"])
    ensures "page_label" !in metadata && "page_number" !in metadata ==> r == "N/A"
  {
    if "page_label" in metadata then Show(metadata["page_label"])
    else if "page_number" in metadata then Show(metadata["page_number"])
    else "N/A"
  }

  /** The five f-string lines of one block, from the values they interpolate. */
  function BlockText(docName: string, pageNumber: string, score: string, text: string): (r: string)
    ensures StartsWith(r, "--- Source Document ---\n")
    ensures |r| == 71 + |docName| + |pageNumber| + |score| + |text|
    ensures r[|r| - |text| - 2..] == text + "\n\n"
  {
    var head := "--- Source Document ---\n"
      + ("Document: " + docName + "\n")
      + ("Page: " + pageNumber + "\n")
      + ("Relevance Score: " + score + "\n");
    var tail := "Content: " + text + "\n\n";
    assert tail[9..] == text + "\n\n";
    assert (head + tail)[|head| + 9..] == tail[9..];
    head + tail
  }

  /** The block one kept node contributes to the search result. */
  function Block(node: ScoredNode): string {
    BlockText(DocName(node.metadata), PageOf(node.metadata), FormatScore(node.score), node.text)
  }

  /** `[n for n in response.source_nodes if n.score >= min_score]`. */
  function Kept(nodes: seq<ScoredNode>, minScore: Score): (r: seq<ScoredNode>)
    ensures |r| <= |nodes|
  {
    if nodes == [] then []
    else (if nodes[0].score >= minScore then [nodes[0]] else []) + Kept(nodes[1..], minScore)
  }

  /** A node is kept exactly when it is one of the engine's nodes and reaches the threshold. */
  lemma {:induction false} KeptMembers(nodes: seq<ScoredNode>, minScore: Score)
    ensures forall n :: n in Kept(nodes, minScore) <==> n in nodes && n.score >= minScore
  {
    if nodes != [] {
      KeptMembers(nodes[1..], minScore);
      assert nodes == [nodes[0]] + nodes[1..];
    }
  }

  /** The filter keeps the original order: it distributes over concatenation. */
  lemma {:induction false} KeptAppend(xs: seq<ScoredNode>, ys: seq<ScoredNode>, minScore: Score)
    ensures Kept(xs + ys, minScore) == Kept(xs, minScore) + Kept(ys, minScore)
  {
    if xs != [] {
      KeptAppend(xs[1..], ys, minScore);
      assert (xs + ys)[1..] == xs[1..] + ys;
    } else {
      assert xs + ys == ys;
    }
  }

  /** One formatted chunk per kept node. */
  function Chunks(nodes: seq<ScoredNode>): (r: seq<string>)
    ensures |r| == |nodes|
  {
    if nodes == [] then [] else Chunks(nodes[..|nodes| - 1]) + [Block(nodes[|nodes| - 1])]
  }

  lemma {:induction false} ChunksSnoc(nodes: seq<ScoredNode>, i: nat)
    requires i < |nodes|
    ensures Chunks(nodes[..i + 1]) == Chunks(nodes[..i]) + [Block(nodes[i])]
  {
    assert nodes[..i + 1][..i] == nodes[..i];
  }

  lemma {:induction false} ChunksNonEmpty(nodes: seq<ScoredNode>)
    ensures forall i :: 0 <= i < |Chunks(nodes)| ==> Chunks(nodes)[i] != []
  {
    if nodes != [] {
      ChunksNonEmpty(nodes[..|nodes| - 1]);
      assert Block(nodes[|nodes| - 1])[0] == '-';
    }
  }

  /**
   * A falsy `doc_source` (empty, zero or `None`) is passed over by `or`: the
   * name is the one the metadata would give without it.
   */
  lemma FalsySourceIgnored(metadata: map<string, MetaValue>)
    requires "doc_source" in metadata && !Truthy(metadata["doc_source"])
    ensures DocName(metadata) == DocName(metadata - {"doc_source"})
  {
  }

  /** `"".join(formatted_chunks)` for the nodes the engine returned. */
  function SearchText(nodes: seq<ScoredNode>, minScore: Score): string {
    Join(Chunks(Kept(nodes, minScore)), "")
  }

  /** What `search` returns or raises, given the engine (or its absence). */
  function Search(engine: Option<QueryEngine>, query: string, minScore: Score): (r: Result<string, string>)
    ensures engine.None? <==> r == Err(NotInitialized)
    ensures engine.Some? ==> r.Ok? && (r.value == [] <==> forall n :: n in engine.value.query(query) ==> n.score < minScore)
  {
    match engine
    case None => Err(NotInitialized)
    case Some(e) =>
      SearchTextEmpty(e.query(query), minScore);
      Ok(SearchText(e.query(query), minScore))
  }

  lemma {:induction false} JoinEmptyIsEmpty(chunks: seq<string>)
    requires forall i :: 0 <= i < |chunks| ==> chunks[i] != []
    ensures Join(chunks, "") == [] <==> chunks == []
  {
    if |chunks| > 1 {
      assert Join(chunks, "") == chunks[0] + "" + Join(chunks[1..], "");
    }
  }

  /** The result is empty exactly when no node reaches the threshold. */
  lemma {:induction false} SearchTextEmpty(nodes: seq<ScoredNode>, minScore: Score)
    ensures SearchText(nodes, minScore) == [] <==> forall n :: n in nodes ==> n.score < minScore
  {
    var kept := Kept(nodes, minScore);
    KeptMembers(nodes, minScore);
    ChunksNonEmpty(kept);
    JoinEmptyIsEmpty(Chunks(kept));
    if kept != [] {
      assert kept[0] in kept;
    }
  }

  /** The retriever object: the query engine `_setup_vector_store` built, if any. */
  class Retriever {
    const queryEngine: Option<QueryEngine>

    constructor(engine: Option<QueryEngine>)
      ensures queryEngine == engine
    {
      queryEngine := engine;
    }

    /** `search`: raise without an engine, else filter and format the engine's nodes. */
    method SearchNodes(query: string, minScore: Score) returns (r: Result<string, string>)
      ensures queryEngine.None? ==> r == Err(NotInitialized)
      ensures queryEngine.Some? ==> r.Ok? && r.value == SearchText(queryEngine.value.query(query), minScore)
    {
      if queryEngine.None? {
        return Err(NotInitialized);
      }
      var response := queryEngine.value.query(query);
      var filteredNodes := Kept(response, minScore);
      var formattedChunks: seq<string> := [];
      for i := 0 to |filteredNodes|
        invariant formattedChunks == Chunks(filteredNodes[..i])
      {
        var node := filteredNodes[i];
        ChunksSnoc(filteredNodes, i);
        formattedChunks := formattedChunks + [Block(node)];
      }
      assert filteredNodes[..|filteredNodes|] == filteredNodes;
      r := Ok(Join(formattedChunks, ""));
    }
  }
}
