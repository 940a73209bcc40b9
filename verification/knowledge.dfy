/** The knowledge-base half of `RAGEngine`: `build_knowledge_base` turns documents
    into chunk records, `retrieve_context` maps search hits to context entries.
    The text splitter and the similarity search are library code and come in as
    functions. */
module Knowledge {
  import opened PyStr

  /** A `{filename, content}` document as `DocumentProcessor` stores it. */
  datatype Document = Document(filename: string, content: string)

  /** One stored chunk with the metadata `build_knowledge_base` attaches to it. */
  datatype ChunkRecord = ChunkRecord(text: string, source: string, chunkId: nat, totalChunks: nat)

  /** One result of `similarity_search_with_score`: the chunk text, the `source`
      metadata if the stored record has one, and the score. */
  datatype Hit = Hit(content: string, source: Option<string>, score: real)

  /** One dict of the list `retrieve_context` returns. */
  datatype ContextEntry = ContextEntry(content: string, source: string, score: real)

  /** The engine's state: the last documents given to a build, the records of the
      persisted `langchain` collection under `./vector_db` (which may already hold
      records written by earlier runs), and whether `vector_store` has been set (`live`). */
  datatype Engine = Engine(documents: seq<Document>, collection: seq<ChunkRecord>, live: bool)

  /** A freshly constructed engine over a collection that already holds `disk`. */
  function Started(disk: seq<ChunkRecord>): (e: Engine)
    ensures !e.live && e.documents == [] && e.collection == disk
  {
    Engine([], disk, false)
  }

  /** `RecursiveCharacterTextSplitter.split_text` (size 1000, overlap 200). */
  type Splitter = string -> seq<string>

  /** `similarity_search_with_score(query, k)` over the stored records. */
  type Search = (seq<ChunkRecord>, string, int) -> seq<Hit>

  /** The records of one document: chunk `i` of `n` carries `chunk_id = i` and `total_chunks = n`. */
  function DocumentChunks(d: Document, split: Splitter): (rs: seq<ChunkRecord>)
    ensures |rs| == |split(d.content)|
  {
    var chunks := split(d.content);
    seq(|chunks|, i requires 0 <= i < |chunks| => ChunkRecord(chunks[i], d.filename, i, |chunks|))
  }

  /** The records of all documents, in document order and then chunk order. */
  function AllChunks(docs: seq<Document>, split: Splitter): seq<ChunkRecord>
  {
    if |docs| == 0 then [] else DocumentChunks(docs[0], split) + AllChunks(docs[1..], split)
  }

  /** The sum over `docs` of each document's chunk count. */
  function TotalChunks(docs: seq<Document>, split: Splitter): nat
  {
    if |docs| == 0 then 0 else |split(docs[0].content)| + TotalChunks(docs[1..], split)
  }

  /** `build_knowledge_base(documents)`: the engine keeps `docs`, and
      `Chroma.from_documents` adds their chunk records after the records the
      persisted collection already holds; the call returns how many records this
      build added, which is the sum of the per-document chunk counts. */
  function BuildKnowledgeBase(e: Engine, docs: seq<Document>, split: Splitter): (r: (Engine, nat))
    ensures r.0.documents == docs && r.0.live
    ensures |r.0.collection| == |e.collection| + r.1
    ensures r.0.collection[..|e.collection|] == e.collection
    ensures r.1 == TotalChunks(docs, split)
  {
    ChunkCount(docs, split);
    var records := AllChunks(docs, split);
    assert (e.collection + records)[..|e.collection|] == e.collection;
    (Engine(docs, e.collection + records, true), |records|)
  }

  lemma {:induction false} ChunkCount(docs: seq<Document>, split: Splitter)
    ensures |AllChunks(docs, split)| == TotalChunks(docs, split)
    decreases |docs|
  {
    if |docs| > 0 {
      ChunkCount(docs[1..], split);
    }
  }

  lemma {:induction false} AllChunksSplit(docs: seq<Document>, split: Splitter, d: nat)
    requires d < |docs|
    ensures AllChunks(docs, split)
            == AllChunks(docs[..d], split) + DocumentChunks(docs[d], split) + AllChunks(docs[d + 1..], split)
    decreases d
  {
    if d > 0 {
      AllChunksSplit(docs[1..], split, d - 1);
      assert docs[1..][..d - 1] == docs[1..d];
      assert docs[1..][d - 1 + 1..] == docs[d + 1..];
      assert docs[..d][1..] == docs[1..d];
      assert docs[1..][d - 1] == docs[d];
    } else {
      assert docs[1..] == docs[d + 1..];
    }
  }

  /** Chunk `i` of document `d` sits right after the chunks of the documents
      before `d`, with that document's filename, index `i` and chunk count. */
  lemma ChunkPlacement(docs: seq<Document>, split: Splitter, d: nat, i: nat)
    requires d < |docs| && i < |split(docs[d].content)|
    ensures var at := TotalChunks(docs[..d], split) + i;
      && at < |AllChunks(docs, split)|
      && AllChunks(docs, split)[at]
         == ChunkRecord(split(docs[d].content)[i], docs[d].filename, i, |split(docs[d].content)|)
  {
    AllChunksSplit(docs, split, d);
    ChunkCount(docs[..d], split);
  }

  /** Every record comes from some document: its source is that document's
      filename, its total is that document's chunk count, and its index is below it. */
  lemma {:induction false} ChunksComeFromDocuments(docs: seq<Document>, split: Splitter, k: nat)
    requires k < |AllChunks(docs, split)|
    ensures var rec := AllChunks(docs, split)[k];
      && rec.chunkId < rec.totalChunks
      && exists d :: 0 <= d < |docs| && rec.source == docs[d].filename
                     && rec.totalChunks == |split(docs[d].content)|
                     && rec.text == split(docs[d].content)[rec.chunkId]
    decreases |docs|
  {
    var first := DocumentChunks(docs[0], split);
    if k < |first| {
      assert AllChunks(docs, split)[k] == first[k];
    } else {
      assert AllChunks(docs, split)[k] == AllChunks(docs[1..], split)[k - |first|];
      ChunksComeFromDocuments(docs[1..], split, k - |first|);
      var rec := AllChunks(docs, split)[k];
      var d :| 0 <= d < |docs[1..]| && rec.source == docs[1..][d].filename
               && rec.totalChunks == |split(docs[1..][d].content)|
               && rec.text == split(docs[1..][d].content)[rec.chunkId];
      assert docs[1..][d] == docs[d + 1];
    }
  }

  /** `retrieve_context(query, k)`: nothing before a build; afterwards one entry per
      search hit over the collection, in hit order, with `'unknown'` for a hit
      without a source. */
  function RetrieveContext(e: Engine, query: string, k: int, search: Search): (r: seq<ContextEntry>)
    ensures !e.live ==> r == []
    ensures e.live ==> |r| == |search(e.collection, query, k)|
    ensures e.live ==> forall i :: 0 <= i < |r| ==>
              var h := search(e.collection, query, k)[i];
              && r[i].content == h.content && r[i].score == h.score
              && (h.source.Some? ==> r[i].source == h.source.value)
              && (h.source.None? ==> r[i].source == "unknown")
  {
    if !e.live then []
    else
      var hits := search(e.collection, query, k);
      seq(|hits|, i requires 0 <= i < |hits| => ContextEntry(hits[i].content, hits[i].source.GetOr("unknown"), hits[i].score))
  }

  /** Retrieval before any build is empty, whatever the collection already holds,
      the query and the search. */
  lemma RetrieveBeforeBuild(disk: seq<ChunkRecord>, query: string, k: int, search: Search)
    ensures RetrieveContext(Started(disk), query, k, search) == []
  {
  }

  /** A build keeps every record the collection held and appends this build's
      records, chunk `i` of document `d` right after the earlier documents' chunks. */
  lemma BuildAppendsChunks(e: Engine, docs: seq<Document>, split: Splitter, d: nat, i: nat)
    requires d < |docs| && i < |split(docs[d].content)|
    ensures var c := BuildKnowledgeBase(e, docs, split).0.collection;
      var at := |e.collection| + TotalChunks(docs[..d], split) + i;
      && at < |c|
      && c[at] == ChunkRecord(split(docs[d].content)[i], docs[d].filename, i, |split(docs[d].content)|)
  {
    ChunkPlacement(docs, split, d, i);
    var records := AllChunks(docs, split);
    var at := TotalChunks(docs[..d], split) + i;
    assert (e.collection + records)[|e.collection| + at] == records[at];
  }

  /** After a build, retrieval searches the earlier records of the collection
      followed by exactly the records the build produced. */
  lemma RetrieveAfterBuild(e: Engine, docs: seq<Document>, split: Splitter, query: string, k: int, search: Search)
    ensures var built := BuildKnowledgeBase(e, docs, split).0;
      |RetrieveContext(built, query, k, search)| == |search(e.collection + AllChunks(docs, split), query, k)|
  {
  }

  /** Two builds leave both builds' records in the collection, the first build's
      before the second's. */
  lemma BuildsAccumulate(e: Engine, first: seq<Document>, second: seq<Document>, split: Splitter)
    ensures var twice := BuildKnowledgeBase(BuildKnowledgeBase(e, first, split).0, second, split).0;
      twice.collection == e.collection + AllChunks(first, split) + AllChunks(second, split)
      && twice.documents == second
  {
  }
}
