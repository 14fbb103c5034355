/** The corpus store: the chunk records read from the corpus file and one
    embedding row per chunk (`load_chunks_and_embeddings`). */
module Corpus {
  import opened Wrappers

  /** An embedding vector. Its components are never computed on here: the
      similarity between vectors is an oracle. */
  type Vector = seq<real>

  /** One JSON record of the corpus file. Each key the code reads may be
      missing from a record. */
  datatype Record = Record(chunk: Option<string>, videoTitle: Option<string>, embedding: Option<Vector>)

  /** The loaded corpus: the records and the embedding matrix. */
  datatype CorpusIndex = CorpusIndex(chunks: seq<Record>, embeddings: seq<Vector>)

  /** `c["embedding"]`. */
  function StoredEmbedding(c: Record): Result<Vector> {
    if c.embedding.Some? then Ok(c.embedding.value) else Err(KeyError("embedding"))
  }

  /** `c["chunk"]`. */
  function ChunkText(c: Record): Result<string> {
    if c.chunk.Some? then Ok(c.chunk.value) else Err(KeyError("chunk"))
  }

  /** `embedder.encode(texts)`: the encoder applied to every text, one row per
      text, in input order. */
  function Encode(embed: string -> Vector, texts: seq<string>): seq<Vector> {
    seq(|texts|, i requires 0 <= i < |texts| => embed(texts[i]))
  }

  /** `load_chunks_and_embeddings` on the parsed records. The stored
      embeddings are used when the FIRST record has one, and then every
      record must have one; otherwise every record must have a chunk text
      and all of them are encoded. */
  function Load(records: seq<Record>, embed: string -> Vector): (r: Result<CorpusIndex>)
    ensures records == [] ==> r == Err(IndexError)
    ensures r.Ok? <==>
      records != [] &&
      if records[0].embedding.Some?
      then forall i :: 0 <= i < |records| ==> records[i].embedding.Some?
      else forall i :: 0 <= i < |records| ==> records[i].chunk.Some?
    ensures r.Err? && records != [] ==>
      r.error == KeyError(if records[0].embedding.Some? then "embedding" else "chunk")
    ensures r.Ok? ==> r.value.chunks == records && |r.value.embeddings| == |records|
    ensures r.Ok? && records[0].embedding.Some? ==>
      forall i :: 0 <= i < |records| ==> r.value.embeddings[i] == records[i].embedding.value
    ensures r.Ok? && records[0].embedding.None? ==>
      forall i :: 0 <= i < |records| ==> r.value.embeddings[i] == embed(records[i].chunk.value)
  {
    if |records| == 0 then Err(IndexError)
    else if records[0].embedding.Some? then
      match MapResult(records, StoredEmbedding)
      case Err(e) => Err(e)
      case Ok(rows) => Ok(CorpusIndex(records, rows))
    else
      match MapResult(records, ChunkText)
      case Err(e) => Err(e)
      case Ok(texts) => Ok(CorpusIndex(records, Encode(embed, texts)))
  }

  /** The parallel-array invariant that every loaded corpus keeps. */
  predicate Parallel(c: CorpusIndex) {
    |c.chunks| == |c.embeddings|
  }

  /** Whichever way the rows are obtained, the stored rows are never mixed
      with encoded ones: either all rows are stored embeddings or all are
      encodings of the chunk texts. */
  lemma LoadNeverMixes(records: seq<Record>, embed: string -> Vector)
    requires Load(records, embed).Ok?
    ensures Parallel(Load(records, embed).value)
    ensures var rows := Load(records, embed).value.embeddings;
      (forall i :: 0 <= i < |records| ==> records[i].embedding == Some(rows[i]))
      || (forall i :: 0 <= i < |records| ==> records[i].chunk.Some? && rows[i] == embed(records[i].chunk.value))
  {
  }
}
