/** Top-3 retrieval (`get_memory_context`): rank the chunks by their
    similarity score, keep the three best and join their texts. */
module Retrieval {
  import opened Wrappers
  import opened Text
  import opened Corpus

  /** How many chunks a question retrieves (`[:3]`). */
  const TopK: nat := 3

  function Min(a: int, b: int): int {
    if a <= b then a else b
  }

  /** `order` is what `np.argsort(scores)` may return: a permutation of the
      indices of `scores` that lists them by non-decreasing score. The
      relative order of equal scores is left open, as numpy's default sort
      does not fix it. */
  predicate ArgsortSpec(scores: seq<int>, order: seq<int>) {
    && |order| == |scores|
    && (forall i :: 0 <= i < |order| ==> 0 <= order[i] < |scores|)
    && (forall i, j :: 0 <= i < j < |order| ==> order[i] != order[j])
    && (forall k :: 0 <= k < |scores| ==> k in order)
    && (forall i, j :: 0 <= i <= j < |order| ==> scores[order[i]] <= scores[order[j]])
  }

  /** An argsort oracle that keeps its promise on every input. */
  ghost predicate IsArgsort(argsort: seq<int> -> seq<int>) {
    forall scores :: ArgsortSpec(scores, argsort(scores))
  }

  predicate SortedBy(scores: seq<int>, o: seq<int>)
    requires forall i :: 0 <= i < |o| ==> 0 <= o[i] < |scores|
  {
    forall i, j :: 0 <= i <= j < |o| ==> scores[o[i]] <= scores[o[j]]
  }

  /** Inserts index `x` into `o` behind every index of equal or smaller score. */
  function Insert(scores: seq<int>, x: int, o: seq<int>): (r: seq<int>)
    requires 0 <= x < |scores|
    requires forall i :: 0 <= i < |o| ==> 0 <= o[i] < |scores|
    ensures |r| == |o| + 1
    ensures forall y :: y in r <==> y == x || y in o
    ensures forall i :: 0 <= i < |r| ==> 0 <= r[i] < |scores|
  {
    if o == [] then [x]
    else if scores[x] < scores[o[0]] then [x] + o
    else
      var rest := Insert(scores, x, o[1..]);
      assert forall y :: y in o <==> y == o[0] || y in o[1..];
      [o[0]] + rest
  }

  /** Every index in `o` scores at least `b`. */
  predicate AllAtLeast(scores: seq<int>, o: seq<int>, b: int)
    requires forall i :: 0 <= i < |o| ==> 0 <= o[i] < |scores|
  {
    forall i :: 0 <= i < |o| ==> b <= scores[o[i]]
  }

  lemma InsertAtLeast(scores: seq<int>, x: int, o: seq<int>, b: int)
    requires 0 <= x < |scores|
    requires forall i :: 0 <= i < |o| ==> 0 <= o[i] < |scores|
    requires b <= scores[x] && AllAtLeast(scores, o, b)
    ensures AllAtLeast(scores, Insert(scores, x, o), b)
  {
    var r := Insert(scores, x, o);
    forall i | 0 <= i < |r| ensures b <= scores[r[i]] {
      assert r[i] in r;
      if r[i] != x {
        var j :| 0 <= j < |o| && o[j] == r[i];
      }
    }
  }

  lemma {:induction false} InsertSorted(scores: seq<int>, x: int, o: seq<int>)
    requires 0 <= x < |scores|
    requires forall i :: 0 <= i < |o| ==> 0 <= o[i] < |scores|
    requires SortedBy(scores, o)
    ensures SortedBy(scores, Insert(scores, x, o))
  {
    var r := Insert(scores, x, o);
    if o == [] {
      assert r == [x];
    } else if scores[x] < scores[o[0]] {
      assert r == [x] + o;
      forall i, j | 0 <= i <= j < |r| ensures scores[r[i]] <= scores[r[j]] {
        if i > 0 { assert r[i] == o[i - 1] && r[j] == o[j - 1]; }
        else if j > 0 { assert r[j] == o[j - 1]; }
      }
    } else {
      var tail := o[1..];
      var rest := Insert(scores, x, tail);
      assert r == [o[0]] + rest;
      InsertSorted(scores, x, tail);
      assert AllAtLeast(scores, tail, scores[o[0]]) by {
        forall i | 0 <= i < |tail| ensures scores[o[0]] <= scores[tail[i]] {
          assert tail[i] == o[i + 1];
        }
      }
      InsertAtLeast(scores, x, tail, scores[o[0]]);
      forall i, j | 0 <= i <= j < |r| ensures scores[r[i]] <= scores[r[j]] {
        if i > 0 { assert r[i] == rest[i - 1] && r[j] == rest[j - 1]; }
        else if j > 0 { assert r[j] == rest[j - 1]; }
      }
    }
  }

  lemma {:induction false} InsertDistinct(scores: seq<int>, x: int, o: seq<int>)
    requires 0 <= x < |scores|
    requires forall i :: 0 <= i < |o| ==> 0 <= o[i] < |scores|
    requires x !in o
    requires forall i, j :: 0 <= i < j < |o| ==> o[i] != o[j]
    ensures forall i, j :: 0 <= i < j < |o| + 1 ==> Insert(scores, x, o)[i] != Insert(scores, x, o)[j]
  {
    var r := Insert(scores, x, o);
    if o != [] && scores[o[0]] <= scores[x] {
      var rest := Insert(scores, x, o[1..]);
      assert o[0] !in o[1..];
      InsertDistinct(scores, x, o[1..]);
      assert r == [o[0]] + rest;
      forall i, j | 0 <= i < j < |r| ensures r[i] != r[j] {
        if i == 0 {
          assert r[0] == o[0] && r[j] == rest[j - 1] && r[j] in rest;
          assert r[j] == x || r[j] in o[1..];
        } else {
          assert r[i] == rest[i - 1] && r[j] == rest[j - 1];
          assert rest[i - 1] != rest[j - 1];
        }
      }
    } else if o != [] {
      assert r == [x] + o;
      forall i, j | 0 <= i < j < |r| ensures r[i] != r[j] {
        if i == 0 { assert r[j] == o[j - 1]; }
        else { assert r[i] == o[i - 1] && r[j] == o[j - 1]; }
      }
    }
  }

  /** The indices `0 .. k-1` sorted by score; stable for equal scores. */
  function ArgsortPrefix(scores: seq<int>, k: nat): (r: seq<int>)
    requires k <= |scores|
    ensures |r| == k
    ensures forall i :: 0 <= i < |r| ==> 0 <= r[i] < |scores|
    ensures forall y :: y in r <==> 0 <= y < k
    ensures forall i, j :: 0 <= i < j < |r| ==> r[i] != r[j]
    ensures SortedBy(scores, r)
  {
    if k == 0 then []
    else
      var o := ArgsortPrefix(scores, k - 1);
      InsertSorted(scores, k - 1, o);
      InsertDistinct(scores, k - 1, o);
      Insert(scores, k - 1, o)
  }

  /** One argsort that keeps the promise: a stable insertion sort of the
      indices. It shows that the requirement on the oracle can be met. */
  function Argsort(scores: seq<int>): seq<int> {
    ArgsortPrefix(scores, |scores|)
  }

  lemma ArgsortIsArgsort()
    ensures IsArgsort(Argsort)
  {
    forall scores ensures ArgsortSpec(scores, Argsort(scores)) {
      var o := ArgsortPrefix(scores, |scores|);
      assert forall k :: 0 <= k < |scores| ==> k in o;
    }
  }

  function Reversed(s: seq<int>): (r: seq<int>)
    ensures |r| == |s|
    ensures forall k :: 0 <= k < |s| ==> r[k] == s[|s| - 1 - k]
  {
    if s == [] then [] else Reversed(s[1..]) + [s[0]]
  }

  /** `order[::-1][:3]`: the last three entries of the argsort, best first. */
  function BestIndices(order: seq<int>): seq<int> {
    var rev := Reversed(order);
    rev[..Min(TopK, |rev|)]
  }

  /** What the top-3 selection promises, whatever order the argsort gives
      to equal scores: exactly min(3, n) distinct valid indices, ranked by
      non-increasing score, and no chunk left out scores strictly higher
      than a chunk kept. */
  lemma BestIndicesAreBest(scores: seq<int>, order: seq<int>)
    requires ArgsortSpec(scores, order)
    ensures var best := BestIndices(order);
      && |best| == Min(TopK, |scores|)
      && (forall i :: 0 <= i < |best| ==> 0 <= best[i] < |scores|)
      && (forall i, j :: 0 <= i < j < |best| ==> best[i] != best[j])
      && (forall i, j :: 0 <= i <= j < |best| ==> scores[best[i]] >= scores[best[j]])
      && (forall k, i :: 0 <= k < |scores| && k !in best && 0 <= i < |best| ==> scores[k] <= scores[best[i]])
  {
    var n := |order|;
    var best := BestIndices(order);
    var m := Min(TopK, n);
    assert forall i :: 0 <= i < |best| ==> best[i] == order[n - 1 - i];
    forall k, i | 0 <= k < |scores| && k !in best && 0 <= i < |best|
      ensures scores[k] <= scores[best[i]]
    {
      assert k in order;
      var p :| 0 <= p < n && order[p] == k;
      assert forall q :: n - m <= q < n ==> best[n - 1 - q] == order[q];
      assert p < n - m;
      assert scores[order[p]] <= scores[order[n - 1 - i]];
    }
  }

  /** `chunks[i]` for every selected index. */
  function Pick(chunks: seq<Record>, best: seq<int>): (docs: seq<Record>)
    requires forall i :: 0 <= i < |best| ==> 0 <= best[i] < |chunks|
  {
    seq(|best|, i requires 0 <= i < |best| => chunks[best[i]])
  }

  /** The context text and the documents it came from. */
  datatype Retrieved = Retrieved(context: string, docs: seq<Record>)

  /** `cosine_similarity(q_emb, embeddings)[0]`: the score of every row,
      `similarity` standing for the cosine of the two vectors. */
  function Scores(query: Vector, rows: seq<Vector>, similarity: (Vector, Vector) -> int): seq<int> {
    seq(|rows|, i requires 0 <= i < |rows| => similarity(query, rows[i]))
  }

  /** The text of each document; every document of a successful retrieval
      has one. */
  function Texts(docs: seq<Record>): seq<string> {
    seq(|docs|, i requires 0 <= i < |docs| => docs[i].chunk.GetOr(""))
  }

  /** The ranking step of `get_memory_context` on a loaded corpus: given the
      argsort of the scores, it fails exactly when a selected document has no
      chunk text, and otherwise returns the min(3, n) chunks at the best
      indices, in rank order, with their texts joined by newlines; when no
      text holds a newline, splitting the context at newlines gives the
      texts back. */
  function Retrieve(chunks: seq<Record>, scores: seq<int>, order: seq<int>): (r: Result<Retrieved>)
    requires |scores| == |chunks| && ArgsortSpec(scores, order)
    ensures var best := BestIndices(order);
      && (forall i :: 0 <= i < |best| ==> 0 <= best[i] < |chunks|)
      && (r.Ok? <==> forall i :: 0 <= i < |best| ==> chunks[best[i]].chunk.Some?)
      && (r.Err? ==> r.error == KeyError("chunk"))
      && (r.Ok? ==>
            && |r.value.docs| == |best| == Min(TopK, |chunks|)
            && (forall i :: 0 <= i < |best| ==> r.value.docs[i] == chunks[best[i]])
            && r.value.context == JoinLines(Texts(r.value.docs))
            && (best != [] && (forall i :: 0 <= i < |best| ==> '\n' !in chunks[best[i]].chunk.value) ==>
                  SplitLines(r.value.context) == Texts(r.value.docs)))
  {
    var best := BestIndices(order);
    BestIndicesAreBest(scores, order);
    var docs := Pick(chunks, best);
    match MapResult(docs, ChunkText)
    case Err(e) => Err(e)
    case Ok(texts) =>
      assert texts == Texts(docs);
      assert forall i :: 0 <= i < |best| ==> docs[i] == chunks[best[i]] && ChunkText(docs[i]).Ok?;
      if texts != [] && (forall i :: 0 <= i < |texts| ==> '\n' !in texts[i]) then
        SplitJoinLines(texts);
        Ok(Retrieved(JoinLines(texts), docs))
      else
        Ok(Retrieved(JoinLines(texts), docs))
  }

  /** `get_memory_context`: load the corpus, score every row against the
      encoded question, and rank. A corpus that does not load makes the
      retrieval fail with the same error; otherwise there is one score per
      chunk. */
  function GetMemoryContext(question: string, records: seq<Record>, embed: string -> Vector,
                            similarity: (Vector, Vector) -> int, argsort: seq<int> -> seq<int>): (r: Result<Retrieved>)
    requires IsArgsort(argsort)
    ensures Load(records, embed).Err? ==> r == Err(Load(records, embed).error)
    ensures Load(records, embed).Ok? ==>
      var scores := Scores(embed(question), Load(records, embed).value.embeddings, similarity);
      |scores| == |records| && r == Retrieve(records, scores, argsort(scores))
  {
    match Load(records, embed)
    case Err(e) => Err(e)
    case Ok(corpus) =>
      var scores := Scores(embed(question), corpus.embeddings, similarity);
      assert ArgsortSpec(scores, argsort(scores));
      Retrieve(corpus.chunks, scores, argsort(scores))
  }
}
