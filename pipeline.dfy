/** The orchestrator (`answer_pipeline`): retrieve, pass the context through
    the two-stage sufficiency gate, and answer either from the local chunks
    (tagged "Chunks") or from a web search (tagged "Google"). */
module Pipeline {
  import opened Wrappers
  import opened Text
  import opened Corpus
  import opened Retrieval
  import opened Relevance
  import opened WebFallback

  /** The tag of an answer's sources: chunk titles or web links. */
  datatype SourceType = Chunks | Google

  /** `(answer, sources, source_type)`. */
  datatype Answer = Answer(text: string, sources: seq<string>, sourceType: SourceType)

  /** The external services the pipeline calls, as oracles. `listSet` lists
      the elements of a set in whatever order `list(set(...))` yields. */
  datatype Services = Services(
    embed: string -> Vector,
    similarity: (Vector, Vector) -> int,
    argsort: seq<int> -> seq<int>,
    llm: string -> string,
    search: string -> seq<SearchResult>,
    listSet: set<string> -> seq<string>)

  predicate NoDuplicates(s: seq<string>) {
    forall i, j :: 0 <= i < j < |s| ==> s[i] != s[j]
  }

  /** `list(s)` for a set `s`: each element once, in some order. */
  ghost predicate IsEnumeration(listSet: set<string> -> seq<string>) {
    forall s :: NoDuplicates(listSet(s)) && forall x :: x in listSet(s) <==> x in s
  }

  /** One way of listing a set, which shows that the requirement on the
      `listSet` oracle can be met. */
  ghost function SetToSeq(s: set<string>): (r: seq<string>)
    ensures NoDuplicates(r) && forall x :: x in r <==> x in s
    decreases |s|
  {
    if s == {} then []
    else
      var x :| x in s;
      var rest := SetToSeq(s - {x});
      assert x !in rest;
      [x] + rest
  }

  lemma SetToSeqIsEnumeration()
    ensures IsEnumeration(SetToSeq)
  {
  }

  ghost predicate Valid(svc: Services) {
    IsArgsort(svc.argsort) && IsEnumeration(svc.listSet)
  }

  /** The least number of characters a stripped context needs. */
  const MinContextLength: nat := 100

  /** The title of a document with no `video_title`. */
  const UnknownSource: string := "Bilinmeyen kaynak"

  /** The cheap half of the gate: `len(context.strip()) >= 100`. */
  predicate LongEnough(context: string) {
    |Strip(context)| >= MinContextLength
  }

  /** `doc.get("video_title", "Bilinmeyen kaynak")`. */
  function Title(doc: Record): string {
    doc.videoTitle.GetOr(UnknownSource)
  }

  /** `list(set(doc.get("video_title", "Bilinmeyen kaynak") for doc in docs))`. */
  function UniqueTitles(docs: seq<Record>, listSet: set<string> -> seq<string>): seq<string> {
    listSet(set i | 0 <= i < |docs| :: Title(docs[i]))
  }

  /** A sequence without duplicates has as many elements as the set of
      its elements. */
  lemma {:induction false} DistinctCount(s: seq<string>)
    requires NoDuplicates(s)
    ensures |set x | x in s| == |s|
  {
    if s != [] {
      var rest := s[1..];
      assert NoDuplicates(rest) by {
        forall i, j | 0 <= i < j < |rest| ensures rest[i] != rest[j] {
          assert rest[i] == s[i + 1] && rest[j] == s[j + 1];
        }
      }
      DistinctCount(rest);
      assert s[0] !in rest by {
        forall j | 0 <= j < |rest| ensures rest[j] != s[0] {
          assert rest[j] == s[j + 1];
        }
      }
      assert (set x | x in s) == {s[0]} + (set x | x in rest) by {
        assert s == [s[0]] + rest;
      }
    }
  }

  /** The sources of a local answer hold each document's title exactly once,
      and nothing else; a document without a title counts as
      "Bilinmeyen kaynak". So there are as many sources as distinct titles. */
  lemma UniqueTitlesSpec(docs: seq<Record>, listSet: set<string> -> seq<string>)
    requires IsEnumeration(listSet)
    ensures NoDuplicates(UniqueTitles(docs, listSet))
    ensures forall t :: t in UniqueTitles(docs, listSet) <==> exists i :: 0 <= i < |docs| && Title(docs[i]) == t
    ensures |UniqueTitles(docs, listSet)| == |set i | 0 <= i < |docs| :: Title(docs[i])|
  {
    var titles := set i | 0 <= i < |docs| :: Title(docs[i]);
    var sources := listSet(titles);
    assert forall t :: t in titles <==> exists i :: 0 <= i < |docs| && Title(docs[i]) == t;
    DistinctCount(sources);
    assert (set x | x in sources) == titles;
  }

  /** Documents that all carry one title give that title as the only source. */
  lemma SingleTitle(docs: seq<Record>, title: string, listSet: set<string> -> seq<string>)
    requires IsEnumeration(listSet)
    requires docs != [] && forall i :: 0 <= i < |docs| ==> Title(docs[i]) == title
    ensures UniqueTitles(docs, listSet) == [title]
  {
    UniqueTitlesSpec(docs, listSet);
    var sources := UniqueTitles(docs, listSet);
    assert (set i | 0 <= i < |docs| :: Title(docs[i])) == {title} by {
      assert Title(docs[0]) == title;
    }
    assert |sources| == 1;
    assert title in sources by { assert Title(docs[0]) == title; }
  }

  /** The deduplication scenario: three documents titled "A", "A" and "B"
      give exactly the two sources "A" and "B". */
  lemma UniqueTitlesExample(listSet: set<string> -> seq<string>)
    requires IsEnumeration(listSet)
    ensures var docs := [Record(Some("c1"), Some("A"), None), Record(Some("c2"), Some("A"), None),
                         Record(Some("c3"), Some("B"), None)];
      var sources := UniqueTitles(docs, listSet);
      |sources| == 2 && "A" in sources && "B" in sources
  {
    var docs := [Record(Some("c1"), Some("A"), None), Record(Some("c2"), Some("A"), None),
                 Record(Some("c3"), Some("B"), None)];
    UniqueTitlesSpec(docs, listSet);
    assert Title(docs[0]) == "A" && Title(docs[1]) == "A" && Title(docs[2]) == "B";
    assert (set i | 0 <= i < |docs| :: Title(docs[i])) == {"A", "B"};
  }

  /** The web branch: `do_google_fallback(question) + ("Google",)`. */
  function WebBranch(question: string, year: int, svc: Services): (r: Result<Answer>)
    requires year >= 1
    ensures var results := svc.search(SearchQuery(question, year));
      && (r.Ok? <==> GroundingText(results).Ok?)
      && (r.Err? ==> r.error == GroundingText(results).error)
      && (r.Ok? ==> r.value == Answer(svc.llm(WebPrompt(question, GroundingText(results).value, year)),
                                      Links(results), Google))
  {
    match DoGoogleFallback(question, year, svc.search, svc.llm)
    case Err(e) => Err(e)
    case Ok(w) => Ok(Answer(w.answer, w.links, Google))
  }

  /** The decision of `answer_pipeline` once the context is retrieved: the
      local answer needs a stripped context of at least 100 characters AND a
      "relevant" reply to the relevance prompt, which is only sent once the
      length test passes; otherwise the web branch answers. */
  function Respond(question: string, m: Retrieved, year: int, svc: Services): Result<Answer>
    requires year >= 1
  {
    if !LongEnough(m.context) then WebBranch(question, year, svc)
    else if !AskIfRelevantEnough(question, m.context, svc.llm) then WebBranch(question, year, svc)
    else Ok(Answer(GenerateAnswer(question, m.context, svc.llm), UniqueTitles(m.docs, svc.listSet), Chunks))
  }

  /** `answer_pipeline`: retrieve, then decide. */
  function AnswerPipeline(question: string, records: seq<Record>, year: int, svc: Services): (r: Result<Answer>)
    requires Valid(svc) && year >= 1
    ensures var m := GetMemoryContext(question, records, svc.embed, svc.similarity, svc.argsort);
      && (m.Err? ==> r == Err(m.error))
      && (m.Ok? ==> r == Respond(question, m.value, year, svc))
  {
    match GetMemoryContext(question, records, svc.embed, svc.similarity, svc.argsort)
    case Err(e) => Err(e)
    case Ok(m) => Respond(question, m, year, svc)
  }

  /** Unless the stripped context has at least 100 characters and the
      model replies "evet", the result is the web branch's. */
  lemma FallsBack(question: string, m: Retrieved, year: int, svc: Services)
    requires year >= 1
    requires !(LongEnough(m.context) && AskIfRelevantEnough(question, m.context, svc.llm))
    ensures Respond(question, m, year, svc) == WebBranch(question, year, svc)
  {
  }

  /** The local answer: the generator's reply over the retrieved context,
      unmodified, with the distinct titles of the retrieved documents. */
  lemma LocalAnswer(question: string, m: Retrieved, year: int, svc: Services)
    requires IsEnumeration(svc.listSet) && year >= 1
    requires LongEnough(m.context) && AskIfRelevantEnough(question, m.context, svc.llm)
    ensures var r := Respond(question, m, year, svc);
      && r.Ok? && r.value.sourceType == Chunks
      && r.value.text == svc.llm(AnswerPrompt(question, m.context))
      && NoDuplicates(r.value.sources)
      && forall t :: t in r.value.sources <==> exists i :: 0 <= i < |m.docs| && Title(m.docs[i]) == t
  {
    UniqueTitlesSpec(m.docs, svc.listSet);
  }

  /** The branch policy: the answer is a local one ("Chunks") exactly when
      the stripped context has at least 100 characters and the model replies
      "evet"; every other answer comes from the web ("Google"). */
  lemma BranchPolicy(question: string, m: Retrieved, year: int, svc: Services)
    requires year >= 1
    ensures var r := Respond(question, m, year, svc);
      && ((r.Ok? && r.value.sourceType == Chunks) <==>
            LongEnough(m.context) && AskIfRelevantEnough(question, m.context, svc.llm))
      && (r.Ok? && r.value.sourceType == Google <==> r == WebBranch(question, year, svc) && r.Ok?)
  {
    if !(LongEnough(m.context) && AskIfRelevantEnough(question, m.context, svc.llm)) {
      FallsBack(question, m, year, svc);
    }
  }

  /** Only the first letter is needed to tell the relevance prompt from the
      web prompt. */
  lemma PromptsDiffer(question: string, context: string, q: string, webText: string, year: int)
    requires year >= 0
    ensures RelevancePrompt(question, context) != WebPrompt(q, webText, year)
  {
    var a, b := RelevancePrompt(question, context), WebPrompt(q, webText, year);
    assert a[0] == 'K';
    assert b[0] == 'S';
    assert a[0] != b[0];
  }

  /** `llm` with its reply to one prompt replaced. */
  function Override(llm: string -> string, prompt: string, reply: string): string -> string {
    p => if p == prompt then reply else llm(p)
  }

  /** The web branch sends the model only the web prompt: replacing the
      model's reply to any other prompt does not change its result. */
  lemma WebBranchIgnoresOtherPrompts(question: string, year: int, svc: Services, prompt: string, reply: string)
    requires year >= 1
    requires forall webText :: prompt != WebPrompt(question, webText, year)
    ensures WebBranch(question, year, svc) == WebBranch(question, year, svc.(llm := Override(svc.llm, prompt, reply)))
  {
    var other := svc.(llm := Override(svc.llm, prompt, reply));
    var results := svc.search(SearchQuery(question, year));
    if GroundingText(results).Ok? {
      var p := WebPrompt(question, GroundingText(results).value, year);
      assert other.llm(p) == svc.llm(p);
    }
  }

  /** When the stripped context is shorter than 100 characters, the
      relevance check is never consulted: whatever the model would reply to
      the relevance prompt, the pipeline's result is the same. */
  lemma RelevanceNotConsultedOnShortContext(question: string, m: Retrieved, year: int,
                                            svc: Services, reply: string)
    requires year >= 1
    requires !LongEnough(m.context)
    ensures var other := svc.(llm := Override(svc.llm, RelevancePrompt(question, m.context), reply));
      Respond(question, m, year, svc) == Respond(question, m, year, other)
  {
    var other := svc.(llm := Override(svc.llm, RelevancePrompt(question, m.context), reply));
    FallsBack(question, m, year, svc);
    FallsBack(question, m, year, other);
    forall webText ensures RelevancePrompt(question, m.context) != WebPrompt(question, webText, year) {
      PromptsDiffer(question, m.context, question, webText, year);
    }
    WebBranchIgnoresOtherPrompts(question, year, svc, RelevancePrompt(question, m.context), reply);
  }

  /** A corpus of one chunk without a stored embedding: whatever the
      scores, that chunk is the whole context. */
  lemma OneChunkContext(question: string, text: string, title: string, svc: Services)
    requires Valid(svc)
    ensures var m := GetMemoryContext(question, [Record(Some(text), Some(title), None)],
                                      svc.embed, svc.similarity, svc.argsort);
      m == Ok(Retrieved(text, [Record(Some(text), Some(title), None)]))
  {
    var records := [Record(Some(text), Some(title), None)];
    assert Load(records, svc.embed).Ok?;
    var corpus := Load(records, svc.embed).value;
    var scores := Scores(svc.embed(question), corpus.embeddings, svc.similarity);
    assert |scores| == 1;
    var order := svc.argsort(scores);
    assert ArgsortSpec(scores, order);
    assert order == [0] by { assert |order| == 1 && 0 <= order[0] < 1; }
    assert BestIndices([0]) == [0];
    var r := Retrieve(records, scores, order);
    assert r.Ok?;
    assert r.value.docs == records;
    assert Texts(records) == [text];
    assert JoinLines([text]) == text;
  }

  /** The local decision on a single retrieved chunk of at least 100
      characters that the model judges relevant. */
  lemma OneChunkRespond(question: string, text: string, title: string, year: int, svc: Services)
    requires IsEnumeration(svc.listSet) && year >= 1
    requires |text| >= MinContextLength && !IsSpace(text[0]) && !IsSpace(text[|text| - 1])
    requires AskIfRelevantEnough(question, text, svc.llm)
    ensures Respond(question, Retrieved(text, [Record(Some(text), Some(title), None)]), year, svc)
         == Ok(Answer(svc.llm(AnswerPrompt(question, text)), [title], Chunks))
  {
    var records := [Record(Some(text), Some(title), None)];
    StripUnpadded(text);
    SingleTitle(records, title, svc.listSet);
  }

  /** The local scenario: one chunk of at least 100 characters that the
      model judges relevant gives the generator's answer with the chunk's
      title as the only source. */
  lemma OneChunkLocalAnswer(question: string, text: string, title: string, year: int, svc: Services)
    requires Valid(svc) && year >= 1
    requires |text| >= MinContextLength && !IsSpace(text[0]) && !IsSpace(text[|text| - 1])
    requires AskIfRelevantEnough(question, text, svc.llm)
    ensures AnswerPipeline(question, [Record(Some(text), Some(title), None)], year, svc)
         == Ok(Answer(svc.llm(AnswerPrompt(question, text)), [title], Chunks))
  {
    OneChunkContext(question, text, title, svc);
    OneChunkRespond(question, text, title, year, svc);
  }

  /** A search that finds one result with a title, a snippet and a link
      grounds the model on that result's line and cites its link. */
  lemma OneLinkedResult(question: string, year: int, svc: Services, t: string, s: string, l: string)
    requires year >= 1
    requires svc.search(SearchQuery(question, year)) == [SearchResult(Some(t), Some(s), Some(l))]
    ensures WebBranch(question, year, svc) == Ok(Answer(svc.llm(WebPrompt(question, t + ": " + s, year)), [l], Google))
  {
    var results := [SearchResult(Some(t), Some(s), Some(l))];
    assert seq(|results|, i requires 0 <= i < |results| => LineOf(results[i])) == [t + ": " + s];
    assert GroundingText(results) == Ok(t + ": " + s);
    assert Links(results) == [l];
  }

  /** The fallback scenario: a chunk too short for the gate and a search
      that finds one linked result give the model's answer over that
      result with its link as the only source. */
  lemma OneChunkWebAnswer(question: string, text: string, title: string, year: int, svc: Services,
                          t: string, s: string, l: string)
    requires Valid(svc) && year >= 1
    requires |text| < MinContextLength
    requires svc.search(SearchQuery(question, year)) == [SearchResult(Some(t), Some(s), Some(l))]
    ensures AnswerPipeline(question, [Record(Some(text), Some(title), None)], year, svc)
         == Ok(Answer(svc.llm(WebPrompt(question, t + ": " + s, year)), [l], Google))
  {
    var records := [Record(Some(text), Some(title), None)];
    OneChunkContext(question, text, title, svc);
    assert |Strip(text)| <= |text|;
    FallsBack(question, Retrieved(text, records), year, svc);
    OneLinkedResult(question, year, svc, t, s, l);
  }
}
