# Leadership coach chatbot: the answer pipeline

This project models the decision pipeline of a leadership-coaching
question-answering assistant:

- it ranks a fixed corpus of Turkish transcript chunks against the question and keeps the three best;
- it asks a language model whether the retrieved context is good enough;
- it answers either from those chunks, tagged `"Chunks"` and citing the distinct video titles;
- or, failing that, from a web search restricted to results after the previous year, tagged `"Google"` and citing the result links.

Every external service is a parameter: the sentence embedder, the cosine
similarity, `np.argsort`, the language model, the search provider and the
order in which `list(set(...))` lists a set. They are bundled in
`Pipeline.Services`.

The two oracles whose behaviour the code relies on carry a requirement:

- the argsort returns a permutation that lists the indices by non-decreasing score (`Retrieval.IsArgsort`). `Retrieval.Argsort` is one function that meets it.
- the set lister returns each element once (`Pipeline.IsEnumeration`). `Pipeline.SetToSeq` is one function that meets it.

Layout, one module per file:

- `wrappers.dfy` (`Wrappers`): `Option`, `Result`, and the Python errors the code can raise (`KeyError`, `IndexError`). Also `MapResult`, a list comprehension that stops at the first element that raises.
- `text.dfy` (`Text`): the Python string operations the code uses. These are `str.strip()` with Python's whitespace set, `str.lower()`, `"\n".join`, and `str(n)`.
- `corpus.dfy` (`Corpus`): `load_chunks_and_embeddings` on the parsed records.
- `retrieval.dfy` (`Retrieval`): `get_memory_context`, meaning scoring, argsort, reversal, top three and join.
- `relevance.dfy` (`Relevance`): the relevance prompt and the `"evet"` test on the reply (`ask_if_relevant_enough`), and `generate_answer`.
- `web.dfy` (`WebFallback`): `do_google_fallback`, meaning the query, the links, the grounding text and the prompt.
- `pipeline.dfy` (`Pipeline`): `answer_pipeline` and the properties of its branch policy.

Two behaviours of the code are easy to misread:

- **Choosing stored embeddings.** The code looks only at the first record to decide whether to use stored embeddings. If that record has an embedding, it reads `c["embedding"]` from every record, and a later record without one raises `KeyError`. Nothing falls back to encoding the texts then. `Corpus.Load` states this.
- **Ties in the ranking.** The code ranks with `np.argsort` and its default, unstable sort, then reverses the result. So the order among equal scores is not fixed. The model leaves that order open and proves only what holds for every order the argsort may return (`Retrieval.BestIndicesAreBest`).

## Model

| member | source | states |
|---|---|---|
| Wrappers.MapResult | steamlit_leadership_chatbot.py:92-94 | A comprehension whose element expression can raise succeeds exactly when every element succeeds. It then gives one value per element, in order. Otherwise its error is the error of the first failing element, and every element before that one succeeds. |
| Text.Strip | steamlit_leadership_chatbot.py:161 | `s.strip()`: the result is never longer than `s`. What it is (padding removed, non-space ends) is stated by StripSpec and StripEmpty. |
| Text.StripSpec | steamlit_leadership_chatbot.py:161 | `s.strip()` is `s` with a whitespace-only prefix and a whitespace-only suffix removed. The result neither starts nor ends with whitespace. |
| Text.StripEmpty | steamlit_leadership_chatbot.py:161 | The strip is empty exactly when the whole string is whitespace. |
| Text.StripPadded | steamlit_leadership_chatbot.py:124 | Adding whitespace around a string that neither starts nor ends with whitespace leaves its strip unchanged. |
| Text.StripUnpadded | steamlit_leadership_chatbot.py:124 | A string that neither starts nor ends with whitespace is its own strip. |
| Text.StripIdempotent | steamlit_leadership_chatbot.py:161 | Stripping twice gives the same result as stripping once. |
| Text.JoinLines | steamlit_leadership_chatbot.py:106 | `"\n".join(parts)`, also used at line 142. SplitJoinLines states that it splits back into its parts; Retrieve and GroundingText state the contexts and grounding texts built with it. |
| Text.LowerChar | steamlit_leadership_chatbot.py:124 | `.lower()` on one character, for ASCII letters. AffirmativeIff states what the comparison with "evet" accepts. |
| Text.Lower | steamlit_leadership_chatbot.py:124 | `reply.strip().lower()`'s lower-casing, one character at a time. AffirmativeIff states that after it the stripped reply equals "evet" exactly when it spells "evet" in some letter case. |
| Text.SplitJoinLines | steamlit_leadership_chatbot.py:106 | `"\n".join(parts)` of one or more parts that contain no newline splits back at newlines into exactly those parts. |
| Text.DecimalOf | steamlit_leadership_chatbot.py:138 | `str(n)` is non-empty and all decimal digits, with no leading zero unless n is 0. |
| Text.ParseDecimalOf | steamlit_leadership_chatbot.py:138 | Reading back the digits of `str(n)` gives n. |
| Text.DecimalOfInjective | steamlit_leadership_chatbot.py:147 | Different numbers have different decimal forms. |
| Corpus.StoredEmbedding | steamlit_leadership_chatbot.py:92 | `c["embedding"]`, a `KeyError` when the key is missing. Load states the rows and the error it gives. |
| Corpus.ChunkText | steamlit_leadership_chatbot.py:94 | `c["chunk"]` (also `doc["chunk"]` at line 106), a `KeyError` when the key is missing. Load and Retrieve state where it fails. |
| Corpus.Encode | steamlit_leadership_chatbot.py:95 | `embedder.encode(texts)`: one row per text, in order. Load states that row i is the encoding of record i's text. |
| Corpus.Load | steamlit_leadership_chatbot.py:87-96 | An empty corpus fails at `chunks[0]`. The load succeeds exactly when the first record has an embedding and all records do, or the first has none and all records have a chunk text. A failed load reports the `KeyError` for the key it was reading. A successful load keeps the records and gives one row per record: with stored embeddings, row i is record i's embedding; otherwise row i is the encoding of record i's text. |
| Corpus.LoadNeverMixes | steamlit_leadership_chatbot.py:91-95 | A loaded corpus keeps chunks and rows parallel. Either all rows are stored embeddings or all are encodings of the chunk texts, never a mix. |
| Retrieval.ArgsortIsArgsort | steamlit_leadership_chatbot.py:104 | The requirement on the argsort oracle can be met: a stable insertion sort of the indices meets it on every input. |
| Retrieval.BestIndicesAreBest | steamlit_leadership_chatbot.py:103-105 | For every order the argsort may return, `[::-1][:3]` selects exactly min(3, n) distinct indices below n. Their scores do not increase along the selection, and no index left out scores strictly higher than one that was kept. |
| Retrieval.Reversed | steamlit_leadership_chatbot.py:104 | `[::-1]` puts at position k the element at position n-1-k. |
| Retrieval.Scores | steamlit_leadership_chatbot.py:103 | `cosine_similarity(q_emb, embeddings)[0]`: one score per row. GetMemoryContext states that there is one score per chunk. |
| Retrieval.BestIndices | steamlit_leadership_chatbot.py:104 | `np.argsort(sims)[::-1][:3]` on the argsort's order. BestIndicesAreBest states what it selects: min(3, n) distinct indices, best first, none left out scoring higher. |
| Retrieval.Pick | steamlit_leadership_chatbot.py:105 | `[chunks[i] for i in best_idx]`. Retrieve states that the docs are the chunks at the selected indices, in rank order. |
| Retrieval.Retrieve | steamlit_leadership_chatbot.py:104-107 | On a loaded corpus, retrieval fails with `KeyError("chunk")` exactly when a selected chunk has no text. Otherwise the docs are the chunks at the selected indices, in rank order. The context is their texts joined by newlines, and it splits back into those texts when none of them contains a newline. |
| Retrieval.GetMemoryContext | steamlit_leadership_chatbot.py:99-107 | A corpus that fails to load makes retrieval fail with the same error. Otherwise there is one score per chunk, and the result is the ranking of the chunks by those scores (`Retrieve`). |
| Relevance.RelevancePrompt | steamlit_leadership_chatbot.py:112-122 | The relevance template with the question and the context in place. PromptsDiffer states that it never equals a web prompt. |
| Relevance.IsAffirmative | steamlit_leadership_chatbot.py:124 | `reply.strip().lower() == "evet"`. AffirmativeIff states exactly which replies pass. |
| Relevance.AffirmativeIff | steamlit_leadership_chatbot.py:124 | The reply counts as relevant exactly when, with surrounding whitespace removed, it is "evet" in some mix of letter case. |
| Relevance.UnpaddedReply | steamlit_leadership_chatbot.py:124 | For a reply without surrounding whitespace, the test is just the spelling. |
| Relevance.UpperCaseAffirmative | steamlit_leadership_chatbot.py:124 | "EVET" counts as relevant. |
| Relevance.PaddedAffirmative | steamlit_leadership_chatbot.py:124 | " Evet\n" counts as relevant. |
| Relevance.NotAffirmativeExamples | steamlit_leadership_chatbot.py:124 | "HAYIR", "hayır", the empty reply and "Evet." all count as not relevant. |
| Relevance.AskIfRelevantEnough | steamlit_leadership_chatbot.py:110-124 | `ask_if_relevant_enough`: the model's reply to the relevance prompt, read by IsAffirmative. BranchPolicy and RelevanceNotConsultedOnShortContext state when it decides the answer and when it is never consulted. |
| Relevance.AnswerPrompt | steamlit_leadership_chatbot.py:128-131 | The answer template with the question and the context in place. |
| Relevance.GenerateAnswer | steamlit_leadership_chatbot.py:126-133 | `generate_answer`: the model's reply to the answer prompt, returned unmodified. LocalAnswer states that the local answer's text is exactly this reply. |
| WebFallback.SearchQuery | steamlit_leadership_chatbot.py:138 | `f"{question} after:{current_year - 1}"`. SearchQueryYear states its layout and that its digits read back as the previous year. |
| WebFallback.SearchQueryYear | steamlit_leadership_chatbot.py:137-138 | The query is the question, then " after:", then only digits, and those digits read back as the current year minus one. |
| WebFallback.Links | steamlit_leadership_chatbot.py:141 | There are no more links than results, and a string is a link exactly when some result carries it under `link`. |
| WebFallback.LinksAppend | steamlit_leadership_chatbot.py:141 | Links keep the result order: the links of a concatenation are the links of the first part followed by the links of the second. |
| WebFallback.LinksAllLinked | steamlit_leadership_chatbot.py:141 | When every result has a link, the links are the results' links one for one, with nothing dropped or deduplicated. |
| WebFallback.LinksExample | steamlit_leadership_chatbot.py:141 | A result without a link, placed between two linked ones, is skipped. |
| WebFallback.ResultLine | steamlit_leadership_chatbot.py:142 | `f"{r['title']}: {r['snippet']}"`, a `KeyError` for the first missing key. GroundingText states the joined lines and the error. |
| WebFallback.GroundingText | steamlit_leadership_chatbot.py:142 | The grounding text exists exactly when every result, linked or not, has a title and a snippet. It is then the results' "title: snippet" lines joined by newlines. Otherwise the error is the `KeyError` of the first incomplete result. |
| WebFallback.WebPrompt | steamlit_leadership_chatbot.py:145-149 | The web template with the question, the grounding text and the current year in place. WebPromptYear states that the prompt determines the year. |
| WebFallback.WebPromptYear | steamlit_leadership_chatbot.py:145-154 | The web prompt determines the year it was given: two prompts over the same question and results are equal only for the same year. |
| WebFallback.DoGoogleFallback | steamlit_leadership_chatbot.py:135-155 | One search runs with the recency query. The fallback fails exactly when the grounding text does, with the same error. Otherwise it returns the model's reply to the prompt built from that text and the same year as the query, together with the links of the results. |
| Pipeline.SetToSeqIsEnumeration | steamlit_leadership_chatbot.py:170 | The requirement on the set-listing oracle can be met. |
| Pipeline.Title | steamlit_leadership_chatbot.py:170 | `doc.get("video_title", "Bilinmeyen kaynak")`. UniqueTitlesSpec states that the sources are exactly these titles. |
| Pipeline.UniqueTitles | steamlit_leadership_chatbot.py:170 | `list(set(doc.get("video_title", "Bilinmeyen kaynak") for doc in docs))`. UniqueTitlesSpec states that the sources are the distinct titles, each once. |
| Pipeline.UniqueTitlesSpec | steamlit_leadership_chatbot.py:170 | The local sources have no duplicates. They are exactly the retrieved documents' titles, with "Bilinmeyen kaynak" for a document without one, and there are as many sources as distinct titles. |
| Pipeline.SingleTitle | steamlit_leadership_chatbot.py:170 | Documents that all carry one title give that title as the only source. |
| Pipeline.UniqueTitlesExample | steamlit_leadership_chatbot.py:170 | Documents titled "A", "A" and "B" give exactly the two sources "A" and "B". |
| Pipeline.WebBranch | steamlit_leadership_chatbot.py:163 | The web branch fails exactly when the grounding text does. Otherwise its answer is the model's reply to the web prompt, its sources are the result links, and its tag is "Google". |
| Pipeline.AnswerPipeline | steamlit_leadership_chatbot.py:158-171 | A retrieval error propagates unchanged. Otherwise the result is the branch decision on the retrieved context. |
| Pipeline.Respond | steamlit_leadership_chatbot.py:160-171 | The decision after retrieval: the length gate, then the relevance gate, then the local answer. FallsBack, LocalAnswer and BranchPolicy state its policy. |
| Pipeline.LongEnough | steamlit_leadership_chatbot.py:161 | The gate `len(context.strip()) >= 100`. FallsBack and BranchPolicy state that a context failing it gets the web answer, and RelevanceNotConsultedOnShortContext states that the relevance reply is then never consulted. |
| Pipeline.FallsBack | steamlit_leadership_chatbot.py:161-167 | Unless the stripped context has at least 100 characters and the model replies "evet", the result is the web branch's. |
| Pipeline.LocalAnswer | steamlit_leadership_chatbot.py:169-171 | When the context passes both gates, the answer succeeds and is tagged "Chunks". Its text is the generator's reply, unmodified, and its sources are the distinct document titles, each exactly once. |
| Pipeline.BranchPolicy | steamlit_leadership_chatbot.py:161-171 | The answer is a successful "Chunks" answer exactly when the stripped context has at least 100 characters and the reply is "evet". A successful "Google" answer is always the web branch's. |
| Pipeline.PromptsDiffer | steamlit_leadership_chatbot.py:114-147 | The relevance prompt is never the same string as a web prompt. |
| Pipeline.WebBranchIgnoresOtherPrompts | steamlit_leadership_chatbot.py:144-155 | The web branch consults the model on the web prompt only: changing the model's reply to any other prompt leaves the branch's result unchanged. |
| Pipeline.RelevanceNotConsultedOnShortContext | steamlit_leadership_chatbot.py:161-165 | When the stripped context is shorter than 100 characters, the relevance reply is never consulted: any other reply to the relevance prompt gives the same result. |
| Pipeline.OneChunkContext | steamlit_leadership_chatbot.py:99-107 | A one-chunk corpus without stored embeddings retrieves that chunk as the whole context, whatever the scores. |
| Pipeline.OneChunkRespond | steamlit_leadership_chatbot.py:161-171 | A long, relevant single chunk gives the generator's answer, with the chunk's title as the only source. |
| Pipeline.OneChunkLocalAnswer | steamlit_leadership_chatbot.py:158-171 | The same scenario run through the whole pipeline, retrieval included. |
| Pipeline.OneLinkedResult | steamlit_leadership_chatbot.py:139-155 | A search that returns one complete, linked result grounds the model on that result's line and cites its link, tagged "Google". |
| Pipeline.OneChunkWebAnswer | steamlit_leadership_chatbot.py:158-163 | A corpus whose only chunk is too short, plus such a search, gives the web answer through the whole pipeline. |

## Left out

- The Streamlit page: layout, styling, the form, the warnings shown before the web branch, the spinner, the chat history with its export and clearing, and the sidebar clock. These are presentation and session state only.
- `@st.cache_resource`: the model loads the corpus on every call. Caching changes nothing the pipeline returns.
- Reading and parsing the JSON corpus file: the parsed records are a parameter. A JSON value of the wrong type under a key, such as `null` or a number where text is expected, is not modelled. A key is either present with a value of the right kind or missing.
- The embedding model: it is the oracle `embed`, and the batch call `encode(texts)` is that oracle applied to each text in order. The query encoding `encode([question])` is `embed(question)`.
- `cosine_similarity` and floating point: scores are integers given by the oracle `similarity`. NaN scores and dimension-mismatch errors are not modelled.
- The language model and the search provider are total oracles. Network failures, time-outs and rate limits are not modelled, and neither is their raising of exceptions.
- `PromptTemplate` is modelled as string concatenation around the substituted values. The templates contain nothing else that the template engine would interpret.
- `num_results=3` and `k=3` of the search wrapper: the model admits a search returning any number of results.
- `datetime.now().year` is the parameter `year`, taken to be at least 1, as Python's year always is.
- Text.LowerChar: lower-cases ASCII letters only. No character outside ASCII lower-cases to "e", "v" or "t", so `IsAffirmative` agrees with Python's `lower()` for the comparison with "evet".
- Retrieval.IsArgsort: fixes no order among equal scores. numpy's default sort does not fix it either, so no property here depends on it.
- Pipeline.IsEnumeration: fixes no particular order of the titles, but it is a function of the set alone, so the model lists equal sets in the same order. CPython's `list(set(...))` can order equal sets differently depending on how they were built, for example `list({8, 16})` and `list({16, 8})`. No property here depends on the order.
