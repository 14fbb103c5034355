/** The web fallback (`do_google_fallback`): a recency-biased search query,
    the links of the results, the grounding text built from their titles and
    snippets, and the answer over that text. The search provider and the
    language model are oracles. */
module WebFallback {
  import opened Wrappers
  import opened Text

  /** One search result as a dict: each key may be missing. */
  datatype SearchResult = SearchResult(title: Option<string>, snippet: Option<string>, link: Option<string>)

  /** The search term that restricts results to those after a given year. */
  const AfterTerm: string := " after:"

  /** `f"{question} after:{current_year - 1}"`; the clock's year is at least 1. */
  function SearchQuery(question: string, year: int): string
    requires year >= 1
  {
    question + AfterTerm + DecimalOf(year - 1)
  }

  /** The query is the question, then " after:", then the digits of the
      year before the current one, which read back as that year. */
  lemma SearchQueryYear(question: string, year: int)
    requires year >= 1
    ensures var q := SearchQuery(question, year);
      && |q| > |question| + |AfterTerm|
      && q[..|question|] == question
      && q[|question|..|question| + |AfterTerm|] == AfterTerm
      && (forall k :: |question| + |AfterTerm| <= k < |q| ==> '0' <= q[k] <= '9')
      && ParseDecimal(q[|question| + |AfterTerm|..]) == year - 1
  {
    var q := SearchQuery(question, year);
    assert q[|question| + |AfterTerm|..] == DecimalOf(year - 1);
    ParseDecimalOf(year - 1);
  }

  /** `[r["link"] for r in web_results if "link" in r]`. */
  function Links(results: seq<SearchResult>): (links: seq<string>)
    ensures |links| <= |results|
    ensures forall l :: l in links <==> exists i :: 0 <= i < |results| && results[i].link == Some(l)
  {
    if results == [] then []
    else
      var rest := Links(results[1..]);
      assert forall l :: (exists i :: 0 <= i < |results[1..]| && results[1..][i].link == Some(l)) <==>
                         (exists i :: 1 <= i < |results| && results[i].link == Some(l)) by {
        forall l ensures (exists i :: 0 <= i < |results[1..]| && results[1..][i].link == Some(l)) ==>
                         (exists i :: 1 <= i < |results| && results[i].link == Some(l)) {
          if i :| 0 <= i < |results[1..]| && results[1..][i].link == Some(l) {
            assert results[i + 1].link == Some(l);
          }
        }
      }
      if results[0].link.Some? then [results[0].link.value] + rest else rest
  }

  /** The links keep the order of the results: the links of a concatenation
      are the links of the first part followed by those of the second. */
  lemma {:induction false} LinksAppend(a: seq<SearchResult>, b: seq<SearchResult>)
    ensures Links(a + b) == Links(a) + Links(b)
  {
    if a != [] {
      assert (a + b)[0] == a[0] && (a + b)[1..] == a[1..] + b;
      LinksAppend(a[1..], b);
    } else {
      assert a + b == b;
    }
  }

  /** When every result has a link, no result is dropped and none is
      deduplicated: the links are the results' links, one for one. */
  lemma {:induction false} LinksAllLinked(results: seq<SearchResult>)
    requires forall i :: 0 <= i < |results| ==> results[i].link.Some?
    ensures |Links(results)| == |results|
    ensures forall i :: 0 <= i < |results| ==> Links(results)[i] == results[i].link.value
  {
    if results != [] {
      LinksAllLinked(results[1..]);
    }
  }

  /** The link-filtering scenario: a result without a link in the middle. */
  lemma LinksExample()
    ensures Links([SearchResult(Some("T1"), Some("S1"), Some("x")),
                   SearchResult(Some("T2"), Some("S2"), None),
                   SearchResult(Some("T3"), Some("S3"), Some("y"))]) == ["x", "y"]
  {
    var r1 := SearchResult(Some("T1"), Some("S1"), Some("x"));
    var r2 := SearchResult(Some("T2"), Some("S2"), None);
    var r3 := SearchResult(Some("T3"), Some("S3"), Some("y"));
    LinksAppend([r1], [r2, r3]);
    LinksAppend([r2], [r3]);
    assert [r1] + [r2, r3] == [r1, r2, r3];
    assert [r2] + [r3] == [r2, r3];
  }

  /** `f"{r['title']}: {r['snippet']}"`, which needs both keys. */
  function ResultLine(r: SearchResult): Result<string> {
    if r.title.None? then Err(KeyError("title"))
    else if r.snippet.None? then Err(KeyError("snippet"))
    else Ok(r.title.value + ": " + r.snippet.value)
  }

  /** The line of a result that has a title and a snippet. */
  function LineOf(r: SearchResult): string {
    r.title.GetOr("") + ": " + r.snippet.GetOr("")
  }

  /** `"\n".join(f"{r['title']}: {r['snippet']}" for r in web_results)`:
      every result contributes its line, whether it has a link or not; the
      first result without a title or a snippet makes it fail. */
  function GroundingText(results: seq<SearchResult>): (r: Result<string>)
    ensures r.Ok? <==> forall i :: 0 <= i < |results| ==> results[i].title.Some? && results[i].snippet.Some?
    ensures r.Ok? ==> r.value == JoinLines(seq(|results|, i requires 0 <= i < |results| => LineOf(results[i])))
    ensures r.Err? ==>
      exists i :: 0 <= i < |results| && ResultLine(results[i]).Err?
        && r.error == KeyError(if results[i].title.None? then "title" else "snippet")
        && forall j :: 0 <= j < i ==> results[j].title.Some? && results[j].snippet.Some?
  {
    match MapResult(results, ResultLine)
    case Err(e) => Err(e)
    case Ok(lines) =>
      assert lines == seq(|results|, i requires 0 <= i < |results| => LineOf(results[i]));
      Ok(JoinLines(lines))
  }

  /** The prompt over the web results, which also tells the model the
      current year. */
  function WebPrompt(question: string, webText: string, year: int): string
    requires year >= 0
  {
    "Soru: " + question + "\nWeb Sonuçları:\n" + webText + "\n"
    + WebInstructions + DecimalOf(year) + WebClosing
  }

  /** "Answer in Turkish, professionally. The latest web searches are
      current and the year is ..." */
  const WebInstructions: string := "Cevabı Türkçe ve profesyonel bir şekilde ver. Son web aramaları günceldir ve yıl "

  /** "..., keep this in mind." */
  const WebClosing: string := ", buna dikkat et."

  /** The prompt carries the year: two prompts over the same question and
      results are equal only when they name the same year. */
  lemma WebPromptYear(question: string, webText: string, y1: int, y2: int)
    requires y1 >= 0 && y2 >= 0
    requires WebPrompt(question, webText, y1) == WebPrompt(question, webText, y2)
    ensures y1 == y2
  {
    var head := "Soru: " + question + "\nWeb Sonuçları:\n" + webText + "\n" + WebInstructions;
    var tail := WebClosing;
    var d1, d2 := DecimalOf(y1), DecimalOf(y2);
    assert WebPrompt(question, webText, y1) == head + d1 + tail;
    assert WebPrompt(question, webText, y2) == head + d2 + tail;
    assert |d1| == |d2|;
    assert d1 == (head + d1 + tail)[|head|..|head| + |d1|];
    assert d2 == (head + d2 + tail)[|head|..|head| + |d2|];
    DecimalOfInjective(y1, y2);
  }

  /** What `do_google_fallback` returns: the model's answer and the links. */
  datatype WebAnswer = WebAnswer(answer: string, links: seq<string>)

  /** `do_google_fallback`: search once with the recency-biased query, keep
      the links of the results, ground the model on every result's title and
      snippet, and tell it the same year the query was built from. */
  function DoGoogleFallback(question: string, year: int, search: string -> seq<SearchResult>,
                            llm: string -> string): (r: Result<WebAnswer>)
    requires year >= 1
    ensures var results := search(SearchQuery(question, year));
      && (r.Ok? <==> GroundingText(results).Ok?)
      && (r.Err? ==> r.error == GroundingText(results).error)
      && (r.Ok? ==> r.value.links == Links(results)
                    && r.value.answer == llm(WebPrompt(question, GroundingText(results).value, year)))
  {
    var results := search(SearchQuery(question, year));
    var links := Links(results);
    match GroundingText(results)
    case Err(e) => Err(e)
    case Ok(text) => Ok(WebAnswer(llm(WebPrompt(question, text, year)), links))
  }
}
