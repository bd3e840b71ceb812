/**
 * The legal search service (LegalSearchService) and the consultation agent's
 * search tool: the document id and date read from a lex.uz URL by regular
 * expression, the heuristic relevance score, the conversion of raw search
 * results to documents, the query string sent to Brave Search, and the top ten
 * kept by the tool. The Brave Search call itself is an input: what it raised or
 * the list of web results it returned.
 */
module LegalSearch {
  import opened Wrappers
  import opened Text
  import opened Seqs
  import opened ResearchState
  import Ranking

  /* ---------- regular expressions on URLs ---------- */

  /**
   * The patterns searched for: `/docs/(\d+)`, `/acts/(\d+)`, `id[=:](\d+)`,
   * `/(\d+)(?:\?|$)` and `ONDATE=(\d{2}\.\d{2}\.\d{4})`.
   */
  datatype Pattern = Docs | Acts | IdParam | TrailingNumber | OnDate

  /** Where the captured group starts, from the start of the match. */
  function GroupOffset(p: Pattern): nat {
    match p
    case Docs => 6
    case Acts => 6
    case IdParam => 3
    case TrailingNumber => 1
    case OnDate => 7
  }

  predicate DigitAt(s: string, i: nat) {
    i < |s| && IsDigit(s[i])
  }

  /** `\d{2}\.\d{2}\.\d{4}` at index `i`. */
  predicate DateAt(s: string, i: nat) {
    i + 10 <= |s|
    && IsDigit(s[i]) && IsDigit(s[i + 1]) && s[i + 2] == '.'
    && IsDigit(s[i + 3]) && IsDigit(s[i + 4]) && s[i + 5] == '.'
    && IsDigit(s[i + 6]) && IsDigit(s[i + 7]) && IsDigit(s[i + 8]) && IsDigit(s[i + 9])
  }

  /**
   * Pattern `p` matches at index `j`. A greedy `\d+` that must be followed by `?`
   * or the end matches only when its maximal digit run is so followed; without
   * the MULTILINE flag, `$` matches at the end of the string and also just
   * before a line feed that ends it.
   */
  predicate MatchAt(url: string, p: Pattern, j: nat) {
    match p
    case Docs => OccursAt(url, "/docs/", j) && DigitAt(url, j + 6)
    case Acts => OccursAt(url, "/acts/", j) && DigitAt(url, j + 6)
    case IdParam =>
      OccursAt(url, "id", j) && j + 2 < |url| && (url[j + 2] == '=' || url[j + 2] == ':') && DigitAt(url, j + 3)
    case TrailingNumber =>
      j < |url| && url[j] == '/' && DigitAt(url, j + 1)
      && (j + 1 + DigitRun(url[j + 1..]) == |url| || url[j + 1 + DigitRun(url[j + 1..])] == '?'
          || (j + 1 + DigitRun(url[j + 1..]) == |url| - 1 && url[|url| - 1] == '\n'))
    case OnDate => OccursAt(url, "ONDATE=", j) && DateAt(url, j + 7)
  }

  /** The captured group of a match at `j`: the greedy digit run, or the ten characters of the date. */
  function Group(url: string, p: Pattern, j: nat): (g: string)
    requires MatchAt(url, p, j)
    ensures p != OnDate ==> |g| >= 1 && AllDigits(g)
  {
    var start := j + GroupOffset(p);
    if p == OnDate then url[start..start + 10] else url[start..start + DigitRun(url[start..])]
  }

  /** `re.search` from index `i`: the leftmost index at which `p` matches. */
  function FindMatch(url: string, p: Pattern, i: nat): (r: Option<nat>)
    ensures r.Some? ==> i <= r.value && MatchAt(url, p, r.value)
    decreases |url| - i
  {
    if i >= |url| then None
    else if MatchAt(url, p, i) then Some(i)
    else FindMatch(url, p, i + 1)
  }

  /** The match found is the leftmost one, and there is none when nothing is found. */
  lemma {:induction false} FindMatchSpec(url: string, p: Pattern, i: nat)
    ensures FindMatch(url, p, i).Some? ==> forall j :: i <= j < FindMatch(url, p, i).value ==> !MatchAt(url, p, j)
    ensures FindMatch(url, p, i).None? ==> forall j :: i <= j ==> !MatchAt(url, p, j)
    decreases |url| - i
  {
    if i >= |url| {
      forall j | i <= j ensures !MatchAt(url, p, j) {
        NoMatchPastEnd(url, p, j);
      }
    } else if !MatchAt(url, p, i) {
      FindMatchSpec(url, p, i + 1);
      assert FindMatch(url, p, i) == FindMatch(url, p, i + 1);
    }
  }

  /** No pattern matches at or past the end of the URL. */
  lemma NoMatchPastEnd(url: string, p: Pattern, j: nat)
    requires j >= |url|
    ensures !MatchAt(url, p, j)
  {
  }

  /** `re.search(p, url).group(1)`, or None when there is no match. */
  function Search(url: string, p: Pattern): (r: Option<string>)
    ensures p != OnDate && r.Some? ==> |r.value| >= 1 && AllDigits(r.value)
  {
    var m := FindMatch(url, p, 0);
    if m.None? then None else Some(Group(url, p, m.value))
  }

  /** The service's `_extract_document_id`: the group of the first of three patterns that matches, or "". */
  function ServiceDocumentId(url: string): (id: string)
    ensures id == [] || AllDigits(id)
  {
    if Search(url, Docs).Some? then Search(url, Docs).value
    else if Search(url, Acts).Some? then Search(url, Acts).value
    else if Search(url, IdParam).Some? then Search(url, IdParam).value
    else ""
  }

  /** `Search` finds a group exactly when the pattern matches somewhere, and then at its leftmost match. */
  lemma SearchSpec(url: string, p: Pattern)
    ensures Search(url, p).None? <==> forall j :: !MatchAt(url, p, j)
    ensures Search(url, p).Some? ==>
      exists j :: MatchAt(url, p, j) && Search(url, p).value == Group(url, p, j) && forall k :: k < j ==> !MatchAt(url, p, k)
  {
    FindMatchSpec(url, p, 0);
  }

  /**
   * The id is empty exactly when none of the three patterns occurs anywhere in
   * the URL; a `/docs/` match takes precedence over the others.
   */
  lemma ServiceDocumentIdSpec(url: string)
    ensures ServiceDocumentId(url) == [] <==>
      forall j :: !MatchAt(url, Docs, j) && !MatchAt(url, Acts, j) && !MatchAt(url, IdParam, j)
    ensures Search(url, Docs).Some? ==> ServiceDocumentId(url) == Search(url, Docs).value
  {
    SearchSpec(url, Docs);
    SearchSpec(url, Acts);
    SearchSpec(url, IdParam);
  }

  /** The `ONDATE=` date of the URL, or "". */
  function DocumentDate(url: string): (d: string)
    ensures d == [] || (|d| == 10 && DateAt(d, 0))
  {
    if Search(url, OnDate).Some? then Search(url, OnDate).value else ""
  }

  /* ---------- the relevance score ---------- */

  /** The keywords of a legal title (already lower case, so `keyword.lower()` is the keyword). */
  const LegalKeywords: seq<string> := ["закон", "кодекс", "постановление", "положение", "порядок", "правило"]

  /** Some keyword occurs in the lowered title. */
  predicate AnyKeyword(keywords: seq<string>, lowered: string) {
    exists i :: 0 <= i < |keywords| && Contains(lowered, keywords[i])
  }

  /** The title marks the current edition. */
  predicate CurrentEdition(lowered: string) {
    Contains(lowered, "текущая редакция") || Contains(lowered, "действующая редакция")
  }

  /** `_calculate_relevance_score`: 0.5, plus 0.2 for an act, 0.1 for a legal keyword and 0.15 for a current edition, capped at 1.0. */
  function RelevanceScore(title: string, url: string): real {
    var lowered := Lower(title);
    var score := 0.5 + (if Contains(url, "/acts/") then 0.2 else 0.0)
      + (if AnyKeyword(LegalKeywords, lowered) then 0.1 else 0.0)
      + (if CurrentEdition(lowered) then 0.15 else 0.0);
    if score < 1.0 then score else 1.0
  }

  /** The score lies in [0.5, 0.95], so the cap never applies; an act scores at least 0.7, anything else at most 0.75. */
  lemma ScoreBounds(title: string, url: string)
    ensures 0.5 <= RelevanceScore(title, url) <= 0.95
    ensures Contains(url, "/acts/") ==> RelevanceScore(title, url) >= 0.7
    ensures !Contains(url, "/acts/") ==> RelevanceScore(title, url) <= 0.75
  {
  }

  /** The scoring loop: at most one keyword bonus (the loop breaks at the first keyword found). */
  method CalculateRelevanceScore(title: string, description: string, url: string) returns (score: real)
    ensures score == RelevanceScore(title, url)
  {
    var lowered := Lower(title);
    score := 0.5;
    if Contains(url, "/acts/") {
      score := score + 0.2;
    }
    var base := score;
    var i := 0;
    while i < |LegalKeywords|
      invariant 0 <= i <= |LegalKeywords|
      invariant forall k :: 0 <= k < i ==> !Contains(lowered, LegalKeywords[k])
      invariant score == base
    {
      if Contains(lowered, LegalKeywords[i]) {
        score := score + 0.1;
        break;
      }
      i := i + 1;
    }
    assert score == base + (if AnyKeyword(LegalKeywords, lowered) then 0.1 else 0.0);
    if Contains(lowered, "текущая редакция") || Contains(lowered, "действующая редакция") {
      score := score + 0.15;
    }
    if score >= 1.0 {
      score := 1.0;
    }
  }

  /* ---------- converting search results ---------- */

  /** One web result as Brave Search returns it: something other than a dict, or a dict with optional fields. */
  datatype RawResult =
    | NotADict
    | Fields(link: Option<string>, url: Option<string>, title: Option<string>,
             snippet: Option<string>, description: Option<string>)

  /** `result.get("link", result.get("url", ""))`. */
  function UrlOf(r: RawResult): string
    requires r.Fields?
  {
    r.link.GetOr(r.url.GetOr(""))
  }

  /** A dict whose URL yields an id and is not a comparison page. */
  predicate Accepted(r: RawResult) {
    r.Fields? && ServiceDocumentId(UrlOf(r)) != [] && !Contains(UrlOf(r), "action=compare")
  }

  /** The document built from an accepted result. */
  function ToDocument(r: RawResult): SearchResult
    requires r.Fields?
  {
    var url := UrlOf(r);
    var title := r.title.GetOr("");
    SearchResult(ServiceDocumentId(url), title, r.snippet.GetOr(r.description.GetOr("")), url,
                 DocumentDate(url), RelevanceScore(title, url))
  }

  function DocumentOf(r: RawResult): seq<SearchResult> {
    if Accepted(r) then [ToDocument(r)] else []
  }

  /** The documents of the accepted results, in order. */
  function Documents(results: seq<RawResult>): (docs: seq<SearchResult>)
    ensures |docs| <= |results|
    decreases |results|
  {
    if |results| == 0 then [] else Documents(results[..|results| - 1]) + DocumentOf(results[|results| - 1])
  }

  /** A document is produced exactly for each accepted result. */
  lemma {:induction false} DocumentsSpec(results: seq<RawResult>)
    ensures forall d :: d in Documents(results) <==> exists r :: r in results && Accepted(r) && d == ToDocument(r)
    decreases |results|
  {
    if |results| > 0 {
      var n := |results| - 1;
      DocumentsSpec(results[..n]);
      assert results == results[..n] + [results[n]];
    }
  }

  /**
   * Every document carries a non-empty all-digit id that the service reads
   * from its own URL, a URL that is no comparison page, an empty or
   * dd.mm.yyyy date, and a score in [0.5, 0.95].
   */
  lemma DocumentFields(results: seq<RawResult>)
    ensures forall d :: d in Documents(results) ==>
      && d.documentId != [] && AllDigits(d.documentId) && d.documentId == ServiceDocumentId(d.url)
      && !Contains(d.url, "action=compare")
      && (d.documentDate == [] || |d.documentDate| == 10)
      && 0.5 <= d.relevanceScore <= 0.95
  {
    DocumentsSpec(results);
    forall d | d in Documents(results)
      ensures 0.5 <= d.relevanceScore <= 0.95
    {
      var r :| r in results && Accepted(r) && d == ToDocument(r);
      ScoreBounds(r.title.GetOr(""), UrlOf(r));
    }
  }

  /** What the search service answers. */
  datatype SearchResponse = SearchResponse(successful: bool, error: string, totalFound: nat, documents: seq<SearchResult>)

  /** `extract_document_info`: the documents found and their number. */
  function ExtractDocumentInfo(results: seq<RawResult>): (r: SearchResponse)
    ensures r.successful && r.totalFound == |r.documents|
  {
    SearchResponse(true, "", |Documents(results)|, Documents(results))
  }

  lemma DocumentsStep(results: seq<RawResult>, i: nat)
    requires i < |results|
    ensures Documents(results[..i + 1]) == Documents(results[..i]) + DocumentOf(results[i])
  {
    assert results[..i + 1][..i] == results[..i];
  }

  /** One step of the conversion loop: the document of an accepted result, none otherwise. */
  method ConvertResult(r: RawResult) returns (d: seq<SearchResult>)
    ensures d == DocumentOf(r)
  {
    d := [];
    if r.Fields? {
      var url := UrlOf(r);
      var id := ServiceDocumentId(url);
      if id != [] && !Contains(url, "action=compare") {
        var title := r.title.GetOr("");
        var snippet := r.snippet.GetOr(r.description.GetOr(""));
        var score := CalculateRelevanceScore(title, snippet, url);
        d := [SearchResult(id, title, snippet, url, DocumentDate(url), score)];
      }
    }
  }

  /** The conversion loop. */
  method ExtractDocuments(results: seq<RawResult>) returns (response: SearchResponse)
    ensures response == ExtractDocumentInfo(results)
  {
    var documents: seq<SearchResult> := [];
    var i := 0;
    while i < |results|
      invariant 0 <= i <= |results|
      invariant documents == Documents(results[..i])
    {
      DocumentsStep(results, i);
      var d := ConvertResult(results[i]);
      documents := documents + d;
      i := i + 1;
    }
    assert results[..i] == results;
    response := SearchResponse(true, "", |documents|, documents);
  }

  /* ---------- search_legal_documents ---------- */

  /** The query sent to Brave Search: the stripped query and a site filter, lex.uz by default. */
  function SearchString(query: string, siteFilter: string): string {
    Trim(Py, query) + " site:" + (if siteFilter != [] then siteFilter else "lex.uz")
  }

  /** Stripping the query first changes nothing, and without a filter the search stays on lex.uz. */
  lemma SearchStringSpec(query: string, siteFilter: string)
    ensures SearchString(Trim(Py, query), siteFilter) == SearchString(query, siteFilter)
    ensures siteFilter == [] ==> SearchString(query, siteFilter) == Trim(Py, query) + " site:lex.uz"
  {
    TrimIdempotent(Py, query);
  }

  /** What the Brave Search wrapper did: raised (or returned something unreadable), or returned a list of web results. */
  datatype BraveOutcome = Failed(error: string) | WebResults(results: seq<RawResult>)

  function SearchLegalDocuments(outcome: BraveOutcome): SearchResponse {
    match outcome
    case Failed(error) => SearchResponse(false, error, 0, [])
    case WebResults(results) =>
      if results == [] then SearchResponse(true, "", 0, []) else ExtractDocumentInfo(results)
  }

  /** A failure reports no documents; a success reports exactly the documents of the accepted results. */
  lemma SearchLegalDocumentsSpec(outcome: BraveOutcome)
    ensures var r := SearchLegalDocuments(outcome);
      && r.totalFound == |r.documents|
      && (r.successful <==> outcome.WebResults?)
      && (outcome.WebResults? ==> r.documents == Documents(outcome.results))
      && (outcome.Failed? ==> r.documents == [] && r.error == outcome.error)
  {
  }

  /* ---------- brave_search_legal_documents ---------- */

  function ScoreOf(d: SearchResult): real {
    d.relevanceScore
  }

  /** The tool's message, kept in structured form. */
  datatype SearchReply =
    | SearchFailed(query: string, error: string)
    | NothingFound(query: string)
    | FoundDocuments(documents: seq<SearchResult>)

  /** The consultation state fields the tool writes; `None`: left as it is. */
  datatype SearchToolUpdate = SearchToolUpdate(
    hasSearched: bool,
    lastSearchQuery: string,
    searchResults: Option<seq<SearchResult>>,
    currentQuestion: Option<string>,
    message: SearchReply)

  /** The ten best documents by descending score, ties in the service's order. */
  function TopTen(documents: seq<SearchResult>): seq<SearchResult> {
    Front(Ranking.SortDesc(documents, ScoreOf), 10)
  }

  /** The tool on what Brave Search did with `SearchString(query, "")`. */
  function BraveSearchTool(query: string, outcome: BraveOutcome): SearchToolUpdate {
    var response := SearchLegalDocuments(outcome);
    if !response.successful then
      SearchToolUpdate(true, query, None, None, SearchFailed(query, response.error))
    else if response.totalFound == 0 then
      SearchToolUpdate(true, query, Some([]), None, NothingFound(query))
    else
      var top := TopTen(response.documents);
      SearchToolUpdate(true, query, Some(top), Some(query), FoundDocuments(top))
  }

  /**
   * Every branch records the search and its query. A failure leaves the stored
   * results alone; a search that kept no document clears them; otherwise at
   * most ten of the kept documents are stored, by descending score, none left
   * out scoring above one stored.
   */
  lemma BraveSearchToolSpec(query: string, outcome: BraveOutcome)
    ensures var u := BraveSearchTool(query, outcome);
      var docs := if outcome.WebResults? then Documents(outcome.results) else [];
      && u.hasSearched && u.lastSearchQuery == query
      && (outcome.Failed? ==> u.searchResults.None? && u.currentQuestion.None?)
      && (outcome.WebResults? && docs == [] ==> u.searchResults == Some([]) && u.currentQuestion.None?)
      && (outcome.WebResults? && docs != [] ==>
            && u.searchResults.Some? && u.currentQuestion == Some(query)
            && |u.searchResults.value| == (if |docs| <= 10 then |docs| else 10)
            && Ranking.SortedDesc(u.searchResults.value, ScoreOf)
            && multiset(u.searchResults.value) <= multiset(docs)
            && forall i, j :: 0 <= i < |u.searchResults.value| <= j < |docs| ==>
                 ScoreOf(u.searchResults.value[i]) >= ScoreOf(Ranking.SortDesc(docs, ScoreOf)[j]))
  {
    if outcome.WebResults? {
      Ranking.TopSpec(Documents(outcome.results), ScoreOf, 10);
    }
  }

  /** The marker of each listed document. */
  function IdMarker(id: string): string {
    "   ID: " + id + "\n"
  }

  function DocumentLines(i: nat, d: SearchResult): string {
    NatText(i) + ". **" + d.title + "**" + (if d.documentDate != [] then " - " + d.documentDate else "") + "\n"
    + IdMarker(d.documentId) + "   Snippet: " + d.snippet + "\n\n"
  }

  /** The numbered list of documents, from 1. */
  function DocumentList(ds: seq<SearchResult>): string
    decreases |ds|
  {
    if |ds| == 0 then [] else DocumentList(ds[..|ds| - 1]) + DocumentLines(|ds|, ds[|ds| - 1])
  }

  /** The tool's message as text. */
  function RenderReply(r: SearchReply): string {
    match r
    case SearchFailed(query, error) => "Brave Search failed for query: " + query + ". Error: " + error
    case NothingFound(query) => "No legal documents found for query: " + query
    case FoundDocuments(ds) => "Found " + NatText(|ds|) + " legal documents via Brave Search:\n\n" + DocumentList(ds)
  }

  /** The list shows the id of every document on it. */
  lemma {:induction false} DocumentListShowsIds(ds: seq<SearchResult>)
    ensures forall d :: d in ds ==> Contains(DocumentList(ds), IdMarker(d.documentId))
    decreases |ds|
  {
    if |ds| > 0 {
      var n := |ds| - 1;
      var last := ds[n];
      DocumentListShowsIds(ds[..n]);
      var head := NatText(|ds|) + ". **" + last.title + "**" + (if last.documentDate != [] then " - " + last.documentDate else "") + "\n";
      var tail := "   Snippet: " + last.snippet + "\n\n";
      assert DocumentLines(|ds|, last) == head + IdMarker(last.documentId) + tail;
      assert OccursAt(IdMarker(last.documentId), IdMarker(last.documentId), 0);
      ContainsAt(IdMarker(last.documentId), IdMarker(last.documentId), 0);
      ContainsPrepend(head, IdMarker(last.documentId), IdMarker(last.documentId));
      ContainsAppend(head + IdMarker(last.documentId), tail, IdMarker(last.documentId));
      ContainsPrepend(DocumentList(ds[..n]), DocumentLines(|ds|, last), IdMarker(last.documentId));
      forall d | d in ds[..n] ensures Contains(DocumentList(ds), IdMarker(d.documentId)) {
        ContainsAppend(DocumentList(ds[..n]), DocumentLines(|ds|, last), IdMarker(d.documentId));
      }
      assert ds == ds[..n] + [last];
    }
  }

  /** The message of a search that found documents names each stored document's id. */
  lemma FoundMessageShowsIds(query: string, outcome: BraveOutcome)
    ensures var u := BraveSearchTool(query, outcome);
      u.message.FoundDocuments? ==>
        forall d :: d in u.searchResults.value ==> Contains(RenderReply(u.message), IdMarker(d.documentId))
  {
    var u := BraveSearchTool(query, outcome);
    if u.message.FoundDocuments? {
      var ds := u.message.documents;
      DocumentListShowsIds(ds);
      forall d | d in ds ensures Contains(RenderReply(u.message), IdMarker(d.documentId)) {
        ContainsPrepend("Found " + NatText(|ds|) + " legal documents via Brave Search:\n\n", DocumentList(ds), IdMarker(d.documentId));
      }
    }
  }

  /** The tool, with its conversion loop over the first ten sorted documents. */
  method BraveSearchLegalDocuments(query: string, outcome: BraveOutcome) returns (u: SearchToolUpdate)
    ensures u == BraveSearchTool(query, outcome)
  {
    var response := SearchLegalDocuments(outcome);
    if !response.successful {
      return SearchToolUpdate(true, query, None, None, SearchFailed(query, response.error));
    }
    if response.totalFound == 0 {
      return SearchToolUpdate(true, query, Some([]), None, NothingFound(query));
    }
    var sorted := Ranking.SortByKey(response.documents, ScoreOf);
    var top := Front(sorted, 10);
    var objects: seq<SearchResult> := [];
    var i := 0;
    while i < |top|
      invariant 0 <= i <= |top|
      invariant objects == top[..i]
    {
      objects := objects + [top[i]];
      i := i + 1;
    }
    assert objects == TopTen(response.documents);
    u := SearchToolUpdate(true, query, Some(objects), Some(query), FoundDocuments(objects));
  }
}
