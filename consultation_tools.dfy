/**
 * The consultation agent's `parse_legal_document` tool: a cache of parsed
 * documents keyed by document id, filled from the URL of the search result
 * with that id. The agent's `consultation_search` tool is the same code as the
 * search service's tool and is `LegalSearch.BraveSearchTool`. The parse
 * timestamp `now` is a parameter.
 */
module ConsultationTools {
  import opened Wrappers
  import opened Seqs
  import opened ResearchState
  import opened DocumentParser

  /** The metadata the parser reports: the source URL, the id it read (or "") and the page title. */
  function Metadata(r: ParseResult): map<string, string>
    requires r.Parsed?
  {
    map["source_url" := r.sourceUrl, "document_id" := r.documentId.GetOr(""), "title" := r.title]
  }

  /** The first search result with the given id. */
  function FirstWithId(results: seq<SearchResult>, id: string): (r: Option<SearchResult>)
    ensures r.Some? ==> r.value in results && r.value.documentId == id
    decreases |results|
  {
    if |results| == 0 then None
    else if results[0].documentId == id then Some(results[0])
    else FirstWithId(results[1..], id)
  }

  /** None exactly when no result has the id; otherwise the result at the first index with it. */
  lemma {:induction false} FirstWithIdSpec(results: seq<SearchResult>, id: string)
    ensures FirstWithId(results, id).None? <==> forall i :: 0 <= i < |results| ==> results[i].documentId != id
    ensures FirstWithId(results, id).Some? ==>
      exists i :: 0 <= i < |results| && results[i] == FirstWithId(results, id).value
                  && forall k :: 0 <= k < i ==> results[k].documentId != id
    decreases |results|
  {
    if |results| > 0 && results[0].documentId != id {
      FirstWithIdSpec(results[1..], id);
      if FirstWithId(results, id).Some? {
        var i :| 0 <= i < |results[1..]| && results[1..][i] == FirstWithId(results, id).value
                 && forall k :: 0 <= k < i ==> results[1..][k].documentId != id;
        assert results[i + 1] == FirstWithId(results, id).value;
        assert forall k :: 0 <= k < i + 1 ==> results[k].documentId != id by {
          forall k | 0 <= k < i + 1 ensures results[k].documentId != id {
            if k > 0 {
              assert results[k] == results[1..][k - 1];
            }
          }
        }
      }
    }
  }

  /** The lookup loop, stopping at the first result with the id. */
  method FindSearchResult(results: seq<SearchResult>, id: string) returns (r: Option<SearchResult>)
    ensures r == FirstWithId(results, id)
  {
    var i := 0;
    while i < |results|
      invariant 0 <= i <= |results|
      invariant FirstWithId(results[i..], id) == FirstWithId(results, id)
    {
      assert results[i..][1..] == results[i + 1..];
      if results[i].documentId == id {
        return Some(results[i]);
      }
      i := i + 1;
    }
    return None;
  }

  /** The preview shown to the agent: the first 1000 characters and `...` when the content is longer. */
  function Preview(content: string): (p: string)
    ensures |content| <= 1000 ==> p == content
    ensures |content| > 1000 ==> |p| == 1003 && p[..1000] == content[..1000] && p[1000..] == "..."
  {
    if |content| > 1000 then Front(content, 1000) + "..." else content
  }

  /** The tool's message, kept in structured form. */
  datatype ParseReply =
    | AlreadyParsed(id: string)
    | NotInResults(id: string)
    | ParseFailure(id: string, error: string)
    | ParseSuccess(id: string, title: string, preview: string)

  /** The state the tool writes: the new cache (None: left as it is) and its message. */
  datatype ParseUpdate = ParseUpdate(parsedDocuments: Option<map<string, DocumentContent>>, message: ParseReply)

  /**
   * `parse_legal_document`: nothing to do for a cached id; otherwise the URL
   * of the first search result with the id (a missing or empty URL is an
   * error), then the parser on it (`parse` stands for the fetch and parse of
   * `DocumentParser.ParseLegalDocument`), and on success the cache with the new entry.
   */
  function ParseDocumentTool(id: string, results: seq<SearchResult>, parsed: map<string, DocumentContent>,
                             parse: string -> ParseResult, now: string): ParseUpdate
  {
    if id in parsed then ParseUpdate(None, AlreadyParsed(id))
    else
      var found := FirstWithId(results, id);
      if found.None? || found.value.url == [] then ParseUpdate(None, NotInResults(id))
      else
        var result := parse(found.value.url);
        if result.ParseFailed? then ParseUpdate(None, ParseFailure(id, result.error))
        else
          var doc := DocumentContent(id, result.title, result.markdown, Metadata(result), now);
          ParseUpdate(Some(parsed[id := doc]), ParseSuccess(id, result.title, Preview(result.markdown)))
  }

  /** Only a successful parse changes the cache: a cached id, an id with no URL and a parser failure leave it alone. */
  lemma ParseDocumentToolGuards(id: string, results: seq<SearchResult>, parsed: map<string, DocumentContent>,
                                parse: string -> ParseResult, now: string)
    ensures var u := ParseDocumentTool(id, results, parsed, parse, now);
      && (id in parsed ==> u == ParseUpdate(None, AlreadyParsed(id)))
      && (id !in parsed && (forall i :: 0 <= i < |results| ==> results[i].documentId != id) ==>
            u == ParseUpdate(None, NotInResults(id)))
      && (id !in parsed && FirstWithId(results, id).Some? && FirstWithId(results, id).value.url == [] ==>
            u == ParseUpdate(None, NotInResults(id)))
      && (id !in parsed && FirstWithId(results, id).Some? && FirstWithId(results, id).value.url != []
          && parse(FirstWithId(results, id).value.url).ParseFailed? ==>
            u == ParseUpdate(None, ParseFailure(id, parse(FirstWithId(results, id).value.url).error)))
      && (u.parsedDocuments.Some? <==> u.message.ParseSuccess?)
  {
    FirstWithIdSpec(results, id);
  }

  /**
   * A successful parse is of the URL of the first search result with the id;
   * the cache gains exactly that id, every other entry kept, and the preview
   * is the content's.
   */
  lemma ParseDocumentToolSuccess(id: string, results: seq<SearchResult>, parsed: map<string, DocumentContent>,
                                 parse: string -> ParseResult, now: string)
    requires ParseDocumentTool(id, results, parsed, parse, now).message.ParseSuccess?
    ensures var u := ParseDocumentTool(id, results, parsed, parse, now);
      var found := FirstWithId(results, id);
      && id !in parsed && found.Some? && found.value.url != []
      && parse(found.value.url).Parsed?
      && u.parsedDocuments.Some?
      && u.parsedDocuments.value.Keys == parsed.Keys + {id}
      && (forall k :: k in parsed ==> u.parsedDocuments.value[k] == parsed[k])
      && u.parsedDocuments.value[id] == DocumentContent(id, parse(found.value.url).title, parse(found.value.url).markdown,
                                                          Metadata(parse(found.value.url)), now)
      && u.message.preview == Preview(parse(found.value.url).markdown)
  {
  }

  /** With the document cached, a second call changes nothing. */
  lemma ParseDocumentToolOnce(id: string, results: seq<SearchResult>, parsed: map<string, DocumentContent>,
                              parse: string -> ParseResult, now: string)
    requires ParseDocumentTool(id, results, parsed, parse, now).parsedDocuments.Some?
    ensures var cached := ParseDocumentTool(id, results, parsed, parse, now).parsedDocuments.value;
      ParseDocumentTool(id, results, cached, parse, now) == ParseUpdate(None, AlreadyParsed(id))
  {
  }
}
