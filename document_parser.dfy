/**
 * The lex.uz document parser (LegalDocumentParser): its own document-id
 * extractor (the search service's three patterns and a fourth, a trailing
 * number), the normalisation of a URL to the `/acts/` form, the paragraph
 * filter that turns the content elements into markdown, and
 * `parse_legal_document` on what fetching the normalised URL produced.
 * Fetching and HTML parsing are inputs: a page is its stripped title and its
 * content elements, already found and with scripts, styles and navigation removed.
 */
module DocumentParser {
  import opened Wrappers
  import opened Text
  import opened LegalSearch

  /* ---------- document ids and URLs ---------- */

  /** `_extract_document_id`: the group of the first of four patterns that matches, or None. */
  function ParserDocumentId(url: string): (r: Option<string>)
    ensures r.Some? ==> |r.value| >= 1 && AllDigits(r.value)
  {
    if Search(url, Docs).Some? then Search(url, Docs)
    else if Search(url, Acts).Some? then Search(url, Acts)
    else if Search(url, IdParam).Some? then Search(url, IdParam)
    else Search(url, TrailingNumber)
  }

  /** None exactly when none of the four patterns occurs anywhere in the URL. */
  lemma ParserDocumentIdSpec(url: string)
    ensures ParserDocumentId(url).None? <==>
      forall j :: !MatchAt(url, Docs, j) && !MatchAt(url, Acts, j) && !MatchAt(url, IdParam, j)
                  && !MatchAt(url, TrailingNumber, j)
  {
    SearchSpec(url, Docs);
    SearchSpec(url, Acts);
    SearchSpec(url, IdParam);
    SearchSpec(url, TrailingNumber);
  }

  /**
   * The two extractors agree whenever the search service finds an id; the
   * parser finds one in more URLs (a trailing number), never in fewer.
   */
  lemma ExtractorsAgree(url: string)
    ensures ServiceDocumentId(url) != [] ==> ParserDocumentId(url) == Some(ServiceDocumentId(url))
    ensures ParserDocumentId(url).None? ==> ServiceDocumentId(url) == []
  {
  }

  /**
   * In a URL without the letters `d`, `a` and `i` none of the service's
   * patterns occurs, and the parser falls back to the trailing number.
   */
  lemma NoLettersNoServiceId(url: string)
    requires 'd' !in url && 'a' !in url && 'i' !in url
    ensures ServiceDocumentId(url) == []
    ensures ParserDocumentId(url) == Search(url, TrailingNumber)
  {
    NowhereWithout(url, "/docs/", 'd');
    NowhereWithout(url, "/acts/", 'a');
    NowhereWithout(url, "id", 'i');
    SearchSpec(url, Docs);
    SearchSpec(url, Acts);
    SearchSpec(url, IdParam);
  }

  /**
   * A URL without the service's markers that ends in `/` and a number, with
   * or without a final line feed, has an id only for the parser; when that
   * slash is the URL's first, the id is that number.
   */
  lemma OnlyParserReadsTrailingNumber(pre: string, n: string, tail: string)
    requires |n| >= 1 && AllDigits(n) && (tail == "" || tail == "\n")
    requires 'd' !in pre && 'a' !in pre && 'i' !in pre
    ensures ServiceDocumentId(pre + "/" + n + tail) == []
    ensures ParserDocumentId(pre + "/" + n + tail).Some?
    ensures '/' !in pre ==> ParserDocumentId(pre + "/" + n + tail) == Some(n)
  {
    var url := pre + "/" + n + tail;
    var j := |pre|;
    UrlLetters(pre, n, tail);
    NoLettersNoServiceId(url);
    TrailingMatch(pre, n, tail);
    SearchSpec(url, TrailingNumber);
    if '/' !in pre {
      forall k: nat | k < j ensures !MatchAt(url, TrailingNumber, k) {
        assert url[k] == pre[k];
      }
      FindMatchAt(url, TrailingNumber, 0, j);
    }
  }

  /** The trailing-number pattern matches at the slash before the number, and its group is the number. */
  lemma TrailingMatch(pre: string, n: string, tail: string)
    requires |n| >= 1 && AllDigits(n) && (tail == "" || tail == "\n")
    ensures MatchAt(pre + "/" + n + tail, TrailingNumber, |pre|)
    ensures Group(pre + "/" + n + tail, TrailingNumber, |pre|) == n
  {
    var url := pre + "/" + n + tail;
    var j := |pre|;
    assert url[j] == '/';
    assert url[j + 1..] == n + tail;
    DigitRunOfAllDigits(n, tail);
    assert url[j + 1] == n[0];
    assert url[j + 1..j + 1 + |n|] == n;
    if tail != "" {
      assert url[|url| - 1] == '\n';
    }
  }

  /** The URL has only the letters of `pre`. */
  lemma UrlLetters(pre: string, n: string, tail: string)
    requires AllDigits(n) && (tail == "" || tail == "\n")
    requires 'd' !in pre && 'a' !in pre && 'i' !in pre
    ensures var url := pre + "/" + n + tail; 'd' !in url && 'a' !in url && 'i' !in url
  {
    var url := pre + "/" + n + tail;
    forall k | 0 <= k < |url| ensures url[k] != 'd' && url[k] != 'a' && url[k] != 'i' {
      if k < |pre| {
        assert url[k] == pre[k];
      } else if |pre| < k < |pre| + 1 + |n| {
        assert url[k] == n[k - |pre| - 1];
      }
    }
  }

  /** The leftmost match from `i` is at `k` when `p` matches at `k` and nowhere in between. */
  lemma {:induction false} FindMatchAt(url: string, p: Pattern, i: nat, k: nat)
    requires i <= k && MatchAt(url, p, k)
    requires forall j :: i <= j < k ==> !MatchAt(url, p, j)
    ensures FindMatch(url, p, i) == Some(k)
    decreases k - i
  {
    if i < k {
      FindMatchAt(url, p, i + 1, k);
    }
  }

  const ActsPrefix: string := "https://lex.uz/acts/"

  /** `convert_url_to_acts_format`. */
  function ToActsFormat(url: string): string {
    if ParserDocumentId(url).Some? then ActsPrefix + ParserDocumentId(url).value else url
  }

  /** No `/docs/` in a URL in the `/acts/` form. */
  lemma ActsUrlNoDocs(id: string)
    requires AllDigits(id)
    ensures Search(ActsPrefix + id, Docs).None?
  {
    var url := ActsPrefix + id;
    forall i | 0 <= i < |url| ensures url[i] != 'd' {
      if i >= |ActsPrefix| {
        assert url[i] == id[i - |ActsPrefix|];
      }
    }
    NowhereWithout(url, "/docs/", 'd');
    SearchSpec(url, Docs);
  }

  /** Before index 14 there is no `/acts/`: the only `a` of the prefix is at 15. */
  lemma ActsUrlNoEarlyActs(url: string)
    requires |url| > 20 && url[..20] == ActsPrefix
    ensures forall j: nat :: j < 14 ==> !MatchAt(url, Acts, j)
  {
    forall j: nat | j < 14 ensures !OccursAt(url, "/acts/", j) {
      assert url[j + 1] == ActsPrefix[j + 1] != 'a';
      assert !OccursAt(url, "/acts/", j) by {
        if j + 6 <= |url| {
          assert url[j..j + 6][1] == url[j + 1];
        }
      }
    }
  }

  /** The leftmost `/acts/` of a URL in the `/acts/` form is that of the prefix. */
  lemma ActsUrlLeftmost(id: string)
    requires |id| >= 1 && AllDigits(id)
    ensures FindMatch(ActsPrefix + id, Acts, 0) == Some(14)
  {
    var url := ActsPrefix + id;
    assert url[..20] == ActsPrefix;
    ActsUrlNoEarlyActs(url);
    assert url[14..20] == ActsPrefix[14..20];
    assert url[20] == id[0];
    assert MatchAt(url, Acts, 14);
    FindMatchAt(url, Acts, 0, 14);
  }

  /** A URL in the `/acts/` form gives back its own id. */
  lemma ActsUrlId(id: string)
    requires |id| >= 1 && AllDigits(id)
    ensures ParserDocumentId(ActsPrefix + id) == Some(id)
  {
    var url := ActsPrefix + id;
    ActsUrlNoDocs(id);
    ActsUrlLeftmost(id);
    assert url[20..] == id + [];
    DigitRunOfAllDigits(id, []);
    assert url[20..20 + |id|] == id;
  }

  /** Normalising twice is normalising once; a URL with an id becomes the `/acts/` URL of that id. */
  lemma ToActsFormatIdempotent(url: string)
    ensures ToActsFormat(ToActsFormat(url)) == ToActsFormat(url)
    ensures ParserDocumentId(url).Some? ==> ParserDocumentId(ToActsFormat(url)) == ParserDocumentId(url)
  {
    if ParserDocumentId(url).Some? {
      ActsUrlId(ParserDocumentId(url).value);
    }
  }

  /* ---------- content ---------- */

  /** One content element: its tag name and its text. */
  datatype Element = Element(name: string, text: string)

  predicate IsHeading(e: Element) {
    e.name in ["h1", "h2", "h3", "h4", "h5", "h6"]
  }

  /** An element is kept when its stripped text is longer than ten characters. */
  predicate Kept(e: Element) {
    |Trim(Py, e.text)| > 10
  }

  /** A kept element's paragraph: a heading wrapped as `\n## text\n`, other text as it is. */
  function Paragraph(e: Element): string {
    var t := Trim(Py, e.text);
    if IsHeading(e) then "\n## " + t + "\n" else t
  }

  function ParagraphOf(e: Element): seq<string> {
    if Kept(e) then [Paragraph(e)] else []
  }

  /** The paragraphs of the kept elements, in document order. */
  function Paragraphs(es: seq<Element>): (ps: seq<string>)
    ensures |ps| <= |es|
    decreases |es|
  {
    if |es| == 0 then [] else Paragraphs(es[..|es| - 1]) + ParagraphOf(es[|es| - 1])
  }

  /** `clean_and_structure_content`: the paragraphs joined by blank lines. */
  function Content(es: seq<Element>): string {
    Join(Paragraphs(es), "\n\n")
  }

  /** Exactly the kept elements give a paragraph. */
  lemma {:induction false} ParagraphsSpec(es: seq<Element>)
    ensures forall p :: p in Paragraphs(es) <==> exists e :: e in es && Kept(e) && p == Paragraph(e)
    decreases |es|
  {
    if |es| > 0 {
      var n := |es| - 1;
      ParagraphsSpec(es[..n]);
      assert es == es[..n] + [es[n]];
    }
  }

  /** Every paragraph has more than ten characters. */
  lemma ParagraphLong(e: Element)
    requires Kept(e)
    ensures |Paragraph(e)| > 10 && Contains(Paragraph(e), Trim(Py, e.text))
  {
    var t := Trim(Py, e.text);
    assert OccursAt(t, t, 0);
    ContainsAt(t, t, 0);
    if IsHeading(e) {
      ContainsPrepend("\n## ", t, t);
      ContainsAppend("\n## " + t, "\n", t);
    }
  }

  /** The stripped text of every kept element shows in the content, and the content is empty exactly when nothing is kept. */
  lemma ContentSpec(es: seq<Element>)
    ensures forall e :: e in es && Kept(e) ==> Contains(Content(es), Trim(Py, e.text))
    ensures Content(es) == [] <==> forall e :: e in es ==> !Kept(e)
  {
    var ps := Paragraphs(es);
    ParagraphsSpec(es);
    JoinShowsParts(ps, "\n\n");
    forall e | e in es && Kept(e) ensures Contains(Content(es), Trim(Py, e.text)) {
      assert Paragraph(e) in ps;
      ParagraphLong(e);
      ContainsWithin(Content(es), Paragraph(e), Trim(Py, e.text));
    }
    if |ps| > 0 {
      assert ps[0] in ps;
      var e :| e in es && Kept(e) && ps[0] == Paragraph(e);
      ParagraphLong(e);
      assert |Content(es)| >= |ps[0]|;
    }
  }

  /** The paragraph loop of `clean_and_structure_content`. */
  method CleanAndStructureContent(es: seq<Element>) returns (content: string)
    ensures content == Content(es)
  {
    var paragraphs: seq<string> := [];
    var i := 0;
    while i < |es|
      invariant 0 <= i <= |es|
      invariant paragraphs == Paragraphs(es[..i])
    {
      assert es[..i + 1][..i] == es[..i];
      var text := Trim(Py, es[i].text);
      if |text| > 10 {
        if es[i].name in ["h1", "h2", "h3", "h4", "h5", "h6"] {
          paragraphs := paragraphs + ["\n## " + text + "\n"];
        } else {
          paragraphs := paragraphs + [text];
        }
      }
      i := i + 1;
    }
    assert es[..i] == es;
    content := Join(paragraphs, "\n\n");
  }

  /* ---------- parse_legal_document ---------- */

  /** A fetched and parsed page: its stripped `<title>` ("" without one) and its content elements. */
  datatype Page = Page(title: string, elements: seq<Element>)

  datatype ParseResult =
    | ParseFailed(error: string)
    | Parsed(markdown: string, title: string, documentId: Option<string>, sourceUrl: string)

  /**
   * `parse_legal_document`: fetch the `/acts/` form of the URL (None: the
   * fetch failed or returned nothing), then build the markdown.
   */
  function ParseLegalDocument(url: string, fetch: string -> Option<Page>): ParseResult {
    var page := fetch(ToActsFormat(url));
    if page.None? then ParseFailed("Failed to fetch document")
    else if Content(page.value.elements) == [] then ParseFailed("No content extracted")
    else Parsed(Content(page.value.elements), page.value.title, ParserDocumentId(url), url)
  }

  /**
   * The page fetched is the normalised URL's; parsing succeeds exactly when
   * the fetch does and some element is kept, and then the markdown is the
   * content and the metadata carry the original URL and its id.
   */
  lemma ParseLegalDocumentSpec(url: string, fetch: string -> Option<Page>)
    ensures var r := ParseLegalDocument(url, fetch);
      var page := fetch(ToActsFormat(url));
      && (r.Parsed? <==> page.Some? && exists e :: e in page.value.elements && Kept(e))
      && (r.Parsed? ==> r.markdown == Content(page.value.elements) && r.markdown != []
                        && r.title == page.value.title
                        && r.documentId == ParserDocumentId(url) && r.sourceUrl == url)
  {
    var page := fetch(ToActsFormat(url));
    if page.Some? {
      ContentSpec(page.value.elements);
    }
  }
}
