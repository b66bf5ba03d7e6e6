/**
 * `WebScraper`: turning search-result pages into destination URLs, and
 * destination pages into scraped records.
 *
 * The HTTP client and the HTML parser are not modelled; their output is.
 * `resultHrefs(searchUrl)` stands for the `href` values of the anchors that
 * carry one on the result page fetched from `searchUrl`, in document order.
 * `fetchPage(url)` stands for the parsed page at `url`.
 */
module Scraping {
  import opened Wrappers
  import opened Strings
  import opened Records

  /** The search endpoint a query is appended to, unescaped. */
  const SearchEndpoint := "https://www.google.com/search?q="

  /** The redirect prefix that marks a search-result anchor. */
  const RedirectPrefix := "/url?q="

  /** The browser identification sent with every request. */
  const UserAgent := "Mozilla/5.0 (Windows NT 10.0; Win64; x64) AppleWebKit/537.36 (KHTML, like Gecko) Chrome/58.0.3029.110 Safari/537.3"

  function SearchUrl(query: string): string {
    SearchEndpoint + query
  }

  /** An anchor target that is a search-result redirect. */
  predicate IsResultHref(href: string) {
    StartsWith(href, RedirectPrefix)
  }

  /**
   * The destination URL in a redirect href: what follows the 7-character
   * prefix, up to but not including the first `&`.
   */
  function DecodeTarget(href: string): (url: string)
    requires IsResultHref(href)
    ensures '&' !in url
    ensures StartsWith(href[|RedirectPrefix|..], url)
    ensures |RedirectPrefix| + |url| < |href| ==> href[|RedirectPrefix| + |url|] == '&'
  {
    var rest := href[|RedirectPrefix|..];
    SplitFirst(rest, "&");
    ContainsChar(Split(rest, "&")[0], '&');
    Split(rest, "&")[0]
  }

  /**
   * A redirect with `&` right after the prefix, such as `/url?q=&sa=U`,
   * decodes to the empty URL, and that URL is kept like any other.
   */
  lemma EmptyTarget(href: string)
    requires IsResultHref(href) && |href| > |RedirectPrefix| && href[|RedirectPrefix|] == '&'
    ensures DecodeTarget(href) == ""
    ensures ResultUrls([href]) == [""]
  {
    assert href[|RedirectPrefix|..][0] == '&';
    assert [href][..0] == [];
  }

  /** The decoded destinations of the redirect anchors among `hrefs`, in document order. */
  function ResultUrls(hrefs: seq<string>): (urls: seq<string>)
    ensures |urls| <= |hrefs|
  {
    if hrefs == [] then []
    else
      var n := |hrefs| - 1;
      var init := ResultUrls(hrefs[..n]);
      if IsResultHref(hrefs[n]) then init + [DecodeTarget(hrefs[n])] else init
  }

  /** The indices of the redirect anchors among `hrefs`, in increasing order. */
  function ResultPositions(hrefs: seq<string>): (ps: seq<nat>)
    ensures forall a, b :: 0 <= a < b < |ps| ==> ps[a] < ps[b]
    ensures forall k :: 0 <= k < |ps| ==> ps[k] < |hrefs|
    ensures forall i :: 0 <= i < |hrefs| ==> (IsResultHref(hrefs[i]) <==> i in ps)
  {
    if hrefs == [] then []
    else
      var n := |hrefs| - 1;
      var init := ResultPositions(hrefs[..n]);
      assert forall i :: 0 <= i < n ==> hrefs[..n][i] == hrefs[i];
      if IsResultHref(hrefs[n]) then init + [n] else init
  }

  /**
   * URL `k` of a result page is the decoding of the `k`-th redirect anchor:
   * every redirect anchor yields one URL, no other anchor yields any, and
   * document order is kept.
   */
  lemma {:induction false} ResultUrlsInDocumentOrder(hrefs: seq<string>)
    ensures |ResultUrls(hrefs)| == |ResultPositions(hrefs)|
    ensures forall k :: 0 <= k < |ResultPositions(hrefs)| ==>
      (IsResultHref(hrefs[ResultPositions(hrefs)[k]]) &&
       ResultUrls(hrefs)[k] == DecodeTarget(hrefs[ResultPositions(hrefs)[k]]))
  {
    if hrefs != [] {
      var n := |hrefs| - 1;
      var init := hrefs[..n];
      ResultUrlsInDocumentOrder(init);
      var ps, us := ResultPositions(init), ResultUrls(init);
      var ps', us' := ResultPositions(hrefs), ResultUrls(hrefs);
      if IsResultHref(hrefs[n]) {
        assert ps' == ps + [n] && us' == us + [DecodeTarget(hrefs[n])];
      } else {
        assert ps' == ps && us' == us;
      }
      forall k | 0 <= k < |ps|
        ensures IsResultHref(hrefs[ps'[k]]) && us'[k] == DecodeTarget(hrefs[ps'[k]])
      {
        assert ps'[k] == ps[k] && us'[k] == us[k];
        assert init[ps[k]] == hrefs[ps[k]];
      }
    }
  }

  /** The URLs found for `queries`: each query's result URLs, in query order. */
  function ScrapedUrls(queries: seq<string>, resultHrefs: string -> seq<string>): seq<string> {
    if queries == [] then []
    else ResultUrls(resultHrefs(SearchUrl(queries[0]))) + ScrapedUrls(queries[1..], resultHrefs)
  }

  /** Scraping two batches of queries gives the URLs of the first followed by those of the second. */
  lemma {:induction false} ScrapedUrlsConcat(first: seq<string>, second: seq<string>, resultHrefs: string -> seq<string>)
    ensures ScrapedUrls(first + second, resultHrefs) == ScrapedUrls(first, resultHrefs) + ScrapedUrls(second, resultHrefs)
  {
    var both := first + second;
    if first == [] {
      assert both == second;
    } else {
      ScrapedUrlsConcat(first[1..], second, resultHrefs);
      assert both[0] == first[0];
      assert both[1..] == first[1..] + second;
      var head := ResultUrls(resultHrefs(SearchUrl(first[0])));
      calc {
        ScrapedUrls(both, resultHrefs);
        head + ScrapedUrls(first[1..] + second, resultHrefs);
        head + (ScrapedUrls(first[1..], resultHrefs) + ScrapedUrls(second, resultHrefs));
        (head + ScrapedUrls(first[1..], resultHrefs)) + ScrapedUrls(second, resultHrefs);
      }
    }
  }

  /** A parsed page: its text, the `src` of each `img` and the `href` of each `a`, absent when the tag has none. */
  datatype Page = Page(text: string, imageSrcs: seq<Option<string>>, anchorHrefs: seq<Option<string>>)

  /**
   * Reading an attribute that a tag does not carry. The exception raised
   * there names only the attribute; the page's URL is added here so that the
   * outcome says which page failed.
   */
  datatype ScrapeError = MissingAttribute(url: string, attribute: string)

  predicate AllPresent(attrs: seq<Option<string>>) {
    forall k :: 0 <= k < |attrs| ==> attrs[k].Some?
  }

  function Values(attrs: seq<Option<string>>): (vs: seq<string>)
    requires AllPresent(attrs)
    ensures |vs| == |attrs| && forall k :: 0 <= k < |attrs| ==> attrs[k] == Some(vs[k])
  {
    seq(|attrs|, k requires 0 <= k < |attrs| => attrs[k].value)
  }

  /**
   * The record for one page. Image sources are read before link targets; an
   * `img` without `src` or an `a` without `href` is an error, not skipped.
   */
  function RecordOf(url: string, page: Page): (r: Result<ScrapedRecord, ScrapeError>)
    ensures r.Success? <==> AllPresent(page.imageSrcs) && AllPresent(page.anchorHrefs)
    ensures r.Success? ==>
      && r.value.url == url && r.value.text == page.text
      && |r.value.images| == |page.imageSrcs| && |r.value.links| == |page.anchorHrefs|
      && (forall k :: 0 <= k < |page.imageSrcs| ==> page.imageSrcs[k] == Some(r.value.images[k]))
      && (forall k :: 0 <= k < |page.anchorHrefs| ==> page.anchorHrefs[k] == Some(r.value.links[k]))
    ensures r.Failure? ==>
      && r.error.url == url
      && r.error.attribute == if AllPresent(page.imageSrcs) then "href" else "src"
  {
    if !AllPresent(page.imageSrcs) then Failure(MissingAttribute(url, "src"))
    else if !AllPresent(page.anchorHrefs) then Failure(MissingAttribute(url, "href"))
    else Success(ScrapedRecord(url, page.text, Values(page.imageSrcs), Values(page.anchorHrefs)))
  }

  /**
   * The records for `urls`, one per URL and in order, or the error of the
   * first URL whose page cannot be read.
   */
  function ScrapedContent(urls: seq<string>, fetchPage: string -> Page): (r: Result<seq<ScrapedRecord>, ScrapeError>)
    ensures r.Success? <==> forall i :: 0 <= i < |urls| ==> RecordOf(urls[i], fetchPage(urls[i])).Success?
    ensures r.Success? ==>
      && |r.value| == |urls|
      && forall i :: 0 <= i < |urls| ==> RecordOf(urls[i], fetchPage(urls[i])) == Success(r.value[i])
    ensures r.Failure? ==>
      exists i :: 0 <= i < |urls| && RecordOf(urls[i], fetchPage(urls[i])) == Failure(r.error) &&
        forall j :: 0 <= j < i ==> RecordOf(urls[j], fetchPage(urls[j])).Success?
  {
    if urls == [] then Success([])
    else
      match RecordOf(urls[0], fetchPage(urls[0]))
      case Failure(e) => Failure(e)
      case Success(record) =>
        match ScrapedContent(urls[1..], fetchPage)
        case Failure(e) => Failure(e)
        case Success(records) => Success([record] + records)
  }

  class WebScraper {
    const headers: map<string, string>

    constructor ()
      ensures headers == map["User-Agent" := UserAgent]
    {
      headers := map["User-Agent" := UserAgent];
    }

    /**
     * For each query in turn, the redirect anchors of its result page are
     * decoded in document order and appended; duplicates are kept.
     */
    method ScrapeUrls(queries: seq<string>, resultHrefs: string -> seq<string>) returns (urls: seq<string>)
      ensures urls == ScrapedUrls(queries, resultHrefs)
    {
      urls := [];
      for q := 0 to |queries|
        invariant urls == ScrapedUrls(queries[..q], resultHrefs)
      {
        var hrefs := resultHrefs(SearchUrl(queries[q]));
        for k := 0 to |hrefs|
          invariant urls == ScrapedUrls(queries[..q], resultHrefs) + ResultUrls(hrefs[..k])
        {
          var href := hrefs[k];
          assert hrefs[..k + 1][..k] == hrefs[..k];
          if StartsWith(href, RedirectPrefix) {
            var url := DecodeTarget(href);
            urls := urls + [url];
          }
        }
        assert hrefs[..|hrefs|] == hrefs;
        assert queries[..q + 1] == queries[..q] + [queries[q]];
        ScrapedUrlsConcat(queries[..q], [queries[q]], resultHrefs);
      }
      assert queries[..|queries|] == queries;
    }

    /**
     * Fetch and parse each URL in turn and build its record; the first page
     * with a tag lacking the attribute read from it ends the whole scrape.
     */
    method ScrapeContent(urls: seq<string>, fetchPage: string -> Page) returns (result: Result<seq<ScrapedRecord>, ScrapeError>)
      ensures result == ScrapedContent(urls, fetchPage)
    {
      var records: seq<ScrapedRecord> := [];
      for i := 0 to |urls|
        invariant |records| == i
        invariant forall j :: 0 <= j < i ==> RecordOf(urls[j], fetchPage(urls[j])) == Success(records[j])
      {
        var page := fetchPage(urls[i]);
        var record := RecordOf(urls[i], page);
        if record.Failure? {
          result := Failure(record.error);
          assert !ScrapedContent(urls, fetchPage).Success?;
          return;
        }
        records := records + [record.value];
      }
      var expected := ScrapedContent(urls, fetchPage);
      assert expected.Success?;
      assert expected.value == records;
      result := Success(records);
    }
  }
}
