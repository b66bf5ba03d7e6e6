/**
 * The orchestrator: topics to queries, queries to URLs, URLs to records,
 * records into the table, the table back out, and all stored texts joined
 * into the corpus handed to the word cloud and the entity tagger.
 */
module Pipeline {
  import opened Wrappers
  import opened Strings
  import opened Records
  import opened QueryGeneration
  import opened Scraping
  import opened Storage

  /** The texts of `data`, in order. */
  function Texts(data: seq<ScrapedRecord>): seq<string> {
    seq(|data|, i requires 0 <= i < |data| => data[i].text)
  }

  /** `' '.join(texts)`: every text once, with a single space between neighbours. */
  function CombinedText(data: seq<ScrapedRecord>): (corpus: string)
    ensures |corpus| == TotalLength(Texts(data)) + if data == [] then 0 else |data| - 1
  {
    JoinLength(Texts(data), " ");
    Join(Texts(data), " ")
  }

  /**
   * Text `i` sits in the corpus at the sum of the earlier texts' lengths plus
   * one space for each of them, and is followed by a space unless it is last.
   */
  lemma CombinedTextLayout(data: seq<ScrapedRecord>)
    ensures forall i :: 0 <= i < |data| ==>
      var o, t := Offset(Texts(data), " ", i), data[i].text;
      && o + |t| <= |CombinedText(data)|
      && CombinedText(data)[o..o + |t|] == t
      && (i + 1 < |data| ==> o + |t| < |CombinedText(data)| && CombinedText(data)[o + |t|] == ' ')
  {
    var texts := Texts(data);
    forall i | 0 <= i < |data|
      ensures var o, t := Offset(texts, " ", i), data[i].text;
        && o + |t| <= |CombinedText(data)|
        && CombinedText(data)[o..o + |t|] == t
        && (i + 1 < |data| ==> o + |t| < |CombinedText(data)| && CombinedText(data)[o + |t|] == ' ')
    {
      JoinAt(texts, " ", i);
      var o, t := Offset(texts, " ", i), data[i].text;
      if i + 1 < |data| {
        assert Join(texts, " ")[o + |t|..o + |t| + 1][0] == Join(texts, " ")[o + |t|];
      }
    }
  }

  class ScraperAndAnalyzer {
    const topics: seq<string>
    const dbName: string
    const queryGenerator: QueryGenerator
    const webScraper: WebScraper
    const dataStorage: DataStorage

    constructor (topics: seq<string>, dbName: string)
      ensures this.topics == topics && this.dbName == dbName
      ensures queryGenerator.topics == topics
      ensures fresh(dataStorage) && dataStorage.Valid() && dataStorage.rows == [] && dataStorage.dbName == dbName
    {
      this.topics := topics;
      this.dbName := dbName;
      queryGenerator := new QueryGenerator(topics);
      webScraper := new WebScraper();
      dataStorage := new DataStorage(dbName);
    }

    /**
     * Runs the deterministic part of the pipeline and yields the combined
     * corpus. If some page cannot be read, nothing is stored and the error is
     * the outcome; otherwise one row is appended per scraped URL, and the
     * corpus joins the texts of every row in the table, old and new.
     */
    method ScrapeAndAnalyze(resultHrefs: string -> seq<string>, fetchPage: string -> Page)
      returns (corpus: Result<string, ScrapeError>)
      requires dataStorage.Valid()
      modifies dataStorage
      ensures dataStorage.Valid()
      ensures var urls := ScrapedUrls(SearchQueries(queryGenerator.topics), resultHrefs);
        match ScrapedContent(urls, fetchPage)
        case Failure(e) =>
          corpus == Failure(e) && dataStorage.rows == old(dataStorage.rows)
        case Success(records) =>
          && |records| == |urls|
          && dataStorage.rows == old(dataStorage.rows) + NewRows(old(|dataStorage.rows|) + 1, records)
          && corpus == Success(CombinedText(dataStorage.RetrieveData()))
    {
      var queries := queryGenerator.GenerateSearchQueries();
      var urls := webScraper.ScrapeUrls(queries, resultHrefs);
      assert urls == ScrapedUrls(SearchQueries(queryGenerator.topics), resultHrefs);
      var scraped := webScraper.ScrapeContent(urls, fetchPage);
      if scraped.Failure? {
        return Failure(scraped.error);
      }
      var records := scraped.value;
      assert |records| == |urls|;
      dataStorage.StoreData(records);
      var data := dataStorage.RetrieveData();
      corpus := Success(CombinedText(data));
    }
  }
}
