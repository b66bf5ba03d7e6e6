/** The record the scraper produces for one fetched page. */
module Records {

  /** One scraped page: its URL, its visible text, its image sources and its link targets. */
  datatype ScrapedRecord = ScrapedRecord(url: string, text: string, images: seq<string>, links: seq<string>)
}
