# Autonomous web content scraper and analyser — a verified model of its core

`main.py` runs a single pipeline:

1. it turns a list of topics into site-restricted search queries;
2. it fetches the search result pages and decodes the destination URLs of the result anchors;
3. it fetches each destination and records its text, image sources and link targets;
4. it appends those records to a SQLite table, flattening each list with `", ".join`;
5. it reads the whole table back, splitting each list with `.split(", ")`;
6. it joins every stored text with single spaces into one corpus for the word cloud and the language models.

This project models the deterministic core of that pipeline in Dafny:

- `QueryGeneration` holds the query template and the `QueryGenerator` class.
- `Scraping` holds the `WebScraper` class, with href filtering and decoding and the per-page record.
- `Storage` holds the `DataStorage` class: the table is an append-only sequence of rows, and the module carries the join/split serialisation of lists.
- `Pipeline` holds the combined-text join and the `ScraperAndAnalyzer` orchestrator.
- `Strings` holds the parts of Python's `str` those steps rely on: `startswith`, `split` with a non-empty separator, and `join`. `split` is defined through a leftmost search for the separator (`Find`), with `Contains` for the absence of the separator in a piece.
- `Records` and `Wrappers` hold the shared datatypes.

The network and the HTML parser become function parameters of the methods that use them:

- `resultHrefs(searchUrl)` stands for the `href` values, in document order, of the anchors on the result page that carry one.
- `fetchPage(url)` stands for the parsed destination page. A `Page` holds its text, plus the `src` of each `img` and the `href` of each `a`. Each attribute is `None` when the tag does not have it.

Two behaviours of the code are easy to miss; the model follows the code in both:

- **Missing attributes are not tolerated.** `img['src']` and `a['href']` are read by indexing (main.py:48-49), so one tag without the attribute ends the whole scrape with an error. `RecordOf` and `ScrapedContent` return `Failure(MissingAttribute(url, attribute))` in that case. Image sources are read first, so an image error wins over a link error on the same page.
- **A decoded URL can be empty.** Nothing checks the decoded URL before it is appended. `EmptyTarget` proves that a redirect such as `/url?q=&sa=U` decodes to `""` and that this empty URL is kept.

## Model

| member | source | states |
|---|---|---|
| QueryGeneration.QueryGenerator.GenerateSearchQueries | main.py:16-20 | one query per topic, in topic order: query `i` starts with `"site:example.com "` and the rest of it is exactly topic `i` (so no topics give no queries) |
| QueryGeneration.QueryGenerator.constructor | main.py:13-14 | the generator keeps exactly the topics it is given |
| QueryGeneration.QueryRoundTrip | main.py:19 | stripping the template from a query gives its topic back, and two topics give the same query exactly when they are equal |
| Scraping.WebScraper.constructor | main.py:24-27 | the request headers are exactly one `User-Agent` entry with the fixed browser string |
| Scraping.DecodeTarget | main.py:37-38 | the decoded URL contains no `&`, is a prefix of the href after its first 7 characters, and is followed there by `&` whenever it stops short of the end |
| Scraping.EmptyTarget | main.py:37-39 | every redirect with `&` right after the prefix decodes to the empty URL, and a page holding only that anchor yields exactly that empty URL |
| Scraping.ResultUrls | main.py:35-39 | a result page never yields more URLs than it has anchors |
| Scraping.ResultPositions | main.py:35-37 | the kept anchors are exactly those whose href starts with `/url?q=`, listed in increasing document position |
| Scraping.ResultUrlsInDocumentOrder | main.py:35-39 | URL `k` of a page is the decoding of the `k`-th anchor that starts with `/url?q=`: one URL per such anchor, none for the others, and document order kept |
| Scraping.ScrapedUrlsConcat | main.py:30-40 | the URLs for two batches of queries are those of the first batch followed by those of the second, duplicates included |
| Scraping.WebScraper.ScrapeUrls | main.py:29-40 | the nested loops produce each query's decoded result URLs, queries in order and anchors in document order within a query |
| Scraping.RecordOf | main.py:46-55 | a page gives a record exactly when every `img` has a `src` and every `a` has an `href`; the record keeps the URL and text and lists every `src` and `href` in order; otherwise the error names the URL and the first missing attribute read (`src` before `href`) |
| Scraping.ScrapedContent | main.py:42-56 | the scrape succeeds exactly when every page gives a record, and then yields one record per URL in URL order; on failure the error is that of the first URL whose page fails |
| Scraping.WebScraper.ScrapeContent | main.py:42-56 | the loop over URLs, which stops at the first failing page, returns the same result as `ScrapedContent` |
| Strings.FindSpec | main.py:38 | the search that `split` performs for its next cut returns an occurrence of the separator at or after the start, with no occurrence before it, or -1 when there is none |
| Strings.SplitFirst | main.py:38 | the first piece of a split is a prefix of the string, holds no separator, and is followed by the separator whenever it is shorter than the string |
| Strings.JoinLength | main.py:146 | the length of a join is the parts' total length plus one separator between each two neighbours |
| Strings.JoinAt | main.py:146 | in a join, part `i` stands at `Offset(i)` (the earlier parts' lengths plus one separator each) and is followed by the separator unless it is the last part |
| Strings.SplitJoin | main.py:106-119 | splitting a join at the same separator gives back a non-empty list of parts when no part can be confused with the separator |
| Strings.JoinSplit | main.py:106-119 | joining the pieces of a split at the same separator gives back the string |
| Storage.NewRows | main.py:102-109 | storing a batch builds exactly one row per record, each by `ToRow` (the serialiser): row `j` has id `firstId + j`, keeps record `j`'s URL and text, and holds its image and link lists joined with `", "` |
| Storage.ListRoundTrip | main.py:106-119 | a list flattened with `", ".join` and rebuilt with `.split(", ")` comes back unchanged exactly when it is non-empty and no element contains `", "` |
| Storage.EmptyListComesBackAsEmptyString | main.py:106-118 | the empty list is stored as `""` and rebuilt as `[""]`, not as the empty list |
| Storage.DelimiterInElementSplits | main.py:106-118 | the single element `"a, b"` is rebuilt as the two elements `"a"` and `"b"` |
| Storage.RowRoundTrip | main.py:103-119 | `FromRow` (the deserialiser) undoes `ToRow` (the serialiser): a record read back from its own row equals the record exactly when both its image list and its link list round-trip |
| Storage.NewRowsComeBack | main.py:102-119 | each record of a stored batch reads back unchanged from its row exactly when both its lists round-trip |
| Storage.RebuiltListsNonEmpty | main.py:118-119 | every record read from the table has at least one image and one link entry, whatever was stored |
| Storage.RowRestored | main.py:103-119 | `ToRow` undoes `FromRow`: storing a record read from a row again, under the row's id, produces that same row |
| Storage.DataStorage.constructor | main.py:94-98 | a new store has the given database name and an empty table with consistent ids |
| Storage.DataStorage.StoreData | main.py:100-110 | the rows already in the table are untouched; one row per record is appended in one commit, ids continue from the last one, and URL and text are kept; each new record reads back unchanged exactly when both its lists round-trip; storing no records adds nothing |
| Storage.DataStorage.RetrieveData | main.py:112-120 | one record per row in table order, namely `FromRow` of that row, with URL and text as stored and each list split at `", "` |
| Pipeline.CombinedText | main.py:145-146 | the corpus is as long as all texts together plus one space between each two |
| Pipeline.CombinedTextLayout | main.py:145-146 | each stored text appears in the corpus at the position given by the earlier texts and spaces, followed by a single space unless it is the last |
| Pipeline.ScraperAndAnalyzer.constructor | main.py:130-136 | the orchestrator keeps the topics and database name, hands the topics to its query generator, and opens an empty store |
| Pipeline.ScraperAndAnalyzer.ScrapeAndAnalyze | main.py:138-147 | when a page cannot be read, the table is unchanged and that error is the outcome; otherwise one row per scraped URL is appended after the existing ones, and the corpus is the space-join of the texts of every row in the table |

## Left out

- HTTP requests (main.py:33, 45) are not modelled: their outcome is the `resultHrefs` and `fetchPage` parameters. Network errors, timeouts and non-HTML responses are not represented. Because these parameters are functions, a URL fetched twice (duplicate URLs are kept) is assumed to give the same page both times.
- HTML parsing (main.py:34, 46-49) is not modelled beyond its output: the page text, the list of anchor hrefs and the optional `src`/`href` of each tag. What `get_text` returns is taken as given.
- The search query is appended to the search URL without URL-encoding, as in the code. The model does not say what the server makes of spaces in it.
- `ContentAnalyzer` (main.py:59-78) and the sentiment, summary, keyword and entity calls in `scrape_and_analyze` (main.py:135, 149-158) are left out: they call a machine-learning model with nondeterministic, floating-point output. Building that model fails on every run: main.py:135 passes the model id `'bert-base-uncased'` to `pipeline` at main.py:62, which reads its first argument as a task name and rejects it, so the constructor raises before the store is opened at main.py:136 and `scrape_and_analyze` is never reached. The model describes the pipeline as if the analyser could be built: its `ScraperAndAnalyzer` constructor cannot fail. `ScrapeAndAnalyze` ends once the corpus is built.
- The word cloud (main.py:122-126, 147) and the pandas table and printing (main.py:160-164) are output, and are left out. `WordCloud().generate` raises on a corpus with no words (for instance an empty table), and that failure after the rows are committed is not modelled.
- The SQLAlchemy engine, session and schema (main.py:81-98) are left out. The table is an in-memory sequence of rows, and the `String(200)`/`String(500)` column widths are not enforced, as SQLite does not enforce them either.
- Storage.DataStorage.RetrieveData: returns rows in insertion order. The query at main.py:114 has no `ORDER BY`, and the model assumes SQLite's usual rowid order.
- Storage.DataStorage.constructor: starts from an empty table. The real database file persists between runs. `StoreData` and `ScrapeAndAnalyze` hold for any table whose ids are 1 to n, so rows from earlier runs are covered as long as none was deleted.
- Any exception other than a missing `src` or `href` attribute (database errors, for example) is not modelled.
- The `__main__` block (main.py:167 onwards) only wires fixed topics into the orchestrator, and is not modelled.
