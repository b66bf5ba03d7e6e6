/** `QueryGenerator`: one domain-restricted search query per topic. */
module QueryGeneration {
  import opened Strings

  /** The fixed template a topic is embedded in. */
  const SitePrefix := "site:example.com "

  /** The query built for one topic. */
  function SearchQuery(topic: string): string {
    SitePrefix + topic
  }

  /** The queries for a list of topics, one per topic, in order. */
  function SearchQueries(topics: seq<string>): seq<string> {
    seq(|topics|, i requires 0 <= i < |topics| => SearchQuery(topics[i]))
  }

  /** Stripping the template from a query gives back its topic. */
  function TopicOf(query: string): (topic: string)
    requires StartsWith(query, SitePrefix)
  {
    query[|SitePrefix|..]
  }

  /** Query building is undone by `TopicOf`, so distinct topics give distinct queries. */
  lemma QueryRoundTrip(topic: string, other: string)
    ensures StartsWith(SearchQuery(topic), SitePrefix) && TopicOf(SearchQuery(topic)) == topic
    ensures SearchQuery(topic) == SearchQuery(other) <==> topic == other
  {
    assert SearchQuery(topic)[|SitePrefix|..] == topic;
    assert SearchQuery(other)[|SitePrefix|..] == other;
  }

  class QueryGenerator {
    const topics: seq<string>

    constructor (topics: seq<string>)
      ensures this.topics == topics
    {
      this.topics := topics;
    }

    /**
     * One query per topic, in topic order: query `i` is the site template
     * followed by topic `i`. No topics, no queries.
     */
    method GenerateSearchQueries() returns (queries: seq<string>)
      ensures |queries| == |topics|
      ensures forall i :: 0 <= i < |topics| ==>
        StartsWith(queries[i], SitePrefix) && queries[i][|SitePrefix|..] == topics[i]
      ensures queries == SearchQueries(topics)
    {
      queries := [];
      for i := 0 to |topics|
        invariant |queries| == i
        invariant forall k :: 0 <= k < i ==> queries[k] == SearchQuery(topics[k])
      {
        queries := queries + [SearchQuery(topics[i])];
      }
      forall i | 0 <= i < |topics|
        ensures StartsWith(queries[i], SitePrefix) && queries[i][|SitePrefix|..] == topics[i]
      {
        QueryRoundTrip(topics[i], topics[i]);
      }
    }
  }
}
