/**
 * `fetch_articles_for_topic`: build the list of feed urls, walk every entry of
 * every feed, classify it against the topic configuration and keep a record of
 * each entry that matches the selected topic.
 */
module Fetch {
  import opened Wrappers
  import opened Text
  import opened Entries
  import opened Topics

  /** The Google News search endpoint a query is appended to (the query is not url-encoded). */
  const SearchPrefix: string := "https://news.google.com/rss/search?q="

  /** The feed configuration: direct feed urls and Google News queries. */
  datatype FeedConfig = FeedConfig(feeds: seq<string>, queries: seq<string>)

  /** An article record as the curator stores it. */
  datatype Article = Article(
    id: string,
    title: string,
    summary: string,
    link: string,
    date: string,
    topics: seq<string>,
    image: string)

  /** The direct feed urls followed by one search url per query, in query order. */
  function FeedUrls(config: FeedConfig): (urls: seq<string>)
    ensures |urls| == |config.feeds| + |config.queries|
    ensures urls[..|config.feeds|] == config.feeds
    ensures forall i :: 0 <= i < |config.queries| ==>
              |SearchPrefix| <= |urls[|config.feeds| + i]| && urls[|config.feeds| + i][..|SearchPrefix|] == SearchPrefix &&
              urls[|config.feeds| + i][|SearchPrefix|..] == config.queries[i]
  {
    config.feeds + seq(|config.queries|, i requires 0 <= i < |config.queries| => SearchPrefix + config.queries[i])
  }

  /** The cleaned title of an entry. */
  function EntryTitle(ext: Externals, e: Entry): string {
    Clean(ext.getText, e.title.GetOr(""))
  }

  /** The cleaned summary of an entry. */
  function EntrySummary(ext: Externals, e: Entry): string {
    Clean(ext.getText, e.summary.GetOr(""))
  }

  /** The cleaned title and summary joined by one space. */
  function FullText(ext: Externals, e: Entry): string {
    EntryTitle(ext, e) + " " + EntrySummary(ext, e)
  }

  /** The topics an entry matches, in configuration order. */
  function EntryTopics(topics: seq<TopicRule>, ext: Externals, e: Entry): seq<string> {
    MatchedTopics(topics, Lower(FullText(ext, e)))
  }

  /** The record built for an entry. */
  function RecordOf(topics: seq<TopicRule>, ext: Externals, e: Entry): Article {
    var title := EntryTitle(ext, e);
    var link := e.link.GetOr("");
    Article(
      id := ArticleId(ext.sha1Hex, title, link),
      title := title,
      summary := EntrySummary(ext, e),
      link := link,
      date := e.published.GetOr(ext.now),
      topics := EntryTopics(topics, ext, e),
      image := ExtractImage(ext.imgSrc, e))
  }

  /** An entry is kept when the selected topic is among its matches. */
  predicate Keep(selected: string, topics: seq<TopicRule>, ext: Externals, e: Entry) {
    selected in EntryTopics(topics, ext, e)
  }

  /** The keep test for one selected topic, as a value. */
  function KeepFn(selected: string, topics: seq<TopicRule>, ext: Externals): Entry -> bool {
    e => Keep(selected, topics, ext, e)
  }

  /** The record builder for one configuration, as a value. */
  function BuildFn(topics: seq<TopicRule>, ext: Externals): Entry -> Article {
    e => RecordOf(topics, ext, e)
  }

  /** `[build(x) for x in xs if keep(x)]` */
  function Kept<A, B>(keep: A -> bool, build: A -> B, xs: seq<A>): seq<B> {
    if xs == [] then []
    else (if keep(xs[0]) then [build(xs[0])] else []) + Kept(keep, build, xs[1..])
  }

  /** Keeping distributes over concatenation: results follow input order. */
  lemma {:induction false} KeptAppend<A, B>(keep: A -> bool, build: A -> B, xs: seq<A>, ys: seq<A>)
    ensures Kept(keep, build, xs + ys) == Kept(keep, build, xs) + Kept(keep, build, ys)
  {
    if xs == [] {
      assert xs + ys == ys;
    } else {
      var zs := xs + ys;
      var head := if keep(xs[0]) then [build(xs[0])] else [];
      assert zs[0] == xs[0] && zs[1..] == xs[1..] + ys;
      KeptAppend(keep, build, xs[1..], ys);
      calc {
        Kept(keep, build, zs);
        head + Kept(keep, build, xs[1..] + ys);
        head + (Kept(keep, build, xs[1..]) + Kept(keep, build, ys));
        (head + Kept(keep, build, xs[1..])) + Kept(keep, build, ys);
        Kept(keep, build, xs) + Kept(keep, build, ys);
      }
    }
  }

  /** Extending a prefix of the input by one element extends the result by that element's result. */
  lemma KeptPrefixStep<A, B>(keep: A -> bool, build: A -> B, xs: seq<A>, k: nat)
    requires k < |xs|
    ensures Kept(keep, build, xs[..k + 1]) == Kept(keep, build, xs[..k]) + Kept(keep, build, [xs[k]])
  {
    assert xs[..k + 1] == xs[..k] + [xs[k]];
    KeptAppend(keep, build, xs[..k], [xs[k]]);
  }

  /** The same step after a fixed front part. */
  lemma KeptExtendStep<A, B>(keep: A -> bool, build: A -> B, front: seq<A>, xs: seq<A>, k: nat)
    requires k < |xs|
    ensures Kept(keep, build, front + xs[..k + 1]) == Kept(keep, build, front + xs[..k]) + Kept(keep, build, [xs[k]])
  {
    assert front + xs[..k + 1] == (front + xs[..k]) + [xs[k]];
    KeptAppend(keep, build, front + xs[..k], [xs[k]]);
  }

  /**
   * Exactly the kept inputs give results: each result is built from a kept
   * input, each kept input's result is present, and there are no more results
   * than inputs.
   */
  lemma {:induction false} KeptExactly<A, B>(keep: A -> bool, build: A -> B, xs: seq<A>)
    ensures |Kept(keep, build, xs)| <= |xs|
    ensures forall b :: b in Kept(keep, build, xs) ==> exists k :: 0 <= k < |xs| && keep(xs[k]) && b == build(xs[k])
    ensures forall k :: 0 <= k < |xs| && keep(xs[k]) ==> build(xs[k]) in Kept(keep, build, xs)
  {
    if xs != [] {
      KeptExactly(keep, build, xs[1..]);
      var r := Kept(keep, build, xs[1..]);
      forall b | b in Kept(keep, build, xs)
        ensures exists k :: 0 <= k < |xs| && keep(xs[k]) && b == build(xs[k])
      {
        if b !in r {
          assert keep(xs[0]) && b == build(xs[0]);
        } else {
          var k :| 0 <= k < |xs[1..]| && keep(xs[1..][k]) && b == build(xs[1..][k]);
          assert xs[k + 1] == xs[1..][k];
        }
      }
      forall k | 0 <= k < |xs| && keep(xs[k])
        ensures build(xs[k]) in Kept(keep, build, xs)
      {
        if k > 0 {
          assert xs[k] == xs[1..][k - 1];
        }
      }
    }
  }

  /** The entries of every url, feed after feed. */
  function AllEntries(parse: string -> seq<Entry>, urls: seq<string>): seq<Entry> {
    if urls == [] then [] else AllEntries(parse, urls[..|urls| - 1]) + parse(urls[|urls| - 1])
  }

  /** Taking one more url appends that url's entries. */
  lemma AllEntriesPrefixStep(parse: string -> seq<Entry>, urls: seq<string>, u: nat)
    requires u < |urls|
    ensures AllEntries(parse, urls[..u + 1]) == AllEntries(parse, urls[..u]) + parse(urls[u])
  {
    assert urls[..u + 1][..u] == urls[..u];
  }

  /** The number of entries over all urls. */
  function EntryCount(parse: string -> seq<Entry>, urls: seq<string>): nat {
    if urls == [] then 0 else |parse(urls[0])| + EntryCount(parse, urls[1..])
  }

  /** What `fetch_articles_for_topic(selected)` returns. */
  function Fetched(selected: string, topics: seq<TopicRule>, config: FeedConfig,
                   parse: string -> seq<Entry>, ext: Externals): seq<Article> {
    Kept(KeepFn(selected, topics, ext), BuildFn(topics, ext), AllEntries(parse, FeedUrls(config)))
  }

  /**
   * Every fetched record carries the selected topic and is the record of an
   * entry that matches it; every matching entry's record is fetched.
   */
  lemma FetchedExactly(selected: string, topics: seq<TopicRule>, config: FeedConfig,
                       parse: string -> seq<Entry>, ext: Externals)
    ensures forall a :: a in Fetched(selected, topics, config, parse, ext) ==>
              selected in a.topics &&
              exists e :: e in AllEntries(parse, FeedUrls(config)) && Keep(selected, topics, ext, e) && a == RecordOf(topics, ext, e)
    ensures forall e :: e in AllEntries(parse, FeedUrls(config)) && Keep(selected, topics, ext, e) ==>
              RecordOf(topics, ext, e) in Fetched(selected, topics, config, parse, ext)
  {
    var es := AllEntries(parse, FeedUrls(config));
    var keep, build := KeepFn(selected, topics, ext), BuildFn(topics, ext);
    KeptExactly(keep, build, es);
    forall a | a in Fetched(selected, topics, config, parse, ext)
      ensures selected in a.topics
      ensures exists e :: e in es && Keep(selected, topics, ext, e) && a == RecordOf(topics, ext, e)
    {
      var k :| 0 <= k < |es| && keep(es[k]) && a == build(es[k]);
      assert es[k] in es && Keep(selected, topics, ext, es[k]) && a == RecordOf(topics, ext, es[k]);
    }
    forall e | e in es && Keep(selected, topics, ext, e)
      ensures RecordOf(topics, ext, e) in Fetched(selected, topics, config, parse, ext)
    {
      var k :| 0 <= k < |es| && es[k] == e;
      assert keep(es[k]) && build(es[k]) == RecordOf(topics, ext, e);
    }
  }

  /** The entry list grows feed by feed, front first. */
  lemma {:induction false} AllEntriesCons(parse: string -> seq<Entry>, urls: seq<string>)
    requires urls != []
    ensures AllEntries(parse, urls) == parse(urls[0]) + AllEntries(parse, urls[1..])
    decreases |urls|
  {
    if |urls| == 1 {
      assert urls[1..] == [] && urls[..0] == [];
    } else {
      var init := urls[..|urls| - 1];
      AllEntriesCons(parse, init);
      assert init[1..] == urls[1..][..|urls[1..]| - 1];
      assert init[0] == urls[0] && urls[1..][|urls[1..]| - 1] == urls[|urls| - 1];
    }
  }

  /** The entries of all urls are as many as the feeds hold together. */
  lemma {:induction false} AllEntriesCount(parse: string -> seq<Entry>, urls: seq<string>)
    ensures |AllEntries(parse, urls)| == EntryCount(parse, urls)
  {
    if urls != [] {
      AllEntriesCons(parse, urls);
      AllEntriesCount(parse, urls[1..]);
    }
  }

  /** The records of each feed, in feed order. */
  function PerFeed(selected: string, topics: seq<TopicRule>, ext: Externals,
                   parse: string -> seq<Entry>, urls: seq<string>): seq<Article> {
    if urls == [] then []
    else Kept(KeepFn(selected, topics, ext), BuildFn(topics, ext), parse(urls[0]))
         + PerFeed(selected, topics, ext, parse, urls[1..])
  }

  /** The result lists feed after feed, and within a feed entry after entry. */
  lemma {:induction false} FetchedFeedOrder(selected: string, topics: seq<TopicRule>, ext: Externals,
                                            parse: string -> seq<Entry>, urls: seq<string>)
    ensures Kept(KeepFn(selected, topics, ext), BuildFn(topics, ext), AllEntries(parse, urls))
            == PerFeed(selected, topics, ext, parse, urls)
  {
    if urls != [] {
      AllEntriesCons(parse, urls);
      KeptAppend(KeepFn(selected, topics, ext), BuildFn(topics, ext), parse(urls[0]), AllEntries(parse, urls[1..]));
      FetchedFeedOrder(selected, topics, ext, parse, urls[1..]);
    }
  }

  /**
   * The body of the entry loop of `fetch_articles_for_topic`: clean the title
   * and summary, match the topics against their text and, when the selected
   * topic is among them, build the record.
   */
  method ClassifyEntry(selected: string, topics: seq<TopicRule>, ext: Externals, entry: Entry)
    returns (record: Option<Article>)
    ensures record.Some? <==> Keep(selected, topics, ext, entry)
    ensures record.Some? ==> record.value == RecordOf(topics, ext, entry) && selected in record.value.topics
    ensures Kept(KeepFn(selected, topics, ext), BuildFn(topics, ext), [entry]) == if record.Some? then [record.value] else []
  {
    var title := Clean(ext.getText, entry.title.GetOr(""));
    var summary := Clean(ext.getText, entry.summary.GetOr(""));
    var link := entry.link.GetOr("");
    var pubDate := entry.published.GetOr(ext.now);
    var fullText := title + " " + summary;
    var matched := MatchTopics(topics, fullText);
    if selected in matched {
      var image := ExtractImage(ext.imgSrc, entry);
      record := Some(Article(ArticleId(ext.sha1Hex, title, link), title, summary, link, pubDate, matched, image));
    } else {
      record := None;
    }
    assert [entry][1..] == [];
  }

  /**
   * `fetch_articles_for_topic(selected)`: every entry of every feed, in order,
   * is classified and the records of the matching ones are appended. Every
   * record has the selected topic among its topics, and there is at most one
   * record per entry.
   */
  method FetchArticlesForTopic(selected: string, topics: seq<TopicRule>, config: FeedConfig,
                               parse: string -> seq<Entry>, ext: Externals)
    returns (articles: seq<Article>)
    ensures articles == Fetched(selected, topics, config, parse, ext)
    ensures forall a :: a in articles ==> selected in a.topics
    ensures |articles| <= EntryCount(parse, FeedUrls(config))
  {
    var urls := FeedUrls(config);
    ghost var keep, build := KeepFn(selected, topics, ext), BuildFn(topics, ext);
    articles := [];
    for u := 0 to |urls|
      invariant articles == Kept(keep, build, AllEntries(parse, urls[..u]))
    {
      var entries := parse(urls[u]);
      ghost var before := AllEntries(parse, urls[..u]);
      assert before + entries[..0] == before;
      for k := 0 to |entries|
        invariant articles == Kept(keep, build, before + entries[..k])
      {
        var record := ClassifyEntry(selected, topics, ext, entries[k]);
        if record.Some? {
          articles := articles + [record.value];
        }
        KeptExtendStep(keep, build, before, entries, k);
      }
      AllEntriesPrefixStep(parse, urls, u);
      assert before + entries[..|entries|] == AllEntries(parse, urls[..u + 1]);
    }
    assert urls[..|urls|] == urls;
    KeptExactly(keep, build, AllEntries(parse, urls));
    FetchedExactly(selected, topics, config, parse, ext);
    AllEntriesCount(parse, urls);
  }
}
