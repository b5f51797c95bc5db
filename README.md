# Maritime news curator — classification and list handling

This project models the logic of the Maritime News Curator (a Streamlit page,
`app.py`) that runs once the feeds have been fetched and parsed: it builds the
list of feed urls, tags each feed entry with the configured topics whose
keywords occur in its text, keeps the entries of the selected topic as article
records, picks an image for each, cuts the article list into pages of 20 shown
in rows of 3, and writes the "Top 10" markdown export.

Modules, one per component of `app.py`:

- `Wrappers` — `Option`, for dictionary keys that may be missing.
- `Text` — the Python string operations the page relies on: `str.lower`
  (`Lower`), the substring test `in` (`Contains`, specified by `IsSubstring`),
  `str.strip` (`Strip`), `s[:n]` (`Take`), `", ".join` and `str(i)`.
- `Entries` — a parsed feed entry, the calls into code outside the model
  (`Externals`: HTML text extraction, the first `<img>` lookup, SHA-1, the
  clock), `clean`, `article_id` and `extract_image`.
- `Topics` — keyword topic matching: `AnyKeyword`, `MatchedTopics` (the
  specification) and `MatchTopics` (the loop).
- `Fetch` — `fetch_articles_for_topic`: the url list (`FeedUrls`), the record
  of an entry (`RecordOf`), the specification of the result (`Fetched`, built
  on the generic filter `Kept`) and the nested loop (`FetchArticlesForTopic`,
  with its body `ClassifyEntry`).
- `Paging` — `ceil(n / 20)` pages, the page slice and the 3-column grid.
- `Export` — the markdown export of the first ten selected articles.

The feed parser is a parameter `parse: string -> seq<Entry>` (the entries it
returns for a url); the topic and feed configuration are parameters
(`seq<TopicRule>` in configuration order, `FeedConfig`).

Where the code and the design description of the project differ, the model
follows the code:

- there is no age cutoff, no date parsing and no `updated` fallback: the date
  is the entry's `published` text, else the current time;
- search queries are appended to `https://news.google.com/rss/search?q=`
  as they are, without url-encoding or locale parameters;
- the link is taken as it is, not trimmed;
- `clean` always runs the HTML parser; there is no `<`/`>` shortcut;
- entries matching no topic are dropped; there is no "uncategorized" tag;
- the id hashes `title + link` with no separator, so two different
  (title, link) pairs can share an id (`Entries.ArticleIdCollision`).

## Model

| member | source | states |
|---|---|---|
| `Text.Lower` | app.py:73 | `s.lower()` keeps the length, maps each character through the ASCII lower-case mapping and leaves no upper-case ASCII letter |
| `Text.LowerIdempotent` | app.py:73 | lower-casing an already lower-cased text changes nothing |
| `Text.Contains` | app.py:73 | `needle in hay` is true exactly when `needle` occurs in `hay` at some position |
| `Text.Strip` | app.py:22 | `strip()` returns the input without its leading and trailing whitespace: the result neither starts nor ends with whitespace, and everything cut off at either end is whitespace |
| `Text.StripIdempotent` | app.py:22 | stripping a stripped text changes nothing |
| `Text.Take` | app.py:146 | `s[:n]` has length `min(len(s), n)` and is a prefix of `s` |
| `Text.Join` | app.py:145 | `", ".join(topics)` is empty for no topics, is the topic itself for one, and is at least as long as the separators between them |
| `Text.JoinSnoc` | app.py:145 | joining one more topic appends the separator and that topic, so the topics appear in order with one separator between each two |
| `Text.NatToString` | app.py:142-143 | the number rendered by `str(i)` is a non-empty run of decimal digits without a leading zero |
| `Text.ParseNatToString` | app.py:142-143 | the decimal rendering of a number reads back as that number |
| `Entries.Clean` | app.py:21-22 | `clean` returns the extracted text of the fragment with whitespace removed at both ends only |
| `Entries.ArticleIdOfConcat` | app.py:24-25 | the id depends only on `title + link`: pairs with the same concatenation get the same id |
| `Entries.ArticleIdCollision` | app.py:24-25 | the pairs ("ab", "c") and ("a", "bc") differ but always get the same id |
| `Entries.ExtractImage` | app.py:28-53 | a truthy first `media_content` url is always the result; otherwise the result is empty or the url one of the four strategies looks at |
| `Entries.ExtractImageIsFirstAnswer` | app.py:28-53 | `extract_image` returns the answer of the first of its four strategies that applies, and `""` when none does |
| `Entries.MediaContentWins` | app.py:29-32 | with a truthy first `media_content` url, no summary or content image can change the result |
| `Entries.ThumbnailShadowsHtml` | app.py:34-36 | once `media_content` gives nothing, a non-empty `media_thumbnail` list decides the result (its first url, or `""`), whatever the summary and content hold |
| `Entries.SummaryBeforeContent` | app.py:38-53 | without media, the summary's image comes first, then the first content block's image, then `""` |
| `Topics.AnyKeyword` | app.py:73 | `any(word.lower() in text for word in words)` is true exactly when some keyword, lower-cased, is a substring of the text |
| `Topics.MatchedTopics` | app.py:71-74 | every listed name belongs to a configured topic that matches, every matching topic is listed, and there are no more names than topics |
| `Topics.MatchedTopicsIff` | app.py:71-74 | with distinct topic names, a topic is matched exactly when one of its keywords, lower-cased, occurs in the text |
| `Topics.NoKeywordsNeverMatch` | app.py:73 | a topic whose `include` list is missing or empty never matches |
| `Topics.EmptyKeywordMatchesAll` | app.py:73 | a topic with the empty keyword matches every text, because the test is a plain substring test |
| `Topics.MatchedTopicsAppend` | app.py:72-74 | matching a configuration split in two gives the matches of the first part followed by those of the second |
| `Topics.MatchedTopicsOrdered` | app.py:71-74 | the matched names keep the configuration order (a subsequence of the topic names) and list each topic at most once |
| `Topics.MatchTopics` | app.py:69-74 | the loop over the configured topics appends exactly the matching names, in order |
| `Fetch.FeedUrls` | app.py:58-62 | the url list is the direct feeds followed by one search url per query, in order; each search url is the fixed prefix followed by its query, and the length is `len(feeds) + len(queries)` |
| `Fetch.KeptAppend` | app.py:62-64 | keeping the matching entries of two lists one after the other gives the records of the first list followed by those of the second |
| `Fetch.KeptExactly` | app.py:76-86 | every kept record is built from a kept entry, every kept entry's record is present, and there are no more records than entries |
| `Fetch.FetchedExactly` | app.py:76-86 | every fetched record has the selected topic among its topics and is the record of a walked entry that matches it, and every entry that matches the selected topic has its record in the result |
| `Fetch.AllEntriesCons` | app.py:62-64 | the entries walked are those of the first url followed by those of the remaining urls |
| `Fetch.AllEntriesCount` | app.py:62-64 | the number of entries walked is the sum of the entries of every url |
| `Fetch.FetchedFeedOrder` | app.py:62-87 | the result lists the records feed after feed and, within a feed, entry after entry |
| `Fetch.ClassifyEntry` | app.py:65-86 | an entry yields a record exactly when the selected topic is among its matched topics, and the record is the entry's record (id, cleaned title and summary, link, date, topics, image) |
| `Fetch.FetchArticlesForTopic` | app.py:56-87 | the nested loop returns the specified records; each has the selected topic among its topics, and there are at most as many as the feeds have entries |
| `Paging.TotalPages` | app.py:122-123 | the page count is the ceiling of `n / 20`: the pages hold all `n` articles, one page fewer would not, and there is a page exactly when there is an article |
| `Paging.Slice` | app.py:127 | a Python slice with non-negative bounds clips them to the length and returns the elements from the start bound on |
| `Paging.PageOf` | app.py:125-127 | a page holds the articles from index `(page - 1) * 20` on: 20 of them, or the rest of the list when fewer remain, or none when the start is past the end |
| `Paging.PageInRange` | app.py:123-127 | every page from 1 to the page count is non-empty, and every page before the last holds exactly 20 articles |
| `Paging.PagesPrefix` | app.py:122-127 | the first `k` pages together are the first `20 k` articles |
| `Paging.PagesCoverAll` | app.py:122-127 | reading all pages in order gives back the article list exactly |
| `Paging.Grid` | app.py:129-134 | every article of the page is shown once, in order: article `k` at row `k / 3`, column `k % 3` |
| `Export.BlocksAppend` | app.py:142-147 | the blocks of two lists of articles are those of the first followed by those of the second, numbered on from where the first stopped |
| `Export.BlocksSplit` | app.py:142-147 | the numbered blocks split at any element into the blocks before it, its own block numbered by its position, and the blocks after it |
| `Export.ExportNumbering` | app.py:141-147 | for `k` below ten, the `k`-th selected article is written as the block numbered `k + 1`, after the title line and the blocks of the articles before it |
| `Export.ExportOnlyFirstTen` | app.py:142 | articles selected after the tenth do not change the export |
| `Export.ExportMarkdown` | app.py:141-147 | the loop writes the title line and then the five lines of each of the first ten selected articles, numbered from 1 |

## Left out

- The Streamlit page: page configuration, titles, buttons, columns, the page
  number input, checkboxes, `st.session_state`, widget keys, the download
  button, and the card display (`display_article_card`, including its own
  `summary[:300]` and `date[:10]` cuts); these are presentation.
- The `selected.append` done by a ticked checkbox: the export takes the
  selected articles as a parameter.
- Loading `topics.yaml` and `feeds.yaml`: the configurations are parameters.
- Topics.TopicRule: the model assumes a well-formed topic configuration. In
  app.py a topic whose value is null (`data.get` raises AttributeError), an
  `include` that is null (iterating None raises TypeError) or a keyword that
  is not a string (`word.lower()` raises AttributeError) makes
  `fetch_articles_for_topic` raise at app.py:73 and abort the whole fetch;
  the model cannot represent these configurations.
- Fetch.FeedConfig: the model assumes both the `feeds` and the
  `google_news_queries` keys are present and hold lists of strings. In
  app.py a missing key raises KeyError at app.py:58-59; a key left empty in
  the YAML file loads as null, and iterating it (app.py:60) or adding it to
  the search urls (app.py:62) raises TypeError; either aborts the fetch. A
  `google_news_queries` given as one string is iterated character by
  character, one search url per character. The model cannot represent any
  of these configurations.
- `feedparser.parse`: the entries per url are a parameter. Network failures
  are not modelled.
- BeautifulSoup text extraction and `<img>` lookup, SHA-1 and the clock: they
  are function values and a string supplied in `Externals`.
- Entries.Externals: the clock is one reading per fetch, while the source
  reads the clock for every entry (the default argument of `entry.get` is
  evaluated before the call) and uses the reading when `published` is
  missing.
- Export.ExportMarkdown: app.py:139 builds no export when nothing is
  selected; the model also defines that case, as the title line alone.
- Text.Lower: maps only the ASCII letters; Python's Unicode lower-casing of
  other letters is not modelled.
- Paging.TotalPages: is the exact integer ceiling; the floating-point
  division of `math.ceil(len / 20)` can only differ for lists far larger than
  any page holds.
- Entries.ExtractImage: `media_content` and `media_thumbnail` are always lists
  here, so the `isinstance(media, list)` test is not modelled; a key present
  with the value None is modelled as a missing key.
- The export title when no topic has been chosen (`None` in the text): the
  export takes the topic name as a string.
