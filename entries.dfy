/**
 * A parsed feed entry as the feed parser hands it over, the foreign helpers the
 * curator calls on it (HTML text extraction, the first `<img>` lookup, SHA-1,
 * the clock), and the per-entry utilities `clean`, `article_id` and
 * `extract_image`.
 */
module Entries {
  import opened Wrappers
  import opened Text

  /** One dict of an entry's `media_content` or `media_thumbnail` list; `url` is None when the dict has no "url" key. */
  datatype Media = Media(url: Option<string>)

  /** One dict of an entry's `content` list; `value` is None when it has no "value" key. */
  datatype ContentBlock = ContentBlock(value: Option<string>)

  /**
   * A feed entry. Optional string fields are None when the key is missing;
   * a missing list field is the empty list, which Python treats the same way.
   */
  datatype Entry = Entry(
    title: Option<string>,
    summary: Option<string>,
    link: Option<string>,
    published: Option<string>,
    mediaContent: seq<Media>,
    mediaThumbnail: seq<Media>,
    content: seq<ContentBlock>)

  /**
   * The calls into code outside the model, as values the caller supplies:
   * - getText: the text of an HTML fragment (`BeautifulSoup(html).get_text()`);
   * - imgSrc: the `src` attribute of the first `<img>` tag of an HTML fragment,
   *   None when there is no such tag or the tag has no `src`;
   * - sha1Hex: the SHA-1 hex digest of the UTF-8 encoding of a string;
   * - now: the ISO text of the current UTC time.
   */
  datatype Externals = Externals(
    getText: string -> string,
    imgSrc: string -> Option<string>,
    sha1Hex: string -> string,
    now: string)

  /** Python truthiness of an optional string: present and non-empty. */
  predicate Truthy(s: Option<string>) {
    s.Some? && s.value != ""
  }

  /** `clean(text)`: the stripped plain text of an HTML fragment. */
  function Clean(getText: string -> string, text: string): (r: string)
    ensures r == [] || (!IsSpace(r[0]) && !IsSpace(r[|r| - 1]))
    ensures exists lo: nat :: StrippedAt(getText(text), r, lo)
  {
    Strip(getText(text))
  }

  /** `article_id(title, link)`: the hash of the two strings written one after the other. */
  function ArticleId(sha1Hex: string -> string, title: string, link: string): string {
    sha1Hex(title + link)
  }

  /** The id depends on the concatenation only: pairs that concatenate alike share an id. */
  lemma ArticleIdOfConcat(sha1Hex: string -> string, t1: string, l1: string, t2: string, l2: string)
    requires t1 + l1 == t2 + l2
    ensures ArticleId(sha1Hex, t1, l1) == ArticleId(sha1Hex, t2, l2)
  {
  }

  /** Two different (title, link) pairs that get the same id whatever the hash. */
  lemma ArticleIdCollision(sha1Hex: string -> string)
    ensures ("ab", "c") != ("a", "bc")
    ensures ArticleId(sha1Hex, "ab", "c") == ArticleId(sha1Hex, "a", "bc")
  {
    assert "ab" + "c" == "a" + "bc";
  }

  /** Strategy 1 applies: the first media_content dict has a truthy url. */
  predicate HasMediaContentUrl(e: Entry) {
    |e.mediaContent| > 0 && Truthy(e.mediaContent[0].url)
  }

  /** The html of the first content block, `""` when its "value" key is missing. */
  function FirstContentHtml(e: Entry): string
    requires |e.content| > 0
  {
    e.content[0].value.GetOr("")
  }

  /** Strategy 3 applies: the entry has a summary whose first `<img>` has a truthy src. */
  predicate HasSummaryImage(imgSrc: string -> Option<string>, e: Entry) {
    e.summary.Some? && Truthy(imgSrc(e.summary.value))
  }

  /** Strategy 4 applies: the first content block's first `<img>` has a truthy src. */
  predicate HasContentImage(imgSrc: string -> Option<string>, e: Entry) {
    |e.content| > 0 && Truthy(imgSrc(FirstContentHtml(e)))
  }

  /**
   * `extract_image(entry)`: media_content url, else the media_thumbnail url
   * (possibly empty, and returned as soon as a thumbnail list is present),
   * else the summary's image, else the first content block's image, else "".
   */
  function ExtractImage(imgSrc: string -> Option<string>, e: Entry): (r: string)
    ensures HasMediaContentUrl(e) ==> r == e.mediaContent[0].url.value
    ensures r == "" || r == ImageCandidate(imgSrc, e, 1) || r == ImageCandidate(imgSrc, e, 2) ||
            r == ImageCandidate(imgSrc, e, 3) || r == ImageCandidate(imgSrc, e, 4)
  {
    if HasMediaContentUrl(e) then e.mediaContent[0].url.value
    else if |e.mediaThumbnail| > 0 then e.mediaThumbnail[0].url.GetOr("")
    else if HasSummaryImage(imgSrc, e) then imgSrc(e.summary.value).value
    else if HasContentImage(imgSrc, e) then imgSrc(FirstContentHtml(e)).value
    else ""
  }

  /** The url that strategy `k` (1 to 4) would look at, "" when that field is absent. */
  function ImageCandidate(imgSrc: string -> Option<string>, e: Entry, k: nat): string {
    if k == 1 then (if |e.mediaContent| > 0 then e.mediaContent[0].url.GetOr("") else "")
    else if k == 2 then (if |e.mediaThumbnail| > 0 then e.mediaThumbnail[0].url.GetOr("") else "")
    else if k == 3 then (if e.summary.Some? then imgSrc(e.summary.value).GetOr("") else "")
    else if k == 4 then (if |e.content| > 0 then imgSrc(FirstContentHtml(e)).GetOr("") else "")
    else ""
  }

  /**
   * The image as the first strategy that answers, written as a search over the
   * list of strategies: each one either declines (None) or answers (Some).
   */
  function Strategies(imgSrc: string -> Option<string>, e: Entry): seq<Option<string>> {
    [ if HasMediaContentUrl(e) then Some(e.mediaContent[0].url.value) else None,
      if |e.mediaThumbnail| > 0 then Some(e.mediaThumbnail[0].url.GetOr("")) else None,
      if HasSummaryImage(imgSrc, e) then Some(imgSrc(e.summary.value).value) else None,
      if HasContentImage(imgSrc, e) then Some(imgSrc(FirstContentHtml(e)).value) else None ]
  }

  /** The answer of the first strategy in `ss` that answers, "" when none does. */
  function FirstAnswer(ss: seq<Option<string>>): string {
    if ss == [] then "" else if ss[0].Some? then ss[0].value else FirstAnswer(ss[1..])
  }

  /** extract_image is the first-answer search over its four strategies. */
  lemma ExtractImageIsFirstAnswer(imgSrc: string -> Option<string>, e: Entry)
    ensures ExtractImage(imgSrc, e) == FirstAnswer(Strategies(imgSrc, e))
  {
    var ss := Strategies(imgSrc, e);
    assert FirstAnswer(ss[3..]) == (if ss[3].Some? then ss[3].value else FirstAnswer([])) by {
      assert ss[3..][1..] == [];
    }
    assert FirstAnswer(ss[2..]) == (if ss[2].Some? then ss[2].value else FirstAnswer(ss[3..])) by {
      assert ss[2..][1..] == ss[3..];
    }
    assert FirstAnswer(ss[1..]) == (if ss[1].Some? then ss[1].value else FirstAnswer(ss[2..])) by {
      assert ss[1..][1..] == ss[2..];
    }
  }

  /** A media_content url wins over every image found in the summary or the content. */
  lemma MediaContentWins(imgSrc: string -> Option<string>, e: Entry, summary: Option<string>, content: seq<ContentBlock>)
    requires HasMediaContentUrl(e)
    ensures ExtractImage(imgSrc, e.(summary := summary, content := content)) == e.mediaContent[0].url.value
  {
  }

  /**
   * Once media_content has no usable url, a present media_thumbnail list decides
   * the result, even when its url is missing or empty: summary and content are
   * never looked at.
   */
  lemma ThumbnailShadowsHtml(imgSrc: string -> Option<string>, e: Entry, summary: Option<string>, content: seq<ContentBlock>)
    requires !HasMediaContentUrl(e) && |e.mediaThumbnail| > 0
    ensures ExtractImage(imgSrc, e) == e.mediaThumbnail[0].url.GetOr("")
    ensures ExtractImage(imgSrc, e) == ExtractImage(imgSrc, e.(summary := summary, content := content))
  {
  }

  /** Without media, the summary's image comes before the content's image. */
  lemma SummaryBeforeContent(imgSrc: string -> Option<string>, e: Entry)
    requires !HasMediaContentUrl(e) && e.mediaThumbnail == []
    ensures HasSummaryImage(imgSrc, e) ==> ExtractImage(imgSrc, e) == imgSrc(e.summary.value).value
    ensures !HasSummaryImage(imgSrc, e) && HasContentImage(imgSrc, e) ==>
              ExtractImage(imgSrc, e) == imgSrc(FirstContentHtml(e)).value
    ensures !HasSummaryImage(imgSrc, e) && !HasContentImage(imgSrc, e) ==> ExtractImage(imgSrc, e) == ""
  {
  }
}
