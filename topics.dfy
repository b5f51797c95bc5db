/**
 * Keyword topic matching: a topic matches an entry when one of its `include`
 * keywords, lower-cased, is a substring of the entry's lower-cased text.
 */
module Topics {
  import opened Wrappers
  import opened Text

  /** One entry of the topic configuration; `include` (here `includes`) is None when the key is missing. */
  datatype TopicRule = TopicRule(name: string, includes: Option<seq<string>>)

  /** `data.get("include", [])` */
  function Keywords(rule: TopicRule): seq<string> {
    rule.includes.GetOr([])
  }

  /** Topic names are the keys of a mapping, so no two rules share one. */
  ghost predicate UniqueNames(topics: seq<TopicRule>) {
    forall i, j :: 0 <= i < j < |topics| ==> topics[i].name != topics[j].name
  }

  /** Some keyword, lower-cased, occurs in the (already lower-cased) text. */
  ghost predicate KeywordHit(words: seq<string>, blob: string) {
    exists w :: w in words && IsSubstring(Lower(w), blob)
  }

  /** `any(word.lower() in blob for word in words)` */
  function AnyKeyword(words: seq<string>, blob: string): (b: bool)
    ensures b <==> KeywordHit(words, blob)
  {
    if words == [] then false
    else Contains(blob, Lower(words[0])) || AnyKeyword(words[1..], blob)
  }

  /** Whether one topic matches the lower-cased text. */
  function Matches(rule: TopicRule, blob: string): bool {
    AnyKeyword(Keywords(rule), blob)
  }

  /** The names of the matching topics, in configuration order. */
  function MatchedTopics(topics: seq<TopicRule>, blob: string): (r: seq<string>)
    ensures |r| <= |topics|
    ensures forall n :: n in r ==> exists j :: 0 <= j < |topics| && topics[j].name == n && Matches(topics[j], blob)
    ensures forall j :: 0 <= j < |topics| && Matches(topics[j], blob) ==> topics[j].name in r
  {
    if topics == [] then []
    else (if Matches(topics[0], blob) then [topics[0].name] else []) + MatchedTopics(topics[1..], blob)
  }

  /** A configured topic is matched exactly when one of its keywords occurs in the text. */
  lemma MatchedTopicsIff(topics: seq<TopicRule>, blob: string, i: nat)
    requires UniqueNames(topics) && i < |topics|
    ensures topics[i].name in MatchedTopics(topics, blob) <==> KeywordHit(Keywords(topics[i]), blob)
  {
  }

  /** A topic without keywords, or without an `include` key, never matches. */
  lemma NoKeywordsNeverMatch(rule: TopicRule, blob: string)
    requires rule.includes.None? || rule.includes.value == []
    ensures !Matches(rule, blob)
  {
  }

  /** An empty keyword matches every text: `"" in s` is always true. */
  lemma EmptyKeywordMatchesAll(rule: TopicRule, blob: string)
    requires "" in Keywords(rule)
    ensures Matches(rule, blob)
  {
    EmptyIsSubstring(blob);
    assert Lower("") == "";
  }

  /** Matching distributes over a split of the configuration: the order is kept. */
  lemma {:induction false} MatchedTopicsAppend(a: seq<TopicRule>, b: seq<TopicRule>, blob: string)
    ensures MatchedTopics(a + b, blob) == MatchedTopics(a, blob) + MatchedTopics(b, blob)
  {
    if a == [] {
      assert a + b == b;
    } else {
      assert (a + b)[0] == a[0] && (a + b)[1..] == a[1..] + b;
      MatchedTopicsAppend(a[1..], b, blob);
    }
  }

  /** Testing one more topic appends its name when it matches. */
  lemma MatchedTopicsPrefixStep(topics: seq<TopicRule>, k: nat, blob: string)
    requires k < |topics|
    ensures MatchedTopics(topics[..k + 1], blob)
            == MatchedTopics(topics[..k], blob) + (if Matches(topics[k], blob) then [topics[k].name] else [])
  {
    assert topics[..k + 1] == topics[..k] + [topics[k]];
    MatchedTopicsAppend(topics[..k], [topics[k]], blob);
    assert [topics[k]][1..] == [];
  }

  /** The configured topic names, in order. */
  function Names(topics: seq<TopicRule>): (r: seq<string>)
    ensures |r| == |topics| && forall i :: 0 <= i < |topics| ==> r[i] == topics[i].name
  {
    if topics == [] then [] else [topics[0].name] + Names(topics[1..])
  }

  /** `xs` can be obtained from `ys` by deleting elements. */
  ghost predicate IsSubsequence<T>(xs: seq<T>, ys: seq<T>) {
    if xs == [] then true
    else if ys == [] then false
    else if xs[0] == ys[0] then IsSubsequence(xs[1..], ys[1..])
    else IsSubsequence(xs, ys[1..])
  }

  ghost predicate NoDuplicates<T>(xs: seq<T>) {
    forall i, j :: 0 <= i < j < |xs| ==> xs[i] != xs[j]
  }

  /** The matched topics keep the configuration's relative order and list each topic at most once. */
  lemma {:induction false} MatchedTopicsOrdered(topics: seq<TopicRule>, blob: string)
    requires UniqueNames(topics)
    ensures IsSubsequence(MatchedTopics(topics, blob), Names(topics))
    ensures NoDuplicates(MatchedTopics(topics, blob))
  {
    if topics != [] {
      var rest := topics[1..];
      assert UniqueNames(rest) by {
        forall i, j | 0 <= i < j < |rest| ensures rest[i].name != rest[j].name {
          assert rest[i] == topics[i + 1] && rest[j] == topics[j + 1];
        }
      }
      MatchedTopicsOrdered(rest, blob);
      var m := MatchedTopics(topics, blob);
      var mr := MatchedTopics(rest, blob);
      assert Names(topics)[1..] == Names(rest);
      assert topics[0].name !in mr;
      if Matches(topics[0], blob) {
        assert m == [topics[0].name] + mr;
        assert m[1..] == mr;
        forall i, j | 0 <= i < j < |m| ensures m[i] != m[j] {
          if i == 0 {
            assert m[j] == mr[j - 1];
          } else {
            assert m[i] == mr[i - 1] && m[j] == mr[j - 1];
          }
        }
      } else {
        assert m == mr;
        SubsequenceDropHead(mr, Names(topics));
      }
    }
  }

  /** A subsequence of the tail of `ys` is a subsequence of `ys`. */
  lemma {:induction false} SubsequenceDropHead<T>(xs: seq<T>, ys: seq<T>)
    requires ys != [] && IsSubsequence(xs, ys[1..])
    ensures IsSubsequence(xs, ys)
  {
    if xs != [] && xs[0] == ys[0] {
      SubsequenceTail(xs, ys[1..]);
    }
  }

  /** Dropping the head of a non-empty subsequence keeps it a subsequence. */
  lemma {:induction false} SubsequenceTail<T>(xs: seq<T>, ys: seq<T>)
    requires xs != [] && IsSubsequence(xs, ys)
    ensures IsSubsequence(xs[1..], ys)
  {
    assert ys != [];
    if xs[0] == ys[0] {
      if xs[1..] != [] {
        SubsequenceTail(xs[1..], ys[1..]);
        SubsequenceDropHead(xs[1..], ys);
      }
    } else {
      SubsequenceTail(xs, ys[1..]);
      if xs[1..] != [] {
        SubsequenceDropHead(xs[1..], ys);
      }
    }
  }

  /**
   * The loop of the entry classifier: every configured topic is tested against
   * `full_text.lower()` and the matching names are appended in order.
   */
  method MatchTopics(topics: seq<TopicRule>, fullText: string) returns (matched: seq<string>)
    ensures matched == MatchedTopics(topics, Lower(fullText))
  {
    var blob := Lower(fullText);
    matched := [];
    for k := 0 to |topics|
      invariant matched == MatchedTopics(topics[..k], blob)
    {
      if Matches(topics[k], blob) {
        matched := matched + [topics[k].name];
      }
      MatchedTopicsPrefixStep(topics, k, blob);
    }
    assert topics[..|topics|] == topics;
  }
}
