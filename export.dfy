/**
 * The "Top 10" markdown export: a title line, then one numbered block for each
 * of the first ten selected articles.
 */
module Export {
  import opened Text
  import opened Fetch

  const TopCount: nat := 10
  const SummaryLimit: nat := 300

  /** The title line: "Maritime Top 10", an en dash and the topic as a level-one heading, then a blank line. */
  function Header(topic: string): string {
    "# Maritime Top 10 \U{2013} " + topic + "\n\n"
  }

  /** The article's number and title as a level-two heading. */
  function TitleLine(n: nat, a: Article): string {
    "## " + NatToString(n) + ". " + a.title + "\n"
  }

  /** The date, after an italic label, ending in a markdown line break. */
  function DateLine(a: Article): string {
    "*Date:* " + a.date + "  \n"
  }

  /** The matched topics separated by commas, after an italic label, then a blank line. */
  function TopicsLine(a: Article): string {
    "*Topics:* " + Join(a.topics, ", ") + "\n\n"
  }

  /** At most the first 300 characters of the summary followed by an ellipsis, then a blank line. */
  function SummaryLine(a: Article): string {
    Take(a.summary, SummaryLimit) + "...\n\n"
  }

  /** A "Read more" markdown link to the article, then a blank line. */
  function LinkLine(a: Article): string {
    "[Read more](" + a.link + ")\n\n"
  }

  /** The five lines the export writes for the article numbered `n`. */
  function Block(n: nat, a: Article): string {
    TitleLine(n, a) + DateLine(a) + TopicsLine(a) + SummaryLine(a) + LinkLine(a)
  }

  /** The pieces `render(first, xs[0])`, `render(first + 1, xs[1])`, ... one after the other. */
  function Blocks<T>(render: (nat, T) -> string, xs: seq<T>, first: nat): string {
    if xs == [] then "" else render(first, xs[0]) + Blocks(render, xs[1..], first + 1)
  }

  /** The whole export document for the selected articles. */
  function ExportText(topic: string, selected: seq<Article>): string {
    Header(topic) + Blocks(Block, Take(selected, TopCount), 1)
  }

  /** Blocks of a concatenation: the numbering of the second part continues the first. */
  lemma {:induction false} BlocksAppend<T>(render: (nat, T) -> string, xs: seq<T>, ys: seq<T>, first: nat)
    ensures Blocks(render, xs + ys, first) == Blocks(render, xs, first) + Blocks(render, ys, first + |xs|)
  {
    if xs == [] {
      assert xs + ys == ys;
    } else {
      var zs := xs + ys;
      assert zs[0] == xs[0] && zs[1..] == xs[1..] + ys;
      BlocksAppend(render, xs[1..], ys, first + 1);
      calc {
        Blocks(render, zs, first);
        render(first, xs[0]) + Blocks(render, xs[1..] + ys, first + 1);
        render(first, xs[0]) + (Blocks(render, xs[1..], first + 1) + Blocks(render, ys, first + |xs|));
        (render(first, xs[0]) + Blocks(render, xs[1..], first + 1)) + Blocks(render, ys, first + |xs|);
        Blocks(render, xs, first) + Blocks(render, ys, first + |xs|);
      }
    }
  }

  /** One more element adds its piece, numbered after those before it. */
  lemma BlocksPrefixStep<T>(render: (nat, T) -> string, xs: seq<T>, i: nat)
    requires i < |xs|
    ensures Blocks(render, xs[..i + 1], 1) == Blocks(render, xs[..i], 1) + render(i + 1, xs[i])
  {
    assert xs[..i + 1] == xs[..i] + [xs[i]];
    BlocksAppend(render, xs[..i], [xs[i]], 1);
    assert Blocks(render, [xs[i]], i + 1) == render(i + 1, xs[i]) + Blocks(render, [], i + 2);
  }

  /** A split of the elements at `k`: the pieces before, the piece of `xs[k]`, the pieces after. */
  lemma BlocksSplit<T>(render: (nat, T) -> string, xs: seq<T>, k: nat)
    requires k < |xs|
    ensures Blocks(render, xs, 1)
            == Blocks(render, xs[..k], 1) + render(k + 1, xs[k]) + Blocks(render, xs[k + 1..], k + 2)
  {
    var front, back := xs[..k + 1], xs[k + 1..];
    assert front + back == xs;
    assert |front| == k + 1;
    BlocksAppend(render, front, back, 1);
    BlocksPrefixStep(render, xs, k);
    calc {
      Blocks(render, xs, 1);
      Blocks(render, front + back, 1);
      Blocks(render, front, 1) + Blocks(render, back, k + 2);
      Blocks(render, xs[..k], 1) + render(k + 1, xs[k]) + Blocks(render, back, k + 2);
    }
  }

  /**
   * The k-th selected article (counting from 0), for k below ten, is written as
   * the block numbered k + 1, after the blocks of the articles before it.
   */
  lemma ExportNumbering(topic: string, selected: seq<Article>, k: nat)
    requires k < |selected| && k < TopCount
    ensures ExportText(topic, selected)
            == Header(topic) + Blocks(Block, selected[..k], 1) + Block(k + 1, selected[k])
               + Blocks(Block, Take(selected, TopCount)[k + 1..], k + 2)
  {
    var top := Take(selected, TopCount);
    BlocksSplit(Block, top, k);
    assert top[..k] == selected[..k] && top[k] == selected[k];
    Regroup(Header(topic), Blocks(Block, top[..k], 1), Block(k + 1, top[k]), Blocks(Block, top[k + 1..], k + 2));
  }

  /** Articles selected after the tenth do not change the export. */
  lemma ExportOnlyFirstTen(topic: string, selected: seq<Article>, later: seq<Article>)
    requires |selected| >= TopCount
    ensures ExportText(topic, selected + later) == ExportText(topic, selected)
  {
    assert Take(selected + later, TopCount) == Take(selected, TopCount);
  }

  /** Regrouping a concatenation to the left; stated on its own so that callers need not unfold the pieces. */
  lemma Regroup(h: string, a: string, b: string, c: string)
    ensures h + ((a + b) + c) == h + a + b + c
  {
  }

  /** Concatenation is associative; stated on its own for the same reason. */
  lemma Associate(a: string, b: string, c: string)
    ensures (a + b) + c == a + (b + c)
  {
  }

  /** Appending five pieces one by one is appending their concatenation. */
  lemma AppendFive(p: string, a: string, b: string, c: string, d: string, e: string)
    ensures p + a + b + c + d + e == p + (a + b + c + d + e)
  {
  }

  /**
   * The export loop: the title line, then for each of the first ten selected
   * articles, numbered from 1, its five lines appended one after the other.
   */
  method ExportMarkdown(topic: string, selected: seq<Article>) returns (markdown: string)
    ensures markdown == ExportText(topic, selected)
  {
    var top := Take(selected, TopCount);
    markdown := Header(topic);
    for i := 0 to |top|
      invariant markdown == Header(topic) + Blocks(Block, top[..i], 1)
    {
      var a := top[i];
      ghost var prev := markdown;
      markdown := markdown + TitleLine(i + 1, a);
      markdown := markdown + DateLine(a);
      markdown := markdown + TopicsLine(a);
      markdown := markdown + SummaryLine(a);
      markdown := markdown + LinkLine(a);
      AppendFive(prev, TitleLine(i + 1, a), DateLine(a), TopicsLine(a), SummaryLine(a), LinkLine(a));
      BlocksPrefixStep(Block, top, i);
      Associate(Header(topic), Blocks(Block, top[..i], 1), Block(i + 1, a));
    }
    assert top[..|top|] == top;
  }
}
