/**
 * Pagination of the fetched articles (20 per page) and their placement in a
 * grid of three columns.
 */
module Paging {

  const PageSize: nat := 20
  const Columns: nat := 3

  /** `math.ceil(n / PAGE_SIZE)` */
  function TotalPages(n: nat): (p: nat)
    ensures p * PageSize >= n
    ensures p == 0 || (p - 1) * PageSize < n
    ensures n > 0 <==> p >= 1
  {
    (n + PageSize - 1) / PageSize
  }

  /** `s[lo:hi]` for non-negative bounds: out-of-range bounds are clipped to the length. */
  function Slice<T>(s: seq<T>, lo: nat, hi: nat): (r: seq<T>)
    ensures |r| == if hi <= lo || |s| <= lo then 0 else (if hi <= |s| then hi else |s|) - lo
    ensures lo + |r| <= |s| || r == []
    ensures forall i :: 0 <= i < |r| ==> r[i] == s[lo + i]
  {
    if hi <= lo || |s| <= lo then [] else s[lo..if hi <= |s| then hi else |s|]
  }

  /** `articles[start:end]` with `start = (page - 1) * PAGE_SIZE` and `end = start + PAGE_SIZE`. */
  function PageOf<T>(articles: seq<T>, page: nat): (r: seq<T>)
    requires page >= 1
    ensures |r| <= PageSize
    ensures |r| == if (page - 1) * PageSize >= |articles| then 0
                   else if |articles| - (page - 1) * PageSize < PageSize then |articles| - (page - 1) * PageSize
                   else PageSize
    ensures (page - 1) * PageSize + |r| <= |articles| || r == []
    ensures forall i :: 0 <= i < |r| ==> r[i] == articles[(page - 1) * PageSize + i]
  {
    var start := (page - 1) * PageSize;
    Slice(articles, start, start + PageSize)
  }

  /** Every page that the page selector offers is non-empty; all but the last are full. */
  lemma PageInRange<T>(articles: seq<T>, page: nat)
    requires 1 <= page <= TotalPages(|articles|)
    ensures 0 < |PageOf(articles, page)| <= PageSize
    ensures page < TotalPages(|articles|) ==> |PageOf(articles, page)| == PageSize
  {
    var p := TotalPages(|articles|);
    assert (page - 1) * PageSize <= (p - 1) * PageSize;
    if page < p {
      assert page * PageSize <= (p - 1) * PageSize;
    }
  }

  /** Pages 1 to k, one after the other. */
  function Pages<T>(articles: seq<T>, k: nat): seq<T> {
    if k == 0 then [] else Pages(articles, k - 1) + PageOf(articles, k)
  }

  /** The first k pages are the first k * PAGE_SIZE articles. */
  lemma {:induction false} PagesPrefix<T>(articles: seq<T>, k: nat)
    ensures Pages(articles, k) == articles[..if k * PageSize <= |articles| then k * PageSize else |articles|]
  {
    if k > 0 {
      PagesPrefix(articles, k - 1);
      var lo := if (k - 1) * PageSize <= |articles| then (k - 1) * PageSize else |articles|;
      var hi := if k * PageSize <= |articles| then k * PageSize else |articles|;
      var page := PageOf(articles, k);
      assert |page| == hi - lo;
      assert page == articles[lo..hi];
      assert articles[..lo] + articles[lo..hi] == articles[..hi];
    }
  }

  /** Reading every page in order gives back exactly the article list. */
  lemma PagesCoverAll<T>(articles: seq<T>)
    ensures Pages(articles, TotalPages(|articles|)) == articles
  {
    PagesPrefix(articles, TotalPages(|articles|));
  }

  /** One card of the grid: the article shown at a row and column. */
  datatype Cell<T> = Cell(row: nat, col: nat, item: T)

  /**
   * The card loop: rows start at every third index of the page, and column
   * `j` of the row starting at `i` shows item `i + j` when there is one.
   * Every item is shown once, in order, at row `k / 3` and column `k % 3`.
   */
  method Grid<T>(page: seq<T>) returns (cells: seq<Cell<T>>)
    ensures |cells| == |page|
    ensures forall k :: 0 <= k < |page| ==> cells[k] == Cell(k / Columns, k % Columns, page[k])
  {
    cells := [];
    var i := 0;
    while i < |page|
      invariant i % Columns == 0
      invariant |cells| == if i <= |page| then i else |page|
      invariant forall k :: 0 <= k < |cells| ==> cells[k] == Cell(k / Columns, k % Columns, page[k])
    {
      for j := 0 to Columns
        invariant |cells| == if i + j <= |page| then i + j else |page|
        invariant forall k :: 0 <= k < |cells| ==> cells[k] == Cell(k / Columns, k % Columns, page[k])
      {
        if i + j < |page| {
          cells := cells + [Cell(i / Columns, j, page[i + j])];
        }
      }
      i := i + Columns;
    }
  }
}
