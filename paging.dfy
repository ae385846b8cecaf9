/** The paginator every feed is handed to: the ordered list is cut into
    pages of a fixed size (`POSTS_PER_PAGE`) and the views show one of them.
    Orphan merging is off and an empty list still has one (empty) page. */
module Paging {

  /** The number of pages: ceil(max(1, count) / perPage). */
  function PageCount(count: nat, perPage: nat): (n: nat)
    requires perPage > 0
    ensures n >= 1
    ensures count == 0 ==> n == 1
    ensures count > 0 ==> (n - 1) * perPage < count <= n * perPage
  {
    var hits := if count == 0 then 1 else count;
    var n := (hits + perPage - 1) / perPage;
    var m := (hits + perPage - 1) % perPage;
    assert hits + perPage - 1 == n * perPage + m;
    assert (n - 1) * perPage == n * perPage - perPage;
    n
  }

  lemma {:induction false} MulMonotone(a: nat, b: nat, c: nat)
    requires a <= b
    ensures a * c <= b * c
  {
    if a < b {
      MulMonotone(a, b - 1, c);
      assert (b - 1) * c + c == b * c;
    }
  }

  /** Where page `number` starts, and that every page before the last is
      followed by at least one more row. */
  lemma PageBounds(count: nat, perPage: nat, number: nat)
    requires perPage > 0 && 1 <= number <= PageCount(count, perPage)
    ensures (number - 1) * perPage + perPage == number * perPage
    ensures (number - 1) * perPage <= count
    ensures number < PageCount(count, perPage) ==> number * perPage < count
    ensures number == PageCount(count, perPage) ==> count <= number * perPage
  {
    var n := PageCount(count, perPage);
    MulMonotone(number - 1, n - 1, perPage);
    if number < n {
      MulMonotone(number, n - 1, perPage);
    }
  }

  /** Page `number` (counted from 1): the rows from `(number - 1) * perPage`
      up to `number * perPage`, cut at the end of the list. */
  function Page<T>(s: seq<T>, perPage: nat, number: nat): (page: seq<T>)
    requires perPage > 0 && 1 <= number <= PageCount(|s|, perPage)
    ensures |page| <= perPage
    ensures number < PageCount(|s|, perPage) ==> |page| == perPage
    ensures number * perPage <= |s| ==> |page| == perPage
    ensures (number - 1) * perPage + |page| <= |s|
    ensures number == PageCount(|s|, perPage) ==> (number - 1) * perPage + |page| == |s|
    ensures page == s[(number - 1) * perPage .. (number - 1) * perPage + |page|]
  {
    PageBounds(|s|, perPage, number);
    var bottom := (number - 1) * perPage;
    var top := if bottom + perPage >= |s| then |s| else bottom + perPage;
    s[bottom..top]
  }

  /** All pages, in order. */
  function Paginate<T>(s: seq<T>, perPage: nat): (pages: seq<seq<T>>)
    requires perPage > 0
    ensures |pages| == PageCount(|s|, perPage)
    ensures forall k :: 0 <= k < |pages| ==> pages[k] == Page(s, perPage, k + 1)
  {
    seq(PageCount(|s|, perPage), k requires 0 <= k < PageCount(|s|, perPage) => Page(s, perPage, k + 1))
  }

  /** The pages read one after the other. */
  function Concat<T>(pages: seq<seq<T>>): seq<T> {
    if pages == [] then [] else Concat(pages[..|pages| - 1]) + pages[|pages| - 1]
  }

  lemma ConcatSnoc<T>(pages: seq<seq<T>>, m: nat)
    requires 1 <= m <= |pages|
    ensures Concat(pages[..m]) == Concat(pages[..m - 1]) + pages[m - 1]
  {
    assert pages[..m][..m - 1] == pages[..m - 1];
  }

  /** A page before the last ends where the next one starts. */
  lemma FullPageEnd<T>(s: seq<T>, perPage: nat, m: nat)
    requires perPage > 0 && 1 <= m < PageCount(|s|, perPage)
    ensures (m - 1) * perPage + |Page(s, perPage, m)| == m * perPage
  {
    PageBounds(|s|, perPage, m);
  }

  /** Appending page `m` to the first `m - 1` pages extends the prefix of
      the list they cover by that page's rows. */
  lemma ConcatStep<T>(s: seq<T>, pages: seq<seq<T>>, m: nat, a: nat, b: nat)
    requires 1 <= m <= |pages| && a <= b <= |s|
    requires Concat(pages[..m - 1]) == s[..a] && pages[m - 1] == s[a..b]
    ensures Concat(pages[..m]) == s[..b]
  {
    ConcatSnoc(pages, m);
    assert s[..a] + s[a..b] == s[..b];
  }

  /** The first `m` pages hold exactly the rows before the end of page `m`. */
  lemma {:induction false} ConcatPrefix<T>(s: seq<T>, perPage: nat, m: nat)
    requires perPage > 0 && 1 <= m <= PageCount(|s|, perPage)
    ensures Concat(Paginate(s, perPage)[..m]) == s[..(m - 1) * perPage + |Page(s, perPage, m)|]
  {
    var pages := Paginate(s, perPage);
    var last := Page(s, perPage, m);
    var start := (m - 1) * perPage;
    MulMonotone(0, m - 1, perPage);
    if m == 1 {
      assert pages[..0] == [];
    } else {
      ConcatPrefix(s, perPage, m - 1);
      FullPageEnd(s, perPage, m - 1);
    }
    ConcatStep(s, pages, m, start, start + |last|);
  }

  /** Row `k` of the list is row `k % perPage` of page `k / perPage + 1`, so
      every row is on some page a reader can ask for. */
  lemma RowOnPage<T>(s: seq<T>, perPage: nat, k: nat)
    requires perPage > 0 && k < |s|
    ensures 1 <= k / perPage + 1 <= PageCount(|s|, perPage)
    ensures k % perPage < |Page(s, perPage, k / perPage + 1)|
    ensures Page(s, perPage, k / perPage + 1)[k % perPage] == s[k]
  {
    var n := PageCount(|s|, perPage);
    var q := k / perPage;
    var m := k % perPage;
    assert k == q * perPage + m;
    if q + 1 > n {
      MulMonotone(n, q, perPage);
      assert false;
    }
    PageBounds(|s|, perPage, q + 1);
    assert q * perPage + perPage == (q + 1) * perPage;
    var page := Page(s, perPage, q + 1);
    assert m < |page|;
    assert page[m] == s[q * perPage + m];
  }

  /** Every row appears on exactly one page, and in its original place: the
      pages read in order give back the whole list. */
  lemma PaginateCoversAll<T>(s: seq<T>, perPage: nat)
    requires perPage > 0
    ensures Concat(Paginate(s, perPage)) == s
  {
    var n := PageCount(|s|, perPage);
    ConcatPrefix(s, perPage, n);
    assert Paginate(s, perPage)[..n] == Paginate(s, perPage);
  }
}
