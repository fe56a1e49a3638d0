/** The explore page's pagination arithmetic and its category buttons. */
module Explore {
  import opened Entities
  import opened Seqs
  import opened MemesSlice

  const ItemsPerPage: nat := 12

  /** The most page buttons shown at once. */
  const WindowSize: nat := 5

  /** `Math.ceil(n / 12)`. */
  function TotalPages(n: nat): (t: nat)
    ensures t * ItemsPerPage >= n
    ensures t > 0 ==> (t - 1) * ItemsPerPage < n
    ensures t == 0 <==> n == 0
  {
    (n + ItemsPerPage - 1) / ItemsPerPage
  }

  /** `results.slice((page - 1) * 12, page * 12)`. */
  function CurrentItems<T>(results: seq<T>, page: int): (r: seq<T>)
    ensures |r| <= ItemsPerPage
    ensures page >= 1 ==> forall i :: 0 <= i < |r| ==>
      (page - 1) * ItemsPerPage + i < |results| && r[i] == results[(page - 1) * ItemsPerPage + i]
    ensures 1 <= page <= TotalPages(|results|) ==> r != []
  {
    Slice(results, (page - 1) * ItemsPerPage, page * ItemsPerPage)
  }

  /** Pages 1 to k, one after the other. */
  function PagesUpTo<T>(results: seq<T>, k: nat): seq<T>
  {
    if k == 0 then [] else PagesUpTo(results, k - 1) + CurrentItems(results, k)
  }

  /** The first k pages are the first 12k results. */
  lemma {:induction false} PagesUpToPrefix<T>(results: seq<T>, k: nat)
    ensures PagesUpTo(results, k) == results[..Min(k * ItemsPerPage, |results|)]
  {
    if k > 0 {
      PagesUpToPrefix(results, k - 1);
      var lo, hi := Min((k - 1) * ItemsPerPage, |results|), Min(k * ItemsPerPage, |results|);
      var page := CurrentItems(results, k);
      assert |page| == hi - lo;
      assert page == results[lo..hi];
      assert results[..lo] + results[lo..hi] == results[..hi];
    }
  }

  /** Pages 1 to `TotalPages` together are exactly the result set, in order. */
  lemma PagesCoverResults<T>(results: seq<T>)
    ensures PagesUpTo(results, TotalPages(|results|)) == results
  {
    PagesUpToPrefix(results, TotalPages(|results|));
    assert results[..|results|] == results;
  }

  /** The number on the i-th page button (lines 201-210). */
  function PageNumber(i: int, current: int, total: nat): int
  {
    if total <= WindowSize then i + 1
    else if current <= 3 then i + 1
    else if current >= total - 2 then total - 4 + i
    else current - 2 + i
  }

  /** The row of page buttons: `min(5, total)` consecutive numbers. */
  function PageWindow(current: int, total: nat): (w: seq<int>)
    ensures |w| == Min(WindowSize, total)
    ensures forall i :: 0 <= i < |w| - 1 ==> w[i + 1] == w[i] + 1
  {
    seq(Min(WindowSize, total), i => PageNumber(i, current, total))
  }

  /** For a current page in range, every button is a real page and one of
      them is the current page; away from both ends it sits in the middle. */
  lemma WindowInRange(current: int, total: nat)
    requires 1 <= current <= total
    ensures forall p :: p in PageWindow(current, total) ==> 1 <= p <= total
    ensures current in PageWindow(current, total)
    ensures total > WindowSize && 3 < current < total - 2 ==> PageWindow(current, total)[2] == current
  {
    var w := PageWindow(current, total);
    var k := if total <= WindowSize || current <= 3 then current - 1
             else if current >= total - 2 then current - total + 4
             else 2;
    assert w[k] == current;
  }

  /** The Previous button: `Math.max(page - 1, 1)`. */
  function Previous(page: int): int
  {
    Max(page - 1, 1)
  }

  /** The Next button: `Math.min(page + 1, total)`. */
  function Next(page: int, total: nat): int
  {
    Min(page + 1, total)
  }

  /** Previous and Next keep a page inside `[1, total]` and move it by at most one. */
  lemma StepsStayInRange(page: int, total: nat)
    requires 1 <= page <= total
    ensures 1 <= Previous(page) <= page && 1 <= Next(page, total) <= total
    ensures page > 1 ==> Previous(page) == page - 1
    ensures page < total ==> Next(page, total) == page + 1
    ensures page == 1 ==> Previous(page) == 1
    ensures page == total ==> Next(page, total) == total
  {
  }

  /** `handleCategoryChange`: selects the label, goes back to page 1, and
      either restores the whole catalogue ("All") or filters it by the label. */
  method HandleCategoryChange(store: MemesStore, category: string) returns (selected: string, page: int)
    modifies store`searchResults
    ensures selected == category && page == 1
    ensures category == AllCategories ==> store.searchResults == store.items
    ensures category != AllCategories ==> store.searchResults == CategoryFilter(store.items, category)
  {
    selected := category;
    page := 1;
    if category == AllCategories {
      store.Search("");
    } else {
      store.FilterByCategory(category);
    }
  }
}
