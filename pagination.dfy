/**
 * The "load more" pagination both listing grids use: a visible prefix
 * `filtered.slice(0, visibleCount)`, the flag `hasMore` and the
 * "(N remaining)" label, for a count that starts at the page size and grows by it.
 */
module Pagination {

  /** A filter chip selection: the "All" chip, or one value. */
  datatype Choice = All | Only(value: string)

  function Min(a: int, b: int): int { if a <= b then a else b }

  /** `filtered.slice(0, count)`: the first `count` items, or all of them when fewer. */
  function Visible<T>(filtered: seq<T>, count: nat): (r: seq<T>)
    ensures |r| == Min(count, |filtered|)
    ensures r <= filtered
    ensures |r| < |filtered| <==> count < |filtered|
  {
    if count < |filtered| then filtered[..count] else filtered
  }

  /** `visibleCount < filtered.length`. */
  predicate HasMore<T>(filtered: seq<T>, count: nat)
  {
    count < |filtered|
  }

  /** The number on the "Load more (N remaining)" button. */
  function Remaining<T>(filtered: seq<T>, count: nat): int
  {
    |filtered| - count
  }

  /** There is more to show exactly when the visible prefix is not the whole list. */
  lemma HasMoreIff<T>(filtered: seq<T>, count: nat)
    ensures HasMore(filtered, count) <==> Visible(filtered, count) != filtered
  {
  }

  /**
   * When the button is shown, its label counts exactly the items that are still
   * hidden, and that number is positive.
   */
  lemma RemainingIsHidden<T>(filtered: seq<T>, count: nat)
    requires HasMore(filtered, count)
    ensures Remaining(filtered, count) > 0
    ensures Remaining(filtered, count) == |filtered| - |Visible(filtered, count)|
  {
  }

  /**
   * Loading one more page only appends: the old visible prefix is a prefix of the
   * new one, which is `min(|shown| + page, |filtered|)` long.
   */
  lemma LoadMoreExtends<T>(filtered: seq<T>, count: nat, page: nat)
    ensures Visible(filtered, count) <= Visible(filtered, count + page)
    ensures |Visible(filtered, count + page)| == Min(|Visible(filtered, count)| + page, |filtered|)
  {
    var before, after := Visible(filtered, count), Visible(filtered, count + page);
    assert before == filtered[..|before|] && after == filtered[..|after|];
  }

  /**
   * The counts the source reaches: the page size after a reset, plus one page
   * for every "load more" since.
   */
  predicate IsPageCount(count: nat, page: nat)
  {
    page > 0 && count >= page && count % page == 0
  }

  /**
   * With a count the source reaches, a non-empty list always shows something, so
   * the grid and its "no results" message are never both empty.
   */
  lemma NonEmptyShowsSome<T>(filtered: seq<T>, count: nat, page: nat)
    ensures IsPageCount(count, page) ==> (Visible(filtered, count) == [] <==> filtered == [])
  {
  }

  /**
   * After `loads` presses of "load more" from a reset, the count is
   * `(loads + 1) * page`, and the list is fully shown once that reaches its length.
   */
  lemma {:induction false} LoadsFromReset<T>(filtered: seq<T>, page: nat, loads: nat)
    requires page > 0
    ensures CountAfter(page, loads) == (loads + 1) * page
    ensures HasMore(filtered, CountAfter(page, loads)) <==> (loads + 1) * page < |filtered|
  {
    if loads > 0 {
      LoadsFromReset(filtered, page, loads - 1);
      assert CountAfter(page, loads) == (loads - 1 + 1) * page + page;
      assert (loads - 1 + 1) * page + page == (loads + 1) * page;
    } else {
      assert CountAfter(page, 0) == page;
    }
  }

  /** The count after `loads` presses of "load more" following a reset to `page`. */
  function CountAfter(page: nat, loads: nat): nat
  {
    if loads == 0 then page else CountAfter(page, loads - 1) + page
  }
}
