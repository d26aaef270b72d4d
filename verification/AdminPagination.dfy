/** The window of page numbers under an admin list. */
module AdminPagination {

  datatype Item = Page(number: int) | Ellipsis

  function Max(a: int, b: int): int { if a >= b then a else b }
  function Min(a: int, b: int): int { if a <= b then a else b }

  /** The least integer no smaller than the quotient. */
  function Ceiling(a: int, b: int): int
    requires b > 0
  {
    -((-a) / b)
  }

  function PageCount(pageSize: int, total: int): int {
    Max(1, Ceiling(total, Max(1, pageSize)))
  }

  function Current(page: int, pageCount: int): int {
    Min(Max(1, page), pageCount)
  }

  /** Pages from `low` to `high`, in order. */
  function Pages(low: int, high: int): seq<Item>
    decreases high - low
  {
    if low > high then [] else Pages(low, high - 1) + [Page(high)]
  }

  function Window(current: int, pageCount: int): seq<Item> {
    if pageCount <= 7 then Pages(1, pageCount)
    else
      [Page(1)]
      + (if current > 3 then [Ellipsis] else [])
      + Pages(Max(2, current - 1), Min(pageCount - 1, current + 1))
      + (if current < pageCount - 2 then [Ellipsis] else [])
      + [Page(pageCount)]
  }

  method PageWindow(page: int, pageSize: int, total: int) returns (current: int, pageCount: int, window: seq<Item>)
    ensures pageCount == PageCount(pageSize, total) && current == Current(page, pageCount)
    ensures window == Window(current, pageCount)
  {
    pageCount := Max(1, Ceiling(total, Max(1, pageSize)));
    current := Min(Max(1, page), pageCount);
    window := [];
    if pageCount <= 7 {
      for index := 1 to pageCount + 1
        invariant window == Pages(1, index - 1)
      {
        window := window + [Page(index)];
      }
    } else {
      window := window + [Page(1)];
      if current > 3 {
        window := window + [Ellipsis];
      }
      var low, high := Max(2, current - 1), Min(pageCount - 1, current + 1);
      ghost var before := window;
      for index := low to high + 1
        invariant window == before + Pages(low, index - 1)
      {
        window := window + [Page(index)];
      }
      if current < pageCount - 2 {
        window := window + [Ellipsis];
      }
      window := window + [Page(pageCount)];
    }
  }

  /** The page count covers the total and no page is empty, but for a single page. */
  lemma PageCountCovers(pageSize: int, total: int)
    ensures var size, count := Max(1, pageSize), PageCount(pageSize, total);
            && count >= 1
            && total <= count * size
            && (count > 1 ==> (count - 1) * size < total)
  {
    var size := Max(1, pageSize);
    var c := Ceiling(total, size);
    var q := (-total) / size;
    assert -total == size * q + (-total) % size;
    assert c * size == -(size * q);
    assert (c - 1) * size == c * size - size;
    if c < 1 { assert c * size <= 0; }
  }

  /** From the first page to the last, with the current one and its neighbours, and every page of few. */
  ghost predicate Covers(window: seq<Item>, current: int, pageCount: int) {
    && 1 <= |window| <= 7
    && window[0] == Page(1)
    && window[|window| - 1] == Page(pageCount)
    && (forall p :: 1 <= p <= pageCount && (pageCount <= 7 || current - 1 <= p <= current + 1) ==> Page(p) in window)
  }

  /** No page outside, and of many none but the first, the last, the current one and its neighbours. */
  ghost predicate Within(window: seq<Item>, current: int, pageCount: int) {
    forall i :: 0 <= i < |window| && window[i].Page? ==>
      && 1 <= window[i].number <= pageCount
      && (pageCount > 7 ==> window[i].number in {1, pageCount} || current - 1 <= window[i].number <= current + 1)
  }

  /** Between two neighbouring numbers nothing is left out; an ellipsis stands exactly between two numbers
      that leave out at least one. */
  ghost predicate Spaced(window: seq<Item>) {
    && (forall i :: 0 <= i < |window| - 1 && window[i].Page? && window[i + 1].Page? ==>
          window[i + 1].number == window[i].number + 1)
    && (forall i :: 0 <= i < |window| && window[i].Ellipsis? ==>
          && 0 < i < |window| - 1 && window[i - 1].Page? && window[i + 1].Page?
          && window[i - 1].number + 1 < window[i + 1].number)
  }

  /** What a reader of the window relies on. */
  ghost predicate GoodWindow(window: seq<Item>, current: int, pageCount: int) {
    Covers(window, current, pageCount) && Within(window, current, pageCount) && Spaced(window)
  }

  lemma {:induction false} PagesAre(low: int, high: int)
    requires low <= high + 1
    ensures |Pages(low, high)| == high - low + 1
    ensures forall i :: 0 <= i < |Pages(low, high)| ==> Pages(low, high)[i] == Page(low + i)
    decreases high - low
  {
    if low > high {
    } else {
      PagesAre(low, high - 1);
    }
  }

  lemma ShortWindowIsGood(current: int, pageCount: int)
    requires 1 <= current <= pageCount <= 7
    ensures GoodWindow(Window(current, pageCount), current, pageCount)
  {
    hide Pages, Max, Min;
    var w := Window(current, pageCount);
    PagesAre(1, pageCount);
    forall p | 1 <= p <= pageCount ensures Page(p) in w { assert w[p - 1] == Page(p); }
  }

  /** The middle of a long window: the current page and its neighbours, but for the first page
      and the last. */
  lemma Middle(current: int, pageCount: int) returns (low: int, high: int)
    requires 1 <= current <= pageCount && pageCount > 7
    ensures low == Max(2, current - 1) && high == Min(pageCount - 1, current + 1)
    ensures 2 <= low <= high <= pageCount - 1 && high - low <= 2
    ensures current - 1 <= low <= current + 1 && current - 1 <= high <= current + 1
    ensures low == (if current >= 3 then current - 1 else 2)
    ensures high == (if current <= pageCount - 2 then current + 1 else pageCount - 1)
  {
    low, high := Max(2, current - 1), Min(pageCount - 1, current + 1);
  }

  lemma LongWindowCovers(current: int, pageCount: int)
    requires 1 <= current <= pageCount && pageCount > 7
    ensures Covers(Window(current, pageCount), current, pageCount)
  {
    hide Pages, Max, Min;
    var w := Window(current, pageCount);
    var low, high := Middle(current, pageCount);
    PagesAre(low, high);
    var lead := if current > 3 then 2 else 1;
    forall p | low <= p <= high ensures Page(p) in w { assert w[lead + p - low] == Page(p); }
    assert w[0] == Page(1) && w[|w| - 1] == Page(pageCount);
  }

  lemma LongWindowIsWithin(current: int, pageCount: int)
    requires 1 <= current <= pageCount && pageCount > 7
    ensures Within(Window(current, pageCount), current, pageCount)
  {
    hide Pages, Max, Min;
    var low, high := Middle(current, pageCount);
    PagesAre(low, high);
  }

  lemma LongWindowIsSpaced(current: int, pageCount: int)
    requires 1 <= current <= pageCount && pageCount > 7
    ensures Spaced(Window(current, pageCount))
  {
    hide Pages, Max, Min;
    var low, high := Middle(current, pageCount);
    PagesAre(low, high);
  }

  lemma LongWindowIsGood(current: int, pageCount: int)
    requires 1 <= current <= pageCount && pageCount > 7
    ensures GoodWindow(Window(current, pageCount), current, pageCount)
  {
    hide Window, Covers, Within, Spaced;
    LongWindowCovers(current, pageCount);
    LongWindowIsWithin(current, pageCount);
    LongWindowIsSpaced(current, pageCount);
  }

  lemma WindowIsGood(current: int, pageCount: int)
    requires 1 <= current <= pageCount
    ensures GoodWindow(Window(current, pageCount), current, pageCount)
  {
    hide Window, GoodWindow;
    if pageCount <= 7 { ShortWindowIsGood(current, pageCount); } else { LongWindowIsGood(current, pageCount); }
  }

  /** For all numbers given, whatever they are: the page is clamped, and its window is good. */
  lemma EveryWindowIsGood(page: int, pageSize: int, total: int)
    ensures var pageCount := PageCount(pageSize, total);
            var current := Current(page, pageCount);
            && GoodWindow(Window(current, pageCount), current, pageCount)
            && current == (if page < 1 then 1 else if page > pageCount then pageCount else page)
  {
    PageCountCovers(pageSize, total);
    WindowIsGood(Current(page, PageCount(pageSize, total)), PageCount(pageSize, total));
  }

  /** The numbers of a good window strictly increase. */
  lemma {:induction false} NumbersIncrease(window: seq<Item>, current: int, pageCount: int, i: nat, j: nat)
    requires GoodWindow(window, current, pageCount)
    requires i < j < |window| && window[i].Page? && window[j].Page?
    ensures window[i].number < window[j].number
    decreases j - i
  {
    if window[i + 1].Page? {
      if i + 1 < j { NumbersIncrease(window, current, pageCount, i + 1, j); }
    } else if i + 2 < j {
      NumbersIncrease(window, current, pageCount, i + 2, j);
    }
  }
}
