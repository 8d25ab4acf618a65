/**
 * The page-button arithmetic of the front end's pagination bar: how many
 * pages there are, which of Prev and Next are enabled, which numbered
 * buttons are shown, and what page each click asks for.
 */
module Pagination {
  import opened Wrappers

  /** `Math.ceil(total / pageSize)` for a positive page size. */
  function CeilDiv(total: int, pageSize: int): (q: int)
    requires pageSize > 0
    ensures (q - 1) * pageSize < total <= q * pageSize
  {
    var m := (-total) / pageSize;
    assert -total == m * pageSize + (-total) % pageSize;
    -m
  }

  /** `Math.max(1, Math.ceil(total / pageSize))`. */
  function TotalPages(total: int, pageSize: int): (n: int)
    requires pageSize > 0
    ensures n >= 1
    ensures total <= n * pageSize
    ensures n == 1 || (n - 1) * pageSize < total
  {
    var q := CeilDiv(total, pageSize);
    if q >= 1 then q else 1
  }

  /** The page count is the least positive number of pages that holds `total` items. */
  lemma TotalPagesLeast(total: int, pageSize: int, n: int)
    requires pageSize > 0 && n >= 1 && total <= n * pageSize
    ensures TotalPages(total, pageSize) <= n
  {
    var m := TotalPages(total, pageSize);
    if m > 1 {
      MulCancel(m - 1, n, pageSize);
    }
  }

  lemma MulCancel(a: int, b: int, c: int)
    requires c > 0 && a * c < b * c
    ensures a < b
  {
    assert (b - a) * c == b * c - a * c;
  }

  predicate CanPrev(page: int) {
    page > 1
  }

  predicate CanNext(page: int, total: int, pageSize: int)
    requires pageSize > 0
  {
    page < TotalPages(total, pageSize)
  }

  /** `Array.from({ length: n }).slice(0, 7).map((_, i) => i + 1)`. */
  function PageButtons(n: int): (pages: seq<int>)
    requires n >= 1
    ensures |pages| == if n < 7 then n else 7
    ensures forall i :: 0 <= i < |pages| ==> pages[i] == i + 1
  {
    var shown := if n < 7 then n else 7;
    seq(shown, i => i + 1)
  }

  /** The numbered buttons show pages 1 to min(7, page count), each a real page. */
  lemma PageButtonsInRange(total: int, pageSize: int, p: int)
    requires pageSize > 0
    ensures p in PageButtons(TotalPages(total, pageSize)) <==>
      1 <= p <= TotalPages(total, pageSize) && p <= 7
  {
    var pages := PageButtons(TotalPages(total, pageSize));
    if 1 <= p <= TotalPages(total, pageSize) && p <= 7 {
      assert pages[p - 1] == p;
    }
  }

  datatype Button = Prev | Number(p: int) | Next

  /** The page handed to `onChange` when a button is clicked, if any. */
  function Click(b: Button, page: int, total: int, pageSize: int): (emitted: Option<int>)
    requires pageSize > 0
    ensures b == Prev ==> (emitted.Some? <==> page > 1)
    ensures b == Next ==> (emitted.Some? <==> page < TotalPages(total, pageSize))
    ensures b.Number? ==> emitted == Some(b.p)
    ensures emitted.Some? && b == Prev ==> emitted.value == page - 1
    ensures emitted.Some? && b == Next ==> emitted.value == page + 1
  {
    match b
    case Prev => if CanPrev(page) then Some(page - 1) else None
    case Number(p) => Some(p)
    case Next => if CanNext(page, total, pageSize) then Some(page + 1) else None
  }

  /** From a page in range, every click on a shown button asks for a page in range. */
  lemma ClickStaysInRange(b: Button, page: int, total: int, pageSize: int)
    requires pageSize > 0
    requires 1 <= page <= TotalPages(total, pageSize)
    requires b.Number? ==> b.p in PageButtons(TotalPages(total, pageSize))
    ensures Click(b, page, total, pageSize).Some? ==>
      1 <= Click(b, page, total, pageSize).value <= TotalPages(total, pageSize)
  {
    if b.Number? {
      PageButtonsInRange(total, pageSize, b.p);
    }
  }

  /** On a single page neither Prev nor Next asks for anything. */
  lemma SinglePage(total: int, pageSize: int)
    requires pageSize > 0 && total <= pageSize
    ensures TotalPages(total, pageSize) == 1
    ensures Click(Prev, 1, total, pageSize) == None
    ensures Click(Next, 1, total, pageSize) == None
  {
    TotalPagesLeast(total, pageSize, 1);
  }
}
