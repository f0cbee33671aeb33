/**
 * The pager (components/ui/Pagination.tsx): the page buttons and the
 * previous/next rules.
 */
module Pagination {

  import opened Wrappers
  import opened Seqs

  /** `Array.from({ length: totalPages }, (_, i) => i + 1)` */
  function Pages(totalPages: nat): (pages: seq<nat>)
    ensures |pages| == totalPages
    ensures forall i :: 0 <= i < totalPages ==> pages[i] == i + 1
  {
    seq(totalPages, i => i + 1)
  }

  /** The buttons are numbered 1 to the total, each once, in increasing order. */
  lemma PagesSpec(totalPages: nat)
    ensures forall i, j :: 0 <= i < j < totalPages ==> Pages(totalPages)[i] < Pages(totalPages)[j]
    ensures forall p :: p in Pages(totalPages) <==> 1 <= p <= totalPages
  {
    forall p | 1 <= p <= totalPages ensures p in Pages(totalPages) {
      assert Pages(totalPages)[p - 1] == p;
    }
  }

  datatype Button = Previous | Next | PageButton(page: nat)

  /** A button's `onPress`: the page it hands to `onPageChange`, or None while it is disabled. */
  function Press(b: Button, currentPage: int, totalPages: nat): Option<int>
  {
    match b
    case Previous => if currentPage == 1 then None else Some(currentPage - 1)
    case Next => if currentPage == totalPages then None else Some(currentPage + 1)
    case PageButton(p) => Some(p)
  }

  /**
   * From a page in range, Previous is disabled exactly on the first page and
   * Next exactly on the last; an enabled one moves to the neighbouring page,
   * and every press of a shown button asks for a page in range.
   */
  lemma NavigationStaysInRange(b: Button, currentPage: int, totalPages: nat)
    requires 1 <= currentPage <= totalPages
    requires b.PageButton? ==> b.page in Pages(totalPages)
    ensures Press(b, currentPage, totalPages).None? <==>
              (b == Previous && currentPage == 1) || (b == Next && currentPage == totalPages)
    ensures Press(b, currentPage, totalPages).Some? ==> 1 <= Press(b, currentPage, totalPages).value <= totalPages
    ensures b == Previous && currentPage != 1 ==> Press(b, currentPage, totalPages) == Some(currentPage - 1)
    ensures b == Next && currentPage != totalPages ==> Press(b, currentPage, totalPages) == Some(currentPage + 1)
    ensures b.PageButton? ==> Press(b, currentPage, totalPages) == Some(b.page)
  {
    PagesSpec(totalPages);
  }

  function IsActive(currentPage: int): nat -> bool
  {
    p => p == currentPage
  }

  /** The pages `start` to `start + n - 1`. */
  function Run(n: nat, start: nat): (r: seq<nat>)
    ensures |r| == n && forall i :: 0 <= i < n ==> r[i] == start + i
  {
    if n == 0 then [] else [start] + Run(n - 1, start + 1)
  }

  lemma {:induction false} CountRun(n: nat, start: nat, currentPage: int)
    ensures Count(Run(n, start), IsActive(currentPage)) == if start <= currentPage < start + n then 1 else 0
  {
    if n > 0 {
      CountRun(n - 1, start + 1, currentPage);
      assert Run(n, start)[1..] == Run(n - 1, start + 1);
    }
  }

  /** Exactly one button is marked active when the current page is in range, and none otherwise. */
  lemma OneActivePage(currentPage: int, totalPages: nat)
    ensures Count(Pages(totalPages), IsActive(currentPage)) == if 1 <= currentPage <= totalPages then 1 else 0
  {
    assert Pages(totalPages) == Run(totalPages, 1);
    CountRun(totalPages, 1, currentPage);
  }
}
