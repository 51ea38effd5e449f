/** The users page (src/renderer/pages/users/index.tsx): page bounds, the sort
    toggle, the sort icon, the search box and the pagination strip. */
module UsersPage {

  /** One entry of the `sorting` list sent with the users query. */
  datatype SortKey = SortKey(id: string, desc: bool)

  /** The page's own state: the current page, the page count reported by the
      last query, the sorting list and the search text. */
  datatype PageState = PageState(page: int, maxPages: int, sorting: seq<SortKey>, search: string)

  /** The state the page starts in. */
  const Initial := PageState(1, 1, [SortKey("createdAt", false)], "")

  predicate InRange(page: int, maxPages: int) {
    1 <= page <= maxPages
  }

  /** `handlePageChange`: only a page inside `[1, maxPages]` is accepted. */
  function HandlePageChange(s: PageState, newPage: int): (r: PageState)
    ensures InRange(newPage, s.maxPages) ==> r == s.(page := newPage)
    ensures !InRange(newPage, s.maxPages) ==> r == s
  {
    if 1 <= newPage && newPage <= s.maxPages then s.(page := newPage) else s
  }

  /** Whatever page is asked for, a page that was in range stays in range. */
  lemma PageChangeKeepsRange(s: PageState, newPage: int)
    requires InRange(s.page, s.maxPages)
    ensures InRange(HandlePageChange(s, newPage).page, s.maxPages)
    ensures HandlePageChange(s, newPage).maxPages == s.maxPages
  {
  }

  /** `handleSort`: back to page 1, and a one-entry sorting list on `field`;
      the same field flips its direction, a new field starts descending. */
  function HandleSort(s: PageState, field: string): (r: PageState)
    ensures r.page == 1 && r.maxPages == s.maxPages && r.search == s.search
    ensures |r.sorting| == 1 && r.sorting[0].id == field
    ensures |s.sorting| > 0 && s.sorting[0].id == field ==> r.sorting[0].desc == !s.sorting[0].desc
    ensures !(|s.sorting| > 0 && s.sorting[0].id == field) ==> r.sorting[0].desc
  {
    var next :=
      if |s.sorting| > 0 && s.sorting[0].id == field then SortKey(field, !s.sorting[0].desc)
      else SortKey(field, true);
    s.(page := 1, sorting := [next])
  }

  /** `isFieldSorted`. */
  predicate IsFieldSorted(sorting: seq<SortKey>, field: string) {
    |sorting| > 0 && sorting[0].id == field
  }

  /** Repeated clicks on one field alternate the direction: the second click
      flips the first, and the third returns to the first; the clicked field is
      the sorted one, no other is. */
  lemma SortClicksAlternate(s: PageState, field: string, other: string)
    requires other != field
    ensures HandleSort(HandleSort(s, field), field).sorting
         == [SortKey(field, !HandleSort(s, field).sorting[0].desc)]
    ensures HandleSort(HandleSort(HandleSort(s, field), field), field).sorting
         == HandleSort(s, field).sorting
    ensures IsFieldSorted(HandleSort(s, field).sorting, field)
    ensures !IsFieldSorted(HandleSort(s, field).sorting, other)
  {
  }

  /** The icon next to a column title. */
  datatype SortIcon = NoIcon | Down | Up

  /** `getSortIcon`: an icon only for the field heading the sorting list. */
  function GetSortIcon(sorting: seq<SortKey>, field: string): (r: SortIcon)
    ensures r == NoIcon <==> !IsFieldSorted(sorting, field)
    ensures r == Down <==> IsFieldSorted(sorting, field) && sorting[0].desc
    ensures r == Up <==> IsFieldSorted(sorting, field) && !sorting[0].desc
  {
    if |sorting| == 0 || sorting[0].id != field then NoIcon
    else if sorting[0].desc then Down
    else Up
  }

  /** The page starts on page 1 of 1, sorted ascending by creation date: the
      `createdAt` column shows the up arrow, and its first click turns the
      order to descending. */
  lemma InitialState()
    ensures InRange(Initial.page, Initial.maxPages)
    ensures GetSortIcon(Initial.sorting, "createdAt") == Up
    ensures GetSortIcon(Initial.sorting, "username") == NoIcon
    ensures HandleSort(Initial, "createdAt").sorting == [SortKey("createdAt", true)]
  {
  }

  /** The search box's `onChange`: new text, back to page 1. */
  function OnSearchChange(s: PageState, text: string): (r: PageState)
    ensures r.search == text && r.page == 1
    ensures r.maxPages == s.maxPages && r.sorting == s.sorting
  {
    s.(search := text, page := 1)
  }

  // ---------------------------------------------------------------------------
  // The pagination strip

  const MaxPageButtons := 2

  /** One numbered button. */
  datatype PageButton = PageButton(number: int, active: bool)

  /** What `renderPagination` draws, left to right. */
  datatype Pagination = Pagination(
    startPage: int,
    endPage: int,
    backDisabled: bool,
    first: bool,           // the "1" button
    leadingEllipsis: bool,
    pages: seq<PageButton>,
    trailingEllipsis: bool,
    last: bool,            // the `maxPages` button
    nextDisabled: bool)

  /** `renderPagination`: a window of at most two numbered buttons around the
      current page, shifted left when it would pass the last page. */
  method RenderPagination(page: int, maxPages: int) returns (v: Pagination)
    ensures v.startPage >= 1 && v.endPage <= maxPages
    ensures |v.pages| <= MaxPageButtons
    ensures |v.pages| == if v.endPage >= v.startPage then v.endPage - v.startPage + 1 else 0
    ensures forall k :: 0 <= k < |v.pages| ==>
      v.pages[k].number == v.startPage + k && (v.pages[k].active <==> v.startPage + k == page)
    // The window is as wide as the page count allows.
    ensures maxPages >= MaxPageButtons ==> |v.pages| == MaxPageButtons
    ensures maxPages == 1 ==> v.pages == [PageButton(1, page == 1)]
    // A page in range is shown, and is the only active button.
    ensures InRange(page, maxPages) ==>
      v.startPage <= page <= v.endPage && exists k :: 0 <= k < |v.pages| && v.pages[k].active
    ensures !(v.startPage <= page <= v.endPage) ==> forall k :: 0 <= k < |v.pages| ==> !v.pages[k].active
    ensures v.first <==> v.startPage > 1
    ensures v.leadingEllipsis <==> v.startPage > 2
    ensures v.last <==> v.endPage < maxPages
    ensures v.trailingEllipsis <==> v.endPage < maxPages - 1
    ensures v.backDisabled <==> page == 1
    ensures v.nextDisabled <==> page == maxPages
  {
    var startPage := Max(1, page - MaxPageButtons / 2);
    var endPage := startPage + MaxPageButtons - 1;
    if endPage > maxPages {
      endPage := maxPages;
      startPage := Max(1, endPage - MaxPageButtons + 1);
    }
    var pages: seq<PageButton> := [];
    var i := startPage;
    while i <= endPage
      invariant startPage <= i
      invariant endPage >= startPage ==> i <= endPage + 1
      invariant endPage < startPage ==> i == startPage
      invariant |pages| == i - startPage
      invariant forall k :: 0 <= k < |pages| ==>
        pages[k] == PageButton(startPage + k, startPage + k == page)
    {
      pages := pages + [PageButton(i, i == page)];
      i := i + 1;
    }
    if InRange(page, maxPages) {
      assert pages[page - startPage].active;
    }
    v := Pagination(startPage, endPage, page == 1, startPage > 1, startPage > 2, pages,
                    endPage < maxPages - 1, endPage < maxPages, page == maxPages);
  }

  function Max(a: int, b: int): int {
    if a >= b then a else b
  }
}
