/** Paging through a list without counting it: each page fetches one row more than it shows to
    learn whether there is a next page. Arithmetic is that of Java's int. */
module Paging {
  import opened JavaText

  /** The value an int computation is left with. */
  function ToInt(x: int): (r: int)
    ensures -0x8000_0000 <= r <= MAX_INT
    ensures -0x8000_0000 <= x <= MAX_INT ==> r == x
    ensures (x - r) % 0x1_0000_0000 == 0
  {
    (x + 0x8000_0000) % 0x1_0000_0000 - 0x8000_0000
  }

  /** What a data provider over fixed rows returns; a negative argument selects nothing. */
  function Load<T>(rows: seq<T>, offset: int, limit: int): seq<T> {
    if offset < 0 || limit < 0 || offset >= |rows| then []
    else if offset + limit >= |rows| then rows[offset..]
    else rows[offset..offset + limit]
  }

  /** A page of the provider: as many rows as there are from the offset on, up to the limit. */
  lemma LoadExactly<T>(rows: seq<T>, offset: nat, limit: nat)
    ensures (|Load(rows, offset, limit)|
             == if offset >= |rows| then 0 else if |rows| - offset <= limit then |rows| - offset else limit)
    ensures forall k :: 0 <= k < |Load(rows, offset, limit)| ==> Load(rows, offset, limit)[k] == rows[offset + k]
  {
  }

  // ---- Pages of a fixed list

  /** Within these bounds no int computation of the view wraps around. */
  predicate InBounds(total: nat, perPage: int) {
    total <= MAX_INT && 1 <= perPage < MAX_INT
  }

  predicate OnPage(total: nat, perPage: nat, page: nat) {
    page == 0 || page * perPage < total
  }

  predicate HasNext(total: nat, perPage: nat, page: nat) {
    (page + 1) * perPage < total
  }

  /** The rows that belong on a page. */
  function PageRows<T>(rows: seq<T>, perPage: nat, page: nat): seq<T>
    requires OnPage(|rows|, perPage, page)
  {
    if HasNext(|rows|, perPage, page) then
      Distribute(page, perPage);
      rows[page * perPage..(page + 1) * perPage]
    else rows[page * perPage..]
  }

  /** Row k of a page is row page * perPage + k of the list, and no page has more than perPage. */
  lemma PageRowsExactly<T>(rows: seq<T>, perPage: nat, page: nat)
    requires perPage >= 1 && OnPage(|rows|, perPage, page)
    ensures var left := |rows| - page * perPage;
            && |PageRows(rows, perPage, page)| == (if left <= perPage then left else perPage)
            && forall k :: 0 <= k < |PageRows(rows, perPage, page)| ==> PageRows(rows, perPage, page)[k] == rows[page * perPage + k]
  {
    Distribute(page, perPage);
  }

  lemma Distribute(page: int, perPage: int)
    ensures (page + 1) * perPage == page * perPage + perPage
  {
  }

  lemma ProductBound(page: nat, perPage: nat)
    requires perPage >= 1
    ensures page <= page * perPage
  {
  }

  /** All rows shown while following the next link as long as it is enabled. */
  function Follow<T>(rows: seq<T>, perPage: nat, page: nat): seq<T>
    requires perPage >= 1 && OnPage(|rows|, perPage, page)
    decreases |rows| - page * perPage
  {
    Distribute(page, perPage);
    PageRows(rows, perPage, page) + (if HasNext(|rows|, perPage, page) then Follow(rows, perPage, page + 1) else [])
  }

  /** What following the next link shows after a page. */
  function Following<T>(rows: seq<T>, perPage: nat, page: nat): seq<T>
    requires perPage >= 1 && OnPage(|rows|, perPage, page)
  {
    if HasNext(|rows|, perPage, page) then Follow(rows, perPage, page + 1) else []
  }

  lemma FollowStarts<T>(rows: seq<T>, perPage: nat, page: nat)
    requires perPage >= 1 && OnPage(|rows|, perPage, page)
    ensures Follow(rows, perPage, page) == PageRows(rows, perPage, page) + Following(rows, perPage, page)
  {
  }

  /** Going to the next page shows it, and what is left to show gets less. */
  lemma FollowStep<T>(rows: seq<T>, perPage: nat, page: nat, shown: seq<T>)
    requires perPage >= 1 && OnPage(|rows|, perPage, page) && HasNext(|rows|, perPage, page)
    ensures OnPage(|rows|, perPage, page + 1)
    ensures (shown + Following(rows, perPage, page)
             == shown + PageRows(rows, perPage, page + 1) + Following(rows, perPage, page + 1))
    ensures Left(|rows|, perPage, page + 1) < Left(|rows|, perPage, page)
  {
    FollowStarts(rows, perPage, page + 1);
    Associative(shown, PageRows(rows, perPage, page + 1), Following(rows, perPage, page + 1));
    Distribute(page, perPage);
  }

  /** How many rows there are from a page on. */
  function Left(total: nat, perPage: nat, page: nat): nat {
    if page * perPage < total then total - page * perPage else 0
  }

  lemma {:induction false} FollowShowsTheRest<T>(rows: seq<T>, perPage: nat, page: nat)
    requires perPage >= 1 && OnPage(|rows|, perPage, page)
    ensures page * perPage <= |rows| && Follow(rows, perPage, page) == rows[page * perPage..]
    decreases |rows| - page * perPage
  {
    Distribute(page, perPage);
    if HasNext(|rows|, perPage, page) {
      FollowShowsTheRest(rows, perPage, page + 1);
      RestSplits(rows, page * perPage, (page + 1) * perPage);
    }
  }

  lemma RestSplits<T>(rows: seq<T>, from: nat, to: nat)
    requires from <= to <= |rows|
    ensures rows[from..] == rows[from..to] + rows[to..]
  {
  }

  /** Following next from the first page ends, and shows every row once and in order. */
  lemma PagesCoverAllRows<T>(rows: seq<T>, perPage: nat)
    requires perPage >= 1
    ensures Follow(rows, perPage, 0) == rows
  {
    FollowShowsTheRest(rows, perPage, 0);
    assert rows[0 * perPage..] == rows;
  }

  datatype Click = NextPage | PreviousPage | FirstPage

  /** Where a click leads; the links are disabled where there is nothing to go to. */
  function Clicked(total: nat, perPage: nat, page: nat, click: Click): nat {
    match click
    case NextPage => if HasNext(total, perPage, page) then page + 1 else page
    case PreviousPage => if page > 0 then page - 1 else page
    case FirstPage => 0
  }

  function ClickedAll(total: nat, perPage: nat, page: nat, clicks: seq<Click>): nat
    decreases clicks
  {
    if clicks == [] then page else ClickedAll(total, perPage, Clicked(total, perPage, page, clicks[0]), clicks[1..])
  }

  lemma ClickStaysOnPage(total: nat, perPage: nat, page: nat, click: Click)
    requires OnPage(total, perPage, page)
    ensures OnPage(total, perPage, Clicked(total, perPage, page, click))
  {
    if page > 0 { Distribute(page - 1, perPage); }
  }

  /** No click sequence leaves the pages of the list. */
  lemma {:induction false} ClicksStayOnPage(total: nat, perPage: nat, page: nat, clicks: seq<Click>)
    requires OnPage(total, perPage, page)
    ensures OnPage(total, perPage, ClickedAll(total, perPage, page, clicks))
    decreases clicks
  {
    if clicks != [] {
      ClickStaysOnPage(total, perPage, page, clicks[0]);
      ClicksStayOnPage(total, perPage, Clicked(total, perPage, page, clicks[0]), clicks[1..]);
    }
  }

  /** What one fetch of a page returns: its rows, and one more exactly when there is a next page. */
  lemma FetchTellsNext<T>(rows: seq<T>, perPage: nat, page: nat)
    requires perPage >= 1 && OnPage(|rows|, perPage, page)
    ensures var fetched := Load(rows, page * perPage, perPage + 1);
            && (|fetched| > perPage <==> HasNext(|rows|, perPage, page))
            && |fetched| <= perPage + 1
            && PageRows(rows, perPage, page) == (if |fetched| <= perPage then fetched else fetched[..perPage])
  {
    Distribute(page, perPage);
  }

  lemma FirstPageIfEmpty(perPage: nat, page: nat)
    requires perPage >= 1 && OnPage(0, perPage, page)
    ensures page == 0
  {
    ProductBound(page, perPage);
  }

  lemma NoWrapAround(total: nat, perPage: int, page: nat)
    requires InBounds(total, perPage) && OnPage(total, perPage, page)
    ensures ToInt(page * perPage) == page * perPage && ToInt(perPage + 1) == perPage + 1
    ensures total > 0 ==> ToInt(page * perPage + 1) == page * perPage + 1
    ensures HasNext(total, perPage, page) ==> ToInt(page + 1) == page + 1
  {
    ProductBound(page, perPage);
    Distribute(page, perPage);
    ProductBound(page + 1, perPage);
  }

  /** The page a click on an enabled link computes is the one it should lead to. */
  lemma ClickLeadsThere(total: nat, perPage: int, page: nat, click: Click)
    requires InBounds(total, perPage) && OnPage(total, perPage, page)
    requires if click.NextPage? then HasNext(total, perPage, page) else page > 0
    ensures var target := match click case NextPage => ToInt(page + 1) case PreviousPage => ToInt(page - 1) case FirstPage => 0;
            target == Clicked(total, perPage, page, click) && OnPage(total, perPage, target)
  {
    NoWrapAround(total, perPage, page);
    ProductBound(page, perPage);
    ClickStaysOnPage(total, perPage, page, click);
  }

  /** The bound on the page size is sharp: with the largest int the fetch asks for a negative
      number of rows and nothing is ever shown. */
  lemma LargestPageSizeShowsNothing<T>(rows: seq<T>, perPage: int)
    requires 1 <= perPage <= MAX_INT && rows != []
    ensures Load(rows, 0, ToInt(perPage + 1)) == [] <==> perPage == MAX_INT
  {
  }

  // ---- The view

  /** Iterates over the fetched rows up to the page size. */
  class ModelIterator<T> {
    const items: seq<T>
    const max: int
    var index: int

    constructor (collection: seq<T>, count: int)
      ensures items == collection && max == count && index == 0
    {
      items, max, index := collection, count, 0;
    }

    predicate HasNextItem()
      reads this
    {
      0 <= index < |items| && index < max
    }

    method NextItem() returns (item: T)
      requires HasNextItem()
      modifies this
      ensures item == items[old(index)] && index == old(index) + 1
    {
      item := items[index];
      index := index + 1;
    }
  }

  class UncountablyPageableListView<T> {
    /** What the data provider pages through. */
    const rows: seq<T>
    var currentPage: int
    var itemsPerPage: int
    var hasNextPage: bool
    var itemsFetched: int

    ghost predicate Valid()
      reads this
    {
      InBounds(|rows|, itemsPerPage) && currentPage >= 0 && OnPage(|rows|, itemsPerPage, currentPage)
    }

    /** The fields tell what was fetched for the current page. */
    ghost predicate Rendered()
      requires Valid()
      reads this
    {
      && itemsFetched == |Load(rows, currentPage * itemsPerPage, itemsPerPage + 1)|
      && (hasNextPage <==> HasNext(|rows|, itemsPerPage, currentPage))
    }

    constructor (rows: seq<T>, itemsPerPage: int)
      requires InBounds(|rows|, itemsPerPage)
      ensures Valid() && this.rows == rows && this.itemsPerPage == itemsPerPage
      ensures currentPage == 0 && itemsFetched == 0 && !hasNextPage
    {
      this.rows, this.itemsPerPage := rows, itemsPerPage;
      currentPage, hasNextPage, itemsFetched := 0, false, 0;
    }

    method GetItemModels() returns (models: ModelIterator<T>)
      requires Valid()
      modifies `itemsFetched, `hasNextPage
      ensures Valid() && Rendered() && fresh(models)
      ensures models.items == Load(rows, currentPage * itemsPerPage, itemsPerPage + 1)
      ensures models.max == itemsPerPage && models.index == 0
    {
      NoWrapAround(|rows|, itemsPerPage, currentPage);
      FetchTellsNext(rows, itemsPerPage, currentPage);
      var offset := ToInt(currentPage * itemsPerPage);
      var collection := Load(rows, offset, ToInt(itemsPerPage + 1));
      itemsFetched := |collection|;
      hasNextPage := ToInt(itemsFetched - itemsPerPage) > 0;
      models := new ModelIterator<T>(collection, itemsPerPage);
    }

    /** Rendering shows what the iterator yields: the rows of the current page. */
    method Render() returns (shown: seq<T>)
      requires Valid()
      modifies `itemsFetched, `hasNextPage
      ensures Valid() && Rendered()
      ensures shown == PageRows(rows, itemsPerPage, currentPage)
    {
      var models := GetItemModels();
      FetchTellsNext(rows, itemsPerPage, currentPage);
      shown := [];
      while models.HasNextItem()
        invariant 0 <= models.index <= |models.items| && models.index <= models.max
        invariant shown == models.items[..models.index]
        modifies models
        decreases |models.items| - models.index
      {
        var item := models.NextItem();
        shown := shown + [item];
      }
    }

    method SetCurrentPage(page: int)
      modifies `currentPage
      ensures currentPage == page
    {
      currentPage := page;
    }

    function GetFromRow(): int
      reads this
    {
      ToInt(currentPage * itemsPerPage + 1)
    }

    function GetToRow(): int
      reads this
    {
      ToInt(GetFromRow() - 1 + if itemsFetched <= itemsPerPage then itemsFetched else itemsPerPage)
    }

    predicate IsEmpty()
      reads this
    {
      !(GetToRow() > 0)
    }

    /** The row numbers on display are those of the rows on display; rows 1 to 0 are shown when
        there are none. */
    lemma RowNumbersAreRight()
      requires Valid() && Rendered()
      ensures 1 <= GetFromRow() <= GetToRow() + 1 <= |rows| + 1
      ensures rows[GetFromRow() - 1..GetToRow()] == PageRows(rows, itemsPerPage, currentPage)
      ensures GetFromRow() <= GetToRow() <==> rows != []
    {
      NoWrapAround(|rows|, itemsPerPage, currentPage);
      FetchTellsNext(rows, itemsPerPage, currentPage);
      Distribute(currentPage, itemsPerPage);
      if rows == [] { FirstPageIfEmpty(itemsPerPage, currentPage); }
    }

    /** Once a page has been fetched, the view is empty exactly when there are no rows. */
    lemma EmptyIffNoRows()
      requires Valid() && Rendered()
      ensures IsEmpty() <==> rows == []
    {
      RowNumbersAreRight();
      if rows == [] { FirstPageIfEmpty(itemsPerPage, currentPage); }
    }

    /** Before anything has been fetched the first page counts as empty, whatever the rows. */
    lemma EmptyIffNothingFetched()
      requires Valid() && currentPage == 0 && 0 <= itemsFetched <= MAX_INT
      ensures IsEmpty() <==> itemsFetched == 0
    {
    }
  }

  class UncountablyPageableNavigator<T> {
    const pageable: UncountablyPageableListView<T>

    ghost predicate Valid()
      reads pageable
    {
      pageable.Valid() && pageable.Rendered()
    }

    constructor (aPageable: UncountablyPageableListView<T>)
      ensures pageable == aPageable
    {
      pageable := aPageable;
    }

    predicate IsVisible()
      reads pageable
    {
      !pageable.IsEmpty()
    }

    /** After a fetch the navigator is shown exactly when there is something to navigate. */
    lemma VisibleIffRows()
      requires Valid()
      ensures IsVisible() <==> pageable.rows != []
    {
      pageable.EmptyIffNoRows();
    }

    predicate IsEnabled(click: Click)
      reads pageable
    {
      match click
      case NextPage => pageable.hasNextPage
      case PreviousPage => pageable.currentPage > 0
      case FirstPage => pageable.currentPage > 0
    }

    /** After a fetch the next link is enabled exactly when there are rows beyond the page, and the
        others exactly when the page is not the first. */
    lemma EnabledExactly(click: Click)
      requires Valid()
      ensures (IsEnabled(click)
               <==> if click == NextPage then (pageable.currentPage + 1) * pageable.itemsPerPage < |pageable.rows|
                    else pageable.currentPage != 0)
    {
    }

    method OnClick(click: Click)
      requires Valid() && IsEnabled(click)
      modifies pageable`currentPage
      ensures pageable.Valid()
      ensures click == NextPage ==> pageable.currentPage == old(pageable.currentPage) + 1
      ensures click == PreviousPage ==> pageable.currentPage == old(pageable.currentPage) - 1
      ensures click == FirstPage ==> pageable.currentPage == 0
      ensures pageable.currentPage == Clicked(|pageable.rows|, pageable.itemsPerPage, old(pageable.currentPage), click)
    {
      ClickLeadsThere(|pageable.rows|, pageable.itemsPerPage, pageable.currentPage, click);
      match click
      case NextPage => pageable.SetCurrentPage(ToInt(pageable.currentPage + 1));
      case PreviousPage => pageable.SetCurrentPage(ToInt(pageable.currentPage - 1));
      case FirstPage => pageable.SetCurrentPage(0);
    }

    /** A click on a disabled link does nothing; after any other the page is rendered anew. */
    method ClickAndRender(click: Click) returns (shown: seq<T>)
      requires Valid()
      modifies pageable
      ensures Valid() && pageable.itemsPerPage == old(pageable.itemsPerPage)
      ensures !old(IsEnabled(click)) ==> pageable.currentPage == old(pageable.currentPage)
      ensures pageable.currentPage == Clicked(|pageable.rows|, pageable.itemsPerPage, old(pageable.currentPage), click)
      ensures shown == PageRows(pageable.rows, pageable.itemsPerPage, pageable.currentPage)
    {
      if IsEnabled(click) {
        OnClick(click);
      }
      shown := pageable.Render();
    }

    /** Clicking next from the first page on, as long as the link is enabled, ends and shows all
        rows, each once and in order. */
    method ShowAll() returns (shown: seq<T>)
      requires pageable.Valid() && pageable.currentPage == 0
      modifies pageable
      ensures shown == pageable.rows
      ensures Valid() && !IsEnabled(NextPage)
    {
      ghost var rows, perPage, page := pageable.rows, pageable.itemsPerPage, 0;
      PagesCoverAllRows(rows, perPage);
      FollowStarts(rows, perPage, 0);
      shown := pageable.Render();
      while IsEnabled(NextPage)
        invariant Valid() && pageable.itemsPerPage == perPage && pageable.currentPage == page
        invariant OnPage(|rows|, perPage, page) && (IsEnabled(NextPage) <==> HasNext(|rows|, perPage, page))
        invariant shown + Following(rows, perPage, page) == rows
        decreases Left(|rows|, perPage, page)
      {
        FollowStep(rows, perPage, page, shown);
        var next := ClickAndRender(NextPage);
        shown, page := shown + next, page + 1;
      }
    }
  }
}
