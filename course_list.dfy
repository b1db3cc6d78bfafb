/** The list view (src/Components/courseList.ts): one page of listings,
    pagination over `page`, `limit` and `count` with clamping, the page-size
    and view selectors, and the set of listings whose contact was revealed
    since the last load. Network answers are inputs of the handlers. */
module CourseListComponent {
  import opened JsNumbers
  import opened Utils

  // ---------------------------------------------------------------------
  // Pagination arithmetic

  /** `Math.ceil(count / limit)`: the number of the last page. */
  function LastPage(count: nat, limit: int): (last: nat)
    requires limit > 0
    ensures last * limit >= count
    ensures last == 0 || (last - 1) * limit < count
  {
    (count + limit - 1) / limit
  }

  /** `Math.min(page + 1, Math.ceil(count / limit))` */
  function NextPageOf(page: int, count: nat, limit: int): (next: int)
    requires limit > 0
    ensures next <= LastPage(count, limit)
    ensures page < LastPage(count, limit) ==> next == page + 1
    ensures page >= LastPage(count, limit) ==> next == LastPage(count, limit)
  {
    if page + 1 <= LastPage(count, limit) then page + 1 else LastPage(count, limit)
  }

  /** `Math.max(page - 1, 1)` */
  function PrevPageOf(page: int): (prev: int)
    ensures prev >= 1
    ensures page > 1 ==> prev == page - 1
    ensures page <= 1 ==> prev == 1
  {
    if page - 1 >= 1 then page - 1 else 1
  }

  /** The Prev button is disabled exactly on page 1. */
  predicate PrevDisabledAt(page: int) {
    page == 1
  }

  /** The Next button is disabled from the last page on. */
  predicate NextDisabledAt(page: int, count: nat, limit: int)
    requires limit > 0
  {
    page >= LastPage(count, limit)
  }

  /** Pressing an enabled Next moves one page on and stays within the pages;
      pressing an enabled Prev moves one page back and stays at 1 or above. */
  lemma EnabledButtonsStep(page: int, count: nat, limit: int)
    requires limit > 0
    ensures !NextDisabledAt(page, count, limit) ==>
              NextPageOf(page, count, limit) == page + 1 &&
              page + 1 <= LastPage(count, limit)
    ensures page >= 1 && !PrevDisabledAt(page) ==>
              PrevPageOf(page) == page - 1 && page - 1 >= 1
  {
  }

  /** A page between 1 and the last page stays in that range under both
      Prev and Next. */
  lemma NavigationKeepsRange(page: int, count: nat, limit: int)
    requires limit > 0
    requires 1 <= page <= LastPage(count, limit)
    ensures 1 <= NextPageOf(page, count, limit) <= LastPage(count, limit)
    ensures 1 <= PrevPageOf(page) <= LastPage(count, limit)
  {
  }

  /** 25 listings, 10 per page: the last page is 3, Next on page 3 stays on
      3 and disables Next, Prev on page 1 stays on 1 and disables Prev. */
  lemma TwentyFiveByTen()
    ensures LastPage(25, 10) == 3
    ensures NextPageOf(3, 25, 10) == 3 && NextDisabledAt(3, 25, 10)
    ensures PrevPageOf(1) == 1 && PrevDisabledAt(1)
    ensures !NextDisabledAt(2, 25, 10) && NextPageOf(2, 25, 10) == 3
  {
  }

  // ---------------------------------------------------------------------
  // The component

  class CourseList {
    var js: seq<Item>
    var page: int
    var limit: int
    var view: string
    var count: nat
    var toggleSet: set<Item>

    /** The page size is positive (10 at first, then a selector value). */
    ghost predicate Valid()
      reads this
    {
      limit > 0
    }

    constructor ()
      ensures Valid()
      ensures js == [] && page == 1 && limit == 10 && view == "list"
      ensures count == 0 && toggleSet == {}
    {
      js := [];
      page := 1;
      limit := 10;
      view := "list";
      count := 0;
      toggleSet := {};
    }

    /** `isHidden(item)`: the contact of `item` is masked. */
    predicate IsHidden(item: Item)
      reads this
    {
      item !in toggleSet
    }

    /** The `?disabled` condition of the Prev button. */
    predicate PrevDisabled()
      reads this
    {
      PrevDisabledAt(page)
    }

    /** The `?disabled` condition of the Next button. */
    predicate NextDisabled()
      reads this
      requires Valid()
    {
      NextDisabledAt(page, count, limit)
    }

    /** `regContact(item)`: reveals the contact of `item` and of no other. */
    method RegContact(item: Item)
      modifies this
      ensures toggleSet == old(toggleSet) + {item}
      ensures !IsHidden(item)
      ensures forall other :: other != item ==> (IsHidden(other) <==> other !in old(toggleSet))
      ensures js == old(js) && page == old(page) && limit == old(limit)
      ensures view == old(view) && count == old(count)
    {
      toggleSet := toggleSet + {item};
    }

    /** `loadData`: asks for the current page; on an answer shows it and masks
        every contact again, on a failure keeps what was shown. */
    method LoadData(response: Response<seq<Item>>) returns (query: PageQuery)
      modifies this
      ensures query == PageQuery(page, limit)
      ensures page == old(page) && limit == old(limit)
      ensures view == old(view) && count == old(count)
      ensures response.Ok? ==> js == response.body && toggleSet == {}
      ensures response.Failed? ==> js == old(js) && toggleSet == old(toggleSet)
    {
      query := PageQuery(page, limit);
      match response
      case Ok(items) =>
        js := items;
        toggleSet := {};
      case Failed =>
    }

    /** `nextPage`: one page on, clamped to the last page, then a reload. */
    method NextPage(response: Response<seq<Item>>) returns (query: PageQuery)
      requires Valid()
      modifies this
      ensures Valid()
      ensures page == NextPageOf(old(page), count, limit)
      ensures !old(NextDisabled()) ==> page == old(page) + 1 && page <= LastPage(count, limit)
      ensures query == PageQuery(page, limit)
      ensures limit == old(limit) && view == old(view) && count == old(count)
      ensures response.Ok? ==> js == response.body && toggleSet == {}
      ensures response.Failed? ==> js == old(js) && toggleSet == old(toggleSet)
    {
      page := if page + 1 <= LastPage(count, limit) then page + 1 else LastPage(count, limit);
      query := LoadData(response);
    }

    /** `prevPage`: one page back, never below page 1, then a reload. */
    method PrevPage(response: Response<seq<Item>>) returns (query: PageQuery)
      requires Valid()
      modifies this
      ensures Valid()
      ensures page == PrevPageOf(old(page)) && page >= 1
      ensures old(page) >= 1 && !old(PrevDisabled()) ==> page == old(page) - 1 >= 1
      ensures query == PageQuery(page, limit)
      ensures limit == old(limit) && view == old(view) && count == old(count)
      ensures response.Ok? ==> js == response.body && toggleSet == {}
      ensures response.Failed? ==> js == old(js) && toggleSet == old(toggleSet)
    {
      page := if page - 1 >= 1 then page - 1 else 1;
      query := LoadData(response);
    }

    /** `handleInput`: a new page size restarts at page 1 and reloads; a view
        choice only switches the view; any other name changes nothing. */
    method HandleInput(name: string, value: string, response: Response<seq<Item>>)
      returns (query: Option<PageQuery>)
      requires Valid()
      requires name == "limit" ==> IsDecimal(value) && DecimalValue(value) > 0
      modifies this
      ensures Valid() && count == old(count)
      ensures name == "limit" ==>
        && limit == DecimalValue(value) && page == 1 && view == old(view)
        && query == Some(PageQuery(1, limit))
        && (response.Ok? ==> js == response.body && toggleSet == {})
        && (response.Failed? ==> js == old(js) && toggleSet == old(toggleSet))
      ensures name == "view" ==>
        && view == value && query == None
        && page == old(page) && limit == old(limit) && js == old(js) && toggleSet == old(toggleSet)
      ensures name != "limit" && name != "view" ==>
        && query == None && view == old(view)
        && page == old(page) && limit == old(limit) && js == old(js) && toggleSet == old(toggleSet)
    {
      if name == "limit" {
        limit := DecimalValue(value);
        page := 1;
        var q := LoadData(response);
        query := Some(q);
      } else if name == "view" {
        view := value;
        query := None;
      } else {
        query := None;
      }
    }

    /** `getCount`: the number of listings is the length of the full list on
        an answer, and stays as it was on a failure. */
    method GetCount(response: Response<seq<Item>>)
      modifies this
      ensures response.Ok? ==> count == |response.body|
      ensures response.Failed? ==> count == old(count)
      ensures js == old(js) && page == old(page) && limit == old(limit)
      ensures view == old(view) && toggleSet == old(toggleSet)
    {
      match response
      case Ok(all) => count := |all|;
      case Failed =>
    }

    /** Mounting: load the first page, then count the listings. */
    method ConnectedCallback(pageResponse: Response<seq<Item>>, allResponse: Response<seq<Item>>)
      returns (query: PageQuery)
      modifies this
      ensures query == PageQuery(old(page), old(limit))
      ensures page == old(page) && limit == old(limit) && view == old(view)
      ensures pageResponse.Ok? ==> js == pageResponse.body && toggleSet == {}
      ensures pageResponse.Failed? ==> js == old(js) && toggleSet == old(toggleSet)
      ensures allResponse.Ok? ==> count == |allResponse.body|
      ensures allResponse.Failed? ==> count == old(count)
    {
      query := LoadData(pageResponse);
      GetCount(allResponse);
    }
  }
}
