/**
 * The script's module-level state (`allData`, `filteredData`,
 * `currentPage`) and the handlers that change it: the end of the fetch,
 * `filterAndDisplayData` (run on every input event), the previous/next
 * click handlers and `displayCards`. The values of the two text inputs are
 * passed in as parameters; what would be written into the page is returned
 * as a `Display`.
 */
module Directory {
  import opened Text
  import opened Filtering
  import opened Pagination
  import opened View
  import opened Suggestions

  datatype Option<T> = None | Some(value: T)

  class App {
    /** The dataset as loaded; empty until the fetch completes. */
    var allData: seq<Record>
    /** The records that passed the last filter pass, in dataset order. */
    var filteredData: seq<Record>
    /** The page shown, numbered from 1. */
    var currentPage: int
    /** The options of the selector's suggestion list. */
    var suggestions: seq<string>
    /** The text of the header label of the download area. */
    var header: string

    /** The normalised selector and query of the last filter pass. */
    ghost var faculty: string
    ghost var query: string

    /**
     * The state the handlers keep: the filtered list is what the last
     * criteria select from the dataset, and the page is one the navigation
     * can reach over it.
     */
    ghost predicate Valid()
      reads this
    {
      filteredData == Filtered(allData, faculty, query) &&
      Reachable(currentPage, |filteredData|)
    }

    /** The state before the dataset arrives: nothing loaded, page 1. */
    constructor ()
      ensures Valid()
      ensures allData == [] && filteredData == [] && currentPage == 1 && suggestions == []
      ensures header == DefaultHeader
    {
      allData := [];
      filteredData := [];
      currentPage := 1;
      suggestions := [];
      header := DefaultHeader;
      faculty, query := [], [];
    }

    /**
     * `displayCards(filteredData)`: builds the cards of the current page one
     * record at a time and decides the display state and the button flags.
     */
    method DisplayCards() returns (d: Display)
      requires Valid()
      ensures d == Render(filteredData, currentPage)
      ensures d.NoResults? <==> filteredData == []
    {
      var start := (currentPage - 1) * PageSize;
      var end := start + PageSize;
      var pageData := Page(filteredData, currentPage);
      if |pageData| == 0 {
        d := NoResults;
      } else {
        var cards: seq<Card> := [];
        var i := 0;
        while i < |pageData|
          invariant 0 <= i <= |pageData|
          invariant |cards| == i
          invariant forall k :: 0 <= k < i ==> cards[k] == CardOf(pageData[k])
        {
          cards := cards + [CardOf(pageData[i])];
          i := i + 1;
        }
        d := Populated(cards, currentPage == 1, end >= |filteredData|);
      }
      if filteredData != [] {
        ReachablePageNonEmpty(filteredData, currentPage);
      }
    }

    /**
     * `filterAndDisplayData()` with the current texts of the selector and
     * search inputs: sets the header, recomputes the filtered list from the
     * whole dataset, returns to page 1 and renders it.
     */
    method Filter(facultyRaw: string, searchRaw: string) returns (d: Display)
      modifies this
      ensures Valid()
      ensures faculty == Normalize(facultyRaw) && query == Normalize(searchRaw)
      ensures header == Header(facultyRaw)
      ensures filteredData == Filtered(allData, faculty, query)
      ensures currentPage == 1
      ensures allData == old(allData) && suggestions == old(suggestions)
      ensures d == Render(filteredData, currentPage)
    {
      var f := Normalize(facultyRaw);
      var q := Normalize(searchRaw);
      header := Header(facultyRaw);
      filteredData := Filtered(allData, f, q);
      faculty, query := f, q;
      currentPage := 1;
      FirstPageReachable(|filteredData|);
      d := DisplayCards();
    }

    /**
     * The end of a successful fetch: stores the dataset, fills the
     * suggestion list from it and runs a filter pass with the current input
     * texts.
     */
    method Load(data: seq<Record>, facultyRaw: string, searchRaw: string) returns (d: Display)
      modifies this
      ensures Valid()
      ensures allData == data
      ensures Sorted(suggestions) && Distinct(suggestions)
      ensures forall x :: x in suggestions <==> x in NameSet(data)
      ensures filteredData == Filtered(data, Normalize(facultyRaw), Normalize(searchRaw))
      ensures currentPage == 1 && header == Header(facultyRaw)
      ensures d == Render(filteredData, currentPage)
    {
      allData := data;
      suggestions := PopulateFacultyList(data);
      d := Filter(facultyRaw, searchRaw);
    }

    /**
     * The previous button's click handler: goes back one page and re-renders
     * when there is an earlier page; otherwise nothing happens.
     */
    method Prev() returns (shown: Option<Display>)
      requires Valid()
      modifies this`currentPage
      ensures Valid()
      ensures currentPage == PrevPage(old(currentPage))
      ensures shown.Some? <==> HasPrev(old(currentPage))
      ensures shown.Some? ==> shown.value == Render(filteredData, currentPage) && shown.value.Populated?
    {
      if currentPage > 1 {
        PrevPreservesReachable(currentPage, |filteredData|);
        currentPage := currentPage - 1;
        var d := DisplayCards();
        shown := Some(d);
      } else {
        shown := None;
      }
    }

    /**
     * The next button's click handler: goes on one page and re-renders when
     * records follow the current page; otherwise nothing happens.
     */
    method Next() returns (shown: Option<Display>)
      requires Valid()
      modifies this`currentPage
      ensures Valid()
      ensures currentPage == NextPage(old(currentPage), |filteredData|)
      ensures shown.Some? <==> HasNext(old(currentPage), |filteredData|)
      ensures shown.Some? ==> shown.value == Render(filteredData, currentPage) && shown.value.Populated?
    {
      if currentPage * PageSize < |filteredData| {
        NextPreservesReachable(currentPage, |filteredData|);
        currentPage := currentPage + 1;
        var d := DisplayCards();
        shown := Some(d);
      } else {
        shown := None;
      }
    }
  }

  /**
   * Each button's disabled flag on a rendered page is the negation of its
   * click handler's guard: a click on an enabled button moves, a click on a
   * disabled one does not.
   */
  lemma FlagsMatchGuards(data: seq<Record>, p: int)
    requires Reachable(p, |data|) && Render(data, p).Populated?
    ensures Render(data, p).prevDisabled <==> PrevPage(p) == p
    ensures Render(data, p).nextDisabled <==> NextPage(p, |data|) == p
  {
  }

  /** A session: load two pages' worth of records, then step forward and back. */
  method Session(data: seq<Record>)
    requires 20 < |data| <= 40
  {
    var app := new App();
    var d := app.Load(data, "", "");
    FilteredNoCriteria(data);
    assert app.filteredData == data;
    assert d.Populated? && d.prevDisabled && !d.nextDisabled;
    var moved := app.Next();
    assert moved.Some? && app.currentPage == 2;
    moved := app.Next();
    assert moved.None? && app.currentPage == 2;
    moved := app.Prev();
    assert moved.Some? && app.currentPage == 1;
  }
}
