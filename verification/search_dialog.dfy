/**
 * The search dialog's state (apps/web/src/components/docs/search-dialog.tsx):
 * the query, the results shown for it and the highlighted row. Navigation
 * (`window.location.href`) is recorded in `location`, the dialog's
 * `onOpenChange(false)` in `open`. The ids the full-text index returns for a
 * query arrive as the parameter `hits`, as in `SearchIndex.Search`.
 */
module SearchDialog {
  import opened Wrappers
  import opened Types
  import opened Search
  import opened BasePath

  /** The shortest query the dialog searches for. */
  const MinQueryLength := 2

  /** ArrowDown: one row further, but never past the last result. */
  function SelectNext(selected: int, count: nat): (r: int)
    ensures selected < count - 1 ==> r == selected + 1
    ensures selected >= count - 1 ==> r == selected
  {
    if selected < count - 1 then selected + 1 else selected
  }

  /** ArrowUp: one row back, but never below the first. */
  function SelectPrevious(selected: int): (r: int)
    ensures r >= 0
    ensures selected > 0 ==> r == selected - 1
    ensures selected <= 0 ==> r == 0
  {
    if selected > 0 then selected - 1 else 0
  }

  /** Repeated ArrowDown presses stop at the last result and never leave the list. */
  lemma {:induction false} SelectNextStaysInList(selected: int, count: nat, presses: nat)
    requires 0 <= selected < count
    ensures 0 <= Presses(selected, count, presses) < count
    ensures Presses(selected, count, presses) == if selected + presses < count then selected + presses else count - 1
  {
    if presses > 0 {
      SelectNextStaysInList(selected, count, presses - 1);
    }
  }

  function Presses(selected: int, count: nat, presses: nat): int {
    if presses == 0 then selected else SelectNext(Presses(selected, count, presses - 1), count)
  }

  /** With no results ArrowDown leaves the selection alone. */
  lemma SelectNextWithoutResults(selected: int)
    requires selected >= 0
    ensures SelectNext(selected, 0) == selected
  {
  }

  class Dialog {
    var query: string
    var results: seq<SearchResult>
    var selectedIndex: int
    var open: bool
    var location: Option<string>
    const index: SearchIndex

    /** Results are only ever shown for a query the dialog searched for, and the selection is never negative. */
    predicate Valid()
      reads this
    {
      (|query| < MinQueryLength ==> results == []) && selectedIndex >= 0
    }

    constructor(index: SearchIndex, open: bool)
      ensures query == "" && results == [] && selectedIndex == 0 && this.open == open && location == None
      ensures this.index == index
      ensures Valid()
    {
      query := "";
      results := [];
      selectedIndex := 0;
      this.open := open;
      location := None;
      this.index := index;
    }

    /**
     * `setQuery` and the effect it triggers: a changed query of at least two
     * characters (untrimmed) is searched and the selection reset; a shorter
     * one clears the results and leaves the selection as it was. Setting the
     * same query again changes nothing.
     */
    method SetQuery(q: string, hits: seq<string>)
      requires |hits| <= SearchLimit
      modifies this
      ensures query == q && open == old(open) && location == old(location)
      ensures q == old(query) ==> results == old(results) && selectedIndex == old(selectedIndex)
      ensures q != old(query) && |q| >= MinQueryLength ==>
        results == (if Blank(q) then [] else Collect(index.pages, q, hits)) && selectedIndex == 0
      ensures q != old(query) && |q| < MinQueryLength ==> results == [] && selectedIndex == old(selectedIndex)
      ensures old(Valid()) ==> Valid()
    {
      if q == query {
        return;
      }
      query := q;
      if |q| >= MinQueryLength {
        var searchResults := index.Search(q, hits);
        results := searchResults;
        selectedIndex := 0;
      } else {
        results := [];
      }
    }

    /** `setQuery("")`: the query empties, and the results with it unless it was already empty. */
    method ClearQuery()
      modifies this
      ensures query == "" && results == (if old(query) == "" then old(results) else [])
      ensures selectedIndex == old(selectedIndex) && open == old(open) && location == old(location)
      ensures old(Valid()) ==> Valid()
    {
      SetQuery("", []);
    }

    /** ArrowDown. */
    method ArrowDown()
      modifies this
      ensures selectedIndex == SelectNext(old(selectedIndex), |results|)
      ensures query == old(query) && results == old(results) && open == old(open) && location == old(location)
      ensures old(Valid()) ==> Valid()
    {
      selectedIndex := SelectNext(selectedIndex, |results|);
    }

    /** ArrowUp. */
    method ArrowUp()
      modifies this
      ensures selectedIndex == SelectPrevious(old(selectedIndex))
      ensures query == old(query) && results == old(results) && open == old(open) && location == old(location)
      ensures old(Valid()) ==> Valid()
    {
      selectedIndex := SelectPrevious(selectedIndex);
    }

    /**
     * Enter: with a result at the selection, go to its route under the base,
     * close the dialog and clear the query (which clears the results); with
     * none, for instance a selection left over from a longer list, nothing
     * happens.
     */
    method Enter(envBase: Option<string>)
      requires Valid()
      modifies this
      ensures 0 <= old(selectedIndex) < |old(results)| ==>
        location == Some(WithBasePath(envBase, old(results)[old(selectedIndex)].routePath))
        && !open && query == "" && results == [] && selectedIndex == old(selectedIndex)
      ensures !(0 <= old(selectedIndex) < |old(results)|) ==>
        location == old(location) && open == old(open) && query == old(query) && results == old(results)
        && selectedIndex == old(selectedIndex)
      ensures Valid()
    {
      if 0 <= selectedIndex < |results| {
        var result := results[selectedIndex];
        location := Some(WithBasePath(envBase, result.routePath));
        open := false;
        ClearQuery();
      }
    }

    /** `onMouseEnter` on the result at row `i`: that row becomes the selection, which Enter then opens. */
    method Hover(i: nat)
      requires i < |results|
      modifies this
      ensures selectedIndex == i
      ensures query == old(query) && results == old(results) && open == old(open) && location == old(location)
      ensures old(Valid()) ==> Valid()
    {
      selectedIndex := i;
    }

    /** Escape closes the dialog. */
    method Escape()
      modifies this
      ensures !open
      ensures query == old(query) && results == old(results) && selectedIndex == old(selectedIndex)
      ensures location == old(location)
    {
      open := false;
    }

    /** `handleSelect`: go to the chosen result, close the dialog and clear the query. */
    method Select(result: SearchResult, envBase: Option<string>)
      modifies this
      ensures location == Some(WithBasePath(envBase, result.routePath))
      ensures !open && query == "" && results == (if old(query) == "" then old(results) else [])
      ensures selectedIndex == old(selectedIndex)
      ensures old(Valid()) ==> Valid()
    {
      location := Some(WithBasePath(envBase, result.routePath));
      open := false;
      ClearQuery();
    }
  }
}
