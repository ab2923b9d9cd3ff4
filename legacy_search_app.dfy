/**
 * The older search page's controller (`222search.js`): the same results
 * table as the current page, and an image viewer that steps through every
 * result with an image in table order, with a cursor `currentViewIndex`
 * into the list `viewableItems` taken when the viewer opens.
 */
module LegacySearchApp {
  import opened Wrappers
  import opened Collections
  import opened Merge
  import opened Query
  import opened Grouping
  import opened ResultsTable

  /**
   * The viewer modal's content: title, image, caption and download link,
   * the `index / total` counter when it is shown, and the two buttons.
   */
  datatype Viewer = Viewer(
    title: string,
    imageSrc: string,
    info: string,
    downloadHref: string,
    counter: Option<(int, int)>,
    prevDisabled: bool,
    nextDisabled: bool)

  /** The counter: shown, 1-based, when the list is not empty and the cursor is not -1. */
  function Counter(index: int, total: nat): (c: Option<(int, int)>)
    ensures c.Some? <==> total > 0 && index >= 0
    ensures c.Some? ==> c.value == (index + 1, total)
  {
    if total > 0 && index >= 0 then Some((index + 1, total)) else None
  }

  /** What `updateImageViewer(imageUrl, title, info)` draws with cursor `index` over `total` images. */
  function Drawn(imageUrl: string, title: string, info: string, index: int, total: nat): Viewer {
    Viewer(title, imageUrl, info, imageUrl, Counter(index, total), index <= 0, index >= total - 1)
  }

  /**
   * The buttons are enabled exactly when their handlers move the cursor,
   * and on a cursor that points into the list a move stays in it and the
   * counter reads its 1-based position.
   */
  lemma ButtonsMatchMoves(imageUrl: string, title: string, info: string, index: int, total: nat)
    ensures Drawn(imageUrl, title, info, index, total).prevDisabled <==> PrevIndex(index).None?
    ensures Drawn(imageUrl, title, info, index, total).nextDisabled <==> NextIndex(index, total).None?
    ensures 0 <= index < total ==> (
      Drawn(imageUrl, title, info, index, total).counter == Some((index + 1, total)) &&
      (PrevIndex(index).Some? ==> 0 <= PrevIndex(index).value < total) &&
      (NextIndex(index, total).Some? ==> 0 <= NextIndex(index, total).value < total))
  {
  }

  /** The records the viewer can step through: the results with an image, in table order. */
  function Viewable(results: seq<Listing>): seq<Listing> {
    Filter(results, HasImage)
  }

  /** Exactly the results with an image are viewable. */
  lemma ViewableExactly(results: seq<Listing>)
    ensures forall i :: 0 <= i < |Viewable(results)| ==>
      Viewable(results)[i] in results && HasImage(Viewable(results)[i])
    ensures forall j :: 0 <= j < |results| && HasImage(results[j]) ==> results[j] in Viewable(results)
  {
    FilterKeepsAll(results, HasImage);
  }

  /**
   * The view button of a result row with an image opens the viewer with
   * the cursor on the first viewable record carrying that row's id.
   */
  lemma OpenedRowIsFound(results: seq<Listing>, item: Listing)
    requires item in results && HasImage(item)
    ensures var i := FindIndex(Viewable(results), IdTest(item.id));
      0 <= i < |Viewable(results)| && Viewable(results)[i].id == item.id
  {
    var j :| 0 <= j < |results| && results[j] == item;
    FilterKeeps(results, HasImage, j);
    var v := Viewable(results);
    var m :| 0 <= m < |v| && v[m] == item;
    FindIndexHit(v, IdTest(item.id), m);
  }

  class LeasingSearchApp {
    var currentResults: seq<Listing>
    var selectedItems: map<string, Listing>
    var currentPage: int
    var pageSize: int
    var currentViewIndex: int
    var viewableItems: seq<Listing>
    var viewer: Viewer

    /**
     * What the table handlers keep: a positive page size and page, and
     * selected records under their own ids.
     */
    predicate TableValid()
      reads this`pageSize, this`currentPage, this`selectedItems
    {
      pageSize >= 1 && currentPage >= 1 && KeyedById(selectedItems)
    }

    /** The cursor is -1 or an index; it can be past the end of a list taken later. */
    predicate CursorValid()
      reads this`currentViewIndex
    {
      currentViewIndex >= -1
    }

    constructor ()
      ensures TableValid() && CursorValid()
      ensures currentResults == [] && selectedItems == map[] && currentPage == 1 && pageSize == DefaultPageSize
      ensures currentViewIndex == -1 && viewableItems == []
      ensures viewer == Viewer("", "", "", "", None, false, false)
    {
      currentResults := [];
      selectedItems := map[];
      currentPage := 1;
      pageSize := DefaultPageSize;
      currentViewIndex := -1;
      viewableItems := [];
      viewer := Viewer("", "", "", "", None, false, false);
    }

    // ----- the results table -----

    /**
     * `performSearch` on the form's current values: nothing when no
     * option is truthy, otherwise the results are the search over `data`
     * and the table goes back to page 1.
     */
    method PerformSearch(t: SearchType, f: SearchForm, data: seq<Listing>) returns (searched: bool)
      requires TableValid()
      modifies this`currentResults, this`currentPage
      ensures TableValid()
      ensures searched == HasCondition(BuildSearchOptions(t, f))
      ensures searched ==> currentResults == SearchVacancies(data, BuildSearchOptions(t, f)) && currentPage == 1
      ensures !searched ==> currentResults == old(currentResults) && currentPage == old(currentPage)
    {
      var options := BuildSearchOptions(t, f);
      if !HasCondition(options) {
        return false;
      }
      currentResults := SearchVacancies(data, options);
      currentPage := 1;
      return true;
    }

    /** `loadAll`: every merged record becomes the results, shown from page 1. */
    method LoadAll(data: seq<Listing>)
      requires TableValid()
      modifies this`currentResults, this`currentPage
      ensures TableValid() && currentResults == data && currentPage == 1
    {
      currentResults := data;
      currentPage := 1;
    }

    /** `resetSearch`: the results are emptied and page 1 is shown; the selection stays. */
    method ResetSearch()
      requires TableValid()
      modifies this`currentResults, this`currentPage
      ensures TableValid() && currentResults == [] && currentPage == 1
    {
      currentResults := [];
      currentPage := 1;
    }

    /** The page-size select: a new size starts again at page 1. */
    method ChangePageSize(size: int)
      requires TableValid() && size >= 1
      modifies this`pageSize, this`currentPage
      ensures TableValid() && pageSize == size && currentPage == 1
    {
      pageSize := size;
      currentPage := 1;
    }

    /** A click on a pagination link to `page`. */
    method ClickPageLink(page: int)
      requires TableValid()
      modifies this`currentPage
      ensures TableValid()
      ensures currentPage == ClickPage(old(currentPage), page, TotalPages(|currentResults|, pageSize))
    {
      var totalPages := TotalPages(|currentResults|, pageSize);
      if page >= 1 && page <= totalPages {
        currentPage := page;
      }
    }

    /** A row checkbox changing to `checked`. */
    method ToggleItem(id: string, checked: bool)
      requires TableValid()
      modifies this`selectedItems
      ensures TableValid() && selectedItems == Toggle(old(selectedItems), currentResults, id, checked)
    {
      var i := FindIndex(currentResults, IdTest(id));
      if checked && i >= 0 {
        selectedItems := selectedItems[id := currentResults[i]];
      } else {
        selectedItems := selectedItems - {id};
      }
    }

    /** `removeSelected`. */
    method RemoveSelected(id: string)
      requires TableValid()
      modifies this`selectedItems
      ensures TableValid() && selectedItems == Unselect(old(selectedItems), id)
    {
      selectedItems := selectedItems - {id};
    }

    // ----- the viewer -----

    /**
     * `showImageViewer(imageUrl, title, info, itemId)`: take the viewable
     * list afresh; move the cursor to the row's record only when an id is
     * given (an empty one keeps the old cursor); draw.
     */
    method ShowImageViewer(imageUrl: string, title: string, info: string, itemId: string)
      requires CursorValid()
      modifies this`viewableItems, this`currentViewIndex, this`viewer
      ensures CursorValid()
      ensures viewableItems == Viewable(currentResults)
      ensures itemId != "" ==> currentViewIndex == FindIndex(viewableItems, IdTest(itemId))
      ensures itemId == "" ==> currentViewIndex == old(currentViewIndex)
      ensures viewer == Drawn(imageUrl, title, info, currentViewIndex, |viewableItems|)
    {
      viewableItems := Filter(currentResults, HasImage);
      if itemId != "" {
        currentViewIndex := FindIndex(viewableItems, IdTest(itemId));
      }
      UpdateImageViewer(imageUrl, title, info);
    }

    /** `updateImageViewer`. */
    method UpdateImageViewer(imageUrl: string, title: string, info: string)
      modifies this`viewer
      ensures viewer == Drawn(imageUrl, title, info, currentViewIndex, |viewableItems|)
    {
      var counter := if |viewableItems| > 0 && currentViewIndex >= 0
        then Some((currentViewIndex + 1, |viewableItems|)) else None;
      viewer := Viewer(title, imageUrl, info, imageUrl, counter,
        currentViewIndex <= 0, currentViewIndex >= |viewableItems| - 1);
    }

    /**
     * `showPrevImage`: step back when not at the first image. A cursor
     * left past the end of a shorter list still steps, and if it is still
     * past the end the lookup of the record fails and nothing is drawn.
     */
    method ShowPrevImage()
      requires CursorValid()
      modifies this`currentViewIndex, this`viewer
      ensures CursorValid()
      ensures PrevIndex(old(currentViewIndex)).None? ==>
        (currentViewIndex == old(currentViewIndex) && viewer == old(viewer))
      ensures PrevIndex(old(currentViewIndex)).Some? ==>
        (currentViewIndex == PrevIndex(old(currentViewIndex)).value &&
        (currentViewIndex < |viewableItems| ==>
          viewer == Shown(viewableItems[currentViewIndex], currentViewIndex, |viewableItems|)) &&
        (currentViewIndex >= |viewableItems| ==> viewer == old(viewer)))
    {
      if currentViewIndex > 0 {
        currentViewIndex := currentViewIndex - 1;
        if currentViewIndex < |viewableItems| {
          var item := viewableItems[currentViewIndex];
          UpdateImageViewer(item.pageImageUrl, ViewTitle(item), ViewInfo(item));
        }
      }
    }

    /** `showNextImage`: step forward when not at the last image; from -1 this shows the first. */
    method ShowNextImage()
      requires CursorValid()
      modifies this`currentViewIndex, this`viewer
      ensures CursorValid()
      ensures NextIndex(old(currentViewIndex), |viewableItems|).None? ==>
        (currentViewIndex == old(currentViewIndex) && viewer == old(viewer))
      ensures NextIndex(old(currentViewIndex), |viewableItems|).Some? ==>
        (currentViewIndex == NextIndex(old(currentViewIndex), |viewableItems|).value &&
        0 <= currentViewIndex < |viewableItems| &&
        viewer == Shown(viewableItems[currentViewIndex], currentViewIndex, |viewableItems|))
    {
      if currentViewIndex < |viewableItems| - 1 {
        currentViewIndex := currentViewIndex + 1;
        var item := viewableItems[currentViewIndex];
        UpdateImageViewer(item.pageImageUrl, ViewTitle(item), ViewInfo(item));
      }
    }
  }

  /** The viewer showing one record of the list: its image, title and caption, with the cursor on it. */
  function Shown(item: Listing, index: int, total: nat): Viewer {
    Drawn(item.pageImageUrl, ViewTitle(item), ViewInfo(item), index, total)
  }
}
