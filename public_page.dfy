/**
 * The public page's state and its handlers (script.js): the loaded store,
 * the `categories` set that yields the category buttons, the selected type,
 * and the list of cards currently rendered. Rendering is reduced to the
 * sequence of entries handed to `renderSoftwareCards`.
 */
module PublicPage {
  import opened Lists
  import opened Catalog
  import opened PublicQuery

  /** The `categories.clear()` / `forEach` / `categories.add` loop of
      `loadSoftwareData`: the listed categories of the store, each once, in
      order of first appearance. */
  method CollectCategories(data: seq<Entry>) returns (categories: seq<string>)
    ensures categories == CategorySet(data)
    ensures NoDuplicates(categories)
  {
    categories := [];
    var i := 0;
    while i < |data|
      invariant 0 <= i <= |data|
      invariant categories == CategorySet(data[..i])
    {
      var category := data[i].category;
      CategorySetStep(data, i);
      if Listed(category) {
        categories := SetAdd(categories, category);
      }
      i := i + 1;
    }
    assert data[..i] == data;
  }

  class Public {
    var softwareData: seq<Entry>
    var categories: seq<string>
    var currentType: string
    var shown: seq<Entry>

    /** Every category button stands for a category some entry carries. */
    ghost predicate Valid()
      reads this`softwareData, this`categories
    {
      categories == CategorySet(softwareData)
    }

    constructor ()
      ensures Valid()
      ensures softwareData == [] && categories == [] && currentType == All && shown == []
    {
      softwareData := [];
      categories := [];
      currentType := All;
      shown := [];
    }

    /** `loadSoftwareData`: an array becomes the store, its listed categories
        are collected in order of first appearance, and every entry is shown.
        Anything else (or a failed fetch) keeps the store and categories and
        clears the grid. */
    method LoadSoftwareData(payload: Payload<Entry>)
      requires Valid()
      modifies this`softwareData, this`categories, this`shown
      ensures Valid()
      ensures payload.Items? ==>
        softwareData == payload.items && categories == CategorySet(payload.items) && shown == payload.items
      ensures payload.NotArray? ==>
        softwareData == old(softwareData) && categories == old(categories) && shown == []
    {
      if payload.NotArray? {
        shown := [];
        return;
      }
      softwareData := payload.items;
      categories := CollectCategories(payload.items);
      shown := softwareData;
    }

    /** The "all" button: forget the selected type and show every entry. */
    method ClickAllButton()
      modifies this`currentType, this`shown
      ensures currentType == All && shown == softwareData
    {
      currentType := All;
      shown := softwareData;
    }

    /** A type button: select the type and show its entries. */
    method ClickTypeButton(t: string)
      modifies this`currentType, this`shown
      ensures currentType == t
      ensures shown == Filter(softwareData, InViewOf(t, All))
    {
      currentType := t;
      var filteredItems := softwareData;
      if currentType != All {
        filteredItems := Filter(softwareData, TypeIs(currentType));
      }
      TypeViewIsOneFilter(softwareData, t);
      shown := filteredItems;
    }

    /** A category button: show the entries of the selected type that carry
        the category; the selected type stays. */
    method ClickCategoryButton(c: string)
      modifies this`shown
      ensures shown == Filter(softwareData, InViewOf(currentType, c))
    {
      var filteredItems := softwareData;
      if currentType != All {
        filteredItems := Filter(filteredItems, TypeIs(currentType));
      }
      if c != All {
        filteredItems := Filter(filteredItems, CategoryIs(c));
      }
      CategoryViewIsOneFilter(softwareData, currentType, c);
      shown := filteredItems;
    }

    /** `performSearch`: returns the result count it displays, or `None` when
        the term is empty, the count is hidden and the selected type's entries
        are shown instead. */
    method PerformSearch(input: string) returns (resultCount: Option<nat>)
      modifies this`shown
      ensures shown == SearchView(softwareData, currentType, input)
      ensures SearchTerm(input) == "" ==> resultCount == None && shown == Filter(softwareData, InViewOf(currentType, All))
      ensures SearchTerm(input) != "" ==>
        resultCount == Some(|shown|) && forall i :: 0 <= i < |shown| ==> shown[i] in softwareData && Matches(SearchTerm(input), shown[i])
    {
      var searchTerm := SearchTerm(input);
      if searchTerm == "" {
        var filteredItems := softwareData;
        if currentType != All {
          filteredItems := Filter(filteredItems, TypeIs(currentType));
        }
        TypeViewIsOneFilter(softwareData, currentType);
        shown := filteredItems;
        return None;
      }
      var filteredItems := Filter(softwareData, MatchesTerm(searchTerm));
      shown := filteredItems;
      return Some(|filteredItems|);
    }
  }
}
