/**
 * What the public page (script.js) shows for a given store: the entries of a
 * type, of a type and a category, the result of a search, the set of
 * category buttons, the display names of categories and types, and the
 * contributors it lists.
 */
module PublicQuery {
  import opened Lists
  import opened Text
  import opened Catalog
  import AdminView

  /** The value of the "all" buttons, which stands for no restriction. */
  const All := "all"

  function TypeIs(t: string): Entry -> bool {
    (e: Entry) => e.itemType == t
  }

  function CategoryIs(c: string): Entry -> bool {
    (e: Entry) => e.category == c
  }

  /** `currentType !== 'all' ? data.filter(item => item.type === currentType) : data`. */
  function TypeView(data: seq<Entry>, t: string): (r: seq<Entry>)
    ensures t == All ==> r == data
    ensures |r| <= |data|
    ensures forall i :: 0 <= i < |r| ==> r[i] in data && (t == All || r[i].itemType == t)
  {
    if t == All then data else Filter(data, TypeIs(t))
  }

  /** The category button's handler: narrow to the current type first, then
      to the category unless the button's value is "all". */
  function CategoryView(data: seq<Entry>, t: string, c: string): (r: seq<Entry>)
    ensures |r| <= |data|
    ensures forall i :: 0 <= i < |r| ==> r[i] in data && InView(t, c, r[i])
  {
    var byType := TypeView(data, t);
    if c == All then byType else Filter(byType, CategoryIs(c))
  }

  /** The reference condition for the type and category buttons: an entry is
      shown when it passes each restriction that is not "all". */
  predicate InView(t: string, c: string, e: Entry) {
    (t == All || e.itemType == t) && (c == All || e.category == c)
  }

  function InViewOf(t: string, c: string): Entry -> bool {
    e => InView(t, c, e)
  }

  /** The type buttons show, in store order, exactly the entries of the type. */
  lemma TypeViewIsOneFilter(data: seq<Entry>, t: string)
    ensures TypeView(data, t) == Filter(data, InViewOf(t, All))
  {
    if t == All {
      FilterKeepsAll(data, InViewOf(t, All));
    } else {
      FilterExtensional(data, TypeIs(t), InViewOf(t, All));
    }
  }

  /** Filtering by type and then by category is one filter by both, in store
      order. */
  lemma CategoryViewIsOneFilter(data: seq<Entry>, t: string, c: string)
    ensures CategoryView(data, t, c) == Filter(data, InViewOf(t, c))
  {
    if t == All && c == All {
      FilterKeepsAll(data, InViewOf(t, c));
    } else if t == All {
      FilterExtensional(data, CategoryIs(c), InViewOf(t, c));
    } else if c == All {
      FilterExtensional(data, TypeIs(t), InViewOf(t, c));
    } else {
      FilterTwice(data, TypeIs(t), CategoryIs(c), InViewOf(t, c));
    }
  }

  /** An entry is shown by a category button exactly when it is in the store
      and passes both restrictions. */
  lemma CategoryViewMembers(data: seq<Entry>, t: string, c: string, e: Entry)
    ensures e in CategoryView(data, t, c) <==> e in data && InView(t, c, e)
  {
    CategoryViewIsOneFilter(data, t, c);
    FilterContains(data, InViewOf(t, c), e);
  }

  /** `searchInput.value.toLowerCase().trim()`. */
  function SearchTerm(input: string): (term: string)
    ensures |term| <= |input|
    ensures term == "" <==> AllWhitespace(Lower(input))
  {
    Trim(Lower(input))
  }

  /** Lowering leaves no upper-case letter behind. */
  lemma LowerHasNoUpper(input: string, c: char)
    ensures 'A' <= c <= 'Z' ==> c !in Lower(input)
  {
    var low := Lower(input);
    forall j | 0 <= j < |low|
      ensures low[j] == LowerChar(input[j])
    {
    }
  }

  /** The search term has no upper-case letter and no whitespace at its ends. */
  lemma SearchTermIsNormal(input: string)
    ensures IsTrimmed(SearchTerm(input))
    ensures forall i :: 0 <= i < |SearchTerm(input)| ==> !('A' <= SearchTerm(input)[i] <= 'Z')
  {
    var low := Lower(input);
    var term := Trim(low);
    forall i | 0 <= i < |term|
      ensures !('A' <= term[i] <= 'Z')
    {
      var c := if 'A' <= term[i] <= 'Z' then term[i] else 'A';
      LowerHasNoUpper(input, c);
      TrimAddsNothing(low, c);
    }
  }

  /** Typing the query in another case gives the same search term. */
  lemma SearchTermIgnoresCase(input: string)
    ensures SearchTerm(Lower(input)) == SearchTerm(input)
  {
    LowerIdempotent(input);
  }

  /** Whitespace typed before the query does not change the search term. */
  lemma SearchTermIgnoresLeadingWhitespace(w: string, input: string)
    requires AllWhitespace(w)
    ensures SearchTerm(w + input) == SearchTerm(input)
  {
    var lw := Lower(w);
    assert Lower(w + input) == lw + Lower(input);
    forall i | 0 <= i < |lw|
      ensures IsWhitespace(lw[i])
    {
      LowerKeepsWhitespace(w[i]);
    }
    TrimIgnoresLeadingWhitespace(lw, Lower(input));
  }

  /** `field && field.toLowerCase().includes(term)`. */
  predicate FieldMatches(field: string, term: string) {
    field != "" && Includes(Lower(field), term)
  }

  /** `tags.some(tag => tag.toLowerCase().includes(term))`. */
  predicate TagMatches(tags: seq<string>, term: string) {
    exists i :: 0 <= i < |tags| && Includes(Lower(tags[i]), term)
  }

  /** The search predicate: the term occurs in the name, the description, a
      tag, the category key or the type key, all lowered. */
  predicate Matches(term: string, e: Entry) {
    || FieldMatches(e.name, term)
    || FieldMatches(e.description, term)
    || TagMatches(e.tags, term)
    || FieldMatches(e.category, term)
    || FieldMatches(e.itemType, term)
  }

  function MatchesTerm(term: string): Entry -> bool {
    e => Matches(term, e)
  }

  /** `performSearch`: an empty term shows the current type's entries; any
      other term searches the whole store, whatever type is selected. */
  function SearchView(data: seq<Entry>, t: string, input: string): (r: seq<Entry>)
    ensures |r| <= |data|
    ensures forall i :: 0 <= i < |r| ==> r[i] in data
    ensures SearchTerm(input) != "" ==> forall i :: 0 <= i < |r| ==> Matches(SearchTerm(input), r[i])
    ensures SearchTerm(input) == "" ==> forall i :: 0 <= i < |r| ==> t == All || r[i].itemType == t
  {
    var term := SearchTerm(input);
    if term == "" then TypeView(data, t) else Filter(data, MatchesTerm(term))
  }

  /** With a non-empty term, the results are exactly the stored entries that
      match it, independently of the selected type; with an empty term they
      are the type button's view. */
  lemma SearchViewMembers(data: seq<Entry>, t: string, input: string, e: Entry)
    ensures SearchTerm(input) == "" ==> SearchView(data, t, input) == TypeView(data, t)
    ensures SearchTerm(input) != "" ==>
      (e in SearchView(data, t, input) <==> e in data && Matches(SearchTerm(input), e))
    ensures SearchTerm(input) != "" ==>
      forall u :: SearchView(data, u, input) == SearchView(data, t, input)
  {
    FilterContains(data, MatchesTerm(SearchTerm(input)), e);
  }

  /** The search does not depend on the case of the query. */
  lemma SearchIgnoresCase(data: seq<Entry>, t: string, input: string)
    ensures SearchView(data, t, Lower(input)) == SearchView(data, t, input)
  {
    SearchTermIgnoresCase(input);
  }

  /** Searching "AI" finds an entry filed under the category key "ai". */
  lemma SearchFindsCategoryKey(e: Entry)
    requires e.category == "ai"
    ensures Matches(SearchTerm("AI"), e)
  {
    assert Lower("AI") == "ai";
    TrimTrimmed("ai");
    assert Lower(e.category) == "ai";
    assert StartsWith(Lower(e.category), "ai");
  }

  /** `item.category && item.category.trim() !== ''`: a category that gets a
      button. */
  predicate Listed(c: string) {
    c != "" && Trim(c) != ""
  }

  /** The `categories` set after loading: each listed category once, in the
      order of its first entry. */
  function CategorySet(data: seq<Entry>): (r: seq<string>)
    ensures NoDuplicates(r)
  {
    Distinct(Filter(CategoryColumn(data), Listed))
  }

  /** A category has a button exactly when some entry carries it and it is
      not blank. */
  lemma CategorySetMembers(data: seq<Entry>, c: string)
    ensures c in CategorySet(data) <==> Listed(c) && exists i :: 0 <= i < |data| && data[i].category == c
  {
    var col := CategoryColumn(data);
    var kept := Filter(col, Listed);
    FilterContains(col, Listed, c);
    if c in CategorySet(data) {
      var j :| 0 <= j < |kept| && kept[j] == c;
      var i :| 0 <= i < |col| && col[i] == c;
      assert data[i].category == c;
    }
    if Listed(c) && exists i :: 0 <= i < |data| && data[i].category == c {
      var i :| 0 <= i < |data| && data[i].category == c;
      assert col[i] == c;
      var j :| 0 <= j < |kept| && kept[j] == c;
      assert kept[j] in CategorySet(data);
    }
  }

  /** One step of the loading loop: the next entry's category is added when
      it is listed. */
  lemma CategorySetStep(data: seq<Entry>, i: nat)
    requires i < |data|
    ensures CategorySet(data[..i + 1]) ==
      if Listed(data[i].category) then SetAdd(CategorySet(data[..i]), data[i].category)
      else CategorySet(data[..i])
  {
    var col := CategoryColumn(data[..i + 1]);
    assert col[..i] == CategoryColumn(data[..i]);
    assert col[i] == data[i].category;
    var kept := Filter(col, Listed);
    var before := Filter(CategoryColumn(data[..i]), Listed);
    if Listed(data[i].category) {
      assert kept == before + [data[i].category];
      assert kept[..|kept| - 1] == before;
    } else {
      assert kept == before;
    }
  }

  /** The public page's category labels: the admin page's table, except that
      its last key is "study" where the admin page has "other". */
  const PublicCategoryLabels: map<string, string> := map[
    "browser" := "浏览器",
    "design" := "设计工具",
    "development" := "开发工具",
    "productivity" := "效率办公",
    "communication" := "通讯社交",
    "media" := "影音媒体",
    "utility" := "实用工具",
    "security" := "安全软件",
    "editor" := "编辑器",
    "ai" := "AI工具",
    "cloud" := "云服务",
    "blog" := "技术博客",
    "documentation" := "技术文档",
    "social" := "社交媒体",
    "life" := "生活",
    "government" := "政府",
    "study" := "学习"
  ]

  const TypeLabels: map<string, string> := map["software" := "软件", "website" := "网站"]

  /** The `displayNames` object of `getDisplayName`, one table per kind. */
  const DisplayTables: map<string, map<string, string>> :=
    map["category" := PublicCategoryLabels, "type" := TypeLabels]

  /** `getDisplayName(value, kind)`: the label when the kind has a table and
      that table a non-empty label for the value, the value itself otherwise. */
  function DisplayName(value: string, kind: string): (shown: string)
    ensures kind in DisplayTables && value in DisplayTables[kind] && DisplayTables[kind][value] != "" ==>
      shown == DisplayTables[kind][value]
    ensures !(kind in DisplayTables && value in DisplayTables[kind] && DisplayTables[kind][value] != "") ==>
      shown == value
  {
    if kind in DisplayTables && value in DisplayTables[kind] && DisplayTables[kind][value] != ""
    then DisplayTables[kind][value]
    else value
  }

  /** `getCategoryDisplayName(category)`. */
  function CategoryDisplayName(category: string): (shown: string)
    ensures category in PublicCategoryLabels ==> shown == PublicCategoryLabels[category] && shown != ""
    ensures category !in PublicCategoryLabels ==> shown == category
  {
    DisplayName(category, "category")
  }

  /** `getTypeDisplayName(type)`. */
  function TypeDisplayName(t: string): (shown: string)
    ensures t == "software" ==> shown == "软件"
    ensures t == "website" ==> shown == "网站"
    ensures t != "software" && t != "website" ==> shown == t
  {
    DisplayName(t, "type")
  }

  /** The two pages name every shared category alike; they differ in that the
      admin page names "other" and the public page names "study" instead, so
      "other" is shown as its raw key here. */
  lemma CategoryLabelsOfBothPages()
    ensures PublicCategoryLabels.Keys == AdminView.CategoryLabels.Keys - {"other"} + {"study"}
    ensures forall k :: k in PublicCategoryLabels && k in AdminView.CategoryLabels ==>
      PublicCategoryLabels[k] == AdminView.CategoryLabels[k]
    ensures CategoryDisplayName("other") == "other" && AdminView.CategoryDisplayName("other") == "其他"
    ensures CategoryDisplayName("study") == "学习" && AdminView.CategoryDisplayName("study") == "study"
  {
  }

  /** `contributors.slice(0, 16)`: the first sixteen contributors, in order. */
  function ContributorWindow<T>(cs: seq<T>): (w: seq<T>)
    ensures |w| <= 16 && |w| <= |cs| && w == cs[..|w|]
    ensures |cs| <= 16 ==> w == cs
    ensures |cs| > 16 ==> |w| == 16
  {
    if |cs| <= 16 then cs else cs[..16]
  }
}
