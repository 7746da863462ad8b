/**
 * What the admin page derives from the store for display (admin.js): the
 * three counters of `updateStats`, the category label of
 * `getCategoryDisplayName`, and the image-or-class decision of `getIconHTML`.
 */
module AdminView {
  import opened Text
  import opened Lists
  import opened Catalog
  import AdminForm

  datatype Stats = Stats(total: nat, popular: nat, categories: nat)

  predicate IsPopular(e: Entry) {
    e.popular
  }

  /** The counters: number of entries, number of popular entries and
      `new Set(softwareData.map(software => software.category)).size`. */
  function ComputeStats(s: seq<Entry>): (st: Stats)
    ensures st.total == |s|
    ensures st.popular == |set i | 0 <= i < |s| && s[i].popular|
    ensures st.categories == |set i | 0 <= i < |s| :: s[i].category|
    ensures st.popular <= st.total && st.categories <= st.total
    ensures s != [] ==> st.categories >= 1
  {
    PopularCount(s);
    CategoryCount(s);
    Stats(|s|, |Filter(s, IsPopular)|, |Distinct(CategoryColumn(s))|)
  }

  lemma PopularCount(s: seq<Entry>)
    ensures |Filter(s, IsPopular)| == |set i | 0 <= i < |s| && s[i].popular|
  {
    FilterLength(s, IsPopular);
    var a := Positions(s, IsPopular);
    var b := set i | 0 <= i < |s| && s[i].popular;
    assert a == b by {
      forall i | i in a ensures i in b { }
      forall i | i in b ensures i in a { assert IsPopular(s[i]); }
    }
  }

  lemma CategoryCount(s: seq<Entry>)
    ensures |Distinct(CategoryColumn(s))| == |set i | 0 <= i < |s| :: s[i].category|
    ensures s != [] ==> |Distinct(CategoryColumn(s))| >= 1
  {
    var column := CategoryColumn(s);
    DistinctSize(column);
    assert (set x | x in column) == (set i | 0 <= i < |s| :: s[i].category) by {
      forall x | x in column ensures x in (set i | 0 <= i < |s| :: s[i].category) {
        var i :| 0 <= i < |column| && column[i] == x;
        assert s[i].category == x;
      }
    }
    if s != [] {
      assert column[0] in Distinct(column);
    }
  }

  /** The admin page's category labels: seventeen keys, `other` among them. */
  const CategoryLabels: map<string, string> := map[
    "browser" := "浏览器",
    "design" := "设计工具",
    "development" := "开发工具",
    "productivity" := "效率办公",
    "communication" := "通讯社交",
    "media" := "影音媒体",
    "utility" := "实用工具",
    "security" := "安全软件",
    "editor" := "编辑器",
    "ai" := "AI工具",
    "cloud" := "云服务",
    "blog" := "技术博客",
    "documentation" := "技术文档",
    "social" := "社交媒体",
    "life" := "生活",
    "government" := "政府",
    "other" := "其他"
  ]

  /** `displayNames[category] || category`: the label of a known key (every
      label being non-empty), the key itself otherwise. */
  function CategoryDisplayName(category: string): (shown: string)
    ensures category in CategoryLabels ==> shown == CategoryLabels[category] && shown != ""
    ensures category !in CategoryLabels ==> shown == category
  {
    if category in CategoryLabels && CategoryLabels[category] != "" then CategoryLabels[category]
    else category
  }

  /** The table holds seventeen keys. */
  lemma CategoryLabelsSize()
    ensures |CategoryLabels| == 17
  {
    var keys := ["browser", "design", "development", "productivity", "communication", "media",
                 "utility", "security", "editor", "ai", "cloud", "blog", "documentation",
                 "social", "life", "government", "other"];
    assert CategoryLabels.Keys == set k | k in keys;
    assert NoDuplicates(keys);
    NoDuplicatesCardinality(keys);
  }

  /** How an icon is shown: an image for a URL, a Font Awesome class otherwise. */
  datatype IconView = ImageIcon(src: string, background: string) | ClassIcon(className: string, background: string)

  /** `getIconHTML(iconValue, backgroundColor)`: an empty icon becomes the
      default class on the default colour; a value starting with `http://` or
      `https://` is an image source; anything else is a class name. */
  function IconFor(iconValue: string, background: string): (v: IconView)
    ensures iconValue == "" ==> v == ClassIcon(AdminForm.DefaultIcon, AdminForm.DefaultIconColor)
    ensures iconValue != "" ==>
      && v.background == background
      && (v.ImageIcon? <==> StartsWith(iconValue, "http://") || StartsWith(iconValue, "https://"))
      && (v.ImageIcon? ==> v.src == iconValue)
      && (v.ClassIcon? ==> v.className == iconValue)
  {
    assert AdminForm.DefaultIcon[0] == 'f';
    var value := if iconValue == "" then AdminForm.DefaultIcon else iconValue;
    var bg := if iconValue == "" then AdminForm.DefaultIconColor else background;
    if StartsWith(value, "http://") || StartsWith(value, "https://") then ImageIcon(value, bg)
    else ClassIcon(value, bg)
  }

  /** The icon of a table row: `getIconHTML(software.icon, software.iconColor || '#2575fc')`. */
  function EntryIcon(e: Entry): (v: IconView)
    ensures v.background != ""
  {
    IconFor(e.icon, AdminForm.OrElse(e.iconColor, AdminForm.DefaultIconColor))
  }
}
