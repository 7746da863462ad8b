/**
 * The catalog data shared by the admin page and the public page: one entry per
 * piece of software or website, the store being an ordered sequence of them.
 */
module Catalog {
  import opened Lists

  datatype Option<T> = None | Some(value: T)

  /** What `JSON.parse` (or `response.json()`) handed over: either an array of
      records or some other value, which every caller rejects. */
  datatype Payload<T> = NotArray | Items(items: seq<T>)

  /** A catalog entry as stored in `softwareData`. The JSON field `type`
      (`software` or `website`) is `itemType` here, `type` being a Dafny
      keyword. A JSON string field that is absent is the empty string. */
  datatype Entry = Entry(
    id: int,
    name: string,
    url: string,
    description: string,
    category: string,
    itemType: string,
    icon: string,
    iconColor: string,
    popular: bool,
    tags: seq<string>)

  /** The ids present in a store. */
  function Ids(s: seq<Entry>): set<int> {
    set i | 0 <= i < |s| :: s[i].id
  }

  /** No two entries of the store carry the same id. */
  predicate UniqueIds(s: seq<Entry>) {
    forall i, j :: 0 <= i < j < |s| ==> s[i].id != s[j].id
  }

  /** `Math.max(...softwareData.map(item => item.id))` on a non-empty store. */
  function MaxId(s: seq<Entry>): (m: int)
    requires s != []
    ensures forall i :: 0 <= i < |s| ==> s[i].id <= m
    ensures exists i :: 0 <= i < |s| && s[i].id == m
  {
    if |s| == 1 then s[0].id
    else
      var m := MaxId(s[1..]);
      assert forall i :: 1 <= i < |s| ==> s[i] == s[1..][i - 1];
      if s[0].id >= m then s[0].id else m
  }

  /** `generateId()`: 1 for an empty store and the largest id plus one
      otherwise, so it is above every id in the store. Gaps are not reused. */
  function NextId(s: seq<Entry>): (r: int)
    ensures s == [] ==> r == 1
    ensures forall i :: 0 <= i < |s| ==> s[i].id < r
    ensures s != [] ==> exists i :: 0 <= i < |s| && s[i].id == r - 1
  {
    if s == [] then 1 else MaxId(s) + 1
  }

  /** A store whose ids are all positive gets a positive new id. */
  lemma NextIdPositive(s: seq<Entry>)
    requires forall i :: 0 <= i < |s| ==> s[i].id > 0
    ensures NextId(s) > 0
  {
    if s != [] {
      assert s[0].id > 0 && s[0].id < NextId(s);
    }
  }

  predicate HasId(e: Entry, id: int) {
    e.id == id
  }

  /** `softwareData.findIndex(item => item.id === id)`. */
  function IndexOfId(s: seq<Entry>, id: int): (k: int)
    ensures -1 <= k < |s|
    ensures k == -1 <==> id !in Ids(s)
    ensures 0 <= k ==> s[k].id == id && forall i :: 0 <= i < k ==> s[i].id != id
  {
    var k := FirstIndex(s, e => HasId(e, id));
    assert id in Ids(s) ==> k != -1 by {
      if id in Ids(s) {
        var i :| 0 <= i < |s| && s[i].id == id;
        assert HasId(s[i], id);
      }
    }
    k
  }

  /** The `category` value of every entry, in store order. */
  function CategoryColumn(s: seq<Entry>): (r: seq<string>)
    ensures |r| == |s| && forall i :: 0 <= i < |s| ==> r[i] == s[i].category
  {
    seq(|s|, i requires 0 <= i < |s| => s[i].category)
  }
}
