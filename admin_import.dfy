/**
 * Bulk import on the admin page (`processImportedData`, admin.js): the batch
 * is accepted whole or not at all, id-less items receive `generateId()` of
 * the store as it was, and the batch is either merged behind the store or
 * replaces it.
 */
module AdminImport {
  import opened Lists
  import opened Catalog

  /** One record of an imported batch. Its `id` may be absent. */
  datatype RawItem = RawItem(
    id: Option<int>,
    name: string,
    url: string,
    description: string,
    category: string,
    itemType: string,
    icon: string,
    iconColor: string,
    popular: bool,
    tags: seq<string>)

  /** `!item.id`: an absent id or the id 0. */
  predicate FalsyId(id: Option<int>) {
    id.None? || id.value == 0
  }

  /** `!item.name || !item.url || !item.category`. */
  predicate LacksRequiredField(it: RawItem) {
    it.name == "" || it.url == "" || it.category == ""
  }

  /** The item with `item.id = freshId` applied when its id is falsy. */
  function FillId(it: RawItem, freshId: int): (e: Entry)
    ensures FalsyId(it.id) ==> e.id == freshId
    ensures !FalsyId(it.id) ==> e.id == it.id.value
    ensures e.name == it.name && e.url == it.url && e.category == it.category
    ensures e.description == it.description && e.itemType == it.itemType && e.icon == it.icon
    ensures e.iconColor == it.iconColor && e.popular == it.popular && e.tags == it.tags
  {
    Entry(if FalsyId(it.id) then freshId else it.id.value, it.name, it.url, it.description,
          it.category, it.itemType, it.icon, it.iconColor, it.popular, it.tags)
  }

  /** The batch after the validation loop, every falsy id set to `freshId`. */
  function FillIds(items: seq<RawItem>, freshId: int): (batch: seq<Entry>)
    ensures |batch| == |items|
  {
    seq(|items|, i requires 0 <= i < |items| => FillId(items[i], freshId))
  }

  /** The index of the first item the validation loop stops at, or -1. */
  function FirstIncomplete(items: seq<RawItem>): (k: int)
    ensures -1 <= k < |items|
    ensures k == -1 <==> forall i :: 0 <= i < |items| ==> !LacksRequiredField(items[i])
    ensures 0 <= k ==> LacksRequiredField(items[k]) &&
                       forall i :: 0 <= i < k ==> !LacksRequiredField(items[i])
  {
    FirstIndex(items, LacksRequiredField)
  }

  /** `jsonData.filter(item => !existingIds.has(item.id))`. */
  function NewItems(store: seq<Entry>, batch: seq<Entry>): (r: seq<Entry>)
    ensures |r| <= |batch|
    ensures forall i :: 0 <= i < |r| ==> r[i] in batch && r[i].id !in Ids(store)
  {
    var existing := Ids(store);
    Filter(batch, (e: Entry) => e.id !in existing)
  }

  /** The store after the commit: merged when the merge box is ticked and the
      store has entries, replaced by the batch otherwise. */
  function Commit(store: seq<Entry>, batch: seq<Entry>, merge: bool): (r: seq<Entry>)
    ensures !(merge && |store| > 0) ==> r == batch
    ensures merge && |store| > 0 ==> |store| <= |r| <= |store| + |batch| && r[..|store|] == store
  {
    if merge && |store| > 0 then store + NewItems(store, batch) else batch
  }

  /** Every falsy id in the batch gets the same number, one above the store's
      largest id, because `generateId` reads the store and not the batch; every
      other field of the item is kept. */
  lemma FillIdsUsesStoreMaximum(store: seq<Entry>, items: seq<RawItem>)
    ensures var batch := FillIds(items, NextId(store));
      forall i :: 0 <= i < |items| ==>
        && (FalsyId(items[i].id) ==> batch[i].id == NextId(store) && batch[i].id !in Ids(store))
        && (!FalsyId(items[i].id) ==> batch[i].id == items[i].id.value)
        && batch[i].name == items[i].name && batch[i].url == items[i].url
        && batch[i].category == items[i].category && batch[i].description == items[i].description
        && batch[i].itemType == items[i].itemType && batch[i].icon == items[i].icon
        && batch[i].iconColor == items[i].iconColor && batch[i].popular == items[i].popular
        && batch[i].tags == items[i].tags
  {
  }

  /** Merging keeps the store as a prefix and appends, in batch order, exactly
      the batch items whose id the store does not have. */
  lemma MergeAppendsUnknownIds(store: seq<Entry>, batch: seq<Entry>)
    requires store != []
    ensures var r := Commit(store, batch, true);
      && r[..|store|] == store
      && r[|store|..] == NewItems(store, batch)
      && (forall i :: |store| <= i < |r| ==> r[i] in batch && r[i].id !in Ids(store))
      && (forall i :: 0 <= i < |batch| && batch[i].id !in Ids(store) ==> batch[i] in r[|store|..])
  {
    var r := Commit(store, batch, true);
    var n := NewItems(store, batch);
    FilterKeepsMatches(batch, (e: Entry) => e.id !in Ids(store));
    assert r == store + n;
    assert r[|store|..] == n;
    forall i | |store| <= i < |r|
      ensures r[i] in batch && r[i].id !in Ids(store)
    {
      assert r[i] == n[i - |store|];
    }
  }

  /** Keeping a part of a batch whose ids are unique keeps them unique. */
  lemma {:induction false} FilterKeepsIdsUnique(s: seq<Entry>, p: Entry -> bool)
    requires UniqueIds(s)
    ensures UniqueIds(Filter(s, p))
    decreases |s|
  {
    if s != [] {
      var s' := s[..|s| - 1];
      var last := s[|s| - 1];
      FilterKeepsIdsUnique(s', p);
      var f := Filter(s', p);
      forall i | 0 <= i < |f|
        ensures f[i].id != last.id
      {
        var j :| 0 <= j < |s'| && s'[j] == f[i];
        assert s[j] == f[i];
      }
    }
  }

  /** A merge of two stores with unique ids has unique ids: the appended items
      avoid the store's ids and one another's. */
  lemma MergeKeepsIdsUnique(store: seq<Entry>, batch: seq<Entry>)
    requires UniqueIds(store) && UniqueIds(batch) && store != []
    ensures UniqueIds(Commit(store, batch, true))
  {
    var existing := Ids(store);
    var n := NewItems(store, batch);
    FilterKeepsIdsUnique(batch, (e: Entry) => e.id !in existing);
    var r := store + n;
    forall i, j | 0 <= i < j < |r|
      ensures r[i].id != r[j].id
    {
      if j >= |store| {
        assert r[j] == n[j - |store|];
        assert r[j].id !in existing;
        if i < |store| {
          assert r[i] == store[i];
          assert r[i].id in existing;
        } else {
          assert r[i] == n[i - |store|];
        }
      } else {
        assert r[i] == store[i] && r[j] == store[j];
      }
    }
  }

  /** Two id-less items merged into a store holding id 1 both receive id 2:
      the merged store then holds a repeated id. */
  lemma IdlessItemsShareAnId(e: Entry, a: RawItem, b: RawItem)
    requires e.id == 1 && a.id == None && b.id == None
    ensures var r := Commit([e], FillIds([a, b], NextId([e])), true);
      |r| == 3 && r[1].id == 2 && r[2].id == 2 && !UniqueIds(r)
  {
    var batch := FillIds([a, b], NextId([e]));
    assert NextId([e]) == 2;
    assert batch == [FillId(a, 2), FillId(b, 2)];
    assert Ids([e]) == {1};
    var keep := (x: Entry) => x.id !in Ids([e]);
    assert keep(batch[0]) && keep(batch[1]);
    assert batch[..1] == [batch[0]];
    assert [batch[0]][..0] == [];
    assert Filter([batch[0]], keep) == [batch[0]];
    assert Filter(batch, keep) == batch;
    assert NewItems([e], batch) == Filter(batch, keep);
  }
}
