/**
 * The three in-place changes the admin page makes to `softwareData` one entry
 * at a time (admin.js): append a new record, replace the entry with a given id
 * wholesale, and splice out the first entry with a given id.
 */
module AdminStore {
  import opened Catalog

  /** `softwareData[index] = formData` at the first index holding that id,
      or nothing when no entry has it. */
  function ReplaceById(s: seq<Entry>, rec: Entry): (r: seq<Entry>)
    ensures |r| == |s|
    ensures rec.id !in Ids(s) ==> r == s
    ensures rec.id in Ids(s) ==>
      var k := IndexOfId(s, rec.id);
      r[k] == rec && forall i :: 0 <= i < |s| && i != k ==> r[i] == s[i]
  {
    var k := IndexOfId(s, rec.id);
    if k == -1 then s else s[k := rec]
  }

  /** `softwareData.splice(index, 1)` at the first index holding the id, or
      nothing when no entry has it. */
  function RemoveById(s: seq<Entry>, id: int): (r: seq<Entry>)
    ensures id !in Ids(s) ==> r == s
    ensures id in Ids(s) ==> |r| == |s| - 1
    ensures id in Ids(s) ==>
      var k := IndexOfId(s, id);
      (forall i :: 0 <= i < k ==> r[i] == s[i]) &&
      (forall i :: k <= i < |r| ==> r[i] == s[i + 1])
  {
    var k := IndexOfId(s, id);
    if k == -1 then s else s[..k] + s[k + 1..]
  }

  /** Appending a record that carries `generateId()` keeps the ids unique and
      adds exactly that id. */
  lemma AppendNextIdKeepsIdsUnique(s: seq<Entry>, rec: Entry)
    requires UniqueIds(s) && rec.id == NextId(s)
    ensures UniqueIds(s + [rec])
    ensures Ids(s + [rec]) == Ids(s) + {rec.id}
  {
    var t := s + [rec];
    assert forall i :: 0 <= i < |s| ==> t[i] == s[i];
    assert t[|s|] == rec;
    assert forall x :: x in Ids(t) ==> x in Ids(s) + {rec.id} by {
      forall x | x in Ids(t) ensures x in Ids(s) + {rec.id} {
        var i :| 0 <= i < |t| && t[i].id == x;
        if i < |s| { assert s[i].id == x; }
      }
    }
    assert forall x :: x in Ids(s) + {rec.id} ==> x in Ids(t) by {
      forall x | x in Ids(s) + {rec.id} ensures x in Ids(t) {
        if x in Ids(s) {
          var i :| 0 <= i < |s| && s[i].id == x;
          assert t[i].id == x;
        } else {
          assert t[|s|].id == x;
        }
      }
    }
  }

  /** Replacing an entry by a record with the same id changes no id. */
  lemma ReplaceKeepsIds(s: seq<Entry>, rec: Entry)
    ensures Ids(ReplaceById(s, rec)) == Ids(s)
    ensures UniqueIds(s) ==> UniqueIds(ReplaceById(s, rec))
  {
    var r := ReplaceById(s, rec);
    if rec.id in Ids(s) {
      var k := IndexOfId(s, rec.id);
      assert forall i :: 0 <= i < |s| ==> r[i].id == s[i].id;
      assert forall x :: x in Ids(r) ==> x in Ids(s) by {
        forall x | x in Ids(r) ensures x in Ids(s) {
          var i :| 0 <= i < |r| && r[i].id == x;
          assert s[i].id == x;
        }
      }
      assert forall x :: x in Ids(s) ==> x in Ids(r) by {
        forall x | x in Ids(s) ensures x in Ids(r) {
          var i :| 0 <= i < |s| && s[i].id == x;
          assert r[i].id == x;
        }
      }
    }
  }

  /** The entries left by a deletion are those of `s` at every index but one. */
  lemma RemovedEntries(s: seq<Entry>, id: int)
    requires id in Ids(s)
    ensures var r, k := RemoveById(s, id), IndexOfId(s, id);
      forall i :: 0 <= i < |r| ==> r[i] == s[if i < k then i else i + 1]
  {
  }

  /** With unique ids, deleting an id removes exactly that id and keeps the
      others unique. */
  lemma RemoveUniqueId(s: seq<Entry>, id: int)
    requires UniqueIds(s)
    ensures UniqueIds(RemoveById(s, id))
    ensures Ids(RemoveById(s, id)) == Ids(s) - {id}
  {
    var r := RemoveById(s, id);
    if id in Ids(s) {
      var k := IndexOfId(s, id);
      RemovedEntries(s, id);
      forall i, j | 0 <= i < j < |r|
        ensures r[i].id != r[j].id
      {
        var i', j' := if i < k then i else i + 1, if j < k then j else j + 1;
        assert r[i] == s[i'] && r[j] == s[j'] && i' < j';
      }
      forall x | x in Ids(r)
        ensures x in Ids(s) - {id}
      {
        var i :| 0 <= i < |r| && r[i].id == x;
        var j := if i < k then i else i + 1;
        assert s[j].id == x && j != k;
      }
      forall x | x in Ids(s) - {id}
        ensures x in Ids(r)
      {
        var j :| 0 <= j < |s| && s[j].id == x;
        assert j != k;
        if j < k { assert r[j].id == x; } else { assert r[j - 1].id == x; }
      }
    }
  }
}
