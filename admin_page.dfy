/**
 * The admin page's state and its handlers (admin.js): the store
 * `softwareData`, the edit-mode flag and the id being edited. Each method is
 * one handler with its DOM, notification and confirmation plumbing removed;
 * an answer to `confirm(...)` and the state of the merge checkbox are
 * parameters, and so is the URL parser (`new URL(...)` succeeding).
 */
module AdminPage {
  import opened Catalog
  import opened AdminForm
  import opened AdminStore
  import opened AdminImport

  /** How a form submission ended. */
  datatype SubmitResult =
    | Invalid(error: FormError)   // refused with a notification, nothing stored
    | Added(id: int)              // appended in add mode
    | Updated(index: nat)         // replaced in edit mode
    | EditTargetMissing           // edit mode, but no entry has the id any more

  /** How an import ended; the counts are those of the success notification. */
  datatype ImportResult =
    | NotAnArray
    | IncompleteItem(index: nat)  // 0-based; the notification shows index + 1
    | Merged(added: nat)
    | Replaced(count: nat)

  class Admin {
    var softwareData: seq<Entry>
    var editMode: bool
    var currentEditId: Option<int>

    /** Edit mode is only ever entered together with an id to edit. */
    ghost predicate Valid()
      reads this`editMode, this`currentEditId
    {
      editMode ==> currentEditId.Some?
    }

    constructor ()
      ensures Valid()
      ensures softwareData == [] && !editMode && currentEditId == None
    {
      softwareData := [];
      editMode := false;
      currentEditId := None;
    }

    /** `loadSoftwareData`: an array replaces the store; anything else (or a
        failed fetch) leaves it as it was. */
    method LoadSoftwareData(payload: Payload<Entry>) returns (loaded: bool)
      modifies this`softwareData
      ensures loaded <==> payload.Items?
      ensures softwareData == if payload.Items? then payload.items else old(softwareData)
    {
      if payload.NotArray? {
        return false;
      }
      softwareData := payload.items;
      return true;
    }

    /** `openAddSoftwareModal`: leave edit mode and reset the form to its
        defaults (empty text fields, category "other", type "software", the
        default icon and colour, not popular). The id being edited is left as
        it was; add mode ignores it. */
    method OpenAddSoftwareModal() returns (form: FormInput)
      modifies this`editMode
      ensures Valid() && !editMode
      ensures form == FormInput("", "", "", DefaultCategory, DefaultType, DefaultIcon, DefaultIconColor, false, "")
    {
      editMode := false;
      form := FormInput("", "", "", DefaultCategory, DefaultType, DefaultIcon, DefaultIconColor, false, "");
    }

    /** `editSoftware(id)`: when an entry has the id, enter edit mode for it
        and return the form as filled from the first such entry. */
    method EditSoftware(id: int) returns (form: Option<FormInput>)
      requires Valid()
      modifies this`editMode, this`currentEditId
      ensures Valid()
      ensures var k := IndexOfId(softwareData, id);
        if k == -1 then
          form == None && editMode == old(editMode) && currentEditId == old(currentEditId)
        else
          form == Some(PrefillForm(softwareData[k])) && editMode && currentEditId == Some(id)
    {
      var k := IndexOfId(softwareData, id);
      if k == -1 {
        return None;
      }
      editMode := true;
      currentEditId := Some(id);
      return Some(PrefillForm(softwareData[k]));
    }

    /** The record `handleFormSubmit` builds from the form: the edited id in
        edit mode, `generateId()` of the store otherwise. */
    function SubmittedRecord(form: FormInput, data: seq<Entry>): (r: Entry)
      reads this`editMode, this`currentEditId
      requires Valid()
      ensures editMode ==> r.id == currentEditId.value
      ensures !editMode ==> r.id == NextId(data)
      ensures !editMode ==> r.id !in Ids(data) && forall i :: 0 <= i < |data| ==> data[i].id < r.id
      ensures r == BuildRecord(form, r.id)
    {
      BuildRecord(form, if editMode then currentEditId.value else NextId(data))
    }

    /** The commit step of `handleFormSubmit` for a record that passed the
        checks: append it in add mode, replace the entry with its id in edit
        mode, or report that the edited entry is gone. */
    method StoreRecord(rec: Entry) returns (r: SubmitResult)
      modifies this`softwareData
      ensures !editMode ==> r == Added(rec.id) && softwareData == old(softwareData) + [rec]
      ensures editMode && rec.id in Ids(old(softwareData)) ==>
        r == Updated(IndexOfId(old(softwareData), rec.id)) &&
        softwareData == ReplaceById(old(softwareData), rec)
      ensures editMode && rec.id !in Ids(old(softwareData)) ==>
        r == EditTargetMissing && softwareData == old(softwareData)
      ensures UniqueIds(old(softwareData)) && (editMode || rec.id == NextId(old(softwareData))) ==>
        UniqueIds(softwareData)
    {
      if UniqueIds(softwareData) {
        if editMode {
          ReplaceKeepsIds(softwareData, rec);
        } else if rec.id == NextId(softwareData) {
          AppendNextIdKeepsIdsUnique(softwareData, rec);
        }
      }
      if !editMode {
        softwareData := softwareData + [rec];
        return Added(rec.id);
      }
      var index := IndexOfId(softwareData, rec.id);
      if index != -1 {
        softwareData := softwareData[index := rec];
        return Updated(index);
      }
      return EditTargetMissing;
    }

    /** `handleFormSubmit`: build the record (with `generateId()` in add mode,
        the edited id in edit mode), refuse it at the first failed check, then
        store it as `StoreRecord` does. */
    method HandleFormSubmit(form: FormInput, urlParses: string -> bool) returns (r: SubmitResult)
      requires Valid()
      modifies this`softwareData
      ensures Valid()
      ensures var rec := SubmittedRecord(form, old(softwareData));
        CheckRecord(rec, urlParses).Some? ==>
          r == Invalid(CheckRecord(rec, urlParses).value) && softwareData == old(softwareData)
      ensures var rec := SubmittedRecord(form, old(softwareData));
        CheckRecord(rec, urlParses).None? && !editMode ==>
          r == Added(rec.id) && softwareData == old(softwareData) + [rec]
      ensures var rec := SubmittedRecord(form, old(softwareData));
        CheckRecord(rec, urlParses).None? && editMode && rec.id in Ids(old(softwareData)) ==>
          r == Updated(IndexOfId(old(softwareData), rec.id)) &&
          softwareData == ReplaceById(old(softwareData), rec)
      ensures var rec := SubmittedRecord(form, old(softwareData));
        CheckRecord(rec, urlParses).None? && editMode && rec.id !in Ids(old(softwareData)) ==>
          r == EditTargetMissing && softwareData == old(softwareData)
      ensures UniqueIds(old(softwareData)) ==> UniqueIds(softwareData)
    {
      var rec := SubmittedRecord(form, softwareData);
      var err := CheckRecord(rec, urlParses);
      if err.Some? {
        r := Invalid(err.value);
      } else {
        assert !editMode ==> rec.id == NextId(softwareData);
        r := StoreRecord(rec);
      }
    }

    /** `deleteSoftware(id)`: once confirmed, splice out the first entry with
        the id; report whether one was removed. */
    method DeleteSoftware(id: int, confirmed: bool) returns (removed: bool)
      modifies this`softwareData
      ensures removed <==> confirmed && id in Ids(old(softwareData))
      ensures softwareData == if confirmed then RemoveById(old(softwareData), id) else old(softwareData)
      ensures UniqueIds(old(softwareData)) ==> UniqueIds(softwareData)
    {
      if UniqueIds(softwareData) {
        RemoveUniqueId(softwareData, id);
      }
      if !confirmed {
        return false;
      }
      var index := IndexOfId(softwareData, id);
      if index != -1 {
        softwareData := softwareData[..index] + softwareData[index + 1..];
        return true;
      }
      return false;
    }

    /** `clearAllData`: once confirmed, empty the store. */
    method ClearAllData(confirmed: bool)
      modifies this`softwareData
      ensures softwareData == if confirmed then [] else old(softwareData)
    {
      if confirmed {
        softwareData := [];
      }
    }

    /** `processImportedData(jsonData)`: refuse anything but an array, and the
        whole batch at its first item without name, url or category; give every
        item with a falsy id `generateId()`; then merge (merge box ticked and
        store not empty) or replace. */
    method ProcessImportedData(payload: Payload<RawItem>, mergeChecked: bool) returns (r: ImportResult)
      modifies this`softwareData
      ensures payload.NotArray? ==> r == NotAnArray && softwareData == old(softwareData)
      ensures payload.Items? && FirstIncomplete(payload.items) != -1 ==>
        r == IncompleteItem(FirstIncomplete(payload.items)) && softwareData == old(softwareData)
      ensures payload.Items? && FirstIncomplete(payload.items) == -1 ==>
        var batch := FillIds(payload.items, NextId(old(softwareData)));
        && softwareData == Commit(old(softwareData), batch, mergeChecked)
        && r == (if mergeChecked && |old(softwareData)| > 0
                 then Merged(|NewItems(old(softwareData), batch)|)
                 else Replaced(|batch|))
    {
      if payload.NotArray? {
        return NotAnArray;
      }
      var jsonData := payload.items;
      var batch: seq<Entry> := [];
      var i := 0;
      while i < |jsonData|
        invariant 0 <= i <= |jsonData|
        invariant forall j :: 0 <= j < i ==> !LacksRequiredField(jsonData[j])
        invariant batch == FillIds(jsonData[..i], NextId(softwareData))
        invariant softwareData == old(softwareData)
      {
        var item := jsonData[i];
        if LacksRequiredField(item) {
          return IncompleteItem(i);
        }
        // item.id = generateId() when the id is falsy
        batch := batch + [FillId(item, NextId(softwareData))];
        i := i + 1;
      }
      assert jsonData[..i] == jsonData;
      if mergeChecked && |softwareData| > 0 {
        var newItems := NewItems(softwareData, batch);
        softwareData := softwareData + newItems;
        return Merged(|newItems|);
      } else {
        softwareData := batch;
        return Replaced(|batch|);
      }
    }
  }
}
