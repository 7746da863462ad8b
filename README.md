# Software navigation bar: catalog store and query model

This project models, in Dafny, the in-memory catalog behind the two pages of
the Software-Navigation-Bar site. `admin.js` is the admin page and
`script.js` is the public page.

The catalog is the array `softwareData` of entries. Each entry has an id, a
name, a url, a description, a category key, a type (`software` or `website`),
an icon, an icon colour, a popular flag and a list of tags.

**Admin page.** It edits the catalog in place:
- It appends records built from the add/edit form. The form path trims the text fields, splits the tag field at commas and checks the fields in a fixed order.
- It replaces a record by id in edit mode and deletes the first record with an id.
- It clears the store.
- It bulk-imports a JSON array. The whole batch is rejected at its first item without name, url or category. Missing ids are filled with `generateId()`. The batch is then merged behind the store or replaces it.
- It derives the statistics counters, category labels and the icon kind.

**Public page.** It never changes the catalog:
- It derives the views the type, category and "all" buttons show.
- It runs the case-insensitive search over five fields.
- It extracts the set of category buttons on load.
- It looks up display names and shows the first sixteen contributors.

Modules:

- `Lists`: the array and Set built-ins the pages use:
  - `filter`, `findIndex`;
  - an insertion-ordered `Set`;
  - counting lemmas.
- `Text`: the string built-ins:
  - `trim`, using the ECMAScript whitespace set;
  - `toLowerCase`, restricted to ASCII;
  - `includes`, `startsWith`, `split` on one character and `join`.
- `Catalog`:
  - the `Entry` record, store ids and `generateId`;
  - `findIndex` by id, an `Option` type and the `Payload` type (array or not) that JSON parsing hands over.
- `AdminForm`: the form record:
  - tag parsing;
  - the record `handleFormSubmit` builds and its checks;
  - the form `editSoftware` pre-fills;
  - the round trip between the two.
- `AdminStore`: replace-by-id and splice-by-id on the store, and the lemmas that these operations keep ids unique.
- `AdminImport`: the pieces of `processImportedData`:
  - filling ids;
  - the first incomplete item;
  - the merge filter and the commit.
- `AdminView`: `updateStats`, `getCategoryDisplayName` and `getIconHTML`.
- `AdminPage`: class `Admin`:
  - its fields are `softwareData`, `editMode` and `currentEditId`;
  - it has one method per handler, including the import loop.
- `PublicQuery`: the public page's projections:
  - the type, category and search views;
  - the category set, the `getDisplayName` tables and the contributor window.
- `PublicPage`: class `Public`:
  - its fields are `softwareData`, `categories`, `currentType` and the cards shown;
  - the loading loop that collects categories;
  - the button and search handlers.

Conventions:
- The JSON field `type` is `itemType`.
- An absent string field is the empty string.
- An imported item's id is an `Option<int>`. "Falsy" means absent or 0.

## Model

| member | source | states |
|---|---|---|
| Lists.Filter | admin.js:340 | the kept elements are elements of the input that satisfy the predicate, no more of them than the input has |
| Lists.FilterKeepsMatches | admin.js:527 | every element that satisfies the predicate is kept |
| Lists.FilterContains | script.js:432-440 | a value is in the filtered list exactly when it is in the list and satisfies the predicate |
| Lists.FilterAppend | script.js:301-312 | filtering distributes over concatenation, so order is kept |
| Lists.FilterKeepsAll | script.js:301-312 | a filter that every element passes returns the list itself |
| Lists.FilterExtensional | script.js:301-312 | predicates that agree on the elements give the same filter |
| Lists.FilterTwice | script.js:301-312 | filtering by one predicate and then another equals one filter by their conjunction, in order |
| Lists.FirstIndex | admin.js:379 | `findIndex`: -1 exactly when no element matches; otherwise the element there matches and none before it does |
| Lists.SetAdd | script.js:228 | `Set.add`: the value is present afterwards, nothing else is added, duplicate-freedom is kept, an existing value changes nothing |
| Lists.Distinct | admin.js:166 | `new Set(list)`: duplicate-free, with exactly the values of the list |
| Lists.NoDuplicatesCardinality | admin.js:166 | a duplicate-free list is as long as its set of values |
| Lists.DistinctSize | admin.js:166 | `new Set(list).size` is the number of distinct values |
| Lists.PositionsOfLast | admin.js:162 | the matching positions of a list are those of its front part plus the last position when it matches |
| Lists.FilterLength | admin.js:162 | `filter(p).length` is the number of positions whose element satisfies `p` |
| Text.TrimStart | admin.js:332 | dropping leading whitespace leaves nothing or a non-whitespace first character |
| Text.TrimStartDrops | admin.js:332 | what is kept is a suffix of the input and what is dropped is all whitespace |
| Text.TrimEnd | admin.js:332 | dropping trailing whitespace leaves nothing or a non-whitespace last character |
| Text.TrimEndDrops | admin.js:332 | what is kept is a prefix of the input and what is dropped is all whitespace |
| Text.Trim | admin.js:332-337 | the result has no whitespace at either end; it is empty exactly when the input is all whitespace |
| Text.TrimAddsNothing | admin.js:340 | trimming introduces no character, in particular no comma |
| Text.TrimTrimmed | admin.js:332-337 | a string without whitespace at its ends is its own trim |
| Text.TrimIdempotent | admin.js:332-337 | trimming twice is trimming once |
| Text.TrimIsInnerSlice | admin.js:332-337 | the trim is the slice of the input between an all-whitespace prefix and an all-whitespace suffix |
| Text.TrimStartIgnoresLeadingWhitespace | script.js:402 | whitespace in front does not survive the left trim |
| Text.TrimIgnoresLeadingWhitespace | script.js:402 | whitespace in front does not change the trim |
| Text.Lower | script.js:402 | lowering keeps the length |
| Text.LowerIdempotent | script.js:402 | lowering twice is lowering once |
| Text.LowerKeepsWhitespace | script.js:402 | lowering maps whitespace to whitespace and non-whitespace to non-whitespace |
| Text.StartsWith | admin.js:653 | `startsWith`: the pattern is a prefix of the string; no contract of its own, used by `AdminView.IconFor` and `Text.IncludesIffOccurs` |
| Text.Includes | script.js:434-438 | `includes`; no contract of its own, `Text.IncludesIffOccurs` states that it holds exactly when the pattern occurs at some position |
| Text.IncludesIffOccurs | script.js:434-438 | `includes` is true exactly when the pattern occurs at some position |
| Text.Split | admin.js:340 | `split` on one character yields at least one piece and no piece holds the separator |
| Text.JoinSplit | admin.js:340 | joining the pieces of a split with the separator gives the string back |
| Text.Join | admin.js:311 | `join`; no contract of its own, `Text.JoinSplit` and `AdminForm.ParseJoinedTags` state its round trips with `split` |
| Text.SplitAfterPiece | admin.js:340 | a separator-free piece followed by the separator splits off as the first piece |
| Text.SplitWithoutSeparator | admin.js:340 | a string without the separator splits into itself alone |
| Catalog.MaxId | admin.js:410 | `Math.max` of the ids is at least every id and is one of them |
| Catalog.NextId | admin.js:405-412 | `generateId` is 1 for an empty store; otherwise it exceeds every id and is the largest id plus one |
| Catalog.NextIdPositive | admin.js:405-412 | with positive ids the new id is positive |
| Catalog.IndexOfId | admin.js:420 | -1 exactly when the id is absent; otherwise the first entry with that id |
| Catalog.CategoryColumn | admin.js:166 | the category of each entry, position by position |
| AdminForm.TrimEach | admin.js:340 | one piece per piece; the content, each piece trimmed, is stated by `AdminForm.TrimEachCons` |
| AdminForm.ParseTags | admin.js:340 | every parsed tag is non-empty, trimmed and comma-free |
| AdminForm.LeadingSpaceKeepsTrimmedPieces | admin.js:340 | the space after each `", "` does not change the trimmed pieces |
| AdminForm.TrimEachCons | admin.js:340 | trimming pieces commutes with putting one in front |
| AdminForm.JoinTags | admin.js:311 | `tags.join(', ')`; no contract of its own, `AdminForm.ParseJoinedTags` states that well-formed tags parse back unchanged |
| AdminForm.TrimmedPiecesOfJoinStep | admin.js:310-314 | one more tag in front yields its piece first, then the pieces of the rest |
| AdminForm.TrimmedPiecesOfJoin | admin.js:310-314 | splitting joined well-formed tags and trimming yields the tags |
| AdminForm.ParseJoinedTags | admin.js:310-314 | tags written into the form with `join(', ')` parse back to the same tags in the same order |
| AdminForm.BuildRecord | admin.js:330-341 | the record keeps the given id; name, url, description and icon are the trims of their inputs, each trimmed, and name, url and description are empty exactly when the input is all whitespace; category, type, colour and popular are taken as they are; the tags are the parsed tag field, well formed |
| AdminForm.CheckRecord | admin.js:344-375 | the first failing check in the order name, url, description, category, type, URL parse is reported; none exactly when all pass |
| AdminForm.PrefillForm | admin.js:299-314 | name, url, description and popular are copied; category, type, icon and colour are the entry's own value when it has one and otherwise `other`, `software`, `fas fa-cube` and `#2575fc`; the tag field is the tags joined with `, `; `AdminForm.ResubmitUnchanged` states the round trip |
| AdminForm.ResubmitUnchanged | admin.js:286-341 | submitting the form as `editSoftware` fills it rebuilds a form-normal entry exactly |
| AdminForm.BuiltRecordIsNormal | admin.js:330-341 | every built record has trimmed text fields and well-formed tags |
| AdminForm.ResubmitIsIdempotent | admin.js:286-341 | submit, re-open and submit again gives the same record |
| AdminStore.ReplaceById | admin.js:379-381 | same length; unchanged when no entry has the id; otherwise only the first entry with the id becomes the record |
| AdminStore.RemoveById | admin.js:420-423 | unchanged when the id is absent; otherwise one shorter, the entries before the first match kept and the rest shifted down by one |
| AdminStore.AppendNextIdKeepsIdsUnique | admin.js:386 | appending a record with `generateId()` keeps ids unique and adds exactly that id |
| AdminStore.ReplaceKeepsIds | admin.js:379-381 | replacing by id changes no id and keeps ids unique |
| AdminStore.RemoveUniqueId | admin.js:420-423 | with unique ids, deletion removes exactly that id and keeps the rest unique |
| AdminImport.FalsyId | admin.js:518 | `!item.id`; no contract of its own, `AdminImport.FillId` and `AdminImport.FillIdsUsesStoreMaximum` state its effect |
| AdminImport.LacksRequiredField | admin.js:512 | the validation test; no contract of its own, `AdminImport.FirstIncomplete` states where it stops the import |
| AdminImport.FillId | admin.js:518-520 | a falsy id becomes the fresh id; any other id and every other field are kept |
| AdminImport.FillIds | admin.js:510-521 | one filled item per item; the content of each is stated by `AdminImport.FillIdsUsesStoreMaximum` |
| AdminImport.FirstIncomplete | admin.js:510-515 | the first item lacking name, url or category, or -1 when every item has them |
| AdminImport.NewItems | admin.js:526-527 | at most as many items as the batch; every kept item is a batch item whose id the store lacks; `AdminImport.MergeAppendsUnknownIds` states that every such item is kept, in order |
| AdminImport.Commit | admin.js:524-534 | without the merge box or with an empty store the store becomes the batch; with both, the old store is a prefix followed by at most the batch's length of items |
| AdminImport.FillIdsUsesStoreMaximum | admin.js:518-520 | every falsy id gets the same value, the store's largest id plus one, which no stored entry has; other ids and fields are kept |
| AdminImport.MergeAppendsUnknownIds | admin.js:524-528 | a merge keeps the store as prefix and appends the batch items whose id the store lacks, and all of them |
| AdminImport.FilterKeepsIdsUnique | admin.js:527 | filtering a batch with unique ids keeps them unique |
| AdminImport.MergeKeepsIdsUnique | admin.js:524-528 | merging a batch with unique ids into a store with unique ids keeps ids unique |
| AdminImport.IdlessItemsShareAnId | admin.js:510-528 | two id-less items merged into a store holding id 1 both get id 2, so ids repeat |
| AdminView.ComputeStats | admin.js:157-168 | total is the length, popular counts the popular entries, categories counts distinct category values; both at most the total, and at least one category for a non-empty store |
| AdminView.PopularCount | admin.js:162 | the popular filter's length counts the popular positions |
| AdminView.CategoryCount | admin.js:165-166 | the category Set's size is the number of distinct categories |
| AdminView.CategoryDisplayName | admin.js:243-265 | the non-empty label of a known key, otherwise the key itself |
| AdminView.CategoryLabelsSize | admin.js:244-262 | the admin label table has seventeen keys |
| AdminView.IconFor | admin.js:646-667 | an empty icon becomes the default class on the default colour; otherwise an image exactly when the value starts with `http://` or `https://`, with the given background |
| AdminView.EntryIcon | admin.js:194 | a table row's icon always has a non-empty background |
| AdminPage.Admin.constructor | admin.js:2-4 | empty store, not in edit mode, no id being edited |
| AdminPage.Admin.LoadSoftwareData | admin.js:102-137 | an array replaces the store; anything else leaves it |
| AdminPage.Admin.OpenAddSoftwareModal | admin.js:268-283 | leaves edit mode and yields the reset form with its defaults |
| AdminPage.Admin.EditSoftware | admin.js:286-318 | with a matching entry, enters edit mode for the id and yields the pre-filled form; otherwise changes nothing |
| AdminPage.Admin.SubmittedRecord | admin.js:330-341 | the record built from the form; in edit mode it carries the edited id, in add mode `generateId()` of the store, which is above every stored id so no entry has it |
| AdminPage.Admin.StoreRecord | admin.js:377-387 | add mode appends; edit mode replaces the entry with the id or leaves the store when it is gone; unique ids are kept |
| AdminPage.Admin.HandleFormSubmit | admin.js:326-402 | a failed check leaves the store and reports that check; otherwise add mode appends the record with `generateId()` and edit mode replaces by id; unique ids are kept |
| AdminPage.Admin.DeleteSoftware | admin.js:415-430 | without confirmation nothing changes; with it the first entry with the id is spliced out; unique ids are kept |
| AdminPage.Admin.ClearAllData | admin.js:590-601 | with confirmation the store becomes empty, otherwise it is unchanged |
| AdminPage.Admin.ProcessImportedData | admin.js:502-548 | a non-array or a batch with an incomplete item leaves the store and reports the first such item; otherwise the store becomes the merge or the replacement of the id-filled batch, with the count shown |
| PublicQuery.TypeViewIsOneFilter | script.js:339-342 | a type button shows, in order, exactly the entries of the type, or all for "all" |
| PublicQuery.CategoryViewIsOneFilter | script.js:301-312 | the category handler shows, in order, exactly the entries passing the type restriction and the category restriction; "all" drops a restriction |
| PublicQuery.CategoryViewMembers | script.js:301-312 | an entry is shown by a category button exactly when it is stored and passes both restrictions |
| PublicQuery.TypeView | script.js:339-342 | "all" gives the store; otherwise no more entries than stored, each a stored entry of the type |
| PublicQuery.CategoryView | script.js:302-312 | no more entries than stored, each a stored entry passing both restrictions; `PublicQuery.CategoryViewMembers` states the converse |
| PublicQuery.SearchTerm | script.js:402 | the term is no longer than the query and is empty exactly when the lowered query is all whitespace |
| PublicQuery.LowerHasNoUpper | script.js:402 | lowering leaves no upper-case ASCII letter |
| PublicQuery.SearchTermIsNormal | script.js:402 | the search term is trimmed and has no upper-case letter |
| PublicQuery.SearchTermIgnoresCase | script.js:402 | lowering the query first gives the same term |
| PublicQuery.SearchTermIgnoresLeadingWhitespace | script.js:402 | leading whitespace does not change the term |
| PublicQuery.FieldMatches | script.js:434-435 | a non-empty field whose lowered text includes the term; no contract of its own, used by `PublicQuery.SearchViewMembers` |
| PublicQuery.TagMatches | script.js:436 | some tag's lowered text includes the term; no contract of its own, used by `PublicQuery.SearchViewMembers` |
| PublicQuery.Matches | script.js:432-440 | the five-field search test; no contract of its own, `PublicQuery.SearchViewMembers` and `PublicQuery.SearchFindsCategoryKey` state its use |
| PublicQuery.SearchView | script.js:401-440 | every result is a stored entry, no more than stored; with a term each result matches it, without one each result has the selected type |
| PublicQuery.SearchViewMembers | script.js:401-440 | an empty term gives the type view; otherwise the results are exactly the stored entries matching in name, description, a tag, category or type, whatever type is selected |
| PublicQuery.SearchIgnoresCase | script.js:401-440 | the results do not depend on the case of the query |
| PublicQuery.SearchFindsCategoryKey | script.js:432-440 | searching "AI" finds an entry filed under the category "ai" |
| PublicQuery.Listed | script.js:227 | a category that gets a button; no contract of its own, `PublicQuery.CategorySetMembers` and `PublicQuery.CategorySetStep` state its use |
| PublicQuery.CategorySet | script.js:225-230 | the category set has no duplicates |
| PublicQuery.CategorySetMembers | script.js:225-230 | a category is in the set exactly when some entry carries it and it is not blank after trimming; it is kept untrimmed |
| PublicQuery.CategorySetStep | script.js:227-229 | one loop step adds the entry's category exactly when it is not blank |
| PublicQuery.DisplayName | script.js:357-388 | the table's non-empty label when the kind has a table listing the value, the value itself otherwise |
| PublicQuery.CategoryDisplayName | script.js:391-393 | the public label of a known category key, otherwise the key |
| PublicQuery.TypeDisplayName | script.js:396-398 | "software" and "website" get their labels; any other type passes through |
| PublicQuery.CategoryLabelsOfBothPages | script.js:359-377 | the public table has the admin keys with "study" instead of "other" and the same labels; "other" passes through on the public page |
| PublicQuery.ContributorWindow | script.js:124 | the first min(16, n) contributors, in order |
| PublicPage.CollectCategories | script.js:225-230 | the loop collects exactly the category set, without duplicates |
| PublicPage.Public.constructor | script.js:2-7 | empty store and categories, type "all" |
| PublicPage.Public.LoadSoftwareData | script.js:203-247 | an array becomes the store, its category set the buttons and all of it is shown; otherwise store and categories stay and the grid is cleared |
| PublicPage.Public.ClickAllButton | script.js:262-273 | the type becomes "all" and the whole store is shown |
| PublicPage.Public.ClickTypeButton | script.js:328-346 | the type becomes the button's and exactly its entries are shown, in order |
| PublicPage.Public.ClickCategoryButton | script.js:292-316 | shows the entries of the selected type with the category; the type stays |
| PublicPage.Public.PerformSearch | script.js:401-451 | shows the search view; an empty term gives the type view and no count; otherwise every shown entry is stored and matches, and the count is the number shown |

## Left out

- DOM work is not modelled:
  - HTML building, CSS classes and active-button toggling;
  - modals and the form's DOM inputs;
  - the search box being cleared by the buttons;
  - event binding and the `data-event-bound` flags.

  Rendering is reduced to `Public.shown`, the list handed to `renderSoftwareCards`.
- I/O is not modelled:
  - `fetch` of `data.json` and of the GitHub contributor API;
  - `FileReader`, `JSON.parse` and the export download.

  What JSON parsing or a fetch yields is a `Payload` parameter: an array, or anything else.
- `confirm()`, the merge checkbox, notifications, `setTimeout` and `saveToDataFile` are not modelled. `saveToDataFile` is a logging no-op. A confirmation and the checkbox are boolean parameters.
- The `new URL(...)` check in `handleFormSubmit` is a parameter `urlParses`. The URL Standard parser is not modelled.
- `toLowerCase` lowers ASCII letters only. Unicode case mapping is not modelled.
- `DisplayName` and both `CategoryDisplayName` members use plain maps. Keys inherited from `Object.prototype`, such as `constructor`, are not modelled.
- Form text inputs hold any string. Category and type come from selects, and a select holds only one of its options. The model treats the selects as free text. The round trip of `AdminForm.ResubmitUnchanged` and `AdminForm.ResubmitIsIdempotent` therefore assumes that the stored category and type are among the options.
- Import items are assumed to be objects. A `null` item throws before the checks, and that is not modelled.
- JavaScript coercion of ids and of `popular` is not modelled. Ids are integers. `Math.max` over non-numeric ids is out of scope.
- `currentPage`, `itemsPerPage` and `filteredData` are declared in `script.js` and never used.
- `AdminPage.Admin.ProcessImportedData`: the validation loop writes `item.id` into the parsed items in place. The model builds the filled batch as a new list. A batch rejected part-way therefore leaves no trace in the model, while the code leaves the ids already written in the parsed items, which nothing reads afterwards.
- The code has no name or URL duplicate detection, no repair of colliding ids, and no filling of id gaps. The model follows the code:
  - `generateId` is the largest id plus one;
  - every id-less item of one import gets that same id, as `AdminImport.IdlessItemsShareAnId` shows;
  - the merge drops only items whose id the store already has.
- The URL check accepts any string the URL parser accepts, with no restriction to `http` or `https`.
- `PublicQuery.CategoryView`: a category whose key is literally `all` gets a button that applies no category restriction. The model keeps this behaviour.
