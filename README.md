# Digital Notice Board backend: classification, identifiers and update patches

The backend stores two kinds of records, notices and student complaints. Both
route files hold the same three pieces of logic, and this project models them in Dafny:

* **Classification.** Each file has two fixed taxonomy tables, `CATEGORIES`
  and `DEPARTMENTS`, and two lookups, `getCategoryLabel` and `getDeptLabel`.
  A lookup returns the label of the first entry with the given id, or `""`.
  The reserved code `"99"` ("Other") bypasses the table. The stored name
  (`categoryName` / `deptName`) becomes the user's free text
  (`otherCategory` / `otherDept`), and any other code blanks the free text.
* **Identifiers.** A per-kind counter (`"complaintId"`, `"noticeId"`) is
  upserted from 0 and incremented by one. The value after the increment,
  zero-padded to at least three digits, follows a prefix (`CMP`, `NTC`).
* **Update patches.** The update handlers copy the request body. They
  re-resolve an axis only when its code is truthy, write upload paths over
  `image` / `pdf`, and apply the result with `$set` to the record that has the
  identifier. If no record has it, they answer "not found".

Modules:

* `Wrappers`: `Option`.
* `Documents`: a stored record as `map<string,string>`. A JavaScript
  `undefined` is modelled as an absent key, and an `undefined` value given to
  a `$set` leaves that key untouched (see "## Left out"). The module also has
  JavaScript truthiness, `||` defaults, `$set`, and object literals built
  entry by entry.
* `Identifiers`: decimal numerals, `padStart` and the identifier format.
* `Counters`: the counter store as a class.
* `Classification`: tables, lookup, the "99" rule, per-axis update
  resolution, and the consistency invariant between code, name and free text.
* `Collections`: a record collection as a class, with `save` and
  `findOneAndUpdate`/`$set`.
* `Patches`: the `updateData` patch.
* `ComplaintRoutes` and `NoticeRoutes`: each file's tables, the document its
  create handler builds, and its create and update handlers.

Three behaviours of the handlers worth knowing:

* An empty code on update (`categoryId: ""`) is falsy, so the name is not
  recomputed: `""` is stored as the code beside the old name.
* The body is copied into `$set` as it is, so a body that carries
  `complaintId` / `noticeId` overwrites the stored identifier.
* Partial updates can break the code/name/free-text invariant
  (`NoticeRoutes.EmptyCodeLeavesStaleName`,
  `NoticeRoutes.OtherCodeWithoutTextLeavesStaleName`).
  `Patches.UpdateKeepsConsistent` states the bodies that keep it.

## Model

| member | source | states |
|---|---|---|
| Documents.Get | routes/complaintRoutes.js:76-79 | reading a body field: its value, or `undefined` (None) when the key is absent; `Documents.GetExtensional` states that these reads determine the record |
| Documents.GetExtensional | routes/complaintRoutes.js:144-148 | two records that read the same at every key (value or `undefined`) are the same record, so a stored record is fully described field by field |
| Documents.Put | routes/complaintRoutes.js:122-126 | assigning a field of `updateData` sets that key to the value, or drops it when the value is `undefined`; every other key is unchanged |
| Documents.Truthy | routes/complaintRoutes.js:121 | the `if (updateData.categoryId)` test on a string field: present and not empty |
| Documents.FromEntries | routes/complaintRoutes.js:90-105 | an object literal written left to right, leaving out `undefined` values; its keys and values are stated by `Documents.FromEntriesKeys` and `Documents.FromEntriesGet` |
| Documents.OrElse | routes/complaintRoutes.js:93 | `v \|\| fallback` on a string field; the defaults it gives are stated by `ComplaintRoutes.NewComplaintDefaults` |
| Documents.ApplySet | routes/complaintRoutes.js:144-148 | `$set`: the keys are the union; each patch key takes the patch value and every other key keeps its stored value |
| Documents.FromEntriesKeys | routes/complaintRoutes.js:90-105 | an object literal holds no key outside its listed entries |
| Documents.FromEntriesGet | routes/complaintRoutes.js:90-105 | with distinct entry keys, each key of the literal reads back its entry's value; an `undefined` entry leaves the key absent |
| Identifiers.NatToDecimal | routes/complaintRoutes.js:88 | `toString()` of a natural gives a non-empty all-digit numeral with no leading zero except for 0 itself |
| Identifiers.PadStart | routes/complaintRoutes.js:88 | `padStart(width, fill)`: the length is max(width, \|s\|), the string is a suffix, and everything before it is fill; nothing is truncated |
| Identifiers.FormatId | routes/complaintRoutes.js:88 | an identifier is the prefix followed by at least three digits |
| Identifiers.DecimalRoundTrip | routes/complaintRoutes.js:88 | reading the numeral of n back gives n |
| Identifiers.LeadingZeros | routes/complaintRoutes.js:88 | zeros padded on the left do not change a numeral's value |
| Identifiers.FormatIdRoundTrip | routes/noticeRoutes.js:56 | the digits after the prefix read back as the sequence value |
| Identifiers.FormatIdInjective | routes/complaintRoutes.js:88 | distinct sequence values give distinct identifiers |
| Identifiers.WideValuesUnpadded | routes/noticeRoutes.js:56 | from 100 on, the identifier is the prefix and the plain numeral, with no padding and no truncation |
| Identifiers.FormatIdFresh | routes/complaintRoutes.js:83-88 | a value above every value issued so far gives an identifier that none of them has |
| Identifiers.PaddedExamples | routes/complaintRoutes.js:88 | 3 gives `CMP003` and 12 gives `NTC012` |
| Identifiers.WideExample | routes/complaintRoutes.js:88 | 1542 gives `CMP1542`, so nothing is truncated |
| Counters.CounterStore.constructor | models/Notice.js:3-6 | an empty counter store, where every counter reads as 0, since an upserting `$inc` treats a missing `seq` as 0 |
| Counters.CounterStore.Allocate | routes/complaintRoutes.js:83-87 | the counter (0 when absent) goes up by exactly one and that new value is returned; other counters are unchanged; the value is above every value issued before on that counter |
| Counters.AllocateTwice | routes/noticeRoutes.js:50-54 | two allocations on one counter give consecutive values; on two different counters neither disturbs the other; the new counter state is the old one with the first counter set to the first value and the second to the second, every other counter unchanged |
| Classification.Lookup | routes/complaintRoutes.js:49-50 | the label of the first entry whose id equals the code, or `""` when no entry does |
| Classification.FirstMatchExists | routes/noticeRoutes.js:28-29 | a code some entry carries has a first matching entry |
| Classification.LookupDistinct | routes/noticeRoutes.js:28-29 | with distinct ids, any entry carrying the code gives the lookup result |
| Classification.LookupEmptyIff | routes/noticeRoutes.js:28-29 | when no label is empty, the lookup is `""` exactly when the code is not listed |
| Classification.LookupAvoidsLabel | routes/noticeRoutes.js:28-29 | a label only the `"99"` entry carries is never the lookup result for another code |
| Classification.Resolve | routes/complaintRoutes.js:80-81 | code `"99"`: name and free text are the free text exactly; any other code: the free text is `""` and the name is the first matching label, or `""` for an unlisted or absent code |
| Classification.ResolveIdempotent | routes/noticeRoutes.js:47-48 | resolving again from the stored free text gives the same name and free text |
| Classification.OtherLabelOnlyFromFreeText | routes/noticeRoutes.js:47 | a name the resolver produces (on create, or on update with a truthy code) equal to the `"99"` entry's label came from code `"99"` and that typed free text; a body's own `categoryName` sent without a code is not covered |
| Classification.Consistent | routes/noticeRoutes.js:47-48 | the invariant the create handler establishes on one axis: with code `"99"` the name is the free text; otherwise the free text is `""` and the name is the table's label for the code (`""` when unlisted or absent); `NoticeRoutes.NewNoticeConsistent` and `Patches.UpdateKeepsConsistent` are stated against it |
| Classification.ConsistentReadsOnlyAxis | routes/noticeRoutes.js:109-124 | whether a record is consistent on an axis depends only on that axis's three fields |
| Classification.ResolvedIsConsistent | routes/noticeRoutes.js:66-69 | a record whose name and free text are the resolution of its code satisfies the code/name/free-text invariant |
| Classification.ResolveOnUpdate | routes/complaintRoutes.js:121-127 | a truthy code recomputes name and free text by the `"99"` rule; a falsy one (absent or `""`) leaves the patch exactly as it was; no other key changes |
| Classification.ResolveOnUpdateReadsOnlyAxis | routes/noticeRoutes.js:109-124 | an axis's resolution depends only on that axis's three fields |
| Classification.AxesCommute | routes/noticeRoutes.js:109-124 | resolving the category axis and the department axis in either order gives the same patch |
| Collections.IndexOfId | routes/complaintRoutes.js:144-145 | the position of the first record carrying the identifier, or none when no record carries it |
| Collections.Collection.constructor | models/Complaint.js:3-17 | an empty collection queried by the given identifier field |
| Collections.Collection.Save | routes/complaintRoutes.js:107 | the new record is appended and nothing else changes |
| Collections.Collection.FindOneAndSet | routes/complaintRoutes.js:144-150 | no record with the identifier: nothing changes and the result is "not found"; otherwise only that record changes, to the stored record overridden by the patch, and the updated record is returned |
| Patches.WithUploads | routes/complaintRoutes.js:139-142 | an uploaded image or pdf path overrides that key; all other keys are untouched |
| Patches.UpdateData | routes/complaintRoutes.js:118-142 | every non-derived key is the body's; each axis is recomputed exactly when its own code is truthy and is the body's otherwise; uploads override `image` / `pdf` |
| Patches.UpdateKeepsOtherFields | routes/complaintRoutes.js:118-148 | a stored field that is neither in the body nor derived is unchanged by the update |
| Patches.PatchKeys | routes/noticeRoutes.js:106-129 | the patch holds no key beyond the body's and the derived ones |
| Patches.PatchOnAxis | routes/noticeRoutes.js:106-124 | on either axis, the patch's code is the body's, and the name and free text are recomputed exactly when the code is truthy |
| Patches.UpdateKeepsConsistent | routes/noticeRoutes.js:106-135 | a consistent record stays consistent when the body leaves that axis alone, or sends a truthy code together with its free text when the code is `"99"` |
| ComplaintRoutes.CategoryLabel | routes/complaintRoutes.js:49 | `getCategoryLabel`: the first matching category label, or `""` for a code the table does not list |
| ComplaintRoutes.DeptLabel | routes/complaintRoutes.js:50 | `getDeptLabel`: the first matching department label, or `""` for a code the table does not list |
| ComplaintRoutes.CategoryIdsDistinct | routes/complaintRoutes.js:6-33 | the complaint category ids are pairwise distinct |
| ComplaintRoutes.DepartmentIdsDistinct | routes/complaintRoutes.js:35-47 | the department ids are pairwise distinct |
| ComplaintRoutes.TableLabels | routes/complaintRoutes.js:6-47 | labels are non-empty, both tables end with (`"99"`, `"Other"`), and no other id is labelled `"Other"` |
| ComplaintRoutes.ListedLabels | routes/complaintRoutes.js:49-50 | any listed code's lookup gives that entry's label |
| ComplaintRoutes.EmptyLabelIffUnlisted | routes/complaintRoutes.js:49-50 | a lookup gives `""` exactly for codes the table does not list |
| ComplaintRoutes.UnlistedExamples | routes/complaintRoutes.js:49-50 | category `"21"`, the empty code and department `"11"` all get `""` |
| ComplaintRoutes.ComplaintEntries | routes/complaintRoutes.js:90-105 | the fourteen entries of the `new Complaint({...})` literal in the handler's order; `ComplaintRoutes.NewComplaintId`, `NewComplaintCopies`, `NewComplaintDefaults` and `NewComplaintClassification` state what each holds |
| ComplaintRoutes.NewComplaint | routes/complaintRoutes.js:90-105 | the literal the create handler builds, as a record (before the schema drops undeclared fields); its fields are stated by the `NewComplaint…` lemmas below |
| ComplaintRoutes.EntryKeysDiffer | routes/complaintRoutes.js:90-105 | the complaint literal names each field once |
| ComplaintRoutes.NewComplaintKeys | routes/complaintRoutes.js:90-105 | a new complaint holds only its fourteen fields, whatever else the body carries |
| ComplaintRoutes.NewComplaintId | routes/complaintRoutes.js:88-91 | the identifier is `CMP` and the padded sequence value |
| ComplaintRoutes.NewComplaintDefaults | routes/complaintRoutes.js:93-96 | status is the body's if non-empty, else `"pending"`; resolution is the body's if non-empty, else `""` |
| ComplaintRoutes.NewComplaintCopies | routes/complaintRoutes.js:92-99 | student name, subject, description and both codes are stored as sent, or left out when absent |
| ComplaintRoutes.NewComplaintClassification | routes/complaintRoutes.js:80-81 | both names and both free texts are the `"99"` rule's resolution of the body's codes; a missing upload is stored as `""` |
| ComplaintRoutes.NewComplaintConsistent | routes/complaintRoutes.js:97-102 | a new complaint is consistent on both axes |
| ComplaintRoutes.FirstId | routes/complaintRoutes.js:83-88 | sequence value 1, the first one a fresh counter hands out, gives `CMP001` |
| ComplaintRoutes.Create | routes/complaintRoutes.js:83-107 | the whole new counter state: only the complaint counter changes, going up by one, and its issued history gains the new value; the document for the new value is saved, with id `CMP` and that value padded; the id differs from every id issued before |
| ComplaintRoutes.Update | routes/complaintRoutes.js:115-150 | "not found" with nothing changed when no complaint has the id; otherwise that complaint becomes the stored record overridden by the patch |
| NoticeRoutes.CategoryLabel | routes/noticeRoutes.js:28 | `getCategoryLabel`: the first matching category label, or `""` for a code the table does not list |
| NoticeRoutes.DeptLabel | routes/noticeRoutes.js:29 | `getDeptLabel`: the first matching department label, or `""` for a code the table does not list |
| NoticeRoutes.IdsAreDistinct | routes/noticeRoutes.js:5-26 | both notice tables have pairwise distinct ids |
| NoticeRoutes.TableLabels | routes/noticeRoutes.js:5-26 | labels are non-empty, `"99"` is present in both tables as `"Other"`, and no other id is labelled `"Other"` |
| NoticeRoutes.LabelsByCode | routes/noticeRoutes.js:28-29 | a listed code gets its entry's label, and the label is `""` exactly for unlisted codes |
| NoticeRoutes.OtherNameOnlyTyped | routes/noticeRoutes.js:47-48 | the resolver (on create, or on update with a truthy code) produces the name `"Other"` only from code `"99"` with typed text `"Other"`; an update body may still send `categoryName: "Other"` itself |
| NoticeRoutes.NoticeEntries | routes/noticeRoutes.js:58-73 | the eleven entries of the `new Notice({...})` literal in the handler's order; `NoticeRoutes.NewNoticeId`, `NewNoticeCopies` and `NewNoticeClassification` state what each holds |
| NoticeRoutes.NewNotice | routes/noticeRoutes.js:61-73 | the literal the create handler builds, as a record (before schema validation and defaults); its fields are stated by the `NewNotice…` lemmas below |
| NoticeRoutes.EntryKeysDiffer | routes/noticeRoutes.js:61-73 | the notice literal names each field once |
| NoticeRoutes.NewNoticeKeys | routes/noticeRoutes.js:61-73 | a new notice holds only its eleven fields |
| NoticeRoutes.NewNoticeId | routes/noticeRoutes.js:56-62 | the identifier is `NTC` and the padded sequence value |
| NoticeRoutes.NewNoticeCopies | routes/noticeRoutes.js:63-70 | title, both codes and content are stored as sent, or left out when absent |
| NoticeRoutes.NewNoticeClassification | routes/noticeRoutes.js:47-48 | both names and free texts are the `"99"` rule's resolution; missing uploads become `""` |
| NoticeRoutes.NewNoticeConsistent | routes/noticeRoutes.js:66-69 | a new notice is consistent on both axes |
| NoticeRoutes.EmptyCodeUnlisted | routes/noticeRoutes.js:5-26 | neither table lists the empty code |
| NoticeRoutes.EmptyCodeAsymmetry | routes/noticeRoutes.js:109 | an empty category code yields name `""` and free text `""` in the literal the create handler builds, but on update the patch keeps the body's own name |
| NoticeRoutes.EmptyCodeLeavesStaleName | routes/noticeRoutes.js:109-115 | updating an "Academic" notice with `categoryId: ""` stores `""` beside the old name "Academic", breaking consistency |
| NoticeRoutes.OtherCodeWithoutTextLeavesStaleName | routes/noticeRoutes.js:110-114 | updating with code `"99"` and no free text keeps the old name beside the new code |
| NoticeRoutes.FirstId | routes/noticeRoutes.js:50-56 | sequence value 1, the first one a fresh counter hands out, gives `NTC001` |
| NoticeRoutes.Create | routes/noticeRoutes.js:50-75 | the whole new counter state: only the notice counter changes, going up by one, and its issued history gains the new value; the document for the new value is saved, with id `NTC` and that value padded; the id differs from every id issued before |
| NoticeRoutes.Update | routes/noticeRoutes.js:103-137 | "not found" with nothing changed when no notice has the id; otherwise that notice becomes the stored record overridden by the patch |

## Left out

* Express routing, HTTP status codes and response bodies, beyond the found / not found outcome, are not modelled. The same goes for server start-up in `index.js`, which is I/O wiring.
* Uploads: multer disk storage and its `Date.now()` file names are not modelled. An upload is an optional opaque path string, since filesystem effects and the clock are outside the model.
* Mongoose schema handling is not modelled: strict-mode dropping of fields the schema does not declare, `required` validation, type casting, schema defaults applied at save, and `timestamps`. These belong to the persistence library. In particular, `models/Complaint.js` declares no `categoryName` / `deptName`, so Mongoose would not persist those two fields of a complaint, on create or on `$set`, while this model does: a saved complaint with a code other than `"99"` then has no name and is not `Classification.Consistent`, although `ComplaintRoutes.NewComplaintConsistent` holds of the literal. Likewise, `models/Notice.js` requires `categoryId` and `deptId`, so a notice whose body sends an empty or absent code fails validation and is not saved, although its counter has already moved on. And the schema default `""` for `otherCategory` / `otherDept` fills a free text left `undefined`: a notice created with code `"99"` and no free text is saved with `otherCategory: ""` and no `categoryName`, which is not `Classification.Consistent`, although `NoticeRoutes.NewNoticeConsistent` holds of the literal.
* `$set` with an `undefined` value: the model leaves such a key untouched, as Mongoose 6 and later do by stripping it from the update. Mongoose 5 would write `null` instead. The repository pins no Mongoose version, so this is an assumption. `NoticeRoutes.OtherCodeWithoutTextLeavesStaleName` and `Patches.UpdateKeepsConsistent` depend on it.
* Database failures (the 500 branches) and the uniqueness index on the identifier are not modelled. These are foreign-library errors.
* The atomicity and concurrency of `findOneAndUpdate` with `$inc` / upsert are not modelled. Each allocation is one sequential step.
* The list, single-fetch and delete handlers and `routes/studentAuth.js` are not modelled. They are plain queries with no logic of their own.
* Counters.CounterStore.Allocate: the counter is an unbounded natural. The loss of precision of a JavaScript number above 2^53 is not modelled.
* Request fields are modelled as strings or absent. A body field that is not a string, such as an array from a repeated form field, is not modelled.
