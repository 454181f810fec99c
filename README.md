# Safety Patrol — a verified model of the inspection and follow-up core

Safety Patrol is a React/Supabase web app for workplace safety rounds. An
inspector fills a checklist of items per hazard category, and each item is
marked normal, abnormal or not relevant. Every abnormal item becomes a
corrective action that the responsible unit follows up. Dashboards, reports and
spreadsheet exports summarise the inspections.

This Dafny project models the logic that sits inside the pages and hooks:

- **Corrective-action derivation.** Both the upsert loop of the inspections
  hook, with the key `inspectionId-itemId`, and the batch insert of the
  checklist page.
- **Lifecycle update.** The update of a corrective action and the follow-up
  page's edit form.
- **Rollups.**
  - The three dashboard rollups: by building; by division → department →
    occurrence → category; and by custom item.
  - The follow-up grouping and status summary.
  - The local-storage statistics.
- **Record lists and the checklist session.** Upsert, find and delete by id;
  checklist initialisation, editing and paging.
- **Export and display helpers.**
  - The report merge of items with their corrective actions.
  - The image lists, both de-duplicated and not.
  - The Excel rows and pictures, and the CSV quoting.
  - The inspection form's validation and pickers.

**How the pieces are modelled.**

- **Records and the store.** Records are datatypes. The Supabase tables are
  maps keyed by id. A failed store call is a boolean or a set of rejected keys
  passed as a parameter.
- **Tables and clock values.** The tables `DIVISIONS`, `INSPECTION_CATEGORIES`
  and `BUILDINGS` are parameters. So are `crypto.randomUUID()`, `Date.now()`
  and the clock strings.
- **JavaScript objects used as dictionaries.** These are `Dicts.Dict`: an
  insertion-ordered key list plus a map.
- **Pages with step-by-step state.** The checklist session, the inspection
  form, the follow-up page, the corrective-action table, the local store and
  the hook's backend are classes whose methods update fields.
- **Loops.** The `forEach`/`for` loops are methods with loop invariants. Each
  is proved equal to a fold function, and the counting properties are lemmas
  about that fold.

**Modules, by source file.**

- `Checklist`: `src/pages/Inspection.tsx`.
- `InspectionsHook`: `src/hooks/useInspections.tsx`.
- `CorrectiveActions`: `src/hooks/useCorrectiveActions.tsx`.
- `FollowUp`: `src/pages/FollowUp.tsx`.
- `InspectionStorage`: `src/lib/inspectionStorage.ts`.
- `Dashboard`, `DashboardDivisions`, `DashboardCustom`, `DashboardView` and
  `DashboardCsv`: `src/pages/Dashboard.tsx`.
- `Reports`: `src/pages/Reports.tsx`.
- `ReportDetail`: `src/pages/ReportDetail.tsx`.
- `ExcelExport`: `src/lib/exportInspectionToExcel.ts`.
- `InspectionForm`: `src/pages/InspectionForm.tsx`.
- Shared modules:
  - `Common`: `Option`, `||`/`??`, JavaScript `trim`, ASCII `toLowerCase`, `includes`, `split`/`join`.
  - `Seqs`: filter, count, find, order-preserving de-duplication.
  - `Dicts`.
  - `Dates`: ISO `YYYY-MM-DD` dates and `HH:MM[:SS]` times.
  - `Records`: the data model and status constants.

**Where the code and the design differ, the model follows the code:**

- **Missing id on update.** Updating a corrective action whose id does not
  exist changes nothing and still reports success. There is no not-found error.
- **Re-derivation.** It writes `status` back to "กำลังตรวจสอบ" and `is_new`
  back to true. It leaves the `action_*` fields alone.
- **Malformed inspections.** An inspection missing a building or a division is
  not rejected before writing.
- **Stale corrective actions.** They are never deleted. An item that stops
  being abnormal keeps its old corrective action, so "no corrective action for
  a non-abnormal item" does not hold after a re-derivation.
- **Derivation failures.** They are reported by item *name* (the toast text),
  not by item id.
- **Empty department.** An empty department string goes to the "no
  sub-department" bucket, like an absent one, because the code uses `||`.
- **Zero-item inspections.** An inspection with no items still creates an
  all-zero building bucket and an occurrence with no categories.
- **Latest date.** It is a fold over `Date` objects, not a comparison of
  strings. An invalid first date is never replaced.
- **Writes.** The per-item upserts of the hook are issued one after another.
- **CSV header.** The header line of the CSV export is not quoted. Only the
  data fields are.

## Model

| member | source | states |
|---|---|---|
| Records.StatusText | src/lib/exportInspectionToExcel.ts:95-100 | the label is "ปกติ" exactly for normal, "ไม่ปกติ" exactly for abnormal, and "ไม่เกี่ยวข้อง" exactly for every other status |
| Common.OrTruthy | src/pages/Dashboard.tsx:496-503 | `a \|\| d` on an optional string is the value when it is non-empty and the default otherwise |
| Common.TrimBlankIff | src/pages/FollowUp.tsx:140 | `s.trim()` is empty exactly when every character of `s` is ECMAScript whitespace |
| Common.TrimIdempotent | src/pages/InspectionForm.tsx:113-114 | a trimmed string neither starts nor ends with whitespace, and trimming it again changes nothing |
| Common.LowerIdempotent | src/pages/InspectionForm.tsx:76-78 | lower-casing twice is lower-casing once |
| Common.IncludesIff | src/pages/Dashboard.tsx:150-155 | `s.includes(t)` holds exactly when `t` occurs in `s` at some position |
| Common.IndexOf | src/pages/ReportDetail.tsx:59 | the first occurrence of the separator, or none when it does not occur |
| Common.SplitJoin | src/pages/ReportDetail.tsx:59 | joining `s.split(sep)` with `sep` gives back `s` |
| Common.SplitPiecesFree | src/pages/ReportDetail.tsx:59 | no piece of `s.split(sep)` contains `sep` |
| Common.NatToStringRoundTrip | src/pages/Inspection.tsx:240 | the decimal text of `Date.now()` used in a custom item id reads back as the same number |
| Common.NatToStringInjective | src/pages/Inspection.tsx:240 | different timestamps give different id texts |
| Common.JoinAtLastInjective | src/hooks/useInspections.tsx:70 | two strings `p-a` and `q-b` whose suffixes contain no `-` are equal only when `p = q` and `a = b` |
| Dates.FormatThenParse | src/pages/Dashboard.tsx:144-148 | every valid calendar date written as `YYYY-MM-DD` parses back to itself |
| Dates.ParseThenFormat | src/pages/Dashboard.tsx:144-148 | a string that parses as a date is exactly the canonical text of that date |
| Dates.NextDayBound | src/pages/Reports.tsx:251-255 | a date is before the day after `e` exactly when it is on or before `e` |
| Dates.DateTimeOrder | src/pages/Dashboard.tsx:817-823 | `new Date("date time")` orders first by date and, on the same date, by time of day |
| Dates.NextDay | src/pages/Reports.tsx:254 | `e.setDate(e.getDate() + 1)` gives a valid date after `e` |
| Dates.ParseTime | src/pages/Dashboard.tsx:817-823 | a time that parses is a second of the day, from 0 to 86399 |
| Common.Lower | src/pages/Dashboard.tsx:150-155 | `toLowerCase` keeps the length and maps each character on its own |
| Seqs.FindIndex | src/lib/inspectionStorage.ts:7 | `findIndex` gives an index whose element passes and no earlier element passes, or none when no element passes |
| Seqs.Find | src/pages/Dashboard.tsx:392 | `find` gives none exactly when no element passes, and otherwise an element that passes |
| Seqs.Dedup | src/lib/exportInspectionToExcel.ts:28 | `Array.from(new Set(xs))` holds every element of `xs`, each once, and nothing else |
| Seqs.DedupOrder | src/lib/exportInspectionToExcel.ts:28 | the de-duplicated list keeps the order of first occurrences |
| Seqs.DedupNoDups | src/pages/Reports.tsx:378-383 | a list without repeats is left as it is |
| Checklist.CategoryItems | src/pages/Inspection.tsx:41-49 | one item per checklist entry of the category |
| Checklist.CanonicalItemsShape | src/pages/Inspection.tsx:38-52 | every initial item is the `index`-th entry of some category, with id `${key}_${index}`, status normal and `isCustom` false |
| Checklist.CanonicalItemsCount | src/pages/Inspection.tsx:38-52 | there are exactly as many initial items as checklist entries over all categories |
| Checklist.CanonicalIdInjective | src/pages/Inspection.tsx:43 | two initial items share an id only when they come from the same category key and index |
| Checklist.CanonicalIdsDistinct | src/pages/Inspection.tsx:38-52 | with distinct category keys, the initial item ids are all different |
| Checklist.UpdateById | src/pages/Inspection.tsx:126-136 | the update-by-id map keeps the number of items |
| Checklist.StatusUpdateEffect | src/pages/Inspection.tsx:126-130 | `updateItemStatus` sets the status of the items with that id and changes nothing else; order and ids are unchanged |
| Checklist.FieldUpdateEffect | src/pages/Inspection.tsx:132-136 | `updateItemDetails` sets the one named field of the items with that id and keeps their id, status and images; other items are unchanged |
| Checklist.ImageAppendEffect | src/pages/Inspection.tsx:219-225 | uploaded images go after the item's existing images (none when absent); other items and other fields are unchanged |
| Checklist.UpdateAbsentId | src/pages/Inspection.tsx:126-136 | an update for an id no item has leaves the list as it is |
| Checklist.ChecklistSession.constructor | src/pages/Inspection.tsx:38-52 | the page starts with no items, on the first category, with an empty custom-item name and the dialog closed |
| Checklist.ChecklistSession.InitializeItems | src/pages/Inspection.tsx:38-52 | the nested loops produce exactly the canonical item list, in category then entry order |
| Checklist.ChecklistSession.UpdateItemStatus | src/pages/Inspection.tsx:126-130 | the items become the status update of the old items; paging and dialog state are unchanged |
| Checklist.ChecklistSession.UpdateItemDetails | src/pages/Inspection.tsx:132-136 | the items become the field update of the old items; paging and dialog state are unchanged |
| Checklist.ChecklistSession.AppendImages | src/pages/Inspection.tsx:208-225 | once at least one file has been read, the items become the image-append update of the old items; paging and dialog state are unchanged |
| Checklist.ChecklistSession.AddCustomItem | src/pages/Inspection.tsx:233-251 | a blank name changes nothing; otherwise exactly one item is appended, with id `custom_${key}_${now}`, the current category's name, the name as typed, status normal and `isCustom` true; the name is then cleared and the dialog closed |
| Checklist.AddCustomItemGuard | src/pages/Inspection.tsx:234 | the name is rejected exactly when it is all whitespace |
| Checklist.ChecklistSession.HandleNext | src/pages/Inspection.tsx:253-258 | the category index goes up by one unless it is the last one, so it stays within the categories |
| Checklist.ChecklistSession.HandlePrevious | src/pages/Inspection.tsx:260-265 | the category index goes down by one unless it is the first one |
| Checklist.ActionBatchShape | src/pages/Inspection.tsx:337-354 | the batch holds exactly one payload per abnormal item, in item order; each has the saved inspection's id, status "กำลังตรวจสอบ", `is_new` true and the draft's building, division and department |
| Checklist.ActionDefaults | src/pages/Inspection.tsx:340-353 | a payload copies the item's id, name and category; responsible defaults to "ไม่ระบุ"; empty details and recommendations become null; absent images become [] |
| Checklist.HandleSaveEffect | src/pages/Inspection.tsx:304-370 | a user or inspection-insert error writes nothing; otherwise the inspection is written with the given id and every item's images removed; with no abnormal item no batch is sent; success means no error at all; on success the actions written are exactly `ActionFor` of each abnormal item, in item order, and on failure none are; once the inspection insert succeeds the row written is `InspectionInsert` of the draft |
| InspectionsHook.CorrectiveIdSameInspection | src/hooks/useInspections.tsx:70 | within one inspection, two items get the same corrective-action id exactly when their ids are equal |
| InspectionsHook.CorrectiveIdInjective | src/hooks/useInspections.tsx:70 | for item ids without `-`, the id `${inspection.id}-${item.id}` determines both parts |
| InspectionsHook.OverlayOverlay | src/hooks/useInspections.tsx:69-81 | a second upsert of an action overrides the first one's columns and keeps every column it does not send, the follow-up fields in particular |
| InspectionsHook.OverlayNewRow | src/hooks/useInspections.tsx:69-81 | upserting onto a row created by an earlier upsert gives the row the second payload would create |
| InspectionsHook.WrittenIds | src/hooks/useInspections.tsx:68-87 | the keys written are exactly the derived ids of the listed items that the store did not reject |
| InspectionsHook.AbnormalItems | src/hooks/useInspections.tsx:63-65 | the abnormal items in order: as many as there are abnormal items, each an abnormal item of the inspection, and every abnormal item is among them |
| InspectionsHook.LastPayload | src/hooks/useInspections.tsx:68-81 | a key has a payload exactly when it is written; that payload is the derived payload of one of the items |
| InspectionsHook.WriteActionsAt | src/hooks/useInspections.tsx:68-87 | after the loop, a key is present exactly when it was present or written; a written key holds the last payload laid over the old row, or a new row; other keys keep their rows |
| InspectionsHook.WriteActionsEffect | src/hooks/useInspections.tsx:68-87 | the loop adds the written keys and nothing else; unwritten rows are unchanged; no existing row loses its follow-up fields; every written row carries an item's payload with status "กำลังตรวจสอบ", `is_new` true and the inspection's building, division, department and id |
| InspectionsHook.PayloadDefaults | src/hooks/useInspections.tsx:69-81 | the payload has the deterministic id, status "กำลังตรวจสอบ", `is_new` true, the item's responsible or "ไม่ระบุ", its category and its name |
| InspectionsHook.WriteActionsIdempotent | src/hooks/useInspections.tsx:63-87 | running the derivation twice on the same inspection leaves the store as one run does: no duplicates, and follow-up fields are untouched |
| InspectionsHook.WrittenCount | src/hooks/useInspections.tsx:68-81 | with distinct item ids, one key is written per item |
| InspectionsHook.FilterDistinct | src/hooks/useInspections.tsx:63-65 | filtering keeps item ids distinct |
| InspectionsHook.OnePerAbnormalItem | src/hooks/useInspections.tsx:63-81 | with distinct item ids, as many keys are written as there are abnormal items, and an item's key is written exactly when the item is abnormal |
| InspectionsHook.AbnormalItemKey | src/hooks/useInspections.tsx:63-81 | the key of the `j`-th item is written exactly when that item is abnormal |
| InspectionsHook.FailedNamesCount | src/hooks/useInspections.tsx:83-86 | one failure is reported per item whose upsert the store rejected; the loop goes on after a failure |
| InspectionsHook.Backend.constructor | src/hooks/useInspections.tsx:6-8 | the backend starts with the given tables |
| InspectionsHook.Backend.SaveInspection | src/hooks/useInspections.tsx:44-98 | a rejected inspection upsert writes nothing and reports nothing; otherwise the inspection row is upserted and the actions table becomes the derivation over the abnormal items, with their failures reported |
| InspectionsHook.UpsertAbnormalActions | src/hooks/useInspections.tsx:67-90 | the sequential loop leaves the actions table equal to the derivation fold and reports exactly the rejected items |
| InspectionsHook.SaveThenLoad | src/hooks/useInspections.tsx:20-33 | loading back a saved row gives the inspection's id, date, building, division, department and items; the time falls back to the clock; the inspector name falls back to ""; the floor is ""; the survey team is [] |
| CorrectiveActions.NormalizeRoundTrip | src/hooks/useCorrectiveActions.tsx:44-55 | normalisation changes nothing on a row whose image lists and `is_new` are present, and loses nothing of a normalised action |
| CorrectiveActions.NormalizeDefaults | src/hooks/useCorrectiveActions.tsx:44-55 | non-array image lists become [], a missing `is_new` becomes true, and every other field is copied |
| CorrectiveActions.MergeEffect | src/hooks/useCorrectiveActions.tsx:79-83 | an update always writes `is_new = false` and the new `updated_at`; each supplied field is replaced; each absent field keeps its value; every other column (id, inspection, item, building, division, department, category, item name, responsible, inspection details, recommendations and images, created time) is unchanged, so the row differs from the old one only in the seven updated columns |
| CorrectiveActions.MergeIdempotent | src/hooks/useCorrectiveActions.tsx:79-84 | applying the same update twice at the same time equals applying it once |
| CorrectiveActions.MergeTwice | src/hooks/useCorrectiveActions.tsx:79-84 | two updates in a row equal one update whose fields take the later value where it is given |
| CorrectiveActions.ActionTable.constructor | src/hooks/useCorrectiveActions.tsx:31 | the table starts with the given rows |
| CorrectiveActions.ActionTable.UpdateAction | src/hooks/useCorrectiveActions.tsx:66-95 | the result is true exactly when the store reports no error; an error changes nothing; an existing id gets the merged row; a missing id changes nothing and still returns true |
| CorrectiveActions.UpdateOnlyTarget | src/hooks/useCorrectiveActions.tsx:79-84 | only the row with the given id changes, and no row is added or removed |
| FollowUp.GroupKeyDefaults | src/pages/FollowUp.tsx:71-73 | the grouping keys default to "ไม่ระบุผู้รับผิดชอบ", "ไม่ระบุอาคาร", and department then division then "ไม่ระบุหน่วยงาน"; no key is empty |
| FollowUp.GroupByResponsible | src/pages/FollowUp.tsx:68-82 | the `forEach` loop builds exactly the three-level grouping fold |
| FollowUp.FilterKeyNested | src/pages/FollowUp.tsx:70-79 | selecting by responsible, then building, then unit selects exactly the actions with that key triple |
| FollowUp.GroupedResponsible | src/pages/FollowUp.tsx:75 | a responsible party has an entry exactly when some action has it, and the entry groups exactly those actions |
| FollowUp.GroupedBuilding | src/pages/FollowUp.tsx:76 | under a responsible party, a building has an entry exactly when one of its actions has that building |
| FollowUp.GroupedUnit | src/pages/FollowUp.tsx:77-79 | a unit list holds exactly the actions with that unit key, in order |
| FollowUp.GroupedLeaf | src/pages/FollowUp.tsx:68-82 | the leaf for (responsible, building, unit) exists exactly when some action has those keys, and it is exactly those actions in their original order |
| FollowUp.LeafMembership | src/pages/FollowUp.tsx:68-82 | every action in a leaf comes from the input and has that leaf's keys |
| FollowUp.DeptStepCount | src/pages/FollowUp.tsx:77-79 | pushing an action adds one to the leaf sizes |
| FollowUp.BuildingStepCount | src/pages/FollowUp.tsx:76-79 | placing an action under a building adds one to that level's leaf sizes |
| FollowUp.GroupedCountAll | src/pages/FollowUp.tsx:68-82 | every action lands in exactly one leaf: the leaf sizes add up to the number of actions |
| FollowUp.CountByResponsible | src/pages/FollowUp.tsx:85-92 | the counting loop builds exactly the per-responsible count fold |
| FollowUp.CountsMatchGroups | src/pages/FollowUp.tsx:85-92 | the counts have the grouping's keys in the same order, and each count is the number of actions grouped under that party |
| FollowUp.SummarizeStatuses | src/pages/FollowUp.tsx:95-107 | the loop builds exactly the status summary |
| FollowUp.SummaryCount | src/pages/FollowUp.tsx:95-107 | the three buckets together hold as many actions as have one of the three statuses |
| FollowUp.SummaryPartition | src/pages/FollowUp.tsx:95-107 | each bucket holds exactly the actions with its status; other statuses are dropped, so the buckets hold at most all actions, and all of them exactly when every status is known |
| FollowUp.Seed | src/pages/FollowUp.tsx:112-117 | the edit form takes the action's status, and its action fields with null shown as "" |
| FollowUp.RemoveIndexExact | src/pages/FollowUp.tsx:681 | removing index `idx` deletes exactly that entry and keeps the rest in order; an index out of range changes nothing |
| FollowUp.RemoveIndexLength | src/pages/FollowUp.tsx:681 | removing a valid index shortens the list by one |
| FollowUp.FollowUpPage.constructor | src/pages/FollowUp.tsx:56-65 | no action is selected, the form is empty, no image is pending and the dialog is closed |
| FollowUp.FollowUpPage.OpenEdit | src/pages/FollowUp.tsx:109-120 | when logged out nothing changes; otherwise the action is selected, the form is seeded, the images are the existing action images and the dialog opens |
| FollowUp.FollowUpPage.UploadImages | src/pages/FollowUp.tsx:122-134 | uploaded images are appended to the pending list |
| FollowUp.FollowUpPage.RemoveImage | src/pages/FollowUp.tsx:681 | the pending list loses exactly the image at that index |
| FollowUp.FollowUpPage.Save | src/pages/FollowUp.tsx:136-157 | nothing is sent without a selection or when the details are blank; otherwise the update is sent with the form and the images; the dialog closes and the selection clears only on success |
| FollowUp.SaveGuard | src/pages/FollowUp.tsx:140 | the save is refused exactly when the details are all whitespace |
| FollowUp.SavedRow | src/pages/FollowUp.tsx:145-151 | the saved row has the form's status, details, date, person and images, is no longer new, and keeps its id and inspector fields |
| InspectionStorage.IndexOfId | src/lib/inspectionStorage.ts:7 | `findIndex` returns the first index with that id, or none when no record has it |
| InspectionStorage.FindById | src/lib/inspectionStorage.ts:26-29 | `getInspectionById` returns the first record with the id, or none when there is none |
| InspectionStorage.RemoveId | src/lib/inspectionStorage.ts:31-35 | the filtered list has no record with the id and keeps every other record |
| InspectionStorage.UpsertLength | src/lib/inspectionStorage.ts:5-13 | the list grows by one only for a new id |
| InspectionStorage.UpsertOthers | src/lib/inspectionStorage.ts:7-13 | an existing id is overwritten in place and every other record keeps its place; a new id is appended |
| InspectionStorage.IndexOfIdIs | src/lib/inspectionStorage.ts:7 | the first index carrying the id is the one `findIndex` returns |
| InspectionStorage.UpsertThenFind | src/lib/inspectionStorage.ts:5-29 | after saving `x`, looking up its id returns `x` |
| InspectionStorage.UpsertIdempotent | src/lib/inspectionStorage.ts:5-13 | saving the same record twice equals saving it once |
| InspectionStorage.UpsertFindOther | src/lib/inspectionStorage.ts:5-29 | saving `x` does not change the lookup of any other id |
| InspectionStorage.RemoveIdAppend | src/lib/inspectionStorage.ts:33 | deleting from a concatenation deletes from each part |
| InspectionStorage.RemoveIdIdempotent | src/lib/inspectionStorage.ts:31-35 | deleting twice equals deleting once, and afterwards the id is not found |
| InspectionStorage.RemoveAbsentId | src/lib/inspectionStorage.ts:31-35 | deleting an id no record has leaves the list as it is |
| InspectionStorage.SumOfIndicator | src/lib/inspectionStorage.ts:64-68 | adding one per abnormal item counts the abnormal items |
| InspectionStorage.AllItemsAbnormal | src/lib/inspectionStorage.ts:58-68 | the per-inspection abnormal counts add up to the abnormal items of all inspections |
| InspectionStorage.StatsTotals | src/lib/inspectionStorage.ts:37-78 | building totals and division totals each add up to `totalInspections`; their abnormal counts add up to the number of abnormal items; category totals add up to the number of items and category abnormal counts to the abnormal items |
| InspectionStorage.FoldInspections | src/lib/inspectionStorage.ts:44-56 | counting a list of inspections gives their number and their abnormal items |
| InspectionStorage.FoldItems | src/lib/inspectionStorage.ts:58-68 | counting a list of items gives their number and the abnormal ones |
| InspectionStorage.BuildingEntry | src/lib/inspectionStorage.ts:46-49 | a building has an entry exactly when some inspection is at it; the entry counts those inspections (not items) and their abnormal items |
| InspectionStorage.DivisionEntry | src/lib/inspectionStorage.ts:52-55 | a division has an entry exactly when some inspection is in it; the entry counts those inspections and their abnormal items |
| InspectionStorage.CategoryEntry | src/lib/inspectionStorage.ts:58-68 | a category has an entry exactly when some item has it; the entry counts those items and the abnormal ones |
| InspectionStorage.BumpedGet | src/lib/inspectionStorage.ts:46-49 | `acc[k] ??= zero; acc[k].x++` creates the entry at the end of the keys when missing, adds to it, and changes no other key |
| InspectionStorage.BumpedPut | src/lib/inspectionStorage.ts:46-49 | bumping an entry just written adds to the value written |
| InspectionStorage.Bump | src/lib/inspectionStorage.ts:46-49 | the in-place create-then-increment equals the bumped dictionary |
| InspectionStorage.ItemsTallyProjections | src/lib/inspectionStorage.ts:58-69 | the item loop adds the abnormal items to the building and division entries, and runs the category count over the items |
| InspectionStorage.AbnormalTallyPut | src/lib/inspectionStorage.ts:64-67 | the item loop adds the number of abnormal items to the entry's abnormal count and leaves its total |
| InspectionStorage.CategoryStepGroups | src/lib/inspectionStorage.ts:59-67 | one item's category update is one step of the category grouping |
| InspectionStorage.CategoryFoldContinues | src/lib/inspectionStorage.ts:58-69 | counting an inspection's items continues the category grouping over all items so far |
| InspectionStorage.InspectionEntry | src/lib/inspectionStorage.ts:46-68 | an inspection's building or division entry counts it once and adds its abnormal items |
| InspectionStorage.CountOneTally | src/lib/inspectionStorage.ts:44-69 | one pass of the outer loop is one step of each of the three groupings |
| InspectionStorage.CountOne | src/lib/inspectionStorage.ts:44-69 | the loop body for one inspection updates the three dictionaries as one step of each grouping |
| InspectionStorage.InspectionStore.constructor | src/lib/inspectionStorage.ts:21-24 | storage starts with no records |
| InspectionStorage.InspectionStore.SaveInspection | src/lib/inspectionStorage.ts:5-19 | the stored list becomes the upsert of the record, and the record is then found by its id |
| InspectionStorage.InspectionStore.GetInspectionById | src/lib/inspectionStorage.ts:26-29 | none exactly when no stored record has the id; otherwise a stored record with that id |
| InspectionStorage.InspectionStore.DeleteInspection | src/lib/inspectionStorage.ts:31-35 | the stored list loses every record with the id and keeps the rest in order |
| InspectionStorage.InspectionStore.GetInspectionStats | src/lib/inspectionStorage.ts:37-78 | the nested loops compute exactly the three groupings and the total |
| Dashboard.DashboardRecord | src/pages/Dashboard.tsx:87-100 | the record copies the row; the time defaults to ""; the floor is ""; non-array items become []; the survey team is the inspector name split on ", " (it joins back to the name), or [] |
| Dashboard.FilteredInspections | src/pages/Dashboard.tsx:139-158 | with either bound unset nothing passes; otherwise an inspection passes exactly when it is in the date range and matches the search |
| Dashboard.DateRangeInclusive | src/pages/Dashboard.tsx:144-148 | with both bounds set, an inspection is in range exactly when start ≤ date ≤ end, both inclusive; an invalid date never is |
| Dashboard.SearchIgnoresCase | src/pages/Dashboard.tsx:150-155 | the search ignores the case of the query |
| Dashboard.EmptySearchMatches | src/pages/Dashboard.tsx:150-151 | an empty query keeps every inspection in the date range |
| Dashboard.SubunitKey | src/pages/Dashboard.tsx:173 | the department, or "ไม่ระบุหน่วยงานย่อย" when it is absent or empty |
| Dashboard.AddItemEffect | src/pages/Dashboard.tsx:175-199 | one item adds one to the total and one to its status counter, and one entry to the abnormal or not-relevant lists when it has that status |
| Dashboard.AddItemsEffect | src/pages/Dashboard.tsx:175-200 | an inspection's items add their number to the total, their per-status counts to the counters, and as many list entries as abnormal and not-relevant items |
| Dashboard.FoldBuilding | src/pages/Dashboard.tsx:161-210 | a building's bucket counts all items of its inspections by status, and its department lists hold as many entries as its abnormal and not-relevant counts |
| Dashboard.BuildingEntry | src/pages/Dashboard.tsx:161-210 | a building has a bucket exactly when a filtered inspection is at it; its total is the number of items; the three counters add up to the total exactly when every status is one of the three; the department lists hold exactly `abnormal` and `notRelevant` entries |
| Dashboard.AddItemLists | src/pages/Dashboard.tsx:173-199 | one item pushes `{itemName, category, date}` (abnormal) or `{itemName, category}` (not relevant) onto the list of its inspection's sub-unit key, creating that key only then; every other key's list is unchanged |
| Dashboard.AddItemsAbnormal | src/pages/Dashboard.tsx:173-190 | an inspection's items append their abnormal entries, in order, to the list of its sub-unit key only, and the key appears exactly when it was there or an entry was appended |
| Dashboard.AddItemsNotRelevant | src/pages/Dashboard.tsx:173-199 | the same for the not-relevant entries |
| Dashboard.FoldBuildingLists | src/pages/Dashboard.tsx:161-210 | after folding a building's inspections, each sub-unit key's list is the entries of the inspections with that key, in order, and the key is present exactly when that list is non-empty |
| Dashboard.BuildingSubunitLists | src/pages/Dashboard.tsx:161-210 | in every building's entry, `abnormalByDept` has key `k` exactly when the building's inspections under sub-unit `k` have an abnormal item, and its list is their entries with the inspection's date, in order; the same for `notRelevantByDept` |
| Dashboard.EmptyInspectionsZero | src/pages/Dashboard.tsx:161-175 | inspections without items give an all-zero bucket |
| Dashboard.ComputeBuildingStats | src/pages/Dashboard.tsx:161-210 | the reduce loop builds exactly the building rollup |
| Dashboard.TallyItems | src/pages/Dashboard.tsx:175-200 | the `forEach` over items updates the bucket as the item fold does |
| Dashboard.UnsetBoundEmptiesBuildings | src/pages/Dashboard.tsx:139-142 | with either date bound unset, the building rollup is empty whatever the inspections |
| Dashboard.DivisionName | src/pages/Dashboard.tsx:391-394 | the name of the first division with the id, or the id when there is none |
| Dashboard.DepartmentName | src/pages/Dashboard.tsx:397-402 | the department id when no division has the division id; otherwise, in the first division with that id, the name of the first department with the department id, or the department id when it has none |
| Dashboard.CategoryNameLookup | src/pages/Dashboard.tsx:405-417 | a known category key gets its label; any other key is shown as itself |
| DashboardDivisions.AddToCategoriesOk | src/pages/Dashboard.tsx:336-362 | after adding items, each category's list of abnormal items is exactly as long as its abnormal count |
| DashboardDivisions.DivisionStepOk | src/pages/Dashboard.tsx:287-364 | one inspection keeps every category's list length equal to its abnormal count |
| DashboardDivisions.MatchedItemsMember | src/pages/Dashboard.tsx:322-336 | the items counted into an occurrence are exactly the items of the inspections with its division, sub-unit and id |
| DashboardDivisions.AddToCategoriesGroups | src/pages/Dashboard.tsx:336-362 | the `forEach` over one inspection's items continues the grouping of items by category |
| DashboardDivisions.FoldCategory | src/pages/Dashboard.tsx:340-361 | a category counts its items by status and lists one line per abnormal item, in order, with its inspection's date and building |
| DashboardDivisions.AddOccurrenceCategories | src/pages/Dashboard.tsx:322-362 | adding an inspection extends the category grouping of its own occurrence only |
| DashboardDivisions.OccurrenceCategoriesGroup | src/pages/Dashboard.tsx:287-364 | an occurrence's categories group, by category, the items of the inspections with its division, sub-unit and id |
| DashboardDivisions.OccurrenceCategoryCounts | src/pages/Dashboard.tsx:336-362 | in an occurrence, a category is present exactly when one of its inspections has an item in it; `normal`, `abnormal` and `notRelevant` count those items by status, and `abnormalItems` lists the abnormal ones in order |
| DashboardDivisions.AbnormalListsMatchCounts | src/pages/Dashboard.tsx:287-388 | in the whole division rollup, every category's `abnormalItems` has as many entries as its `abnormal` count |
| DashboardDivisions.DivisionStepOccurrences | src/pages/Dashboard.tsx:287-334 | an inspection touches only the occurrences of its own division and sub-unit |
| DashboardDivisions.AddOccurrenceGet | src/pages/Dashboard.tsx:322-332 | the occurrence of an id is created from the first inspection with that id and never overwritten |
| DashboardDivisions.OccurrenceCount | src/pages/Dashboard.tsx:322-332 | an occurrence exists exactly when some inspection has that division, sub-unit and id |
| DashboardDivisions.OccurrencePresent | src/pages/Dashboard.tsx:322-332 | the same, stated with an explicit inspection |
| DashboardDivisions.FirstHeaderIs | src/pages/Dashboard.tsx:324-331 | the recorded header is that of the first matching inspection |
| DashboardDivisions.FirstHeaderNone | src/pages/Dashboard.tsx:324-331 | no header exactly when nothing matches |
| DashboardDivisions.OccurrenceFirstHeader | src/pages/Dashboard.tsx:322-332 | an occurrence's date, time and building come from the first inspection with its id |
| DashboardDivisions.OccurrenceHeader | src/pages/Dashboard.tsx:322-332 | every occurrence has a first matching inspection, and its header is that inspection's |
| DashboardDivisions.SameDayStaysDistinct | src/pages/Dashboard.tsx:322 | two inspections with distinct ids in the same department have separate occurrences, whatever their dates |
| DashboardDivisions.ComputeDivisionStats | src/pages/Dashboard.tsx:287-388 | the reduce loop builds exactly the division rollup |
| DashboardDivisions.TallyCategories | src/pages/Dashboard.tsx:336-362 | the `forEach` over items updates the categories as the item fold does |
| DashboardDivisions.UnsetBoundEmptiesDivisions | src/pages/Dashboard.tsx:139-142 | with either date bound unset, the division rollup is empty |
| DashboardCustom.FoldBucket | src/pages/Dashboard.tsx:424-442 | a bucket counts its entries by status and lists one detail per entry, in order |
| DashboardCustom.BucketContents | src/pages/Dashboard.tsx:420-446 | a key `"category - name"` has a bucket exactly when a custom item has it; the bucket counts those items by status and has one detail per item, and the counters add up to the details exactly when every status is known |
| DashboardCustom.RollupsAgree | src/pages/Dashboard.tsx:449-462 | the two custom rollups have the same keys in the same order, and each count equals the detailed bucket's count |
| DashboardCustom.EntriesMember | src/pages/Dashboard.tsx:420-422 | the flattened entries are exactly the (inspection, item) pairs |
| DashboardCustom.CustomKeysPresent | src/pages/Dashboard.tsx:420-446 | a key is present exactly when some custom item has it; non-custom items are left out |
| DashboardCustom.UnsetBoundEmptiesCustom | src/pages/Dashboard.tsx:139-142 | with either date bound unset, both custom rollups are empty |
| DashboardCustom.CustomEntriesTake | src/pages/Dashboard.tsx:420-422 | the custom entries of one more inspection are those of that inspection's custom items |
| DashboardCustom.CustomStep | src/pages/Dashboard.tsx:421-444 | a custom item is one grouping step; other items change nothing |
| DashboardCustom.ComputeCustomItemsWithDetails | src/pages/Dashboard.tsx:420-446 | the reduce loop builds exactly the detailed custom rollup |
| DashboardCustom.TallyCustomDetails | src/pages/Dashboard.tsx:421-444 | the `forEach` over one inspection's items extends the detailed rollup by that inspection |
| DashboardCustom.AddDetail | src/pages/Dashboard.tsx:432-442 | one custom item updates its bucket's counter and appends its detail |
| DashboardCustom.ComputeCustomItemsStats | src/pages/Dashboard.tsx:449-462 | the reduce loop builds exactly the count-only custom rollup |
| DashboardCustom.TallyCustomCounts | src/pages/Dashboard.tsx:450-460 | the `forEach` over one inspection's items extends the count-only rollup by that inspection |
| DashboardCustom.BumpCount | src/pages/Dashboard.tsx:453-458 | one custom item increments the counter of its own status and leaves the others |
| DashboardView.InsertDescPermutation | src/pages/Dashboard.tsx:815-824 | inserting into the sorted list adds exactly that element |
| DashboardView.SortDescPermutation | src/pages/Dashboard.tsx:815-824 | sorting the occurrences is a permutation |
| DashboardView.InsertDescAtLeast | src/pages/Dashboard.tsx:815-824 | insertion keeps a lower bound of the keys |
| DashboardView.InsertDescSorted | src/pages/Dashboard.tsx:815-824 | insertion keeps the list in descending order |
| DashboardView.SortDescSorted | src/pages/Dashboard.tsx:815-824 | with valid keys, the result is in descending order |
| DashboardView.OccurrenceOrder | src/pages/Dashboard.tsx:817-823 | the key orders occurrences by date and then by time, with a missing time read as "00:00" |
| DashboardView.SortedOccurrencesSpec | src/pages/Dashboard.tsx:815-824 | the sorted occurrences are the dictionary's entries, each once, and most recent first when every date and time is valid |
| DashboardView.LatestDateEmpty | src/pages/Dashboard.tsx:667-671 | there is no latest date exactly when the list is empty |
| DashboardView.LatestDateMax | src/pages/Dashboard.tsx:667-671 | with valid dates, the latest date is one of the dates and no date is after it |
| DashboardView.InvalidFirstDateSticks | src/pages/Dashboard.tsx:667-671 | an invalid first date is never replaced, because every comparison with it is false |
| DashboardView.DepartmentLabel | src/pages/Dashboard.tsx:658-662 | the id when no division lists the department; otherwise, in the first division that lists it, the name of its first department with that id, or the id when that name is empty |
| DashboardCsv.ReadQuoted | src/pages/Dashboard.tsx:505 | reading a quoted field consumes at least its closing quote |
| DashboardCsv.ReadEscaped | src/pages/Dashboard.tsx:505 | a field with its quotes doubled, followed by a closing quote, reads back as the field |
| DashboardCsv.ParseFirstField | src/pages/Dashboard.tsx:505-507 | a line that starts with a quoted field reads back as that field followed by the rest |
| DashboardCsv.QuoteTail | src/pages/Dashboard.tsx:505 | a quoted field starts with `"` and continues with the escaped text and a closing `"` |
| DashboardCsv.ParseQuotedRowStep | src/pages/Dashboard.tsx:505-507 | a line whose tail reads back reads back whole |
| DashboardCsv.ParseQuotedRow | src/pages/Dashboard.tsx:492-507 | a row of quoted fields joined by "," reads back as exactly those fields, whatever quotes or commas they contain |
| DashboardCsv.CsvLayout | src/pages/Dashboard.tsx:470-510 | the content starts with U+FEFF, then one header line and one line per item, in item order; each item line has the twelve columns and reads back as them |
| DashboardCsv.RowFallbacks | src/pages/Dashboard.tsx:496-503 | the department column falls back to the department id and then "-"; missing details, recommendations and responsible become "-" |
| DashboardCsv.DepartmentLookup | src/pages/Dashboard.tsx:488-489 | the department looked up belongs to the inspection's division and has its department id |
| DashboardCsv.ExportCsv | src/pages/Dashboard.tsx:470-510 | the row-pushing loop builds exactly the CSV content |
| DashboardCsv.ItemLine | src/pages/Dashboard.tsx:491-507 | the line pushed for one item is that item's quoted row |
| Reports.ExportInspection | src/pages/Reports.tsx:49-124 | none when the query fails or finds no row; otherwise the row's record, with floor "-" when empty, no empty time or department, and the merged items, as many as stored and in stored order (non-array items become []) |
| Reports.MergeKeeps | src/pages/Reports.tsx:80-105 | merging keeps the item's id, category, name, status, responsible, custom flag and action images; its images are its own (or []) followed by the action's |
| Reports.MergeFirstAction | src/pages/Reports.tsx:82-102 | the first action for the item supplies the details and recommendations, falling back to the item's via `??`, and appends its inspection images |
| Reports.MergeNoAction | src/pages/Reports.tsx:82-102 | without an action for the item, the item keeps its details and recommendations and its images are its own |
| Reports.ReportDivisionName | src/pages/Reports.tsx:223-226 | the first matching division's name, else the id, else "-"; never empty |
| Reports.ReportDepartmentName | src/pages/Reports.tsx:228-235 | the department id or "-" when either id is missing; otherwise the department id when no division or department matches, and else the first matching division's first matching department's name, or the id when that name is empty; never empty |
| Reports.ReportsFiltered | src/pages/Reports.tsx:238-280 | an inspection passes exactly when its date, division, department and search all match |
| Reports.DateBoundsInclusive | src/pages/Reports.tsx:242-257 | with valid dates, the range is start ≤ date ≤ end, the end included through "before the next day"; an unset bound does not filter; a missing or invalid date passes |
| Reports.NoFilterListsAll | src/pages/Reports.tsx:238-280 | with no bound, no division, no department and a blank search, every inspection is listed |
| Reports.SearchIgnoresSpace | src/pages/Reports.tsx:239 | the search term is trimmed before matching |
| Reports.ReportImages | src/pages/Reports.tsx:378-384 | the item's images without repeats, in first-occurrence order; non-arrays give []; a list without repeats is kept as is |
| ReportDetail.DetailRecord | src/pages/ReportDetail.tsx:50-65 | the record copies the row; time and floor default to ""; non-array items become []; the survey team is the inspector name split on ", " (it joins back to the name), or [] |
| ReportDetail.LoadDetail | src/pages/ReportDetail.tsx:38-67 | none (back to the list) when the query fails or finds no row, else the record |
| ReportDetail.DetailActions | src/pages/ReportDetail.tsx:70-81 | the corrective actions are kept only when their query succeeds with data |
| ReportDetail.StatusCountsAdd | src/pages/ReportDetail.tsx:155-163 | the three status counts add up to the number of items with a known status |
| ReportDetail.StatusPartition | src/pages/ReportDetail.tsx:155-163 | the three lists have the lengths of the per-status counts; together they hold all items exactly when every status is known; no item is in two lists |
| ReportDetail.DetailImagesAsExport | src/pages/ReportDetail.tsx:165-175 | the item's images (or []) followed by its first action's images (or []), as in the export merge and without de-duplication |
| ReportDetail.DetailImagesKeepsRepeats | src/pages/ReportDetail.tsx:165-175 | every URL is shown as many times as the item and its first action hold it together, so a URL in both is shown at least twice |
| ReportDetail.PdfItems | src/pages/ReportDetail.tsx:120-123 | the PDF items are the same items in the same order, each with its images replaced by all its images |
| ReportDetail.PdfInspection | src/pages/ReportDetail.tsx:126-129 | the PDF input is the inspection with only its items' images completed |
| ReportDetail.TeamDisplayLoaded | src/pages/ReportDetail.tsx:216-218 | on a loaded record, the team line is the stored inspector name, or "-"; it is never empty |
| ExcelExport.AllImagesSpec | src/lib/exportInspectionToExcel.ts:6-29 | the image list holds every image of the item's images, inspection images, action images and each nested action's two lists, and nothing else; it has no repeats, keeps first-occurrence order, and is empty exactly when there are no sources |
| ExcelExport.GetAllImagesForItem | src/lib/exportInspectionToExcel.ts:6-29 | the push-then-de-duplicate code computes exactly the image list |
| ExcelExport.PushSources | src/lib/exportInspectionToExcel.ts:7-27 | the pushes collect the sources in order, skipping non-arrays |
| ExcelExport.PushNested | src/lib/exportInspectionToExcel.ts:18-27 | the nested `forEach` appends each action's inspection images and then its action images |
| ExcelExport.Distinct | src/lib/exportInspectionToExcel.ts:28 | `Array.from(new Set(images))` as a loop equals the de-duplication |
| ExcelExport.RowFallbacks | src/lib/exportInspectionToExcel.ts:104-120 | a missing floor, details, recommendations or responsible becomes "-"; a missing department name becomes ""; the division is the name or the id; the image cell is "" with images and "-" without |
| ExcelExport.SheetRows | src/lib/exportInspectionToExcel.ts:94-120 | one row per item, in item order |
| ExcelExport.ImageLists | src/lib/exportInspectionToExcel.ts:102 | each item's de-duplicated images, in item order |
| ExcelExport.SlotsSpec | src/lib/exportInspectionToExcel.ts:130-153 | a picture is placed for an image exactly when its fetch succeeds, in the item's row and at the image's position |
| ExcelExport.PlacementsSpec | src/lib/exportInspectionToExcel.ts:94-154 | over the first `n` items, a picture is placed exactly for each reachable image of those items |
| ExcelExport.ExportPlacements | src/lib/exportInspectionToExcel.ts:94-154 | every reachable image of every item is placed at its item and position, and nothing else is; an item without images gets none |
| ExcelExport.FilenameParts | src/lib/exportInspectionToExcel.ts:161-163 | the file name is "SafetyPatrol_", the date, "_", the division name or id, then ".xlsx" |
| ExcelExport.ExportExcel | src/lib/exportInspectionToExcel.ts:94-164 | the export loop produces exactly the rows, the picture placements and the file name |
| ExcelExport.ExportItem | src/lib/exportInspectionToExcel.ts:94-153 | one pass adds that item's row and its pictures |
| ExcelExport.ItemRow | src/lib/exportInspectionToExcel.ts:95-120 | the row added for one item |
| ExcelExport.PlaceImages | src/lib/exportInspectionToExcel.ts:130-153 | the inner loop appends the placements of the reachable images, in order |
| InspectionForm.Submit | src/pages/InspectionForm.tsx:88-110 | the draft is refused exactly when the date, the effective team, the floor, both buildings or both divisions are empty; otherwise the team is a one-element list with the custom name when "อื่นๆ (โปรดระบุ)" is chosen, and chosen values take precedence over typed ones |
| InspectionForm.FilteredBuildings | src/pages/InspectionForm.tsx:76-78 | the picker lists exactly the buildings, listed and added, whose name contains the search ignoring case |
| InspectionForm.EmptySearchMatches | src/pages/InspectionForm.tsx:76-86 | an empty search matches every name |
| InspectionForm.EmptySearchListsAll | src/pages/InspectionForm.tsx:76-82 | with an empty search, the building and division pickers list everything in order |
| InspectionForm.EmptySearchListsDepartments | src/pages/InspectionForm.tsx:84-86 | with an empty search, the department picker lists every department of the chosen division |
| InspectionForm.PickerIgnoresCase | src/pages/InspectionForm.tsx:76-86 | the pickers ignore the case of the search and of the name |
| InspectionForm.FormPage.constructor | src/pages/InspectionForm.tsx:25-58 | the form starts with today's date, empty fields, closed dialogs and the added buildings read back from storage |
| InspectionForm.FormPage.AddCustomBuilding | src/pages/InspectionForm.tsx:112-125 | blank input changes nothing (fields, both building lists, every dialog flag); otherwise the trimmed name is appended and stored, selected, offered by the picker, the input is cleared and the building dialog closed, the division and department dialogs untouched |
| InspectionForm.FormPage.AddBuilding | src/pages/InspectionForm.tsx:114-122 | the name is appended after every listed building, the stored list becomes the new list, the name is selected, the input is cleared and the building dialog closed; the division and department dialogs are untouched |
| InspectionForm.FormPage.AddCustomDivision | src/pages/InspectionForm.tsx:127-133 | a non-blank typed division clears the chosen one and closes its dialog; every other field, the other dialogs and the stored values are unchanged |
| InspectionForm.FormPage.AddCustomDepartment | src/pages/InspectionForm.tsx:135-141 | a non-blank typed department clears the chosen one and closes its dialog; every other field, the other dialogs and the stored values are unchanged |
| InspectionForm.FormPage.HandleSubmit | src/pages/InspectionForm.tsx:88-110 | the draft is stored exactly when the form is complete; the form fields, both building lists and all three dialog flags are unchanged |
| InspectionForm.ChosenTakesPrecedence | src/pages/InspectionForm.tsx:101-104 | a chosen building, division or department is used over the typed one |

## Left out

- Supabase transport, `localStorage` JSON encoding, the realtime channels and the reload-on-event wiring are not modelled. Store results are parameters: a failure flag, a set of rejected keys, or the returned rows.
- Authentication, routing, toasts, navigation and JSX rendering are not modelled. The PDF generator is also out, and only its input is modelled (`ReportDetail.PdfInspection`).
- The Dashboard's department search box (`departmentSearchQuery`, src/pages/Dashboard.tsx:769-777) only hides departments in the rendered division accordion. It is display only and not modelled; the division rollup it reads is.
- The percentage chart data (`toFixed`/`parseFloat`) and the Excel anchor offsets use floating point. Column widths and row heights are presentation only. The picture model keeps the item row and the image position.
- Image fetching and decoding are not modelled. A failed fetch is the set `unreachable`.
- `FileReader`, Blob downloads, the CSV download file name, `toLocaleDateString`/`toLocaleTimeString` and the unused Buddhist-year computation are not modelled. Clock strings and `Date.now()` are parameters.
- The asynchronous order in which `FileReader` callbacks fire is not modelled: uploaded images are appended in the order given.
- Database defaults (`created_at`, generated ids) and the row order of `loadInspections` (creation time, descending) are not modelled.
- Common.Lower: `toLowerCase` is modelled on ASCII letters only, because Unicode case mapping is not modelled.
- Dicts.Dict: keys keep insertion order. JavaScript puts integer-like keys first, and that is not modelled. Keys inherited from `Object.prototype` are not modelled either: a building or responsible party named "constructor" would find an existing entry before any write.
- Dates.ParseDate: `new Date(s)` is modelled for strict `YYYY-MM-DD` dates, and `HH:MM[:SS]` times in `Dates.ParseTime`. Any other string is an invalid date, so time zones and daylight-saving shifts are not modelled.
- DashboardView.SortedOccurrencesSpec: descending order is stated only when every occurrence has a valid date and time. With an invalid one, the comparator yields NaN and the order of `sort` is unspecified.
- DashboardView.LatestDateMax: the maximum is stated only for valid dates. `DashboardView.InvalidFirstDateSticks` covers an invalid first date.
- InspectionsHook.CorrectiveIdInjective: injectivity is stated only for item ids without `-`. The canonical ids `${key}_${index}` and the custom ids `custom_${key}_${now}` have none when the category keys have none.
- InspectionsHook.OnePerAbnormalItem: requires distinct item ids. With repeated item ids, repeated abnormal items share one key and fewer actions are written.
- Checklist.CanonicalIdsDistinct: requires distinct category keys, which the keys of a JavaScript object always are.
- Checklist.HandleSave: the `current_inspection` removal, the `inspectionData` null check and the navigation after saving are not modelled.
- InspectionsHook.Backend.SaveInspection: the inspection row is written before the loop, and failed upserts are reported as the item names the toasts show.
- CSV quoting: a field's newlines are kept inside quotes, and the model does not split lines. The header line is not quoted, as in the code.
- Items, image lists and stored building lists that are not arrays become [] (`Records.ArrayOr`). `JSON.parse` of other stored values is not modelled.
- Reports.ExportInspection: at src/pages/Reports.tsx:80, `items` that is neither null nor an array makes `?.map` throw a TypeError. The model gives [] instead, because thrown errors are not modelled.
