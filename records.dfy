/**
  The records the application passes around: checklist items, inspections as
  the pages hold them, and the rows of the two tables of the store
  (`inspections` and `corrective_actions`), together with the status values.

  A field that JavaScript may leave `null`/`undefined` is an `Option`; a field
  that is read through `Array.isArray` is an `Option<seq<...>>` whose `None`
  stands for any value that is not an array.
 */
module Records {
  import opened Common

  // Checklist item statuses
  const Normal := "normal"
  const Abnormal := "abnormal"
  const NotRelevant := "not_relevant"

  // Corrective-action statuses: under review, in remediation, resolved
  const UnderReview := "กำลังตรวจสอบ"
  const InRemediation := "ดำเนินการแก้ไข"
  const Resolved := "แก้ไขเสร็จสิ้น"

  /** "Not specified", the responsible party given to an item that names none. */
  const Unspecified := "ไม่ระบุ"

  /** A corrective action nested inside an exported item. */
  datatype NestedAction = NestedAction(inspectionImages: Option<seq<string>>, actionImages: Option<seq<string>>)

  /** One checklist entry of an inspection. */
  datatype Item = Item(
    id: string,
    category: string,
    name: string,
    status: string,
    details: Option<string>,
    recommendations: Option<string>,
    responsible: Option<string>,
    responsibleOther: Option<string>,
    images: Option<seq<string>>,
    isCustom: bool,
    // filled in when an item is merged with its corrective action for export
    inspectionDetails: Option<string>,
    inspectionRecommendations: Option<string>,
    inspectionImages: Option<seq<string>>,
    actionImages: Option<seq<string>>,
    correctiveActions: Option<seq<NestedAction>>)

  /** An inspection as the pages hold it (`InspectionRecord`). */
  datatype Inspection = Inspection(
    id: string,
    date: string,
    time: Option<string>,
    building: string,
    floor: string,
    division: string,
    department: Option<string>,
    inspectorName: Option<string>,
    surveyTeam: seq<string>,
    items: seq<Item>,
    createdAt: string,
    updatedAt: string)

  /** A row of the `inspections` table. */
  datatype InspectionRow = InspectionRow(
    id: string,
    userId: Option<string>,
    date: string,
    time: Option<string>,
    building: string,
    floor: Option<string>,
    division: string,
    department: Option<string>,
    inspectorName: Option<string>,
    items: Option<seq<Item>>,
    createdAt: string,
    updatedAt: string)

  /** A row of the `corrective_actions` table, as stored. */
  datatype ActionRow = ActionRow(
    id: string,
    inspectionId: string,
    itemId: string,
    building: string,
    division: string,
    department: Option<string>,
    category: string,
    itemName: string,
    responsible: string,
    status: string,
    inspectionDetails: Option<string>,
    inspectionRecommendations: Option<string>,
    inspectionImages: Option<seq<string>>,
    actionDetails: Option<string>,
    actionDate: Option<string>,
    actionBy: Option<string>,
    actionImages: Option<seq<string>>,
    isNew: Option<bool>,
    createdAt: string,
    updatedAt: string)

  /** A corrective action as the pages hold it (`CorrectiveActionData`): image lists and `is_new` always present. */
  datatype CorrectiveAction = CorrectiveAction(
    id: string,
    inspectionId: string,
    itemId: string,
    building: string,
    division: string,
    department: Option<string>,
    category: string,
    itemName: string,
    responsible: string,
    status: string,
    inspectionDetails: Option<string>,
    inspectionRecommendations: Option<string>,
    inspectionImages: seq<string>,
    actionDetails: Option<string>,
    actionDate: Option<string>,
    actionBy: Option<string>,
    actionImages: seq<string>,
    isNew: bool,
    createdAt: string,
    updatedAt: string)

  /** An entry of the organisation table (`DIVISIONS`), which the application ships as data. */
  datatype Department = Department(id: string, name: string)
  datatype Division = Division(id: string, name: string, departments: seq<Department>)

  /** `j` is the position `DIVISIONS.find(d => d.id === id)` picks. */
  predicate FirstDivision(divisions: seq<Division>, j: int, id: string)
  {
    0 <= j < |divisions| && divisions[j].id == id && forall i :: 0 <= i < j ==> divisions[i].id != id
  }

  /** `k` is the position `d.departments.find(e => e.id === id)` picks. */
  predicate FirstDepartment(d: Division, k: int, id: string)
  {
    0 <= k < |d.departments| && d.departments[k].id == id
    && forall i :: 0 <= i < k ==> d.departments[i].id != id
  }

  /** No department of `d` has this id. */
  predicate NoDepartment(d: Division, id: string)
  {
    forall k :: 0 <= k < |d.departments| ==> d.departments[k].id != id
  }

  predicate IsNormal(i: Item) { i.status == Normal }
  predicate IsAbnormal(i: Item) { i.status == Abnormal }
  predicate IsNotRelevant(i: Item) { i.status == NotRelevant }
  predicate IsCustomItem(i: Item) { i.isCustom }

  /** The status label of the spreadsheet and CSV exports: normal, abnormal, and anything else as not relevant. */
  function StatusText(status: string): (t: string)
    ensures status == Normal <==> t == "ปกติ"
    ensures status == Abnormal <==> t == "ไม่ปกติ"
    ensures status != Normal && status != Abnormal <==> t == "ไม่เกี่ยวข้อง"
  {
    if status == Normal then "ปกติ" else if status == Abnormal then "ไม่ปกติ" else "ไม่เกี่ยวข้อง"
  }

  /** `Array.isArray(x) ? x : []` */
  function ArrayOr<T>(o: Option<seq<T>>): seq<T>
  {
    match o
    case Some(xs) => xs
    case None => []
  }
}
