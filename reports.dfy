/**
  The reports page (`src/pages/Reports.tsx`): the export record built from an
  inspection row and its corrective actions, the list filter with its
  optional date bounds, organisation filters and search, the division and
  department names it searches, and the de-duplicated image list of an item.
 */
module Reports {
  import opened Common
  import opened Seqs
  import opened Dates
  import opened Records

  // ---------------------------------------------------------------------------
  // fetchInspectionForExport

  /** The four columns of a `corrective_actions` row that the export selects. */
  datatype ExportAction = ExportAction(
    itemId: string,
    inspectionDetails: Option<string>,
    inspectionRecommendations: Option<string>,
    inspectionImages: Option<seq<string>>)

  /** `a ?? b` between two optional values. */
  function OrElse<T>(a: Option<T>, b: Option<T>): Option<T>
  {
    if a.Some? then a else b
  }

  /** `s || undefined`: an empty string is dropped. */
  function NonEmpty(o: Option<string>): Option<string>
  {
    if Truthy(o) then o else None
  }

  /** `caList.find((c) => c.item_id === item.id)` */
  function ActionFor(cas: seq<ExportAction>, item: Item): Option<ExportAction>
  {
    Find(cas, (c: ExportAction) => c.itemId == item.id)
  }

  /** An item as exported: merged with the first corrective action recorded for it. */
  function MergeItem(cas: seq<ExportAction>, item: Item): Item
  {
    var ca := ActionFor(cas, item);
    var caDetails := if ca.Some? then ca.value.inspectionDetails else None;
    var caRecommendations := if ca.Some? then ca.value.inspectionRecommendations else None;
    var caImages := if ca.Some? then ArrayOr(ca.value.inspectionImages) else [];
    Item(item.id, item.category, item.name, item.status,
         OrElse(caDetails, item.details), OrElse(caRecommendations, item.recommendations),
         item.responsible, item.responsibleOther, Some(ArrayOr(item.images) + caImages), item.isCustom,
         caDetails, caRecommendations, Some(caImages), item.actionImages, None)
  }

  /**
    The export record of an inspection. `rows` is what the query by id
    returned, `queryFailed` says it reported an error, and `caData` is the
    data of the corrective-action query (`None` when it returned none, as it
    does when it fails).
   */
  function ExportInspection(queryFailed: bool, rows: seq<InspectionRow>, caData: Option<seq<ExportAction>>): (r: Option<Inspection>)
    ensures r.None? <==> queryFailed || |rows| == 0
    ensures r.Some? ==>
      var row := rows[0]; var items := ArrayOr(row.items); var x := r.value;
      x.id == row.id && x.date == row.date && x.building == row.building && x.division == row.division
      && x.floor == Or(row.floor, "-") && x.floor != "" && x.surveyTeam == []
      && (x.time.Some? ==> x.time.value != "") && (x.department.Some? ==> x.department.value != "")
      && |x.items| == |items|
      && forall k :: 0 <= k < |items| ==> x.items[k] == MergeItem(ArrayOr(caData), items[k])
  {
    if queryFailed || |rows| == 0 then None
    else
      var row := rows[0];
      var cas := ArrayOr(caData);
      Some(Inspection(row.id, row.date, NonEmpty(row.time), row.building, Or(row.floor, "-"), row.division,
                      NonEmpty(row.department), NonEmpty(row.inspectorName), [],
                      Map(ArrayOr(row.items), (item: Item) => MergeItem(cas, item)), row.createdAt, row.updatedAt))
  }

  /** What merging keeps of the item whatever the corrective actions are. */
  lemma MergeKeeps(cas: seq<ExportAction>, item: Item)
    ensures var m := MergeItem(cas, item);
      m.id == item.id && m.category == item.category && m.name == item.name && m.status == item.status
      && m.responsible == item.responsible && m.isCustom == item.isCustom && m.actionImages == item.actionImages
      && m.images.Some? && ArrayOr(item.images) <= m.images.value
      && m.images.value == ArrayOr(item.images) + ArrayOr(m.inspectionImages)
  {
  }

  /**
    The first corrective action recorded for the item supplies the details and
    recommendations when it has them, and its images follow the item's own.
   */
  lemma MergeFirstAction(cas: seq<ExportAction>, item: Item, i: nat)
    requires i < |cas| && cas[i].itemId == item.id
    requires forall j :: 0 <= j < i ==> cas[j].itemId != item.id
    ensures var m := MergeItem(cas, item); var ca := cas[i];
      m.details == (if ca.inspectionDetails.Some? then ca.inspectionDetails else item.details)
      && m.recommendations == (if ca.inspectionRecommendations.Some? then ca.inspectionRecommendations else item.recommendations)
      && m.inspectionDetails == ca.inspectionDetails
      && m.inspectionRecommendations == ca.inspectionRecommendations
      && m.images == Some(ArrayOr(item.images) + ArrayOr(ca.inspectionImages))
      && m.inspectionImages == Some(ArrayOr(ca.inspectionImages))
  {
    var found := ActionFor(cas, item);
    assert found.Some?;
    var k :| 0 <= k < |cas| && cas[k] == found.value && cas[k].itemId == item.id
             && forall j :: 0 <= j < k ==> cas[j].itemId != item.id;
    assert k == i;
  }

  /** An item without a corrective action keeps its own details, recommendations and images. */
  lemma MergeNoAction(cas: seq<ExportAction>, item: Item)
    requires forall j :: 0 <= j < |cas| ==> cas[j].itemId != item.id
    ensures var m := MergeItem(cas, item);
      m.details == item.details && m.recommendations == item.recommendations
      && m.inspectionDetails.None? && m.inspectionRecommendations.None?
      && m.images == Some(ArrayOr(item.images)) && m.inspectionImages == Some([])
  {
    assert ArrayOr(item.images) + [] == ArrayOr(item.images);
  }

  // ---------------------------------------------------------------------------
  // getDivisionName / getDepartmentName

  /** `division?.name || divisionId || "-"` */
  function ReportDivisionName(divisions: seq<Division>, id: string): (n: string)
    ensures n != ""
    ensures (forall j :: 0 <= j < |divisions| ==> divisions[j].id != id) ==> n == OrStr(id, "-")
    ensures forall j :: 0 <= j < |divisions| && divisions[j].id == id
                        && (forall k :: 0 <= k < j ==> divisions[k].id != id) ==>
                          n == OrStr(divisions[j].name, OrStr(id, "-"))
  {
    match Find(divisions, (d: Division) => d.id == id)
    case None => OrStr(id, "-")
    case Some(d) => OrStr(d.name, OrStr(id, "-"))
  }

  /**
    The department's name within its division; the department id when the
    division has no such department or the name is empty; and, without a
    division id or a department id, the department id or "-".
   */
  function ReportDepartmentName(divisions: seq<Division>, divisionId: string, departmentId: Option<string>): (n: string)
    ensures n != ""
    ensures divisionId == "" || !Truthy(departmentId) ==> n == Or(departmentId, "-")
    ensures divisionId != "" && Truthy(departmentId) ==>
      ((forall j :: 0 <= j < |divisions| ==> divisions[j].id != divisionId) ==> n == departmentId.value)
      && forall j :: FirstDivision(divisions, j, divisionId) ==>
        (NoDepartment(divisions[j], departmentId.value) ==> n == departmentId.value)
        && forall k :: FirstDepartment(divisions[j], k, departmentId.value) ==>
          n == OrStr(divisions[j].departments[k].name, departmentId.value)
  {
    if divisionId == "" || !Truthy(departmentId) then Or(departmentId, "-")
    else
      var dep := departmentId.value;
      match Find(divisions, (d: Division) => d.id == divisionId)
      case None => dep
      case Some(d) =>
        match Find(d.departments, (e: Department) => e.id == dep)
        case None => dep
        case Some(e) => OrStr(e.name, dep)
  }

  // ---------------------------------------------------------------------------
  // filteredInspections

  /** The page's filter settings; an empty string is an unset filter. */
  datatype ReportFilter = ReportFilter(search: string, start: string, end: string, division: string, department: string)

  /** `d < new Date(startDate)`: false when the start date is invalid. */
  predicate BeforeStart(d: int, start: string)
  {
    DateValue(start).Some? && d < DateValue(start).value
  }

  /** `d >= e` where `e` is the day after `endDate`: false when the end date is invalid. */
  predicate PastEnd(d: int, end: string)
  {
    ParseDate(end).Some? && d >= Key(NextDay(ParseDate(end).value))
  }

  /** The `matchesDate` flag: an inspection without a date, or with an invalid one, is never excluded. */
  predicate MatchesDate(x: Inspection, start: string, end: string)
  {
    x.date == "" ||
    match DateValue(x.date)
    case None => true
    case Some(d) => (start == "" || !BeforeStart(d, start)) && (end == "" || !PastEnd(d, end))
  }

  /** The trimmed, lower-cased search term against the building and the two names. */
  predicate MatchesTerm(divisions: seq<Division>, x: Inspection, search: string)
  {
    var term := Lower(Trim(search));
    term == ""
    || Includes(Lower(x.building), term)
    || Includes(Lower(ReportDivisionName(divisions, x.division)), term)
    || Includes(Lower(ReportDepartmentName(divisions, x.division, x.department)), term)
  }

  predicate ReportSelected(divisions: seq<Division>, x: Inspection, f: ReportFilter)
  {
    MatchesDate(x, f.start, f.end)
    && (f.division == "" || x.division == f.division)
    && (f.department == "" || x.department == Some(f.department))
    && MatchesTerm(divisions, x, f.search)
  }

  /** The inspections listed on the page: those that pass every filter, in their order. */
  function ReportsFiltered(divisions: seq<Division>, xs: seq<Inspection>, f: ReportFilter): (r: seq<Inspection>)
    ensures |r| <= |xs|
    ensures forall x :: x in r <==> x in xs && ReportSelected(divisions, x, f)
  {
    var r := Filter(xs, (x: Inspection) => ReportSelected(divisions, x, f));
    assert forall x :: x in xs && ReportSelected(divisions, x, f) ==> x in r by {
      forall x | x in xs && ReportSelected(divisions, x, f) ensures x in r {
        var i :| 0 <= i < |xs| && xs[i] == x;
      }
    }
    r
  }

  /**
    With valid dates both bounds are inclusive: adding a day to the end date
    and testing "before" is testing "on or before". A bound that is unset
    does not filter, and neither bound excludes an inspection whose date is
    missing or invalid.
   */
  lemma DateBoundsInclusive(x: Inspection, start: string, end: string)
    ensures ParseDate(x.date).Some? && ParseDate(start).Some? && ParseDate(end).Some? ==>
      (MatchesDate(x, start, end) <==>
         Key(ParseDate(start).value) <= Key(ParseDate(x.date).value) <= Key(ParseDate(end).value))
    ensures ParseDate(x.date).Some? && start == "" && ParseDate(end).Some? ==>
      (MatchesDate(x, start, end) <==> Key(ParseDate(x.date).value) <= Key(ParseDate(end).value))
    ensures x.date == "" || ParseDate(x.date).None? ==> MatchesDate(x, start, end)
    ensures start == "" && end == "" ==> MatchesDate(x, start, end)
  {
    if ParseDate(x.date).Some? && ParseDate(end).Some? {
      NextDayBound(ParseDate(x.date).value, ParseDate(end).value);
    }
  }

  /** With no filter set and a blank search, every inspection is listed. */
  lemma NoFilterListsAll(divisions: seq<Division>, xs: seq<Inspection>, f: ReportFilter)
    requires f.start == "" && f.end == "" && f.division == "" && f.department == ""
    requires AllSpace(f.search)
    ensures ReportsFiltered(divisions, xs, f) == xs
  {
    TrimBlankIff(f.search);
    FilterAllPass(xs, (x: Inspection) => ReportSelected(divisions, x, f));
  }

  /** White space around the search text does not matter. */
  lemma SearchIgnoresSpace(divisions: seq<Division>, x: Inspection, search: string)
    ensures MatchesTerm(divisions, x, Trim(search)) <==> MatchesTerm(divisions, x, search)
  {
    TrimIdempotent(search);
  }

  // ---------------------------------------------------------------------------
  // getAllImagesForItem

  /** The item's images without repetitions, each at its first position; nothing when `images` is not an array. */
  function ReportImages(item: Item): (r: seq<string>)
    ensures item.images.None? ==> r == []
    ensures forall s :: s in r <==> s in ArrayOr(item.images)
    ensures NoDups(r)
    ensures forall i, j :: 0 <= i < j < |r| ==> FirstIndex(ArrayOr(item.images), r[i]) < FirstIndex(ArrayOr(item.images), r[j])
    ensures NoDups(ArrayOr(item.images)) ==> r == ArrayOr(item.images)
  {
    var xs := ArrayOr(item.images);
    DedupOrder(xs);
    assert NoDups(xs) ==> Dedup(xs) == xs by {
      if NoDups(xs) {
        DedupNoDups(xs);
      }
    }
    Dedup(xs)
  }
}
