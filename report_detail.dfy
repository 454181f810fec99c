/**
  The report page of one inspection (`src/pages/ReportDetail.tsx`): the record
  it builds from the stored row, the three status lists it counts, the images
  it shows per item (the item's own followed by those of its corrective
  action, without de-duplication), the item list handed to the PDF generator
  and the survey-team line.
 */
module ReportDetail {
  import opened Common
  import opened Seqs
  import opened Records
  import opened Reports

  /** The record built from the row the query by id returned. */
  function DetailRecord(r: InspectionRow): (x: Inspection)
    ensures x.id == r.id && x.date == r.date && x.building == r.building && x.division == r.division
    ensures x.department == r.department && x.inspectorName == r.inspectorName
    ensures x.floor == Or(r.floor, "") && x.time == Some(Or(r.time, ""))
    ensures x.items == ArrayOr(r.items)
    ensures Truthy(r.inspectorName) ==> |x.surveyTeam| > 0 && Join(x.surveyTeam, ", ") == r.inspectorName.value
    ensures !Truthy(r.inspectorName) ==> x.surveyTeam == []
  {
    var team := if Truthy(r.inspectorName) then Split(r.inspectorName.value, ", ") else [];
    assert Truthy(r.inspectorName) ==> Join(team, ", ") == r.inspectorName.value by {
      if Truthy(r.inspectorName) {
        SplitJoin(r.inspectorName.value, ", ");
      }
    }
    Inspection(r.id, r.date, Some(Or(r.time, "")), r.building, Or(r.floor, ""), r.division, r.department,
               r.inspectorName, team, ArrayOr(r.items), r.createdAt, r.updatedAt)
  }

  /** The page's record: none (and back to the list) when the query fails or finds no row. */
  function LoadDetail(queryFailed: bool, row: Option<InspectionRow>): (r: Option<Inspection>)
    ensures r.None? <==> queryFailed || row.None?
    ensures r.Some? ==> r.value == DetailRecord(row.value)
  {
    if queryFailed || row.None? then None else Some(DetailRecord(row.value))
  }

  /** The corrective actions the page keeps: none unless the query succeeds with data. */
  function DetailActions(caFailed: bool, caData: Option<seq<ExportAction>>): (cas: seq<ExportAction>)
    ensures caFailed ==> cas == []
    ensures !caFailed && caData.Some? ==> cas == caData.value
  {
    if caFailed then [] else ArrayOr(caData)
  }

  // ---------------------------------------------------------------------------
  // The status lists and their counts

  function AbnormalItems(x: Inspection): seq<Item> { Filter(x.items, IsAbnormal) }
  function NormalItems(x: Inspection): seq<Item> { Filter(x.items, IsNormal) }
  function NotRelevantItems(x: Inspection): seq<Item> { Filter(x.items, IsNotRelevant) }

  predicate Known(i: Item) { IsNormal(i) || IsAbnormal(i) || IsNotRelevant(i) }

  lemma {:induction false} StatusCountsAdd(items: seq<Item>)
    ensures Count(items, IsNormal) + Count(items, IsAbnormal) + Count(items, IsNotRelevant) == Count(items, Known)
  {
    if |items| > 0 {
      StatusCountsAdd(items[..|items| - 1]);
      assert Normal != Abnormal && Normal != NotRelevant && Abnormal != NotRelevant;
    }
  }

  /**
    The three lists hold the items of each status, in item order; the counts
    shown are their lengths, which add up to the number of items exactly when
    every status is one of the three. No item is in two lists.
   */
  lemma StatusPartition(x: Inspection)
    ensures |NormalItems(x)| == Count(x.items, IsNormal)
    ensures |AbnormalItems(x)| == Count(x.items, IsAbnormal)
    ensures |NotRelevantItems(x)| == Count(x.items, IsNotRelevant)
    ensures |NormalItems(x)| + |AbnormalItems(x)| + |NotRelevantItems(x)| <= |x.items|
    ensures |NormalItems(x)| + |AbnormalItems(x)| + |NotRelevantItems(x)| == |x.items| <==>
      forall i :: 0 <= i < |x.items| ==> Known(x.items[i])
    ensures forall i :: i in AbnormalItems(x) ==> i !in NormalItems(x) && i !in NotRelevantItems(x)
    ensures forall i :: i in NormalItems(x) ==> i !in NotRelevantItems(x)
  {
    FilterCount(x.items, IsNormal);
    FilterCount(x.items, IsAbnormal);
    FilterCount(x.items, IsNotRelevant);
    StatusCountsAdd(x.items);
    CountAll(x.items, Known);
    forall i | i in AbnormalItems(x) ensures i !in NormalItems(x) && i !in NotRelevantItems(x) {
      var k :| 0 <= k < |AbnormalItems(x)| && AbnormalItems(x)[k] == i;
    }
    forall i | i in NormalItems(x) ensures i !in NotRelevantItems(x) {
      var k :| 0 <= k < |NormalItems(x)| && NormalItems(x)[k] == i;
    }
  }

  // ---------------------------------------------------------------------------
  // getAllImagesForItem and the PDF input

  /** The item's images followed by those of the first corrective action recorded for it. */
  function DetailImages(cas: seq<ExportAction>, item: Item): seq<string>
  {
    var ca := ActionFor(cas, item);
    ArrayOr(item.images) + (if ca.Some? then ArrayOr(ca.value.inspectionImages) else [])
  }

  /**
    The page shows the same images as the export merge, the item's own first,
    and nothing is de-duplicated: the list is exactly as long as the two
    sources together.
   */
  lemma DetailImagesAsExport(cas: seq<ExportAction>, item: Item)
    ensures DetailImages(cas, item) == MergeItem(cas, item).images.value
    ensures ArrayOr(item.images) <= DetailImages(cas, item)
    ensures |DetailImages(cas, item)| == |ArrayOr(item.images)| + |ArrayOr(MergeItem(cas, item).inspectionImages)|
    ensures (forall j :: 0 <= j < |cas| ==> cas[j].itemId != item.id) ==> DetailImages(cas, item) == ArrayOr(item.images)
  {
    MergeKeeps(cas, item);
    if forall j :: 0 <= j < |cas| ==> cas[j].itemId != item.id {
      MergeNoAction(cas, item);
    }
  }

  /**
    Nothing is de-duplicated: every URL is shown as many times as the item
    and its corrective action hold it together, so a URL both hold is shown
    at least twice.
   */
  lemma DetailImagesKeepsRepeats(cas: seq<ExportAction>, item: Item)
    ensures multiset(DetailImages(cas, item)) ==
      multiset(ArrayOr(item.images)) + multiset(ArrayOr(MergeItem(cas, item).inspectionImages))
    ensures forall u :: u in ArrayOr(item.images) && u in ArrayOr(MergeItem(cas, item).inspectionImages) ==>
      multiset(DetailImages(cas, item))[u] >= 2
  {
    DetailImagesAsExport(cas, item);
    var own := ArrayOr(item.images);
    var rest := DetailImages(cas, item)[|own|..];
    assert DetailImages(cas, item) == own + rest;
    MergeKeeps(cas, item);
    assert rest == ArrayOr(MergeItem(cas, item).inspectionImages);
  }

  function WithAllImages(cas: seq<ExportAction>, item: Item): Item
  {
    item.(images := Some(DetailImages(cas, item)))
  }

  /** `itemsWithAllImages` */
  function PdfItems(cas: seq<ExportAction>, items: seq<Item>): (r: seq<Item>)
    ensures |r| == |items|
    ensures forall k :: 0 <= k < |items| ==>
      r[k].images == Some(DetailImages(cas, items[k])) && r[k].(images := items[k].images) == items[k]
  {
    Map(items, (item: Item) => WithAllImages(cas, item))
  }

  /** `inspectionForPdf`: the same inspection with every item's images completed. */
  function PdfInspection(cas: seq<ExportAction>, x: Inspection): (p: Inspection)
    ensures p.(items := x.items) == x
    ensures |p.items| == |x.items|
    ensures forall k :: 0 <= k < |x.items| ==>
      p.items[k].images == Some(DetailImages(cas, x.items[k])) && p.items[k].(images := x.items[k].images) == x.items[k]
  {
    x.(items := PdfItems(cas, x.items))
  }

  // ---------------------------------------------------------------------------
  // The survey-team line

  /** The team joined by ", " when there is one, else the inspector's name, else "-". */
  function TeamDisplay(x: Inspection): string
  {
    if |x.surveyTeam| > 0 then Join(x.surveyTeam, ", ") else Or(x.inspectorName, "-")
  }

  /** On a loaded record the line is the stored inspector name, or "-" when there is none. */
  lemma TeamDisplayLoaded(r: InspectionRow)
    ensures TeamDisplay(DetailRecord(r)) == Or(r.inspectorName, "-")
    ensures TeamDisplay(DetailRecord(r)) != ""
  {
  }
}
