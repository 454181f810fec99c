/**
  The spreadsheet export of one inspection (`src/lib/exportInspectionToExcel.ts`):
  every image an item carries, from all its sources, de-duplicated; one sheet
  row per item after the header row; one picture placed per image of an item,
  skipping images that cannot be fetched; and the file name.

  Fetching an image is outside the model: `unreachable` is the set of URLs
  whose fetch or decoding fails, which the export catches and skips.
 */
module ExcelExport {
  import opened Common
  import opened Seqs
  import opened Records

  // ---------------------------------------------------------------------------
  // getAllImagesForItem

  /** The two image lists of a nested corrective action, in the order they are pushed. */
  function NestedImages(ca: NestedAction): seq<string>
  {
    ArrayOr(ca.inspectionImages) + ArrayOr(ca.actionImages)
  }

  /** Everything pushed into `images`: each source that is an array, in the order of the code. */
  function ImageSources(item: Item): seq<string>
  {
    ArrayOr(item.images) + ArrayOr(item.inspectionImages) + ArrayOr(item.actionImages)
    + FlatMap(ArrayOr(item.correctiveActions), NestedImages)
  }

  function AllImages(item: Item): seq<string>
  {
    Dedup(ImageSources(item))
  }

  /**
    The list holds every image of every source and nothing else, each once, in
    the order of first appearance; it is empty exactly when no source has an
    image.
   */
  lemma AllImagesSpec(item: Item, s: string)
    ensures s in AllImages(item) <==>
      s in ArrayOr(item.images) || s in ArrayOr(item.inspectionImages) || s in ArrayOr(item.actionImages)
      || exists j :: 0 <= j < |ArrayOr(item.correctiveActions)|
                     && (s in ArrayOr(ArrayOr(item.correctiveActions)[j].inspectionImages)
                         || s in ArrayOr(ArrayOr(item.correctiveActions)[j].actionImages))
    ensures NoDups(AllImages(item))
    ensures forall i, j :: 0 <= i < j < |AllImages(item)| ==>
      FirstIndex(ImageSources(item), AllImages(item)[i]) < FirstIndex(ImageSources(item), AllImages(item)[j])
    ensures AllImages(item) == [] <==> ImageSources(item) == []
  {
    var cas := ArrayOr(item.correctiveActions);
    FlatMapMember(cas, NestedImages, s);
    DedupOrder(ImageSources(item));
    var xs := ImageSources(item);
    if s in xs {
      var i :| 0 <= i < |xs| && xs[i] == s;
    }
    if s in AllImages(item) {
      var i :| 0 <= i < |AllImages(item)| && AllImages(item)[i] == s;
    }
    if xs != [] {
      assert xs[0] in AllImages(item);
    }
  }

  /** The function as written: push every source, then keep the first occurrence of each image. */
  method GetAllImagesForItem(item: Item) returns (r: seq<string>)
    ensures r == AllImages(item)
  {
    var images := PushSources(item);
    r := Distinct(images);
  }

  /** The pushes, up to the `Set`. */
  method PushSources(item: Item) returns (images: seq<string>)
    ensures images == ImageSources(item)
  {
    images := ArrayOr(item.images);
    if item.inspectionImages.Some? {
      images := images + item.inspectionImages.value;
    }
    if item.actionImages.Some? {
      images := images + item.actionImages.value;
    }
    assert images == ArrayOr(item.images) + ArrayOr(item.inspectionImages) + ArrayOr(item.actionImages);
    if item.correctiveActions.Some? {
      images := PushNested(images, item.correctiveActions.value);
    } else {
      assert FlatMap(ArrayOr(item.correctiveActions), NestedImages) == [];
      assert images + [] == images;
    }
  }

  /** The `forEach` over the nested corrective actions. */
  method PushNested(images0: seq<string>, cas: seq<NestedAction>) returns (images: seq<string>)
    ensures images == images0 + FlatMap(cas, NestedImages)
  {
    images := images0;
    assert images0 + [] == images0;
    for i := 0 to |cas|
      invariant images == images0 + FlatMap(cas[..i], NestedImages)
    {
      FlatMapTake(cas, NestedImages, i);
      var ca := cas[i];
      if ca.inspectionImages.Some? {
        images := images + ca.inspectionImages.value;
      }
      if ca.actionImages.Some? {
        images := images + ca.actionImages.value;
      }
      assert images == images0 + FlatMap(cas[..i], NestedImages) + NestedImages(ca);
    }
    TakeAll(cas);
  }

  /** `Array.from(new Set(xs))`, inserting into the set in order. */
  method Distinct(xs: seq<string>) returns (r: seq<string>)
    ensures r == Dedup(xs)
  {
    r := [];
    var seen: set<string> := {};
    for i := 0 to |xs|
      invariant r == Dedup(xs[..i])
      invariant forall s :: s in seen <==> s in r
    {
      TakeSucc(xs, i);
      if xs[i] !in seen {
        seen := seen + {xs[i]};
        r := r + [xs[i]];
      }
    }
    TakeAll(xs);
  }

  // ---------------------------------------------------------------------------
  // The rows

  /** The thirteen cells of an item's row. */
  datatype SheetRow = SheetRow(
    date: string, building: string, floor: string, division: string, department: string,
    category: string, name: string, status: string, detail: string, recommend: string,
    responsible: string, team: string, images: string)

  /** The row of an item; `divisionName` and `departmentName` are what the caller looked up. */
  function RowOf(x: Inspection, divisionName: Option<string>, departmentName: Option<string>, item: Item): SheetRow
  {
    SheetRow(x.date, x.building, OrStr(x.floor, "-"), Or(divisionName, x.division), Or(departmentName, ""),
             item.category, item.name, StatusText(item.status),
             Or(item.details, "-"), Or(item.recommendations, "-"), Or(item.responsible, "-"),
             Join(x.surveyTeam, "; "), if |AllImages(item)| > 0 then "" else "-")
  }

  /**
    The fallbacks of a row: the floor, details, recommendations and
    responsible cells show "-" for a missing or empty value, the department
    cell is empty without a department name, the division cell falls back to
    the division id, and the image cell is "-" exactly when the item has no
    image at all.
   */
  lemma RowFallbacks(x: Inspection, divisionName: Option<string>, departmentName: Option<string>, item: Item)
    ensures var r := RowOf(x, divisionName, departmentName, item);
      r.floor != "" && (r.floor == "-" <==> x.floor == "" || x.floor == "-")
      && (r.detail == "-" <==> !Truthy(item.details) || item.details.value == "-") && r.detail != ""
      && (r.recommend == "-" <==> !Truthy(item.recommendations) || item.recommendations.value == "-")
      && (r.responsible == "-" <==> !Truthy(item.responsible) || item.responsible.value == "-")
      && (r.department == "" <==> !Truthy(departmentName))
      && r.division == (if Truthy(divisionName) then divisionName.value else x.division)
      && (r.images == "-" <==> ImageSources(item) == [])
      && (r.images == "" <==> ImageSources(item) != [])
  {
    AllImagesSpec(item, "");
  }

  /** One row per item, in item order. */
  function SheetRows(x: Inspection, divisionName: Option<string>, departmentName: Option<string>): (rows: seq<SheetRow>)
    ensures |rows| == |x.items|
    ensures forall k :: 0 <= k < |x.items| ==> rows[k] == RowOf(x, divisionName, departmentName, x.items[k])
  {
    Map(x.items, (item: Item) => RowOf(x, divisionName, departmentName, item))
  }

  // ---------------------------------------------------------------------------
  // The pictures

  /** A picture of image `slot` of item `item`, anchored in the item's row (sheet row `item + 2`). */
  datatype Placement = Placement(item: nat, slot: nat, url: string)

  /** The pictures placed for the first `n` images of item `k`. */
  function Slots(k: nat, urls: seq<string>, n: nat, unreachable: set<string>): seq<Placement>
    requires n <= |urls|
  {
    if n == 0 then []
    else Slots(k, urls, n - 1, unreachable) + (if urls[n - 1] in unreachable then [] else [Placement(k, n - 1, urls[n - 1])])
  }

  /** The de-duplicated images of each item, in item order. */
  function ImageLists(x: Inspection): (lists: seq<seq<string>>)
    ensures |lists| == |x.items| && forall k :: 0 <= k < |x.items| ==> lists[k] == AllImages(x.items[k])
  {
    Map(x.items, AllImages)
  }

  /** The pictures placed for the first `n` items, given each item's images. */
  function Placements(lists: seq<seq<string>>, n: nat, unreachable: set<string>): seq<Placement>
    requires n <= |lists|
  {
    if n == 0 then []
    else Placements(lists, n - 1, unreachable) + Slots(n - 1, lists[n - 1], |lists[n - 1]|, unreachable)
  }

  lemma {:induction false} SlotsSpec(k: nat, urls: seq<string>, n: nat, unreachable: set<string>, p: Placement)
    requires n <= |urls|
    ensures p in Slots(k, urls, n, unreachable) <==>
      p.item == k && p.slot < n && p.url == urls[p.slot] && p.url !in unreachable
  {
    if n > 0 {
      SlotsSpec(k, urls, n - 1, unreachable, p);
    }
  }

  lemma {:induction false} PlacementsSpec(lists: seq<seq<string>>, n: nat, unreachable: set<string>, p: Placement)
    requires n <= |lists|
    ensures p in Placements(lists, n, unreachable) <==>
      p.item < n && p.slot < |lists[p.item]| && p.url == lists[p.item][p.slot] && p.url !in unreachable
  {
    if n > 0 {
      var front := Placements(lists, n - 1, unreachable);
      var last := Slots(n - 1, lists[n - 1], |lists[n - 1]|, unreachable);
      assert Placements(lists, n, unreachable) == front + last;
      assert p in front + last <==> p in front || p in last;
      PlacementsSpec(lists, n - 1, unreachable, p);
      SlotsSpec(n - 1, lists[n - 1], |lists[n - 1]|, unreachable, p);
    }
  }

  /**
    A picture is placed exactly for each image of each item whose fetch
    succeeds, in the item's row and at the image's position; an item without
    images gets none.
   */
  lemma ExportPlacements(x: Inspection, unreachable: set<string>, p: Placement)
    ensures var imgs := if p.item < |x.items| then AllImages(x.items[p.item]) else [];
      p in Placements(ImageLists(x), |x.items|, unreachable) <==>
        p.item < |x.items| && p.slot < |imgs| && p.url == imgs[p.slot] && p.url !in unreachable
  {
    PlacementsSpec(ImageLists(x), |x.items|, unreachable, p);
  }

  // ---------------------------------------------------------------------------
  // The export

  /** `SafetyPatrol_${inspection.date}_${divisionName || inspection.division}.xlsx` */
  function ExcelFilename(x: Inspection, divisionName: Option<string>): string
  {
    "SafetyPatrol_" + x.date + "_" + Or(divisionName, x.division) + ".xlsx"
  }

  /** The file name carries the date and the division label between fixed parts. */
  lemma FilenameParts(x: Inspection, divisionName: Option<string>)
    ensures var f := ExcelFilename(x, divisionName); var d := |x.date|;
      |f| == 19 + d + |Or(divisionName, x.division)|
      && f[..13] == "SafetyPatrol_" && f[13..13 + d] == x.date && f[13 + d] == '_'
      && f[14 + d..|f| - 5] == (if Truthy(divisionName) then divisionName.value else x.division)
      && f[|f| - 5..] == ".xlsx"
  {
  }

  /**
    The export loop: one row per item in item order, then the pictures of
    that item's images; an item without images is skipped before any picture
    is attempted.
   */
  method ExportExcel(x: Inspection, divisionName: Option<string>, departmentName: Option<string>, unreachable: set<string>)
    returns (rows: seq<SheetRow>, placements: seq<Placement>, filename: string)
    ensures rows == SheetRows(x, divisionName, departmentName)
    ensures placements == Placements(ImageLists(x), |x.items|, unreachable)
    ensures filename == ExcelFilename(x, divisionName)
  {
    rows := [];
    placements := [];
    ghost var all := SheetRows(x, divisionName, departmentName);
    ghost var lists := ImageLists(x);
    for k := 0 to |x.items|
      invariant rows == all[..k]
      invariant placements == Placements(lists, k, unreachable)
    {
      var row;
      row, placements := ExportItem(x, divisionName, departmentName, unreachable, k, placements);
      TakeSnoc(all, k);
      rows := rows + [row];
    }
    TakeAll(all);
    filename := "SafetyPatrol_" + x.date + "_" + Or(divisionName, x.division) + ".xlsx";
  }

  /** One turn of the export loop: the item's row, then its pictures unless it has no images. */
  method ExportItem(x: Inspection, divisionName: Option<string>, departmentName: Option<string>, unreachable: set<string>,
                    k: nat, placements0: seq<Placement>) returns (row: SheetRow, placements: seq<Placement>)
    requires k < |x.items| && placements0 == Placements(ImageLists(x), k, unreachable)
    ensures row == RowOf(x, divisionName, departmentName, x.items[k])
    ensures placements == Placements(ImageLists(x), k + 1, unreachable)
  {
    var item := x.items[k];
    var urls := GetAllImagesForItem(item);
    row := ItemRow(x, divisionName, departmentName, item, urls);
    ghost var lists := ImageLists(x);
    assert urls == lists[k];
    if |urls| == 0 {
      assert Slots(k, urls, 0, unreachable) == [];
      placements := placements0;
      assert placements0 + [] == placements0;
    } else {
      placements := PlaceImages(k, urls, unreachable, placements0);
    }
  }

  /** The cells `addRow` receives for one item. */
  method ItemRow(x: Inspection, divisionName: Option<string>, departmentName: Option<string>, item: Item, urls: seq<string>)
    returns (row: SheetRow)
    requires urls == AllImages(item)
    ensures row == RowOf(x, divisionName, departmentName, item)
  {
    row := SheetRow(x.date, x.building, OrStr(x.floor, "-"), Or(divisionName, x.division), Or(departmentName, ""),
                    item.category, item.name, StatusText(item.status),
                    Or(item.details, "-"), Or(item.recommendations, "-"), Or(item.responsible, "-"),
                    Join(x.surveyTeam, "; "), if |urls| > 0 then "" else "-");
  }

  /** The inner loop over an item's images: a picture for each image whose fetch succeeds. */
  method PlaceImages(k: nat, urls: seq<string>, unreachable: set<string>, before: seq<Placement>) returns (after: seq<Placement>)
    ensures after == before + Slots(k, urls, |urls|, unreachable)
  {
    after := before;
    assert before + [] == before;
    for i := 0 to |urls|
      invariant after == before + Slots(k, urls, i, unreachable)
    {
      if urls[i] !in unreachable {
        AppendAssocOne(before, Slots(k, urls, i, unreachable), Placement(k, i, urls[i]));
        after := after + [Placement(k, i, urls[i])];
      } else {
        assert Slots(k, urls, i, unreachable) + [] == Slots(k, urls, i, unreachable);
      }
    }
  }
}
