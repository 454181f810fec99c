/**
  The dashboard (`src/pages/Dashboard.tsx`), first part: the record
  transform of `loadInspections`, the date-range and search filter, the
  per-building rollup and the name lookups over the organisation table.

  Every rollup of the dashboard is computed from `FilteredInspections`.
 */
module Dashboard {
  import opened Common
  import opened Seqs
  import opened Dicts
  import opened Dates
  import opened Records

  // ---------------------------------------------------------------------------
  // loadInspections

  /** The record the dashboard builds from a row of the `inspections` table. */
  function DashboardRecord(r: InspectionRow): (x: Inspection)
    ensures x.id == r.id && x.date == r.date && x.building == r.building && x.division == r.division
    ensures x.department == r.department && x.inspectorName == r.inspectorName && x.floor == ""
    ensures x.time == Some(Or(r.time, ""))
    ensures x.items == (if r.items.Some? then r.items.value else [])
    ensures Truthy(r.inspectorName) ==> Join(x.surveyTeam, ", ") == r.inspectorName.value
    ensures !Truthy(r.inspectorName) ==> x.surveyTeam == []
  {
    var team := if Truthy(r.inspectorName) then Split(r.inspectorName.value, ", ") else [];
    assert Truthy(r.inspectorName) ==> Join(team, ", ") == r.inspectorName.value by {
      if Truthy(r.inspectorName) {
        SplitJoin(r.inspectorName.value, ", ");
      }
    }
    Inspection(r.id, r.date, Some(Or(r.time, "")), r.building, "", r.division, r.department,
               r.inspectorName, team, ArrayOr(r.items), r.createdAt, r.updatedAt)
  }

  function LoadInspections(rows: seq<InspectionRow>): seq<Inspection>
  {
    Map(rows, DashboardRecord)
  }

  // ---------------------------------------------------------------------------
  // filteredInspections

  /** `d >= new Date(start) && d <= new Date(end)`; a comparison with an invalid date is false. */
  predicate InDateRange(x: Inspection, start: string, end: string)
  {
    var d := DateValue(x.date);
    var s := DateValue(start);
    var e := DateValue(end);
    d.Some? && s.Some? && e.Some? && s.value <= d.value <= e.value
  }

  /** An empty query matches; otherwise a case-insensitive substring of building, division or department. */
  predicate MatchesSearch(x: Inspection, q: string)
  {
    q == "" || Includes(Lower(x.building), Lower(q)) || Includes(Lower(x.division), Lower(q))
    || (Truthy(x.department) && Includes(Lower(x.department.value), Lower(q)))
  }

  predicate Selected(x: Inspection, start: string, end: string, q: string)
  {
    InDateRange(x, start, end) && MatchesSearch(x, q)
  }

  /**
    The inspections the dashboard shows: none at all unless both bounds are
    set, and otherwise exactly those dated within the bounds, both inclusive,
    that match the search, in their original order.
   */
  function FilteredInspections(xs: seq<Inspection>, start: string, end: string, q: string): (r: seq<Inspection>)
    ensures start == "" || end == "" ==> r == []
    ensures forall x :: x in r <==> start != "" && end != "" && x in xs && Selected(x, start, end, q)
    ensures |r| <= |xs|
  {
    if start == "" || end == "" then []
    else
      var r := Filter(xs, (x: Inspection) => Selected(x, start, end, q));
      assert forall x :: x in xs && Selected(x, start, end, q) ==> x in r by {
        forall x | x in xs && Selected(x, start, end, q) ensures x in r {
          var i :| 0 <= i < |xs| && xs[i] == x;
        }
      }
      r
  }

  /** Both bounds are inclusive: the range test compares calendar days. */
  lemma DateRangeInclusive(x: Inspection, start: string, end: string)
    ensures InDateRange(x, start, end) <==>
      ParseDate(x.date).Some? && ParseDate(start).Some? && ParseDate(end).Some?
      && Key(ParseDate(start).value) <= Key(ParseDate(x.date).value) <= Key(ParseDate(end).value)
    ensures ParseDate(x.date).Some? && x.date == start && x.date == end ==> InDateRange(x, start, end)
  {
  }

  /** The case of the query does not matter. */
  lemma SearchIgnoresCase(x: Inspection, q: string)
    ensures MatchesSearch(x, q) <==> MatchesSearch(x, Lower(q))
  {
    LowerIdempotent(q);
    assert |Lower(q)| == |q|;
  }

  /** The empty query matches every inspection. */
  lemma EmptySearchMatches(xs: seq<Inspection>, start: string, end: string)
    requires start != "" && end != ""
    ensures FilteredInspections(xs, start, end, "") == Filter(xs, (x: Inspection) => InDateRange(x, start, end))
  {
    FilterSame(xs, (x: Inspection) => Selected(x, start, end, ""), (x: Inspection) => InDateRange(x, start, end));
  }

  lemma {:induction false} FilterSame<T>(xs: seq<T>, p: T -> bool, p': T -> bool)
    requires forall x :: p(x) == p'(x)
    ensures Filter(xs, p) == Filter(xs, p')
  {
    if |xs| > 0 {
      FilterSame(xs[..|xs| - 1], p, p');
    }
  }

  // ---------------------------------------------------------------------------
  // buildingStats

  /** "No sub-unit specified", the key of an inspection without a department. */
  const NoSubunit := "ไม่ระบุหน่วยงานย่อย"

  /** `inspection.department || NoSubunit`: a missing or empty department. */
  function SubunitKey(x: Inspection): (k: string)
    ensures Truthy(x.department) ==> k == x.department.value
    ensures !Truthy(x.department) ==> k == NoSubunit
    ensures k != ""
  {
    Or(x.department, NoSubunit)
  }

  datatype AbnormalEntry = AbnormalEntry(itemName: string, category: string, date: string)
  datatype NotRelevantEntry = NotRelevantEntry(itemName: string, category: string)

  datatype BuildingStat = BuildingStat(
    normal: nat, abnormal: nat, notRelevant: nat, total: nat,
    abnormalByDept: Dict<string, seq<AbnormalEntry>>,
    notRelevantByDept: Dict<string, seq<NotRelevantEntry>>)

  const EmptyBuilding := BuildingStat(0, 0, 0, 0, Empty(), Empty())

  function BuildingOf(x: Inspection): string { x.building }
  function ItemsOf(x: Inspection): seq<Item> { x.items }

  /** One item of inspection `x` counted into its building's entry. */
  function AddItem(s: BuildingStat, x: Inspection, item: Item): BuildingStat
  {
    var s1 := s.(total := s.total + 1);
    var k := SubunitKey(x);
    if item.status == Normal then s1.(normal := s1.normal + 1)
    else if item.status == Abnormal then
      s1.(abnormal := s1.abnormal + 1,
          abnormalByDept := Put(s1.abnormalByDept, k,
                                GetOr(s1.abnormalByDept, k, []) + [AbnormalEntry(item.name, item.category, x.date)]))
    else if item.status == NotRelevant then
      s1.(notRelevant := s1.notRelevant + 1,
          notRelevantByDept := Put(s1.notRelevantByDept, k,
                                   GetOr(s1.notRelevantByDept, k, []) + [NotRelevantEntry(item.name, item.category)]))
    else s1
  }

  function AddItems(s: BuildingStat, x: Inspection, items: seq<Item>): BuildingStat
  {
    if |items| == 0 then s else AddItem(AddItems(s, x, items[..|items| - 1]), x, items[|items| - 1])
  }

  function AddInspection(s: BuildingStat, x: Inspection): BuildingStat
  {
    AddItems(s, x, x.items)
  }

  /** `buildingStats`: one entry per building, created even for an inspection without items. */
  function BuildingStats(xs: seq<Inspection>): Dict<string, BuildingStat>
  {
    GroupFold(xs, BuildingOf, EmptyBuilding, AddInspection)
  }

  predicate KnownStatus(i: Item)
  {
    i.status == Normal || i.status == Abnormal || i.status == NotRelevant
  }

  function AbnormalLength(s: seq<AbnormalEntry>): int { |s| }
  function NotRelevantLength(s: seq<NotRelevantEntry>): int { |s| }

  function Indicator(b: bool): nat { if b then 1 else 0 }

  /** What counting one item adds to an entry. */
  lemma AddItemEffect(s: BuildingStat, x: Inspection, item: Item)
    ensures var r := AddItem(s, x, item);
      r.total == s.total + 1
      && r.normal == s.normal + Indicator(IsNormal(item))
      && r.abnormal == s.abnormal + Indicator(IsAbnormal(item))
      && r.notRelevant == s.notRelevant + Indicator(IsNotRelevant(item))
      && SumValues(r.abnormalByDept, AbnormalLength) == SumValues(s.abnormalByDept, AbnormalLength) + Indicator(IsAbnormal(item))
      && SumValues(r.notRelevantByDept, NotRelevantLength) == SumValues(s.notRelevantByDept, NotRelevantLength) + Indicator(IsNotRelevant(item))
  {
    var k := SubunitKey(x);
    if IsAbnormal(item) {
      SumValuesPut(s.abnormalByDept, k, GetOr(s.abnormalByDept, k, []) + [AbnormalEntry(item.name, item.category, x.date)], AbnormalLength);
    } else if IsNotRelevant(item) {
      SumValuesPut(s.notRelevantByDept, k, GetOr(s.notRelevantByDept, k, []) + [NotRelevantEntry(item.name, item.category)], NotRelevantLength);
    }
  }

  /** What counting a list of items adds to an entry. */
  lemma {:induction false} AddItemsEffect(s: BuildingStat, x: Inspection, items: seq<Item>)
    ensures var r := AddItems(s, x, items);
      r.total == s.total + |items|
      && r.normal == s.normal + Count(items, IsNormal)
      && r.abnormal == s.abnormal + Count(items, IsAbnormal)
      && r.notRelevant == s.notRelevant + Count(items, IsNotRelevant)
      && r.normal + r.abnormal + r.notRelevant == s.normal + s.abnormal + s.notRelevant + Count(items, KnownStatus)
      && SumValues(r.abnormalByDept, AbnormalLength) == SumValues(s.abnormalByDept, AbnormalLength) + Count(items, IsAbnormal)
      && SumValues(r.notRelevantByDept, NotRelevantLength) == SumValues(s.notRelevantByDept, NotRelevantLength) + Count(items, IsNotRelevant)
  {
    if |items| > 0 {
      var prefix := items[..|items| - 1];
      var item := items[|items| - 1];
      AddItemsEffect(s, x, prefix);
      AddItemEffect(AddItems(s, x, prefix), x, item);
      assert KnownStatus(item) <==> IsNormal(item) || IsAbnormal(item) || IsNotRelevant(item);
      assert Normal != Abnormal && Normal != NotRelevant && Abnormal != NotRelevant;
    }
  }

  /** Folding inspections into one entry counts the items of all of them. */
  lemma {:induction false} FoldBuilding(ys: seq<Inspection>)
    ensures var r := FoldL(ys, EmptyBuilding, AddInspection); var items := FlatMap(ys, ItemsOf);
      r.total == |items|
      && r.normal == Count(items, IsNormal)
      && r.abnormal == Count(items, IsAbnormal)
      && r.notRelevant == Count(items, IsNotRelevant)
      && r.normal + r.abnormal + r.notRelevant == Count(items, KnownStatus)
      && SumValues(r.abnormalByDept, AbnormalLength) == r.abnormal
      && SumValues(r.notRelevantByDept, NotRelevantLength) == r.notRelevant
  {
    if |ys| > 0 {
      var prefix := ys[..|ys| - 1];
      var y := ys[|ys| - 1];
      FoldBuilding(prefix);
      AddItemsEffect(FoldL(prefix, EmptyBuilding, AddInspection), y, y.items);
      var items := FlatMap(prefix, ItemsOf);
      CountAppend(items, y.items, IsNormal);
      CountAppend(items, y.items, IsAbnormal);
      CountAppend(items, y.items, IsNotRelevant);
      CountAppend(items, y.items, KnownStatus);
    }
  }

  /**
    A building has an entry exactly when some filtered inspection is in it;
    its total counts the items of those inspections, its three counters the
    items of each status, which add up to the total exactly when every status
    is one of the three, and its per-department lists hold as many entries as
    the abnormal and not-relevant counters.
   */
  lemma BuildingEntry(xs: seq<Inspection>, b: string)
    ensures var sel := FilterKey(xs, BuildingOf, b); var items := FlatMap(sel, ItemsOf);
      var e := Get(BuildingStats(xs), b);
      (e.Some? <==> |sel| > 0)
      && (e.Some? ==>
        e.value.total == |items|
        && e.value.normal == Count(items, IsNormal)
        && e.value.abnormal == Count(items, IsAbnormal)
        && e.value.notRelevant == Count(items, IsNotRelevant)
        && (e.value.normal + e.value.abnormal + e.value.notRelevant == e.value.total <==>
            forall i :: 0 <= i < |items| ==> KnownStatus(items[i]))
        && SumValues(e.value.abnormalByDept, AbnormalLength) == e.value.abnormal
        && SumValues(e.value.notRelevantByDept, NotRelevantLength) == e.value.notRelevant)
  {
    var sel := FilterKey(xs, BuildingOf, b);
    GroupFoldGet(xs, BuildingOf, EmptyBuilding, AddInspection, b);
    FoldBuilding(sel);
    CountAll(FlatMap(sel, ItemsOf), KnownStatus);
  }

  // ---------------------------------------------------------------------------
  // What each sub-unit list of a building holds

  /** The abnormal items among `items`, in order, as the entries `x` pushes, dated with `x`'s date. */
  function AbnormalEntriesOf(x: Inspection, items: seq<Item>): seq<AbnormalEntry>
  {
    if |items| == 0 then []
    else
      var item := items[|items| - 1];
      AbnormalEntriesOf(x, items[..|items| - 1]) + (if IsAbnormal(item) then [AbnormalEntry(item.name, item.category, x.date)] else [])
  }

  /** The not-relevant items among `items`, in order, as entries. */
  function NotRelevantEntriesOf(items: seq<Item>): seq<NotRelevantEntry>
  {
    if |items| == 0 then []
    else
      var item := items[|items| - 1];
      NotRelevantEntriesOf(items[..|items| - 1]) + (if IsNotRelevant(item) then [NotRelevantEntry(item.name, item.category)] else [])
  }

  /** The abnormal entries of the inspections of `ys` whose sub-unit key is `k`, inspection by inspection. */
  function SubunitAbnormal(ys: seq<Inspection>, k: string): seq<AbnormalEntry>
  {
    if |ys| == 0 then []
    else
      var y := ys[|ys| - 1];
      SubunitAbnormal(ys[..|ys| - 1], k) + (if SubunitKey(y) == k then AbnormalEntriesOf(y, y.items) else [])
  }

  /** The not-relevant entries of the inspections of `ys` whose sub-unit key is `k`, inspection by inspection. */
  function SubunitNotRelevant(ys: seq<Inspection>, k: string): seq<NotRelevantEntry>
  {
    if |ys| == 0 then []
    else
      var y := ys[|ys| - 1];
      SubunitNotRelevant(ys[..|ys| - 1], k) + (if SubunitKey(y) == k then NotRelevantEntriesOf(y.items) else [])
  }

  /** Counting one item pushes onto the list of `x`'s sub-unit only, and only for an abnormal or not-relevant item. */
  lemma AddItemLists(s: BuildingStat, x: Inspection, item: Item, k: string)
    ensures var r := AddItem(s, x, item); var here := SubunitKey(x) == k;
      var ab: seq<AbnormalEntry> := if here && IsAbnormal(item) then [AbnormalEntry(item.name, item.category, x.date)] else [];
      var nr: seq<NotRelevantEntry> := if here && IsNotRelevant(item) then [NotRelevantEntry(item.name, item.category)] else [];
      GetOr(r.abnormalByDept, k, []) == GetOr(s.abnormalByDept, k, []) + ab
      && (Get(r.abnormalByDept, k).Some? <==> Get(s.abnormalByDept, k).Some? || |ab| > 0)
      && GetOr(r.notRelevantByDept, k, []) == GetOr(s.notRelevantByDept, k, []) + nr
      && (Get(r.notRelevantByDept, k).Some? <==> Get(s.notRelevantByDept, k).Some? || |nr| > 0)
  {
    var key := SubunitKey(x);
    assert Normal != Abnormal && Normal != NotRelevant && Abnormal != NotRelevant;
    if IsAbnormal(item) {
      GetPut(s.abnormalByDept, key, GetOr(s.abnormalByDept, key, []) + [AbnormalEntry(item.name, item.category, x.date)], k);
    } else if IsNotRelevant(item) {
      GetPut(s.notRelevantByDept, key, GetOr(s.notRelevantByDept, key, []) + [NotRelevantEntry(item.name, item.category)], k);
    }
  }

  /** Counting the items of `x` appends their abnormal entries to the list of `x`'s sub-unit, and to no other list. */
  lemma {:induction false} AddItemsAbnormal(s: BuildingStat, x: Inspection, items: seq<Item>, k: string)
    ensures var r := AddItems(s, x, items);
      var ab := if SubunitKey(x) == k then AbnormalEntriesOf(x, items) else [];
      GetOr(r.abnormalByDept, k, []) == GetOr(s.abnormalByDept, k, []) + ab
      && (Get(r.abnormalByDept, k).Some? <==> Get(s.abnormalByDept, k).Some? || |ab| > 0)
  {
    if |items| > 0 {
      var prefix := items[..|items| - 1];
      var item := items[|items| - 1];
      AddItemsAbnormal(s, x, prefix, k);
      AddItemLists(AddItems(s, x, prefix), x, item, k);
      if SubunitKey(x) == k {
        var a0 := GetOr(s.abnormalByDept, k, []);
        var ab1: seq<AbnormalEntry> := if IsAbnormal(item) then [AbnormalEntry(item.name, item.category, x.date)] else [];
        assert AbnormalEntriesOf(x, items) == AbnormalEntriesOf(x, prefix) + ab1;
        assert a0 + AbnormalEntriesOf(x, prefix) + ab1 == a0 + AbnormalEntriesOf(x, items);
      }
    }
  }

  /** Counting the items of `x` appends their not-relevant entries to the list of `x`'s sub-unit, and to no other list. */
  lemma {:induction false} AddItemsNotRelevant(s: BuildingStat, x: Inspection, items: seq<Item>, k: string)
    ensures var r := AddItems(s, x, items);
      var nr := if SubunitKey(x) == k then NotRelevantEntriesOf(items) else [];
      GetOr(r.notRelevantByDept, k, []) == GetOr(s.notRelevantByDept, k, []) + nr
      && (Get(r.notRelevantByDept, k).Some? <==> Get(s.notRelevantByDept, k).Some? || |nr| > 0)
  {
    if |items| > 0 {
      var prefix := items[..|items| - 1];
      var item := items[|items| - 1];
      AddItemsNotRelevant(s, x, prefix, k);
      AddItemLists(AddItems(s, x, prefix), x, item, k);
      if SubunitKey(x) == k {
        var n0 := GetOr(s.notRelevantByDept, k, []);
        var nr1: seq<NotRelevantEntry> := if IsNotRelevant(item) then [NotRelevantEntry(item.name, item.category)] else [];
        assert NotRelevantEntriesOf(items) == NotRelevantEntriesOf(prefix) + nr1;
        assert n0 + NotRelevantEntriesOf(prefix) + nr1 == n0 + NotRelevantEntriesOf(items);
      }
    }
  }

  /** Folding inspections into one entry builds, for every sub-unit key, exactly its list of entries. */
  lemma {:induction false} FoldBuildingLists(ys: seq<Inspection>, k: string)
    ensures var r := FoldL(ys, EmptyBuilding, AddInspection);
      GetOr(r.abnormalByDept, k, []) == SubunitAbnormal(ys, k)
      && (Get(r.abnormalByDept, k).Some? <==> |SubunitAbnormal(ys, k)| > 0)
      && GetOr(r.notRelevantByDept, k, []) == SubunitNotRelevant(ys, k)
      && (Get(r.notRelevantByDept, k).Some? <==> |SubunitNotRelevant(ys, k)| > 0)
  {
    if |ys| > 0 {
      var prefix := ys[..|ys| - 1];
      var y := ys[|ys| - 1];
      FoldBuildingLists(prefix, k);
      var r0 := FoldL(prefix, EmptyBuilding, AddInspection);
      AddItemsAbnormal(r0, y, y.items, k);
      AddItemsNotRelevant(r0, y, y.items, k);
    }
  }

  /**
    In a building's entry, a sub-unit key has an abnormal (not-relevant) list
    exactly when some inspection of that building and sub-unit has an abnormal
    (not-relevant) item, and the list holds those items' entries in the order
    of the inspections and of their items.
   */
  lemma BuildingSubunitLists(xs: seq<Inspection>, b: string, k: string)
    ensures var sel := FilterKey(xs, BuildingOf, b); var e := Get(BuildingStats(xs), b);
      e.Some? ==>
        (Get(e.value.abnormalByDept, k).Some? <==> |SubunitAbnormal(sel, k)| > 0)
        && GetOr(e.value.abnormalByDept, k, []) == SubunitAbnormal(sel, k)
        && (Get(e.value.notRelevantByDept, k).Some? <==> |SubunitNotRelevant(sel, k)| > 0)
        && GetOr(e.value.notRelevantByDept, k, []) == SubunitNotRelevant(sel, k)
  {
    var sel := FilterKey(xs, BuildingOf, b);
    GroupFoldGet(xs, BuildingOf, EmptyBuilding, AddInspection, b);
    FoldBuildingLists(sel, k);
  }

  /** An inspection without items still creates its building's entry, with every counter at zero. */
  lemma {:induction false} EmptyInspectionsZero(ys: seq<Inspection>)
    requires forall i :: 0 <= i < |ys| ==> ys[i].items == []
    ensures FoldL(ys, EmptyBuilding, AddInspection) == EmptyBuilding
  {
    if |ys| > 0 {
      EmptyInspectionsZero(ys[..|ys| - 1]);
    }
  }

  /** `buildingStats`, as the `reduce` computes it: one pass over the inspections, and for each one over its items. */
  method ComputeBuildingStats(xs: seq<Inspection>) returns (acc: Dict<string, BuildingStat>)
    ensures acc == BuildingStats(xs)
  {
    acc := Empty();
    for i := 0 to |xs|
      invariant acc == BuildingStats(xs[..i])
    {
      var x := xs[i];
      var s := GetOr(acc, x.building, EmptyBuilding);
      s := TallyItems(s, x);
      GroupFoldSnoc(xs[..i], x, BuildingOf, EmptyBuilding, AddInspection);
      TakeSnoc(xs, i);
      acc := Put(acc, x.building, s);
    }
    TakeAll(xs);
  }

  /** The inner `forEach` over the items of one inspection. */
  method TallyItems(s0: BuildingStat, x: Inspection) returns (s: BuildingStat)
    ensures s == AddItems(s0, x, x.items)
  {
    s := s0;
    var deptKey := SubunitKey(x);
    for j := 0 to |x.items|
      invariant s == AddItems(s0, x, x.items[..j])
    {
      var item := x.items[j];
      TakeSucc(x.items, j);
      s := s.(total := s.total + 1);
      if item.status == Normal {
        s := s.(normal := s.normal + 1);
      } else if item.status == Abnormal {
        s := s.(abnormal := s.abnormal + 1);
        var list := GetOr(s.abnormalByDept, deptKey, []);
        s := s.(abnormalByDept := Put(s.abnormalByDept, deptKey, list + [AbnormalEntry(item.name, item.category, x.date)]));
      } else if item.status == NotRelevant {
        s := s.(notRelevant := s.notRelevant + 1);
        var list := GetOr(s.notRelevantByDept, deptKey, []);
        s := s.(notRelevantByDept := Put(s.notRelevantByDept, deptKey, list + [NotRelevantEntry(item.name, item.category)]));
      }
    }
    TakeAll(x.items);
  }

  /** With either bound unset nothing is shown, so the building rollup is empty. */
  lemma UnsetBoundEmptiesBuildings(xs: seq<Inspection>, start: string, end: string, q: string)
    requires start == "" || end == ""
    ensures BuildingStats(FilteredInspections(xs, start, end, q)) == Empty()
  {
  }

  // ---------------------------------------------------------------------------
  // Name lookups

  /** `getDivisionThaiName`: the division's name, or the id when the table has no such division. */
  function DivisionName(divisions: seq<Division>, id: string): (n: string)
    ensures (forall j :: 0 <= j < |divisions| ==> divisions[j].id != id) ==> n == id
    ensures (exists j :: 0 <= j < |divisions| && divisions[j].id == id) ==>
      exists j :: 0 <= j < |divisions| && divisions[j].id == id && n == divisions[j].name
                  && forall k :: 0 <= k < j ==> divisions[k].id != id
  {
    match Find(divisions, (d: Division) => d.id == id)
    case None => id
    case Some(d) => d.name
  }

  /** `getDepartmentThaiName`: the department's name within its division, or the department id. */
  function DepartmentName(divisions: seq<Division>, divisionId: string, departmentId: string): (n: string)
    ensures (forall j :: 0 <= j < |divisions| ==> divisions[j].id != divisionId) ==> n == departmentId
    ensures forall j :: FirstDivision(divisions, j, divisionId) ==>
      (NoDepartment(divisions[j], departmentId) ==> n == departmentId)
      && forall k :: FirstDepartment(divisions[j], k, departmentId) ==> n == divisions[j].departments[k].name
  {
    match Find(divisions, (d: Division) => d.id == divisionId)
    case None => departmentId
    case Some(d) =>
      match Find(d.departments, (e: Department) => e.id == departmentId)
      case None => departmentId
      case Some(e) => e.name
  }

  /** The Thai names of the eight checklist categories (`categoryMap`). */
  function CategoryMap(key: string): Option<string>
  {
    match key
    case "physical" => Some("ด้านกายภาพ")
    case "chemical" => Some("ด้านเคมี")
    case "biological" => Some("ด้านชีวภาพ")
    case "ergonomics" => Some("ด้านการยศาสตร์")
    case "psychosocial" => Some("ด้านจิตสังคม")
    case "fire" => Some("ด้านอัคคีภัยและเหตุฉุกเฉิน")
    case "health" => Some("ด้านสุขภาพ")
    case "environment" => Some("ด้านสิ่งแวดล้อม")
    case _ => None
  }

  /** `getCategoryThaiName`: `categoryMap[key] || key`. */
  function CategoryName(key: string): string
  {
    Or(CategoryMap(key), key)
  }

  /** A known category gets its Thai name, any other key is shown as it is. */
  lemma CategoryNameLookup(key: string)
    ensures CategoryMap(key).Some? ==> CategoryName(key) == CategoryMap(key).value != key
    ensures CategoryMap(key).None? ==> CategoryName(key) == key
  {
  }
}
