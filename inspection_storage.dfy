/**
  The browser-local inspection list (`src/lib/inspectionStorage.ts`): a list
  of inspections kept under one storage key, with upsert by id, lookup,
  deletion and a statistics pass.  The stored JSON list is the `records`
  field of `InspectionStore`; reading and re-writing it around each call is
  not modelled.
 */
module InspectionStorage {
  import opened Common
  import opened Seqs
  import opened Dicts
  import opened Records

  /** `inspections.findIndex((i) => i.id === id)`, as an option. */
  function IndexOfId(xs: seq<Inspection>, id: string): (r: Option<nat>)
    ensures r.Some? ==> r.value < |xs| && xs[r.value].id == id
    ensures r.Some? ==> forall j :: 0 <= j < r.value ==> xs[j].id != id
    ensures r.None? <==> forall j :: 0 <= j < |xs| ==> xs[j].id != id
  {
    if |xs| == 0 then None
    else if xs[0].id == id then Some(0)
    else
      match IndexOfId(xs[1..], id)
      case None => None
      case Some(i) => Some(i + 1)
  }

  /** The list after `saveInspection(x)`: the first record with `x`'s id is replaced, or `x` is appended. */
  function Upsert(xs: seq<Inspection>, x: Inspection): seq<Inspection>
  {
    match IndexOfId(xs, x.id)
    case Some(i) => xs[i := x]
    case None => xs + [x]
  }

  /** `inspections.find((i) => i.id === id)` */
  function FindById(xs: seq<Inspection>, id: string): (r: Option<Inspection>)
    ensures r.None? <==> forall j :: 0 <= j < |xs| ==> xs[j].id != id
    ensures r.Some? ==> exists i :: 0 <= i < |xs| && xs[i] == r.value && r.value.id == id
                          && forall j :: 0 <= j < i ==> xs[j].id != id
  {
    match IndexOfId(xs, id)
    case None => None
    case Some(i) => Some(xs[i])
  }

  /** `inspections.filter((i) => i.id !== id)` */
  function RemoveId(xs: seq<Inspection>, id: string): (r: seq<Inspection>)
    ensures |r| <= |xs|
    ensures forall k :: 0 <= k < |r| ==> r[k].id != id && r[k] in xs
    ensures forall k :: 0 <= k < |xs| && xs[k].id != id ==> xs[k] in r
  {
    if |xs| == 0 then []
    else
      var prefix := xs[..|xs| - 1];
      var last := xs[|xs| - 1];
      assert xs == prefix + [last];
      if last.id != id then RemoveId(prefix, id) + [last] else RemoveId(prefix, id)
  }

  // ---------------------------------------------------------------------------
  // Properties of the list operations

  /** The list grows by one exactly when no record had the id. */
  lemma UpsertLength(xs: seq<Inspection>, x: Inspection)
    ensures |Upsert(xs, x)| == if IndexOfId(xs, x.id).Some? then |xs| else |xs| + 1
  {
  }

  /** Every other record stays where it was; a new record goes at the end. */
  lemma UpsertOthers(xs: seq<Inspection>, x: Inspection)
    ensures IndexOfId(xs, x.id).Some? ==>
      var i := IndexOfId(xs, x.id).value;
      Upsert(xs, x)[i] == x && forall j :: 0 <= j < |xs| && j != i ==> Upsert(xs, x)[j] == xs[j]
    ensures IndexOfId(xs, x.id).None? ==> Upsert(xs, x) == xs + [x]
  {
  }

  /** The first index whose record has the id is the one `findIndex` returns. */
  lemma {:induction false} IndexOfIdIs(xs: seq<Inspection>, id: string, i: nat)
    requires i < |xs| && xs[i].id == id
    requires forall j :: 0 <= j < i ==> xs[j].id != id
    ensures IndexOfId(xs, id) == Some(i)
  {
    if i > 0 {
      IndexOfIdIs(xs[1..], id, i - 1);
    }
  }

  /** After saving `x`, looking up its id gives `x`. */
  lemma UpsertThenFind(xs: seq<Inspection>, x: Inspection)
    ensures FindById(Upsert(xs, x), x.id) == Some(x)
  {
    var r := Upsert(xs, x);
    match IndexOfId(xs, x.id)
    case Some(i) =>
      assert r[i] == x;
      IndexOfIdIs(r, x.id, i);
    case None =>
      IndexOfIdIs(r, x.id, |xs|);
  }

  /** Saving the same record twice is the same as saving it once. */
  lemma UpsertIdempotent(xs: seq<Inspection>, x: Inspection)
    ensures Upsert(Upsert(xs, x), x) == Upsert(xs, x)
  {
    var r := Upsert(xs, x);
    match IndexOfId(xs, x.id)
    case Some(i) =>
      IndexOfIdIs(r, x.id, i);
    case None =>
      IndexOfIdIs(r, x.id, |xs|);
  }

  /** Saving a record leaves the lookup of every other id unchanged. */
  lemma UpsertFindOther(xs: seq<Inspection>, x: Inspection, id: string)
    requires id != x.id
    ensures FindById(Upsert(xs, x), id) == FindById(xs, id)
  {
    var r := Upsert(xs, x);
    assert forall j :: 0 <= j < |xs| ==> (r[j].id == id <==> xs[j].id == id);
    match IndexOfId(xs, id)
    case Some(i) =>
      IndexOfIdIs(r, id, i);
    case None =>
      assert IndexOfId(r, id).None?;
  }

  /** Deletion keeps the remaining records in their order: it distributes over concatenation. */
  lemma {:induction false} RemoveIdAppend(xs: seq<Inspection>, ys: seq<Inspection>, id: string)
    ensures RemoveId(xs + ys, id) == RemoveId(xs, id) + RemoveId(ys, id)
    decreases |ys|
  {
    if |ys| > 0 {
      DropLastAppend(xs, ys);
      RemoveIdAppend(xs, ys[..|ys| - 1], id);
    } else {
      assert xs + ys == xs;
    }
  }

  /** Deleting twice is deleting once, and afterwards the id is not found. */
  lemma {:induction false} RemoveIdIdempotent(xs: seq<Inspection>, id: string)
    ensures RemoveId(RemoveId(xs, id), id) == RemoveId(xs, id)
    ensures FindById(RemoveId(xs, id), id).None?
  {
    if |xs| > 0 {
      var prefix := xs[..|xs| - 1];
      var last := xs[|xs| - 1];
      RemoveIdIdempotent(prefix, id);
      var r := RemoveId(prefix, id);
      if last.id != id {
        assert (r + [last])[..|r|] == r;
      }
    }
  }

  /** Deleting an id no record has changes nothing. */
  lemma {:induction false} RemoveAbsentId(xs: seq<Inspection>, id: string)
    requires forall j :: 0 <= j < |xs| ==> xs[j].id != id
    ensures RemoveId(xs, id) == xs
  {
    if |xs| > 0 {
      RemoveAbsentId(xs[..|xs| - 1], id);
      assert xs[..|xs| - 1] + [xs[|xs| - 1]] == xs;
    }
  }

  // ---------------------------------------------------------------------------
  // getInspectionStats

  datatype Stat = Stat(total: nat, abnormal: nat)

  datatype Stats = Stats(
    buildingStats: Dict<string, Stat>,
    divisionStats: Dict<string, Stat>,
    categoryStats: Dict<string, Stat>,
    totalInspections: nat)

  function BuildingOf(x: Inspection): string { x.building }
  function DivisionOf(x: Inspection): string { x.division }
  function CategoryOf(i: Item): string { i.category }
  function ItemsOf(x: Inspection): seq<Item> { x.items }

  /** The number of abnormal items of an inspection. */
  function AbnormalCount(x: Inspection): nat
  {
    Count(x.items, IsAbnormal)
  }

  /** What one inspection adds to its building's or division's entry. */
  function CountInspection(s: Stat, x: Inspection): Stat
  {
    Stat(s.total + 1, s.abnormal + AbnormalCount(x))
  }

  /** What one item adds to its category's entry. */
  function CountItem(s: Stat, i: Item): Stat
  {
    Stat(s.total + 1, s.abnormal + (if IsAbnormal(i) then 1 else 0))
  }

  const Zero := Stat(0, 0)

  /** Every item of every inspection, in order. */
  function AllItems(xs: seq<Inspection>): seq<Item>
  {
    FlatMap(xs, ItemsOf)
  }

  /** The statistics of a list of inspections, stated as groupings. */
  function StatsOf(xs: seq<Inspection>): Stats
  {
    Stats(
      GroupFold(xs, BuildingOf, Zero, CountInspection),
      GroupFold(xs, DivisionOf, Zero, CountInspection),
      GroupFold(AllItems(xs), CategoryOf, Zero, CountItem),
      |xs|)
  }

  function TotalOf(s: Stat): int { s.total }
  function AbnormalOf(s: Stat): int { s.abnormal }
  function AbnormalCountOf(x: Inspection): int { AbnormalCount(x) }
  function AbnormalIndicator(i: Item): int { if IsAbnormal(i) then 1 else 0 }

  lemma {:induction false} SumOfIndicator(xs: seq<Item>)
    ensures SumOf(xs, AbnormalIndicator) == Count(xs, IsAbnormal)
  {
    if |xs| > 0 {
      SumOfIndicator(xs[..|xs| - 1]);
    }
  }

  lemma {:induction false} AllItemsAbnormal(xs: seq<Inspection>)
    ensures SumOf(xs, AbnormalCountOf) == Count(AllItems(xs), IsAbnormal)
  {
    if |xs| > 0 {
      var prefix := xs[..|xs| - 1];
      AllItemsAbnormal(prefix);
      CountAppend(AllItems(prefix), xs[|xs| - 1].items, IsAbnormal);
    }
  }

  /**
    Building and division totals count inspections: they add up to
    `totalInspections`.  Their abnormal counts, like the categories', add up to
    the number of abnormal items.
   */
  lemma StatsTotals(xs: seq<Inspection>)
    ensures SumValues(StatsOf(xs).buildingStats, TotalOf) == StatsOf(xs).totalInspections
    ensures SumValues(StatsOf(xs).divisionStats, TotalOf) == StatsOf(xs).totalInspections
    ensures SumValues(StatsOf(xs).buildingStats, AbnormalOf) == Count(AllItems(xs), IsAbnormal)
    ensures SumValues(StatsOf(xs).divisionStats, AbnormalOf) == Count(AllItems(xs), IsAbnormal)
    ensures SumValues(StatsOf(xs).categoryStats, TotalOf) == |AllItems(xs)|
    ensures SumValues(StatsOf(xs).categoryStats, AbnormalOf) == Count(AllItems(xs), IsAbnormal)
  {
    GroupFoldSum(xs, BuildingOf, Zero, CountInspection, TotalOf, One);
    GroupFoldSum(xs, DivisionOf, Zero, CountInspection, TotalOf, One);
    GroupFoldSum(xs, BuildingOf, Zero, CountInspection, AbnormalOf, AbnormalCountOf);
    GroupFoldSum(xs, DivisionOf, Zero, CountInspection, AbnormalOf, AbnormalCountOf);
    GroupFoldSum(AllItems(xs), CategoryOf, Zero, CountItem, TotalOf, One);
    GroupFoldSum(AllItems(xs), CategoryOf, Zero, CountItem, AbnormalOf, AbnormalIndicator);
    SumOfOne(xs);
    SumOfOne(AllItems(xs));
    AllItemsAbnormal(xs);
    SumOfIndicator(AllItems(xs));
  }

  /** Folding inspections into one entry counts them and their abnormal items. */
  lemma {:induction false} FoldInspections(ys: seq<Inspection>)
    ensures FoldL(ys, Zero, CountInspection) == Stat(|ys|, Count(AllItems(ys), IsAbnormal))
  {
    if |ys| > 0 {
      var prefix := ys[..|ys| - 1];
      FoldInspections(prefix);
      CountAppend(AllItems(prefix), ys[|ys| - 1].items, IsAbnormal);
    }
  }

  /** Folding items into one entry counts them and the abnormal ones. */
  lemma {:induction false} FoldItems(ys: seq<Item>)
    ensures FoldL(ys, Zero, CountItem) == Stat(|ys|, Count(ys, IsAbnormal))
  {
    if |ys| > 0 {
      FoldItems(ys[..|ys| - 1]);
    }
  }

  /** A building's entry counts that building's inspections and their abnormal items. */
  lemma BuildingEntry(xs: seq<Inspection>, b: string)
    ensures var ys := FilterKey(xs, BuildingOf, b);
      Get(StatsOf(xs).buildingStats, b) ==
        if |ys| == 0 then None else Some(Stat(|ys|, Count(AllItems(ys), IsAbnormal)))
  {
    GroupFoldGet(xs, BuildingOf, Zero, CountInspection, b);
    FoldInspections(FilterKey(xs, BuildingOf, b));
  }

  /** A division's entry counts that division's inspections and their abnormal items. */
  lemma DivisionEntry(xs: seq<Inspection>, dv: string)
    ensures var ys := FilterKey(xs, DivisionOf, dv);
      Get(StatsOf(xs).divisionStats, dv) ==
        if |ys| == 0 then None else Some(Stat(|ys|, Count(AllItems(ys), IsAbnormal)))
  {
    GroupFoldGet(xs, DivisionOf, Zero, CountInspection, dv);
    FoldInspections(FilterKey(xs, DivisionOf, dv));
  }

  /** A category's entry counts the items of that category and how many of them are abnormal. */
  lemma CategoryEntry(xs: seq<Inspection>, c: string)
    ensures var ys := FilterKey(AllItems(xs), CategoryOf, c);
      Get(StatsOf(xs).categoryStats, c) ==
        if |ys| == 0 then None else Some(Stat(|ys|, Count(ys, IsAbnormal)))
  {
    GroupFoldGet(AllItems(xs), CategoryOf, Zero, CountItem, c);
    FoldItems(FilterKey(AllItems(xs), CategoryOf, c));
  }

  // ---------------------------------------------------------------------------
  // The store

  /**
    The dictionary after `if (!d[k]) d[k] = { total: 0, abnormal: 0 }`
    followed by adding `dt` to the entry's total and `da` to its abnormal count.
   */
  function Bumped(d: Dict<string, Stat>, k: string, dt: nat, da: nat): (r: Dict<string, Stat>)
  {
    var s := GetOr(d, k, Zero);
    Put(d, k, Stat(s.total + dt, s.abnormal + da))
  }

  /** Only the entry for `k` changes: it is created at zero when missing and then incremented. */
  lemma BumpedGet(d: Dict<string, Stat>, k: string, dt: nat, da: nat, k': string)
    ensures Get(Bumped(d, k, dt, da), k') ==
      if k' != k then Get(d, k')
      else if Get(d, k).None? then Some(Stat(dt, da))
      else Some(Stat(Get(d, k).value.total + dt, Get(d, k).value.abnormal + da))
    ensures Keys(Bumped(d, k, dt, da)) == if k in Keys(d) then Keys(d) else Keys(d) + [k]
  {
    GetPut(d, k, Stat(GetOr(d, k, Zero).total + dt, GetOr(d, k, Zero).abnormal + da), k');
    PutKeys(d, k, Stat(GetOr(d, k, Zero).total + dt, GetOr(d, k, Zero).abnormal + da));
  }

  /** Incrementing an entry that was just written is writing the incremented entry. */
  lemma BumpedPut(d: Dict<string, Stat>, k: string, v: Stat, dt: nat, da: nat)
    ensures Bumped(Put(d, k, v), k, dt, da) == Put(d, k, Stat(v.total + dt, v.abnormal + da))
  {
    GetPutSame(d, k, v);
    PutPut(d, k, v, Stat(v.total + dt, v.abnormal + da));
  }

  /** The statement sequence that creates a missing entry and increments it. */
  method Bump(d: Dict<string, Stat>, k: string, dt: nat, da: nat) returns (r: Dict<string, Stat>)
    ensures r == Bumped(d, k, dt, da)
  {
    r := d;
    if Get(r, k).None? {
      r := Put(r, k, Zero);
      BumpedPut(d, k, Zero, dt, da);
    }
    GetPutSame(d, k, Zero);
    var s := Get(r, k).value;
    r := Put(r, k, Stat(s.total + dt, s.abnormal + da));
  }

  /** The three dictionaries while the items of one inspection are counted. */
  datatype Tally = Tally(buildings: Dict<string, Stat>, divisions: Dict<string, Stat>, categories: Dict<string, Stat>)

  /** One item counted into its category: the total first, then the abnormal count. */
  function CategoryStep(cs: Dict<string, Stat>, item: Item): Dict<string, Stat>
  {
    var cs' := Bumped(cs, item.category, 1, 0);
    if item.status == Abnormal then Bumped(cs', item.category, 0, 1) else cs'
  }

  /** One item of an inspection in building `b` and division `dv`. */
  function ItemStep(t: Tally, b: string, dv: string, item: Item): Tally
  {
    if item.status == Abnormal then
      Tally(Bumped(t.buildings, b, 0, 1), Bumped(t.divisions, dv, 0, 1), CategoryStep(t.categories, item))
    else t.(categories := CategoryStep(t.categories, item))
  }

  function ItemsTally(t: Tally, b: string, dv: string, items: seq<Item>): Tally
  {
    if |items| == 0 then t else ItemStep(ItemsTally(t, b, dv, items[..|items| - 1]), b, dv, items[|items| - 1])
  }

  /** Adding one to the abnormal count of `k` for every abnormal item. */
  function AbnormalTally(d: Dict<string, Stat>, k: string, items: seq<Item>): Dict<string, Stat>
  {
    if |items| == 0 then d
    else
      var d' := AbnormalTally(d, k, items[..|items| - 1]);
      if items[|items| - 1].status == Abnormal then Bumped(d', k, 0, 1) else d'
  }

  lemma {:induction false} ItemsTallyProjections(t: Tally, b: string, dv: string, items: seq<Item>)
    ensures ItemsTally(t, b, dv, items).buildings == AbnormalTally(t.buildings, b, items)
    ensures ItemsTally(t, b, dv, items).divisions == AbnormalTally(t.divisions, dv, items)
    ensures ItemsTally(t, b, dv, items).categories == FoldL(items, t.categories, CategoryStep)
  {
    if |items| > 0 {
      ItemsTallyProjections(t, b, dv, items[..|items| - 1]);
    }
  }

  /** The abnormal items of an inspection add up in its entry. */
  lemma {:induction false} AbnormalTallyPut(d: Dict<string, Stat>, k: string, v: Stat, items: seq<Item>)
    ensures AbnormalTally(Put(d, k, v), k, items) == Put(d, k, Stat(v.total, v.abnormal + Count(items, IsAbnormal)))
  {
    if |items| > 0 {
      var prefix := items[..|items| - 1];
      AbnormalTallyPut(d, k, v, prefix);
      BumpedPut(d, k, Stat(v.total, v.abnormal + Count(prefix, IsAbnormal)), 0, 1);
    }
  }

  /** Counting an item into its category is one step of the category grouping. */
  lemma CategoryStepGroups(cs: Dict<string, Stat>, item: Item)
    ensures CategoryStep(cs, item) == GroupStep(cs, item, CategoryOf, Zero, CountItem)
  {
    var s := GetOr(cs, item.category, Zero);
    BumpedPut(cs, item.category, Stat(s.total + 1, s.abnormal), 0, 1);
  }

  /** Counting the items of an inspection continues the category grouping over them. */
  lemma {:induction false} CategoryFoldContinues(done: seq<Item>, items: seq<Item>)
    ensures FoldL(items, GroupFold(done, CategoryOf, Zero, CountItem), CategoryStep)
         == GroupFold(done + items, CategoryOf, Zero, CountItem)
  {
    if |items| == 0 {
      assert done + items == done;
    } else {
      var prefix := items[..|items| - 1];
      var item := items[|items| - 1];
      var before := GroupFold(done + prefix, CategoryOf, Zero, CountItem);
      calc {
        FoldL(items, GroupFold(done, CategoryOf, Zero, CountItem), CategoryStep);
        CategoryStep(FoldL(prefix, GroupFold(done, CategoryOf, Zero, CountItem), CategoryStep), item);
        { CategoryFoldContinues(done, prefix); }
        CategoryStep(before, item);
        { CategoryStepGroups(before, item); }
        GroupStep(before, item, CategoryOf, Zero, CountItem);
        { GroupFoldSnoc(done + prefix, item, CategoryOf, Zero, CountItem); }
        GroupFold((done + prefix) + [item], CategoryOf, Zero, CountItem);
        { assert done + items == (done + prefix) + [item]; }
        GroupFold(done + items, CategoryOf, Zero, CountItem);
      }
    }
  }

  /** An inspection's building or division entry counts it once and adds its abnormal items. */
  lemma InspectionEntry(d: Dict<string, Stat>, k: string, x: Inspection)
    ensures AbnormalTally(Bumped(d, k, 1, 0), k, x.items) == Put(d, k, CountInspection(GetOr(d, k, Zero), x))
  {
    var s := GetOr(d, k, Zero);
    AbnormalTallyPut(d, k, Stat(s.total + 1, s.abnormal), x.items);
  }

  /**
    Counting one inspection: its building and division entries count it once
    and add its abnormal items, and the category grouping continues over its items.
   */
  lemma CountOneTally(bs: Dict<string, Stat>, ds: Dict<string, Stat>, cs: Dict<string, Stat>,
                      x: Inspection, done: seq<Item>)
    requires cs == GroupFold(done, CategoryOf, Zero, CountItem)
    ensures var t := ItemsTally(Tally(Bumped(bs, x.building, 1, 0), Bumped(ds, x.division, 1, 0), cs),
                                x.building, x.division, x.items);
      t.buildings == GroupStep(bs, x, BuildingOf, Zero, CountInspection)
      && t.divisions == GroupStep(ds, x, DivisionOf, Zero, CountInspection)
      && t.categories == GroupFold(done + x.items, CategoryOf, Zero, CountItem)
  {
    var t := Tally(Bumped(bs, x.building, 1, 0), Bumped(ds, x.division, 1, 0), cs);
    ItemsTallyProjections(t, x.building, x.division, x.items);
    InspectionEntry(bs, x.building, x);
    InspectionEntry(ds, x.division, x);
    CategoryFoldContinues(done, x.items);
  }

  /** The body of the statistics loop for one inspection. */
  method CountOne(bs: Dict<string, Stat>, ds: Dict<string, Stat>, cs: Dict<string, Stat>,
                  x: Inspection, ghost done: seq<Item>)
    returns (bs': Dict<string, Stat>, ds': Dict<string, Stat>, cs': Dict<string, Stat>)
    requires cs == GroupFold(done, CategoryOf, Zero, CountItem)
    ensures bs' == GroupStep(bs, x, BuildingOf, Zero, CountInspection)
    ensures ds' == GroupStep(ds, x, DivisionOf, Zero, CountInspection)
    ensures cs' == GroupFold(done + x.items, CategoryOf, Zero, CountItem)
  {
    bs' := Bump(bs, x.building, 1, 0);
    ds' := Bump(ds, x.division, 1, 0);
    cs' := cs;
    ghost var t0 := Tally(bs', ds', cs');
    for j := 0 to |x.items|
      invariant Tally(bs', ds', cs') == ItemsTally(t0, x.building, x.division, x.items[..j])
    {
      var item := x.items[j];
      cs' := Bump(cs', item.category, 1, 0);
      if item.status == Abnormal {
        bs' := Bump(bs', x.building, 0, 1);
        ds' := Bump(ds', x.division, 0, 1);
        cs' := Bump(cs', item.category, 0, 1);
      }
      assert x.items[..j + 1][..j] == x.items[..j];
    }
    assert x.items[..|x.items|] == x.items;
    CountOneTally(bs, ds, cs, x, done);
  }

  class InspectionStore {
    var records: seq<Inspection>

    constructor ()
      ensures records == []
    {
      records := [];
    }

    /** `saveInspection` */
    method SaveInspection(x: Inspection)
      modifies this
      ensures records == Upsert(old(records), x)
      ensures FindById(records, x.id) == Some(x)
    {
      var existingIndex := IndexOfId(records, x.id);
      if existingIndex.Some? {
        records := records[existingIndex.value := x];
      } else {
        records := records + [x];
      }
      UpsertThenFind(old(records), x);
    }

    /** `getInspectionById`: the first record with the id, if any. */
    function GetInspectionById(id: string): (r: Option<Inspection>)
      reads this
      ensures r.None? <==> forall j :: 0 <= j < |records| ==> records[j].id != id
      ensures r.Some? ==> r.value in records && r.value.id == id
    {
      FindById(records, id)
    }

    /** `deleteInspection` */
    method DeleteInspection(id: string)
      modifies this
      ensures records == RemoveId(old(records), id)
      ensures GetInspectionById(id).None?
    {
      records := RemoveId(records, id);
      RemoveIdIdempotent(old(records), id);
    }

    /** `getInspectionStats`: one pass over the inspections and their items. */
    method GetInspectionStats() returns (s: Stats)
      ensures s == StatsOf(records)
    {
      var xs := records;
      var buildingStats: Dict<string, Stat> := Empty();
      var divisionStats: Dict<string, Stat> := Empty();
      var categoryStats: Dict<string, Stat> := Empty();
      var i := 0;
      while i < |xs|
        invariant 0 <= i <= |xs|
        invariant buildingStats == GroupFold(xs[..i], BuildingOf, Zero, CountInspection)
        invariant divisionStats == GroupFold(xs[..i], DivisionOf, Zero, CountInspection)
        invariant categoryStats == GroupFold(AllItems(xs[..i]), CategoryOf, Zero, CountItem)
      {
        assert xs[..i + 1][..i] == xs[..i];
        buildingStats, divisionStats, categoryStats :=
          CountOne(buildingStats, divisionStats, categoryStats, xs[i], AllItems(xs[..i]));
        i := i + 1;
      }
      assert xs[..|xs|] == xs;
      s := Stats(buildingStats, divisionStats, categoryStats, |xs|);
    }
  }
}
