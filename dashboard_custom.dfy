/**
  The dashboard's two rollups of custom checklist items (`customItemsWithDetails`
  and `customItemsStats` in `src/pages/Dashboard.tsx`): the custom items of the
  filtered inspections grouped under "category - name", with the count of each
  status and, in the first rollup, one detail line per occurrence.
 */
module DashboardCustom {
  import opened Common
  import opened Seqs
  import opened Dicts
  import opened Records
  import opened Dashboard

  /** An item together with the inspection it was recorded in. */
  datatype InspectedItem = InspectedItem(inspection: Inspection, item: Item)

  function EntriesOf(x: Inspection): seq<InspectedItem>
  {
    Map(x.items, (item: Item) => InspectedItem(x, item))
  }

  predicate IsCustomEntry(e: InspectedItem) { e.item.isCustom }

  /** The custom items of the inspections, in the order the two nested loops visit them. */
  function CustomEntries(xs: seq<Inspection>): seq<InspectedItem>
  {
    Filter(FlatMap(xs, EntriesOf), IsCustomEntry)
  }

  /** `${item.category} - ${item.name}` */
  function ItemKey(item: Item): string { item.category + " - " + item.name }

  function CustomKey(e: InspectedItem): string { ItemKey(e.item) }

  /** Where a custom item was seen. */
  datatype CustomDetail = CustomDetail(date: string, building: string, division: string,
                                       department: Option<string>, inspectionId: string)

  function DetailOf(e: InspectedItem): CustomDetail
  {
    CustomDetail(e.inspection.date, e.inspection.building, e.inspection.division,
                 e.inspection.department, e.inspection.id)
  }

  datatype CustomCounts = CustomCounts(normal: nat, abnormal: nat, notRelevant: nat)

  datatype CustomBucket = CustomBucket(normal: nat, abnormal: nat, notRelevant: nat, details: seq<CustomDetail>)

  const ZeroCounts := CustomCounts(0, 0, 0)
  const EmptyBucket := CustomBucket(0, 0, 0, [])

  /** The status counters of `customItemsStats`: one of three is incremented, or none for another status. */
  function AddCount(c: CustomCounts, e: InspectedItem): CustomCounts
  {
    if e.item.status == Normal then c.(normal := c.normal + 1)
    else if e.item.status == Abnormal then c.(abnormal := c.abnormal + 1)
    else if e.item.status == NotRelevant then c.(notRelevant := c.notRelevant + 1)
    else c
  }

  function CountsOf(b: CustomBucket): CustomCounts
  {
    CustomCounts(b.normal, b.abnormal, b.notRelevant)
  }

  /** The same counters in `customItemsWithDetails`, which records a detail line whatever the status. */
  function AddDetailed(b: CustomBucket, e: InspectedItem): CustomBucket
  {
    var c := AddCount(CountsOf(b), e);
    CustomBucket(c.normal, c.abnormal, c.notRelevant, b.details + [DetailOf(e)])
  }

  function CustomItemsWithDetails(xs: seq<Inspection>): Dict<string, CustomBucket>
  {
    GroupFold(CustomEntries(xs), CustomKey, EmptyBucket, AddDetailed)
  }

  function CustomItemsStats(xs: seq<Inspection>): Dict<string, CustomCounts>
  {
    GroupFold(CustomEntries(xs), CustomKey, ZeroCounts, AddCount)
  }

  predicate NormalEntry(e: InspectedItem) { IsNormal(e.item) }
  predicate AbnormalEntry(e: InspectedItem) { IsAbnormal(e.item) }
  predicate NotRelevantEntry(e: InspectedItem) { IsNotRelevant(e.item) }
  predicate KnownEntry(e: InspectedItem) { KnownStatus(e.item) }

  // ---------------------------------------------------------------------------
  // What a bucket holds

  /** Folding entries into one bucket counts each status and lists every entry, in order. */
  lemma {:induction false} FoldBucket(es: seq<InspectedItem>)
    ensures var b := FoldL(es, EmptyBucket, AddDetailed);
      b.normal == Count(es, NormalEntry)
      && b.abnormal == Count(es, AbnormalEntry)
      && b.notRelevant == Count(es, NotRelevantEntry)
      && b.normal + b.abnormal + b.notRelevant == Count(es, KnownEntry)
      && b.details == Map(es, DetailOf)
  {
    if |es| > 0 {
      var prefix := es[..|es| - 1];
      var e := es[|es| - 1];
      FoldBucket(prefix);
      assert KnownEntry(e) <==> NormalEntry(e) || AbnormalEntry(e) || NotRelevantEntry(e);
      assert Normal != Abnormal && Normal != NotRelevant && Abnormal != NotRelevant;
      assert Map(es, DetailOf) == Map(prefix, DetailOf) + [DetailOf(e)];
    }
  }

  /**
    A key has a bucket exactly when some custom item has that key; the bucket
    counts the statuses of those items, which add up to the number of detail
    lines exactly when every status is one of the three, and holds one detail
    line per item, in the order the items were visited.
   */
  lemma BucketContents(xs: seq<Inspection>, k: string)
    ensures var sel := FilterKey(CustomEntries(xs), CustomKey, k);
      var b := Get(CustomItemsWithDetails(xs), k);
      (b.Some? <==> |sel| > 0)
      && (b.Some? ==>
        b.value.normal == Count(sel, NormalEntry)
        && b.value.abnormal == Count(sel, AbnormalEntry)
        && b.value.notRelevant == Count(sel, NotRelevantEntry)
        && b.value.details == Map(sel, DetailOf)
        && (b.value.normal + b.value.abnormal + b.value.notRelevant == |b.value.details| <==>
            forall i :: 0 <= i < |sel| ==> KnownEntry(sel[i])))
  {
    var sel := FilterKey(CustomEntries(xs), CustomKey, k);
    GroupFoldGet(CustomEntries(xs), CustomKey, EmptyBucket, AddDetailed, k);
    FoldBucket(sel);
    CountAll(sel, KnownEntry);
  }

  /** The two rollups have the same keys in the same order, and the same counts under each key. */
  lemma RollupsAgree(xs: seq<Inspection>, k: string)
    ensures Keys(CustomItemsStats(xs)) == Keys(CustomItemsWithDetails(xs))
    ensures var c := Get(CustomItemsStats(xs), k); var b := Get(CustomItemsWithDetails(xs), k);
      c.Some? == b.Some? && (c.Some? ==> c.value == CountsOf(b.value))
  {
    var es := CustomEntries(xs);
    GroupFoldKeys(es, CustomKey, ZeroCounts, AddCount);
    GroupFoldKeys(es, CustomKey, EmptyBucket, AddDetailed);
    GroupFoldGet(es, CustomKey, ZeroCounts, AddCount, k);
    GroupFoldGet(es, CustomKey, EmptyBucket, AddDetailed, k);
    FoldLProject(FilterKey(es, CustomKey, k), EmptyBucket, AddDetailed, ZeroCounts, AddCount, CountsOf);
  }

  lemma {:induction false} EntriesMember(xs: seq<Inspection>, e: InspectedItem)
    ensures e in FlatMap(xs, EntriesOf) <==>
      exists j, m :: 0 <= j < |xs| && 0 <= m < |xs[j].items| && e == InspectedItem(xs[j], xs[j].items[m])
  {
    if |xs| > 0 {
      var n := |xs| - 1;
      var prefix := xs[..n];
      EntriesMember(prefix, e);
      assert forall j :: 0 <= j < n ==> prefix[j] == xs[j];
      if e in EntriesOf(xs[n]) {
        var m :| 0 <= m < |xs[n].items| && EntriesOf(xs[n])[m] == e;
        assert e == InspectedItem(xs[n], xs[n].items[m]);
      }
      if exists m :: 0 <= m < |xs[n].items| && e == InspectedItem(xs[n], xs[n].items[m]) {
        var m :| 0 <= m < |xs[n].items| && e == InspectedItem(xs[n], xs[n].items[m]);
        assert EntriesOf(xs[n])[m] == e;
      }
    }
  }

  /** Only custom items are rolled up: a key is listed exactly when some custom item of the inspections has it. */
  lemma CustomKeysPresent(xs: seq<Inspection>, k: string)
    ensures k in Keys(CustomItemsWithDetails(xs)) <==>
      exists j, m :: 0 <= j < |xs| && 0 <= m < |xs[j].items| && xs[j].items[m].isCustom && ItemKey(xs[j].items[m]) == k
  {
    var all := FlatMap(xs, EntriesOf);
    var es := CustomEntries(xs);
    GroupFoldHasKey(es, CustomKey, EmptyBucket, AddDetailed, k);
    if exists i :: 0 <= i < |es| && CustomKey(es[i]) == k {
      var i :| 0 <= i < |es| && CustomKey(es[i]) == k;
      EntriesMember(xs, es[i]);
    }
    if exists j, m :: 0 <= j < |xs| && 0 <= m < |xs[j].items| && xs[j].items[m].isCustom && ItemKey(xs[j].items[m]) == k {
      var j, m :| 0 <= j < |xs| && 0 <= m < |xs[j].items| && xs[j].items[m].isCustom && ItemKey(xs[j].items[m]) == k;
      var e := InspectedItem(xs[j], xs[j].items[m]);
      EntriesMember(xs, e);
      var i :| 0 <= i < |all| && all[i] == e;
      assert e in es;
    }
  }

  /** With either bound unset nothing is shown, so both rollups are empty. */
  lemma UnsetBoundEmptiesCustom(xs: seq<Inspection>, start: string, end: string, q: string)
    requires start == "" || end == ""
    ensures CustomItemsWithDetails(FilteredInspections(xs, start, end, q)) == Empty()
    ensures CustomItemsStats(FilteredInspections(xs, start, end, q)) == Empty()
  {
  }

  // ---------------------------------------------------------------------------
  // The imperative rollups

  lemma CustomEntriesTake(xs: seq<Inspection>, i: nat)
    requires i < |xs|
    ensures CustomEntries(xs[..i + 1]) == CustomEntries(xs[..i]) + Filter(EntriesOf(xs[i]), IsCustomEntry)
  {
    FlatMapTake(xs, EntriesOf, i);
    FilterAppend(FlatMap(xs[..i], EntriesOf), EntriesOf(xs[i]), IsCustomEntry);
  }

  /** The rollup after the earlier inspections `done` and the first `j` items of `x`. */
  ghost function PartialRollup<A>(done: seq<InspectedItem>, x: Inspection, j: nat, init: A, step: (A, InspectedItem) -> A): Dict<string, A>
    requires j <= |x.items|
  {
    GroupFold(done + Filter(EntriesOf(x)[..j], IsCustomEntry), CustomKey, init, step)
  }

  /** One item of the inner loop: a custom item is one more step of the grouping, any other item none. */
  lemma {:induction false} CustomStep<A>(done: seq<InspectedItem>, x: Inspection, j: nat, init: A, step: (A, InspectedItem) -> A)
    requires j < |x.items|
    ensures PartialRollup(done, x, j + 1, init, step) ==
      if x.items[j].isCustom then GroupStep(PartialRollup(done, x, j, init, step), InspectedItem(x, x.items[j]), CustomKey, init, step)
      else PartialRollup(done, x, j, init, step)
  {
    var es := EntriesOf(x);
    var f := Filter(es[..j], IsCustomEntry);
    TakeSnoc(es, j);
    FilterSnoc(es[..j], es[j], IsCustomEntry);
    if x.items[j].isCustom {
      AppendAssocOne(done, f, es[j]);
      GroupFoldSnoc(done + f, es[j], CustomKey, init, step);
    } else {
      assert f + [] == f;
    }
  }

  /** Before the first item the rollup is the one over `done`; after the last it is the one over `done` and all of `x`'s custom items. */
  lemma PartialRollupEnds<A>(done: seq<InspectedItem>, x: Inspection, init: A, step: (A, InspectedItem) -> A)
    ensures PartialRollup(done, x, 0, init, step) == GroupFold(done, CustomKey, init, step)
    ensures PartialRollup(done, x, |x.items|, init, step) == GroupFold(done + Filter(EntriesOf(x), IsCustomEntry), CustomKey, init, step)
  {
    assert EntriesOf(x)[..0] == [] && done + [] == done;
    TakeAll(EntriesOf(x));
  }

  /** `customItemsWithDetails`: the `reduce` over the inspections. */
  method ComputeCustomItemsWithDetails(xs: seq<Inspection>) returns (acc: Dict<string, CustomBucket>)
    ensures acc == CustomItemsWithDetails(xs)
  {
    acc := Empty();
    for i := 0 to |xs|
      invariant acc == CustomItemsWithDetails(xs[..i])
    {
      acc := TallyCustomDetails(xs, i, acc);
    }
    TakeAll(xs);
  }

  /** The `forEach` over the items of inspection `i`. */
  method TallyCustomDetails(xs: seq<Inspection>, i: nat, acc0: Dict<string, CustomBucket>) returns (acc: Dict<string, CustomBucket>)
    requires i < |xs| && acc0 == CustomItemsWithDetails(xs[..i])
    ensures acc == CustomItemsWithDetails(xs[..i + 1])
  {
    var x := xs[i];
    ghost var done := CustomEntries(xs[..i]);
    acc := acc0;
    PartialRollupEnds(done, x, EmptyBucket, AddDetailed);
    for j := 0 to |x.items|
      invariant acc == PartialRollup(done, x, j, EmptyBucket, AddDetailed)
      invariant x == xs[i] && done == CustomEntries(xs[..i])
    {
      var item := x.items[j];
      CustomStep(done, x, j, EmptyBucket, AddDetailed);
      if item.isCustom {
        var key := ItemKey(item);
        var b := AddDetail(GetOr(acc, key, EmptyBucket), x, item);
        assert Put(acc, key, b) == GroupStep(acc, InspectedItem(x, item), CustomKey, EmptyBucket, AddDetailed);
        acc := Put(acc, key, b);
      }
    }
    CustomEntriesTake(xs, i);
  }

  /** The body of the `forEach` for a custom item: bump the counter of its status and record where it was seen. */
  method AddDetail(b0: CustomBucket, x: Inspection, item: Item) returns (b: CustomBucket)
    ensures b == AddDetailed(b0, InspectedItem(x, item))
  {
    b := b0;
    if item.status == Normal {
      b := b.(normal := b.normal + 1);
    } else if item.status == Abnormal {
      b := b.(abnormal := b.abnormal + 1);
    } else if item.status == NotRelevant {
      b := b.(notRelevant := b.notRelevant + 1);
    }
    b := b.(details := b.details + [CustomDetail(x.date, x.building, x.division, x.department, x.id)]);
  }

  /** `customItemsStats`: the same traversal keeping only the three counters. */
  method ComputeCustomItemsStats(xs: seq<Inspection>) returns (acc: Dict<string, CustomCounts>)
    ensures acc == CustomItemsStats(xs)
  {
    acc := Empty();
    for i := 0 to |xs|
      invariant acc == CustomItemsStats(xs[..i])
    {
      acc := TallyCustomCounts(xs, i, acc);
    }
    TakeAll(xs);
  }

  method TallyCustomCounts(xs: seq<Inspection>, i: nat, acc0: Dict<string, CustomCounts>) returns (acc: Dict<string, CustomCounts>)
    requires i < |xs| && acc0 == CustomItemsStats(xs[..i])
    ensures acc == CustomItemsStats(xs[..i + 1])
  {
    var x := xs[i];
    ghost var done := CustomEntries(xs[..i]);
    acc := acc0;
    PartialRollupEnds(done, x, ZeroCounts, AddCount);
    for j := 0 to |x.items|
      invariant acc == PartialRollup(done, x, j, ZeroCounts, AddCount)
      invariant x == xs[i] && done == CustomEntries(xs[..i])
    {
      var item := x.items[j];
      CustomStep(done, x, j, ZeroCounts, AddCount);
      if item.isCustom {
        var key := ItemKey(item);
        var c := BumpCount(GetOr(acc, key, ZeroCounts), x, item);
        assert Put(acc, key, c) == GroupStep(acc, InspectedItem(x, item), CustomKey, ZeroCounts, AddCount);
        acc := Put(acc, key, c);
      }
    }
    CustomEntriesTake(xs, i);
  }

  /** The body of the second `forEach` for a custom item: bump the counter of its status. */
  method BumpCount(c0: CustomCounts, x: Inspection, item: Item) returns (c: CustomCounts)
    ensures c == AddCount(c0, InspectedItem(x, item))
  {
    c := c0;
    if item.status == Normal {
      c := c.(normal := c.normal + 1);
    } else if item.status == Abnormal {
      c := c.(abnormal := c.abnormal + 1);
    } else if item.status == NotRelevant {
      c := c.(notRelevant := c.notRelevant + 1);
    }
  }
}
