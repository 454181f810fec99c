/**
  The dashboard's division rollup (`divisionDepartmentStats` in
  `src/pages/Dashboard.tsx`): filtered inspections grouped by division, then
  by department (or the no-sub-unit label), then by inspection id (one
  occurrence per inspection, even for two inspections on the same day),
  then by checklist category, with the status counts of each category and
  the list of its abnormal items.
 */
module DashboardDivisions {
  import opened Common
  import opened Seqs
  import opened Dicts
  import opened Records
  import opened Dashboard
  import opened DashboardCustom

  datatype AbnormalDetail = AbnormalDetail(itemName: string, details: Option<string>, responsible: Option<string>,
                                           date: string, building: string)

  datatype CategoryStat = CategoryStat(normal: nat, abnormal: nat, notRelevant: nat, abnormalItems: seq<AbnormalDetail>)

  const EmptyCategory := CategoryStat(0, 0, 0, [])

  /** One inspection in one department: created from the first inspection with its id. */
  datatype Occurrence = Occurrence(id: string, date: string, time: Option<string>, building: string,
                                   categories: Dict<string, CategoryStat>)

  datatype DepartmentStat = DepartmentStat(departmentName: string, inspections: Dict<string, Occurrence>)

  datatype DivisionStat = DivisionStat(divisionName: string, departments: Dict<string, DepartmentStat>)

  /** One item counted into its category. */
  function CountCategoryItem(c: CategoryStat, x: Inspection, item: Item): CategoryStat
  {
    if item.status == Normal then c.(normal := c.normal + 1)
    else if item.status == Abnormal then
      c.(abnormal := c.abnormal + 1,
         abnormalItems := c.abnormalItems + [AbnormalDetail(item.name, item.details, item.responsible, x.date, x.building)])
    else if item.status == NotRelevant then c.(notRelevant := c.notRelevant + 1)
    else c
  }

  /** The items of `x`, each counted into its category, creating the category when missing. */
  function AddToCategories(cats: Dict<string, CategoryStat>, x: Inspection, items: seq<Item>): Dict<string, CategoryStat>
  {
    if |items| == 0 then cats
    else
      var acc := AddToCategories(cats, x, items[..|items| - 1]);
      var item := items[|items| - 1];
      Put(acc, item.category, CountCategoryItem(GetOr(acc, item.category, EmptyCategory), x, item))
  }

  function NewOccurrence(x: Inspection): Occurrence
  {
    Occurrence(x.id, x.date, x.time, x.building, Empty())
  }

  function AddOccurrence(occs: Dict<string, Occurrence>, x: Inspection): Dict<string, Occurrence>
  {
    var e := GetOr(occs, x.id, NewOccurrence(x));
    Put(occs, x.id, e.(categories := AddToCategories(e.categories, x, x.items)))
  }

  function AddToDepartments(deps: Dict<string, DepartmentStat>, x: Inspection): Dict<string, DepartmentStat>
  {
    var k := SubunitKey(x);
    var d := GetOr(deps, k, DepartmentStat(k, Empty()));
    Put(deps, k, d.(inspections := AddOccurrence(d.inspections, x)))
  }

  function DivisionStep(acc: Dict<string, DivisionStat>, x: Inspection): Dict<string, DivisionStat>
  {
    var dv := GetOr(acc, x.division, DivisionStat(x.division, Empty()));
    Put(acc, x.division, dv.(departments := AddToDepartments(dv.departments, x)))
  }

  /** `divisionDepartmentStats`: the `reduce` over the filtered inspections. */
  function DivisionStats(xs: seq<Inspection>): Dict<string, DivisionStat>
  {
    if |xs| == 0 then Empty() else DivisionStep(DivisionStats(xs[..|xs| - 1]), xs[|xs| - 1])
  }

  // ---------------------------------------------------------------------------
  // Every category's list of abnormal items is as long as its abnormal count

  predicate CategoryOk(c: CategoryStat) { |c.abnormalItems| == c.abnormal }
  predicate OccurrenceOk(o: Occurrence) { AllValues(o.categories, CategoryOk) }
  predicate DepartmentOk(d: DepartmentStat) { AllValues(d.inspections, OccurrenceOk) }
  predicate DivisionOk(dv: DivisionStat) { AllValues(dv.departments, DepartmentOk) }

  lemma {:induction false} AddToCategoriesOk(cats: Dict<string, CategoryStat>, x: Inspection, items: seq<Item>)
    requires AllValues(cats, CategoryOk)
    ensures AllValues(AddToCategories(cats, x, items), CategoryOk)
  {
    if |items| > 0 {
      var acc := AddToCategories(cats, x, items[..|items| - 1]);
      var item := items[|items| - 1];
      AddToCategoriesOk(cats, x, items[..|items| - 1]);
      GetOrAllValues(acc, item.category, EmptyCategory, CategoryOk);
      PutAllValues(acc, item.category, CountCategoryItem(GetOr(acc, item.category, EmptyCategory), x, item), CategoryOk);
    }
  }

  lemma DivisionStepOk(acc: Dict<string, DivisionStat>, x: Inspection)
    requires AllValues(acc, DivisionOk)
    ensures AllValues(DivisionStep(acc, x), DivisionOk)
  {
    var dv := GetOr(acc, x.division, DivisionStat(x.division, Empty()));
    GetOrAllValues(acc, x.division, DivisionStat(x.division, Empty()), DivisionOk);
    var k := SubunitKey(x);
    var d := GetOr(dv.departments, k, DepartmentStat(k, Empty()));
    GetOrAllValues(dv.departments, k, DepartmentStat(k, Empty()), DepartmentOk);
    var e := GetOr(d.inspections, x.id, NewOccurrence(x));
    GetOrAllValues(d.inspections, x.id, NewOccurrence(x), OccurrenceOk);
    AddToCategoriesOk(e.categories, x, x.items);
    PutAllValues(d.inspections, x.id, e.(categories := AddToCategories(e.categories, x, x.items)), OccurrenceOk);
    PutAllValues(dv.departments, k, d.(inspections := AddOccurrence(d.inspections, x)), DepartmentOk);
    PutAllValues(acc, x.division, dv.(departments := AddToDepartments(dv.departments, x)), DivisionOk);
  }

  /** In every category of every occurrence, the abnormal list holds exactly `abnormal` entries. */
  lemma {:induction false} AbnormalListsMatchCounts(xs: seq<Inspection>)
    ensures AllValues(DivisionStats(xs), DivisionOk)
  {
    if |xs| > 0 {
      AbnormalListsMatchCounts(xs[..|xs| - 1]);
      DivisionStepOk(DivisionStats(xs[..|xs| - 1]), xs[|xs| - 1]);
    }
  }

  // ---------------------------------------------------------------------------
  // Occurrences are keyed by inspection id

  /** `acc[dv].departments[dp].inspections`, empty when a level is missing. */
  function Occurrences(acc: Dict<string, DivisionStat>, dv: string, dp: string): Dict<string, Occurrence>
  {
    match Get(acc, dv)
    case None => Empty()
    case Some(s) =>
      match Get(s.departments, dp)
      case None => Empty()
      case Some(d) => d.inspections
  }

  lemma DivisionStepOccurrences(acc: Dict<string, DivisionStat>, x: Inspection, dv: string, dp: string)
    ensures Occurrences(DivisionStep(acc, x), dv, dp) ==
      if dv == x.division && dp == SubunitKey(x) then AddOccurrence(Occurrences(acc, dv, dp), x)
      else Occurrences(acc, dv, dp)
  {
    var s := GetOr(acc, x.division, DivisionStat(x.division, Empty()));
    var k := SubunitKey(x);
    var d := GetOr(s.departments, k, DepartmentStat(k, Empty()));
    GetPut(acc, x.division, s.(departments := AddToDepartments(s.departments, x)), dv);
    GetPut(s.departments, k, d.(inspections := AddOccurrence(d.inspections, x)), dp);
  }

  predicate Matches(x: Inspection, dv: string, dp: string, id: string)
  {
    x.division == dv && SubunitKey(x) == dp && x.id == id
  }

  /** `xs[i]` is the first inspection of the department with the id. */
  predicate FirstMatch(xs: seq<Inspection>, i: int, dv: string, dp: string, id: string)
  {
    0 <= i < |xs| && Matches(xs[i], dv, dp, id) && forall j :: 0 <= j < i ==> !Matches(xs[j], dv, dp, id)
  }

  /** The fields an occurrence takes from the inspection that created it. */
  function Header(o: Occurrence): (string, string, Option<string>, string) { (o.id, o.date, o.time, o.building) }
  function HeaderOf(x: Inspection): (string, string, Option<string>, string) { (x.id, x.date, x.time, x.building) }

  lemma AddOccurrenceGet(occs: Dict<string, Occurrence>, x: Inspection, id: string)
    ensures var o := Get(AddOccurrence(occs, x), id);
      (o.Some? <==> Get(occs, id).Some? || id == x.id)
      && (Get(occs, id).Some? ==> Header(o.value) == Header(Get(occs, id).value))
      && (Get(occs, id).None? && id == x.id ==> Header(o.value) == HeaderOf(x))
  {
    var e := GetOr(occs, x.id, NewOccurrence(x));
    GetPut(occs, x.id, e.(categories := AddToCategories(e.categories, x, x.items)), id);
  }

  function MatchesAll(dv: string, dp: string, id: string): Inspection -> bool
  {
    (x: Inspection) => Matches(x, dv, dp, id)
  }

  lemma {:induction false} OccurrenceCount(xs: seq<Inspection>, dv: string, dp: string, id: string)
    ensures Get(Occurrences(DivisionStats(xs), dv, dp), id).Some? <==> Count(xs, MatchesAll(dv, dp, id)) > 0
  {
    if |xs| > 0 {
      var prefix := xs[..|xs| - 1];
      var x := xs[|xs| - 1];
      OccurrenceCount(prefix, dv, dp, id);
      DivisionStepOccurrences(DivisionStats(prefix), x, dv, dp);
      AddOccurrenceGet(Occurrences(DivisionStats(prefix), dv, dp), x, id);
    }
  }

  /** A department has an occurrence for an id exactly when one of its inspections has that id. */
  lemma OccurrencePresent(xs: seq<Inspection>, dv: string, dp: string, id: string)
    ensures Get(Occurrences(DivisionStats(xs), dv, dp), id).Some? <==>
      exists i :: 0 <= i < |xs| && Matches(xs[i], dv, dp, id)
  {
    OccurrenceCount(xs, dv, dp, id);
    CountPositive(xs, MatchesAll(dv, dp, id));
  }

  /** The header of the first inspection of the department with the id. */
  function FirstHeader(xs: seq<Inspection>, dv: string, dp: string, id: string): Option<(string, string, Option<string>, string)>
  {
    if |xs| == 0 then None
    else
      match FirstHeader(xs[..|xs| - 1], dv, dp, id)
      case Some(h) => Some(h)
      case None => if Matches(xs[|xs| - 1], dv, dp, id) then Some(HeaderOf(xs[|xs| - 1])) else None
  }

  lemma {:induction false} FirstHeaderIs(xs: seq<Inspection>, dv: string, dp: string, id: string)
    requires FirstHeader(xs, dv, dp, id).Some?
    ensures exists i :: FirstMatch(xs, i, dv, dp, id) && FirstHeader(xs, dv, dp, id).value == HeaderOf(xs[i])
  {
    var prefix := xs[..|xs| - 1];
    if FirstHeader(prefix, dv, dp, id).Some? {
      FirstHeaderIs(prefix, dv, dp, id);
      var i :| FirstMatch(prefix, i, dv, dp, id) && FirstHeader(prefix, dv, dp, id).value == HeaderOf(prefix[i]);
      assert forall j :: 0 <= j <= i ==> xs[j] == prefix[j];
      assert FirstMatch(xs, i, dv, dp, id);
    } else {
      FirstHeaderNone(prefix, dv, dp, id);
      assert forall j :: 0 <= j < |prefix| ==> xs[j] == prefix[j];
      assert FirstMatch(xs, |xs| - 1, dv, dp, id);
    }
  }

  lemma {:induction false} FirstHeaderNone(xs: seq<Inspection>, dv: string, dp: string, id: string)
    requires FirstHeader(xs, dv, dp, id).None?
    ensures forall j :: 0 <= j < |xs| ==> !Matches(xs[j], dv, dp, id)
  {
    if |xs| > 0 {
      var prefix := xs[..|xs| - 1];
      FirstHeaderNone(prefix, dv, dp, id);
      assert forall j :: 0 <= j < |prefix| ==> xs[j] == prefix[j];
    }
  }

  lemma {:induction false} OccurrenceFirstHeader(xs: seq<Inspection>, dv: string, dp: string, id: string)
    ensures var o := Get(Occurrences(DivisionStats(xs), dv, dp), id);
      o.Some? == FirstHeader(xs, dv, dp, id).Some? && (o.Some? ==> Header(o.value) == FirstHeader(xs, dv, dp, id).value)
  {
    if |xs| > 0 {
      var prefix := xs[..|xs| - 1];
      var x := xs[|xs| - 1];
      OccurrenceFirstHeader(prefix, dv, dp, id);
      DivisionStepOccurrences(DivisionStats(prefix), x, dv, dp);
      AddOccurrenceGet(Occurrences(DivisionStats(prefix), dv, dp), x, id);
    }
  }

  /** The occurrence carries the id, date, time and building of the first inspection with its id. */
  lemma OccurrenceHeader(xs: seq<Inspection>, dv: string, dp: string, id: string)
    requires Get(Occurrences(DivisionStats(xs), dv, dp), id).Some?
    ensures exists i :: FirstMatch(xs, i, dv, dp, id)
                        && Header(Get(Occurrences(DivisionStats(xs), dv, dp), id).value) == HeaderOf(xs[i])
  {
    OccurrenceFirstHeader(xs, dv, dp, id);
    FirstHeaderIs(xs, dv, dp, id);
  }

  /**
    Two inspections of one department with different ids are two
    occurrences, even when they share a date.
   */
  lemma SameDayStaysDistinct(xs: seq<Inspection>, i: nat, j: nat)
    requires i < |xs| && j < |xs|
    requires xs[i].division == xs[j].division && SubunitKey(xs[i]) == SubunitKey(xs[j]) && xs[i].id != xs[j].id
    ensures var occs := Occurrences(DivisionStats(xs), xs[i].division, SubunitKey(xs[i]));
      Get(occs, xs[i].id).Some? && Get(occs, xs[j].id).Some?
  {
    OccurrencePresent(xs, xs[i].division, SubunitKey(xs[i]), xs[i].id);
    OccurrencePresent(xs, xs[i].division, SubunitKey(xs[i]), xs[j].id);
    assert Matches(xs[i], xs[i].division, SubunitKey(xs[i]), xs[i].id);
    assert Matches(xs[j], xs[i].division, SubunitKey(xs[i]), xs[j].id);
  }

  // ---------------------------------------------------------------------------
  // What each category of an occurrence counts

  /** The items of `x`, each paired with `x`. */
  function Tagged(x: Inspection, items: seq<Item>): seq<InspectedItem>
  {
    seq(|items|, i requires 0 <= i < |items| => InspectedItem(x, items[i]))
  }

  /** The items of the inspections of department `dp` of division `dv` with the id, in visiting order. */
  function MatchedItems(xs: seq<Inspection>, dv: string, dp: string, id: string): seq<InspectedItem>
  {
    if |xs| == 0 then []
    else
      var x := xs[|xs| - 1];
      MatchedItems(xs[..|xs| - 1], dv, dp, id) + (if Matches(x, dv, dp, id) then Tagged(x, x.items) else [])
  }

  function EntryCategory(e: InspectedItem): string { e.item.category }

  function CountEntry(c: CategoryStat, e: InspectedItem): CategoryStat
  {
    CountCategoryItem(c, e.inspection, e.item)
  }

  /** The line an abnormal item adds to its category's list. */
  function AbnormalDetailOf(e: InspectedItem): AbnormalDetail
  {
    AbnormalDetail(e.item.name, e.item.details, e.item.responsible, e.inspection.date, e.inspection.building)
  }

  /** An element of `MatchedItems` is an item of one of the matching inspections, and every such item is one. */
  lemma {:induction false} MatchedItemsMember(xs: seq<Inspection>, dv: string, dp: string, id: string, e: InspectedItem)
    ensures e in MatchedItems(xs, dv, dp, id) <==>
      exists j, m :: 0 <= j < |xs| && Matches(xs[j], dv, dp, id) && 0 <= m < |xs[j].items|
                     && e == InspectedItem(xs[j], xs[j].items[m])
  {
    if |xs| > 0 {
      var n := |xs| - 1;
      var prefix := xs[..n];
      MatchedItemsMember(prefix, dv, dp, id, e);
      assert forall j :: 0 <= j < n ==> prefix[j] == xs[j];
      if Matches(xs[n], dv, dp, id) {
        if e in Tagged(xs[n], xs[n].items) {
          var m :| 0 <= m < |xs[n].items| && Tagged(xs[n], xs[n].items)[m] == e;
          assert e == InspectedItem(xs[n], xs[n].items[m]);
        }
        if exists m :: 0 <= m < |xs[n].items| && e == InspectedItem(xs[n], xs[n].items[m]) {
          var m :| 0 <= m < |xs[n].items| && e == InspectedItem(xs[n], xs[n].items[m]);
          assert Tagged(xs[n], xs[n].items)[m] == e;
        }
      }
    }
  }

  lemma TaggedSnoc(es: seq<InspectedItem>, x: Inspection, items: seq<Item>)
    requires |items| > 0
    ensures es + Tagged(x, items) == es + Tagged(x, items[..|items| - 1]) + [InspectedItem(x, items[|items| - 1])]
  {
    assert Tagged(x, items) == Tagged(x, items[..|items| - 1]) + [InspectedItem(x, items[|items| - 1])];
  }

  /** Counting an inspection's items into the categories continues the grouping of items by category. */
  lemma {:induction false} AddToCategoriesGroups(es: seq<InspectedItem>, x: Inspection, items: seq<Item>)
    ensures AddToCategories(GroupFold(es, EntryCategory, EmptyCategory, CountEntry), x, items)
            == GroupFold(es + Tagged(x, items), EntryCategory, EmptyCategory, CountEntry)
  {
    if |items| == 0 {
      assert es + Tagged(x, items) == es;
    } else {
      var n := |items| - 1;
      var g := GroupFold(es, EntryCategory, EmptyCategory, CountEntry);
      var e := InspectedItem(x, items[n]);
      var front := es + Tagged(x, items[..n]);
      AddToCategoriesGroups(es, x, items[..n]);
      var acc := AddToCategories(g, x, items[..n]);
      assert AddToCategories(g, x, items) == GroupStep(acc, e, EntryCategory, EmptyCategory, CountEntry);
      GroupFoldSnoc(front, e, EntryCategory, EmptyCategory, CountEntry);
      TaggedSnoc(es, x, items);
    }
  }

  /** Counting one item into a category bumps the counter of its status and, when abnormal, appends its detail. */
  lemma CountEntryStep(c: CategoryStat, e: InspectedItem)
    ensures var r := CountEntry(c, e);
      r.normal == c.normal + (if DashboardCustom.NormalEntry(e) then 1 else 0)
      && r.abnormal == c.abnormal + (if DashboardCustom.AbnormalEntry(e) then 1 else 0)
      && r.notRelevant == c.notRelevant + (if DashboardCustom.NotRelevantEntry(e) then 1 else 0)
      && r.abnormalItems == c.abnormalItems + (if DashboardCustom.AbnormalEntry(e) then [AbnormalDetailOf(e)] else [])
  {
    assert Normal != Abnormal && Normal != NotRelevant && Abnormal != NotRelevant;
  }

  /** Folding items into one category counts each status and lists the abnormal ones, in order. */
  lemma {:induction false} FoldCategory(es: seq<InspectedItem>)
    ensures var c := FoldL(es, EmptyCategory, CountEntry);
      c.normal == Count(es, DashboardCustom.NormalEntry) && c.abnormal == Count(es, DashboardCustom.AbnormalEntry)
      && c.notRelevant == Count(es, DashboardCustom.NotRelevantEntry)
      && c.abnormalItems == Map(Filter(es, DashboardCustom.AbnormalEntry), AbnormalDetailOf)
  {
    if |es| > 0 {
      var prefix := es[..|es| - 1];
      var e := es[|es| - 1];
      FoldCategory(prefix);
      CountEntryStep(FoldL(prefix, EmptyCategory, CountEntry), e);
      assert es == prefix + [e];
      FilterSnoc(prefix, e, DashboardCustom.AbnormalEntry);
      var before := Filter(prefix, DashboardCustom.AbnormalEntry);
      if DashboardCustom.AbnormalEntry(e) {
        MapSnoc(before, e, AbnormalDetailOf);
      }
    }
  }

  /** Adding inspection `x` to the occurrences continues the category grouping of the occurrence `id`. */
  lemma AddOccurrenceCategories(occs: Dict<string, Occurrence>, x: Inspection, id: string, before: seq<InspectedItem>)
    requires Get(occs, id).None? ==> before == []
    requires Get(occs, id).Some? ==> Get(occs, id).value.categories == GroupFold(before, EntryCategory, EmptyCategory, CountEntry)
    ensures var o := Get(AddOccurrence(occs, x), id);
      var after := before + (if x.id == id then Tagged(x, x.items) else []);
      (o.None? ==> after == [])
      && (o.Some? ==> o.value.categories == GroupFold(after, EntryCategory, EmptyCategory, CountEntry))
  {
    var e := GetOr(occs, x.id, NewOccurrence(x));
    GetPut(occs, x.id, e.(categories := AddToCategories(e.categories, x, x.items)), id);
    if x.id == id {
      assert e.categories == GroupFold(before, EntryCategory, EmptyCategory, CountEntry);
      AddToCategoriesGroups(before, x, x.items);
    } else {
      assert before + [] == before;
    }
  }

  /**
    The categories of an occurrence group, by category, the items of the
    inspections of its department with its id; without an occurrence there
    are no such items.
   */
  lemma {:induction false} OccurrenceCategoriesGroup(xs: seq<Inspection>, dv: string, dp: string, id: string)
    ensures var o := Get(Occurrences(DivisionStats(xs), dv, dp), id);
      (o.None? ==> MatchedItems(xs, dv, dp, id) == [])
      && (o.Some? ==> o.value.categories == GroupFold(MatchedItems(xs, dv, dp, id), EntryCategory, EmptyCategory, CountEntry))
  {
    if |xs| > 0 {
      var prefix := xs[..|xs| - 1];
      var x := xs[|xs| - 1];
      OccurrenceCategoriesGroup(prefix, dv, dp, id);
      DivisionStepOccurrences(DivisionStats(prefix), x, dv, dp);
      var before := MatchedItems(prefix, dv, dp, id);
      assert MatchedItems(xs, dv, dp, id) == before + (if Matches(x, dv, dp, id) then Tagged(x, x.items) else []);
      if dv == x.division && dp == SubunitKey(x) {
        AddOccurrenceCategories(Occurrences(DivisionStats(prefix), dv, dp), x, id, before);
      } else {
        assert before + [] == before;
      }
    }
  }

  /**
    In the occurrence of inspection `id` in department `dp` of division `dv`,
    category `c` is present exactly when one of those inspections has an item
    in it; its three counters count those items by status, and its list holds
    one line per abnormal item, with the date and building of its inspection,
    in order.
   */
  lemma OccurrenceCategoryCounts(xs: seq<Inspection>, dv: string, dp: string, id: string, c: string)
    requires Get(Occurrences(DivisionStats(xs), dv, dp), id).Some?
    ensures var sel := FilterKey(MatchedItems(xs, dv, dp, id), EntryCategory, c);
      var s := Get(Get(Occurrences(DivisionStats(xs), dv, dp), id).value.categories, c);
      (s.Some? <==> |sel| > 0)
      && (s.Some? ==>
        s.value.normal == Count(sel, DashboardCustom.NormalEntry)
        && s.value.abnormal == Count(sel, DashboardCustom.AbnormalEntry)
        && s.value.notRelevant == Count(sel, DashboardCustom.NotRelevantEntry)
        && s.value.abnormalItems == Map(Filter(sel, DashboardCustom.AbnormalEntry), AbnormalDetailOf))
  {
    OccurrenceCategoriesGroup(xs, dv, dp, id);
    GroupFoldGet(MatchedItems(xs, dv, dp, id), EntryCategory, EmptyCategory, CountEntry, c);
    FoldCategory(FilterKey(MatchedItems(xs, dv, dp, id), EntryCategory, c));
  }

  // ---------------------------------------------------------------------------
  // The imperative rollup

  /** `divisionDepartmentStats` as the `reduce` computes it, creating each missing level on the way. */
  method ComputeDivisionStats(xs: seq<Inspection>) returns (acc: Dict<string, DivisionStat>)
    ensures acc == DivisionStats(xs)
  {
    acc := Empty();
    for i := 0 to |xs|
      invariant acc == DivisionStats(xs[..i])
    {
      var x := xs[i];
      var deptKey := SubunitKey(x);
      var dv := GetOr(acc, x.division, DivisionStat(x.division, Empty()));
      var d := GetOr(dv.departments, deptKey, DepartmentStat(deptKey, Empty()));
      var entry := GetOr(d.inspections, x.id, NewOccurrence(x));
      var cats := TallyCategories(entry.categories, x);
      var inspections := Put(d.inspections, x.id, entry.(categories := cats));
      var departments := Put(dv.departments, deptKey, d.(inspections := inspections));
      TakeSucc(xs, i);
      acc := Put(acc, x.division, dv.(departments := departments));
    }
    TakeAll(xs);
  }

  /** The inner `forEach` over the items of one inspection. */
  method TallyCategories(cats0: Dict<string, CategoryStat>, x: Inspection) returns (cats: Dict<string, CategoryStat>)
    ensures cats == AddToCategories(cats0, x, x.items)
  {
    cats := cats0;
    for j := 0 to |x.items|
      invariant cats == AddToCategories(cats0, x, x.items[..j])
    {
      var item := x.items[j];
      TakeSucc(x.items, j);
      var c := GetOr(cats, item.category, EmptyCategory);
      if item.status == Normal {
        c := c.(normal := c.normal + 1);
      } else if item.status == Abnormal {
        c := c.(abnormal := c.abnormal + 1);
        c := c.(abnormalItems := c.abnormalItems + [AbnormalDetail(item.name, item.details, item.responsible, x.date, x.building)]);
      } else if item.status == NotRelevant {
        c := c.(notRelevant := c.notRelevant + 1);
      }
      assert c == CountCategoryItem(GetOr(cats, item.category, EmptyCategory), x, item);
      cats := Put(cats, item.category, c);
    }
    TakeAll(x.items);
  }

  /** With either bound unset nothing is shown, so the division rollup is empty. */
  lemma UnsetBoundEmptiesDivisions(xs: seq<Inspection>, start: string, end: string, q: string)
    requires start == "" || end == ""
    ensures DivisionStats(FilteredInspections(xs, start, end, q)) == Empty()
  {
  }
}
