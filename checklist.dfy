/**
  The checklist page (`src/pages/Inspection.tsx`): the items of one
  inspection, initialised from the canonical category table, edited item by
  item, extended with custom items, paged category by category, and finally
  saved as one inspection row plus one corrective action per abnormal item.

  The category table `INSPECTION_CATEGORIES` is a constructor parameter, in
  the order `Object.entries` lists it; `Date.now()`, `crypto.randomUUID()`
  and the clock are parameters of the operations that use them.
 */
module Checklist {
  import opened Common
  import opened Seqs
  import opened Records

  /** One entry of `INSPECTION_CATEGORIES`: its key, display name and canonical item names. */
  datatype Category = Category(key: string, name: string, items: seq<string>)

  predicate DistinctKeys(cs: seq<Category>)
  {
    forall a, b :: 0 <= a < b < |cs| ==> cs[a].key != cs[b].key
  }

  /** A fresh item: `status` normal, nothing else filled in. */
  function BlankItem(id: string, category: string, name: string, isCustom: bool): Item
  {
    Item(id, category, name, Normal, None, None, None, None, None, isCustom, None, None, None, None, None)
  }

  /** The `index`-th canonical item of a category, with id `${key}_${index}`. */
  function CanonicalItem(c: Category, index: nat): Item
    requires index < |c.items|
  {
    BlankItem(c.key + "_" + NatToString(index), c.name, c.items[index], false)
  }

  function CategoryItems(c: Category): (r: seq<Item>)
    ensures |r| == |c.items|
  {
    seq(|c.items|, i requires 0 <= i < |c.items| => CanonicalItem(c, i))
  }

  /** The canonical checklist: every category's items, category after category. */
  function CanonicalItems(cs: seq<Category>): seq<Item>
  {
    FlatMap(cs, CategoryItems)
  }

  /** Every canonical item is one category's `index`-th entry, normal and not custom. */
  lemma {:induction false} CanonicalItemsShape(cs: seq<Category>)
    ensures forall p :: 0 <= p < |CanonicalItems(cs)| ==>
      CanonicalItems(cs)[p].status == Normal && !CanonicalItems(cs)[p].isCustom
      && exists ci, i: nat :: 0 <= ci < |cs| && i < |cs[ci].items| && CanonicalItems(cs)[p] == CanonicalItem(cs[ci], i)
  {
    if |cs| > 0 {
      var prefix := cs[..|cs| - 1];
      CanonicalItemsShape(prefix);
      var a := CanonicalItems(prefix);
      var r := CanonicalItems(cs);
      forall p | 0 <= p < |r|
        ensures exists ci, i: nat :: 0 <= ci < |cs| && i < |cs[ci].items| && r[p] == CanonicalItem(cs[ci], i)
      {
        if p < |a| {
          var ci, i: nat :| 0 <= ci < |prefix| && i < |prefix[ci].items| && a[p] == CanonicalItem(prefix[ci], i);
          assert cs[ci] == prefix[ci];
        } else {
          assert r[p] == CanonicalItem(cs[|cs| - 1], p - |a|);
        }
      }
    }
  }

  /** One item per canonical entry. */
  lemma {:induction false} CanonicalItemsCount(cs: seq<Category>)
    ensures |CanonicalItems(cs)| == SumOf(cs, ItemCount)
  {
    if |cs| > 0 {
      CanonicalItemsCount(cs[..|cs| - 1]);
    }
  }

  function ItemCount(c: Category): int { |c.items| }

  /** `${key}_${index}` determines the key and the index. */
  lemma CanonicalIdInjective(c1: Category, i1: nat, c2: Category, i2: nat)
    requires i1 < |c1.items| && i2 < |c2.items|
    requires CanonicalItem(c1, i1).id == CanonicalItem(c2, i2).id
    ensures c1.key == c2.key && i1 == i2
  {
    var d1 := NatToString(i1);
    var d2 := NatToString(i2);
    assert '_' !in d1 by {
      forall k | 0 <= k < |d1| ensures d1[k] != '_' { assert IsDigit(d1[k]); }
    }
    assert '_' !in d2 by {
      forall k | 0 <= k < |d2| ensures d2[k] != '_' { assert IsDigit(d2[k]); }
    }
    JoinAtLastInjective(c1.key, d1, c2.key, d2, '_');
    NatToStringInjective(i1, i2);
  }

  predicate DistinctIds(items: seq<Item>)
  {
    forall p, q :: 0 <= p < q < |items| ==> items[p].id != items[q].id
  }

  /** With distinct category keys the canonical ids are distinct, whatever the keys contain. */
  lemma {:induction false} CanonicalIdsDistinct(cs: seq<Category>)
    requires DistinctKeys(cs)
    ensures DistinctIds(CanonicalItems(cs))
  {
    if |cs| > 0 {
      var prefix := cs[..|cs| - 1];
      var last := cs[|cs| - 1];
      CanonicalIdsDistinct(prefix);
      CanonicalItemsShape(prefix);
      var a := CanonicalItems(prefix);
      var b := CategoryItems(last);
      var r := CanonicalItems(cs);
      assert r == a + b;
      forall p, q | 0 <= p < q < |r|
        ensures r[p].id != r[q].id
      {
        if q < |a| {
          assert r[p] == a[p] && r[q] == a[q];
        } else if p >= |a| {
          if r[p].id == r[q].id {
            CanonicalIdInjective(last, p - |a|, last, q - |a|);
          }
        } else {
          assert !a[p].isCustom;
          var ci, i: nat :| 0 <= ci < |prefix| && i < |prefix[ci].items| && a[p] == CanonicalItem(prefix[ci], i);
          assert prefix[ci] == cs[ci];
          if r[p].id == r[q].id {
            CanonicalIdInjective(prefix[ci], i, last, q - |a|);
          }
        }
      }
    }
  }

  // ---------------------------------------------------------------------------
  // Editing items: `prev.map((item) => item.id === id ? f(item) : item)`

  /** The items with `f` applied to those whose id is `id`. */
  function UpdateById(items: seq<Item>, id: string, f: Item -> Item): (r: seq<Item>)
    ensures |r| == |items|
  {
    seq(|items|, k requires 0 <= k < |items| => if items[k].id == id then f(items[k]) else items[k])
  }

  function WithStatus(status: string): Item -> Item
  {
    (i: Item) => i.(status := status)
  }

  /** The four free-text fields of the checklist form. */
  datatype ItemField = Details | Recommendations | Responsible | ResponsibleOther

  function WithField(field: ItemField, value: Option<string>): Item -> Item
  {
    match field
    case Details => (i: Item) => i.(details := value)
    case Recommendations => (i: Item) => i.(recommendations := value)
    case Responsible => (i: Item) => i.(responsible := value)
    case ResponsibleOther => (i: Item) => i.(responsibleOther := value)
  }

  /** `[...(item.images || []), ...imageUrls]` */
  function WithImages(urls: seq<string>): Item -> Item
  {
    (i: Item) => i.(images := Some(ArrayOr(i.images) + urls))
  }

  /**
    An update by id keeps the length, the order and every other item; the
    items with the id get the new status and keep all other fields.
   */
  lemma StatusUpdateEffect(items: seq<Item>, id: string, status: string)
    ensures var r := UpdateById(items, id, WithStatus(status));
      |r| == |items|
      && (forall k :: 0 <= k < |items| && items[k].id != id ==> r[k] == items[k])
      && (forall k :: 0 <= k < |items| && items[k].id == id ==>
            r[k].status == status && r[k] == items[k].(status := status))
      && Map(r, ItemId) == Map(items, ItemId)
  {
  }

  /** A text-field update changes that field of the items with the id and nothing else. */
  lemma FieldUpdateEffect(items: seq<Item>, id: string, field: ItemField, value: Option<string>)
    ensures var r := UpdateById(items, id, WithField(field, value));
      (forall k :: 0 <= k < |items| && items[k].id != id ==> r[k] == items[k])
      && (forall k :: 0 <= k < |items| && items[k].id == id ==>
            r[k].id == id && r[k].status == items[k].status && r[k].images == items[k].images
            && (field == Details ==> r[k].details == value)
            && (field == Recommendations ==> r[k].recommendations == value)
            && (field == Responsible ==> r[k].responsible == value)
            && (field == ResponsibleOther ==> r[k].responsibleOther == value))
      && Map(r, ItemId) == Map(items, ItemId)
  {
  }

  /** Uploaded images go after the item's existing ones; other items are untouched. */
  lemma ImageAppendEffect(items: seq<Item>, id: string, urls: seq<string>)
    ensures var r := UpdateById(items, id, WithImages(urls));
      (forall k :: 0 <= k < |items| && items[k].id != id ==> r[k] == items[k])
      && (forall k :: 0 <= k < |items| && items[k].id == id ==>
            r[k].images.Some? && r[k].images.value[..|ArrayOr(items[k].images)|] == ArrayOr(items[k].images)
            && r[k].images.value[|ArrayOr(items[k].images)|..] == urls
            && r[k] == items[k].(images := r[k].images))
  {
  }

  /** An update for an id no item has leaves the list as it was. */
  lemma UpdateAbsentId(items: seq<Item>, id: string, f: Item -> Item)
    requires forall k :: 0 <= k < |items| ==> items[k].id != id
    ensures UpdateById(items, id, f) == items
  {
  }

  function ItemId(i: Item): string { i.id }

  // ---------------------------------------------------------------------------
  // The page state

  class ChecklistSession {
    const categories: seq<Category>
    var items: seq<Item>
    var currentCategoryIndex: nat
    var newItemName: string
    var showAddItemDialog: bool

    /** `categories[currentCategoryIndex]` names a category. */
    predicate Valid()
      reads this
    {
      currentCategoryIndex < |categories|
    }

    constructor (categories: seq<Category>)
      requires |categories| > 0
      ensures Valid() && this.categories == categories
      ensures items == [] && currentCategoryIndex == 0 && newItemName == "" && !showAddItemDialog
    {
      this.categories := categories;
      items := [];
      currentCategoryIndex := 0;
      newItemName := "";
      showAddItemDialog := false;
    }

    /** `initializeItems` */
    method InitializeItems()
      modifies this
      ensures items == CanonicalItems(categories)
      ensures currentCategoryIndex == old(currentCategoryIndex) && newItemName == old(newItemName)
      ensures showAddItemDialog == old(showAddItemDialog)
    {
      var allItems: seq<Item> := [];
      var i := 0;
      while i < |categories|
        invariant 0 <= i <= |categories|
        invariant unchanged(this)
        invariant allItems == CanonicalItems(categories[..i])
      {
        var c := categories[i];
        var j := 0;
        while j < |c.items|
          invariant 0 <= j <= |c.items|
          invariant unchanged(this)
          invariant allItems == CanonicalItems(categories[..i]) + CategoryItems(c)[..j]
        {
          TakeSnoc(CategoryItems(c), j);
          AppendAssocOne(CanonicalItems(categories[..i]), CategoryItems(c)[..j], CanonicalItem(c, j));
          allItems := allItems + [CanonicalItem(c, j)];
          j := j + 1;
        }
        TakeAll(CategoryItems(c));
        FlatMapTake(categories, CategoryItems, i);
        i := i + 1;
      }
      TakeAll(categories);
      items := allItems;
    }

    /** `updateItemStatus` */
    method UpdateItemStatus(id: string, status: string)
      modifies this
      ensures items == UpdateById(old(items), id, WithStatus(status))
      ensures currentCategoryIndex == old(currentCategoryIndex) && newItemName == old(newItemName)
      ensures showAddItemDialog == old(showAddItemDialog)
    {
      items := UpdateById(items, id, WithStatus(status));
    }

    /** `updateItemDetails` for the fields the form edits. */
    method UpdateItemDetails(id: string, field: ItemField, value: Option<string>)
      modifies this
      ensures items == UpdateById(old(items), id, WithField(field, value))
      ensures currentCategoryIndex == old(currentCategoryIndex) && newItemName == old(newItemName)
      ensures showAddItemDialog == old(showAddItemDialog)
    {
      items := UpdateById(items, id, WithField(field, value));
    }

    /**
      The state update of `handleImageUpload` once every file has been read;
      it runs from a reader's callback, so at least one file was chosen.
     */
    method AppendImages(id: string, imageUrls: seq<string>)
      requires |imageUrls| > 0
      modifies this
      ensures items == UpdateById(old(items), id, WithImages(imageUrls))
      ensures currentCategoryIndex == old(currentCategoryIndex) && newItemName == old(newItemName)
      ensures showAddItemDialog == old(showAddItemDialog)
    {
      items := UpdateById(items, id, WithImages(imageUrls));
    }

    /** `addCustomItem`, with `Date.now()` as `now`. */
    method AddCustomItem(now: nat)
      requires Valid()
      modifies this
      ensures Valid() && currentCategoryIndex == old(currentCategoryIndex)
      ensures Trim(old(newItemName)) == "" ==>
        items == old(items) && newItemName == old(newItemName) && showAddItemDialog == old(showAddItemDialog)
      ensures Trim(old(newItemName)) != "" ==>
        var c := categories[currentCategoryIndex];
        items == old(items) + [BlankItem("custom_" + c.key + "_" + NatToString(now), c.name, old(newItemName), true)]
        && newItemName == "" && !showAddItemDialog
    {
      if Trim(newItemName) == "" {
        return;
      }
      var c := categories[currentCategoryIndex];
      var newItem := BlankItem("custom_" + c.key + "_" + NatToString(now), c.name, newItemName, true);
      items := items + [newItem];
      newItemName := "";
      showAddItemDialog := false;
    }

    /** `handleNext` */
    method HandleNext()
      requires Valid()
      modifies this
      ensures Valid()
      ensures currentCategoryIndex == if old(currentCategoryIndex) < |categories| - 1
                                      then old(currentCategoryIndex) + 1 else old(currentCategoryIndex)
      ensures items == old(items) && newItemName == old(newItemName) && showAddItemDialog == old(showAddItemDialog)
    {
      if currentCategoryIndex < |categories| - 1 {
        currentCategoryIndex := currentCategoryIndex + 1;
      }
    }

    /** `handlePrevious` */
    method HandlePrevious()
      requires Valid()
      modifies this
      ensures Valid()
      ensures currentCategoryIndex == if old(currentCategoryIndex) > 0
                                      then old(currentCategoryIndex) - 1 else old(currentCategoryIndex)
      ensures items == old(items) && newItemName == old(newItemName) && showAddItemDialog == old(showAddItemDialog)
    {
      if currentCategoryIndex > 0 {
        currentCategoryIndex := currentCategoryIndex - 1;
      }
    }
  }

  /** A custom item is added exactly when the name has a non-space character. */
  lemma AddCustomItemGuard(name: string)
    ensures Trim(name) == "" <==> AllSpace(name)
  {
    TrimBlankIff(name);
  }

  // ---------------------------------------------------------------------------
  // handleSave

  /** The draft the inspection form left in local storage. */
  datatype Draft = Draft(
    date: string,
    building: string,
    floor: Option<string>,
    division: string,
    department: Option<string>,
    surveyTeam: Option<seq<string>>)

  /** One element of the batch inserted into `corrective_actions`. */
  datatype ActionInsert = ActionInsert(
    inspectionId: string,
    itemId: string,
    building: string,
    division: string,
    department: Option<string>,
    category: string,
    itemName: string,
    responsible: string,
    status: string,
    isNew: bool,
    inspectionDetails: Option<string>,
    inspectionRecommendations: Option<string>,
    inspectionImages: seq<string>)

  /** `item || null` on an optional string. */
  function OrNull(o: Option<string>): Option<string>
  {
    if Truthy(o) then o else None
  }

  function WithoutImages(i: Item): Item
  {
    i.(images := None)
  }

  function ActionFor(d: Draft, inspectionId: string, item: Item): ActionInsert
  {
    ActionInsert(inspectionId, item.id, d.building, d.division, d.department, item.category, item.name,
                 Or(item.responsible, Unspecified), UnderReview, true,
                 OrNull(item.details), OrNull(item.recommendations), ArrayOr(item.images))
  }

  /** The corrective-action batch: one element per abnormal item, in item order. */
  function ActionBatch(d: Draft, inspectionId: string, items: seq<Item>): seq<ActionInsert>
  {
    if |items| == 0 then []
    else
      var batch := ActionBatch(d, inspectionId, items[..|items| - 1]);
      var last := items[|items| - 1];
      if last.status == Abnormal then batch + [ActionFor(d, inspectionId, last)] else batch
  }

  /** The `inspections` row inserted by `handleSave`. */
  function InspectionInsert(d: Draft, items: seq<Item>, inspectionId: string, userId: Option<string>,
                            nowTime: string, now: string): InspectionRow
  {
    var inspectorName := match d.surveyTeam
      case None => ""
      case Some(team) => OrStr(Join(team, ", "), "");
    InspectionRow(inspectionId, userId, d.date, Some(nowTime), d.building, d.floor, d.division, d.department,
                  Some(inspectorName), Some(Map(items, WithoutImages)), now, now)
  }

  /** What `handleSave` wrote and whether it reported success. */
  datatype SaveOutcome =
    | NoDraft
    | Outcome(inspectionWritten: Option<InspectionRow>, actionsWritten: seq<ActionInsert>, succeeded: bool)

  /**
    `handleSave`: nothing without a draft; a failed user lookup or
    inspection insert writes nothing; otherwise the inspection row is written
    and, when there are abnormal items, the batch is inserted as a whole or
    not at all.
   */
  function HandleSave(draft: Option<Draft>, items: seq<Item>, userError: bool, userId: Option<string>,
                      inspectionId: string, nowTime: string, now: string,
                      inspectionError: bool, batchError: bool): SaveOutcome
  {
    match draft
    case None => NoDraft
    case Some(d) =>
      if userError || inspectionError then Outcome(None, [], false)
      else
        var row := InspectionInsert(d, items, inspectionId, userId, nowTime, now);
        var batch := ActionBatch(d, inspectionId, items);
        if |batch| == 0 then Outcome(Some(row), [], true)
        else if batchError then Outcome(Some(row), [], false)
        else Outcome(Some(row), batch, true)
  }

  /**
    The batch has one element per abnormal item, in order, all under the
    saved inspection's id, with the defaults of a new corrective action.
   */
  lemma {:induction false} ActionBatchShape(d: Draft, inspectionId: string, items: seq<Item>)
    ensures |ActionBatch(d, inspectionId, items)| == Count(items, IsAbnormal)
    ensures ActionBatch(d, inspectionId, items) == Map(Filter(items, IsAbnormal), item => ActionFor(d, inspectionId, item))
    ensures forall k :: 0 <= k < |ActionBatch(d, inspectionId, items)| ==>
      var a := ActionBatch(d, inspectionId, items)[k];
      a.inspectionId == inspectionId && a.status == UnderReview && a.isNew
      && a.building == d.building && a.division == d.division && a.department == d.department
  {
    if |items| > 0 {
      var prefix := items[..|items| - 1];
      ActionBatchShape(d, inspectionId, prefix);
    }
  }

  /** The defaults of one batch element, from its item. */
  lemma ActionDefaults(d: Draft, inspectionId: string, item: Item)
    ensures var a := ActionFor(d, inspectionId, item);
      a.itemId == item.id && a.itemName == item.name && a.category == item.category
      && (Truthy(item.responsible) ==> a.responsible == item.responsible.value)
      && (!Truthy(item.responsible) ==> a.responsible == Unspecified)
      && (Truthy(item.details) ==> a.inspectionDetails == item.details)
      && (!Truthy(item.details) ==> a.inspectionDetails == None)
      && (Truthy(item.recommendations) ==> a.inspectionRecommendations == item.recommendations)
      && (!Truthy(item.recommendations) ==> a.inspectionRecommendations == None)
      && (item.images.None? ==> a.inspectionImages == [])
  {
  }

  /**
    The outcomes of `handleSave`: the stored items are the checklist without
    images; no batch is written when nothing is abnormal or when the
    inspection could not be saved; a successful save writes exactly one
    action per abnormal item, in item order, and a failed one none.
   */
  lemma HandleSaveEffect(d: Draft, items: seq<Item>, userError: bool, userId: Option<string>,
                         inspectionId: string, nowTime: string, now: string,
                         inspectionError: bool, batchError: bool)
    ensures var o := HandleSave(Some(d), items, userError, userId, inspectionId, nowTime, now, inspectionError, batchError);
      o.Outcome?
      && ((userError || inspectionError) ==> o.inspectionWritten.None? && o.actionsWritten == [] && !o.succeeded)
      && (!(userError || inspectionError) ==>
            o.inspectionWritten.Some? && o.inspectionWritten.value.id == inspectionId
            && o.inspectionWritten.value.items.Some?
            && |o.inspectionWritten.value.items.value| == |items|
            && (forall k :: 0 <= k < |items| ==>
                  o.inspectionWritten.value.items.value[k] == items[k].(images := None)))
      && (Count(items, IsAbnormal) == 0 ==> o.actionsWritten == [])
      && (o.succeeded <==> !userError && !inspectionError && (Count(items, IsAbnormal) == 0 || !batchError))
      && (o.succeeded ==> |o.actionsWritten| == Count(items, IsAbnormal))
      && (o.succeeded ==> o.actionsWritten == Map(Filter(items, IsAbnormal), item => ActionFor(d, inspectionId, item)))
      && (!o.succeeded ==> o.actionsWritten == [])
      && (!(userError || inspectionError) ==>
            o.inspectionWritten == Some(InspectionInsert(d, items, inspectionId, userId, nowTime, now)))
  {
    ActionBatchShape(d, inspectionId, items);
  }
}
