/**
  The Supabase-backed inspection hook (`src/hooks/useInspections.tsx`):
  saving an inspection upserts its row and then derives one corrective
  action per abnormal item, upserted under a deterministic key; loading
  turns stored rows back into inspection records.

  The two tables are maps from primary key to row, fields of `Backend`.
  What the store answers is a parameter: `inspectionRejected` says the
  inspection upsert fails, `rejected` lists the corrective-action keys whose
  upsert fails.
 */
module InspectionsHook {
  import opened Common
  import opened Seqs
  import opened Records

  /** `${inspection.id}-${item.id}`, the corrective action's primary key. */
  function CorrectiveId(inspectionId: string, itemId: string): string
  {
    inspectionId + "-" + itemId
  }

  /** Within one inspection the key names the item. */
  lemma CorrectiveIdSameInspection(inspectionId: string, a: string, b: string)
    ensures CorrectiveId(inspectionId, a) == CorrectiveId(inspectionId, b) <==> a == b
  {
    var n := |inspectionId| + 1;
    if CorrectiveId(inspectionId, a) == CorrectiveId(inspectionId, b) {
      assert a == CorrectiveId(inspectionId, a)[n..];
      assert b == CorrectiveId(inspectionId, b)[n..];
    }
  }

  /**
    Across inspections the key is unambiguous as long as item ids contain no
    `-` (inspection ids may: they are UUIDs).
   */
  lemma CorrectiveIdInjective(i1: string, a: string, i2: string, b: string)
    requires '-' !in a && '-' !in b
    requires CorrectiveId(i1, a) == CorrectiveId(i2, b)
    ensures i1 == i2 && a == b
  {
    JoinAtLastInjective(i1, a, i2, b, '-');
  }

  /** The columns one corrective-action upsert writes (`src/hooks/useInspections.tsx:69-81`). */
  datatype ActionPayload = ActionPayload(
    id: string,
    inspectionId: string,
    itemId: string,
    building: string,
    division: string,
    department: Option<string>,
    category: string,
    itemName: string,
    responsible: string,
    status: string,
    isNew: bool)

  function Payload(x: Inspection, item: Item): ActionPayload
  {
    ActionPayload(
      CorrectiveId(x.id, item.id), x.id, item.id, x.building, x.division, x.department,
      item.category, item.name, Or(item.responsible, Unspecified), UnderReview, true)
  }

  /** The row an upsert leaves when the key already exists: the payload's columns are overwritten, the others kept. */
  function Overlay(r: ActionRow, p: ActionPayload): ActionRow
  {
    r.(id := p.id, inspectionId := p.inspectionId, itemId := p.itemId, building := p.building,
       division := p.division, department := p.department, category := p.category,
       itemName := p.itemName, responsible := p.responsible, status := p.status, isNew := Some(p.isNew))
  }

  /** The row an upsert inserts when the key is new: unwritten columns take their defaults. */
  function NewRow(p: ActionPayload, now: string): ActionRow
  {
    ActionRow(p.id, p.inspectionId, p.itemId, p.building, p.division, p.department, p.category,
              p.itemName, p.responsible, p.status, None, None, None, None, None, None, None,
              Some(p.isNew), now, now)
  }

  /** The `corrective_actions` table after one upsert. */
  function UpsertAction(store: map<string, ActionRow>, p: ActionPayload, now: string): map<string, ActionRow>
  {
    store[p.id := if p.id in store then Overlay(store[p.id], p) else NewRow(p, now)]
  }

  /** The columns a corrective-action upsert never writes: the follow-up work recorded on it. */
  predicate SameFollowUp(r: ActionRow, s: ActionRow)
  {
    r.inspectionDetails == s.inspectionDetails && r.inspectionRecommendations == s.inspectionRecommendations
    && r.inspectionImages == s.inspectionImages && r.actionDetails == s.actionDetails
    && r.actionDate == s.actionDate && r.actionBy == s.actionBy && r.actionImages == s.actionImages
    && r.createdAt == s.createdAt && r.updatedAt == s.updatedAt
  }

  /** A row holds the values of a payload in the columns the payload writes. */
  predicate Carries(r: ActionRow, p: ActionPayload)
  {
    r.id == p.id && r.inspectionId == p.inspectionId && r.itemId == p.itemId && r.building == p.building
    && r.division == p.division && r.department == p.department && r.category == p.category
    && r.itemName == p.itemName && r.responsible == p.responsible && r.status == p.status
    && r.isNew == Some(p.isNew)
  }

  /** Overwriting a row twice under the same key keeps only the second payload, and the follow-up columns. */
  lemma OverlayOverlay(r: ActionRow, p: ActionPayload, q: ActionPayload)
    ensures Overlay(Overlay(r, p), q) == Overlay(r, q)
    ensures Carries(Overlay(r, q), q) && SameFollowUp(Overlay(r, q), r)
  {
  }

  /** A row inserted from one payload and overwritten by another is the row the second would insert. */
  lemma OverlayNewRow(p: ActionPayload, q: ActionPayload, now: string)
    ensures Overlay(NewRow(p, now), q) == NewRow(q, now)
  {
  }

  // ---------------------------------------------------------------------------
  // The derivation loop, as a specification

  /** The `corrective_actions` table after the loop has visited `items` (the abnormal items, in order). */
  function WriteActions(store: map<string, ActionRow>, x: Inspection, items: seq<Item>,
                        rejected: set<string>, now: string): map<string, ActionRow>
  {
    if |items| == 0 then store
    else
      var s := WriteActions(store, x, items[..|items| - 1], rejected, now);
      var p := Payload(x, items[|items| - 1]);
      if p.id in rejected then s else UpsertAction(s, p, now)
  }

  /** The keys the loop writes successfully. */
  function WrittenIds(x: Inspection, items: seq<Item>, rejected: set<string>): (ids: set<string>)
    ensures forall k :: k in ids <==>
      (k !in rejected && exists j :: 0 <= j < |items| && CorrectiveId(x.id, items[j].id) == k)
  {
    if |items| == 0 then {}
    else
      var prefix := items[..|items| - 1];
      var k := CorrectiveId(x.id, items[|items| - 1].id);
      var ids := WrittenIds(x, prefix, rejected);
      assert forall j :: 0 <= j < |prefix| ==> prefix[j] == items[j];
      if k in rejected then ids else ids + {k}
  }

  /** The names of the items whose upsert failed, in the order they were reported. */
  function FailedNames(x: Inspection, items: seq<Item>, rejected: set<string>): seq<string>
  {
    if |items| == 0 then []
    else
      var names := FailedNames(x, items[..|items| - 1], rejected);
      var item := items[|items| - 1];
      if CorrectiveId(x.id, item.id) in rejected then names + [item.name] else names
  }

  /** The abnormal items, the only ones that get a corrective action. */
  function AbnormalItems(x: Inspection): (r: seq<Item>)
    ensures |r| == Count(x.items, IsAbnormal)
    ensures forall k :: 0 <= k < |r| ==> r[k].status == Abnormal && r[k] in x.items
    ensures forall k :: 0 <= k < |x.items| && x.items[k].status == Abnormal ==> x.items[k] in r
  {
    FilterCount(x.items, IsAbnormal);
    Filter(x.items, IsAbnormal)
  }

  /** The payload of the last successful write under key `k`, if any. */
  function LastPayload(x: Inspection, items: seq<Item>, rejected: set<string>, k: string): (r: Option<ActionPayload>)
    ensures r.Some? <==> k in WrittenIds(x, items, rejected)
    ensures r.Some? ==> r.value.id == k && exists j :: 0 <= j < |items| && r.value == Payload(x, items[j])
  {
    if |items| == 0 then None
    else
      var prefix := items[..|items| - 1];
      var p := Payload(x, items[|items| - 1]);
      assert forall j :: 0 <= j < |prefix| ==> prefix[j] == items[j];
      if p.id == k && k !in rejected then Some(p) else LastPayload(x, prefix, rejected, k)
  }

  /** The row under key `k` after the loop: the stored row overwritten by the last payload for `k`, if there was one. */
  function RowAfter(store: map<string, ActionRow>, p: ActionPayload, k: string, now: string): ActionRow
  {
    if k in store then Overlay(store[k], p) else NewRow(p, now)
  }

  /** The loop, key by key. */
  lemma {:induction false} WriteActionsAt(store: map<string, ActionRow>, x: Inspection, items: seq<Item>,
                                          rejected: set<string>, now: string, k: string)
    ensures var t := WriteActions(store, x, items, rejected, now);
      (k in t <==> k in store || k in WrittenIds(x, items, rejected))
      && (k in t ==> t[k] == match LastPayload(x, items, rejected, k)
                            case None => store[k]
                            case Some(p) => RowAfter(store, p, k, now))
  {
    if |items| > 0 {
      var prefix := items[..|items| - 1];
      WriteActionsAt(store, x, prefix, rejected, now, k);
      var p := Payload(x, items[|items| - 1]);
      var s := WriteActions(store, x, prefix, rejected, now);
      if p.id == k && k !in rejected && k in s {
        match LastPayload(x, prefix, rejected, k)
        case None =>
        case Some(q) =>
          if k in store {
            OverlayOverlay(store[k], q, p);
          } else {
            OverlayNewRow(q, p, now);
          }
      }
    }
  }

  /**
    What the loop leaves in the table: exactly the written keys are added,
    each written row carries a payload derived from one of the items (so its
    status is under review and `is_new` is true again, whatever it was), and
    the follow-up columns of rows that were already there are untouched.
   */
  lemma WriteActionsEffect(store: map<string, ActionRow>, x: Inspection, items: seq<Item>,
                           rejected: set<string>, now: string)
    ensures WriteActions(store, x, items, rejected, now).Keys == store.Keys + WrittenIds(x, items, rejected)
    ensures forall k :: k in store && k !in WrittenIds(x, items, rejected) ==>
      WriteActions(store, x, items, rejected, now)[k] == store[k]
    ensures forall k :: k in store ==> SameFollowUp(WriteActions(store, x, items, rejected, now)[k], store[k])
    ensures forall k :: k in WrittenIds(x, items, rejected) ==>
      exists j :: 0 <= j < |items| && Carries(WriteActions(store, x, items, rejected, now)[k], Payload(x, items[j]))
    ensures forall k :: k in WrittenIds(x, items, rejected) ==>
      var r := WriteActions(store, x, items, rejected, now)[k];
      r.status == UnderReview && r.isNew == Some(true) && r.building == x.building
      && r.division == x.division && r.department == x.department && r.inspectionId == x.id
  {
    var t := WriteActions(store, x, items, rejected, now);
    forall k | true
      ensures k in t <==> k in store || k in WrittenIds(x, items, rejected)
    {
      WriteActionsAt(store, x, items, rejected, now, k);
    }
    forall k | k in store || k in WrittenIds(x, items, rejected)
      ensures k in t && k !in WrittenIds(x, items, rejected) ==> t[k] == store[k]
      ensures k in store ==> SameFollowUp(t[k], store[k])
      ensures k in WrittenIds(x, items, rejected) ==> Carries(t[k], LastPayload(x, items, rejected, k).value)
    {
      WriteActionsAt(store, x, items, rejected, now, k);
    }
  }

  /** The defaults a derived row carries, from the item it was derived from. */
  lemma PayloadDefaults(x: Inspection, item: Item)
    ensures var p := Payload(x, item);
      p.id == CorrectiveId(x.id, item.id) && p.status == UnderReview && p.isNew
      && (Truthy(item.responsible) ==> p.responsible == item.responsible.value)
      && (!Truthy(item.responsible) ==> p.responsible == Unspecified)
      && p.category == item.category && p.itemName == item.name
  {
  }

  /** Running the derivation a second time changes nothing: it hits the same keys with the same payloads. */
  lemma WriteActionsIdempotent(store: map<string, ActionRow>, x: Inspection, items: seq<Item>,
                               rejected: set<string>, now: string)
    ensures WriteActions(WriteActions(store, x, items, rejected, now), x, items, rejected, now)
         == WriteActions(store, x, items, rejected, now)
  {
    var t := WriteActions(store, x, items, rejected, now);
    var u := WriteActions(t, x, items, rejected, now);
    forall k | true
      ensures k in u <==> k in t
      ensures k in u ==> u[k] == t[k]
    {
      WriteActionsAt(store, x, items, rejected, now, k);
      WriteActionsAt(t, x, items, rejected, now, k);
      match LastPayload(x, items, rejected, k)
      case None =>
      case Some(p) =>
        if k in store {
          OverlayOverlay(store[k], p, p);
        } else {
          OverlayNewRow(p, p, now);
        }
    }
  }

  predicate DistinctIds(items: seq<Item>)
  {
    forall i, j :: 0 <= i < j < |items| ==> items[i].id != items[j].id
  }

  /** Items with distinct ids get distinct keys: with no failures, one row per item. */
  lemma {:induction false} WrittenCount(x: Inspection, items: seq<Item>)
    requires DistinctIds(items)
    ensures |WrittenIds(x, items, {})| == |items|
  {
    if |items| > 0 {
      var prefix := items[..|items| - 1];
      var last := items[|items| - 1];
      WrittenCount(x, prefix);
      forall j | 0 <= j < |prefix|
        ensures CorrectiveId(x.id, prefix[j].id) != CorrectiveId(x.id, last.id)
      {
        assert prefix[j] == items[j];
        CorrectiveIdSameInspection(x.id, prefix[j].id, last.id);
      }
    }
  }

  /** The abnormal items of an inspection whose item ids are distinct have distinct ids. */
  lemma {:induction false} FilterDistinct(items: seq<Item>)
    requires DistinctIds(items)
    ensures DistinctIds(Filter(items, IsAbnormal))
  {
    if |items| > 0 {
      var prefix := items[..|items| - 1];
      var last := items[|items| - 1];
      FilterDistinct(prefix);
      var r := Filter(prefix, IsAbnormal);
      forall i | 0 <= i < |r|
        ensures r[i].id != last.id
      {
        var j :| 0 <= j < |prefix| && prefix[j] == r[i];
        assert items[j] == r[i];
      }
    }
  }

  /**
    With no store failures and distinct item ids, the derivation writes
    exactly one row per abnormal item, keyed by that item, and no key for
    an item of any other status.
   */
  lemma OnePerAbnormalItem(x: Inspection)
    requires DistinctIds(x.items)
    ensures |WrittenIds(x, AbnormalItems(x), {})| == Count(x.items, IsAbnormal)
    ensures forall j :: 0 <= j < |x.items| ==>
      (CorrectiveId(x.id, x.items[j].id) in WrittenIds(x, AbnormalItems(x), {}) <==> x.items[j].status == Abnormal)
  {
    FilterDistinct(x.items);
    WrittenCount(x, AbnormalItems(x));
    forall j | 0 <= j < |x.items|
      ensures CorrectiveId(x.id, x.items[j].id) in WrittenIds(x, AbnormalItems(x), {}) <==> x.items[j].status == Abnormal
    {
      AbnormalItemKey(x, j);
    }
  }

  lemma AbnormalItemKey(x: Inspection, j: nat)
    requires DistinctIds(x.items) && j < |x.items|
    ensures CorrectiveId(x.id, x.items[j].id) in WrittenIds(x, AbnormalItems(x), {}) <==> x.items[j].status == Abnormal
  {
    var ab := AbnormalItems(x);
    if CorrectiveId(x.id, x.items[j].id) in WrittenIds(x, ab, {}) {
      var m :| 0 <= m < |ab| && CorrectiveId(x.id, ab[m].id) == CorrectiveId(x.id, x.items[j].id);
      CorrectiveIdSameInspection(x.id, ab[m].id, x.items[j].id);
      var n :| 0 <= n < |x.items| && x.items[n] == ab[m];
      assert n == j;
    }
  }

  /** One failure report per rejected write: the failed and the written keys together cover every item. */
  lemma {:induction false} FailedNamesCount(x: Inspection, items: seq<Item>, rejected: set<string>)
    ensures |FailedNames(x, items, rejected)| == Count(Map(items, ItemId), KeyRejected(x, rejected))
  {
    if |items| > 0 {
      FailedNamesCount(x, items[..|items| - 1], rejected);
      assert Map(items, ItemId)[..|items| - 1] == Map(items[..|items| - 1], ItemId);
    }
  }

  function ItemId(i: Item): string { i.id }

  function KeyRejected(x: Inspection, rejected: set<string>): string -> bool
  {
    id => CorrectiveId(x.id, id) in rejected
  }

  // ---------------------------------------------------------------------------
  // The store

  /** The `inspections` row after the upsert of `saveInspection`. */
  function InspectionUpsert(table: map<string, InspectionRow>, x: Inspection, userId: Option<string>,
                            nowTime: string, now: string): InspectionRow
  {
    var time := Some(Or(x.time, nowTime));
    var inspectorName := Some(Or(x.inspectorName, ""));
    if x.id in table then
      table[x.id].(id := x.id, userId := userId, date := x.date, time := time, building := x.building,
                   division := x.division, department := x.department, inspectorName := inspectorName,
                   items := Some(x.items))
    else
      InspectionRow(x.id, userId, x.date, time, x.building, None, x.division, x.department,
                    inspectorName, Some(x.items), now, now)
  }

  /** `loadInspections`: a stored row as an inspection record. */
  function FromRow(r: InspectionRow): Inspection
  {
    Inspection(r.id, r.date, Some(Or(r.time, "")), r.building, "", r.division, r.department,
               r.inspectorName, [], ArrayOr(r.items), r.createdAt, r.updatedAt)
  }

  class Backend {
    var inspections: map<string, InspectionRow>
    var actions: map<string, ActionRow>

    constructor (inspections0: map<string, InspectionRow>, actions0: map<string, ActionRow>)
      ensures inspections == inspections0 && actions == actions0
    {
      inspections := inspections0;
      actions := actions0;
    }

    /**
      `saveInspection`: upsert the inspection, then one corrective-action
      upsert per abnormal item, reporting a failed one and carrying on.
     */
    method SaveInspection(x: Inspection, userId: Option<string>, nowTime: string, now: string,
                          inspectionRejected: bool, rejected: set<string>)
      returns (saved: bool, failedNames: seq<string>)
      modifies this
      ensures inspectionRejected ==>
        !saved && failedNames == [] && inspections == old(inspections) && actions == old(actions)
      ensures !inspectionRejected ==>
        saved
        && inspections == old(inspections)[x.id := InspectionUpsert(old(inspections), x, userId, nowTime, now)]
        && actions == WriteActions(old(actions), x, AbnormalItems(x), rejected, now)
        && failedNames == FailedNames(x, AbnormalItems(x), rejected)
    {
      saved, failedNames := false, [];
      if !inspectionRejected {
        var row := InspectionUpsert(inspections, x, userId, nowTime, now);
        inspections := inspections[x.id := row];
        actions, failedNames := UpsertAbnormalActions(actions, x, AbnormalItems(x), rejected, now);
        saved := true;
      }
    }
  }

  /** The `for` loop over the abnormal items: one upsert each, collecting the names of the rejected ones. */
  method UpsertAbnormalActions(store0: map<string, ActionRow>, x: Inspection, items: seq<Item>,
                               rejected: set<string>, now: string)
    returns (store: map<string, ActionRow>, failedNames: seq<string>)
    ensures store == WriteActions(store0, x, items, rejected, now)
    ensures failedNames == FailedNames(x, items, rejected)
  {
    store, failedNames := store0, [];
    for i := 0 to |items|
      invariant store == WriteActions(store0, x, items[..i], rejected, now)
      invariant failedNames == FailedNames(x, items[..i], rejected)
    {
      var item := items[i];
      TakeSucc(items, i);
      var p := Payload(x, item);
      if p.id in rejected {
        failedNames := failedNames + [item.name];
      } else {
        store := UpsertAction(store, p, now);
      }
    }
    TakeAll(items);
  }

  /** What a reload shows of a saved inspection: the survey team and floor are not stored, a missing time becomes the save time. */
  lemma SaveThenLoad(table: map<string, InspectionRow>, x: Inspection, userId: Option<string>,
                     nowTime: string, now: string)
    ensures var y := FromRow(InspectionUpsert(table, x, userId, nowTime, now));
      y.id == x.id && y.date == x.date && y.building == x.building && y.division == x.division
      && y.department == x.department && y.items == x.items
      && y.time == Some(Or(x.time, nowTime)) && y.inspectorName == Some(Or(x.inspectorName, ""))
      && y.floor == "" && y.surveyTeam == []
  {
  }
}
