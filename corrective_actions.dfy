/**
  The corrective-action hook (`src/hooks/useCorrectiveActions.tsx`): rows
  of `corrective_actions` are normalised when fetched, and `updateAction`
  writes a partial update, forcing `is_new` off and refreshing `updated_at`.

  The table is a map from primary key to row; whether the store reports an
  error and the current time are parameters.
 */
module CorrectiveActions {
  import opened Common
  import opened Seqs
  import opened Records

  /** The row as the page holds it: image lists are arrays and `is_new` is set. */
  function Normalize(r: ActionRow): CorrectiveAction
  {
    CorrectiveAction(r.id, r.inspectionId, r.itemId, r.building, r.division, r.department, r.category,
                     r.itemName, r.responsible, r.status, r.inspectionDetails, r.inspectionRecommendations,
                     ArrayOr(r.inspectionImages), r.actionDetails, r.actionDate, r.actionBy,
                     ArrayOr(r.actionImages), Coalesce(r.isNew, true), r.createdAt, r.updatedAt)
  }

  /** A normalised action written back as a row. */
  function ToRow(a: CorrectiveAction): ActionRow
  {
    ActionRow(a.id, a.inspectionId, a.itemId, a.building, a.division, a.department, a.category,
              a.itemName, a.responsible, a.status, a.inspectionDetails, a.inspectionRecommendations,
              Some(a.inspectionImages), a.actionDetails, a.actionDate, a.actionBy,
              Some(a.actionImages), Some(a.isNew), a.createdAt, a.updatedAt)
  }

  /** The rows `fetchActions` hands to the page, in the order the query returned them. */
  function FetchActions(rows: seq<ActionRow>): seq<CorrectiveAction>
  {
    Map(rows, Normalize)
  }

  /**
    Normalising loses only what is missing: a row whose image lists are
    arrays and whose `is_new` is set comes back unchanged, and a normalised
    action survives the trip through a row.
   */
  lemma NormalizeRoundTrip(r: ActionRow, a: CorrectiveAction)
    ensures r.inspectionImages.Some? && r.actionImages.Some? && r.isNew.Some? ==> ToRow(Normalize(r)) == r
    ensures Normalize(ToRow(a)) == a
  {
  }

  /** What normalisation does to the three fields it touches. */
  lemma NormalizeDefaults(r: ActionRow)
    ensures Normalize(r).inspectionImages == (if r.inspectionImages.Some? then r.inspectionImages.value else [])
    ensures Normalize(r).actionImages == (if r.actionImages.Some? then r.actionImages.value else [])
    ensures Normalize(r).isNew == (r.isNew.None? || r.isNew.value)
    ensures ToRow(Normalize(r)).(inspectionImages := r.inspectionImages, actionImages := r.actionImages, isNew := r.isNew) == r
  {
  }

  /** A partial update: `None` is a key the caller left out (or set to `undefined`). */
  datatype ActionUpdate = ActionUpdate(
    status: Option<string>,
    actionDetails: Option<string>,
    actionDate: Option<string>,
    actionBy: Option<string>,
    actionImages: Option<seq<string>>)

  /** `{ ...updates, is_new: false, updated_at: now }` applied to a row. */
  function Merge(r: ActionRow, u: ActionUpdate, now: string): ActionRow
  {
    r.(status := Coalesce(u.status, r.status),
       actionDetails := if u.actionDetails.Some? then u.actionDetails else r.actionDetails,
       actionDate := if u.actionDate.Some? then u.actionDate else r.actionDate,
       actionBy := if u.actionBy.Some? then u.actionBy else r.actionBy,
       actionImages := if u.actionImages.Some? then Some(u.actionImages.value) else r.actionImages,
       isNew := Some(false),
       updatedAt := now)
  }

  /**
    Whatever the update holds, the row afterwards is no longer new and
    carries the new time stamp; supplied fields take the supplied values,
    absent ones and every column outside the update keep theirs.
   */
  lemma MergeEffect(r: ActionRow, u: ActionUpdate, now: string)
    ensures var m := Merge(r, u, now);
      m.isNew == Some(false) && m.updatedAt == now && !Normalize(m).isNew
      && (u.status.Some? ==> m.status == u.status.value) && (u.status.None? ==> m.status == r.status)
      && (u.actionDetails.Some? ==> m.actionDetails == u.actionDetails) && (u.actionDetails.None? ==> m.actionDetails == r.actionDetails)
      && (u.actionDate.Some? ==> m.actionDate == u.actionDate) && (u.actionDate.None? ==> m.actionDate == r.actionDate)
      && (u.actionBy.Some? ==> m.actionBy == u.actionBy) && (u.actionBy.None? ==> m.actionBy == r.actionBy)
      && (u.actionImages.Some? ==> Normalize(m).actionImages == u.actionImages.value)
      && (u.actionImages.None? ==> m.actionImages == r.actionImages)
      && m.id == r.id && m.inspectionId == r.inspectionId && m.itemId == r.itemId
      && m.inspectionDetails == r.inspectionDetails && m.inspectionImages == r.inspectionImages
      && m.createdAt == r.createdAt
      && m.building == r.building && m.division == r.division && m.department == r.department
      && m.category == r.category && m.itemName == r.itemName && m.responsible == r.responsible
      && m.inspectionRecommendations == r.inspectionRecommendations
      && m == r.(status := m.status, actionDetails := m.actionDetails, actionDate := m.actionDate,
                 actionBy := m.actionBy, actionImages := m.actionImages, isNew := m.isNew, updatedAt := m.updatedAt)
  {
  }

  /** Sending the same update twice, at the same time, is sending it once. */
  lemma MergeIdempotent(r: ActionRow, u: ActionUpdate, now: string)
    ensures Merge(Merge(r, u, now), u, now) == Merge(r, u, now)
  {
  }

  /** A later update overrides an earlier one field by field. */
  lemma MergeTwice(r: ActionRow, u: ActionUpdate, v: ActionUpdate, t1: string, t2: string)
    ensures Merge(Merge(r, u, t1), v, t2) ==
      Merge(r, ActionUpdate(if v.status.Some? then v.status else u.status,
                            if v.actionDetails.Some? then v.actionDetails else u.actionDetails,
                            if v.actionDate.Some? then v.actionDate else u.actionDate,
                            if v.actionBy.Some? then v.actionBy else u.actionBy,
                            if v.actionImages.Some? then v.actionImages else u.actionImages), t2)
  {
  }

  class ActionTable {
    var rows: map<string, ActionRow>

    constructor (rows0: map<string, ActionRow>)
      ensures rows == rows0
    {
      rows := rows0;
    }

    /**
      `updateAction`: an update filtered by id. There is no not-found case:
      an unknown id changes nothing and still reports success.
     */
    method UpdateAction(id: string, updates: ActionUpdate, now: string, storeError: bool) returns (ok: bool)
      modifies this
      ensures ok <==> !storeError
      ensures storeError ==> rows == old(rows)
      ensures !storeError && id in old(rows) ==> rows == old(rows)[id := Merge(old(rows)[id], updates, now)]
      ensures !storeError && id !in old(rows) ==> rows == old(rows)
    {
      if storeError {
        return false;
      }
      if id in rows {
        rows := rows[id := Merge(rows[id], updates, now)];
      }
      return true;
    }
  }

  /** An update touches only the row with its id, and never adds or removes rows. */
  lemma UpdateOnlyTarget(rows: map<string, ActionRow>, id: string, u: ActionUpdate, now: string)
    requires id in rows
    ensures var t := rows[id := Merge(rows[id], u, now)];
      t.Keys == rows.Keys && forall k :: k in rows && k != id ==> t[k] == rows[k]
  {
  }
}
