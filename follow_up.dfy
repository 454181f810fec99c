/**
  The follow-up page (`src/pages/FollowUp.tsx`): corrective actions grouped
  by responsible party, building and department, counted per responsible
  party, split by status, and the edit dialog that sends an update through
  the corrective-action table.
 */
module FollowUp {
  import opened Common
  import opened Seqs
  import opened Dicts
  import opened Records
  import opened CorrectiveActions

  // Group labels for missing values: no responsible party, no building, no unit
  const NoResponsible := "ไม่ระบุผู้รับผิดชอบ"
  const NoBuilding := "ไม่ระบุอาคาร"
  const NoUnit := "ไม่ระบุหน่วยงาน"

  function ResponsibleKey(a: CorrectiveAction): string { OrStr(a.responsible, NoResponsible) }
  function BuildingKey(a: CorrectiveAction): string { OrStr(a.building, NoBuilding) }
  /** `department || division || NoUnit` */
  function DeptKey(a: CorrectiveAction): string { Or(a.department, OrStr(a.division, NoUnit)) }

  /** The fallbacks apply exactly when the value is empty or missing. */
  lemma GroupKeyDefaults(a: CorrectiveAction)
    ensures ResponsibleKey(a) == (if a.responsible == "" then NoResponsible else a.responsible)
    ensures BuildingKey(a) == (if a.building == "" then NoBuilding else a.building)
    ensures DeptKey(a) == (if Truthy(a.department) then a.department.value
                           else if a.division != "" then a.division else NoUnit)
    ensures ResponsibleKey(a) != "" && BuildingKey(a) != "" && DeptKey(a) != ""
  {
  }

  // ---------------------------------------------------------------------------
  // groupedByResponsible

  type Leaves = Dict<string, seq<CorrectiveAction>>
  type Buildings = Dict<string, Leaves>
  type Groups = Dict<string, Buildings>

  function DeptStep(d: Leaves, a: CorrectiveAction): Leaves
  {
    GroupStep(d, a, DeptKey, [], AppendOne)
  }

  function BuildingStep(b: Buildings, a: CorrectiveAction): Buildings
  {
    GroupStep(b, a, BuildingKey, Empty(), DeptStep)
  }

  /** The three-level grouping, visiting the actions in order. */
  function Grouped(actions: seq<CorrectiveAction>): Groups
  {
    GroupFold(actions, ResponsibleKey, Empty(), BuildingStep)
  }

  /** `groups[r][b][d]`, when each level exists. */
  function Leaf(g: Groups, r: string, b: string, d: string): Option<seq<CorrectiveAction>>
  {
    match Get(g, r)
    case None => None
    case Some(bs) =>
      match Get(bs, b)
      case None => None
      case Some(ds) => Get(ds, d)
  }

  function LeafKey(a: CorrectiveAction): (string, string, string)
  {
    (ResponsibleKey(a), BuildingKey(a), DeptKey(a))
  }

  /** The `forEach` that creates missing levels and pushes each action into its leaf. */
  method GroupByResponsible(actions: seq<CorrectiveAction>) returns (groups: Groups)
    ensures groups == Grouped(actions)
  {
    groups := Empty();
    for i := 0 to |actions|
      invariant groups == Grouped(actions[..i])
    {
      var a := actions[i];
      var r := ResponsibleKey(a);
      var b := BuildingKey(a);
      var d := DeptKey(a);
      var inner := GetOr(groups, r, Empty());
      var leaves := GetOr(inner, b, Empty());
      var leaf := GetOr(leaves, d, []);
      GroupFoldSnoc(actions[..i], a, ResponsibleKey, Empty(), BuildingStep);
      TakeSnoc(actions, i);
      groups := Put(groups, r, Put(inner, b, Put(leaves, d, leaf + [a])));
    }
    TakeAll(actions);
  }

  lemma {:induction false} FilterKeyNested(xs: seq<CorrectiveAction>, r: string, b: string, d: string)
    ensures FilterKey(FilterKey(FilterKey(xs, ResponsibleKey, r), BuildingKey, b), DeptKey, d)
         == FilterKey(xs, LeafKey, (r, b, d))
  {
    if |xs| > 0 {
      var prefix := xs[..|xs| - 1];
      var x := xs[|xs| - 1];
      FilterKeyNested(prefix, r, b, d);
      var p1 := FilterKey(prefix, ResponsibleKey, r);
      if ResponsibleKey(x) == r {
        FilterKeySnoc(p1, x, BuildingKey, b);
        var p2 := FilterKey(p1, BuildingKey, b);
        if BuildingKey(x) == b {
          FilterKeySnoc(p2, x, DeptKey, d);
        }
      }
    }
  }

  /** A responsible party's entry groups that party's actions by building. */
  lemma GroupedResponsible(actions: seq<CorrectiveAction>, r: string)
    ensures var xs := FilterKey(actions, ResponsibleKey, r);
      Get(Grouped(actions), r) == if |xs| == 0 then None else Some(GroupFold(xs, BuildingKey, Empty(), DeptStep))
  {
    var xs := FilterKey(actions, ResponsibleKey, r);
    GroupFoldGet(actions, ResponsibleKey, Empty(), BuildingStep, r);
    FoldLGroupStep(xs, BuildingKey, Empty(), DeptStep, BuildingStep);
  }

  /** A building's entry groups that building's actions by unit. */
  lemma GroupedBuilding(xs: seq<CorrectiveAction>, b: string)
    ensures var ys := FilterKey(xs, BuildingKey, b);
      Get(GroupFold(xs, BuildingKey, Empty(), DeptStep), b) == if |ys| == 0 then None else Some(GroupFold(ys, DeptKey, [], AppendOne))
  {
    var ys := FilterKey(xs, BuildingKey, b);
    GroupFoldGet(xs, BuildingKey, Empty(), DeptStep, b);
    FoldLGroupStep(ys, DeptKey, [], AppendOne, DeptStep);
  }

  /** A unit's entry lists that unit's actions. */
  lemma GroupedUnit(ys: seq<CorrectiveAction>, d: string)
    ensures var zs := FilterKey(ys, DeptKey, d);
      Get(GroupFold(ys, DeptKey, [], AppendOne), d) == if |zs| == 0 then None else Some(zs)
  {
    GroupFoldGet(ys, DeptKey, [], AppendOne, d);
    FoldLAppend(FilterKey(ys, DeptKey, d));
  }

  /**
    Every leaf list holds exactly the actions with its three keys, in their
    original order, and a leaf exists exactly when some action has those keys.
   */
  lemma GroupedLeaf(actions: seq<CorrectiveAction>, r: string, b: string, d: string)
    ensures var sel := FilterKey(actions, LeafKey, (r, b, d));
      (Leaf(Grouped(actions), r, b, d).Some? <==> |sel| > 0)
      && (Leaf(Grouped(actions), r, b, d).Some? ==> Leaf(Grouped(actions), r, b, d).value == sel)
  {
    var xs := FilterKey(actions, ResponsibleKey, r);
    var ys := FilterKey(xs, BuildingKey, b);
    GroupedResponsible(actions, r);
    GroupedBuilding(xs, b);
    GroupedUnit(ys, d);
    FilterKeyNested(actions, r, b, d);
  }

  /** The only actions in a leaf are those carrying its keys: no action is in two leaves. */
  lemma LeafMembership(actions: seq<CorrectiveAction>, r: string, b: string, d: string, a: CorrectiveAction)
    requires Leaf(Grouped(actions), r, b, d).Some?
    requires a in Leaf(Grouped(actions), r, b, d).value
    ensures a in actions && LeafKey(a) == (r, b, d)
  {
    GroupedLeaf(actions, r, b, d);
    FilterKeyMember(actions, LeafKey, (r, b, d), a);
  }

  lemma {:induction false} FilterKeyMember<T, K>(xs: seq<T>, key: T -> K, k: K, a: T)
    requires a in FilterKey(xs, key, k)
    ensures a in xs && key(a) == k
  {
    if |xs| > 0 {
      var prefix := xs[..|xs| - 1];
      assert xs == prefix + [xs[|xs| - 1]];
      if a in FilterKey(prefix, key, k) {
        FilterKeyMember(prefix, key, k, a);
      }
    }
  }

  function LeafLength(s: seq<CorrectiveAction>): int { |s| }
  function LeafCount(ds: Leaves): int { SumValues(ds, LeafLength) }
  function BuildingCount(bs: Buildings): int { SumValues(bs, LeafCount) }
  function GroupedCount(g: Groups): int { SumValues(g, BuildingCount) }

  lemma DeptStepCount(ds: Leaves, a: CorrectiveAction)
    ensures LeafCount(DeptStep(ds, a)) == LeafCount(ds) + 1
  {
    SumValuesPut(ds, DeptKey(a), GetOr(ds, DeptKey(a), []) + [a], LeafLength);
  }

  lemma BuildingStepCount(bs: Buildings, a: CorrectiveAction)
    ensures BuildingCount(BuildingStep(bs, a)) == BuildingCount(bs) + 1
  {
    var old_ := GetOr(bs, BuildingKey(a), Empty());
    DeptStepCount(old_, a);
    SumValuesPut(bs, BuildingKey(a), DeptStep(old_, a), LeafCount);
  }

  /** Every action lands in exactly one leaf: the leaf sizes add up to the number of actions. */
  lemma GroupedCountAll(actions: seq<CorrectiveAction>)
    ensures GroupedCount(Grouped(actions)) == |actions|
  {
    forall bs: Buildings, a: CorrectiveAction
      ensures BuildingCount(BuildingStep(bs, a)) == BuildingCount(bs) + One(a)
    {
      BuildingStepCount(bs, a);
    }
    GroupFoldSum(actions, ResponsibleKey, Empty(), BuildingStep, BuildingCount, One);
    SumOfOne(actions);
  }

  // ---------------------------------------------------------------------------
  // responsibleCounts

  function Increment(n: int, a: CorrectiveAction): int { n + 1 }

  function ResponsibleCounts(actions: seq<CorrectiveAction>): Dict<string, int>
  {
    GroupFold(actions, ResponsibleKey, 0, Increment)
  }

  /** `counts[key] = (counts[key] || 0) + 1` for every action. */
  method CountByResponsible(actions: seq<CorrectiveAction>) returns (counts: Dict<string, int>)
    ensures counts == ResponsibleCounts(actions)
  {
    counts := Empty();
    for i := 0 to |actions|
      invariant counts == ResponsibleCounts(actions[..i])
    {
      var key := ResponsibleKey(actions[i]);
      GroupFoldSnoc(actions[..i], actions[i], ResponsibleKey, 0, Increment);
      TakeSnoc(actions, i);
      counts := Put(counts, key, GetOr(counts, key, 0) + 1);
    }
    TakeAll(actions);
  }

  /**
    The counts have the same responsible parties, in the same order, as the
    grouping, and each count is the number of actions under that party there,
    which is the number of actions with that party.
   */
  lemma CountsMatchGroups(actions: seq<CorrectiveAction>, r: string)
    ensures Keys(ResponsibleCounts(actions)) == Keys(Grouped(actions))
    ensures Get(ResponsibleCounts(actions), r).Some? <==> Get(Grouped(actions), r).Some?
    ensures Get(ResponsibleCounts(actions), r).Some? ==>
      Get(ResponsibleCounts(actions), r).value == BuildingCount(Get(Grouped(actions), r).value)
      == |FilterKey(actions, ResponsibleKey, r)|
  {
    GroupFoldKeys(actions, ResponsibleKey, 0, Increment);
    GroupFoldKeys(actions, ResponsibleKey, Empty(), BuildingStep);
    var xs := FilterKey(actions, ResponsibleKey, r);
    GroupFoldGet(actions, ResponsibleKey, 0, Increment, r);
    GroupFoldGet(actions, ResponsibleKey, Empty(), BuildingStep, r);
    forall n: int, a: CorrectiveAction
      ensures Identity(Increment(n, a)) == Identity(n) + One(a)
    {
    }
    FoldLMeasure(xs, 0, Increment, Identity, One);
    forall bs: Buildings, a: CorrectiveAction
      ensures BuildingCount(BuildingStep(bs, a)) == BuildingCount(bs) + One(a)
    {
      BuildingStepCount(bs, a);
    }
    FoldLMeasure(xs, Empty(), BuildingStep, BuildingCount, One);
    SumOfOne(xs);
  }

  function Identity(n: int): int { n }

  // ---------------------------------------------------------------------------
  // statusSummary

  /** The three status buckets; an action with any other status is in none. */
  datatype Summary = Summary(underReview: seq<CorrectiveAction>, inRemediation: seq<CorrectiveAction>,
                             resolved: seq<CorrectiveAction>)

  function HasStatus(s: string): CorrectiveAction -> bool
  {
    (a: CorrectiveAction) => a.status == s
  }

  function StatusSummary(actions: seq<CorrectiveAction>): Summary
  {
    Summary(Filter(actions, HasStatus(UnderReview)), Filter(actions, HasStatus(InRemediation)),
            Filter(actions, HasStatus(Resolved)))
  }

  predicate KnownStatus(a: CorrectiveAction)
  {
    a.status == UnderReview || a.status == InRemediation || a.status == Resolved
  }

  /** The `forEach` that pushes each action into the bucket of its status, when there is one. */
  method SummarizeStatuses(actions: seq<CorrectiveAction>) returns (s: Summary)
    ensures s == StatusSummary(actions)
  {
    s := Summary([], [], []);
    for i := 0 to |actions|
      invariant s == StatusSummary(actions[..i])
    {
      var a := actions[i];
      TakeSnoc(actions, i);
      FilterAppend(actions[..i], [a], HasStatus(UnderReview));
      FilterAppend(actions[..i], [a], HasStatus(InRemediation));
      FilterAppend(actions[..i], [a], HasStatus(Resolved));
      if a.status == UnderReview {
        s := s.(underReview := s.underReview + [a]);
      } else if a.status == InRemediation {
        s := s.(inRemediation := s.inRemediation + [a]);
      } else if a.status == Resolved {
        s := s.(resolved := s.resolved + [a]);
      }
    }
    TakeAll(actions);
  }

  function BucketSizes(s: Summary): nat { |s.underReview| + |s.inRemediation| + |s.resolved| }

  lemma {:induction false} SummaryCount(actions: seq<CorrectiveAction>)
    ensures BucketSizes(StatusSummary(actions)) == Count(actions, KnownStatus)
  {
    FilterCount(actions, HasStatus(UnderReview));
    FilterCount(actions, HasStatus(InRemediation));
    FilterCount(actions, HasStatus(Resolved));
    if |actions| > 0 {
      var prefix := actions[..|actions| - 1];
      SummaryCount(prefix);
      FilterCount(prefix, HasStatus(UnderReview));
      FilterCount(prefix, HasStatus(InRemediation));
      FilterCount(prefix, HasStatus(Resolved));
    }
  }

  /**
    The buckets hold at most all the actions, and all of them exactly when
    every status is one of the three; an action is in a bucket exactly when
    it has that bucket's status, so it is in at most one.
   */
  lemma SummaryPartition(actions: seq<CorrectiveAction>)
    ensures BucketSizes(StatusSummary(actions)) <= |actions|
    ensures BucketSizes(StatusSummary(actions)) == |actions| <==>
      forall i :: 0 <= i < |actions| ==> KnownStatus(actions[i])
    ensures forall a :: a in StatusSummary(actions).underReview <==> a in actions && a.status == UnderReview
    ensures forall a :: a in StatusSummary(actions).inRemediation <==> a in actions && a.status == InRemediation
    ensures forall a :: a in StatusSummary(actions).resolved <==> a in actions && a.status == Resolved
  {
    SummaryCount(actions);
    CountAll(actions, KnownStatus);
  }

  // ---------------------------------------------------------------------------
  // The edit dialog

  /** The form fields of the edit dialog (`editFormData`). */
  datatype EditForm = EditForm(status: string, actionDetails: string, actionDate: string, actionBy: string)

  /** The form as `handleOpenEdit` seeds it from an action: missing text becomes "". */
  function Seed(a: CorrectiveAction): (f: EditForm)
    ensures f.status == a.status
    ensures a.actionDetails.Some? ==> f.actionDetails == a.actionDetails.value
    ensures a.actionDetails.None? ==> f.actionDetails == ""
    ensures a.actionDate.Some? ==> f.actionDate == a.actionDate.value
    ensures a.actionDate.None? ==> f.actionDate == ""
    ensures a.actionBy.Some? ==> f.actionBy == a.actionBy.value
    ensures a.actionBy.None? ==> f.actionBy == ""
  {
    EditForm(a.status, Or(a.actionDetails, ""), Or(a.actionDate, ""), Or(a.actionBy, ""))
  }

  /** The required field of the dialog: the details, once trimmed, are not empty. */
  predicate HasDetails(f: EditForm)
  {
    Trim(f.actionDetails) != ""
  }

  /** The update the save button sends: every field of the form, and the image list. */
  function FormUpdate(f: EditForm, images: seq<string>): ActionUpdate
  {
    ActionUpdate(Some(f.status), Some(f.actionDetails), Some(f.actionDate), Some(f.actionBy), Some(images))
  }

  /** `xs.filter((_, i) => i !== idx)` */
  function RemoveIndex<T>(xs: seq<T>, idx: int): seq<T>
  {
    if |xs| == 0 then []
    else RemoveIndex(xs[..|xs| - 1], idx) + (if |xs| - 1 != idx then [xs[|xs| - 1]] else [])
  }

  /** Removing the image at `idx` deletes exactly that entry; an index out of range removes nothing. */
  lemma {:induction false} RemoveIndexExact<T>(xs: seq<T>, idx: int)
    ensures RemoveIndex(xs, idx) == if 0 <= idx < |xs| then xs[..idx] + xs[idx + 1..] else xs
  {
    if |xs| > 0 {
      var n := |xs| - 1;
      var prefix := xs[..n];
      RemoveIndexExact(prefix, idx);
      if 0 <= idx < n {
        assert prefix[..idx] == xs[..idx];
        assert prefix[idx + 1..] + [xs[n]] == xs[idx + 1..];
      } else if idx == n {
        assert xs[..idx] == prefix;
      } else {
        assert prefix + [xs[n]] == xs;
      }
    }
  }

  lemma RemoveIndexLength<T>(xs: seq<T>, idx: int)
    ensures |RemoveIndex(xs, idx)| == if 0 <= idx < |xs| then |xs| - 1 else |xs|
  {
    RemoveIndexExact(xs, idx);
  }

  class FollowUpPage {
    const table: ActionTable
    var isLoggedIn: bool
    var selected: Option<CorrectiveAction>
    var form: EditForm
    var newImages: seq<string>
    var dialogOpen: bool

    constructor (table: ActionTable, isLoggedIn: bool)
      ensures this.table == table && this.isLoggedIn == isLoggedIn
      ensures selected == None && form == EditForm("", "", "", "") && newImages == [] && !dialogOpen
    {
      this.table := table;
      this.isLoggedIn := isLoggedIn;
      selected := None;
      form := EditForm("", "", "", "");
      newImages := [];
      dialogOpen := false;
    }

    /** `handleOpenEdit`: does nothing unless logged in; otherwise seeds the dialog from the action. */
    method OpenEdit(a: CorrectiveAction)
      modifies this
      ensures !old(isLoggedIn) ==> unchanged(this)
      ensures old(isLoggedIn) ==>
        isLoggedIn && selected == Some(a) && form == Seed(a) && newImages == a.actionImages && dialogOpen
    {
      if !isLoggedIn {
        return;
      }
      selected := Some(a);
      form := Seed(a);
      newImages := a.actionImages;
      dialogOpen := true;
    }

    /** `handleImageUpload`: the uploaded images follow the ones already in the dialog. */
    method UploadImages(urls: seq<string>)
      modifies this
      ensures newImages == old(newImages) + urls
      ensures isLoggedIn == old(isLoggedIn) && selected == old(selected) && form == old(form)
      ensures dialogOpen == old(dialogOpen)
    {
      for k := 0 to |urls|
        invariant newImages == old(newImages) + urls[..k]
        invariant isLoggedIn == old(isLoggedIn) && selected == old(selected) && form == old(form)
        invariant dialogOpen == old(dialogOpen)
      {
        TakeSnoc(urls, k);
        newImages := newImages + [urls[k]];
      }
      TakeAll(urls);
    }

    /** The remove button under the image at `idx`. */
    method RemoveImage(idx: int)
      modifies this
      ensures newImages == RemoveIndex(old(newImages), idx)
      ensures isLoggedIn == old(isLoggedIn) && selected == old(selected) && form == old(form)
      ensures dialogOpen == old(dialogOpen)
    {
      newImages := RemoveIndex(newImages, idx);
    }

    /**
      `handleSave`: nothing happens without a selected action or when the
      details are blank after trimming; otherwise the form is sent as an
      update of the selected action, and the dialog closes only on success.
     */
    method Save(now: string, storeError: bool) returns (sent: bool, ok: bool)
      modifies this, table
      ensures sent <==> old(selected).Some? && HasDetails(old(form))
      ensures !sent ==> !ok && unchanged(this) && table.rows == old(table.rows)
      ensures sent ==> ok == !storeError
      ensures sent && !storeError && old(selected).value.id in old(table.rows) ==>
        table.rows == old(table.rows)[old(selected).value.id :=
          Merge(old(table.rows)[old(selected).value.id], FormUpdate(old(form), old(newImages)), now)]
      ensures sent && (storeError || old(selected).value.id !in old(table.rows)) ==> table.rows == old(table.rows)
      ensures sent && ok ==> !dialogOpen && selected == None
      ensures sent && !ok ==> dialogOpen == old(dialogOpen) && selected == old(selected)
      ensures form == old(form) && newImages == old(newImages) && isLoggedIn == old(isLoggedIn)
    {
      sent := selected.Some? && HasDetails(form);
      ok := false;
      if sent {
        ok := table.UpdateAction(selected.value.id, FormUpdate(form, newImages), now, storeError);
        if ok {
          dialogOpen := false;
          selected := None;
        }
      }
    }
  }

  /** The required-field check rejects exactly the details made only of white space. */
  lemma SaveGuard(f: EditForm)
    ensures !HasDetails(f) <==> AllSpace(f.actionDetails)
  {
    TrimBlankIff(f.actionDetails);
  }

  /**
    A save of a seeded dialog, when it goes through, writes what the form
    holds and marks the action as no longer new, keeping everything the form
    does not edit.
   */
  lemma SavedRow(r: ActionRow, f: EditForm, images: seq<string>, now: string)
    ensures var m := Merge(r, FormUpdate(f, images), now);
      Normalize(m).status == f.status && m.actionDetails == Some(f.actionDetails)
      && m.actionDate == Some(f.actionDate) && m.actionBy == Some(f.actionBy)
      && Normalize(m).actionImages == images && !Normalize(m).isNew && m.updatedAt == now
      && m.id == r.id && m.inspectionImages == r.inspectionImages && m.itemName == r.itemName
  {
    MergeEffect(r, FormUpdate(f, images), now);
  }
}
