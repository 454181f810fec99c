/**
  What the dashboard computes while rendering (`src/pages/Dashboard.tsx`):
  the order of the occurrences of a department (newest first by date and
  time), the latest date of a department's abnormal items, and the name shown
  for a department id.
 */
module DashboardView {
  import opened Common
  import opened Seqs
  import opened Dicts
  import opened Dates
  import opened Records
  import opened Dashboard
  import opened DashboardDivisions

  // ---------------------------------------------------------------------------
  // Sorting occurrences: `.sort(([, a], [, b]) => bDateTime - aDateTime)`

  /**
    The comparator on two time values: negative when `a` goes first. A
    subtraction involving an invalid date is NaN, which the sort takes as 0.
   */
  function Compare(ka: Option<int>, kb: Option<int>): int
  {
    if ka.Some? && kb.Some? then kb.value - ka.value else 0
  }

  /** Inserting a later element into a sorted prefix: it moves only past elements it must precede. */
  function InsertDesc<T>(ys: seq<T>, x: T, key: T -> Option<int>): seq<T>
  {
    if |ys| == 0 then [x]
    else if Compare(key(x), key(ys[|ys| - 1])) < 0 then InsertDesc(ys[..|ys| - 1], x, key) + [ys[|ys| - 1]]
    else ys + [x]
  }

  /** A stable sort with the comparator, which is what `Array.prototype.sort` produces. */
  function SortDesc<T>(xs: seq<T>, key: T -> Option<int>): seq<T>
  {
    if |xs| == 0 then [] else InsertDesc(SortDesc(xs[..|xs| - 1], key), xs[|xs| - 1], key)
  }

  predicate AllKeyed<T>(ys: seq<T>, key: T -> Option<int>)
  {
    forall i :: 0 <= i < |ys| ==> key(ys[i]).Some?
  }

  predicate Descending<T>(ys: seq<T>, key: T -> Option<int>)
  {
    AllKeyed(ys, key) && forall i, j :: 0 <= i < j < |ys| ==> key(ys[i]).value >= key(ys[j]).value
  }

  lemma {:induction false} InsertDescPermutation<T>(ys: seq<T>, x: T, key: T -> Option<int>)
    ensures multiset(InsertDesc(ys, x, key)) == multiset(ys) + multiset{x}
  {
    if |ys| > 0 {
      var prefix := ys[..|ys| - 1];
      InsertDescPermutation(prefix, x, key);
      assert ys == prefix + [ys[|ys| - 1]];
    }
  }

  /** Sorting reorders the entries and loses or adds none. */
  lemma {:induction false} SortDescPermutation<T>(xs: seq<T>, key: T -> Option<int>)
    ensures multiset(SortDesc(xs, key)) == multiset(xs)
    ensures |SortDesc(xs, key)| == |xs|
  {
    if |xs| > 0 {
      var prefix := xs[..|xs| - 1];
      SortDescPermutation(prefix, key);
      InsertDescPermutation(SortDesc(prefix, key), xs[|xs| - 1], key);
      assert xs == prefix + [xs[|xs| - 1]];
      assert |multiset(SortDesc(xs, key))| == |xs|;
    }
  }

  predicate AllAtLeast<T>(ys: seq<T>, key: T -> Option<int>, b: int)
  {
    forall i :: 0 <= i < |ys| ==> key(ys[i]).Some? && key(ys[i]).value >= b
  }

  lemma {:induction false} InsertDescAtLeast<T>(ys: seq<T>, x: T, key: T -> Option<int>, b: int)
    requires AllAtLeast(ys, key, b) && key(x).Some? && key(x).value >= b
    ensures AllAtLeast(InsertDesc(ys, x, key), key, b)
  {
    if |ys| > 0 {
      var prefix := ys[..|ys| - 1];
      assert AllAtLeast(prefix, key, b) by {
        forall i | 0 <= i < |prefix| ensures key(prefix[i]).Some? && key(prefix[i]).value >= b {
          assert prefix[i] == ys[i];
        }
      }
      InsertDescAtLeast(prefix, x, key, b);
    }
  }

  lemma {:induction false} InsertDescSorted<T>(ys: seq<T>, x: T, key: T -> Option<int>)
    requires Descending(ys, key) && key(x).Some?
    ensures Descending(InsertDesc(ys, x, key), key)
  {
    if |ys| > 0 {
      var n := |ys| - 1;
      var prefix := ys[..n];
      var last := ys[n];
      if Compare(key(x), key(last)) < 0 {
        assert Descending(prefix, key) by {
          forall i | 0 <= i < n ensures prefix[i] == ys[i] { }
        }
        InsertDescSorted(prefix, x, key);
        assert AllAtLeast(prefix, key, key(last).value) by {
          forall i | 0 <= i < n ensures prefix[i] == ys[i] { }
        }
        InsertDescAtLeast(prefix, x, key, key(last).value);
      }
    }
  }

  /** When every date and time is valid, the sort puts the entries newest first. */
  lemma {:induction false} SortDescSorted<T>(xs: seq<T>, key: T -> Option<int>)
    requires AllKeyed(xs, key)
    ensures Descending(SortDesc(xs, key), key)
  {
    if |xs| > 0 {
      var prefix := xs[..|xs| - 1];
      assert AllKeyed(prefix, key) by {
        forall i | 0 <= i < |prefix| ensures key(prefix[i]).Some? {
          assert prefix[i] == xs[i];
        }
      }
      SortDescSorted(prefix, key);
      InsertDescSorted(SortDesc(prefix, key), xs[|xs| - 1], key);
    }
  }

  /** `new Date(`${date} ${time || "00:00"}`).getTime()` */
  function OccurrenceKey(o: Occurrence): Option<int>
  {
    DateTimeValue(o.date + " " + Or(o.time, "00:00"))
  }

  function EntryKey(e: (string, Occurrence)): Option<int> { OccurrenceKey(e.1) }

  /** The occurrences of a department in the order the dashboard lists them. */
  function SortedOccurrences(occs: Dict<string, Occurrence>): seq<(string, Occurrence)>
  {
    SortDesc(Entries(occs), EntryKey)
  }

  /**
    The sort key orders by day first and by time of day within a day; an
    occurrence without a time counts as midnight.
   */
  lemma OccurrenceOrder(a: Occurrence, b: Occurrence)
    requires ParseDate(a.date).Some? && ParseDate(b.date).Some?
    requires ParseTime(Or(a.time, "00:00")).Some? && ParseTime(Or(b.time, "00:00")).Some?
    ensures OccurrenceKey(a).Some? && OccurrenceKey(b).Some?
    ensures DateValue(b.date).value < DateValue(a.date).value ==> OccurrenceKey(b).value < OccurrenceKey(a).value
    ensures a.date == b.date ==>
      (OccurrenceKey(b).value < OccurrenceKey(a).value <==>
       ParseTime(Or(b.time, "00:00")).value < ParseTime(Or(a.time, "00:00")).value)
    ensures !Truthy(a.time) ==> OccurrenceKey(a) == DateTimeValue(a.date + " " + "00:00")
  {
    DateTimeOrder(b.date, Or(b.time, "00:00"), a.date, Or(a.time, "00:00"));
  }

  /** The listed occurrences are those of the department, newest first when all dates and times are valid. */
  lemma SortedOccurrencesSpec(occs: Dict<string, Occurrence>)
    ensures multiset(SortedOccurrences(occs)) == multiset(Entries(occs))
    ensures AllKeyed(Entries(occs), EntryKey) ==> Descending(SortedOccurrences(occs), EntryKey)
  {
    SortDescPermutation(Entries(occs), EntryKey);
    if AllKeyed(Entries(occs), EntryKey) {
      SortDescSorted(Entries(occs), EntryKey);
    }
  }

  // ---------------------------------------------------------------------------
  // The latest date of a department's abnormal items

  /** `null`, or a `Date` whose time value may be invalid (`None`). */
  datatype Latest = NoLatest | LatestAt(value: Option<int>)

  /** `(!acc || d > acc) ? d : acc` with `d = new Date(item.date)` */
  function LatestStep(acc: Latest, e: AbnormalEntry): Latest
  {
    var d := DateValue(e.date);
    if acc.NoLatest? then LatestAt(d)
    else if d.Some? && acc.value.Some? && d.value > acc.value.value then LatestAt(d)
    else acc
  }

  function LatestDate(es: seq<AbnormalEntry>): Latest
  {
    FoldL(es, NoLatest, LatestStep)
  }

  /** There is a latest date exactly when there are entries. */
  lemma LatestDateEmpty(es: seq<AbnormalEntry>)
    ensures LatestDate(es) == NoLatest <==> |es| == 0
  {
  }

  /** With valid dates, the latest date is the largest one among the entries. */
  lemma {:induction false} LatestDateMax(es: seq<AbnormalEntry>)
    requires |es| > 0 && forall i :: 0 <= i < |es| ==> DateValue(es[i].date).Some?
    ensures LatestDate(es).LatestAt? && LatestDate(es).value.Some?
    ensures forall i :: 0 <= i < |es| ==> DateValue(es[i].date).value <= LatestDate(es).value.value
    ensures exists i :: 0 <= i < |es| && DateValue(es[i].date) == LatestDate(es).value
  {
    var n := |es| - 1;
    var prefix := es[..n];
    assert LatestDate(es) == LatestStep(LatestDate(prefix), es[n]);
    if n > 0 {
      assert forall i :: 0 <= i < n ==> prefix[i] == es[i];
      LatestDateMax(prefix);
      var m := LatestDate(prefix).value.value;
      var k :| 0 <= k < n && DateValue(prefix[k].date) == LatestDate(prefix).value;
      var d := DateValue(es[n].date).value;
      if d > m {
        assert LatestDate(es) == LatestAt(Some(d));
      } else {
        assert LatestDate(es) == LatestAt(Some(m));
        assert DateValue(es[k].date) == Some(m);
      }
    } else {
      assert LatestDate(prefix) == NoLatest;
    }
  }

  /** An invalid date in the first entry is never replaced: a comparison with it is always false. */
  lemma {:induction false} InvalidFirstDateSticks(es: seq<AbnormalEntry>)
    requires |es| > 0 && DateValue(es[0].date).None?
    ensures LatestDate(es) == LatestAt(None)
  {
    var prefix := es[..|es| - 1];
    if |es| > 1 {
      assert prefix[0] == es[0];
      InvalidFirstDateSticks(prefix);
    } else {
      assert LatestDate(prefix) == NoLatest;
    }
  }

  // ---------------------------------------------------------------------------
  // The department name shown in the building summaries

  predicate HasDepartment(d: Division, id: string)
  {
    exists k :: 0 <= k < |d.departments| && d.departments[k].id == id
  }

  /**
    The first division that has a department with this id, then that
    department's name, or the id when there is none or the name is empty.
   */
  function DepartmentLabel(divisions: seq<Division>, id: string): (n: string)
    ensures (forall j :: 0 <= j < |divisions| ==> !HasDepartment(divisions[j], id)) ==> n == id
    ensures forall j :: 0 <= j < |divisions| && HasDepartment(divisions[j], id)
                        && (forall i :: 0 <= i < j ==> !HasDepartment(divisions[i], id)) ==>
      forall k :: FirstDepartment(divisions[j], k, id) ==> n == OrStr(divisions[j].departments[k].name, id)
  {
    match Find(divisions, (d: Division) => HasDepartment(d, id))
    case None => id
    case Some(d) =>
      match Find(d.departments, (e: Department) => e.id == id)
      case None => id
      case Some(e) => OrStr(e.name, id)
  }
}
