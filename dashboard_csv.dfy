/**
  The dashboard's CSV export of one inspection (`exportInspectionToCSV` in
  `src/pages/Dashboard.tsx`): an unquoted header line, then one line per item
  whose twelve fields are each wrapped in double quotes with inner quotes
  doubled, all joined by newlines behind a byte-order mark.
 */
module DashboardCsv {
  import opened Common
  import opened Seqs
  import opened Records

  const Bom: string := "\U{FEFF}"

  /** The twelve column titles joined by commas, unquoted. */
  const HeaderLine: string :=
    "วันที่ตรวจ,อาคาร,ชั้น,หน่วยงานหลัก,หน่วยงานย่อย,หมวดหมู่,รายการ,สถานะ,รายละเอียด,ข้อเสนอแนะ,ผู้รับผิดชอบ,คณะผู้สำรวจ"

  const ColumnCount := 12

  // ---------------------------------------------------------------------------
  // Quoting a field, and reading it back

  /** `s.replace(/"/g, '""')` */
  function Escape(s: string): string
  {
    if |s| == 0 then "" else (if s[0] == '"' then "\"\"" else [s[0]]) + Escape(s[1..])
  }

  /** `"${String(field).replace(/"/g, '""')}"` */
  function Quote(s: string): string
  {
    "\"" + Escape(s) + "\""
  }

  /**
    Reads the text of a quoted field after its opening quote, as a CSV reader
    does: a doubled quote stands for one quote, a single quote closes the field.
    Returns the text and what follows the closing quote.
   */
  function ReadQuoted(s: string): (r: Option<(string, string)>)
    ensures r.Some? ==> |r.value.1| < |s|
    decreases |s|
  {
    if |s| == 0 then None
    else if s[0] == '"' then
      if |s| >= 2 && s[1] == '"' then
        match ReadQuoted(s[2..])
        case None => None
        case Some((f, rest)) => Some(("\"" + f, rest))
      else Some(("", s[1..]))
    else
      match ReadQuoted(s[1..])
      case None => None
      case Some((f, rest)) => Some(([s[0]] + f, rest))
  }

  /** Reads a line of quoted fields separated by commas. */
  function ParseRow(s: string): Option<seq<string>>
    decreases |s|
  {
    if |s| == 0 || s[0] != '"' then None
    else
      match ReadQuoted(s[1..])
      case None => None
      case Some((f, rest)) =>
        if |rest| == 0 then Some([f])
        else if rest[0] != ',' then None
        else
          match ParseRow(rest[1..])
          case None => None
          case Some(fs) => Some([f] + fs)
  }

  /** The escaped text followed by the closing quote reads back as the original text. */
  lemma {:induction false} ReadEscaped(f: string, rest: string)
    requires |rest| == 0 || rest[0] != '"'
    ensures ReadQuoted(Escape(f) + "\"" + rest) == Some((f, rest))
  {
    if |f| == 0 {
      assert Escape(f) + "\"" + rest == "\"" + rest;
    } else {
      ReadEscaped(f[1..], rest);
      var s := Escape(f) + "\"" + rest;
      var tail := Escape(f[1..]) + "\"" + rest;
      if f[0] == '"' {
        assert s == "\"\"" + tail;
        assert s[2..] == tail;
        assert "\"" + f[1..] == f;
      } else {
        assert s == [f[0]] + tail;
        assert s[1..] == tail;
        assert [f[0]] + f[1..] == f;
      }
    }
  }

  /** Reading a quoted field at the start of a line, followed by the end of the line or a comma. */
  lemma ParseFirstField(f: string, rest: string)
    requires |rest| == 0 || rest[0] == ','
    ensures ParseRow(Quote(f) + rest) ==
      if |rest| == 0 then Some([f])
      else match ParseRow(rest[1..]) case None => None case Some(fs) => Some([f] + fs)
  {
    QuoteTail(f, rest);
    ReadEscaped(f, rest);
  }

  lemma QuoteTail(f: string, rest: string)
    ensures |Quote(f) + rest| > 0 && (Quote(f) + rest)[0] == '"'
    ensures (Quote(f) + rest)[1..] == Escape(f) + "\"" + rest
  {
  }

  lemma ParseQuotedRowStep(fields: seq<string>)
    requires |fields| > 1 && ParseRow(Join(Map(fields[1..], Quote), ",")) == Some(fields[1..])
    ensures ParseRow(Join(Map(fields, Quote), ",")) == Some(fields)
  {
    var qs := Map(fields, Quote);
    var rest := Join(Map(fields[1..], Quote), ",");
    var tail := "," + rest;
    assert qs[1..] == Map(fields[1..], Quote);
    assert Join(qs, ",") == Quote(fields[0]) + tail;
    assert tail[1..] == rest;
    calc {
      ParseRow(Join(qs, ","));
      ParseRow(Quote(fields[0]) + tail);
      { ParseFirstField(fields[0], tail); }
      Some([fields[0]] + fields[1..]);
      { assert [fields[0]] + fields[1..] == fields; }
      Some(fields);
    }
  }

  /** A line of quoted fields reads back as the fields, whatever they contain. */
  lemma {:induction false} ParseQuotedRow(fields: seq<string>)
    requires |fields| > 0
    ensures ParseRow(Join(Map(fields, Quote), ",")) == Some(fields)
  {
    if |fields| == 1 {
      ParseFirstField(fields[0], "");
      assert Join(Map(fields, Quote), ",") == Quote(fields[0]) + "";
      assert fields == [fields[0]];
    } else {
      ParseQuotedRow(fields[1..]);
      ParseQuotedRowStep(fields);
    }
  }

  // ---------------------------------------------------------------------------
  // The rows

  /** `DIVISIONS.find((d) => d.id === inspection.division)` */
  function DivisionOf(divisions: seq<Division>, x: Inspection): Option<Division>
  {
    Find(divisions, (d: Division) => d.id == x.division)
  }

  /** `division?.departments.find((dept) => dept.id === inspection.department)` */
  function DepartmentOf(divisions: seq<Division>, x: Inspection): Option<Department>
  {
    match DivisionOf(divisions, x)
    case None => None
    case Some(d) => Find(d.departments, (e: Department) => x.department == Some(e.id))
  }

  /** `division?.name || inspection.division` */
  function DivisionField(divisions: seq<Division>, x: Inspection): string
  {
    match DivisionOf(divisions, x)
    case None => x.division
    case Some(d) => OrStr(d.name, x.division)
  }

  /** `department?.name || inspection.department || "-"` */
  function DepartmentField(divisions: seq<Division>, x: Inspection): string
  {
    match DepartmentOf(divisions, x)
    case None => Or(x.department, "-")
    case Some(e) => OrStr(e.name, Or(x.department, "-"))
  }

  /** The twelve fields of an item's line, before quoting. */
  function RowFields(divisions: seq<Division>, x: Inspection, item: Item): seq<string>
  {
    [x.date, x.building, x.floor, DivisionField(divisions, x), DepartmentField(divisions, x),
     item.category, item.name, StatusText(item.status),
     Or(item.details, "-"), Or(item.recommendations, "-"), Or(item.responsible, "-"),
     Join(x.surveyTeam, "; ")]
  }

  function RowLine(divisions: seq<Division>, x: Inspection, item: Item): string
  {
    Join(Map(RowFields(divisions, x, item), Quote), ",")
  }

  function Lines(divisions: seq<Division>, x: Inspection): seq<string>
  {
    [HeaderLine] + Map(x.items, (item: Item) => RowLine(divisions, x, item))
  }

  /** `"﻿" + csvRows.join("\n")` */
  function CsvContent(divisions: seq<Division>, x: Inspection): string
  {
    Bom + Join(Lines(divisions, x), "\n")
  }

  /**
    The export is the header line followed by one line per item, in item
    order; every item line reads back as exactly the item's twelve fields,
    one under each header.
   */
  lemma CsvLayout(divisions: seq<Division>, x: Inspection)
    ensures var ls := Lines(divisions, x);
      |ls| == |x.items| + 1 && ls[0] == HeaderLine
      && forall k :: 0 <= k < |x.items| ==>
           ParseRow(ls[k + 1]) == Some(RowFields(divisions, x, x.items[k]))
           && |RowFields(divisions, x, x.items[k])| == ColumnCount
    ensures CsvContent(divisions, x)[..|Bom|] == Bom
  {
    var ls := Lines(divisions, x);
    forall k | 0 <= k < |x.items|
      ensures ParseRow(ls[k + 1]) == Some(RowFields(divisions, x, x.items[k]))
    {
      assert ls[k + 1] == RowLine(divisions, x, x.items[k]);
      ParseQuotedRow(RowFields(divisions, x, x.items[k]));
    }
  }

  /**
    The department column is never empty: the department's name from the
    organisation table, else the department id, else "-"; the details,
    recommendations and responsible columns show "-" exactly when the value
    is missing or empty.
   */
  lemma RowFallbacks(divisions: seq<Division>, x: Inspection, item: Item)
    ensures var r := RowFields(divisions, x, item);
      r[4] != ""
      && (DepartmentOf(divisions, x).None? ==> r[4] == Or(x.department, "-"))
      && (DepartmentOf(divisions, x).Some? && DepartmentOf(divisions, x).value.name != "" ==>
            r[4] == DepartmentOf(divisions, x).value.name)
      && (r[8] == "-" <==> !Truthy(item.details) || item.details.value == "-")
      && (r[9] == "-" <==> !Truthy(item.recommendations) || item.recommendations.value == "-")
      && (r[10] == "-" <==> !Truthy(item.responsible) || item.responsible.value == "-")
      && r[8] != "" && r[9] != "" && r[10] != ""
  {
  }

  /** A department is looked up only in the inspection's own division, and only by a present id. */
  lemma DepartmentLookup(divisions: seq<Division>, x: Inspection)
    ensures DepartmentOf(divisions, x).Some? ==>
      x.department == Some(DepartmentOf(divisions, x).value.id)
      && exists j :: 0 <= j < |divisions| && divisions[j].id == x.division
                     && DepartmentOf(divisions, x).value in divisions[j].departments
    ensures x.department.None? ==> DepartmentOf(divisions, x).None?
  {
  }

  // ---------------------------------------------------------------------------
  // The export as the page builds it

  /** The CSV text; writing it to a file and starting the download is not modelled. */
  method ExportCsv(divisions: seq<Division>, x: Inspection) returns (content: string)
    ensures content == CsvContent(divisions, x)
  {
    var rows := [HeaderLine];
    var division := DivisionOf(divisions, x);
    var department := DepartmentOf(divisions, x);
    for k := 0 to |x.items|
      invariant |rows| == k + 1 && rows[0] == HeaderLine
      invariant forall i :: 0 <= i < k ==> rows[i + 1] == RowLine(divisions, x, x.items[i])
    {
      var line := ItemLine(divisions, x, x.items[k], division, department);
      rows := rows + [line];
    }
    assert rows == Lines(divisions, x);
    content := Bom + Join(rows, "\n");
  }

  /** The body of the `forEach`: the twelve fields of an item, quoted and joined by commas. */
  method ItemLine(divisions: seq<Division>, x: Inspection, item: Item, division: Option<Division>,
                  department: Option<Department>) returns (line: string)
    requires division == DivisionOf(divisions, x) && department == DepartmentOf(divisions, x)
    ensures line == RowLine(divisions, x, item)
  {
    var divisionName := if division.Some? then OrStr(division.value.name, x.division) else x.division;
    var departmentName := if department.Some? then OrStr(department.value.name, Or(x.department, "-"))
                          else Or(x.department, "-");
    var fields := [x.date, x.building, x.floor, divisionName, departmentName, item.category, item.name,
                   StatusText(item.status), Or(item.details, "-"), Or(item.recommendations, "-"),
                   Or(item.responsible, "-"), Join(x.surveyTeam, "; ")];
    assert fields == RowFields(divisions, x, item);
    line := Join(Map(fields, Quote), ",");
  }
}
