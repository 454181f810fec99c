/**
  The form that opens an inspection (`src/pages/InspectionForm.tsx`): the
  check `handleSubmit` makes before it stores the draft the checklist page
  reads, the buildings a user adds, and the three searchable pickers.

  The building table `BUILDINGS` and the organisation table `DIVISIONS` are
  parameters. The two `localStorage` keys the page writes are fields of the
  page: `storedBuildings` for `custom_buildings` and `currentInspection` for
  `current_inspection`.
 */
module InspectionForm {
  import opened Common
  import opened Seqs
  import opened Records

  /** "Other (please specify)", the survey-team option that reads the free-text name. */
  const OtherTeam := "อื่นๆ (โปรดระบุ)"

  /** The form's text fields; an empty string is an unfilled field. */
  datatype FormFields = FormFields(
    date: string, surveyTeam: string, customSurveyTeam: string,
    building: string, customBuilding: string, floor: string,
    division: string, customDivision: string, department: string, customDepartment: string)

  /** The draft stored under `current_inspection`. */
  datatype InspectionDraft = InspectionDraft(
    date: string, surveyTeam: seq<string>, building: string, floor: string, division: string, department: string)

  /** `finalSurveyTeam`: the free-text name when "other" is chosen, else the chosen option. */
  function FinalSurveyTeam(f: FormFields): string
  {
    if f.surveyTeam == OtherTeam then f.customSurveyTeam else f.surveyTeam
  }

  /**
    `handleSubmit`: no draft when the date, the survey team, the floor, or
    both the chosen and the typed building, or both the chosen and the typed
    division are empty; otherwise a draft whose chosen values take precedence
    over the typed ones.
   */
  function Submit(f: FormFields): (r: Option<InspectionDraft>)
    ensures r.None? <==>
      f.date == "" || FinalSurveyTeam(f) == "" || (f.building == "" && f.customBuilding == "")
      || f.floor == "" || (f.division == "" && f.customDivision == "")
    ensures r.Some? ==>
      var d := r.value;
      d.date == f.date && d.date != "" && d.floor == f.floor && d.floor != ""
      && |d.surveyTeam| == 1 && d.surveyTeam[0] != ""
      && d.surveyTeam[0] == (if f.surveyTeam == OtherTeam then f.customSurveyTeam else f.surveyTeam)
      && d.building != "" && (d.building == f.building || (f.building == "" && d.building == f.customBuilding))
      && d.division != "" && (d.division == f.division || (f.division == "" && d.division == f.customDivision))
      && (d.department == f.department || (f.department == "" && d.department == f.customDepartment))
  {
    var team := FinalSurveyTeam(f);
    if f.date == "" || team == "" || (f.building == "" && f.customBuilding == "") || f.floor == ""
       || (f.division == "" && f.customDivision == "")
    then None
    else Some(InspectionDraft(f.date, [team], OrStr(f.building, f.customBuilding), f.floor,
                              OrStr(f.division, f.customDivision), OrStr(f.department, f.customDepartment)))
  }

  // ---------------------------------------------------------------------------
  // The pickers

  /** `b.toLowerCase().includes(search.toLowerCase())` */
  predicate NameMatches(name: string, search: string)
  {
    Includes(Lower(name), Lower(search))
  }

  /** `filteredBuildings` over `[...BUILDINGS, ...customBuildings]`. */
  function FilteredBuildings(all: seq<string>, search: string): (r: seq<string>)
    ensures forall b :: b in r <==> b in all && NameMatches(b, search)
  {
    var r := Filter(all, (b: string) => NameMatches(b, search));
    assert forall b :: b in all && NameMatches(b, search) ==> b in r by {
      forall b | b in all && NameMatches(b, search) ensures b in r {
        var i :| 0 <= i < |all| && all[i] == b;
      }
    }
    r
  }

  function FilteredDivisions(divisions: seq<Division>, search: string): seq<Division>
  {
    Filter(divisions, (d: Division) => NameMatches(d.name, search))
  }

  /** The chosen division's departments whose name matches, or none when no division is chosen. */
  function FilteredDepartments(divisions: seq<Division>, division: string, search: string): seq<Department>
  {
    match Find(divisions, (d: Division) => d.id == division)
    case None => []
    case Some(d) => Filter(d.departments, (e: Department) => NameMatches(e.name, search))
  }

  /** An empty search matches every name. */
  lemma EmptySearchMatches(name: string)
    ensures NameMatches(name, "")
  {
    IncludesEmpty(Lower(name));
  }

  /** An empty search lists every building and every division, in table order. */
  lemma EmptySearchListsAll(all: seq<string>, divisions: seq<Division>)
    ensures FilteredBuildings(all, "") == all
    ensures FilteredDivisions(divisions, "") == divisions
  {
    forall b: string ensures NameMatches(b, "") {
      EmptySearchMatches(b);
    }
    FilterAllPass(all, (b: string) => NameMatches(b, ""));
    FilterAllPass(divisions, (d: Division) => NameMatches(d.name, ""));
  }

  /** An empty search lists every department of the chosen division, the first with that id. */
  lemma EmptySearchListsDepartments(divisions: seq<Division>, division: string, j: nat)
    requires j < |divisions| && divisions[j].id == division
    requires forall k :: 0 <= k < j ==> divisions[k].id != division
    ensures FilteredDepartments(divisions, division, "") == divisions[j].departments
  {
    var found := Find(divisions, (d: Division) => d.id == division);
    var i :| 0 <= i < |divisions| && divisions[i] == found.value && divisions[i].id == division
             && forall k :: 0 <= k < i ==> divisions[k].id != division;
    assert i == j;
    forall e: Department ensures NameMatches(e.name, "") {
      EmptySearchMatches(e.name);
    }
    FilterAllPass(divisions[j].departments, (e: Department) => NameMatches(e.name, ""));
  }

  /** The search ignores the case of ASCII letters. */
  lemma PickerIgnoresCase(name: string, search: string)
    ensures NameMatches(name, search) <==> NameMatches(name, Lower(search))
    ensures NameMatches(name, search) <==> NameMatches(Lower(name), search)
  {
    LowerIdempotent(search);
    LowerIdempotent(name);
  }

  // ---------------------------------------------------------------------------
  // The page state

  class FormPage {
    const buildings: seq<string>
    var date: string
    var surveyTeam: string
    var customSurveyTeam: string
    var building: string
    var customBuilding: string
    var customBuildings: seq<string>
    var floor: string
    var division: string
    var customDivision: string
    var department: string
    var customDepartment: string
    var showBuildingDialog: bool
    var showDivisionDialog: bool
    var showDepartmentDialog: bool
    var storedBuildings: seq<string>
    var currentInspection: Option<InspectionDraft>

    function Fields(): FormFields
      reads this
    {
      FormFields(date, surveyTeam, customSurveyTeam, building, customBuilding, floor,
                 division, customDivision, department, customDepartment)
    }

    /** The building list the picker offers. */
    function AllBuildings(): seq<string>
      reads this
    {
      buildings + customBuildings
    }

    /** The stored list of added buildings is the one the page holds. */
    predicate Valid()
      reads this
    {
      storedBuildings == customBuildings
    }

    /**
      The page on mount: today's date, empty fields, and the added buildings
      read back from storage (`saved`, `None` when nothing is stored).
     */
    constructor (buildings: seq<string>, today: string, saved: Option<seq<string>>)
      ensures Valid() && this.buildings == buildings && customBuildings == ArrayOr(saved)
      ensures Fields() == FormFields(today, "", "", "", "", "", "", "", "", "")
      ensures !showBuildingDialog && !showDivisionDialog && !showDepartmentDialog
      ensures currentInspection.None?
    {
      this.buildings := buildings;
      date := today;
      surveyTeam := "";
      customSurveyTeam := "";
      building := "";
      customBuilding := "";
      customBuildings := ArrayOr(saved);
      floor := "";
      division := "";
      customDivision := "";
      department := "";
      customDepartment := "";
      showBuildingDialog := false;
      showDivisionDialog := false;
      showDepartmentDialog := false;
      storedBuildings := ArrayOr(saved);
      currentInspection := None;
    }

    /**
      `addCustomBuilding`: a blank name changes nothing; otherwise the trimmed
      name is added (see `AddBuilding`).
     */
    method AddCustomBuilding()
      requires Valid()
      modifies this
      ensures Valid()
      ensures Trim(old(customBuilding)) == "" ==>
        Fields() == old(Fields()) && customBuildings == old(customBuildings)
        && storedBuildings == old(storedBuildings) && showBuildingDialog == old(showBuildingDialog)
      ensures Trim(old(customBuilding)) != "" ==>
        var name := Trim(old(customBuilding));
        Fields() == old(Fields()).(building := name, customBuilding := "")
        && customBuildings == old(customBuildings) + [name] && name in AllBuildings() && !showBuildingDialog
      ensures showDivisionDialog == old(showDivisionDialog) && showDepartmentDialog == old(showDepartmentDialog)
      ensures currentInspection == old(currentInspection)
    {
      var newBuilding := Trim(customBuilding);
      if newBuilding != "" {
        AddBuilding(newBuilding);
      }
    }

    /**
      A non-blank building name is appended to the added buildings, stored,
      offered by the picker after every listed building, and selected; the
      text field is cleared and the dialog closed.
     */
    method AddBuilding(name: string)
      requires Valid()
      modifies this
      ensures Valid()
      ensures Fields() == old(Fields()).(building := name, customBuilding := "")
      ensures customBuildings == old(customBuildings) + [name] && !showBuildingDialog
      ensures showDivisionDialog == old(showDivisionDialog) && showDepartmentDialog == old(showDepartmentDialog)
      ensures AllBuildings() == old(AllBuildings()) + [name] && name in AllBuildings()
      ensures currentInspection == old(currentInspection)
    {
      var updatedBuildings := customBuildings + [name];
      AppendAssocOne(buildings, customBuildings, name);
      customBuildings, storedBuildings, building, customBuilding, showBuildingDialog :=
        updatedBuildings, updatedBuildings, name, "", false;
    }

    /** `addCustomDivision`: a non-blank typed division clears the chosen one, so the typed one is used. */
    method AddCustomDivision()
      modifies this
      ensures Trim(customDivision) == "" ==> division == old(division) && showDivisionDialog == old(showDivisionDialog)
      ensures Trim(customDivision) != "" ==> division == "" && !showDivisionDialog
      ensures Fields() == old(Fields()).(division := if Trim(old(customDivision)) != "" then "" else old(division))
      ensures showBuildingDialog == old(showBuildingDialog) && showDepartmentDialog == old(showDepartmentDialog)
      ensures customBuildings == old(customBuildings) && storedBuildings == old(storedBuildings)
      ensures currentInspection == old(currentInspection)
    {
      if Trim(customDivision) != "" {
        division := "";
        showDivisionDialog := false;
      }
    }

    /** `addCustomDepartment`: likewise for the department. */
    method AddCustomDepartment()
      modifies this
      ensures Trim(customDepartment) == "" ==> department == old(department) && showDepartmentDialog == old(showDepartmentDialog)
      ensures Trim(customDepartment) != "" ==> department == "" && !showDepartmentDialog
      ensures Fields() == old(Fields()).(department := if Trim(old(customDepartment)) != "" then "" else old(department))
      ensures showBuildingDialog == old(showBuildingDialog) && showDivisionDialog == old(showDivisionDialog)
      ensures customBuildings == old(customBuildings) && storedBuildings == old(storedBuildings)
      ensures currentInspection == old(currentInspection)
    {
      if Trim(customDepartment) != "" {
        department := "";
        showDepartmentDialog := false;
      }
    }

    /** `handleSubmit`: a complete form stores its draft; an incomplete one stores nothing. */
    method HandleSubmit() returns (stored: bool)
      modifies this
      ensures stored <==> Submit(old(Fields())).Some?
      ensures currentInspection == if stored then Submit(old(Fields())) else old(currentInspection)
      ensures Fields() == old(Fields()) && customBuildings == old(customBuildings)
      ensures storedBuildings == old(storedBuildings)
      ensures showBuildingDialog == old(showBuildingDialog) && showDivisionDialog == old(showDivisionDialog)
        && showDepartmentDialog == old(showDepartmentDialog)
    {
      var draft := Submit(Fields());
      stored := draft.Some?;
      if stored {
        currentInspection := draft;
      }
    }
  }

  /** A typed division is used only when no division is chosen, and likewise for the building. */
  lemma ChosenTakesPrecedence(f: FormFields)
    requires Submit(f).Some?
    ensures f.building != "" ==> Submit(f).value.building == f.building
    ensures f.division != "" ==> Submit(f).value.division == f.division
    ensures f.department != "" ==> Submit(f).value.department == f.department
    ensures f.building == "" ==> Submit(f).value.building == f.customBuilding
  {
  }
}
