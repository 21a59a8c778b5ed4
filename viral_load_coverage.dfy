/**
 * PEPFAR viral-load coverage: which patients on ART are due for a viral-load
 * test, and the age-group x gender report of due, drawn, low and high
 * viral-load patient ids. Query results are inputs; the decision and the
 * aggregation logic is modelled.
 */
module ViralLoadCoverage {
  import opened Collections
  import opened Text
  import opened Calendar
  import PepfarUtils

  // ---------------------------------------------------------------- maternal status

  datatype MaternalStatus = FP | FBf

  /** The three lists of `vl_maternal_status`: pregnant, breastfeeding, neither. */
  datatype MaternalLists = MaternalLists(fp: seq<int>, fbf: seq<int>, fnp: seq<int>)

  /**
   * The rows a maternal-status query returns for a list of women: one per
   * woman of the list who has a qualifying observation (`qualifying` is the
   * set of such women, decided by the query's not-superseded rule).
   */
  function QueryWomen(list: seq<int>, qualifying: set<int>): (r: seq<int>)
    ensures NoDuplicates(r)
    ensures forall x :: x in r <==> x in list && x in qualifying
  {
    Uniq(Keep(list, qualifying))
  }

  /**
   * `vl_maternal_status`. Pregnant women first; breastfeeding is looked for
   * only among the others; the rest are neither.
   */
  function VlMaternalStatus(patientList: seq<int>, pregnant: set<int>, breastfeeding: set<int>): (r: MaternalLists)
    ensures |patientList| == 0 ==> r == MaternalLists([], [], [])
    ensures forall x :: x in r.fp <==> x in patientList && x in pregnant
    ensures forall x :: x in r.fbf <==> x in patientList && x !in pregnant && x in breastfeeding
    ensures forall x :: x in r.fnp <==> x in patientList && x !in pregnant && x !in breastfeeding
  {
    if |patientList| == 0 then MaternalLists([], [], [])
    else
      var fp := QueryWomen(patientList, pregnant);
      var rest := Without(patientList, fp);
      if |rest| == 0 then MaternalLists(fp, [], [])
      else
        var fbf := QueryWomen(rest, breastfeeding);
        MaternalLists(fp, fbf, Without(rest, fbf))
  }

  /** FP, FBf and FNP are pairwise disjoint and together hold exactly the patient list. */
  lemma MaternalListsPartition(patientList: seq<int>, pregnant: set<int>, breastfeeding: set<int>)
    ensures var r := VlMaternalStatus(patientList, pregnant, breastfeeding);
      (forall x :: !(x in r.fp && x in r.fbf) && !(x in r.fp && x in r.fnp) && !(x in r.fbf && x in r.fnp))
      && (forall x :: x in patientList <==> x in r.fp || x in r.fbf || x in r.fnp)
  {
  }

  /** The maternal status a row is given: FP wins over FBf; neither is nil. */
  function StatusOf(id: int, ms: MaternalLists): (s: Option<MaternalStatus>)
    ensures s == Some(FP) <==> id in ms.fp
    ensures s == Some(FBf) <==> id !in ms.fp && id in ms.fbf
    ensures s == None <==> id !in ms.fp && id !in ms.fbf
  {
    if id in ms.fp then Some(FP) else if id in ms.fbf then Some(FBf) else None
  }

  // ---------------------------------------------------------------- eligibility

  /** A row of `patients_on_art`. */
  datatype PatientRow = PatientRow(
    patientId: int,
    ageGroup: string,
    gender: Option<string>,
    currentRegimen: Option<string>,
    artStartDate: Option<Date>,
    defaulterDate: Option<Date>,
    state: Option<string>,
    outcomeDate: Option<Date>,
    vlOrderDate: Option<Date>,
    diffInMonths: int,
    maternalStatus: Option<MaternalStatus>)

  /** Every date a row carries is a real calendar date. */
  predicate ValidRow(p: PatientRow) {
    (p.artStartDate.Some? ==> Valid(p.artStartDate.value))
    && (p.defaulterDate.Some? ==> Valid(p.defaulterDate.value))
    && (p.outcomeDate.Some? ==> Valid(p.outcomeDate.value))
    && (p.vlOrderDate.Some? ==> Valid(p.vlOrderDate.value))
  }

  predicate OnArt(p: PatientRow) {
    p.state == Some("On antiretrovirals")
  }

  /** `current_regimen.to_s`. */
  function RegimenText(p: PatientRow): string {
    match p.currentRegimen case Some(s) => s case None => ""
  }

  /** The closed form of the lookback length computed step by step in `remove_adverse_outcome_patient?`. */
  function LookbackMonths(p: PatientRow): int {
    if p.maternalStatus == Some(FP) || p.maternalStatus == Some(FBf) || ContainsIgnoreCase(RegimenText(p), "P") || (p.diffInMonths < 12 && p.vlOrderDate.None?)
    then 6 else 12
  }

  /** The VL order date lies in the reporting period or in the 12 months up to its end. */
  predicate RecentOrder(p: PatientRow, startDate: Date, endDate: Date)
    requires Valid(endDate)
  {
    p.vlOrderDate.Some?
    && (Within(p.vlOrderDate.value, startDate, endDate) || Within(p.vlOrderDate.value, AddMonths(endDate, -12), endDate))
  }

  /**
   * The verdict of `remove_adverse_outcome_patient?`: Ok(true) removes the
   * patient, Raised stands for the NoMethodError of `nil.to_date`.
   */
  function AdverseOutcome(p: PatientRow, startDate: Date, endDate: Date): Result<bool>
    requires Valid(endDate) && ValidRow(p)
  {
    if OnArt(p) || RecentOrder(p, startDate, endDate) then Ok(false)
    else
      var last := if p.vlOrderDate.Some? then p.vlOrderDate else p.artStartDate;
      if last.None? then Raised("NoMethodError: undefined method 'to_date' for nil")
      else if p.state != Some("Defaulted") && p.outcomeDate.None? then Raised("NoMethodError: undefined method 'to_date' for nil")
      else
        var compareTo := if p.state == Some("Defaulted") then endDate else p.outcomeDate.value;
        Ok(!Before(AddMonths(last.value, LookbackMonths(p)), compareTo))
  }

  predicate StaleDefaulter(p: PatientRow, endDate: Date)
    requires Valid(endDate)
  {
    p.defaulterDate.Some? && Before(p.defaulterDate.value, AddMonths(endDate, -12))
  }

  predicate StartedTooRecently(p: PatientRow, endDate: Date)
    requires Valid(endDate)
  {
    p.artStartDate.Some? && Before(AddMonths(endDate, -6), p.artStartDate.value)
  }

  /** The ordered exclusion chain of `process_client_eligibility`: Ok(true) means the patient is due. */
  function Eligibility(p: PatientRow, startDate: Date, endDate: Date): Result<bool>
    requires Valid(endDate) && ValidRow(p)
  {
    if StaleDefaulter(p, endDate) || p.artStartDate.None? || StartedTooRecently(p, endDate) then Ok(false)
    else match AdverseOutcome(p, startDate, endDate)
      case Raised(m) => Raised(m)
      case Ok(remove) => Ok(!remove)
  }

  /** The patients never added to the due list, whatever else their row holds. */
  lemma NeverDue(p: PatientRow, startDate: Date, endDate: Date)
    requires Valid(endDate) && ValidRow(p)
    requires StaleDefaulter(p, endDate) || p.artStartDate.None? || StartedTooRecently(p, endDate)
    ensures Eligibility(p, startDate, endDate) == Ok(false)
  {
  }

  /** The row with its maternal status set; its dates are untouched. */
  function WithStatus(p: PatientRow, ms: MaternalLists): (r: PatientRow)
    ensures ValidRow(p) ==> ValidRow(r)
  {
    p.(maternalStatus := StatusOf(p.patientId, ms))
  }

  /** An eligibility check raises for some row, once the row has its maternal status. */
  predicate SomeRowRaises(rows: seq<PatientRow>, ms: MaternalLists, startDate: Date, endDate: Date)
    requires Valid(endDate) && forall i :: 0 <= i < |rows| ==> ValidRow(rows[i])
  {
    exists i :: 0 <= i < |rows| && Eligibility(WithStatus(rows[i], ms), startDate, endDate).Raised?
  }

  /** The reference due list: every row, with its maternal status, whose eligibility chain says due, in row order. */
  function EligibleRows(rows: seq<PatientRow>, ms: MaternalLists, startDate: Date, endDate: Date): (r: seq<PatientRow>)
    requires Valid(endDate) && forall i :: 0 <= i < |rows| ==> ValidRow(rows[i])
    ensures |r| <= |rows|
    ensures forall i :: 0 <= i < |r| ==> ValidRow(r[i]) && Eligibility(r[i], startDate, endDate) == Ok(true)
    decreases |rows|
  {
    if |rows| == 0 then []
    else
      assert forall i :: 0 <= i < |rows| - 1 ==> rows[1..][i] == rows[i + 1];
      var row := WithStatus(rows[0], ms);
      assert ValidRow(rows[0]);
      (if Eligibility(row, startDate, endDate) == Ok(true) then [row] else []) + EligibleRows(rows[1..], ms, startDate, endDate)
  }

  /** A row is on the reference due list exactly when it is an input row, with its status, that the chain finds due. */
  lemma {:induction false} EligibleRowsMembers(rows: seq<PatientRow>, ms: MaternalLists, startDate: Date, endDate: Date)
    requires Valid(endDate) && forall i :: 0 <= i < |rows| ==> ValidRow(rows[i])
    ensures forall x :: (x in EligibleRows(rows, ms, startDate, endDate)
      <==> exists i :: 0 <= i < |rows| && x == WithStatus(rows[i], ms) && Eligibility(x, startDate, endDate) == Ok(true))
    decreases |rows|
  {
    if |rows| > 0 {
      var tail := rows[1..];
      assert forall i :: 0 <= i < |tail| ==> tail[i] == rows[i + 1];
      EligibleRowsMembers(tail, ms, startDate, endDate);
      assert ValidRow(rows[0]);
      forall x | x in EligibleRows(rows, ms, startDate, endDate)
        ensures exists i :: 0 <= i < |rows| && x == WithStatus(rows[i], ms) && Eligibility(x, startDate, endDate) == Ok(true)
      {
        if x in EligibleRows(tail, ms, startDate, endDate) {
          var j :| 0 <= j < |tail| && x == WithStatus(tail[j], ms) && Eligibility(x, startDate, endDate) == Ok(true);
          assert x == WithStatus(rows[j + 1], ms);
        } else {
          assert x == WithStatus(rows[0], ms);
        }
      }
      forall x | exists i :: 0 <= i < |rows| && x == WithStatus(rows[i], ms) && Eligibility(x, startDate, endDate) == Ok(true)
        ensures x in EligibleRows(rows, ms, startDate, endDate)
      {
        var i :| 0 <= i < |rows| && x == WithStatus(rows[i], ms) && Eligibility(x, startDate, endDate) == Ok(true);
        if i > 0 {
          assert x == WithStatus(tail[i - 1], ms);
        }
      }
    }
  }

  /** The reference due list grows at the back with the last row's verdict. */
  lemma {:induction false} EligibleRowsSnoc(rows: seq<PatientRow>, ms: MaternalLists, startDate: Date, endDate: Date)
    requires Valid(endDate) && forall i :: 0 <= i < |rows| ==> ValidRow(rows[i])
    requires |rows| > 0
    ensures ValidRow(WithStatus(rows[|rows| - 1], ms))
    ensures EligibleRows(rows, ms, startDate, endDate)
      == EligibleRows(rows[..|rows| - 1], ms, startDate, endDate)
         + (if Eligibility(WithStatus(rows[|rows| - 1], ms), startDate, endDate) == Ok(true) then [WithStatus(rows[|rows| - 1], ms)] else [])
    decreases |rows|
  {
    assert ValidRow(rows[|rows| - 1]);
    if |rows| == 1 {
      assert rows[..0] == [] && rows[1..] == [];
    } else {
      var tail := rows[1..];
      assert forall i :: 0 <= i < |tail| ==> tail[i] == rows[i + 1];
      EligibleRowsSnoc(tail, ms, startDate, endDate);
      assert tail[..|tail| - 1] == rows[..|rows| - 1][1..];
      assert rows[..|rows| - 1][0] == rows[0];
      assert tail[|tail| - 1] == rows[|rows| - 1];
    }
  }

  lemma SomeRowRaisesSnoc(rows: seq<PatientRow>, ms: MaternalLists, startDate: Date, endDate: Date)
    requires Valid(endDate) && forall i :: 0 <= i < |rows| ==> ValidRow(rows[i])
    requires |rows| > 0
    ensures SomeRowRaises(rows, ms, startDate, endDate)
      <==> SomeRowRaises(rows[..|rows| - 1], ms, startDate, endDate)
           || Eligibility(WithStatus(rows[|rows| - 1], ms), startDate, endDate).Raised?
  {
    var front := rows[..|rows| - 1];
    assert forall i :: 0 <= i < |front| ==> front[i] == rows[i];
    assert ValidRow(rows[|rows| - 1]);
  }

  /**
   * The clients the sequential loop of `process_due_people` collects, each
   * with its maternal status set; the first row that raises aborts the loop.
   */
  function DueClients(rows: seq<PatientRow>, ms: MaternalLists, startDate: Date, endDate: Date): (r: Result<seq<PatientRow>>)
    requires Valid(endDate) && forall i :: 0 <= i < |rows| ==> ValidRow(rows[i])
    ensures r.Raised? <==> SomeRowRaises(rows, ms, startDate, endDate)
    ensures r.Ok? ==> r.value == EligibleRows(rows, ms, startDate, endDate)
    decreases |rows|
  {
    if |rows| == 0 then Ok([])
    else
      var front := rows[..|rows| - 1];
      assert forall i :: 0 <= i < |front| ==> front[i] == rows[i];
      EligibleRowsSnoc(rows, ms, startDate, endDate);
      SomeRowRaisesSnoc(rows, ms, startDate, endDate);
      var row := WithStatus(rows[|rows| - 1], ms);
      var kept := DueClients(front, ms, startDate, endDate);
      if kept.Raised? then kept
      else
        var due := Eligibility(row, startDate, endDate);
        if due.Raised? then Raised(due.reason)
        else Ok(if due.value then kept.value + [row] else kept.value)
  }

  /** The women among the rows (`patient_id if gender == 'F'`, compacted). */
  function Females(rows: seq<PatientRow>): (r: seq<int>)
    ensures forall x :: x in r <==> exists i :: 0 <= i < |rows| && rows[i].gender == Some("F") && rows[i].patientId == x
    decreases |rows|
  {
    if |rows| == 0 then []
    else
      var rest := Females(rows[1..]);
      assert forall i :: 1 <= i < |rows| ==> rows[i] == rows[1..][i - 1];
      assert forall x :: x in rest <==> exists i :: 1 <= i < |rows| && rows[i].gender == Some("F") && rows[i].patientId == x by {
        forall x | x in rest ensures exists i :: 1 <= i < |rows| && rows[i].gender == Some("F") && rows[i].patientId == x {
          var j :| 0 <= j < |rows[1..]| && rows[1..][j].gender == Some("F") && rows[1..][j].patientId == x;
          assert rows[j + 1] == rows[1..][j];
        }
      }
      if rows[0].gender == Some("F") then [rows[0].patientId] + rest else rest
  }

  // ---------------------------------------------------------------- report shape

  datatype Gender = F | M

  /** `gender.to_sym` used as a key of the two-gender hash; anything but F or M has no cell. */
  function GenderKey(g: Option<string>): (r: Option<Gender>)
    ensures r == Some(F) <==> g == Some("F")
    ensures r == Some(M) <==> g == Some("M")
  {
    if g == Some("F") then Some(F) else if g == Some("M") then Some(M) else None
  }

  datatype ReasonLists = ReasonLists(routine: seq<int>, targeted: seq<int>)

  datatype Cell = Cell(
    dueForVl: seq<int>,
    drawn: ReasonLists,
    highVl: ReasonLists,
    lowVl: ReasonLists,
    txCurr: Option<seq<int>>)

  datatype GenderCells = GenderCells(female: Cell, male: Cell)

  /** The report: age group -> gender -> lists of patient ids. */
  type Report = map<string, GenderCells>

  function EmptyCell(): Cell {
    Cell([], ReasonLists([], []), ReasonLists([], []), ReasonLists([], []), None)
  }

  function CellOf(gc: GenderCells, g: Gender): Cell {
    match g case F => gc.female case M => gc.male
  }

  function WithCell(gc: GenderCells, g: Gender, c: Cell): (r: GenderCells)
    ensures CellOf(r, g) == c
    ensures forall h :: h != g ==> CellOf(r, h) == CellOf(gc, h)
  {
    match g case F => gc.(female := c) case M => gc.(male := c)
  }

  /** `init_report` over a list of age groups: one F and one M cell per group, all lists empty. */
  function InitReportFor(groups: seq<string>): (r: Report)
    ensures r.Keys == set g | g in groups
    ensures forall g :: g in r ==> r[g] == GenderCells(EmptyCell(), EmptyCell())
    decreases |groups|
  {
    if |groups| == 0 then map[]
    else InitReportFor(groups[..|groups| - 1])[groups[|groups| - 1] := GenderCells(EmptyCell(), EmptyCell())]
  }

  function AgeGroupKeys(): set<string> {
    set g | g in PepfarUtils.PepfarAgeGroups()
  }

  /** `init_report`: one F and one M cell per PEPFAR age group, all lists empty. */
  function InitReport(): (r: Report)
    ensures r.Keys == AgeGroupKeys()
    ensures forall g :: g in r ==> r[g] == GenderCells(EmptyCell(), EmptyCell())
  {
    InitReportFor(PepfarUtils.PepfarAgeGroups())
  }

  // ---------------------------------------------------------------- tallies

  datatype Measure = Due | Drawn | Low | High

  function CellCount(c: Cell, m: Measure): nat {
    match m
    case Due => |c.dueForVl|
    case Drawn => |c.drawn.routine| + |c.drawn.targeted|
    case Low => |c.lowVl.routine| + |c.lowVl.targeted|
    case High => |c.highVl.routine| + |c.highVl.targeted|
  }

  function GenderCount(gc: GenderCells, m: Measure): nat {
    CellCount(gc.female, m) + CellCount(gc.male, m)
  }

  /** Number of entries of one kind over the cells of the listed age groups. */
  function Tally(r: Report, keys: seq<string>, m: Measure): nat
    decreases |keys|
  {
    if |keys| == 0 then 0
    else (if keys[0] in r then GenderCount(r[keys[0]], m) else 0) + Tally(r, keys[1..], m)
  }

  /** Replacing one age group's cells changes the tally by that group's difference only. */
  lemma {:induction false} TallyUpdate(r: Report, keys: seq<string>, ag: string, v: GenderCells, m: Measure)
    requires ag in r && NoDuplicates(keys) && ag in keys
    ensures Tally(r[ag := v], keys, m) == Tally(r, keys, m) - GenderCount(r[ag], m) + GenderCount(v, m)
    decreases |keys|
  {
    if keys[0] == ag {
      assert ag !in keys[1..];
      TallyOther(r, keys[1..], ag, v, m);
    } else {
      TallyUpdate(r, keys[1..], ag, v, m);
    }
  }

  lemma {:induction false} TallyOther(r: Report, keys: seq<string>, ag: string, v: GenderCells, m: Measure)
    requires ag !in keys
    ensures Tally(r[ag := v], keys, m) == Tally(r, keys, m)
    decreases |keys|
  {
    if |keys| > 0 {
      TallyOther(r, keys[1..], ag, v, m);
    }
  }

  // ---------------------------------------------------------------- due_for_vl

  /** Every client's age group is a key of the report and its gender is F or M. */
  predicate ClientsHaveCells(keys: set<string>, clients: seq<PatientRow>) {
    forall i :: 0 <= i < |clients| ==> clients[i].ageGroup in keys && GenderKey(clients[i].gender).Some?
  }

  lemma ClientsHaveCellsSnoc(keys: set<string>, front: seq<PatientRow>, p: PatientRow)
    ensures ClientsHaveCells(keys, front + [p]) <==> ClientsHaveCells(keys, front) && p.ageGroup in keys && GenderKey(p.gender).Some?
  {
    var s := front + [p];
    assert forall i :: 0 <= i < |front| ==> s[i] == front[i];
    assert s[|front|] == p;
  }

  /** The reference due list of one cell: the ids of the clients of that age group and gender, in client order. */
  function DueIds(clients: seq<PatientRow>, ag: string, h: Gender): seq<int>
    decreases |clients|
  {
    if |clients| == 0 then []
    else
      var p := clients[|clients| - 1];
      DueIds(clients[..|clients| - 1], ag, h) + (if p.ageGroup == ag && GenderKey(p.gender) == Some(h) then [p.patientId] else [])
  }

  /**
   * `report[age_group][gender][:due_for_vl] << patient_id`; a missing cell
   * raises. The patient's id goes at the end of its own cell's due list and
   * every other list of the report is unchanged.
   */
  function AppendDue(r: Report, p: PatientRow): (res: Result<Report>)
    ensures res.Ok? ==> res.value.Keys == r.Keys
    ensures res.Ok? <==> p.ageGroup in r && GenderKey(p.gender).Some?
  {
    match GenderKey(p.gender)
    case None => Raised("NoMethodError: undefined method '[]' for nil")
    case Some(g) =>
      if p.ageGroup !in r then Raised("NoMethodError: undefined method '[]' for nil")
      else
        var c := CellOf(r[p.ageGroup], g);
        Ok(r[p.ageGroup := WithCell(r[p.ageGroup], g, c.(dueForVl := c.dueForVl + [p.patientId]))])
  }

  /**
   * What AppendDue does to one cell: the patient's id goes at the end of the
   * due list of its own cell, and every other list of every cell is unchanged.
   */
  lemma AppendDueCell(r: Report, p: PatientRow, ag: string, h: Gender)
    requires AppendDue(r, p).Ok? && ag in r
    ensures CellOf(AppendDue(r, p).value[ag], h)
      == if ag == p.ageGroup && GenderKey(p.gender) == Some(h)
         then CellOf(r[ag], h).(dueForVl := CellOf(r[ag], h).dueForVl + [p.patientId])
         else CellOf(r[ag], h)
  {
  }

  /** The due_for_vl loop of `build_report`. */
  function WithDue(r: Report, clients: seq<PatientRow>): (res: Result<Report>)
    ensures res.Ok? ==> res.value.Keys == r.Keys
    decreases |clients|
  {
    if |clients| == 0 then Ok(r)
    else
      match WithDue(r, clients[..|clients| - 1])
      case Raised(m) => Raised(m)
      case Ok(r1) => AppendDue(r1, clients[|clients| - 1])
  }

  /** The due loop raises exactly when some client has no cell. */
  lemma {:induction false} WithDueOk(r: Report, clients: seq<PatientRow>)
    ensures WithDue(r, clients).Ok? <==> ClientsHaveCells(r.Keys, clients)
    decreases |clients|
  {
    if |clients| > 0 {
      var front := clients[..|clients| - 1];
      var p := clients[|clients| - 1];
      WithDueOk(r, front);
      assert clients == front + [p];
      ClientsHaveCellsSnoc(r.Keys, front, p);
      if WithDue(r, front).Ok? {
        assert WithDue(r, clients) == AppendDue(WithDue(r, front).value, p);
      }
    }
  }

  /**
   * After the due loop, each cell's due list is its old list followed by the
   * ids of the clients of its age group and gender, in client order; the
   * cell's other lists are unchanged.
   */
  lemma {:induction false} DuePlacement(r: Report, clients: seq<PatientRow>, ag: string, h: Gender)
    requires ag in r && WithDue(r, clients).Ok?
    ensures CellOf(WithDue(r, clients).value[ag], h)
      == CellOf(r[ag], h).(dueForVl := CellOf(r[ag], h).dueForVl + DueIds(clients, ag, h))
    decreases |clients|
  {
    if |clients| == 0 {
      assert CellOf(r[ag], h).dueForVl + [] == CellOf(r[ag], h).dueForVl;
    } else {
      var front := clients[..|clients| - 1];
      var p := clients[|clients| - 1];
      DuePlacement(r, front, ag, h);
      var r1 := WithDue(r, front).value;
      assert ag in r1;
      assert WithDue(r, clients) == AppendDue(r1, p);
      AppendDueCell(r1, p, ag, h);
      var old_due := CellOf(r[ag], h).dueForVl;
      var c1 := CellOf(r1[ag], h);
      var c2 := CellOf(WithDue(r, clients).value[ag], h);
      if p.ageGroup == ag && GenderKey(p.gender) == Some(h) {
        assert c2 == c1.(dueForVl := c1.dueForVl + [p.patientId]);
        assert DueIds(clients, ag, h) == DueIds(front, ag, h) + [p.patientId];
        assert old_due + DueIds(front, ag, h) + [p.patientId] == old_due + DueIds(clients, ag, h);
      } else {
        assert c2 == c1;
        assert DueIds(clients, ag, h) == DueIds(front, ag, h);
      }
    }
  }

  /** Each client adds exactly one due_for_vl entry, and nothing else changes in the tallies. */
  lemma {:induction false} DueTally(r: Report, clients: seq<PatientRow>, keys: seq<string>, m: Measure)
    requires NoDuplicates(keys) && r.Keys == set k | k in keys
    requires WithDue(r, clients).Ok?
    ensures Tally(WithDue(r, clients).value, keys, m) == Tally(r, keys, m) + (if m == Due then |clients| else 0)
    decreases |clients|
  {
    if |clients| > 0 {
      var front := clients[..|clients| - 1];
      var p := clients[|clients| - 1];
      DueTally(r, front, keys, m);
      var r1 := WithDue(r, front).value;
      var g := GenderKey(p.gender).value;
      var c := CellOf(r1[p.ageGroup], g);
      var v := WithCell(r1[p.ageGroup], g, c.(dueForVl := c.dueForVl + [p.patientId]));
      TallyUpdate(r1, keys, p.ageGroup, v, m);
      assert GenderCount(v, m) == GenderCount(r1[p.ageGroup], m) + (if m == Due then 1 else 0) by {
        match g
        case F =>
        case M =>
      }
    }
  }

  // ---------------------------------------------------------------- tests

  /** A row of `find_patients_with_viral_load`. */
  datatype TestRow = TestRow(
    patientId: int,
    ageGroup: string,
    gender: Option<string>,
    reasonForTest: Option<string>,
    resultValue: Option<string>)

  datatype Reason = Routine | Targeted

  /** Reason for test: Routine when it mentions "routine" in any case, or when missing. */
  function ReasonOf(reason: Option<string>): (r: Reason)
    ensures reason.None? ==> r == Routine
    ensures reason.Some? ==> (r == Routine <==> ContainsIgnoreCase(reason.value, "Routine"))
  {
    if ContainsIgnoreCase(match reason case Some(s) => s case None => "Routine", "Routine") then Routine else Targeted
  }

  datatype Band = LowVl | HighVl

  /** The result band: none without a result; low for LDL (any case) or a value below 1000 under `to_i`. */
  function BandOf(result: Option<string>): (b: Option<Band>)
    ensures result.None? <==> b.None?
    ensures result.Some? ==> (b == Some(LowVl) <==> EqualsIgnoreCase(result.value, "LDL") || ToI(result.value) < 1000)
  {
    match result
    case None => None
    case Some(v) => if EqualsIgnoreCase(v, "LDL") then Some(LowVl) else if ToI(v) < 1000 then Some(LowVl) else Some(HighVl)
  }

  function AddTo(l: ReasonLists, reason: Reason, id: int): ReasonLists {
    match reason
    case Routine => l.(routine := l.routine + [id])
    case Targeted => l.(targeted := l.targeted + [id])
  }

  function ReasonList(l: ReasonLists, rs: Reason): seq<int> {
    match rs case Routine => l.routine case Targeted => l.targeted
  }

  /** One list of a cell: due_for_vl (for either reason), or the reason's list of drawn, low_vl or high_vl. */
  function ListOf(c: Cell, m: Measure, rs: Reason): seq<int> {
    match m
    case Due => c.dueForVl
    case Drawn => ReasonList(c.drawn, rs)
    case Low => ReasonList(c.lowVl, rs)
    case High => ReasonList(c.highVl, rs)
  }

  /**
   * Whether a test's id is filed under a list and reason of its cell: drawn
   * under its own reason, and low or high as well when its band says so;
   * never due_for_vl.
   */
  predicate Lands(t: TestRow, m: Measure, rs: Reason) {
    ReasonOf(t.reasonForTest) == rs
    && match m
       case Due => false
       case Drawn => true
       case Low => BandOf(t.resultValue) == Some(LowVl)
       case High => BandOf(t.resultValue) == Some(HighVl)
  }

  /**
   * One row of `load_patient_tests_into_report`: the id goes at the end of
   * exactly the lists it lands in; every other list and tx_curr are unchanged.
   */
  function RecordTest(c: Cell, t: TestRow): (r: Cell)
    ensures r.dueForVl == c.dueForVl && r.txCurr == c.txCurr
    ensures r.drawn == AddTo(c.drawn, ReasonOf(t.reasonForTest), t.patientId)
    ensures r.lowVl == if BandOf(t.resultValue) == Some(LowVl) then AddTo(c.lowVl, ReasonOf(t.reasonForTest), t.patientId) else c.lowVl
    ensures r.highVl == if BandOf(t.resultValue) == Some(HighVl) then AddTo(c.highVl, ReasonOf(t.reasonForTest), t.patientId) else c.highVl
  {
    var reason := ReasonOf(t.reasonForTest);
    var c1 := c.(drawn := AddTo(c.drawn, reason, t.patientId));
    match BandOf(t.resultValue)
    case None => c1
    case Some(LowVl) => c1.(lowVl := AddTo(c1.lowVl, reason, t.patientId))
    case Some(HighVl) => c1.(highVl := AddTo(c1.highVl, reason, t.patientId))
  }

  /** Each list of the cell gains the test's id exactly when the test lands there. */
  lemma RecordTestLists(c: Cell, t: TestRow, m: Measure, rs: Reason)
    ensures ListOf(RecordTest(c, t), m, rs) == ListOf(c, m, rs) + (if Lands(t, m, rs) then [t.patientId] else [])
  {
    if !Lands(t, m, rs) {
      assert ListOf(c, m, rs) + [] == ListOf(c, m, rs);
    }
  }

  lemma RecordTestCounts(c: Cell, t: TestRow)
    ensures CellCount(RecordTest(c, t), Drawn) == CellCount(c, Drawn) + 1
    ensures CellCount(RecordTest(c, t), Due) == CellCount(c, Due)
    ensures CellCount(RecordTest(c, t), Low) == CellCount(c, Low) + (if BandOf(t.resultValue) == Some(LowVl) then 1 else 0)
    ensures CellCount(RecordTest(c, t), High) == CellCount(c, High) + (if BandOf(t.resultValue) == Some(HighVl) then 1 else 0)
  {
  }

  /** Every test's age group is a key of the report and its gender is F or M. */
  predicate TestsHaveCells(keys: set<string>, tests: seq<TestRow>) {
    forall i :: 0 <= i < |tests| ==> tests[i].ageGroup in keys && GenderKey(tests[i].gender).Some?
  }

  /** One test recorded in the report; a missing cell raises. */
  function AppendTest(r: Report, t: TestRow): (res: Result<Report>)
    ensures res.Ok? ==> res.value.Keys == r.Keys
    ensures res.Ok? <==> t.ageGroup in r && GenderKey(t.gender).Some?
  {
    match GenderKey(t.gender)
    case None => Raised("NoMethodError: undefined method '[]' for nil")
    case Some(g) =>
      if t.ageGroup !in r then Raised("NoMethodError: undefined method '[]' for nil")
      else Ok(r[t.ageGroup := WithCell(r[t.ageGroup], g, RecordTest(CellOf(r[t.ageGroup], g), t))])
  }

  /** A recorded test changes its own cell as RecordTest says and leaves every other cell unchanged. */
  lemma AppendTestFrame(r: Report, t: TestRow, ag: string, h: Gender)
    requires ag in r && AppendTest(r, t).Ok?
    ensures CellOf(AppendTest(r, t).value[ag], h)
      == if ag == t.ageGroup && GenderKey(t.gender) == Some(h) then RecordTest(CellOf(r[ag], h), t) else CellOf(r[ag], h)
  {
  }

  /** The loop of `load_patient_tests_into_report`. */
  function WithTests(r: Report, tests: seq<TestRow>): (res: Result<Report>)
    ensures res.Ok? ==> res.value.Keys == r.Keys
    decreases |tests|
  {
    if |tests| == 0 then Ok(r)
    else
      match WithTests(r, tests[..|tests| - 1])
      case Raised(m) => Raised(m)
      case Ok(r1) => AppendTest(r1, tests[|tests| - 1])
  }

  lemma TestsHaveCellsSnoc(keys: set<string>, tests: seq<TestRow>)
    requires |tests| > 0
    ensures TestsHaveCells(keys, tests)
      <==> TestsHaveCells(keys, tests[..|tests| - 1]) && tests[|tests| - 1].ageGroup in keys && GenderKey(tests[|tests| - 1].gender).Some?
  {
    var front := tests[..|tests| - 1];
    assert forall i :: 0 <= i < |front| ==> front[i] == tests[i];
  }

  /** The test loop raises exactly when some test has no cell. */
  lemma {:induction false} WithTestsOk(r: Report, tests: seq<TestRow>)
    ensures WithTests(r, tests).Ok? <==> TestsHaveCells(r.Keys, tests)
    decreases |tests|
  {
    if |tests| > 0 {
      var front := tests[..|tests| - 1];
      var t := tests[|tests| - 1];
      WithTestsOk(r, front);
      TestsHaveCellsSnoc(r.Keys, tests);
      if WithTests(r, front).Ok? {
        var r1 := WithTests(r, front).value;
        assert r1.Keys == r.Keys;
        assert WithTests(r, tests).Ok? <==> AppendTest(r1, t).Ok?;
      } else {
        assert WithTests(r, tests).Raised?;
      }
    }
  }

  /** The reference for one list of one cell: the ids of the tests of that cell that land in it, in test order. */
  function FiledIds(tests: seq<TestRow>, ag: string, h: Gender, m: Measure, rs: Reason): seq<int>
    decreases |tests|
  {
    if |tests| == 0 then []
    else
      var t := tests[|tests| - 1];
      FiledIds(tests[..|tests| - 1], ag, h, m, rs)
        + (if t.ageGroup == ag && GenderKey(t.gender) == Some(h) && Lands(t, m, rs) then [t.patientId] else [])
  }

  /** One recorded test adds its id to exactly the lists of its own cell that it lands in. */
  lemma TestStep(r: Report, t: TestRow, ag: string, h: Gender, m: Measure, rs: Reason)
    requires ag in r && AppendTest(r, t).Ok?
    ensures ListOf(CellOf(AppendTest(r, t).value[ag], h), m, rs)
      == ListOf(CellOf(r[ag], h), m, rs)
         + (if t.ageGroup == ag && GenderKey(t.gender) == Some(h) && Lands(t, m, rs) then [t.patientId] else [])
    ensures CellOf(AppendTest(r, t).value[ag], h).txCurr == CellOf(r[ag], h).txCurr
  {
    AppendTestFrame(r, t, ag, h);
    RecordTestLists(CellOf(r[ag], h), t, m, rs);
    if !(t.ageGroup == ag && GenderKey(t.gender) == Some(h)) {
      assert ListOf(CellOf(r[ag], h), m, rs) + [] == ListOf(CellOf(r[ag], h), m, rs);
    }
  }

  /**
   * After the test loop, each list of each cell is its old list followed by
   * the ids of the tests of that age group and gender that land in it, in
   * test order; due_for_vl and tx_curr are unchanged.
   */
  lemma {:induction false} TestPlacement(r: Report, tests: seq<TestRow>, ag: string, h: Gender, m: Measure, rs: Reason)
    requires ag in r && WithTests(r, tests).Ok?
    ensures ListOf(CellOf(WithTests(r, tests).value[ag], h), m, rs) == ListOf(CellOf(r[ag], h), m, rs) + FiledIds(tests, ag, h, m, rs)
    ensures CellOf(WithTests(r, tests).value[ag], h).txCurr == CellOf(r[ag], h).txCurr
    decreases |tests|
  {
    if |tests| == 0 {
      assert ListOf(CellOf(r[ag], h), m, rs) + [] == ListOf(CellOf(r[ag], h), m, rs);
    } else {
      var front := tests[..|tests| - 1];
      var t := tests[|tests| - 1];
      TestPlacement(r, front, ag, h, m, rs);
      var r1 := WithTests(r, front).value;
      assert ag in r1;
      assert WithTests(r, tests) == AppendTest(r1, t);
      TestStep(r1, t, ag, h, m, rs);
    }
  }

  function CountBand(tests: seq<TestRow>, b: Band): nat
    decreases |tests|
  {
    if |tests| == 0 then 0
    else CountBand(tests[..|tests| - 1], b) + (if BandOf(tests[|tests| - 1].resultValue) == Some(b) then 1 else 0)
  }

  function CountWithResult(tests: seq<TestRow>): nat
    decreases |tests|
  {
    if |tests| == 0 then 0
    else CountWithResult(tests[..|tests| - 1]) + (if tests[|tests| - 1].resultValue.Some? then 1 else 0)
  }

  lemma {:induction false} BandsCoverResults(tests: seq<TestRow>)
    ensures CountBand(tests, LowVl) + CountBand(tests, HighVl) == CountWithResult(tests)
    decreases |tests|
  {
    if |tests| > 0 {
      BandsCoverResults(tests[..|tests| - 1]);
    }
  }

  /**
   * Every tested patient is appended to exactly one drawn list; one low or
   * high entry is added per row with a result and none per row without.
   */
  lemma {:induction false} TestTally(r: Report, tests: seq<TestRow>, keys: seq<string>)
    requires NoDuplicates(keys) && r.Keys == set k | k in keys
    requires WithTests(r, tests).Ok?
    ensures Tally(WithTests(r, tests).value, keys, Drawn) == Tally(r, keys, Drawn) + |tests|
    ensures Tally(WithTests(r, tests).value, keys, Due) == Tally(r, keys, Due)
    ensures Tally(WithTests(r, tests).value, keys, Low) == Tally(r, keys, Low) + CountBand(tests, LowVl)
    ensures Tally(WithTests(r, tests).value, keys, High) == Tally(r, keys, High) + CountBand(tests, HighVl)
    decreases |tests|
  {
    if |tests| > 0 {
      var front := tests[..|tests| - 1];
      var t := tests[|tests| - 1];
      TestTally(r, front, keys);
      var r1 := WithTests(r, front).value;
      var g := GenderKey(t.gender).value;
      var v := WithCell(r1[t.ageGroup], g, RecordTest(CellOf(r1[t.ageGroup], g), t));
      RecordTestCounts(CellOf(r1[t.ageGroup], g), t);
      forall m: Measure
        ensures Tally(r1[t.ageGroup := v], keys, m) == Tally(r1, keys, m) - GenderCount(r1[t.ageGroup], m) + GenderCount(v, m)
      {
        TallyUpdate(r1, keys, t.ageGroup, v, m);
      }
      match g
      case F =>
      case M =>
    }
  }

  lemma ToI999()
    ensures ToI("999") == 999
  {
    AllDigitsToI("999");
    assert "999"[1..] == "99" && "99"[1..] == "9" && "9"[1..] == "";
    assert RunValue("9", 99) == 999;
    assert RunValue("99", 9) == 999;
  }

  lemma ToI1000()
    ensures ToI("1000") == 1000
  {
    AllDigitsToI("1000");
    assert "1000"[1..] == "000" && "000"[1..] == "00" && "00"[1..] == "0" && "0"[1..] == "";
    assert RunValue("0", 100) == 1000;
    assert RunValue("00", 10) == 1000;
    assert RunValue("000", 1) == 1000;
  }

  lemma DowncaseLdl()
    ensures Downcase("LDL") == "ldl" && Downcase("ldl") == "ldl"
  {
    assert LowerChar('L') == 'l' && LowerChar('D') == 'd';
  }

  /** The banding boundary: 999 is low, 1000 is high, LDL is low in any case, no result has no band. */
  lemma BandBoundary()
    ensures BandOf(Some("999")) == Some(LowVl)
    ensures BandOf(Some("1000")) == Some(HighVl)
    ensures BandOf(Some("LDL")) == Some(LowVl) && BandOf(Some("ldl")) == Some(LowVl)
    ensures BandOf(None) == None
  {
    ToI999();
    ToI1000();
    DowncaseLdl();
    assert Downcase("999")[0] == '9';
    assert |Downcase("1000")| == 4;
  }

  // ---------------------------------------------------------------- tx_curr

  /** A row of the patients alive and on ART. */
  datatype TxCurrRow = TxCurrRow(patientId: int, ageGroup: string, gender: Option<string>)

  /**
   * `populate_tx_curr`: ids of the rows of this age group and gender, in order.
   * A row of the age group with a nil gender raises on `to_sym`.
   */
  function PopulateTxCurr(patients: seq<TxCurrRow>, ageGroup: string, g: Gender): (r: Result<seq<int>>)
    ensures r.Raised? <==> exists i :: 0 <= i < |patients| && patients[i].ageGroup == ageGroup && patients[i].gender.None?
    ensures r.Ok? ==> forall x :: x in r.value <==> exists i :: 0 <= i < |patients| && patients[i].ageGroup == ageGroup && GenderKey(patients[i].gender) == Some(g) && patients[i].patientId == x
    decreases |patients|
  {
    if |patients| == 0 then Ok([])
    else
      var front := PopulateTxCurr(patients[..|patients| - 1], ageGroup, g);
      var p := patients[|patients| - 1];
      assert forall i :: 0 <= i < |patients| - 1 ==> patients[..|patients| - 1][i] == patients[i];
      if front.Raised? then front
      else if p.ageGroup == ageGroup && p.gender.None? then Raised("NoMethodError: undefined method 'to_sym' for nil")
      else if p.ageGroup == ageGroup && GenderKey(p.gender) == Some(g) then Ok(front.value + [p.patientId])
      else front
  }

  /** `report[age_group][gender][:tx_curr] = populate_tx_curr(...)` for one group; raises like populate_tx_curr. */
  function TxCurrCells(gc: GenderCells, patients: seq<TxCurrRow>, ageGroup: string): Result<GenderCells> {
    match PopulateTxCurr(patients, ageGroup, M)
    case Raised(m) => Raised(m)
    case Ok(males) =>
      match PopulateTxCurr(patients, ageGroup, F)
      case Raised(m) => Raised(m)
      case Ok(females) => Ok(GenderCells(gc.female.(txCurr := Some(females)), gc.male.(txCurr := Some(males))))
  }

  predicate TxCurrRaises(patients: seq<TxCurrRow>, groups: set<string>) {
    exists i :: 0 <= i < |patients| && patients[i].ageGroup in groups && patients[i].gender.None?
  }

  /** The cells tx_curr fills: each gender's tx_curr becomes populate_tx_curr's list, and nothing else changes. */
  lemma TxCurrCellsOf(gc: GenderCells, patients: seq<TxCurrRow>, ag: string, v: GenderCells, h: Gender)
    requires TxCurrCells(gc, patients, ag) == Ok(v)
    ensures PopulateTxCurr(patients, ag, h).Ok?
    ensures CellOf(v, h) == CellOf(gc, h).(txCurr := Some(PopulateTxCurr(patients, ag, h).value))
  {
    match h
    case F =>
    case M =>
  }

  /** No test is ever filed under due_for_vl. */
  lemma {:induction false} FiledIdsDue(tests: seq<TestRow>, ag: string, h: Gender, rs: Reason)
    ensures FiledIds(tests, ag, h, Due, rs) == []
    decreases |tests|
  {
    if |tests| > 0 {
      FiledIdsDue(tests[..|tests| - 1], ag, h, rs);
    }
  }

  /**
   * The report built from the skeleton: tx_curr filled, then the due loop,
   * then the test loop, has every list of every cell equal to its reference
   * list and every tx_curr equal to populate_tx_curr's.
   */
  lemma ReportCells(r1: Report, r2: Report, r3: Report, txCurr: seq<TxCurrRow>, clients: seq<PatientRow>, tests: seq<TestRow>)
    requires forall ag :: ag in r1 ==> TxCurrCells(GenderCells(EmptyCell(), EmptyCell()), txCurr, ag) == Ok(r1[ag])
    requires WithDue(r1, clients) == Ok(r2) && WithTests(r2, tests) == Ok(r3)
    ensures forall ag, h, m, rs :: ag in r3 ==>
      ListOf(CellOf(r3[ag], h), m, rs) == (if m == Due then DueIds(clients, ag, h) else FiledIds(tests, ag, h, m, rs))
    ensures forall ag, h :: ag in r3 ==>
      PopulateTxCurr(txCurr, ag, h).Ok? && CellOf(r3[ag], h).txCurr == Some(PopulateTxCurr(txCurr, ag, h).value)
  {
    forall ag, h, m, rs | ag in r3
      ensures ListOf(CellOf(r3[ag], h), m, rs) == (if m == Due then DueIds(clients, ag, h) else FiledIds(tests, ag, h, m, rs))
    {
      OneCell(r1, r2, r3, txCurr, clients, tests, ag, h, m, rs);
    }
    forall ag, h | ag in r3
      ensures PopulateTxCurr(txCurr, ag, h).Ok? && CellOf(r3[ag], h).txCurr == Some(PopulateTxCurr(txCurr, ag, h).value)
    {
      OneCell(r1, r2, r3, txCurr, clients, tests, ag, h, Due, Routine);
    }
  }

  lemma OneCell(r1: Report, r2: Report, r3: Report, txCurr: seq<TxCurrRow>, clients: seq<PatientRow>, tests: seq<TestRow>,
                ag: string, h: Gender, m: Measure, rs: Reason)
    requires ag in r1 && TxCurrCells(GenderCells(EmptyCell(), EmptyCell()), txCurr, ag) == Ok(r1[ag])
    requires WithDue(r1, clients) == Ok(r2) && WithTests(r2, tests) == Ok(r3)
    ensures ag in r3
    ensures ListOf(CellOf(r3[ag], h), m, rs) == (if m == Due then DueIds(clients, ag, h) else FiledIds(tests, ag, h, m, rs))
    ensures PopulateTxCurr(txCurr, ag, h).Ok? && CellOf(r3[ag], h).txCurr == Some(PopulateTxCurr(txCurr, ag, h).value)
  {
    TxCurrCellsOf(GenderCells(EmptyCell(), EmptyCell()), txCurr, ag, r1[ag], h);
    var c1 := CellOf(r1[ag], h);
    assert c1 == EmptyCell().(txCurr := Some(PopulateTxCurr(txCurr, ag, h).value));
    assert ListOf(c1, m, rs) == [];
    DuePlacement(r1, clients, ag, h);
    assert ag in r2;
    var c2 := CellOf(r2[ag], h);
    assert c2.dueForVl == DueIds(clients, ag, h);
    assert m != Due ==> ListOf(c2, m, rs) == [];
    TestPlacement(r2, tests, ag, h, m, rs);
    FiledIdsDue(tests, ag, h, rs);
    var c3 := CellOf(r3[ag], h);
    if m == Due {
      assert ListOf(c3, m, rs) == c2.dueForVl + [];
    } else {
      assert ListOf(c3, m, rs) == [] + FiledIds(tests, ag, h, m, rs);
    }
  }

  // ---------------------------------------------------------------- the report object

  /** How `process_due_people` evaluates the rows: the 'emastercard' type, the parallel branch, or neither. */
  predicate RunsParallelBranch(reportType: Option<string>) {
    IsBlank(reportType) || reportType == Some("poc")
  }

  class ViralLoadCoverageReport {
    const startDate: Date
    const endDate: Date
    const reportType: Option<string>
    var maternalStatus: MaternalLists
    var clients: seq<PatientRow>
    var report: Report

    constructor (startDate: Date, endDate: Date, reportType: Option<string>)
      ensures this.startDate == startDate && this.endDate == endDate && this.reportType == reportType
      ensures maternalStatus == MaternalLists([], [], []) && clients == [] && report == map[]
    {
      this.startDate := startDate;
      this.endDate := endDate;
      this.reportType := reportType;
      maternalStatus := MaternalLists([], [], []);
      clients := [];
      report := map[];
    }

    /**
     * `remove_adverse_outcome_patient?`: false for a patient on ART or with a
     * VL order in the period or the 12 months before its end; otherwise false
     * exactly when the last activity date plus the lookback length is before
     * the comparison date (end date for a defaulter, outcome date otherwise).
     */
    method RemoveAdverseOutcomePatient(patient: PatientRow) returns (remove: Result<bool>)
      requires Valid(endDate) && ValidRow(patient)
      ensures remove == AdverseOutcome(patient, startDate, endDate)
      ensures OnArt(patient) ==> remove == Ok(false)
      ensures RecentOrder(patient, startDate, endDate) ==> remove == Ok(false)
      ensures !OnArt(patient) && !RecentOrder(patient, startDate, endDate) && patient.artStartDate.Some? && patient.state == Some("Defaulted")
        ==> remove == Ok(!Before(AddMonths(if patient.vlOrderDate.Some? then patient.vlOrderDate.value else patient.artStartDate.value, LookbackMonths(patient)), endDate))
    {
      if patient.state == Some("On antiretrovirals") {
        return Ok(false);
      }
      var lastDate := if patient.vlOrderDate.Some? then patient.vlOrderDate else patient.artStartDate;
      if patient.vlOrderDate.Some? && AtOrBefore(startDate, lastDate.value) && AtOrBefore(lastDate.value, endDate) {
        return Ok(false);
      }
      var length := 12;
      if patient.maternalStatus == Some(FP) {
        length := 6;
      }
      if patient.maternalStatus == Some(FBf) {
        length := 6;
      }
      if ContainsIgnoreCase(RegimenText(patient), "P") {
        length := 6;
      }
      if patient.diffInMonths < 12 && patient.vlOrderDate.None? {
        length := 6;
      }
      assert length == LookbackMonths(patient);
      if patient.vlOrderDate.Some? && AtOrBefore(AddMonths(endDate, -12), patient.vlOrderDate.value) && AtOrBefore(patient.vlOrderDate.value, endDate) {
        return Ok(false);
      }
      if lastDate.None? {
        return Raised("NoMethodError: undefined method 'to_date' for nil");
      }
      var compareTo: Date;
      if patient.state == Some("Defaulted") {
        compareTo := endDate;
      } else if patient.outcomeDate.None? {
        return Raised("NoMethodError: undefined method 'to_date' for nil");
      } else {
        compareTo := patient.outcomeDate.value;
      }
      if Before(AddMonths(lastDate.value, length), compareTo) {
        return Ok(false);
      }
      return Ok(true);
    }

    /**
     * `process_client_eligibility`: sets the row's maternal status first,
     * then appends it to the clients unless an exclusion rule applies.
     */
    method ProcessClientEligibility(patient: PatientRow) returns (row: PatientRow, due: Result<bool>)
      requires Valid(endDate) && ValidRow(patient)
      modifies this`clients
      ensures row == WithStatus(patient, maternalStatus)
      ensures due == Eligibility(row, startDate, endDate)
      ensures clients == old(clients) + (if due == Ok(true) then [row] else [])
    {
      row := patient.(maternalStatus := if patient.patientId in maternalStatus.fp then Some(FP)
                                        else if patient.patientId in maternalStatus.fbf then Some(FBf) else None);
      assert row == WithStatus(patient, maternalStatus) && ValidRow(row);
      due := EligibilityChain(row);
      if due == Ok(true) {
        clients := clients + [row];
      }
    }

    /**
     * The early returns of `process_client_eligibility`: a stale defaulter,
     * a missing or too recent ART start, or an adverse outcome keeps the
     * row out; a raise of `remove_adverse_outcome_patient?` propagates.
     */
    method EligibilityChain(row: PatientRow) returns (due: Result<bool>)
      requires Valid(endDate) && ValidRow(row)
      ensures due == Eligibility(row, startDate, endDate)
    {
      if row.defaulterDate.Some? && Before(row.defaulterDate.value, AddMonths(endDate, -12)) {
        NeverDue(row, startDate, endDate);
        return Ok(false);
      }
      if row.artStartDate.None? {
        NeverDue(row, startDate, endDate);
        return Ok(false);
      }
      if Before(AddMonths(endDate, -6), row.artStartDate.value) {
        NeverDue(row, startDate, endDate);
        return Ok(false);
      }
      var remove := RemoveAdverseOutcomePatient(row);
      if remove.Raised? {
        return Raised(remove.reason);
      }
      if remove.value {
        return Ok(false);
      }
      return Ok(true);
    }

    /**
     * `process_due_people`, sequential loop: classify the women, then run the
     * eligibility chain over every row; the parallel branch is taken to
     * collect the same clients, and any other report type collects none.
     */
    method ProcessDuePeople(results: seq<PatientRow>, pregnant: set<int>, breastfeeding: set<int>) returns (ok: bool)
      requires Valid(endDate) && forall i :: 0 <= i < |results| ==> ValidRow(results[i])
      modifies this`clients, this`maternalStatus
      ensures maternalStatus == VlMaternalStatus(Females(results), pregnant, breastfeeding)
      ensures var runs := RunsParallelBranch(reportType) || reportType == Some("emastercard");
        (ok <==> !runs || DueClients(results, maternalStatus, startDate, endDate).Ok?)
        && (ok && runs ==> clients == DueClients(results, maternalStatus, startDate, endDate).value)
        && (!runs ==> clients == [])
    {
      clients := [];
      maternalStatus := VlMaternalStatus(Females(results), pregnant, breastfeeding);
      if !(RunsParallelBranch(reportType) || reportType == Some("emastercard")) {
        return true;
      }
      ok := CollectDueClients(results);
    }

    /** The sequential loop of `process_due_people` over the rows, with the maternal lists already set. */
    method CollectDueClients(results: seq<PatientRow>) returns (ok: bool)
      requires Valid(endDate) && forall i :: 0 <= i < |results| ==> ValidRow(results[i])
      modifies this`clients
      ensures ok <==> DueClients(results, maternalStatus, startDate, endDate).Ok?
      ensures ok ==> clients == DueClients(results, maternalStatus, startDate, endDate).value
    {
      clients := [];
      var i := 0;
      while i < |results|
        invariant 0 <= i <= |results|
        invariant DueClients(results[..i], maternalStatus, startDate, endDate) == Ok(clients)
      {
        DueClientsStep(results, i, maternalStatus);
        ghost var before := clients;
        var row, due := ProcessClientEligibility(results[i]);
        if due.Raised? {
          RaisedPrefix(results, i + 1, maternalStatus);
          return false;
        }
        assert DueClients(results[..i + 1], maternalStatus, startDate, endDate)
          == Ok(if due.value then before + [row] else before);
        assert clients == (if due.value then before + [row] else before);
        i := i + 1;
      }
      assert results[..|results|] == results;
      return true;
    }

    lemma DueClientsStep(rows: seq<PatientRow>, k: nat, ms: MaternalLists)
      requires Valid(endDate) && forall i :: 0 <= i < |rows| ==> ValidRow(rows[i])
      requires k < |rows|
      ensures ValidRow(WithStatus(rows[k], ms))
      ensures DueClients(rows[..k + 1], ms, startDate, endDate)
        == match DueClients(rows[..k], ms, startDate, endDate)
           case Raised(m) => Raised(m)
           case Ok(front) => match Eligibility(WithStatus(rows[k], ms), startDate, endDate)
             case Raised(m) => Raised(m)
             case Ok(d) => Ok(if d then front + [WithStatus(rows[k], ms)] else front)
    {
      assert rows[..k + 1][..k] == rows[..k] && rows[..k + 1][k] == rows[k];
    }

    lemma {:induction false} RaisedPrefix(rows: seq<PatientRow>, k: nat, ms: MaternalLists)
      requires Valid(endDate) && forall i :: 0 <= i < |rows| ==> ValidRow(rows[i])
      requires k <= |rows| && DueClients(rows[..k], ms, startDate, endDate).Raised?
      ensures DueClients(rows, ms, startDate, endDate).Raised?
      decreases |rows| - k
    {
      if k < |rows| {
        assert rows[..k + 1][..k] == rows[..k];
        RaisedPrefix(rows, k + 1, ms);
      } else {
        assert rows[..k] == rows;
      }
    }

    /**
   * What AppendDue does to one cell: the patient's id goes at the end of the
   * due list of its own cell, and every other list of every cell is unchanged.
   */
  lemma AppendDueCell(r: Report, p: PatientRow, ag: string, h: Gender)
    requires AppendDue(r, p).Ok? && ag in r
    ensures CellOf(AppendDue(r, p).value[ag], h)
      == if ag == p.ageGroup && GenderKey(p.gender) == Some(h)
         then CellOf(r[ag], h).(dueForVl := CellOf(r[ag], h).dueForVl + [p.patientId])
         else CellOf(r[ag], h)
  {
  }

  /** The due_for_vl loop of `build_report`. */
    method AddDueClients(due: seq<PatientRow>) returns (ok: bool)
      modifies this`report
      ensures ok <==> WithDue(old(report), due).Ok?
      ensures ok ==> report == WithDue(old(report), due).value
    {
      var i := 0;
      while i < |due|
        invariant 0 <= i <= |due|
        invariant WithDue(old(report), due[..i]) == Ok(report)
      {
        assert due[..i + 1][..i] == due[..i];
        var p := due[i];
        var g := GenderKey(p.gender);
        if g.None? || p.ageGroup !in report {
          DueRaisedPrefix(old(report), due, i + 1);
          return false;
        }
        var c := CellOf(report[p.ageGroup], g.value);
        report := report[p.ageGroup := WithCell(report[p.ageGroup], g.value, c.(dueForVl := c.dueForVl + [p.patientId]))];
        i := i + 1;
      }
      assert due[..|due|] == due;
      return true;
    }

    lemma {:induction false} DueRaisedPrefix(r: Report, rows: seq<PatientRow>, k: nat)
      requires k <= |rows| && WithDue(r, rows[..k]).Raised?
      ensures WithDue(r, rows).Raised?
      decreases |rows| - k
    {
      if k < |rows| {
        assert rows[..k + 1][..k] == rows[..k];
        DueRaisedPrefix(r, rows, k + 1);
      } else {
        assert rows[..k] == rows;
      }
    }

    /** `load_patient_tests_into_report`. */
    method LoadPatientTestsIntoReport(tests: seq<TestRow>) returns (ok: bool)
      modifies this`report
      ensures ok <==> WithTests(old(report), tests).Ok?
      ensures ok ==> report == WithTests(old(report), tests).value
    {
      var i := 0;
      while i < |tests|
        invariant 0 <= i <= |tests|
        invariant WithTests(old(report), tests[..i]) == Ok(report)
      {
        assert tests[..i + 1][..i] == tests[..i];
        var t := tests[i];
        var g := GenderKey(t.gender);
        if g.None? || t.ageGroup !in report {
          TestRaisedPrefix(old(report), tests, i + 1);
          return false;
        }
        var gc := report[t.ageGroup];
        var c := CellOf(gc, g.value);
        var reason := if ContainsIgnoreCase(match t.reasonForTest case Some(s) => s case None => "Routine", "Routine") then Routine else Targeted;
        c := c.(drawn := AddTo(c.drawn, reason, t.patientId));
        if t.resultValue.Some? {
          if EqualsIgnoreCase(t.resultValue.value, "LDL") {
            c := c.(lowVl := AddTo(c.lowVl, reason, t.patientId));
          } else if ToI(t.resultValue.value) < 1000 {
            c := c.(lowVl := AddTo(c.lowVl, reason, t.patientId));
          } else {
            c := c.(highVl := AddTo(c.highVl, reason, t.patientId));
          }
        }
        assert c == RecordTest(CellOf(gc, g.value), t);
        report := report[t.ageGroup := WithCell(gc, g.value, c)];
        i := i + 1;
      }
      assert tests[..|tests|] == tests;
      return true;
    }

    lemma {:induction false} TestRaisedPrefix(r: Report, rows: seq<TestRow>, k: nat)
      requires k <= |rows| && WithTests(r, rows[..k]).Raised?
      ensures WithTests(r, rows).Raised?
      decreases |rows| - k
    {
      if k < |rows| {
        assert rows[..k + 1][..k] == rows[..k];
        TestRaisedPrefix(r, rows, k + 1);
      } else {
        assert rows[..k] == rows;
      }
    }

    /**
     * `load_tx_curr_into_report`: every age group's M and F cells get the
     * ids `populate_tx_curr` selects for them; nothing else changes.
     */
    method LoadTxCurrIntoReport(patients: seq<TxCurrRow>) returns (ok: bool)
      modifies this`report
      ensures ok <==> !TxCurrRaises(patients, old(report).Keys)
      ensures report.Keys == old(report).Keys
      ensures ok ==> forall ag :: ag in report ==> TxCurrCells(old(report)[ag], patients, ag) == Ok(report[ag])
    {
      var todo := report.Keys;
      while todo != {}
        invariant todo <= report.Keys && report.Keys == old(report).Keys
        invariant forall ag :: ag in report && ag !in todo ==> TxCurrCells(old(report)[ag], patients, ag) == Ok(report[ag])
        invariant forall ag :: ag in todo ==> report[ag] == old(report)[ag]
        invariant forall i :: 0 <= i < |patients| && patients[i].ageGroup in report.Keys - todo ==> patients[i].gender.Some?
        decreases todo
      {
        var ag :| ag in todo;
        var cells := TxCurrCells(report[ag], patients, ag);
        if cells.Raised? {
          return false;
        }
        report := report[ag := cells.value];
        todo := todo - {ag};
      }
      return true;
    }

    /**
     * `find_report`: the empty report, tx_curr, the due clients and the
     * tests of those clients, in that order; any raise aborts the report.
     * A report that is built has every cell's lists exactly as the
     * reference lists say.
     */
    method FindReport(txCurr: seq<TxCurrRow>, results: seq<PatientRow>, pregnant: set<int>, breastfeeding: set<int>, tests: seq<TestRow>)
      returns (ok: bool)
      requires Valid(endDate) && forall i :: 0 <= i < |results| ==> ValidRow(results[i])
      modifies this`report, this`clients, this`maternalStatus
      ensures var runs := RunsParallelBranch(reportType) || reportType == Some("emastercard");
        var ms := VlMaternalStatus(Females(results), pregnant, breastfeeding);
        ok <==> !TxCurrRaises(txCurr, AgeGroupKeys()) && (runs ==> !SomeRowRaises(results, ms, startDate, endDate))
                && ClientsHaveCells(AgeGroupKeys(), clients) && TestsHaveCells(AgeGroupKeys(), tests)
      ensures ok ==> maternalStatus == VlMaternalStatus(Females(results), pregnant, breastfeeding)
      ensures ok ==> clients == if RunsParallelBranch(reportType) || reportType == Some("emastercard")
                                then EligibleRows(results, maternalStatus, startDate, endDate) else []
      ensures ok ==> report.Keys == AgeGroupKeys()
      ensures ok ==> forall ag, h, m, rs :: ag in report ==>
        ListOf(CellOf(report[ag], h), m, rs) == (if m == Due then DueIds(clients, ag, h) else FiledIds(tests, ag, h, m, rs))
      ensures ok ==> forall ag, h :: ag in report ==>
        PopulateTxCurr(txCurr, ag, h).Ok? && CellOf(report[ag], h).txCurr == Some(PopulateTxCurr(txCurr, ag, h).value)
    {
      report := InitReport();
      ok := LoadTxCurrIntoReport(txCurr);
      if !ok {
        return;
      }
      ghost var r1 := report;
      ok := ProcessDuePeople(results, pregnant, breastfeeding);
      if !ok {
        return;
      }
      WithDueOk(report, clients);
      ok := AddDueClients(clients);
      if !ok {
        return;
      }
      ghost var r2 := report;
      WithTestsOk(report, tests);
      ok := LoadPatientTestsIntoReport(tests);
      if ok {
        ReportCells(r1, r2, report, txCurr, clients, tests);
      }
    }
  }
}
