/**
 * The regimen-switch listing: dispensation rows grouped per patient and order
 * (`latest_regimens`), and the listing of patients on ART whose regimen
 * changed at a visit in the reporting period (`swicth_report`).
 */
module RegimenSwitch {
  import opened Collections
  import opened Text
  import opened Calendar
  import ViralLoadCoverage

  // ---------------------------------------------------------------- latest_regimens

  /** A row of the ARV dispensation query. */
  datatype DispensationRow = DispensationRow(
    startDate: Date,
    patientId: int,
    orderId: int,
    name: Option<string>,
    quantity: int,
    valueNumeric: Option<int>,
    drugId: int,
    identifier: Option<string>,
    gender: Option<string>,
    birthdate: Option<Date>)

  datatype VlOrder = VlOrder(patientId: int, orderDate: Option<Date>)
  datatype VlResult = VlResult(patientId: int, resultDate: Option<Date>, result: Option<string>)

  /** A VL column of an entry: 'N/A' when the patient has no VL record, else the record's (possibly nil) value. */
  datatype VlField<+T> = NotAvailable | Recorded(value: Option<T>)

  datatype Entry = Entry(
    name: Option<string>,
    quantity: int,
    dispensationDate: Date,
    identifier: Option<string>,
    gender: Option<string>,
    birthdate: Option<Date>,
    drugId: int,
    packSizes: seq<int>,
    vlLatestOrderDate: VlField<Date>,
    vlLatestResultDate: VlField<Date>,
    vlLatestResult: VlField<string>)

  /** `select { patient_id matches }.first` over the VL orders. */
  function FirstOrder(orders: seq<VlOrder>, patientId: int): (r: Option<VlOrder>)
    ensures r.None? <==> forall i :: 0 <= i < |orders| ==> orders[i].patientId != patientId
    ensures r.Some? ==> r.value in orders && r.value.patientId == patientId
    decreases |orders|
  {
    if |orders| == 0 then None
    else if orders[0].patientId == patientId then Some(orders[0])
    else
      var r := FirstOrder(orders[1..], patientId);
      assert forall i :: 1 <= i < |orders| ==> orders[i] == orders[1..][i - 1];
      r
  }

  function FirstResult(results: seq<VlResult>, patientId: int): (r: Option<VlResult>)
    ensures r.None? <==> forall i :: 0 <= i < |results| ==> results[i].patientId != patientId
    ensures r.Some? ==> r.value in results && r.value.patientId == patientId
    decreases |results|
  {
    if |results| == 0 then None
    else if results[0].patientId == patientId then Some(results[0])
    else
      var r := FirstResult(results[1..], patientId);
      assert forall i :: 1 <= i < |results| ==> results[i] == results[1..][i - 1];
      r
  }

  /** The entry the first row of a patient/order pair creates, before its pack sizes are pushed. */
  function NewEntry(row: DispensationRow, orders: seq<VlOrder>, results: seq<VlResult>): (e: Entry)
    ensures e.packSizes == []
    ensures e.vlLatestOrderDate == NotAvailable <==> forall i :: 0 <= i < |orders| ==> orders[i].patientId != row.patientId
    ensures e.vlLatestResultDate == NotAvailable <==> forall i :: 0 <= i < |results| ==> results[i].patientId != row.patientId
    ensures e.vlLatestResult == NotAvailable <==> forall i :: 0 <= i < |results| ==> results[i].patientId != row.patientId
  {
    var vl := FirstOrder(orders, row.patientId);
    var res := FirstResult(results, row.patientId);
    Entry(row.name, row.quantity, row.startDate, row.identifier, row.gender, row.birthdate, row.drugId, [],
      if vl.Some? then Recorded(vl.value.orderDate) else NotAvailable,
      if res.Some? then Recorded(res.value.resultDate) else NotAvailable,
      if res.Some? then Recorded(res.value.result) else NotAvailable)
  }

  /** `value_numeric.to_f`: nil reads as 0. */
  function PackSize(row: DispensationRow): int {
    match row.valueNumeric case Some(v) => v case None => 0
  }

  /** The rows of one patient/order pair, in row order. */
  function RowsOf(rows: seq<DispensationRow>, patientId: int, orderId: int): (r: seq<DispensationRow>)
    ensures |r| <= |rows|
    ensures forall k :: 0 <= k < |r| ==> r[k].patientId == patientId && r[k].orderId == orderId
    decreases |rows|
  {
    if |rows| == 0 then []
    else
      var last := rows[|rows| - 1];
      RowsOf(rows[..|rows| - 1], patientId, orderId) + (if last.patientId == patientId && last.orderId == orderId then [last] else [])
  }

  lemma {:induction false} RowsOfEmpty(rows: seq<DispensationRow>, patientId: int, orderId: int)
    ensures |RowsOf(rows, patientId, orderId)| == 0
      <==> forall i :: 0 <= i < |rows| ==> !(rows[i].patientId == patientId && rows[i].orderId == orderId)
    decreases |rows|
  {
    if |rows| > 0 {
      var front := rows[..|rows| - 1];
      RowsOfEmpty(front, patientId, orderId);
      assert forall i :: 0 <= i < |rows| - 1 ==> rows[i] == front[i];
    }
  }

  function PackSizes(rows: seq<DispensationRow>): (r: seq<int>)
    ensures |r| == |rows|
    ensures forall k :: 0 <= k < |rows| ==> r[k] == PackSize(rows[k])
  {
    seq(|rows|, k requires 0 <= k < |rows| => PackSize(rows[k]))
  }

  /**
   * The entry `latest_regimens` holds for a pair that occurs in the rows:
   * every field from the first row of the pair, and one pack size per row
   * of the pair, in row order.
   */
  function ExpectedEntry(rows: seq<DispensationRow>, patientId: int, orderId: int, orders: seq<VlOrder>, results: seq<VlResult>): Entry
    requires |RowsOf(rows, patientId, orderId)| > 0
  {
    var rs := RowsOf(rows, patientId, orderId);
    NewEntry(rs[0], orders, results).(packSizes := PackSizes(rs))
  }

  type Grouped = map<int, map<int, Entry>>

  /**
   * The grouping holds exactly the pairs that occur in the rows, and for
   * each pair its ExpectedEntry.
   */
  ghost predicate Describes(data: Grouped, rows: seq<DispensationRow>, orders: seq<VlOrder>, results: seq<VlResult>) {
    (forall pid, oid :: pid in data && oid in data[pid] ==> |RowsOf(rows, pid, oid)| > 0)
    && (forall pid, oid :: |RowsOf(rows, pid, oid)| > 0 ==> pid in data && oid in data[pid])
    && (forall pid, oid :: pid in data && oid in data[pid] ==> data[pid][oid] == ExpectedEntry(rows, pid, oid, orders, results))
  }

  /** The row-grouping loop of `latest_regimens`. */
  method LatestRegimens(rows: seq<DispensationRow>, orders: seq<VlOrder>, results: seq<VlResult>) returns (data: Grouped)
    ensures data == GroupRows(rows, orders, results)
    ensures Describes(data, rows, orders, results)
  {
    data := map[];
    var i := 0;
    while i < |rows|
      invariant 0 <= i <= |rows|
      invariant data == GroupRows(rows[..i], orders, results)
    {
      var row := rows[i];
      assert rows[..i + 1][..i] == rows[..i] && rows[..i + 1][i] == row;
      var inner := if row.patientId in data then data[row.patientId] else map[];
      var e: Entry;
      if row.orderId in inner {
        e := inner[row.orderId];
      } else {
        e := NewEntry(row, orders, results);
      }
      data := data[row.patientId := inner[row.orderId := e.(packSizes := e.packSizes + [PackSize(row)])]];
      i := i + 1;
    }
    assert rows[..|rows|] == rows;
    GroupRowsDescribes(rows, orders, results);
  }

  /** The grouping after a prefix of the rows. */
  function GroupRows(rows: seq<DispensationRow>, orders: seq<VlOrder>, results: seq<VlResult>): Grouped
    decreases |rows|
  {
    if |rows| == 0 then map[]
    else Push(GroupRows(rows[..|rows| - 1], orders, results), rows[|rows| - 1], orders, results)
  }

  lemma {:induction false} GroupRowsDescribes(rows: seq<DispensationRow>, orders: seq<VlOrder>, results: seq<VlResult>)
    ensures Describes(GroupRows(rows, orders, results), rows, orders, results)
    decreases |rows|
  {
    if |rows| > 0 {
      var k := |rows| - 1;
      assert rows[..k] == rows[..|rows| - 1];
      GroupRowsDescribes(rows[..k], orders, results);
      PushPreserves(rows, k, orders, results, GroupRows(rows[..k], orders, results));
      assert rows[..k + 1] == rows;
    }
  }

  /** What one row does to the grouping: create the pair's entry if absent, then push its pack size. */
  function Push(data: Grouped, row: DispensationRow, orders: seq<VlOrder>, results: seq<VlResult>): Grouped {
    var inner := if row.patientId in data then data[row.patientId] else map[];
    var e := if row.orderId in inner then inner[row.orderId] else NewEntry(row, orders, results);
    data[row.patientId := inner[row.orderId := e.(packSizes := e.packSizes + [PackSize(row)])]]
  }

  lemma PushPreserves(rows: seq<DispensationRow>, i: int, orders: seq<VlOrder>, results: seq<VlResult>, before: Grouped)
    requires 0 <= i < |rows| && Describes(before, rows[..i], orders, results)
    ensures Describes(Push(before, rows[i], orders, results), rows[..i + 1], orders, results)
  {
    var after := Push(before, rows[i], orders, results);
    assert forall p, o :: (p in before && o in before[p] <==> |RowsOf(rows[..i], p, o)| > 0);
    forall pid, oid
      ensures pid in after && oid in after[pid] ==> |RowsOf(rows[..i + 1], pid, oid)| > 0
      ensures |RowsOf(rows[..i + 1], pid, oid)| > 0 ==> pid in after && oid in after[pid]
      ensures pid in after && oid in after[pid] ==> after[pid][oid] == ExpectedEntry(rows[..i + 1], pid, oid, orders, results)
    {
      GroupStep(rows, i, pid, oid, orders, results, before);
    }
  }

  /** One row of the grouping loop changes only its own pair, as ExpectedEntry predicts. */
  lemma GroupStep(rows: seq<DispensationRow>, i: int, pid: int, oid: int, orders: seq<VlOrder>, results: seq<VlResult>, before: Grouped)
    requires 0 <= i < |rows|
    requires forall p, o :: p in before && o in before[p] <==> |RowsOf(rows[..i], p, o)| > 0
    requires forall p, o :: p in before && o in before[p] ==> before[p][o] == ExpectedEntry(rows[..i], p, o, orders, results)
    ensures var after := Push(before, rows[i], orders, results);
      (pid in after && oid in after[pid] <==> |RowsOf(rows[..i + 1], pid, oid)| > 0)
      && (pid in after && oid in after[pid] ==> after[pid][oid] == ExpectedEntry(rows[..i + 1], pid, oid, orders, results))
  {
    var row := rows[i];
    assert rows[..i + 1][..i] == rows[..i] && rows[..i + 1][i] == row;
    var old_rs := RowsOf(rows[..i], pid, oid);
    var new_rs := RowsOf(rows[..i + 1], pid, oid);
    if (pid, oid) == (row.patientId, row.orderId) {
      assert new_rs == old_rs + [row];
      if |old_rs| > 0 {
        assert new_rs[0] == old_rs[0];
        assert PackSizes(new_rs) == PackSizes(old_rs) + [PackSize(row)];
      } else {
        assert new_rs == [row];
      }
    } else {
      assert new_rs == old_rs;
    }
  }

  /** latest_regimens holds one entry per patient/order pair that occurs in the rows, and no others. */
  lemma LatestRegimensPairs(rows: seq<DispensationRow>, pid: int, oid: int)
    ensures |RowsOf(rows, pid, oid)| > 0 <==> exists i :: 0 <= i < |rows| && rows[i].patientId == pid && rows[i].orderId == oid
  {
    RowsOfEmpty(rows, pid, oid);
  }

  // ---------------------------------------------------------------- swicth_report

  /** Cumulative outcome row of the outcome table: the MoH and the PEPFAR column. */
  datatype OutcomeRow = OutcomeRow(mohCumOutcome: Option<string>, pepfarCumOutcome: Option<string>)

  /** A row of `arv_dispensention_data`. */
  datatype Medication = Medication(name: Option<string>, quantity: Option<int>, startDate: Option<Date>)

  /** The demographics row of a client. */
  datatype Demographics = Demographics(
    birthdate: Option<Date>,
    gender: Option<string>,
    arvNumber: Option<string>,
    givenName: Option<string>,
    familyName: Option<string>,
    personId: int)

  /**
   * One row of `regimen_data` with the per-patient query results the loop
   * reads for it: dispensations, outcome row, previous and current regimen,
   * demographics, whether an external-consultation observation exists, and
   * the current weight.
   */
  datatype SwitchInput = SwitchInput(
    patientId: int,
    earliestStartDate: Option<Date>,
    medications: seq<Medication>,
    outcome: Option<OutcomeRow>,
    previousRegimen: Option<string>,
    currentRegimen: Option<string>,
    demographics: Demographics,
    externalConsultation: bool,
    currentWeight: Option<string>)

  datatype MedicationItem = MedicationItem(medication: Option<string>, quantity: Option<int>, startDate: Date)

  datatype Client = Client(
    arvNumber: string,
    givenName: Option<string>,
    familyName: Option<string>,
    birthdate: Option<Date>,
    gender: Option<string>,
    previousRegimen: Option<string>,
    currentRegimen: Option<string>,
    patientType: Option<string>,
    currentWeight: Option<string>,
    artStartDate: Option<Date>,
    medication: seq<MedicationItem>)

  /**
   * `get_patient_type`: nil unless the pepfar flag is given; then 'External'
   * exactly when an external-consultation observation exists, else 'Resident'.
   */
  function GetPatientType(pepfar: Option<string>, externalConsultation: bool): (r: Option<string>)
    ensures pepfar.None? <==> r.None?
    ensures pepfar.Some? ==> (r == Some("External") <==> externalConsultation)
    ensures pepfar.Some? ==> (r == Some("Resident") <==> !externalConsultation)
  {
    if pepfar.None? then None
    else if externalConsultation then Some("External") else Some("Resident")
  }

  /** The outcome column read: MoH when the pepfar flag is blank, PEPFAR otherwise. */
  function CumOutcome(rec: SwitchInput, pepfar: Option<string>): Option<string> {
    match rec.outcome
    case None => None
    case Some(o) => if IsBlank(pepfar) then o.mohCumOutcome else o.pepfarCumOutcome
  }

  /**
   * The filter of `swicth_report` for one row: Ok(Some(visit date)) when the
   * patient is listed, Ok(None) when skipped, Raised when the patient is on
   * ART but has no dispensation (`nil['start_date']`).
   */
  function VisitDate(rec: SwitchInput, pepfar: Option<string>, startDate: Date, endDate: Date): Result<Option<Date>> {
    if CumOutcome(rec, pepfar) != Some("On antiretrovirals") then Ok(None)
    else if |rec.medications| == 0 then Raised("NoMethodError: undefined method '[]' for nil")
    else match rec.medications[0].startDate
      case None => Ok(None)
      case Some(visit) =>
        if !Within(visit, startDate, endDate) then Ok(None)
        else if rec.previousRegimen == rec.currentRegimen || rec.previousRegimen == Some("N/A") then Ok(None)
        else Ok(Some(visit))
  }

  predicate Kept(rec: SwitchInput, pepfar: Option<string>, startDate: Date, endDate: Date) {
    var v := VisitDate(rec, pepfar, startDate, endDate);
    v.Ok? && v.value.Some?
  }

  /** The only patients listed are on ART, with a visit date inside the period and a real regimen change. */
  lemma KeptMeansSwitched(rec: SwitchInput, pepfar: Option<string>, startDate: Date, endDate: Date)
    requires Kept(rec, pepfar, startDate, endDate)
    ensures CumOutcome(rec, pepfar) == Some("On antiretrovirals")
    ensures Within(VisitDate(rec, pepfar, startDate, endDate).value.value, startDate, endDate)
    ensures rec.previousRegimen != rec.currentRegimen && rec.previousRegimen != Some("N/A")
  {
  }

  /** The client record created the first time a patient is listed; 'N/A' replaces a blank ARV number. */
  function NewClient(rec: SwitchInput, pepfar: Option<string>): (c: Client)
    ensures c.medication == []
    ensures IsBlank(rec.demographics.arvNumber) ==> c.arvNumber == "N/A"
    ensures !IsBlank(rec.demographics.arvNumber) ==> c.arvNumber == rec.demographics.arvNumber.value
  {
    var d := rec.demographics;
    Client(
      if IsBlank(d.arvNumber) then "N/A" else d.arvNumber.value,
      d.givenName, d.familyName, d.birthdate, d.gender,
      rec.previousRegimen, rec.currentRegimen,
      GetPatientType(pepfar, rec.externalConsultation),
      rec.currentWeight, rec.earliestStartDate, [])
  }

  function Items(meds: seq<Medication>, visit: Date): (r: seq<MedicationItem>)
    ensures |r| == |meds|
    ensures forall k :: 0 <= k < |meds| ==> r[k] == MedicationItem(meds[k].name, meds[k].quantity, visit)
  {
    seq(|meds|, k requires 0 <= k < |meds| => MedicationItem(meds[k].name, meds[k].quantity, visit))
  }

  /** One listed row: create the client if absent, then push one item per dispensation. */
  function AddVisit(clients: map<int, Client>, rec: SwitchInput, pepfar: Option<string>, visit: Date): map<int, Client> {
    var c := if rec.patientId in clients then clients[rec.patientId] else NewClient(rec, pepfar);
    clients[rec.patientId := c.(medication := c.medication + Items(rec.medications, visit))]
  }

  /** The loop of `swicth_report` over the rows; the first row that raises aborts the report. */
  function SwitchClients(data: seq<SwitchInput>, pepfar: Option<string>, startDate: Date, endDate: Date): Result<map<int, Client>>
    decreases |data|
  {
    if |data| == 0 then Ok(map[])
    else
      match SwitchClients(data[..|data| - 1], pepfar, startDate, endDate)
      case Raised(m) => Raised(m)
      case Ok(clients) =>
        match VisitDate(data[|data| - 1], pepfar, startDate, endDate)
        case Raised(m) => Raised(m)
        case Ok(None) => Ok(clients)
        case Ok(Some(visit)) => Ok(AddVisit(clients, data[|data| - 1], pepfar, visit))
  }

  /** The report raises exactly when some row on ART has no dispensation. */
  lemma {:induction false} SwitchRaises(data: seq<SwitchInput>, pepfar: Option<string>, startDate: Date, endDate: Date)
    ensures SwitchClients(data, pepfar, startDate, endDate).Raised?
      <==> exists i :: 0 <= i < |data| && VisitDate(data[i], pepfar, startDate, endDate).Raised?
    decreases |data|
  {
    if |data| > 0 {
      var front := data[..|data| - 1];
      SwitchRaises(front, pepfar, startDate, endDate);
      assert forall i :: 0 <= i < |front| ==> front[i] == data[i];
    }
  }

  /** Number of medication items the kept rows of one patient contribute. */
  function KeptItems(data: seq<SwitchInput>, pid: int, pepfar: Option<string>, startDate: Date, endDate: Date): nat
    decreases |data|
  {
    if |data| == 0 then 0
    else
      var last := data[|data| - 1];
      KeptItems(data[..|data| - 1], pid, pepfar, startDate, endDate)
      + (if last.patientId == pid && Kept(last, pepfar, startDate, endDate) then |last.medications| else 0)
  }

  /** The first kept row of a patient, if any. */
  function FirstKept(data: seq<SwitchInput>, pid: int, pepfar: Option<string>, startDate: Date, endDate: Date): (r: Option<SwitchInput>)
    ensures r.Some? ==> r.value.patientId == pid && Kept(r.value, pepfar, startDate, endDate)
    decreases |data|
  {
    if |data| == 0 then None
    else
      var front := FirstKept(data[..|data| - 1], pid, pepfar, startDate, endDate);
      var last := data[|data| - 1];
      if front.Some? then front
      else if last.patientId == pid && Kept(last, pepfar, startDate, endDate) then Some(last)
      else None
  }

  /** All medication items carry a visit date inside the period. */
  predicate ItemsInPeriod(items: seq<MedicationItem>, startDate: Date, endDate: Date) {
    forall k :: 0 <= k < |items| ==> Within(items[k].startDate, startDate, endDate)
  }

  lemma ItemsInPeriodAppend(a: seq<MedicationItem>, b: seq<MedicationItem>, startDate: Date, endDate: Date)
    requires ItemsInPeriod(a, startDate, endDate) && ItemsInPeriod(b, startDate, endDate)
    ensures ItemsInPeriod(a + b, startDate, endDate)
  {
    assert forall k :: 0 <= k < |a + b| ==> (a + b)[k] == (if k < |a| then a[k] else b[k - |a|]);
  }

  /** What AddVisit does to the listed patient, and that it leaves every other patient alone. */
  lemma AddVisitEffect(clients: map<int, Client>, rec: SwitchInput, pepfar: Option<string>, visit: Date)
    ensures var after := AddVisit(clients, rec, pepfar, visit);
      var c := if rec.patientId in clients then clients[rec.patientId] else NewClient(rec, pepfar);
      rec.patientId in after
      && after[rec.patientId] == c.(medication := c.medication + Items(rec.medications, visit))
      && forall p :: p != rec.patientId ==> (p in after <==> p in clients) && (p in after ==> after[p] == clients[p])
  {
  }

  /**
   * A patient is listed exactly when one of its rows is kept; its record is
   * created from its first kept row (so its demographics and regimens come
   * from there), and its medication list has one item per dispensation of
   * every kept row, each carrying a visit date inside the period.
   */
  lemma {:induction false} SwitchClientsShape(data: seq<SwitchInput>, pepfar: Option<string>, startDate: Date, endDate: Date, pid: int)
    requires SwitchClients(data, pepfar, startDate, endDate).Ok?
    ensures var clients := SwitchClients(data, pepfar, startDate, endDate).value;
      (pid in clients <==> FirstKept(data, pid, pepfar, startDate, endDate).Some?)
      && (pid !in clients ==> KeptItems(data, pid, pepfar, startDate, endDate) == 0)
      && (pid in clients ==>
            clients[pid].(medication := []) == NewClient(FirstKept(data, pid, pepfar, startDate, endDate).value, pepfar)
            && |clients[pid].medication| == KeptItems(data, pid, pepfar, startDate, endDate)
            && ItemsInPeriod(clients[pid].medication, startDate, endDate))
    decreases |data|
  {
    if |data| > 0 {
      var front := data[..|data| - 1];
      var last := data[|data| - 1];
      SwitchClientsShape(front, pepfar, startDate, endDate, pid);
      var before := SwitchClients(front, pepfar, startDate, endDate).value;
      var v := VisitDate(last, pepfar, startDate, endDate);
      if v.Ok? && v.value.Some? {
        var visit := v.value.value;
        KeptMeansSwitched(last, pepfar, startDate, endDate);
        AddVisitEffect(before, last, pepfar, visit);
        if pid == last.patientId {
          var c := if pid in before then before[pid] else NewClient(last, pepfar);
          var items := Items(last.medications, visit);
          assert ItemsInPeriod(items, startDate, endDate);
          ItemsInPeriodAppend(c.medication, items, startDate, endDate);
        }
      }
    }
  }

  /** The loop of `swicth_report`, pushing each item of the kept rows in turn. */
  method SwitchReport(data: seq<SwitchInput>, pepfar: Option<string>, startDate: Date, endDate: Date) returns (r: Result<map<int, Client>>)
    ensures r == SwitchClients(data, pepfar, startDate, endDate)
  {
    var clients: map<int, Client> := map[];
    var i := 0;
    while i < |data|
      invariant 0 <= i <= |data|
      invariant SwitchClients(data[..i], pepfar, startDate, endDate) == Ok(clients)
    {
      var rec := data[i];
      SwitchStep(data, i, pepfar, startDate, endDate);
      var outcome := CumOutcome(rec, pepfar);
      OnArtIsNotBlank();
      if outcome.None? || IsBlank(outcome) || outcome != Some("On antiretrovirals") {
        assert VisitDate(rec, pepfar, startDate, endDate) == Ok(None);
        i := i + 1;
        continue;
      }
      if |rec.medications| == 0 {
        assert SwitchClients(data[..i + 1], pepfar, startDate, endDate) == Raised("NoMethodError: undefined method '[]' for nil");
        SwitchRaisedPrefix(data, i + 1, pepfar, startDate, endDate);
        return Raised("NoMethodError: undefined method '[]' for nil");
      }
      var visitDate := rec.medications[0].startDate;
      if visitDate.None? {
        assert VisitDate(rec, pepfar, startDate, endDate) == Ok(None);
        i := i + 1;
        continue;
      }
      var visit := visitDate.value;
      if !(AtOrBefore(startDate, visit) && AtOrBefore(visit, endDate)) {
        assert VisitDate(rec, pepfar, startDate, endDate) == Ok(None);
        i := i + 1;
        continue;
      }
      if rec.previousRegimen == rec.currentRegimen || rec.previousRegimen == Some("N/A") {
        assert VisitDate(rec, pepfar, startDate, endDate) == Ok(None);
        i := i + 1;
        continue;
      }
      assert VisitDate(rec, pepfar, startDate, endDate) == Ok(Some(visit));
      clients := PushMedications(clients, rec, pepfar, visit);
      i := i + 1;
    }
    assert data[..|data|] == data;
    return Ok(clients);
  }

  /** The body of the loop for a listed row: create the client when absent, then push one item per dispensation. */
  method PushMedications(clients: map<int, Client>, rec: SwitchInput, pepfar: Option<string>, visit: Date) returns (r: map<int, Client>)
    ensures r == AddVisit(clients, rec, pepfar, visit)
  {
    r := clients;
    if rec.patientId !in r {
      r := r[rec.patientId := NewClient(rec, pepfar)];
    }
    ghost var start := r[rec.patientId];
    ghost var items := Items(rec.medications, visit);
    assert items[..0] == [] && start.medication + [] == start.medication;
    assert start.(medication := start.medication) == start;
    assert r == clients[rec.patientId := start.(medication := start.medication + items[..0])];
    var j := 0;
    while j < |rec.medications|
      invariant 0 <= j <= |rec.medications|
      invariant r == clients[rec.patientId := start.(medication := start.medication + items[..j])]
    {
      var m := rec.medications[j];
      var c := r[rec.patientId];
      assert items[..j + 1] == items[..j] + [MedicationItem(m.name, m.quantity, visit)];
      assert start.medication + items[..j + 1] == (start.medication + items[..j]) + [MedicationItem(m.name, m.quantity, visit)];
      r := r[rec.patientId := c.(medication := c.medication + [MedicationItem(m.name, m.quantity, visit)])];
      j := j + 1;
    }
    assert items[..j] == items;
  }

  lemma SwitchStep(data: seq<SwitchInput>, i: int, pepfar: Option<string>, startDate: Date, endDate: Date)
    requires 0 <= i < |data|
    ensures SwitchClients(data[..i + 1], pepfar, startDate, endDate)
      == match SwitchClients(data[..i], pepfar, startDate, endDate)
         case Raised(m) => Raised(m)
         case Ok(clients) =>
           match VisitDate(data[i], pepfar, startDate, endDate)
           case Raised(m) => Raised(m)
           case Ok(None) => Ok(clients)
           case Ok(Some(visit)) => Ok(AddVisit(clients, data[i], pepfar, visit))
  {
    assert data[..i + 1][..i] == data[..i] && data[..i + 1][i] == data[i];
  }

  lemma {:induction false} SwitchRaisedPrefix(data: seq<SwitchInput>, k: nat, pepfar: Option<string>, startDate: Date, endDate: Date)
    requires k <= |data| && SwitchClients(data[..k], pepfar, startDate, endDate).Raised?
    ensures SwitchClients(data, pepfar, startDate, endDate) == SwitchClients(data[..k], pepfar, startDate, endDate)
    decreases |data| - k
  {
    if k < |data| {
      SwitchStep(data, k, pepfar, startDate, endDate);
      SwitchRaisedPrefix(data, k + 1, pepfar, startDate, endDate);
    } else {
      assert data[..k] == data;
    }
  }

  lemma OnArtIsNotBlank()
    ensures !IsBlank(Some("On antiretrovirals"))
  {
    assert !IsSpace("On antiretrovirals"[0]);
  }

  // ---------------------------------------------------------------- maternal_status

  /**
   * `maternal_status`: nil for a blank gender; otherwise 'FNP', overridden by
   * 'FP' when the FP list is not empty, itself overridden by 'FBf' when the
   * FBf list is not empty.
   */
  function MaternalStatusLabel(lists: ViralLoadCoverage.MaternalLists, gender: Option<string>): (r: Option<string>)
    ensures IsBlank(gender) <==> r.None?
    ensures !IsBlank(gender) && |lists.fbf| > 0 ==> r == Some("FBf")
    ensures !IsBlank(gender) && |lists.fbf| == 0 && |lists.fp| > 0 ==> r == Some("FP")
    ensures !IsBlank(gender) && |lists.fbf| == 0 && |lists.fp| == 0 ==> r == Some("FNP")
  {
    if IsBlank(gender) then None
    else
      var byDefault := "FNP";
      var afterFp := if |lists.fp| > 0 then "FP" else byDefault;
      var afterFbf := if |lists.fbf| > 0 then "FBf" else afterFp;
      Some(afterFbf)
  }

  /**
   * For one patient the label is FP when she has a qualifying pregnancy,
   * FBf when she is breastfeeding and not pregnant, FNP otherwise.
   */
  lemma MaternalStatusOfPatient(pid: int, gender: Option<string>, pregnant: set<int>, breastfeeding: set<int>)
    requires !IsBlank(gender)
    ensures var r := MaternalStatusLabel(ViralLoadCoverage.VlMaternalStatus([pid], pregnant, breastfeeding), gender);
      (r == Some("FP") <==> pid in pregnant)
      && (r == Some("FBf") <==> pid !in pregnant && pid in breastfeeding)
      && (r == Some("FNP") <==> pid !in pregnant && pid !in breastfeeding)
  {
    var lists := ViralLoadCoverage.VlMaternalStatus([pid], pregnant, breastfeeding);
    HeadIsMember(lists.fp);
    HeadIsMember(lists.fbf);
    if pid in pregnant {
      assert pid in lists.fp;
    } else if pid in breastfeeding {
      assert pid in lists.fbf;
    }
  }

  lemma HeadIsMember(s: seq<int>)
    ensures |s| > 0 ==> s[0] in s
  {
  }
}
