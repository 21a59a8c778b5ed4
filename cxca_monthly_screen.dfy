/**
 * The CxCa monthly screening report: rows grouped by reason for visit and
 * age group (plus a "50 plus years" row per group), each indicator a
 * distinct list of person ids, and the report totals.
 */
module CxcaMonthlyScreen {
  import opened Collections
  import opened Text

  /** One row of the screening query; every text column may be NULL. */
  datatype ScreenRow = ScreenRow(
    personId: int,
    ageGroup: Option<string>,
    reasonForVisit: Option<string>,
    viaResult: Option<string>,
    screeningResults: Option<string>,
    txOption: Option<string>)

  /** `v.to_s` of a nullable text column. */
  function ToS(v: Option<string>): string {
    match v
    case None => ""
    case Some(s) => s
  }

  // ---------------------------------------------------------------- vocabularies

  /** The keys of `TX_GROUPS`, in order. */
  datatype TxGroup = FirstTimeScreened | RescreenedAfterPrevVisit | PostTreatmentFollowup

  function TxGroups(): (r: seq<TxGroup>)
    ensures |r| == 3 && NoDuplicates(r)
    ensures FirstTimeScreened in r && RescreenedAfterPrevVisit in r && PostTreatmentFollowup in r
  {
    [FirstTimeScreened, RescreenedAfterPrevVisit, PostTreatmentFollowup]
  }

  /** The lower-case reasons for visit of each group. */
  function GroupReasons(g: TxGroup): set<string> {
    match g
    case FirstTimeScreened => {"initial screening", "referral"}
    case RescreenedAfterPrevVisit => {"subsequent screening"}
    case PostTreatmentFollowup => {"one year subsequent check-up after treatment", "problem visit after treatment"}
  }

  /** The keys of `CxCa_TX_OUTCOMES`, in order. */
  datatype Outcome = Positive | Negative | Suspected

  /** The lower-case screening results of each outcome. */
  function OutcomeResults(o: Outcome): set<string> {
    match o
    case Positive => {"via positive", "hpv positive", "pap smear abnormal", "visible lesion"}
    case Negative => {"via negative", "hpv negative", "pap smear normal", "no visible lesion", "other gynae"}
    case Suspected => {"suspect cancer"}
  }

  /** No screening result belongs to two outcomes, so a row lands in at most one outcome list. */
  lemma OutcomesDisjoint(s: string, o1: Outcome, o2: Outcome)
    requires s in OutcomeResults(o1) && s in OutcomeResults(o2)
    ensures o1 == o2
  {
  }

  /** No reason for visit belongs to two groups, so a row is counted in at most one group. */
  lemma GroupsDisjoint(s: string, g1: TxGroup, g2: TxGroup)
    requires s in GroupReasons(g1) && s in GroupReasons(g2)
    ensures g1 == g2
  {
  }

  predicate InGroup(q: ScreenRow, g: TxGroup) {
    Downcase(ToS(q.reasonForVisit)) in GroupReasons(g)
  }

  predicate HasOutcome(q: ScreenRow, o: Outcome) {
    Downcase(ToS(q.screeningResults)) in OutcomeResults(o)
  }

  predicate SameDayTreatment(q: ScreenRow) {
    q.txOption == Some("Same day treatment")
  }

  // ---------------------------------------------------------------- selections

  /** `rows.map { |q| q['person_id'] }.uniq`. */
  function PersonIds(rows: seq<ScreenRow>): (r: seq<int>)
    ensures NoDuplicates(r)
    ensures forall id :: id in r <==> exists q :: q in rows && q.personId == id
  {
    var ids := seq(|rows|, i requires 0 <= i < |rows| => rows[i].personId);
    assert forall q :: q in rows ==> q.personId in ids by {
      forall q | q in rows ensures q.personId in ids {
        var i :| 0 <= i < |rows| && rows[i] == q;
        assert ids[i] == q.personId;
      }
    }
    Uniq(ids)
  }

  function WithOutcome(o: Outcome): ScreenRow -> bool {
    q => HasOutcome(q, o)
  }

  // ---------------------------------------------------------------- get_indicators

  /** One indicator row of the report. */
  datatype Indicators = Indicators(
    ageGroup: string,
    positive: seq<int>,
    negative: seq<int>,
    suspected: seq<int>,
    forSameDayTx: seq<int>)

  function OutcomeList(ind: Indicators, o: Outcome): seq<int> {
    match o
    case Positive => ind.positive
    case Negative => ind.negative
    case Suspected => ind.suspected
  }

  /**
   * `get_indicators`: for each outcome, the distinct person ids of the rows
   * with that screening result; and those of the rows marked for same-day
   * treatment.
   */
  function GetIndicators(x: seq<ScreenRow>, ageGroup: string): (r: Indicators)
    ensures r.ageGroup == ageGroup
  {
    Indicators(
      ageGroup,
      PersonIds(Select(x, WithOutcome(Positive))),
      PersonIds(Select(x, WithOutcome(Negative))),
      PersonIds(Select(x, WithOutcome(Suspected))),
      PersonIds(Select(x, q => SameDayTreatment(q))))
  }

  /**
   * Every list of an indicator row is duplicate-free and holds exactly the
   * ids of the rows with that outcome, or marked for same-day treatment.
   */
  lemma GetIndicatorsMeaning(x: seq<ScreenRow>, ageGroup: string)
    ensures var r := GetIndicators(x, ageGroup);
      NoDuplicates(r.positive) && NoDuplicates(r.negative) && NoDuplicates(r.suspected)
      && NoDuplicates(r.forSameDayTx)
      && (forall id :: id in r.positive <==> exists q :: q in x && HasOutcome(q, Positive) && q.personId == id)
      && (forall id :: id in r.negative <==> exists q :: q in x && HasOutcome(q, Negative) && q.personId == id)
      && (forall id :: id in r.suspected <==> exists q :: q in x && HasOutcome(q, Suspected) && q.personId == id)
      && (forall id :: id in r.forSameDayTx <==> exists q :: q in x && SameDayTreatment(q) && q.personId == id)
  {
  }

  /** Each outcome list of an indicator row is the distinct ids of the rows with that outcome. */
  lemma OutcomeListMeaning(x: seq<ScreenRow>, ageGroup: string, o: Outcome)
    ensures NoDuplicates(OutcomeList(GetIndicators(x, ageGroup), o))
    ensures forall id :: id in OutcomeList(GetIndicators(x, ageGroup), o) <==>
      exists q :: q in x && HasOutcome(q, o) && q.personId == id
  {
    GetIndicatorsMeaning(x, ageGroup);
  }

  /** A person listed under one outcome of a row group with a single row is listed under no other. */
  lemma OneRowOneOutcome(q: ScreenRow, ageGroup: string, o1: Outcome, o2: Outcome)
    requires q.personId in OutcomeList(GetIndicators([q], ageGroup), o1)
    requires q.personId in OutcomeList(GetIndicators([q], ageGroup), o2)
    ensures o1 == o2
  {
    OutcomeListMeaning([q], ageGroup, o1);
    OutcomeListMeaning([q], ageGroup, o2);
    OutcomesDisjoint(Downcase(ToS(q.screeningResults)), o1, o2);
  }

  // ---------------------------------------------------------------- init_report

  function ForGroupAndAge(g: TxGroup, ageGroup: string): ScreenRow -> bool {
    q => InGroup(q, g) && q.ageGroup == Some(ageGroup)
  }

  function ForGroupFiftyPlus(g: TxGroup, fiftyPlus: seq<string>): ScreenRow -> bool {
    q => InGroup(q, g) && q.ageGroup.Some? && q.ageGroup.value in fiftyPlus
  }

  /** The indicator rows `init_report` pushes for one group. */
  function GroupRows(query: seq<ScreenRow>, g: TxGroup, ageGroups: seq<string>, fiftyPlus: seq<string>): (r: seq<Indicators>)
    ensures |r| == |ageGroups| + 1
  {
    seq(|ageGroups|, i requires 0 <= i < |ageGroups| => AgeRow(query, g, ageGroups[i]))
      + [FiftyPlusRow(query, g, fiftyPlus)]
  }

  /** The row an age group contributes, and the closing '50 plus years' row. */
  function AgeRow(query: seq<ScreenRow>, g: TxGroup, ageGroup: string): Indicators {
    GetIndicators(Select(query, ForGroupAndAge(g, ageGroup)), ageGroup)
  }

  function FiftyPlusRow(query: seq<ScreenRow>, g: TxGroup, fiftyPlus: seq<string>): Indicators {
    GetIndicators(Select(query, ForGroupFiftyPlus(g, fiftyPlus)), "50 plus years")
  }

  lemma GroupRowsPrefix(query: seq<ScreenRow>, g: TxGroup, ageGroups: seq<string>, fiftyPlus: seq<string>, i: int)
    requires 0 <= i < |ageGroups|
    ensures GroupRows(query, g, ageGroups, fiftyPlus)[..i + 1]
      == GroupRows(query, g, ageGroups, fiftyPlus)[..i] + [AgeRow(query, g, ageGroups[i])]
  {
    var rows := GroupRows(query, g, ageGroups, fiftyPlus);
    assert rows[i] == AgeRow(query, g, ageGroups[i]);
    TakeOneMore(rows, i);
  }

  lemma UpdateTwice<K, V>(m: map<K, V>, k: K, a: V, b: V)
    ensures m[k := a][k := b] == m[k := b]
  {
  }

  lemma TakeOneMore<T>(s: seq<T>, i: int)
    requires 0 <= i < |s|
    ensures s[..i + 1] == s[..i] + [s[i]]
  {
  }

  lemma GroupRowsLast(query: seq<ScreenRow>, g: TxGroup, ageGroups: seq<string>, fiftyPlus: seq<string>)
    ensures GroupRows(query, g, ageGroups, fiftyPlus)
      == GroupRows(query, g, ageGroups, fiftyPlus)[..|ageGroups|] + [FiftyPlusRow(query, g, fiftyPlus)]
  {
    var rows := GroupRows(query, g, ageGroups, fiftyPlus);
    assert rows[|ageGroups|] == FiftyPlusRow(query, g, fiftyPlus);
  }

  /**
   * One row per age group, labelled with it, then one '50 plus years' row;
   * a person appears in a row only for a row of that group and age.
   */
  lemma GroupRowsShape(query: seq<ScreenRow>, g: TxGroup, ageGroups: seq<string>, fiftyPlus: seq<string>, i: int)
    requires 0 <= i < |ageGroups|
    ensures GroupRows(query, g, ageGroups, fiftyPlus)[i].ageGroup == ageGroups[i]
    ensures GroupRows(query, g, ageGroups, fiftyPlus)[|ageGroups|].ageGroup == "50 plus years"
    ensures forall o, id :: id in OutcomeList(GroupRows(query, g, ageGroups, fiftyPlus)[i], o) ==>
      exists q :: q in query && InGroup(q, g) && q.ageGroup == Some(ageGroups[i]) && HasOutcome(q, o) && q.personId == id
  {
    var row := GroupRows(query, g, ageGroups, fiftyPlus)[i];
    var x := Select(query, ForGroupAndAge(g, ageGroups[i]));
    assert row == GetIndicators(x, ageGroups[i]);
    forall o, id | id in OutcomeList(row, o)
      ensures exists q :: q in query && InGroup(q, g) && q.ageGroup == Some(ageGroups[i]) && HasOutcome(q, o) && q.personId == id
    {
      OutcomeListMeaning(x, ageGroups[i], o);
      var q :| q in x && HasOutcome(q, o) && q.personId == id;
      assert ForGroupAndAge(g, ageGroups[i])(q);
    }
  }

  /** A row whose lower-cased reason is outside a group's vocabulary adds nobody to that group's rows. */
  lemma OutsideGroupNotCounted(query: seq<ScreenRow>, g: TxGroup, ageGroups: seq<string>, fiftyPlus: seq<string>, q: ScreenRow, k: int, o: Outcome)
    requires 0 <= k <= |ageGroups| && !InGroup(q, g)
    requires forall p :: p in query && p.personId == q.personId ==> p == q
    ensures q.personId !in OutcomeList(GroupRows(query, g, ageGroups, fiftyPlus)[k], o)
  {
    var rows := GroupRows(query, g, ageGroups, fiftyPlus);
    if k < |ageGroups| {
      var x := Select(query, ForGroupAndAge(g, ageGroups[k]));
      assert rows[k] == GetIndicators(x, ageGroups[k]);
      OutcomeListMeaning(x, ageGroups[k], o);
      assert q !in x;
    } else {
      var x := Select(query, ForGroupFiftyPlus(g, fiftyPlus));
      assert rows[k] == GetIndicators(x, "50 plus years");
      OutcomeListMeaning(x, "50 plus years", o);
      assert q !in x;
    }
  }

  // ---------------------------------------------------------------- get_totals

  /** As written: the downcased VIA result is compared with 'VIA positive'. */
  predicate SameDayEligibleAsWritten(d: ScreenRow) {
    Downcase(ToS(d.viaResult)) == "VIA positive"
    || (d.screeningResults == Some("VIA positive") && SameDayTreatment(d))
  }

  /** Corrected: the downcased VIA result is compared with 'via positive'. */
  predicate SameDayEligibleCorrected(d: ScreenRow) {
    Downcase(ToS(d.viaResult)) == "via positive"
    || (d.screeningResults == Some("VIA positive") && SameDayTreatment(d))
  }

  /** A downcased text never equals 'VIA positive', so the first test of the as-written rule never holds. */
  lemma DowncasedNeverVia(s: string)
    ensures Downcase(s) != "VIA positive"
  {
    if |Downcase(s)| == |"VIA positive"| {
      assert !('A' <= Downcase(s)[0] <= 'Z');
    }
  }

  /** As written, a row counts exactly when its screening result is 'VIA positive' and it is for same-day treatment. */
  lemma SameDayEligibleMeaning(d: ScreenRow)
    ensures SameDayEligibleAsWritten(d) <==> d.screeningResults == Some("VIA positive") && SameDayTreatment(d)
  {
    DowncasedNeverVia(ToS(d.viaResult));
  }

  /** A row with VIA result 'VIA Positive' and no same-day treatment: counted when corrected, not as written. */
  lemma SameDayCounterexample()
    ensures var d := ScreenRow(1, None, None, Some("VIA Positive"), None, None);
      !SameDayEligibleAsWritten(d) && SameDayEligibleCorrected(d)
  {
    var d := ScreenRow(1, None, None, Some("VIA Positive"), None, None);
    DowncasedNeverVia(ToS(d.viaResult));
    assert Downcase("VIA Positive") == "via positive";
  }

  /** The report totals. */
  datatype Totals = Totals(
    totalScreened: seq<int>,
    totalNegative: seq<int>,
    totalViaPlusEligibleForSameDayTx: seq<ScreenRow>,
    totalPositive: seq<int>,
    totalSuspectCancer: seq<int>)

  /**
   * `get_totals` with the corrected same-day rule. The screened total holds
   * each person once; the outcome totals hold only screened persons; the
   * same-day total holds distinct rows.
   */
  function TotalsOf(query: seq<ScreenRow>): (r: Totals)
    ensures NoDuplicates(r.totalScreened)
    ensures forall id :: id in r.totalScreened <==> exists q :: q in query && q.personId == id
    ensures forall id :: id in r.totalNegative ==> id in r.totalScreened
    ensures forall id :: id in r.totalPositive ==> id in r.totalScreened
    ensures forall id :: id in r.totalSuspectCancer ==> id in r.totalScreened
    ensures forall id :: id in r.totalNegative <==> exists q :: q in query && HasOutcome(q, Negative) && q.personId == id
    ensures forall id :: id in r.totalPositive <==> exists q :: q in query && HasOutcome(q, Positive) && q.personId == id
    ensures forall id :: id in r.totalSuspectCancer <==> exists q :: q in query && HasOutcome(q, Suspected) && q.personId == id
    ensures NoDuplicates(r.totalViaPlusEligibleForSameDayTx)
    ensures forall d :: d in r.totalViaPlusEligibleForSameDayTx <==> d in query && SameDayEligibleCorrected(d)
  {
    Totals(
      PersonIds(query),
      PersonIds(Select(query, WithOutcome(Negative))),
      Uniq(Select(query, q => SameDayEligibleCorrected(q))),
      PersonIds(Select(query, WithOutcome(Positive))),
      PersonIds(Select(query, WithOutcome(Suspected))))
  }

  /** The same-day total as written. */
  function SameDayTotalAsWritten(query: seq<ScreenRow>): (r: seq<ScreenRow>)
    ensures forall d :: d in r <==> d in query && d.screeningResults == Some("VIA positive") && SameDayTreatment(d)
  {
    var r := Uniq(Select(query, q => SameDayEligibleAsWritten(q)));
    assert forall d :: SameDayEligibleAsWritten(d) <==> d.screeningResults == Some("VIA positive") && SameDayTreatment(d) by {
      forall d ensures SameDayEligibleAsWritten(d) <==> d.screeningResults == Some("VIA positive") && SameDayTreatment(d) {
        SameDayEligibleMeaning(d);
      }
    }
    r
  }

  // ---------------------------------------------------------------- the report object

  class MonthlyScreenReport {
    /** `report['data']`: the indicator rows of each group, absent until `init_report` reaches it. */
    var data: map<TxGroup, seq<Indicators>>
    var totals: Option<Totals>

    constructor ()
      ensures data == map[] && totals == None
    {
      data := map[];
      totals := None;
    }

    /**
     * `init_report`: for each group in order, one indicator row per age
     * group then one '50 plus years' row, appended to what the group held.
     */
    method InitReport(query: seq<ScreenRow>, ageGroups: seq<string>, fiftyPlus: seq<string>)
      modifies this`data
      ensures forall g :: g in data <==> g in old(data) || g in TxGroups()
      ensures forall g :: g in TxGroups() ==>
        data[g] == (if g in old(data) then old(data)[g] else []) + GroupRows(query, g, ageGroups, fiftyPlus)
    {
      var groups := TxGroups();
      var j := 0;
      while j < |groups|
        invariant 0 <= j <= |groups|
        invariant forall g :: g in data <==> g in old(data) || g in groups[..j]
        invariant forall g :: g in groups[..j] ==>
          data[g] == (if g in old(data) then old(data)[g] else []) + GroupRows(query, g, ageGroups, fiftyPlus)
        invariant forall g :: g in old(data) && g !in groups[..j] ==> data[g] == old(data)[g]
      {
        assert groups[..j + 1] == groups[..j] + [groups[j]];
        PushGroup(query, groups[j], ageGroups, fiftyPlus);
        j := j + 1;
      }
      assert groups[..j] == groups;
    }

    /** The body of `init_report` for one group: its age-group rows, then the '50 plus years' row. */
    method PushGroup(query: seq<ScreenRow>, name: TxGroup, ageGroups: seq<string>, fiftyPlus: seq<string>)
      modifies this`data
      ensures data == old(data)[name := (if name in old(data) then old(data)[name] else []) + GroupRows(query, name, ageGroups, fiftyPlus)]
    {
      if name !in data {
        data := data[name := []];
      }
      ghost var before := data;
      ghost var rows := GroupRows(query, name, ageGroups, fiftyPlus);
      assert before[name] + rows[..0] == before[name];
      assert data == before[name := before[name]];
      var i := 0;
      while i < |ageGroups|
        invariant 0 <= i <= |ageGroups|
        invariant data == before[name := before[name] + rows[..i]]
      {
        GroupRowsPrefix(query, name, ageGroups, fiftyPlus, i);
        var row := AgeRow(query, name, ageGroups[i]);
        assert data[name] == before[name] + rows[..i];
        assert before[name] + rows[..i + 1] == (before[name] + rows[..i]) + [row];
        data := data[name := data[name] + [row]];
        UpdateTwice(before, name, before[name] + rows[..i], before[name] + rows[..i + 1]);
        i := i + 1;
      }
      GroupRowsLast(query, name, ageGroups, fiftyPlus);
      var fifty := FiftyPlusRow(query, name, fiftyPlus);
      assert (before[name] + rows[..i]) + [fifty] == before[name] + rows;
      data := data[name := data[name] + [fifty]];
      UpdateTwice(before, name, before[name] + rows[..i], before[name] + rows);
      assert before[name] == if name in old(data) then old(data)[name] else [];
      assert before == old(data)[name := before[name]];
      UpdateTwice(old(data), name, before[name], before[name] + rows);
    }

    /** `get_totals`: all five totals replaced. */
    method GetTotals(query: seq<ScreenRow>)
      modifies this`totals
      ensures totals == Some(TotalsOf(query))
    {
      totals := Some(TotalsOf(query));
    }
  }
}
