/**
 * The MoH "HTS initial tested for syphilis" report: row selection by column
 * value, the day-difference and age helpers, the age and time-since
 * buckets, the per-key person-id deduplication and the condom and
 * referral-slip totals. The query rows come in as data.
 */
module HtsSyphilis {
  import opened Collections
  import opened Text
  import opened Calendar

  // ---------------------------------------------------------------- rows and cells

  /** A column value of a query row: SQL NULL, a number, text, or a date. */
  datatype Value = Null | Int(i: int) | Str(s: string) | DateV(d: Date)

  /** A query row, column name to value; a missing column reads as nil. */
  type Row = map<string, Value>

  function Cell(q: Row, key: string): Value {
    if key in q then q[key] else Null
  }

  /** Zero-padded decimal text of a natural number. */
  function Padded(n: nat, width: nat): (r: string)
    ensures |r| >= width && |r| > 0
    ensures forall i :: 0 <= i < |r| ==> IsDigit(r[i])
    decreases width
  {
    var digits := NatToString(n);
    if |digits| >= width then digits else "0" + Padded(n, width - 1)
  }

  /** The text of one date field: zero-padded, or signed when negative. */
  function FieldText(n: int, width: nat): (r: string)
    ensures |r| > 0 && (IsDigit(r[0]) || r[0] == '-') && IsDigit(r[|r| - 1])
  {
    if n >= 0 then Padded(n, width) else "-" + NatToString(-n)
  }

  /** `Date#to_s`: ISO 8601, for the years 0 through 9999. */
  function DateText(d: Date): string {
    FieldText(d.year, 4) + "-" + FieldText(d.month, 2) + "-" + FieldText(d.day, 2)
  }

  /** `v&.to_s`: nil stays nil, anything else becomes its text. */
  function ToS(v: Value): (r: Option<string>)
    ensures r.None? <==> v.Null?
    ensures v.Str? ==> r == Some(v.s)
  {
    match v
    case Null => None
    case Int(i) => Some(IntToString(i))
    case Str(s) => Some(s)
    case DateV(d) => Some(DateText(d))
  }

  /**
   * `v&.to_s&.strip`. The text of a number or a date has no surrounding
   * whitespace, so only a string is stripped (StrippedTextIsStrip).
   */
  function StrippedText(v: Value): (r: Option<string>)
    ensures r.None? <==> v.Null?
  {
    match v
    case Null => None
    case Int(i) => Some(IntToString(i))
    case Str(s) => Some(Strip(s))
    case DateV(d) => Some(DateText(d))
  }

  lemma StripUnpadded(s: string)
    requires |s| > 0 && !IsStripped(s[0]) && !IsStripped(s[|s| - 1])
    ensures Strip(s) == s
  {
    assert TrimStart(s) == s;
  }

  lemma IntTextUnpadded(i: int)
    ensures Strip(IntToString(i)) == IntToString(i)
  {
    var t := IntToString(i);
    if i >= 0 {
      assert IsDigit(t[0]) && IsDigit(t[|t| - 1]);
    } else {
      var n := NatToString(-i);
      assert t == "-" + n;
      assert t[|t| - 1] == n[|n| - 1];
      assert IsDigit(n[|n| - 1]);
    }
    StripUnpadded(t);
  }

  lemma DateTextUnpadded(d: Date)
    ensures Strip(DateText(d)) == DateText(d)
  {
    var y := FieldText(d.year, 4);
    var day := FieldText(d.day, 2);
    var t := DateText(d);
    assert t[0] == y[0];
    assert t[|t| - 1] == day[|day| - 1];
    StripUnpadded(t);
  }

  /** StrippedText is `to_s` followed by `strip`. */
  lemma StrippedTextIsStrip(v: Value)
    ensures StrippedText(v) == match ToS(v) case None => None case Some(t) => Some(Strip(t))
  {
    match v
    case Null =>
    case Str(_) =>
    case Int(i) => IntTextUnpadded(i);
    case DateV(d) => DateTextUnpadded(d);
  }

  // ---------------------------------------------------------------- filter_hash

  /** A `filter_hash` key: one column, or two columns that must both equal the value. */
  datatype FilterKey = Column(name: string) | ColumnPair(first: string, second: string)

  predicate Matches(q: Row, key: FilterKey, value: Value) {
    match key
    case Column(n) => StrippedText(Cell(q, n)) == StrippedText(value)
    case ColumnPair(a, b) => Cell(q, a) == value && Cell(q, b) == value
  }

  /** `filter_hash(key, value)` over the query rows. */
  function FilterHash(rows: seq<Row>, key: FilterKey, value: Value): (r: seq<Row>)
    ensures |r| <= |rows|
  {
    Select(rows, q => Matches(q, key, value))
  }

  /** With a column key, a row is kept exactly when its value's stripped text equals the target's. */
  lemma FilterHashColumn(rows: seq<Row>, n: string, value: Value, q: Row)
    ensures q in FilterHash(rows, Column(n), value)
      <==> q in rows && StrippedText(Cell(q, n)) == StrippedText(value)
  {
  }

  /** With a pair key, a row is kept exactly when both columns equal the value. */
  lemma FilterHashPair(rows: seq<Row>, a: string, b: string, value: Value, q: Row)
    ensures q in FilterHash(rows, ColumnPair(a, b), value)
      <==> q in rows && Cell(q, a) == value && Cell(q, b) == value
  {
  }

  /** A nil target keeps exactly the rows where the column is nil or missing. */
  lemma FilterHashNilTarget(rows: seq<Row>, n: string, q: Row)
    ensures q in FilterHash(rows, Column(n), Null) <==> q in rows && Cell(q, n) == Null
  {
  }

  // ---------------------------------------------------------------- get_diff and birthdate_to_age

  /**
   * `get_diff`: the days from the second date to the first, or -1 when
   * either is missing or is not a date.
   */
  function GetDiff(obsTime: Value, timeSince: Value): (r: int)
    ensures !(obsTime.DateV? && timeSince.DateV?) ==> r == -1
    ensures obsTime.DateV? && timeSince.DateV? ==> r == DayNumber(obsTime.d) - DayNumber(timeSince.d)
  {
    if obsTime.DateV? && timeSince.DateV? then DaysBetween(obsTime.d, timeSince.d) else -1
  }

  /** Swapping two dates negates their difference. */
  lemma GetDiffAntisymmetric(a: Date, b: Date)
    ensures GetDiff(DateV(a), DateV(b)) == -GetDiff(DateV(b), DateV(a))
  {
  }

  /** `birthdate_to_age`: the difference of calendar years; a nil or non-date birthdate raises. */
  function BirthdateToAge(birthdate: Value, today: Date): (r: Result<int>)
    ensures r.Ok? <==> birthdate.DateV?
    ensures r.Ok? ==> r.value == today.year - birthdate.d.year
  {
    match birthdate
    case DateV(d) => Ok(today.year - d.year)
    case _ => Raised("NoMethodError: undefined method 'year'")
  }

  // ---------------------------------------------------------------- buckets

  datatype AgeBand = Under1 | From1To14 | From15To24 | From25

  predicate InAgeBand(b: AgeBand, age: int) {
    match b
    case Under1 => age < 1
    case From1To14 => 1 <= age <= 14
    case From15To24 => 15 <= age <= 24
    case From25 => age >= 25
  }

  /** Every age lies in exactly one band. */
  lemma AgeBandsPartition(age: int)
    ensures exists b :: InAgeBand(b, age)
    ensures forall b1, b2 :: InAgeBand(b1, age) && InAgeBand(b2, age) ==> b1 == b2
  {
    if age < 1 { assert InAgeBand(Under1, age); }
    else if age <= 14 { assert InAgeBand(From1To14, age); }
    else if age <= 24 { assert InAgeBand(From15To24, age); }
    else { assert InAgeBand(From25, age); }
  }

  /** Windows of `time_since_last_hiv_test_*`, in days. */
  datatype HivTestWindow = SameDay | Days1To13 | Days14To60 | Days61To150 | Days151To330 | Days365Plus

  predicate InHivTestWindow(w: HivTestWindow, d: int) {
    match w
    case SameDay => d == 0
    case Days1To13 => 1 <= d <= 13
    case Days14To60 => 14 <= d <= 60
    case Days61To150 => 61 <= d <= 150
    case Days151To330 => 151 <= d <= 330
    case Days365Plus => d >= 365
  }

  /**
   * The HIV-test windows never overlap, and a difference falls in one
   * exactly when it is 0 to 330 or at least 365: a failed difference (-1)
   * and 331 to 364 days are counted nowhere.
   */
  lemma HivTestWindows(d: int)
    ensures forall w1, w2 :: InHivTestWindow(w1, d) && InHivTestWindow(w2, d) ==> w1 == w2
    ensures (exists w :: InHivTestWindow(w, d)) <==> 0 <= d <= 330 || d >= 365
  {
    if d == 0 { assert InHivTestWindow(SameDay, d); }
    else if 1 <= d <= 13 { assert InHivTestWindow(Days1To13, d); }
    else if 14 <= d <= 60 { assert InHivTestWindow(Days14To60, d); }
    else if 61 <= d <= 150 { assert InHivTestWindow(Days61To150, d); }
    else if 151 <= d <= 330 { assert InHivTestWindow(Days151To330, d); }
    else if d >= 365 { assert InHivTestWindow(Days365Plus, d); }
  }

  /** Windows of `time_since_last_taken_arvs_*`, in days. */
  datatype ArvWindow = ArvSameDay | Arv1To13 | Arv14To60 | Arv61To150 | Arv151To330 | Arv331To1000

  predicate InArvWindow(w: ArvWindow, d: int) {
    match w
    case ArvSameDay => d == 0
    case Arv1To13 => 1 <= d <= 13
    case Arv14To60 => 14 <= d <= 60
    case Arv61To150 => 61 <= d <= 150
    case Arv151To330 => 151 <= d <= 330
    case Arv331To1000 => 331 <= d <= 1000
  }

  /** The ARV windows never overlap and together cover exactly 0 to 1000 days. */
  lemma ArvWindows(d: int)
    ensures forall w1, w2 :: InArvWindow(w1, d) && InArvWindow(w2, d) ==> w1 == w2
    ensures (exists w :: InArvWindow(w, d)) <==> 0 <= d <= 1000
  {
    if d == 0 { assert InArvWindow(ArvSameDay, d); }
    else if 1 <= d <= 13 { assert InArvWindow(Arv1To13, d); }
    else if 14 <= d <= 60 { assert InArvWindow(Arv14To60, d); }
    else if 61 <= d <= 150 { assert InArvWindow(Arv61To150, d); }
    else if 151 <= d <= 330 { assert InArvWindow(Arv151To330, d); }
    else if 331 <= d <= 1000 { assert InArvWindow(Arv331To1000, d); }
  }

  /** Days from the HIV test, or from the last medication, to the encounter. */
  function HivTestDiff(q: Row): int {
    GetDiff(Cell(q, "encounter_datetime"), Cell(q, "time_of_hiv_test"))
  }

  function ArvDiff(q: Row): int {
    GetDiff(Cell(q, "encounter_datetime"), Cell(q, "time_since_last_medication"))
  }

  // ---------------------------------------------------------------- age selection

  /** Some row's birthdate is nil or not a date, so `birthdate_to_age` raises. */
  predicate AgeRaises(rows: seq<Row>) {
    exists i :: 0 <= i < |rows| && !Cell(rows[i], "birthdate").DateV?
  }

  function AgeOf(q: Row, today: Date): int
    requires Cell(q, "birthdate").DateV?
  {
    today.year - Cell(q, "birthdate").d.year
  }

  /** The rows of one age band; every row's age is computed, so one bad birthdate raises. */
  function SelectAgeBand(rows: seq<Row>, today: Date, b: AgeBand): (r: Result<seq<Row>>)
    ensures r.Raised? <==> AgeRaises(rows)
    ensures r.Ok? ==> forall q :: q in r.value <==> q in rows && InAgeBand(b, AgeOf(q, today))
    ensures r.Ok? ==> |r.value| <= |rows|
    decreases |rows|
  {
    if |rows| == 0 then Ok([])
    else
      match BirthdateToAge(Cell(rows[0], "birthdate"), today)
      case Raised(m) => Raised(m)
      case Ok(age) =>
        assert forall i :: 1 <= i < |rows| ==> rows[i] == rows[1..][i - 1];
        match SelectAgeBand(rows[1..], today, b)
        case Raised(m) => Raised(m)
        case Ok(rest) => Ok(if InAgeBand(b, age) then [rows[0]] + rest else rest)
  }

  /** The four age lists together hold every row once. */
  lemma {:induction false} AgeBandsCount(rows: seq<Row>, today: Date)
    requires !AgeRaises(rows)
    ensures |SelectAgeBand(rows, today, Under1).value| + |SelectAgeBand(rows, today, From1To14).value|
      + |SelectAgeBand(rows, today, From15To24).value| + |SelectAgeBand(rows, today, From25).value| == |rows|
    decreases |rows|
  {
    if |rows| > 0 {
      assert !AgeRaises(rows[1..]) by {
        forall i | 0 <= i < |rows[1..]| ensures Cell(rows[1..][i], "birthdate").DateV? {
          assert rows[1..][i] == rows[i + 1];
        }
      }
      assert Cell(rows[0], "birthdate").DateV?;
      AgeBandsCount(rows[1..], today);
    }
  }

  // ---------------------------------------------------------------- items given

  /** Some non-nil cell of the column is not a number, so `sum` raises. */
  predicate SumRaises(rows: seq<Row>, col: string) {
    exists i :: 0 <= i < |rows| && !Cell(rows[i], col).Null? && !Cell(rows[i], col).Int?
  }

  /** `rows.map { |q| q[col] }` with the numbers kept and everything else as nil. */
  function Numbers(rows: seq<Row>, col: string): (r: seq<Option<int>>)
    ensures |r| == |rows|
    decreases |rows|
  {
    if |rows| == 0 then []
    else [if Cell(rows[0], col).Int? then Some(Cell(rows[0], col).i) else None] + Numbers(rows[1..], col)
  }

  /** `rows.map { |q| q[col] }.compact.sum`, adding the values in order. */
  function ColumnSum(rows: seq<Row>, col: string): (r: Result<int>)
    ensures r.Raised? <==> SumRaises(rows, col)
    decreases |rows|
  {
    if |rows| == 0 then Ok(0)
    else
      assert forall i :: 1 <= i < |rows| ==> rows[i] == rows[1..][i - 1];
      var v := Cell(rows[0], col);
      if !v.Null? && !v.Int? then Raised("TypeError: can't be coerced into Integer")
      else match ColumnSum(rows[1..], col)
        case Raised(m) => Raised(m)
        case Ok(rest) => Ok((if v.Int? then v.i else 0) + rest)
  }

  /** A total that does not raise is the sum of the column's non-nil values. */
  lemma {:induction false} ColumnSumIsSumOfCompact(rows: seq<Row>, col: string)
    requires !SumRaises(rows, col)
    ensures ColumnSum(rows, col) == Ok(Sum(Compact(Numbers(rows, col))))
    decreases |rows|
  {
    if |rows| > 0 {
      assert !SumRaises(rows[1..], col) by {
        forall i | 0 <= i < |rows[1..]| ensures Cell(rows[1..][i], col).Null? || Cell(rows[1..][i], col).Int? {
          assert rows[1..][i] == rows[i + 1];
        }
      }
      ColumnSumIsSumOfCompact(rows[1..], col);
      var head := if Cell(rows[0], col).Int? then Some(Cell(rows[0], col).i) else None;
      assert ([head] + Numbers(rows[1..], col))[1..] == Numbers(rows[1..], col);
    }
  }

  // ---------------------------------------------------------------- report keys and entries

  /** The kinds of `last_hiv_test_*` list. */
  datatype LastTestKind = NeverTested | NegativeSelf | NegativeProf | PositiveSelf | PositiveProf
    | PositiveProfInitial | InconclusiveProf | InvalidSelf | ExposedInfant

  datatype EverTaken = ArvsNo | ArvsPrep | ArvsPep | ArvsArt

  datatype Item = MaleCondoms | FemaleCondoms | ReferralSlips

  /** A key of `@data`; `Listed` names the starting keys no modelled step writes. */
  datatype Key =
    | AgeGroup(band: AgeBand)
    | LastHivTest(kind: LastTestKind)
    | HivTestTime(hw: HivTestWindow)
    | EverTakenArvs(taken: EverTaken)
    | ArvTime(aw: ArvWindow)
    | ItemSum(item: Item)
    | Listed(name: string)

  /** The key's text in the report. */
  function KeyName(k: Key): string {
    match k
    case AgeGroup(Under1) => "age_group_years_a_under_1"
    case AgeGroup(From1To14) => "age_group_years_b_114"
    case AgeGroup(From15To24) => "age_group_years_c_1524"
    case AgeGroup(From25) => "age_group_years_d_25plus"
    case LastHivTest(NeverTested) => "last_hiv_test_never_tested"
    case LastHivTest(NegativeSelf) => "last_hiv_test_negative_selftest"
    case LastHivTest(NegativeProf) => "last_hiv_test_negative_prof_test"
    case LastHivTest(PositiveSelf) => "last_hiv_test_positive_selftest"
    case LastHivTest(PositiveProf) => "last_hiv_test_positive_prof_test"
    case LastHivTest(PositiveProfInitial) => "last_hiv_test_positive_prof_initial_test"
    case LastHivTest(InconclusiveProf) => "last_hiv_test_inconclusive_prof_test"
    case LastHivTest(InvalidSelf) => "last_hiv_test_invalid_selftest"
    case LastHivTest(ExposedInfant) => "last_hiv_test_exposed_infant"
    case HivTestTime(SameDay) => "time_since_last_hiv_test_same_day"
    case HivTestTime(Days1To13) => "time_since_last_hiv_test_1_to_13_days"
    case HivTestTime(Days14To60) => "time_since_last_hiv_test_14_days_to_2_months"
    case HivTestTime(Days61To150) => "time_since_last_hiv_test_35_months"
    case HivTestTime(Days151To330) => "time_since_last_hiv_test_611_months"
    case HivTestTime(Days365Plus) => "time_since_last_hiv_test_12plus_months"
    case EverTakenArvs(ArvsNo) => "ever_taken_arvs_no"
    case EverTakenArvs(ArvsPrep) => "ever_taken_arvs_prep"
    case EverTakenArvs(ArvsPep) => "ever_taken_arvs_pep"
    case EverTakenArvs(ArvsArt) => "ever_taken_arvs_art"
    case ArvTime(ArvSameDay) => "time_since_last_taken_arvs_same_day"
    case ArvTime(Arv1To13) => "time_since_last_taken_arvs_1_to_13_days"
    case ArvTime(Arv14To60) => "time_since_last_taken_arvs_14_days_to_2_months"
    case ArvTime(Arv61To150) => "time_since_last_taken_arvs_3_to_5_months"
    case ArvTime(Arv151To330) => "time_since_last_taken_arvs_6_to_11_months"
    case ArvTime(Arv331To1000) => "time_since_last_taken_arvs_12_plus_months"
    case ItemSum(MaleCondoms) => "male_condoms_given_male_condoms_sum"
    case ItemSum(FemaleCondoms) => "female_condoms_given_female_condoms_sum"
    case ItemSum(ReferralSlips) => "frs_given_family_referral_slips_sum"
    case Listed(n) => n
  }

  /** A value of `@data`: the selected rows, a numeric total, or person ids after `set_unique`. */
  datatype Entry = Rows(rows: seq<Row>) | Total(n: int) | Ids(ids: seq<Value>)

  function PersonIds(rows: seq<Row>): (r: seq<Value>)
    ensures |r| == |rows|
    ensures forall i :: 0 <= i < |rows| ==> r[i] == Cell(rows[i], "person_id")
  {
    seq(|rows|, i requires 0 <= i < |rows| => Cell(rows[i], "person_id"))
  }

  /** A key other than the three sums holds something other than rows, on which `map` raises. */
  predicate SetUniqueRaises(d: map<Key, Entry>) {
    exists k :: k in d && !k.ItemSum? && !d[k].Rows?
  }

  /** `set_unique`: the sums untouched, every other list of rows replaced by its distinct person ids. */
  function SetUniqueOf(d: map<Key, Entry>): (r: map<Key, Entry>)
    ensures r.Keys == d.Keys
    ensures forall k :: k in d && k.ItemSum? ==> r[k] == d[k]
    ensures forall k :: k in d && !k.ItemSum? && d[k].Rows? ==>
      r[k].Ids? && NoDuplicates(r[k].ids)
      && forall v :: v in r[k].ids <==> exists q :: q in d[k].rows && Cell(q, "person_id") == v
  {
    map k | k in d :: if !k.ItemSum? && d[k].Rows? then Ids(Uniq(PersonIds(d[k].rows))) else d[k]
  }

  // ---------------------------------------------------------------- last HIV test lists

  /** Concept ids the report compares coded answers against. */
  datatype Concepts = Concepts(
    self: int, professional: int, initialProfessional: int,
    neverTested: int, exposedInfant: int, positives: seq<int>,
    negative: int, inconclusive: int)

  function DoneBy(rows: seq<Row>, id: int): (r: seq<Row>)
    ensures forall q :: q in r <==> q in rows && Matches(q, Column("previous_hiv_test_done"), Int(id))
  {
    FilterHash(rows, Column("previous_hiv_test_done"), Int(id))
  }

  /** `q['previous_hiv_test'] = text` on every row whose test was done the given way. */
  function OverwritePreviousTest(rows: seq<Row>, doneBy: int, text: string): (r: seq<Row>)
    ensures |r| == |rows|
    ensures forall i :: (0 <= i < |rows| && Matches(rows[i], Column("previous_hiv_test_done"), Int(doneBy))
      ==> Cell(r[i], "previous_hiv_test") == Str(text))
    ensures forall i :: (0 <= i < |rows| && !Matches(rows[i], Column("previous_hiv_test_done"), Int(doneBy))
      ==> r[i] == rows[i])
    ensures forall i :: 0 <= i < |rows| ==> r[i] - {"previous_hiv_test"} == rows[i] - {"previous_hiv_test"}
  {
    seq(|rows|, i requires 0 <= i < |rows| =>
      if Matches(rows[i], Column("previous_hiv_test_done"), Int(doneBy))
      then rows[i]["previous_hiv_test" := Str(text)] else rows[i])
  }

  /** The previous test result is one of the positive concept ids. */
  predicate PositivePrevious(q: Row, c: Concepts) {
    exists p :: p in c.positives && Cell(q, "previous_hiv_test") == Int(p)
  }

  /** The select block of the positive lists. */
  function IsPositive(c: Concepts): Row -> bool {
    q => PositivePrevious(q, c)
  }

  /** The query after the four `=` selects, in the order they run. */
  function AfterSelfNegative(query: seq<Row>, c: Concepts): seq<Row> {
    OverwritePreviousTest(query, c.self, "Negative")
  }

  function AfterProfNegative(query: seq<Row>, c: Concepts): seq<Row> {
    OverwritePreviousTest(AfterSelfNegative(query, c), c.professional, "Negative")
  }

  function AfterProfInconclusive(query: seq<Row>, c: Concepts): seq<Row> {
    OverwritePreviousTest(AfterProfNegative(query, c), c.professional, "Invalid or inconclusive")
  }

  function AfterSelfInconclusive(query: seq<Row>, c: Concepts): seq<Row> {
    OverwritePreviousTest(AfterProfInconclusive(query, c), c.self, "Invalid or inconclusive")
  }

  /**
   * A `last_hiv_test_*` list as written: the `=` in the select blocks
   * assigns instead of comparing, keeping every row and rewriting it.
   */
  function LastTestAsWritten(query: seq<Row>, c: Concepts, k: LastTestKind): seq<Row> {
    match k
    case NeverTested => FilterHash(query, Column("previous_hiv_test"), Int(c.neverTested))
    case NegativeSelf => DoneBy(AfterSelfNegative(query, c), c.self)
    case NegativeProf => DoneBy(AfterProfNegative(query, c), c.professional)
    case PositiveSelf => PositiveSelfAsWritten(query, c)
    case PositiveProf => PositiveProfAsWritten(query, c)
    case PositiveProfInitial => Select(DoneBy(AfterProfNegative(query, c), c.initialProfessional), IsPositive(c))
    case InconclusiveProf => DoneBy(AfterProfInconclusive(query, c), c.professional)
    case InvalidSelf => DoneBy(AfterSelfInconclusive(query, c), c.self)
    case ExposedInfant => FilterHash(AfterSelfInconclusive(query, c), Column("previous_hiv_test"), Int(c.exposedInfant))
  }

  /** The positive self-test and professional-test lists as written: selected after both 'Negative' overwrites. */
  function PositiveSelfAsWritten(query: seq<Row>, c: Concepts): seq<Row> {
    Select(DoneBy(AfterProfNegative(query, c), c.self), IsPositive(c))
  }

  function PositiveProfAsWritten(query: seq<Row>, c: Concepts): seq<Row> {
    Select(DoneBy(AfterProfNegative(query, c), c.professional), IsPositive(c))
  }

  /** The select block comparing the coded previous result with one concept id. */
  function HasResult(id: int): Row -> bool {
    q => Cell(q, "previous_hiv_test") == Int(id)
  }

  function NegativeSelfCorrected(query: seq<Row>, c: Concepts): seq<Row> {
    Select(DoneBy(query, c.self), HasResult(c.negative))
  }

  function PositiveSelfCorrected(query: seq<Row>, c: Concepts): seq<Row> {
    Select(DoneBy(query, c.self), IsPositive(c))
  }

  /** A `last_hiv_test_*` list with `==` against the concept ids, the rows left as they are. */
  function LastTestCorrected(query: seq<Row>, c: Concepts, k: LastTestKind): seq<Row> {
    match k
    case NeverTested => FilterHash(query, Column("previous_hiv_test"), Int(c.neverTested))
    case NegativeSelf => NegativeSelfCorrected(query, c)
    case NegativeProf => Select(DoneBy(query, c.professional), HasResult(c.negative))
    case PositiveSelf => PositiveSelfCorrected(query, c)
    case PositiveProf => Select(DoneBy(query, c.professional), IsPositive(c))
    case PositiveProfInitial => Select(DoneBy(query, c.initialProfessional), IsPositive(c))
    case InconclusiveProf => Select(DoneBy(query, c.professional), HasResult(c.inconclusive))
    case InvalidSelf => Select(DoneBy(query, c.self), HasResult(c.inconclusive))
    case ExposedInfant => FilterHash(query, Column("previous_hiv_test"), Int(c.exposedInfant))
  }

  /** Corrected, a self-tested row is listed as positive exactly when its coded result is a positive one. */
  lemma CorrectedPositiveSelf(query: seq<Row>, c: Concepts, q: Row)
    ensures q in PositiveSelfCorrected(query, c)
      <==> q in query && Matches(q, Column("previous_hiv_test_done"), Int(c.self)) && PositivePrevious(q, c)
  {
  }

  /** Corrected, when the negative id is not a positive one, no row is both negative and positive. */
  lemma CorrectedNegativeAndPositiveDisjoint(query: seq<Row>, c: Concepts, q: Row)
    requires c.negative !in c.positives
    ensures q in NegativeSelfCorrected(query, c) ==> q !in PositiveSelfCorrected(query, c)
  {
    if q in NegativeSelfCorrected(query, c) {
      assert Cell(q, "previous_hiv_test") == Int(c.negative);
      assert !PositivePrevious(q, c) by {
        forall p | p in c.positives ensures Cell(q, "previous_hiv_test") != Int(p) {
          assert p != c.negative;
        }
      }
    }
  }

  /** Rows that agree outside 'previous_hiv_test' agree on every other column. */
  lemma SameOtherColumns(a: Row, b: Row, col: string)
    requires a - {"previous_hiv_test"} == b - {"previous_hiv_test"} && col != "previous_hiv_test"
    ensures Cell(a, col) == Cell(b, col)
  {
    assert col in a <==> col in a - {"previous_hiv_test"};
    assert col in b <==> col in b - {"previous_hiv_test"};
    if col in a {
      assert a[col] == (a - {"previous_hiv_test"})[col];
      assert b[col] == (b - {"previous_hiv_test"})[col];
    }
  }

  /** A row done the given way holds the text just written over its previous result. */
  lemma OverwrittenRowHoldsText(rows: seq<Row>, doneBy: int, text: string, q: Row)
    requires q in DoneBy(OverwritePreviousTest(rows, doneBy, text), doneBy)
    ensures Cell(q, "previous_hiv_test") == Str(text)
  {
    var r := OverwritePreviousTest(rows, doneBy, text);
    var i :| 0 <= i < |r| && r[i] == q;
    SameOtherColumns(r[i], rows[i], "previous_hiv_test_done");
  }

  /** Rewriting the rows done another way leaves this row's previous result as it was. */
  lemma OverwriteElsewhere(rows: seq<Row>, other: int, text: string, q: Row, doneBy: int, before: string)
    requires q in DoneBy(OverwritePreviousTest(rows, other, text), doneBy)
    requires forall p :: p in DoneBy(rows, doneBy) ==> Cell(p, "previous_hiv_test") == Str(before)
    ensures Cell(q, "previous_hiv_test") == Str(before) || Cell(q, "previous_hiv_test") == Str(text)
  {
    var r := OverwritePreviousTest(rows, other, text);
    var i :| 0 <= i < |r| && r[i] == q;
    SameOtherColumns(r[i], rows[i], "previous_hiv_test_done");
    if !Matches(rows[i], Column("previous_hiv_test_done"), Int(other)) {
      assert rows[i] in DoneBy(rows, doneBy);
    }
  }

  /** After the two 'Negative' overwrites, every self-tested row holds that text. */
  lemma SelfRowsHoldNegative(query: seq<Row>, c: Concepts)
    ensures forall p :: p in DoneBy(AfterProfNegative(query, c), c.self) ==> Cell(p, "previous_hiv_test") == Str("Negative")
  {
    var q1 := AfterSelfNegative(query, c);
    forall p | p in DoneBy(q1, c.self) ensures Cell(p, "previous_hiv_test") == Str("Negative") {
      OverwrittenRowHoldsText(query, c.self, "Negative", p);
    }
    forall p | p in DoneBy(AfterProfNegative(query, c), c.self) ensures Cell(p, "previous_hiv_test") == Str("Negative") {
      OverwriteElsewhere(q1, c.professional, "Negative", p, c.self, "Negative");
    }
  }

  /** After the two 'Negative' overwrites, every professionally tested row holds that text. */
  lemma ProfRowsHoldNegative(query: seq<Row>, c: Concepts)
    ensures forall p :: p in DoneBy(AfterProfNegative(query, c), c.professional) ==> Cell(p, "previous_hiv_test") == Str("Negative")
  {
    forall p | p in DoneBy(AfterProfNegative(query, c), c.professional) ensures Cell(p, "previous_hiv_test") == Str("Negative") {
      OverwrittenRowHoldsText(AfterSelfNegative(query, c), c.professional, "Negative", p);
    }
  }

  /** Rows whose previous result is text are never selected as positive. */
  lemma NoTextIsPositive(rows: seq<Row>, c: Concepts, text: string)
    requires forall p :: p in rows ==> Cell(p, "previous_hiv_test") == Str(text)
    ensures Select(rows, IsPositive(c)) == []
  {
    forall p | p in rows ensures !IsPositive(c)(p) {
      assert Cell(p, "previous_hiv_test").Str?;
    }
    EmptySelect(rows, IsPositive(c));
  }

  /**
   * As written, the positive self-test and the positive professional-test
   * lists are always empty: each of their rows has just had its previous
   * result overwritten with the text 'Negative', which no concept id equals.
   */
  lemma PositiveListsAlwaysEmpty(query: seq<Row>, c: Concepts)
    ensures PositiveSelfAsWritten(query, c) == []
    ensures PositiveProfAsWritten(query, c) == []
  {
    PositiveSelfAlwaysEmpty(query, c);
    PositiveProfAlwaysEmpty(query, c);
  }

  lemma PositiveSelfAlwaysEmpty(query: seq<Row>, c: Concepts)
    ensures PositiveSelfAsWritten(query, c) == []
  {
    SelfRowsHoldNegative(query, c);
    NoTextIsPositive(DoneBy(AfterProfNegative(query, c), c.self), c, "Negative");
  }

  lemma PositiveProfAlwaysEmpty(query: seq<Row>, c: Concepts)
    ensures PositiveProfAsWritten(query, c) == []
  {
    ProfRowsHoldNegative(query, c);
    NoTextIsPositive(DoneBy(AfterProfNegative(query, c), c.professional), c, "Negative");
  }

  /** One self-tested positive row: the corrected list holds it, the list as written does not. */
  lemma PositiveSelfTestCounterexample(c: Concepts)
    requires c.positives == [7] && c.self == 1
    ensures var q: Row := map["previous_hiv_test_done" := Int(1), "previous_hiv_test" := Int(7)];
      PositiveSelfAsWritten([q], c) == [] && q in PositiveSelfCorrected([q], c)
  {
    var q: Row := map["previous_hiv_test_done" := Int(1), "previous_hiv_test" := Int(7)];
    PositiveListsAlwaysEmpty([q], c);
    assert Cell(q, "previous_hiv_test_done") == Int(1);
    assert Cell(q, "previous_hiv_test") == Int(7);
    assert PositivePrevious(q, c) by { assert 7 in c.positives; }
    CorrectedPositiveSelf([q], c, q);
  }

  /** The two positive entries as written hold no rows. */
  lemma PositiveEntriesEmpty(query: seq<Row>, c: Concepts)
    ensures LastTestListsAsWritten(query, c)[LastHivTest(PositiveSelf)] == Rows([])
    ensures LastTestListsAsWritten(query, c)[LastHivTest(PositiveProf)] == Rows([])
  {
    PositiveListsAlwaysEmpty(query, c);
    assert LastTestAsWritten(query, c, PositiveSelf) == PositiveSelfAsWritten(query, c);
    assert LastTestAsWritten(query, c, PositiveProf) == PositiveProfAsWritten(query, c);
  }

  /** The nine `last_hiv_test_*` entries as written. */
  function LastTestListsAsWritten(query: seq<Row>, c: Concepts): (r: map<Key, Entry>)
    ensures forall k :: LastHivTest(k) in r && r[LastHivTest(k)] == Rows(LastTestAsWritten(query, c, k))
    ensures forall key :: key in r ==> key.LastHivTest?
  {
    map k: LastTestKind :: LastHivTest(k) := Rows(LastTestAsWritten(query, c, k))
  }

  /** The nine `last_hiv_test_*` entries with `==` in the select blocks. */
  function LastTestListsCorrected(query: seq<Row>, c: Concepts): (r: map<Key, Entry>)
    ensures forall k :: LastHivTest(k) in r && r[LastHivTest(k)] == Rows(LastTestCorrected(query, c, k))
    ensures forall key :: key in r ==> key.LastHivTest?
  {
    map k: LastTestKind :: LastHivTest(k) := Rows(LastTestCorrected(query, c, k))
  }

  /** The six `time_since_last_hiv_test_*` entries. */
  function HivTestTimeLists(rows: seq<Row>): (r: map<Key, Entry>)
    ensures forall w :: HivTestTime(w) in r && r[HivTestTime(w)] == Rows(Select(rows, q => InHivTestWindow(w, HivTestDiff(q))))
    ensures forall key :: key in r ==> key.HivTestTime?
  {
    map w: HivTestWindow :: HivTestTime(w) := Rows(Select(rows, q => InHivTestWindow(w, HivTestDiff(q))))
  }

  /** The six `time_since_last_taken_arvs_*` entries. */
  function ArvTimeLists(rows: seq<Row>): (r: map<Key, Entry>)
    ensures forall w :: ArvTime(w) in r && r[ArvTime(w)] == Rows(Select(rows, q => InArvWindow(w, ArvDiff(q))))
    ensures forall key :: key in r ==> key.ArvTime?
  {
    map w: ArvWindow :: ArvTime(w) := Rows(Select(rows, q => InArvWindow(w, ArvDiff(q))))
  }

  // ---------------------------------------------------------------- the report object

  /**
   * `@data` as the constructor leaves it: every starting key an empty list.
   * The starting names other than the two sums are given as a parameter.
   */
  function InitialData(names: set<string>): (r: map<Key, Entry>)
    ensures ItemSum(ReferralSlips) in r && ItemSum(MaleCondoms) in r && ItemSum(FemaleCondoms) !in r
    ensures forall n :: n in names <==> Listed(n) in r
    ensures forall k :: k in r ==> r[k] == Rows([])
  {
    (map n | n in names :: Listed(n) := Rows([]))
      + map[ItemSum(ReferralSlips) := Rows([]), ItemSum(MaleCondoms) := Rows([])]
  }

  class HtsSyphilisReport {
    var query: seq<Row>
    var data: map<Key, Entry>

    /** The report over the rows of the indicator query. */
    constructor (rows: seq<Row>, names: set<string>)
      ensures query == rows && data == InitialData(names)
    {
      query := rows;
      data := InitialData(names);
    }

    /** The age-band lists of `fetch_hepatitis_b_clients`; a bad birthdate raises before any is stored. */
    method FetchAgeGroups(today: Date) returns (r: Result<bool>)
      modifies this`data
      ensures r.Raised? <==> AgeRaises(query)
      ensures r.Raised? ==> data == old(data)
      ensures r.Ok? ==> data.Keys == old(data).Keys + {AgeGroup(Under1), AgeGroup(From1To14), AgeGroup(From15To24), AgeGroup(From25)}
      ensures r.Ok? ==> data[AgeGroup(Under1)] == Rows(SelectAgeBand(query, today, Under1).value)
      ensures r.Ok? ==> data[AgeGroup(From1To14)] == Rows(SelectAgeBand(query, today, From1To14).value)
      ensures r.Ok? ==> data[AgeGroup(From15To24)] == Rows(SelectAgeBand(query, today, From15To24).value)
      ensures r.Ok? ==> data[AgeGroup(From25)] == Rows(SelectAgeBand(query, today, From25).value)
      ensures r.Ok? ==> forall k :: k in old(data) && !k.AgeGroup? ==> data[k] == old(data)[k]
    {
      var under1 := SelectAgeBand(query, today, Under1);
      if under1.Raised? {
        return Raised(under1.reason);
      }
      var b114 := SelectAgeBand(query, today, From1To14);
      var b1524 := SelectAgeBand(query, today, From15To24);
      var b25 := SelectAgeBand(query, today, From25);
      data := data[AgeGroup(Under1) := Rows(under1.value)][AgeGroup(From1To14) := Rows(b114.value)]
        [AgeGroup(From15To24) := Rows(b1524.value)][AgeGroup(From25) := Rows(b25.value)];
      return Ok(true);
    }

    /**
     * `fetch_hiv_tests` with `==` in the select blocks: the nine
     * `last_hiv_test_*` lists, then the time-since-last-test windows. The
     * query rows are left as they are.
     */
    method FetchHivTests(c: Concepts)
      modifies this`data
      ensures data == old(data) + LastTestListsCorrected(query, c) + HivTestTimeLists(query)
      ensures data[LastHivTest(PositiveSelf)] == Rows(PositiveSelfCorrected(query, c))
      ensures data[LastHivTest(NegativeSelf)] == Rows(NegativeSelfCorrected(query, c))
    {
      var lists := LastTestListsCorrected(query, c);
      var windows := HivTestTimeLists(query);
      data := data + lists + windows;
      assert LastHivTest(PositiveSelf) !in windows && LastHivTest(NegativeSelf) !in windows;
    }

    /** `fetch_ever_taken_drugs_before`: the ever-taken lists and the time-since-last-ARVs windows. */
    method FetchEverTakenDrugsBefore(yes: int, no: int)
      modifies this`data
      ensures data == old(data)
        [EverTakenArvs(ArvsNo) := Rows(FilterHash(query, Column("taken_prep_before"), Int(no)))]
        [EverTakenArvs(ArvsPrep) := Rows(FilterHash(query, Column("taken_prep_before"), Int(yes)))]
        [EverTakenArvs(ArvsPep) := Rows(FilterHash(query, Column("taken_pep_before"), Int(yes)))]
        [EverTakenArvs(ArvsArt) := Rows(FilterHash(query, Column("taken_arvs_before"), Int(yes)))]
        + ArvTimeLists(query)
    {
      data := data[EverTakenArvs(ArvsNo) := Rows(FilterHash(query, Column("taken_prep_before"), Int(no)))]
        [EverTakenArvs(ArvsPrep) := Rows(FilterHash(query, Column("taken_prep_before"), Int(yes)))]
        [EverTakenArvs(ArvsPep) := Rows(FilterHash(query, Column("taken_pep_before"), Int(yes)))]
        [EverTakenArvs(ArvsArt) := Rows(FilterHash(query, Column("taken_arvs_before"), Int(yes)))];
      data := data + ArvTimeLists(query);
    }

    /** `fetch_items_given`: the three column totals; the first one that raises stops the rest. */
    method FetchItemsGiven() returns (r: Result<bool>)
      modifies this`data
      ensures r.Raised? <==> SumRaises(query, "male_condoms") || SumRaises(query, "female_condoms") || SumRaises(query, "frs")
      ensures r.Ok? ==> data == old(data)[
        ItemSum(MaleCondoms) := Total(Sum(Compact(Numbers(query, "male_condoms"))))][
        ItemSum(FemaleCondoms) := Total(Sum(Compact(Numbers(query, "female_condoms"))))][
        ItemSum(ReferralSlips) := Total(Sum(Compact(Numbers(query, "frs"))))]
    {
      var male := ColumnSum(query, "male_condoms");
      if male.Raised? {
        return Raised(male.reason);
      }
      ColumnSumIsSumOfCompact(query, "male_condoms");
      data := data[ItemSum(MaleCondoms) := Total(male.value)];
      var female := ColumnSum(query, "female_condoms");
      if female.Raised? {
        return Raised(female.reason);
      }
      ColumnSumIsSumOfCompact(query, "female_condoms");
      data := data[ItemSum(FemaleCondoms) := Total(female.value)];
      var frs := ColumnSum(query, "frs");
      if frs.Raised? {
        return Raised(frs.reason);
      }
      ColumnSumIsSumOfCompact(query, "frs");
      data := data[ItemSum(ReferralSlips) := Total(frs.value)];
      return Ok(true);
    }

    /** `set_unique`, key by key; a key other than the sums that holds a total raises. */
    method SetUnique() returns (r: Result<bool>)
      modifies this`data
      ensures r.Raised? <==> SetUniqueRaises(old(data))
      ensures r.Ok? ==> data == SetUniqueOf(old(data))
    {
      ghost var d0 := data;
      var todo := data.Keys;
      while todo != {}
        invariant todo <= d0.Keys && data.Keys == d0.Keys
        invariant forall k :: k in todo ==> data[k] == d0[k]
        invariant forall k :: k in d0 && k !in todo ==> data[k] == SetUniqueOf(d0)[k]
        invariant forall k :: k in d0 && k !in todo && !k.ItemSum? ==> d0[k].Rows?
        decreases |todo|
      {
        var k :| k in todo;
        if !k.ItemSum? {
          if !data[k].Rows? {
            return Raised("NoMethodError: undefined method 'map'");
          }
          data := data[k := Ids(Uniq(PersonIds(data[k].rows)))];
        }
        todo := todo - {k};
      }
      assert data == SetUniqueOf(d0);
      return Ok(true);
    }
  }
}
