/**
 * Helpers of the TB community report: the calendar quarter a reporting
 * period covers, and the `1..n` lists read from global properties.
 */
module TbCommunity {
  import opened Collections
  import opened Text
  import opened Calendar

  /**
   * A report date parameter. `AsDate` is a Date object; `AsText` is a date
   * string that `to_date` parses to `d`. The two compare differently with
   * `==` against a Date: a String never equals one.
   */
  datatype DateArg = AsDate(d: Date) | AsText(d: Date)

  /** `arg.to_date`. */
  function ToDate(a: DateArg): Date {
    a.d
  }

  /** `arg == date` without conversion. */
  predicate EqualsDate(a: DateArg, d: Date) {
    a.AsDate? && a.d == d
  }

  /** First and last day of calendar quarter q of year y. */
  function QuarterStart(q: int, y: int): Date
    requires 1 <= q <= 4
  {
    Date(y, 3 * q - 2, 1)
  }

  function QuarterEnd(q: int, y: int): Date
    requires 1 <= q <= 4
  {
    if q == 1 then Date(y, 3, 31)
    else if q == 2 then Date(y, 6, 30)
    else if q == 3 then Date(y, 9, 30)
    else Date(y, 12, 31)
  }

  /** The period is exactly calendar quarter q, each end measured in its own year. */
  predicate IsQuarter(start: DateArg, end: DateArg, q: int)
    requires 1 <= q <= 4
  {
    ToDate(start) == QuarterStart(q, ToDate(start).year) && ToDate(end) == QuarterEnd(q, ToDate(end).year)
  }

  /** `get_reporting_quarter` as written: the second quarter compares the unconverted end date. */
  function GetReportingQuarterAsWritten(start: DateArg, end: DateArg): (r: int)
    ensures 0 <= r <= 4
    ensures r == 2 ==> end.AsDate?
  {
    var sy := ToDate(start).year;
    var ey := ToDate(end).year;
    if ToDate(start) == Date(sy, 1, 1) && ToDate(end) == Date(ey, 3, 31) then 1
    else if ToDate(start) == Date(sy, 4, 1) && EqualsDate(end, Date(ey, 6, 30)) then 2
    else if ToDate(start) == Date(sy, 7, 1) && ToDate(end) == Date(ey, 9, 30) then 3
    else if ToDate(start) == Date(sy, 10, 1) && ToDate(end) == Date(ey, 12, 31) then 4
    else 0
  }

  /** `get_reporting_quarter` with both ends converted by `to_date`. */
  function GetReportingQuarter(start: DateArg, end: DateArg): (r: int)
    ensures 0 <= r <= 4
    ensures 1 <= r ==> IsQuarter(start, end, r)
  {
    var sy := ToDate(start).year;
    var ey := ToDate(end).year;
    if ToDate(start) == Date(sy, 1, 1) && ToDate(end) == Date(ey, 3, 31) then 1
    else if ToDate(start) == Date(sy, 4, 1) && ToDate(end) == Date(ey, 6, 30) then 2
    else if ToDate(start) == Date(sy, 7, 1) && ToDate(end) == Date(ey, 9, 30) then 3
    else if ToDate(start) == Date(sy, 10, 1) && ToDate(end) == Date(ey, 12, 31) then 4
    else 0
  }

  /** The quarter found is q exactly when the period is calendar quarter q. */
  lemma QuarterIff(start: DateArg, end: DateArg, q: int)
    requires 1 <= q <= 4
    ensures GetReportingQuarter(start, end) == q <==> IsQuarter(start, end, q)
  {
  }

  /** Any period that is no calendar quarter yields 0. */
  lemma NoQuarterIsZero(start: DateArg, end: DateArg)
    requires forall q :: 1 <= q <= 4 ==> !IsQuarter(start, end, q)
    ensures GetReportingQuarter(start, end) == 0
  {
  }

  /** The years of the two ends are not compared: 1 January to 31 March of the next year is still quarter 1. */
  lemma YearsIndependent(y: int)
    ensures GetReportingQuarter(AsDate(Date(y, 1, 1)), AsDate(Date(y + 1, 3, 31))) == 1
  {
  }

  /** As written and corrected agree whenever the end date is a Date object. */
  lemma AsWrittenAgreesOnDates(start: DateArg, d: Date)
    ensures GetReportingQuarterAsWritten(start, AsDate(d)) == GetReportingQuarter(start, AsDate(d))
  {
  }

  /** As written, a second quarter given as date strings is reported as quarter 0. */
  lemma SecondQuarterTextCounterexample()
    ensures GetReportingQuarterAsWritten(AsText(Date(2024, 4, 1)), AsText(Date(2024, 6, 30))) == 0
    ensures GetReportingQuarter(AsText(Date(2024, 4, 1)), AsText(Date(2024, 6, 30))) == 2
  {
  }

  // ---------------------------------------------------------------- global properties

  /** `global_property`: property name to its (possibly NULL) value. */
  type Properties = map<string, Option<string>>

  /** `property_value.to_i` of a present property; NULL reads as 0. */
  function ValueCount(props: Properties, name: string): int
    requires name in props
  {
    match props[name]
    case None => 0
    case Some(v) => ToI(v)
  }

  function Max0(n: int): nat {
    if n > 0 then n else 0
  }

  /** `(1..n).to_a`. */
  function OneTo(n: int): (r: seq<int>)
    ensures |r| == Max0(n)
    ensures forall i :: 0 <= i < |r| ==> r[i] == i + 1
    decreases n
  {
    if n <= 0 then [] else OneTo(n - 1) + [n]
  }

  /**
   * A property's value as the list `1..value.to_i`, or [] when no record
   * holds the property. A record with a NULL value reads as 0.
   */
  function PropertyList(props: Properties, name: string): (r: seq<int>)
    ensures name !in props ==> r == []
    ensures name in props ==> |r| == Max0(ValueCount(props, name))
    ensures forall i :: 0 <= i < |r| ==> r[i] == i + 1
  {
    if name in props then OneTo(ValueCount(props, name)) else []
  }

  const FunctionalPointsProperty := "functional_sputum_collection_points_in_catchment"
  const NewPointsPrefix := "newly_established_sputum_collection_points"

  /** `functional_sputum_sample_collection_points`. */
  function FunctionalSputumSampleCollectionPoints(props: Properties): (r: seq<int>)
    ensures FunctionalPointsProperty !in props ==> r == []
    ensures FunctionalPointsProperty in props ==> |r| == Max0(ValueCount(props, FunctionalPointsProperty))
    ensures forall i :: 0 <= i < |r| ==> r[i] == i + 1
  {
    PropertyList(props, FunctionalPointsProperty)
  }

  /** The property name for a period's newly established points. */
  function NewPointsKey(start: DateArg, end: DateArg): string {
    NewPointsPrefix + "." + IntToString(ToDate(start).year) + "." + IntToString(GetReportingQuarter(start, end))
  }

  /** `number_of_newly_established_sputum_sample_collection_points`. */
  function NewlyEstablishedSputumSampleCollectionPoints(props: Properties, start: DateArg, end: DateArg): (r: seq<int>)
    ensures NewPointsKey(start, end) !in props ==> r == []
    ensures NewPointsKey(start, end) in props ==> |r| == Max0(ValueCount(props, NewPointsKey(start, end)))
    ensures forall i :: 0 <= i < |r| ==> r[i] == i + 1
  {
    PropertyList(props, NewPointsKey(start, end))
  }

  lemma {:induction false} FieldsNoSep(a: string, sep: char)
    requires sep !in a
    ensures Fields(a, sep) == [a]
    decreases |a|
  {
    if |a| > 0 {
      FieldsNoSep(a[1..], sep);
      assert [a[0]] + a[1..] == a;
    }
  }

  lemma {:induction false} FieldsAfterSep(a: string, b: string, sep: char)
    requires sep !in a
    ensures Fields(a + [sep] + b, sep) == [a] + Fields(b, sep)
    decreases |a|
  {
    if |a| == 0 {
      assert a + [sep] + b == [sep] + b;
      assert ([sep] + b)[1..] == b;
    } else {
      assert (a + [sep] + b)[1..] == a[1..] + [sep] + b;
      FieldsAfterSep(a[1..], b, sep);
      assert [a[0]] + a[1..] == a;
    }
  }

  lemma IntToStringNoDot(n: int)
    ensures '.' !in IntToString(n)
  {
    var s := IntToString(n);
    if n >= 0 {
      assert forall i :: 0 <= i < |s| ==> IsDigit(s[i]);
    } else {
      assert s == "-" + NatToString(-n);
      assert forall i :: 1 <= i < |s| ==> s[i] == NatToString(-n)[i - 1];
    }
  }

  /** The key splits on '.' into the prefix, the start year and the quarter, the only parts that vary. */
  lemma NewPointsKeyFields(start: DateArg, end: DateArg)
    ensures Fields(NewPointsKey(start, end), '.')
      == [NewPointsPrefix, IntToString(ToDate(start).year), IntToString(GetReportingQuarter(start, end))]
  {
    var y := IntToString(ToDate(start).year);
    var q := IntToString(GetReportingQuarter(start, end));
    IntToStringNoDot(ToDate(start).year);
    IntToStringNoDot(GetReportingQuarter(start, end));
    assert NewPointsKey(start, end) == NewPointsPrefix + ['.'] + (y + ['.'] + q);
    FieldsAfterSep(NewPointsPrefix, y + ['.'] + q, '.');
    FieldsAfterSep(y, q, '.');
    FieldsNoSep(q, '.');
  }

  /** With a Date end, the key carries the same quarter as the code as written computes. */
  lemma NewPointsKeyAsWrittenOnDates(start: DateArg, d: Date)
    ensures NewPointsKey(start, AsDate(d))
      == NewPointsPrefix + "." + IntToString(ToDate(start).year) + "." + IntToString(GetReportingQuarterAsWritten(start, AsDate(d)))
  {
    AsWrittenAgreesOnDates(start, d);
  }

  /** Periods with different reporting quarters read different properties. */
  lemma NewPointsKeyDistinct(s1: DateArg, e1: DateArg, s2: DateArg, e2: DateArg)
    requires GetReportingQuarter(s1, e1) != GetReportingQuarter(s2, e2)
    ensures NewPointsKey(s1, e1) != NewPointsKey(s2, e2)
  {
    NewPointsKeyFields(s1, e1);
    NewPointsKeyFields(s2, e2);
    var q1 := GetReportingQuarter(s1, e1);
    var q2 := GetReportingQuarter(s2, e2);
    assert IntToString(q1) == [DigitChar(q1)];
    assert IntToString(q2) == [DigitChar(q2)];
  }
}
