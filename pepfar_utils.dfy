/**
 * Common PEPFAR report utilities: the fixed age-group list, the cohort
 * regimen codes, and the TB preventive therapy (TPT) completion rules.
 */
module PepfarUtils {
  import opened Collections
  import opened Text

  /** The PEPFAR age groups, in report order. */
  function PepfarAgeGroups(): seq<string> {
    [
      "Unknown",
      "<1 year",
      "1-4 years", "5-9 years",
      "10-14 years", "15-19 years",
      "20-24 years",
      "25-29 years", "30-34 years",
      "35-39 years", "40-44 years",
      "45-49 years", "50-54 years",
      "55-59 years", "60-64 years",
      "65-69 years", "70-74 years",
      "75-79 years", "80-84 years",
      "85-89 years",
      "90 plus years"
    ]
  }

  /** 21 distinct labels: "Unknown" first, "<1 year" second, "90 plus years" last. */
  lemma AgeGroupsShape()
    ensures |PepfarAgeGroups()| == 21
    ensures NoDuplicates(PepfarAgeGroups())
    ensures PepfarAgeGroups()[0] == "Unknown"
    ensures PepfarAgeGroups()[1] == "<1 year"
    ensures PepfarAgeGroups()[20] == "90 plus years"
  {
    var g := PepfarAgeGroups();
    forall i, j | 0 <= i < j < |g| ensures g[i] != g[j] {
      DistinctLabels(g, i, j);
    }
  }

  /** Two labels of the list differ in their length or at some position among their first characters. */
  lemma DistinctLabels(g: seq<string>, i: int, j: int)
    requires g == PepfarAgeGroups() && 0 <= i < j < |g|
    ensures g[i] != g[j]
  {
    assert |g[i]| != |g[j]| || g[i][0] != g[j][0] || g[i][1] != g[j][1] || g[i][2] != g[j][2]
      || g[i][..2] != g[j][..2] || g[i] != g[j];
  }

  /** Regimen codes of the cohort report; a 'P' marks a paediatric formulation. */
  function CohortRegimens(): seq<string> {
    [
      "0P", "2P", "4PP", "4PA", "9PP", "9PA", "11PP", "11PA", "12PP", "12PA", "14PP", "14PA",
      "15PP", "15PA", "16P", "17PP", "17PA",
      "4A", "5A", "6A", "7A", "8A", "9A", "10A", "11A", "12A", "13A", "14A", "15A", "16A", "17A"
    ]
  }

  /**
   * 31 distinct codes, each a regimen number followed by 'P' or 'A'. The
   * first 17 are the paediatric ones, the only codes with a 'P'.
   */
  lemma CohortRegimensShape()
    ensures |CohortRegimens()| == 31
    ensures NoDuplicates(CohortRegimens())
    ensures forall i :: 0 <= i < |CohortRegimens()| ==>
      |CohortRegimens()[i]| >= 2 && CohortRegimens()[i][|CohortRegimens()[i]| - 1] in {'P', 'A'}
    ensures forall i :: 0 <= i < |CohortRegimens()| ==> ('P' in CohortRegimens()[i] <==> i < 17)
  {
    var g := CohortRegimens();
    forall i, j | 0 <= i < j < |g| ensures g[i] != g[j] {
      DistinctCodes(g, i, j);
    }
  }

  lemma DistinctCodes(g: seq<string>, i: int, j: int)
    requires g == CohortRegimens() && 0 <= i < j < |g|
    ensures g[i] != g[j]
  {
    assert |g[i]| != |g[j]| || g[i][0] != g[j][0] || g[i][1] != g[j][1] || g[i][|g[i]| - 1] != g[j][|g[j]| - 1] || g[i] != g[j];
  }

  /** Number of 6H pills that make a full isoniazid course. */
  const Full6hCoursePills := 146
  /** Number of weekly 3HP doses (4 a month for 3 months) that make a full course. */
  const Full3hpCourseDays := 12

  /** The TPT columns of a patient row. */
  datatype TptPatient = TptPatient(
    monthsOnTpt: Option<int>,
    drugConcepts: Option<string>,
    totalDaysOnMedication: Option<int>)

  /** `x.round` of the quotient t / d, rounding halves away from zero like `Float#round`. */
  function RoundedQuotient(t: int, d: int): int
    requires d > 0
  {
    if t >= 0 then (2 * t + d) / (2 * d) else -((-2 * t + d) / (2 * d))
  }

  lemma BelowOneFactor(k: int, c: int)
    requires c > 0 && k * c < c
    ensures k < 1
  {
  }

  lemma DivMonotone(a: int, b: int, c: int)
    requires a <= b && c > 0
    ensures a / c <= b / c
  {
    var qa, qb := a / c, b / c;
    var ra, rb := a % c, b % c;
    assert a == qa * c + ra && 0 <= ra < c;
    assert b == qb * c + rb && 0 <= rb < c;
    var k := qa - qb;
    assert k * c == qa * c - qb * c;
    assert k * c < c;
    BelowOneFactor(k, c);
  }

  lemma RoundedQuotientMonotone(t1: int, t2: int, d: int)
    requires d > 0 && t1 <= t2
    ensures RoundedQuotient(t1, d) <= RoundedQuotient(t2, d)
  {
    if t1 >= 0 {
      DivMonotone(2 * t1 + d, 2 * t2 + d, 2 * d);
    } else if t2 < 0 {
      DivMonotone(-2 * t2 + d, -2 * t1 + d, 2 * d);
    } else {
      assert RoundedQuotient(t1, d) <= 0 by {
        DivMonotone(0, -2 * t1 + d, 2 * d);
      }
      DivMonotone(0, 2 * t2 + d, 2 * d);
    }
  }

  /** The 3HP divider: 14 when more than one drug concept is listed, else 7. */
  function ThreeHpDivider(drugConcepts: string): (d: int)
    ensures d == 14 || d == 7
    ensures d == 14 <==> |Split(drugConcepts, ',')| > 1
  {
    if |Split(drugConcepts, ',')| > 1 then 14 else 7
  }

  /**
   * `patient_completed_tpt?`. For 3HP: complete after 3 months on TPT, else
   * when the rounded number of doses reaches 12; a nil drug-concept list
   * raises on `split` and then a nil day total raises on `/`. For any other
   * course: complete when the day total (nil reads as 0) reaches 146.
   */
  function PatientCompletedTpt(p: TptPatient, tpt: string): (r: Result<bool>)
    ensures tpt == "3HP" && p.monthsOnTpt.Some? && p.monthsOnTpt.value >= 3 ==> r == Ok(true)
    ensures tpt != "3HP" ==> r.Ok? && (r.value <==> p.totalDaysOnMedication.Some? && p.totalDaysOnMedication.value >= Full6hCoursePills)
    ensures r.Raised? <==> tpt == "3HP" && !(p.monthsOnTpt.Some? && p.monthsOnTpt.value >= 3)
                           && (p.drugConcepts.None? || p.totalDaysOnMedication.None?)
  {
    if tpt == "3HP" then
      if (match p.monthsOnTpt case Some(m) => m case None => 0) >= 3 then Ok(true)
      else
        match p.drugConcepts
        case None => Raised("NoMethodError: undefined method 'split' for nil")
        case Some(concepts) =>
          match p.totalDaysOnMedication
          case None => Raised("NoMethodError: undefined method '/' for nil")
          case Some(t) => Ok(RoundedQuotient(t, ThreeHpDivider(concepts)) >= Full3hpCourseDays)
    else
      Ok((match p.totalDaysOnMedication case Some(t) => t case None => 0) >= Full6hCoursePills)
  }

  /** Below 3 months on 3HP, completion is decided by the rounded dose count alone. */
  lemma ThreeHpByDoses(p: TptPatient, concepts: string, t: int)
    requires !(p.monthsOnTpt.Some? && p.monthsOnTpt.value >= 3)
    requires p.drugConcepts == Some(concepts) && p.totalDaysOnMedication == Some(t)
    ensures PatientCompletedTpt(p, "3HP") == Ok(RoundedQuotient(t, ThreeHpDivider(concepts)) >= 12)
  {
  }

  /** More days on medication never turns a completed course into an incomplete one. */
  lemma CompletedTptMonotone(p: TptPatient, tpt: string, t1: int, t2: int)
    requires t1 <= t2
    requires PatientCompletedTpt(p.(totalDaysOnMedication := Some(t1)), tpt) == Ok(true)
    ensures PatientCompletedTpt(p.(totalDaysOnMedication := Some(t2)), tpt) == Ok(true)
  {
    if tpt == "3HP" && !(p.monthsOnTpt.Some? && p.monthsOnTpt.value >= 3) {
      RoundedQuotientMonotone(t1, t2, ThreeHpDivider(p.drugConcepts.value));
    }
  }

  /** The concept id reads, under `to_i`, as one of the two ids. */
  predicate ConceptIs(part: string, a: int, b: int) {
    ToI(part) == a || ToI(part) == b
  }

  /** Whether some listed concept id reads, under `to_i`, as one of the two ids. */
  function AnyConceptIs(parts: seq<string>, a: int, b: int): (r: bool)
    ensures r <==> exists i :: 0 <= i < |parts| && ConceptIs(parts[i], a, b)
    decreases |parts|
  {
    if |parts| == 0 then false
    else if ConceptIs(parts[0], a, b) then true
    else
      var rest := AnyConceptIs(parts[1..], a, b);
      assert rest <==> exists i :: 1 <= i < |parts| && ConceptIs(parts[i], a, b) by {
        forall i | 1 <= i < |parts| ensures parts[i] == parts[1..][i - 1] {}
      }
      rest
  }

  /**
   * `patient_on_3hp?`: the comma-separated drug concept ids include the
   * rifapentine or the isoniazid/rifapentine concept id; a nil list raises
   * on `split`.
   */
  function PatientOn3hp(drugConcepts: Option<string>, rifapentine: int, isoniazidRifapentine: int): (r: Result<bool>)
    ensures r.Raised? <==> drugConcepts.None?
    ensures r.Ok? ==> (r.value <==> exists part :: part in Split(drugConcepts.value, ',') && (ToI(part) == rifapentine || ToI(part) == isoniazidRifapentine))
  {
    match drugConcepts
    case None => Raised("NoMethodError: undefined method 'split' for nil")
    case Some(concepts) => Ok(AnyConceptIs(Split(concepts, ','), rifapentine, isoniazidRifapentine))
  }
}
