/**
 * The text logic of the ART transfer-out label: numbered initial staging
 * conditions, the current ART regimen string, and the transfer-out date.
 * Rendering the label itself is not modelled.
 */
module TransferOutLabel {
  import opened Collections
  import opened Text
  import opened Calendar

  // ---------------------------------------------------------------- staging conditions

  /** The non-blank conditions, in input order. */
  function NonBlank(conditions: seq<Option<string>>): (r: seq<string>)
    ensures |r| <= |conditions|
    decreases |conditions|
  {
    if |conditions| == 0 then []
    else
      var last := conditions[|conditions| - 1];
      NonBlank(conditions[..|conditions| - 1]) + (if IsBlank(last) then [] else [last.value])
  }

  lemma {:induction false} NonBlankEmpty(conditions: seq<Option<string>>)
    ensures |NonBlank(conditions)| == 0 <==> forall i :: 0 <= i < |conditions| ==> IsBlank(conditions[i])
    decreases |conditions|
  {
    if |conditions| > 0 {
      var front := conditions[..|conditions| - 1];
      NonBlankEmpty(front);
      assert forall i :: 0 <= i < |front| ==> front[i] == conditions[i];
    }
  }

  /** "(n) condition". */
  function Numbered(n: nat, condition: string): (r: string)
    ensures |r| > 0 && r[0] == '('
  {
    "(" + NatToString(n) + ") " + condition
  }

  /** The conditions numbered consecutively from 1. */
  function NumberAll(conditions: seq<string>): (r: seq<string>)
    ensures |r| == |conditions|
    ensures forall k :: 0 <= k < |conditions| ==> r[k] == Numbered(k + 1, conditions[k])
  {
    seq(|conditions|, k requires 0 <= k < |conditions| => Numbered(k + 1, conditions[k]))
  }

  /** The staging text: every non-blank condition numbered from 1, separated by single spaces. */
  function StagingText(conditions: seq<Option<string>>): string {
    Join(NumberAll(NonBlank(conditions)), " ")
  }

  lemma {:induction false} JoinNumberedStartsWithParen(parts: seq<string>)
    requires |parts| > 0
    ensures var t := Join(NumberAll(parts), " "); |t| > 0 && t[0] == '('
  {
    var n := NumberAll(parts);
    if |n| > 1 {
      assert Join(n, " ") == n[0] + " " + Join(n[1..], " ");
    }
  }

  /** The staging text is empty exactly when every condition is blank; otherwise it starts with "(1) ". */
  lemma StagingEmptyIffAllBlank(conditions: seq<Option<string>>)
    ensures StagingText(conditions) == "" <==> forall i :: 0 <= i < |conditions| ==> IsBlank(conditions[i])
  {
    NonBlankEmpty(conditions);
    if |NonBlank(conditions)| > 0 {
      JoinNumberedStartsWithParen(NonBlank(conditions));
    }
  }

  /** A blank condition consumes no number: appending one leaves the text as it was. */
  lemma BlankTakesNoNumber(conditions: seq<Option<string>>, blank: Option<string>)
    requires IsBlank(blank)
    ensures StagingText(conditions + [blank]) == StagingText(conditions)
  {
    assert (conditions + [blank])[..|conditions|] == conditions && (conditions + [blank])[|conditions|] == blank;
    assert NonBlank(conditions + [blank]) == NonBlank(conditions);
  }

  /** Which characters `blank?` sees when the text starts with '('. */
  lemma ParenIsNotBlank(t: string)
    requires |t| > 0 && t[0] == '('
    ensures !IsBlank(Some(t))
  {
    assert !IsSpace(t[0]);
  }

  /** A non-blank condition after no earlier one is numbered 1 and becomes the whole text. */
  lemma StagingFirst(conditions: seq<Option<string>>, i: int)
    requires 0 <= i < |conditions| && !IsBlank(conditions[i]) && |NonBlank(conditions[..i])| == 0
    ensures NonBlank(conditions[..i + 1]) == [conditions[i].value]
    ensures StagingText(conditions[..i + 1]) == Numbered(1, conditions[i].value)
  {
    assert conditions[..i + 1][..i] == conditions[..i] && conditions[..i + 1][i] == conditions[i];
    assert NumberAll([conditions[i].value]) == [Numbered(1, conditions[i].value)];
  }

  /** A later non-blank condition takes the next number and is appended after a space. */
  lemma StagingNext(conditions: seq<Option<string>>, i: int)
    requires 0 <= i < |conditions| && !IsBlank(conditions[i]) && |NonBlank(conditions[..i])| > 0
    ensures NonBlank(conditions[..i + 1]) == NonBlank(conditions[..i]) + [conditions[i].value]
    ensures StagingText(conditions[..i + 1])
      == StagingText(conditions[..i]) + " " + Numbered(|NonBlank(conditions[..i])| + 1, conditions[i].value)
  {
    var done := NonBlank(conditions[..i]);
    var c := conditions[i].value;
    assert conditions[..i + 1][..i] == conditions[..i] && conditions[..i + 1][i] == conditions[i];
    assert NumberAll(done + [c]) == NumberAll(done) + [Numbered(|done| + 1, c)];
    JoinAppend(NumberAll(done), Numbered(|done| + 1, c), " ");
  }

  /** A blank condition contributes nothing. */
  lemma StagingBlank(conditions: seq<Option<string>>, i: int)
    requires 0 <= i < |conditions| && IsBlank(conditions[i])
    ensures NonBlank(conditions[..i + 1]) == NonBlank(conditions[..i])
  {
    assert conditions[..i + 1][..i] == conditions[..i] && conditions[..i + 1][i] == conditions[i];
  }

  /** What the staging loop keeps after the first `i` conditions. */
  ghost predicate StagingState(conditions: seq<Option<string>>, i: int, text: string, count: int) {
    0 <= i <= |conditions|
    && text == StagingText(conditions[..i])
    && count == (if |NonBlank(conditions[..i])| == 0 then 1 else |NonBlank(conditions[..i])|)
    && (text == "" <==> |NonBlank(conditions[..i])| == 0)
  }

  /** The staging loop of `print`, with its `count` and its blank test on the text so far. */
  method StagingConditions(conditions: seq<Option<string>>) returns (text: string)
    ensures text == StagingText(conditions)
  {
    text := "";
    var count := 1;
    var i := 0;
    while i < |conditions|
      invariant StagingState(conditions, i, text, count)
    {
      text, count := StagingStep(conditions, i, text, count);
      i := i + 1;
    }
    assert conditions[..|conditions|] == conditions;
  }

  /** One pass of the staging loop body over condition `i`. */
  method StagingStep(conditions: seq<Option<string>>, i: int, text: string, count: int) returns (text': string, count': int)
    requires 0 <= i < |conditions| && StagingState(conditions, i, text, count)
    ensures StagingState(conditions, i + 1, text', count')
  {
    var condition := conditions[i];
    text', count' := text, count;
    if |NonBlank(conditions[..i])| > 0 {
      JoinNumberedStartsWithParen(NonBlank(conditions[..i]));
      ParenIsNotBlank(text);
    }
    if IsBlank(Some(text)) {
      if !IsBlank(condition) {
        StagingFirst(conditions, i);
        text' := "(" + NatToString(count) + ") " + condition.value;
        assert text' == Numbered(1, condition.value);
      } else {
        StagingBlank(conditions, i);
      }
    } else {
      if !IsBlank(condition) {
        StagingNext(conditions, i);
        count' := count + 1;
        text' := text + " (" + NatToString(count') + ") " + condition.value;
        assert text' == text + " " + Numbered(count', condition.value) by {
          assert " (" + NatToString(count') + ") " + condition.value == " " + Numbered(count', condition.value);
        }
      } else {
        StagingBlank(conditions, i);
      }
    }
  }

  // ---------------------------------------------------------------- current ART drugs

  /** One row of the previous dispensations, newest first. */
  datatype PreviousOrder = PreviousOrder(obsDate: Date, drugInventoryId: int)

  datatype Drug = Drug(arv: bool, shortname: Option<string>, fullname: Option<string>)

  type Catalogue = map<int, Drug>

  /** `concept.shortname || concept.fullname`. */
  function DrugName(d: Drug): Option<string> {
    if d.shortname.Some? then d.shortname else d.fullname
  }

  predicate IsArvOrder(o: PreviousOrder, catalogue: Catalogue) {
    o.drugInventoryId in catalogue && catalogue[o.drugInventoryId].arv
  }

  /** The date of the first ARV order in the list (the newest one). */
  function FirstArvDate(orders: seq<PreviousOrder>, catalogue: Catalogue): Option<Date>
    decreases |orders|
  {
    if |orders| == 0 then None
    else
      var f := FirstArvDate(orders[..|orders| - 1], catalogue);
      var last := orders[|orders| - 1];
      if f.Some? then f
      else if IsArvOrder(last, catalogue) then Some(last.obsDate)
      else None
  }

  /** FirstArvDate is None iff no order is an ARV, and otherwise the date of the first ARV order. */
  lemma {:induction false} FirstArvDateMeaning(orders: seq<PreviousOrder>, catalogue: Catalogue)
    ensures var r := FirstArvDate(orders, catalogue);
      (r.None? <==> forall i :: 0 <= i < |orders| ==> !IsArvOrder(orders[i], catalogue))
      && (r.Some? ==> exists i :: (0 <= i < |orders| && IsArvOrder(orders[i], catalogue) && orders[i].obsDate == r.value
        && forall j :: 0 <= j < i ==> !IsArvOrder(orders[j], catalogue)))
    decreases |orders|
  {
    if |orders| > 0 {
      var front := orders[..|orders| - 1];
      FirstArvDateMeaning(front, catalogue);
      assert forall i :: 0 <= i < |front| ==> front[i] == orders[i];
    }
  }

  /** The names of the ARV orders dated `day`, in list order. */
  function ArvNamesOn(orders: seq<PreviousOrder>, catalogue: Catalogue, day: Date): seq<Option<string>>
    decreases |orders|
  {
    if |orders| == 0 then []
    else
      var last := orders[|orders| - 1];
      ArvNamesOn(orders[..|orders| - 1], catalogue, day)
      + (if IsArvOrder(last, catalogue) && last.obsDate == day then [DrugName(catalogue[last.drugInventoryId])] else [])
  }

  /** ArvNamesOn lists exactly the names of the ARV orders dated `day`. */
  lemma {:induction false} ArvNamesOnMembers(orders: seq<PreviousOrder>, catalogue: Catalogue, day: Date)
    ensures forall n :: n in ArvNamesOn(orders, catalogue, day) <==> exists i :: (0 <= i < |orders| && IsArvOrder(orders[i], catalogue)
      && orders[i].obsDate == day && DrugName(catalogue[orders[i].drugInventoryId]) == n)
    decreases |orders|
  {
    if |orders| > 0 {
      var front := orders[..|orders| - 1];
      ArvNamesOnMembers(front, catalogue, day);
      assert forall i :: 0 <= i < |front| ==> front[i] == orders[i];
    }
  }

  /** The regimen names before `uniq`: the ARVs that share the first ARV order's date. */
  function Regimen(orders: seq<PreviousOrder>, catalogue: Catalogue): seq<Option<string>> {
    match FirstArvDate(orders, catalogue)
    case None => []
    case Some(day) => ArvNamesOn(orders, catalogue, day)
  }

  /** `join` renders nil as the empty string. */
  function RenderNames(names: seq<Option<string>>): (r: seq<string>)
    ensures |r| == |names|
  {
    seq(|names|, k requires 0 <= k < |names| => match names[k] case Some(s) => s case None => "")
  }

  /** The current ART drugs string: the regimen names without duplicates, joined with " + ". */
  function CurrentArtDrugsText(orders: seq<PreviousOrder>, catalogue: Catalogue): string {
    Join(RenderNames(Uniq(Regimen(orders, catalogue))), " + ")
  }

  /** Before the first ARV order no ARV name has been collected. */
  lemma {:induction false} NoArvNoNames(orders: seq<PreviousOrder>, catalogue: Catalogue, day: Date)
    requires FirstArvDate(orders, catalogue).None?
    ensures ArvNamesOn(orders, catalogue, day) == []
    decreases |orders|
  {
    if |orders| > 0 {
      NoArvNoNames(orders[..|orders| - 1], catalogue, day);
    }
  }

  /** An order that is not an ARV changes neither the first ARV date nor the collected names. */
  lemma ArvSkip(orders: seq<PreviousOrder>, i: int, catalogue: Catalogue)
    requires 0 <= i < |orders| && !IsArvOrder(orders[i], catalogue)
    ensures FirstArvDate(orders[..i + 1], catalogue) == FirstArvDate(orders[..i], catalogue)
    ensures Regimen(orders[..i + 1], catalogue) == Regimen(orders[..i], catalogue)
  {
    assert orders[..i + 1][..i] == orders[..i] && orders[..i + 1][i] == orders[i];
  }

  /** The first ARV order fixes the date and contributes its name. */
  lemma ArvFirst(orders: seq<PreviousOrder>, i: int, catalogue: Catalogue)
    requires 0 <= i < |orders| && IsArvOrder(orders[i], catalogue) && FirstArvDate(orders[..i], catalogue).None?
    ensures FirstArvDate(orders[..i + 1], catalogue) == Some(orders[i].obsDate)
    ensures Regimen(orders[..i + 1], catalogue) == [DrugName(catalogue[orders[i].drugInventoryId])]
  {
    assert orders[..i + 1][..i] == orders[..i] && orders[..i + 1][i] == orders[i];
    NoArvNoNames(orders[..i], catalogue, orders[i].obsDate);
  }

  /** A later ARV order keeps the date and contributes its name when dated like the first. */
  lemma ArvLater(orders: seq<PreviousOrder>, i: int, catalogue: Catalogue)
    requires 0 <= i < |orders| && IsArvOrder(orders[i], catalogue) && FirstArvDate(orders[..i], catalogue).Some?
    ensures FirstArvDate(orders[..i + 1], catalogue) == FirstArvDate(orders[..i], catalogue)
    ensures Regimen(orders[..i + 1], catalogue)
      == Regimen(orders[..i], catalogue)
         + (if Some(orders[i].obsDate) == FirstArvDate(orders[..i], catalogue) then [DrugName(catalogue[orders[i].drugInventoryId])] else [])
  {
    assert orders[..i + 1][..i] == orders[..i] && orders[..i + 1][i] == orders[i];
  }

  /** What the current-drugs loop keeps after the first `i` orders. */
  ghost predicate DrugsState(orders: seq<PreviousOrder>, catalogue: Catalogue, i: int,
                             previousDate: Option<Date>, drugs: seq<Option<string>>, finished: bool, reg: seq<Option<string>>) {
    0 <= i <= |orders|
    && (forall j :: 0 <= j < i ==> orders[j].drugInventoryId in catalogue)
    && previousDate == FirstArvDate(orders[..i], catalogue)
    && reg == Regimen(orders[..i], catalogue)
    && !finished && drugs == []
  }

  /**
   * The current-drugs loop of `print`. Every order's drug is looked up
   * (a missing one raises); non-ARVs are skipped; names are collected while
   * the order date equals the first ARV date. `drugs` is never appended to,
   * so `finished` stays false and the loop never stops early.
   */
  method CurrentArtDrugs(orders: seq<PreviousOrder>, catalogue: Catalogue) returns (r: Result<string>)
    ensures r.Raised? <==> exists i :: 0 <= i < |orders| && orders[i].drugInventoryId !in catalogue
    ensures r.Ok? ==> r.value == CurrentArtDrugsText(orders, catalogue)
  {
    var previousDate: Option<Date> := None;
    var drugs: seq<Option<string>> := [];
    var finished := false;
    var reg: seq<Option<string>> := [];
    var i := 0;
    while i < |orders|
      invariant DrugsState(orders, catalogue, i, previousDate, drugs, finished, reg)
    {
      var missing;
      missing, previousDate, finished, reg := CurrentDrugsStep(orders, catalogue, i, previousDate, drugs, finished, reg);
      if missing {
        return Raised("ActiveRecord::RecordNotFound");
      }
      i := i + 1;
    }
    assert orders[..|orders|] == orders;
    return Ok(Join(RenderNames(Uniq(reg)), " + "));
  }

  /** One pass of the current-drugs loop body over order `i`; `missing` when its drug is not catalogued. */
  method CurrentDrugsStep(orders: seq<PreviousOrder>, catalogue: Catalogue, i: int,
                          previousDate: Option<Date>, drugs: seq<Option<string>>, finished: bool, reg: seq<Option<string>>)
    returns (missing: bool, previousDate': Option<Date>, finished': bool, reg': seq<Option<string>>)
    requires i < |orders| && DrugsState(orders, catalogue, i, previousDate, drugs, finished, reg)
    ensures missing <==> orders[i].drugInventoryId !in catalogue
    ensures !missing ==> DrugsState(orders, catalogue, i + 1, previousDate', drugs, finished', reg')
  {
    missing, previousDate', finished', reg' := false, previousDate, finished, reg;
    var order := orders[i];
    if order.drugInventoryId !in catalogue {
      missing := true;
      return;
    }
    var drug := catalogue[order.drugInventoryId];
    if !drug.arv || finished {
      ArvSkip(orders, i, catalogue);
      return;
    }
    if previousDate'.None? {
      ArvFirst(orders, i, catalogue);
      previousDate' := Some(order.obsDate);
    } else {
      ArvLater(orders, i, catalogue);
    }
    if previousDate' == Some(order.obsDate) {
      reg' := reg' + [DrugName(drug)];
      previousDate' := Some(order.obsDate);
    } else {
      if |drugs| > 0 {
        finished' := true;
      }
    }
  }

  /** Only ARVs dated like the first ARV order contribute, and no name appears twice. */
  lemma CurrentArtDrugsContents(orders: seq<PreviousOrder>, catalogue: Catalogue)
    ensures NoDuplicates(Uniq(Regimen(orders, catalogue)))
    ensures forall n :: n in Uniq(Regimen(orders, catalogue)) ==>
      exists i :: 0 <= i < |orders| && IsArvOrder(orders[i], catalogue)
        && Some(orders[i].obsDate) == FirstArvDate(orders, catalogue)
        && DrugName(catalogue[orders[i].drugInventoryId]) == n
  {
    FirstArvDateMeaning(orders, catalogue);
    var f := FirstArvDate(orders, catalogue);
    if f.Some? {
      ArvNamesOnMembers(orders, catalogue, f.value);
    }
  }

  // ---------------------------------------------------------------- transfer-out date

  /** A row of the patient's HIV-programme states. */
  datatype PatientState = PatientState(state: int, startDate: Date)

  predicate TransferredOutBy(s: PatientState, date: Date) {
    s.state == 2 && AtOrBefore(s.startDate, date)
  }

  /**
   * `actual_transfer_out_date`: the latest start date of a state-2 record
   * on or before the date, or the date itself when there is none.
   */
  function ActualTransferOutDate(states: seq<PatientState>, date: Date): (r: Date)
    ensures (forall i :: 0 <= i < |states| ==> !TransferredOutBy(states[i], date)) ==> r == date
    ensures (exists i :: 0 <= i < |states| && TransferredOutBy(states[i], date)) ==>
      (exists i :: 0 <= i < |states| && TransferredOutBy(states[i], date) && states[i].startDate == r)
      && forall i :: 0 <= i < |states| && TransferredOutBy(states[i], date) ==> AtOrBefore(states[i].startDate, r)
    ensures AtOrBefore(r, date)
    decreases |states|
  {
    if |states| == 0 then date
    else
      var rest := ActualTransferOutDate(states[1..], date);
      var restHas := exists i :: 1 <= i < |states| && TransferredOutBy(states[i], date);
      assert forall i :: 1 <= i < |states| ==> states[i] == states[1..][i - 1];
      assert restHas ==> exists i :: 0 <= i < |states[1..]| && TransferredOutBy(states[1..][i], date);
      if !TransferredOutBy(states[0], date) then rest
      else if !restHas || Before(rest, states[0].startDate) then states[0].startDate
      else rest
  }
}
