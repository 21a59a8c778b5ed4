/**
 * TB visit summary helpers: the drug-name formatting used on visit
 * summaries, the per-drug pill totals and side-effect strings (both
 * memoised on the visit object), and the outcome fallback.
 */
module TbPatientVisit {
  import opened Collections
  import opened Text

  // ---------------------------------------------------------------- drug-code pattern

  // The MoH drug-code pattern: optional digits, letters, optional spaces and
  // dose digits, then any number of further codes each introduced by a '/'
  // with optional spaces around it; letters match in either case. Written as
  // a deterministic automaton over character classes. States: 0 leading
  // digits, 1 letters, 2 spaces before the dose, 3 dose digits (accepting),
  // 4 spaces before '/', 5 spaces after '/', 6 digits after '/'.
  function CodeStep(state: nat, c: char): Option<nat> {
    if state == 0 || state == 6 then
      (if IsDigit(c) then Some(state) else if IsAsciiLetter(c) then Some(1) else None)
    else if state == 1 then
      (if IsAsciiLetter(c) then Some(1) else if IsSpace(c) then Some(2) else if IsDigit(c) then Some(3) else None)
    else if state == 2 then
      (if IsSpace(c) then Some(2) else if IsDigit(c) then Some(3) else None)
    else if state == 3 then
      (if IsDigit(c) then Some(3) else if IsSpace(c) then Some(4) else if c == '/' then Some(5) else None)
    else if state == 4 then
      (if IsSpace(c) then Some(4) else if c == '/' then Some(5) else None)
    else if state == 5 then
      (if IsSpace(c) then Some(5) else if IsDigit(c) then Some(6) else if IsAsciiLetter(c) then Some(1) else None)
    else None
  }

  function RunCode(s: string, state: nat): Option<nat>
    decreases |s|
  {
    if |s| == 0 then Some(state)
    else match CodeStep(state, s[0])
      case None => None
      case Some(next) => RunCode(s[1..], next)
  }

  /** The whole of s is one drug code. */
  predicate IsDrugCode(s: string) {
    RunCode(s, 0) == Some(3)
  }

  /** Ruby `^`: start of the string or just after a newline. */
  predicate LineStart(s: string, i: int) {
    0 <= i <= |s| && (i == 0 || s[i - 1] == '\n')
  }

  /** Ruby `$`: end of the string or just before a newline. */
  predicate LineEnd(s: string, j: int) {
    0 <= j <= |s| && (j == |s| || s[j] == '\n')
  }

  /** `%r{^code$}i.match(s)`: some span from a line start to a line end is a drug code. */
  predicate MatchesDrugCode(s: string) {
    exists i, j :: 0 <= i <= j <= |s| && LineStart(s, i) && LineEnd(s, j) && IsDrugCode(s[i..j])
  }

  /** A dose code such as "AZT300" matches; a plain drug name does not. */
  lemma DrugCodeExamples()
    ensures IsDrugCode("AZT300")
    ensures !IsDrugCode("Cotrimoxazole")
  {
    assert RunCode("", 3) == Some(3);
    assert RunCode("0", 3) == Some(3) by { assert "0"[1..] == ""; }
    assert RunCode("00", 3) == Some(3) by { assert "00"[1..] == "0"; }
    assert RunCode("300", 1) == Some(3) by { assert "300"[1..] == "00"; }
    assert RunCode("T300", 1) == Some(3) by { assert "T300"[1..] == "300"; }
    assert RunCode("ZT300", 1) == Some(3) by { assert "ZT300"[1..] == "T300"; }
    assert RunCode("AZT300", 0) == Some(3) by { assert "AZT300"[1..] == "ZT300"; }
    var u := "Cotrimoxazole";
    assert forall k :: 0 <= k < |u[1..]| ==> IsAsciiLetter(u[1..][k]);
    LettersStayInState1(u[1..]);
    assert RunCode(u, 0) == RunCode(u[1..], 1);
  }

  lemma {:induction false} LettersStayInState1(s: string)
    requires forall k :: 0 <= k < |s| ==> IsAsciiLetter(s[k])
    ensures RunCode(s, 1) == Some(1)
    decreases |s|
  {
    if |s| > 0 {
      LettersStayInState1(s[1..]);
    }
  }

  // ---------------------------------------------------------------- format_drug_name

  /** `gsub(/Isoniazid/i, 'INH')`: every case-insensitive occurrence, left to right, replaced by INH. */
  function ReplaceIsoniazid(s: string): (r: string)
    ensures |r| <= |s|
    decreases |s|
  {
    if |s| >= 9 && Downcase(s[..9]) == "isoniazid" then "INH" + ReplaceIsoniazid(s[9..])
    else if |s| == 0 then ""
    else [s[0]] + ReplaceIsoniazid(s[1..])
  }

  /** The replacement introduces no whitespace. */
  lemma {:induction false} ReplaceIsoniazidNoSpaces(s: string)
    requires forall k :: 0 <= k < |s| ==> !IsSpace(s[k])
    ensures forall k :: 0 <= k < |ReplaceIsoniazid(s)| ==> !IsSpace(ReplaceIsoniazid(s)[k])
    decreases |s|
  {
    if |s| >= 9 && Downcase(s[..9]) == "isoniazid" {
      ReplaceIsoniazidNoSpaces(s[9..]);
      assert forall k :: 0 <= k < 3 ==> !IsSpace("INH"[k]);
    } else if |s| > 0 {
      ReplaceIsoniazidNoSpaces(s[1..]);
    }
  }

  /** "isoniazid", in any case, starts at position k of r. */
  predicate IsoniazidAt(r: string, k: int) {
    0 <= k && k + 9 <= |r| && Downcase(r[k..k + 9]) == "isoniazid"
  }

  /** The head of a replaced text: INH for a leading match, the first character otherwise. */
  lemma ReplaceHead(t: string)
    ensures |t| == 0 ==> ReplaceIsoniazid(t) == ""
    ensures |t| >= 9 && Downcase(t[..9]) == "isoniazid" ==> ReplaceIsoniazid(t) == "INH" + ReplaceIsoniazid(t[9..])
    ensures |t| > 0 && !(|t| >= 9 && Downcase(t[..9]) == "isoniazid") ==> ReplaceIsoniazid(t) == [t[0]] + ReplaceIsoniazid(t[1..])
  {
  }

  /** s starts with w once lower-cased, compared character by character. */
  predicate LowerPrefix(s: string, w: string) {
    |w| <= |s| && forall i :: 0 <= i < |w| ==> LowerChar(s[i]) == w[i]
  }

  lemma LowerPrefixDowncase(s: string, w: string)
    ensures LowerPrefix(s, w) <==> |w| <= |s| && Downcase(s[..|w|]) == w
  {
    if |w| <= |s| {
      var d := Downcase(s[..|w|]);
      assert forall i :: 0 <= i < |w| ==> d[i] == LowerChar(s[i]);
    }
  }

  /** The last 9 - j letters of "isoniazid" at the head of a replaced text were already at the head of the original. */
  lemma {:induction false} ReplacedSuffixWasThere(t: string, j: nat)
    requires 1 <= j <= 8
    requires LowerPrefix(ReplaceIsoniazid(t), "isoniazid"[j..])
    ensures LowerPrefix(t, "isoniazid"[j..])
    decreases |t|
  {
    var w := "isoniazid"[j..];
    NoInSuffix(j);
    assert w[0] == "isoniazid"[j] && (j < 8 ==> |w| >= 2 && w[1] == "isoniazid"[j + 1]);
    SuffixHeadKept(t, w);
    KeptHeadReplaced(t);
    var r := ReplaceIsoniazid(t);
    LowerPrefixUncons(r, w);
    assert r[0] == t[0] && r[1..] == ReplaceIsoniazid(t[1..]);
    if j < 8 {
      assert w[1..] == "isoniazid"[j + 1..];
      ReplacedSuffixWasThere(t[1..], j + 1);
    }
    LowerPrefixCons(t, w);
  }

  /** A replaced head starts with "IN", so a text whose replacement starts with a w that does not is kept at its head. */
  lemma SuffixHeadKept(t: string, w: string)
    requires |w| > 0 && (w[0] != 'i' || (|w| >= 2 && w[1] != 'n'))
    requires LowerPrefix(ReplaceIsoniazid(t), w)
    ensures |t| > 0 && !IsoniazidAt(t, 0)
  {
    var r := ReplaceIsoniazid(t);
    assert LowerChar(r[0]) == w[0];
    assert |w| >= 2 ==> LowerChar(r[1]) == w[1];
    ReplacedHeadIsIN(t);
    assert LowerChar('I') == 'i' && LowerChar('N') == 'n';
  }

  lemma NoInSuffix(j: nat)
    requires 1 <= j <= 8
    ensures "isoniazid"[j] != 'i' || (j < 8 && "isoniazid"[j + 1] != 'n')
  {
  }

  /** A replaced head starts with "IN". */
  lemma ReplacedHeadIsIN(t: string)
    ensures IsoniazidAt(t, 0) ==> |ReplaceIsoniazid(t)| >= 2 && ReplaceIsoniazid(t)[0] == 'I' && ReplaceIsoniazid(t)[1] == 'N'
  {
  }

  /** Without a match at the head, the first character is kept. */
  lemma KeptHeadReplaced(t: string)
    ensures |t| > 0 && !IsoniazidAt(t, 0) ==> ReplaceIsoniazid(t) == [t[0]] + ReplaceIsoniazid(t[1..])
  {
  }

  lemma LowerPrefixUncons(s: string, w: string)
    requires |w| > 0 && LowerPrefix(s, w)
    ensures LowerChar(s[0]) == w[0] && LowerPrefix(s[1..], w[1..])
  {
    forall i | 0 <= i < |w[1..]| ensures LowerChar(s[1..][i]) == w[1..][i] {
      assert s[1..][i] == s[i + 1] && w[1..][i] == w[i + 1];
    }
  }

  lemma LowerPrefixCons(s: string, w: string)
    requires |w| > 0 && |s| > 0 && LowerChar(s[0]) == w[0] && LowerPrefix(s[1..], w[1..])
    ensures LowerPrefix(s, w)
  {
    forall i | 0 < i < |w| ensures LowerChar(s[i]) == w[i] {
      assert s[i] == s[1..][i - 1] && w[i] == w[1..][i - 1];
    }
  }

  /** A window at the head of a kept character means the original text had a match there. */
  lemma KeptHead(s: string)
    requires |s| > 0
    ensures IsoniazidAt([s[0]] + ReplaceIsoniazid(s[1..]), 0) ==> |s| >= 9 && Downcase(s[..9]) == "isoniazid"
  {
    var rest := ReplaceIsoniazid(s[1..]);
    var r := [s[0]] + rest;
    if IsoniazidAt(r, 0) {
      var w := "isoniazid";
      LowerPrefixDowncase(r, w);
      forall i | 0 <= i < |w[1..]| ensures LowerChar(rest[i]) == w[1..][i] {
        assert rest[i] == r[i + 1] && w[1..][i] == w[i + 1];
      }
      ReplacedSuffixWasThere(s[1..], 1);
      forall i | 0 <= i < |w| ensures LowerChar(s[i]) == w[i] {
        if i > 0 {
          assert s[i] == s[1..][i - 1] && w[i] == w[1..][i - 1];
        }
      }
      LowerPrefixDowncase(s, w);
    }
  }

  /** A window lying in the back part of a concatenation is a window of that part. */
  lemma WindowShift(a: string, b: string, k: int)
    requires |a| <= k
    ensures IsoniazidAt(a + b, k) <==> IsoniazidAt(b, k - |a|)
  {
    if k + 9 <= |a + b| {
      assert (a + b)[k..k + 9] == b[k - |a|..k - |a| + 9];
    }
  }

  /** None of the first three windows of an INH-headed text spells "isoniazid". */
  lemma InhHeadNoWindow(rest: string, k: int)
    requires 0 <= k < 3
    ensures !IsoniazidAt("INH" + rest, k)
  {
    var r := "INH" + rest;
    if k + 9 <= |r| {
      var w := r[k..k + 9];
      assert w[0] == r[k] && w[1] == r[k + 1];
      assert r[0] == 'I' && r[1] == 'N' && r[2] == 'H';
      assert Downcase(w)[0] == LowerChar(w[0]) && Downcase(w)[1] == LowerChar(w[1]);
      assert "isoniazid"[0] == 'i' && "isoniazid"[1] == 's';
    }
  }

  /** No window of a replaced text spells "isoniazid" in any case. */
  lemma {:induction false} NoIsoniazidWindow(s: string, k: int)
    ensures !IsoniazidAt(ReplaceIsoniazid(s), k)
    decreases |s|
  {
    ReplaceHead(s);
    if |s| >= 9 && Downcase(s[..9]) == "isoniazid" {
      var rest := ReplaceIsoniazid(s[9..]);
      assert ReplaceIsoniazid(s) == "INH" + rest;
      if 3 <= k {
        NoIsoniazidWindow(s[9..], k - 3);
        WindowShift("INH", rest, k);
      } else if 0 <= k {
        InhHeadNoWindow(rest, k);
      }
    } else if |s| > 0 {
      var rest := ReplaceIsoniazid(s[1..]);
      assert ReplaceIsoniazid(s) == [s[0]] + rest;
      if 1 <= k {
        NoIsoniazidWindow(s[1..], k - 1);
        WindowShift([s[0]], rest, k);
      } else {
        KeptHead(s);
      }
    }
  }

  /** After `gsub(/Isoniazid/i, 'INH')` no Isoniazid is left, in any case. */
  lemma ReplaceIsoniazidRemovesAll(s: string)
    ensures !ContainsIgnoreCase(ReplaceIsoniazid(s), "Isoniazid")
  {
    var r := ReplaceIsoniazid(s);
    DowncaseIsoniazid();
    ContainsWindow(Downcase(r), "isoniazid");
    forall k ensures !OccursAt(Downcase(r), "isoniazid", k) {
      NoIsoniazidWindow(s, k);
      if 0 <= k && k + 9 <= |r| {
        assert Downcase(r)[k..k + 9] == Downcase(r[k..k + 9]);
      }
    }
  }

  /** A text with no Isoniazid, in any case, comes back unchanged. */
  lemma {:induction false} ReplaceIsoniazidUnchanged(s: string)
    requires !ContainsIgnoreCase(s, "Isoniazid")
    ensures ReplaceIsoniazid(s) == s
    decreases |s|
  {
    DowncaseIsoniazid();
    if |s| > 0 {
      assert Downcase(s)[1..] == Downcase(s[1..]);
      if |s| >= 9 {
        assert Downcase(s)[..9] == Downcase(s[..9]);
      }
      ReplaceIsoniazidUnchanged(s[1..]);
      assert [s[0]] + s[1..] == s;
    }
  }

  /** Position of the last '(' of a string, if any. */
  function LastParen(s: string): (r: Option<nat>)
    ensures r.Some? ==> r.value < |s| && s[r.value] == '(' && forall k :: r.value < k < |s| ==> s[k] != '('
    ensures r.None? ==> forall k :: 0 <= k < |s| ==> s[k] != '('
    decreases |s|
  {
    if |s| == 0 then None
    else if s[|s| - 1] == '(' then Some(|s| - 1)
    else LastParen(s[..|s| - 1])
  }

  /**
   * Group 1 of `/^(.+)\s*\(.*$/` on one line: with `.+` greedy it spans
   * from the line start up to the last '(' of the line, which must not be
   * the line's first character.
   */
  function LineGroup(line: string): (r: Option<string>)
    ensures r.Some? ==> 0 < |r.value| < |line| && line[|r.value|] == '(' && r.value == line[..|r.value|]
  {
    match LastParen(line)
    case None => None
    case Some(k) => if k == 0 then None else Some(line[..k])
  }

  /** The first line of the name for which that pattern matches. */
  function FirstLineGroup(lines: seq<string>): Option<string>
    decreases |lines|
  {
    if |lines| == 0 then None
    else match LineGroup(lines[0])
      case Some(g) => Some(g)
      case None => FirstLineGroup(lines[1..])
  }

  /** The drug name truncated by `/^(.+)\s*\(.*$/` when it matches, else the name itself. */
  function CutName(name: string): string {
    match FirstLineGroup(Fields(name, '\n'))
    case Some(g) => g
    case None => name
  }

  /**
   * On a one-line name the cut keeps the text before the last '(' when
   * there is a '(' after the first character, and the whole name otherwise.
   */
  lemma CutNameOneLine(name: string)
    requires '\n' !in name
    ensures (exists k :: 1 <= k < |name| && name[k] == '(') ==>
      var c := CutName(name);
      0 < |c| < |name| && c == name[..|c|] && name[|c|] == '(' && forall k :: |c| < k < |name| ==> name[k] != '('
    ensures !(exists k :: 1 <= k < |name| && name[k] == '(') ==> CutName(name) == name
  {
    NoNewlineOneField(name);
    assert [name][1..] == [];
    assert FirstLineGroup([name]) == LineGroup(name);
    if exists k :: 1 <= k < |name| && name[k] == '(' {
      var k :| 1 <= k < |name| && name[k] == '(';
      assert LastParen(name).Some?;
    }
  }

  lemma {:induction false} ShortNeverContains(s: string, sub: string)
    requires |s| < |sub|
    ensures !Contains(s, sub)
    decreases |s|
  {
    if |s| > 0 {
      ShortNeverContains(s[1..], sub);
    }
  }

  datatype DrugRecord = DrugRecord(name: string, mohShortName: Option<string>)

  /** The MoH short name exists and matches the drug-code pattern. */
  predicate MohPath(drug: DrugRecord) {
    drug.mohShortName.Some? && MatchesDrugCode(drug.mohShortName.value)
  }

  /**
   * `format_drug_name`. A MoH short name that matches the drug-code pattern
   * comes back without whitespace and with Isoniazid as INH; otherwise the
   * cut drug name is used, except that a name mentioning Cotrimoxazole
   * becomes CPT.
   */
  function FormatDrugName(drug: DrugRecord): (r: string)
    ensures MohPath(drug) ==> r == ReplaceIsoniazid(RemoveSpaces(drug.mohShortName.value))
    ensures MohPath(drug) ==> |r| <= |drug.mohShortName.value| && forall k :: 0 <= k < |r| ==> !IsSpace(r[k])
    ensures !MohPath(drug) ==> !Contains(r, "Cotrimoxazole")
    ensures !MohPath(drug) && Contains(CutName(drug.name), "Cotrimoxazole") ==> r == "CPT"
    ensures !MohPath(drug) && !Contains(CutName(drug.name), "Cotrimoxazole") ==> r == CutName(drug.name)
  {
    if MohPath(drug) then
      var compact := RemoveSpaces(drug.mohShortName.value);
      ReplaceIsoniazidNoSpaces(compact);
      ReplaceIsoniazid(compact)
    else
      var name := CutName(drug.name);
      if Contains(name, "Cotrimoxazole") then
        ShortNeverContains("CPT", "Cotrimoxazole");
        "CPT"
      else name
  }

  /** On the drug-code path no Isoniazid, in any case, is left in the shown name. */
  lemma FormatDrugNameNoIsoniazid(drug: DrugRecord)
    requires MohPath(drug)
    ensures !ContainsIgnoreCase(FormatDrugName(drug), "Isoniazid")
  {
    ReplaceIsoniazidRemovesAll(RemoveSpaces(drug.mohShortName.value));
  }

  /** Letters keep the automaton in its letter state. */
  lemma {:induction false} LettersThen(l: string, rest: string)
    requires forall k :: 0 <= k < |l| ==> IsAsciiLetter(l[k])
    ensures RunCode(l + rest, 1) == RunCode(rest, 1)
    decreases |l|
  {
    if |l| > 0 {
      assert (l + rest)[0] == l[0] && (l + rest)[1..] == l[1..] + rest;
      assert CodeStep(1, l[0]) == Some(1);
      assert RunCode(l + rest, 1) == RunCode(l[1..] + rest, 1);
      LettersThen(l[1..], rest);
    } else {
      assert l + rest == rest;
    }
  }

  lemma IsoniazidIsDrugCode()
    ensures MatchesDrugCode("Isoniazid 300")
  {
    var moh := "Isoniazid 300";
    IsoniazidRuns();
    assert moh[0..13] == moh;
    assert LineStart(moh, 0) && LineEnd(moh, 13);
  }

  lemma IsoniazidRuns()
    ensures IsDrugCode("Isoniazid 300")
  {
    var moh := "Isoniazid 300";
    SpaceThenCode();
    SonaziLetters();
    LettersThen("soniazid", " 300");
    assert moh[1..] == "soniazid" + " 300";
    assert CodeStep(0, moh[0]) == Some(1);
  }

  lemma SpaceThenCode()
    ensures RunCode(" 300", 1) == Some(3)
  {
    assert RunCode("", 3) == Some(3);
    assert RunCode("0", 3) == Some(3) by { assert "0"[1..] == ""; }
    assert RunCode("00", 3) == Some(3) by { assert "00"[1..] == "0"; }
    assert RunCode("300", 2) == Some(3) by { assert "300"[1..] == "00"; }
    assert " 300"[1..] == "300";
  }

  lemma SonaziLetters()
    ensures forall k :: 0 <= k < |"soniazid"| ==> IsAsciiLetter("soniazid"[k])
  {
  }

  lemma IsoniazidCompacted()
    ensures ReplaceIsoniazid(RemoveSpaces("Isoniazid 300")) == "INH300"
  {
    IsoniazidSpacesRemoved();
    IsoniazidReplaced();
  }

  lemma IsoniazidSpacesRemoved()
    ensures RemoveSpaces("Isoniazid 300") == "Isoniazid300"
  {
    SpaceThenDigits();
    IsoniazidHasNoSpace();
    RemoveSpacesLetters("Isoniazid", " 300");
    assert "Isoniazid 300" == "Isoniazid" + " 300";
  }

  lemma SpaceThenDigits()
    ensures RemoveSpaces(" 300") == "300"
  {
    assert " 300"[1..] == "300";
    assert "300"[1..] == "00" && "00"[1..] == "0" && "0"[1..] == "";
  }

  lemma IsoniazidHasNoSpace()
    ensures forall k :: 0 <= k < |"Isoniazid"| ==> !IsSpace("Isoniazid"[k])
  {
  }

  lemma IsoniazidReplaced()
    ensures ReplaceIsoniazid("Isoniazid300") == "INH300"
  {
    var c := "Isoniazid300";
    assert ReplaceIsoniazid("300") == "300" by {
      assert "300"[1..] == "00" && "00"[1..] == "0" && "0"[1..] == "";
    }
    assert c[..9] == "Isoniazid" && c[9..] == "300";
    DowncaseIsoniazid();
  }

  lemma DowncaseIsoniazid()
    ensures Downcase("Isoniazid") == "isoniazid"
  {
    assert "Isoniazid"[1..] == "soniazid";
    assert Downcase("soniazid") == "soniazid";
  }

  /** The MoH name "Isoniazid 300" is shown as "INH300". */
  lemma IsoniazidExample(name: string)
    ensures FormatDrugName(DrugRecord(name, Some("Isoniazid 300"))) == "INH300"
  {
    IsoniazidIsDrugCode();
    IsoniazidCompacted();
  }

  lemma {:induction false} RemoveSpacesLetters(l: string, rest: string)
    requires forall k :: 0 <= k < |l| ==> !IsSpace(l[k])
    ensures RemoveSpaces(l + rest) == l + RemoveSpaces(rest)
    decreases |l|
  {
    if |l| > 0 {
      assert (l + rest)[0] == l[0] && (l + rest)[1..] == l[1..] + rest;
      assert RemoveSpaces(l + rest) == [l[0]] + RemoveSpaces(l[1..] + rest);
      RemoveSpacesLetters(l[1..], rest);
      assert [l[0]] + (l[1..] + RemoveSpaces(rest)) == l + RemoveSpaces(rest);
    } else {
      assert l + rest == rest && l + RemoveSpaces(rest) == RemoveSpaces(rest);
    }
  }

  lemma {:induction false} NoNewlineOneField(s: string)
    requires '\n' !in s
    ensures Fields(s, '\n') == [s]
    decreases |s|
  {
    if |s| > 0 {
      assert '\n' !in s[1..];
      NoNewlineOneField(s[1..]);
      assert [s[0]] + s[1..] == s;
    }
  }

  // ---------------------------------------------------------------- outcome

  /** `patient_outcome`: the state found, or 'Unknown' for nil or a failed lookup. */
  function PatientOutcome(state: Result<Option<string>>): (r: string)
    ensures state.Raised? ==> r == "Unknown"
    ensures state == Ok(None) ==> r == "Unknown"
    ensures state.Ok? && state.value.Some? ==> r == state.value.value
  {
    match state
    case Raised(_) => "Unknown"
    case Ok(None) => "Unknown"
    case Ok(Some(s)) => s
  }

  // ---------------------------------------------------------------- pills dispensed

  /** An 'Amount dispensed' observation: the dispensed drug (nil without an order) and its value. */
  datatype PillObservation = PillObservation(drug: Option<DrugRecord>, valueNumeric: Option<int>)

  function Keys(pairs: seq<(string, int)>): (r: seq<string>)
    ensures |r| == |pairs|
    ensures forall k :: 0 <= k < |pairs| ==> r[k] == pairs[k].0
  {
    seq(|pairs|, k requires 0 <= k < |pairs| => pairs[k].0)
  }

  /** `h[name] ||= 0; h[name] += v` on an insertion-ordered hash given as its pairs. */
  function AddPills(pairs: seq<(string, int)>, name: string, v: int): (r: seq<(string, int)>)
    ensures name in Keys(r)
    ensures forall k :: k in Keys(r) <==> k in Keys(pairs) || k == name
    decreases |pairs|
  {
    if |pairs| == 0 then
      assert Keys([(name, v)]) == [name];
      [(name, v)]
    else if pairs[0].0 == name then
      var r := [(name, pairs[0].1 + v)] + pairs[1..];
      assert Keys(r) == Keys(pairs);
      r
    else
      var rest := AddPills(pairs[1..], name, v);
      assert Keys([pairs[0]] + rest) == [pairs[0].0] + Keys(rest);
      assert Keys(pairs) == [pairs[0].0] + Keys(pairs[1..]);
      [pairs[0]] + rest
  }

  lemma KeysCons(p: (string, int), rest: seq<(string, int)>)
    ensures Keys([p] + rest) == [p.0] + Keys(rest)
  {
  }

  lemma {:induction false} AddPillsKeepsKeysDistinct(pairs: seq<(string, int)>, name: string, v: int)
    requires NoDuplicates(Keys(pairs))
    ensures NoDuplicates(Keys(AddPills(pairs, name, v)))
    decreases |pairs|
  {
    if |pairs| > 0 && pairs[0].0 != name {
      var rest := AddPills(pairs[1..], name, v);
      KeysCons(pairs[0], pairs[1..]);
      assert [pairs[0]] + pairs[1..] == pairs;
      AddPillsKeepsKeysDistinct(pairs[1..], name, v);
      KeysCons(pairs[0], rest);
      assert pairs[0].0 !in Keys(rest);
      NoDuplicatesCons(pairs[0].0, Keys(rest));
    } else if |pairs| > 0 {
      KeysCons((name, pairs[0].1 + v), pairs[1..]);
      KeysCons(pairs[0], pairs[1..]);
      assert [pairs[0]] + pairs[1..] == pairs;
    }
  }

  /** The value stored under a key (0 when absent). */
  function ValueOf(pairs: seq<(string, int)>, name: string): int
    decreases |pairs|
  {
    if |pairs| == 0 then 0 else if pairs[0].0 == name then pairs[0].1 else ValueOf(pairs[1..], name)
  }

  lemma {:induction false} AddPillsValue(pairs: seq<(string, int)>, name: string, v: int, key: string)
    requires NoDuplicates(Keys(pairs))
    ensures ValueOf(AddPills(pairs, name, v), key) == ValueOf(pairs, key) + (if key == name then v else 0)
    decreases |pairs|
  {
    if |pairs| > 0 {
      assert Keys(pairs) == [pairs[0].0] + Keys(pairs[1..]);
      if pairs[0].0 == name && key == name {
      } else if pairs[0].0 == name {
      } else {
        AddPillsValue(pairs[1..], name, v, key);
      }
      if pairs[0].0 == name && key != name {
        assert ValueOf([(name, pairs[0].1 + v)] + pairs[1..], key) == ValueOf(pairs[1..], key);
      }
    }
  }

  /** The totals the dispensing loop builds; a nil value on an observation with a drug raises. */
  function PillTotals(obs: seq<PillObservation>): (r: Result<seq<(string, int)>>)
    ensures r.Ok? ==> NoDuplicates(Keys(r.value))
    decreases |obs|
  {
    if |obs| == 0 then Ok([])
    else
      match PillTotals(obs[..|obs| - 1])
      case Raised(m) => Raised(m)
      case Ok(pairs) =>
        var o := obs[|obs| - 1];
        if o.drug.None? then Ok(pairs)
        else if o.valueNumeric.None? then Raised("TypeError: nil can't be coerced into Integer")
        else
          AddPillsKeepsKeysDistinct(pairs, FormatDrugName(o.drug.value), o.valueNumeric.value);
          Ok(AddPills(pairs, FormatDrugName(o.drug.value), o.valueNumeric.value))
  }

  /** Sum of the values of the observations whose drug formats to `name`. */
  function DispensedTotal(obs: seq<PillObservation>, name: string): int
    decreases |obs|
  {
    if |obs| == 0 then 0
    else
      var o := obs[|obs| - 1];
      DispensedTotal(obs[..|obs| - 1], name)
      + (if o.drug.Some? && FormatDrugName(o.drug.value) == name then (match o.valueNumeric case Some(v) => v case None => 0) else 0)
  }

  /** The observation has a drug whose formatted name is `name`. */
  predicate DrugNamed(o: PillObservation, name: string) {
    o.drug.Some? && FormatDrugName(o.drug.value) == name
  }

  /** One pair per formatted drug name among the observations that have a drug. */
  lemma {:induction false} PillTotalsKeys(obs: seq<PillObservation>, name: string)
    requires PillTotals(obs).Ok?
    ensures name in Keys(PillTotals(obs).value) <==> exists i :: 0 <= i < |obs| && DrugNamed(obs[i], name)
    decreases |obs|
  {
    if |obs| > 0 {
      var front := obs[..|obs| - 1];
      var o := obs[|obs| - 1];
      PillTotalsKeys(front, name);
      var pairs := PillTotals(front).value;
      if o.drug.Some? {
        assert PillTotals(obs).value == AddPills(pairs, FormatDrugName(o.drug.value), o.valueNumeric.value);
      } else {
        assert PillTotals(obs).value == pairs;
      }
      assert name in Keys(PillTotals(obs).value) <==> name in Keys(pairs) || DrugNamed(o, name);
      DrugNamedSnoc(obs, front, name);
    }
  }

  lemma DrugNamedSnoc(obs: seq<PillObservation>, front: seq<PillObservation>, name: string)
    requires |obs| > 0 && front == obs[..|obs| - 1]
    ensures (exists i :: 0 <= i < |obs| && DrugNamed(obs[i], name))
      <==> (exists i :: 0 <= i < |front| && DrugNamed(front[i], name)) || DrugNamed(obs[|obs| - 1], name)
  {
    assert forall i :: 0 <= i < |front| ==> front[i] == obs[i];
  }

  /** Each pair holds the sum of the values of the observations whose drug formats to its name. */
  lemma {:induction false} PillTotalsValues(obs: seq<PillObservation>, name: string)
    requires PillTotals(obs).Ok?
    ensures ValueOf(PillTotals(obs).value, name) == DispensedTotal(obs, name)
    decreases |obs|
  {
    if |obs| > 0 {
      var front := obs[..|obs| - 1];
      var o := obs[|obs| - 1];
      PillTotalsValues(front, name);
      if o.drug.Some? {
        AddPillsValue(PillTotals(front).value, FormatDrugName(o.drug.value), o.valueNumeric.value, name);
      }
    }
  }

  // ---------------------------------------------------------------- side effects

  datatype ChildObservation = ChildObservation(valueCoded: int, conceptFullname: Option<string>)
  datatype SideEffectObservation = SideEffectObservation(children: seq<ChildObservation>)

  /** The full names of the children answered Yes, in order. */
  function YesNames(children: seq<ChildObservation>, yes: int): (r: seq<string>)
    ensures |r| <= |children|
    ensures |r| == 0 <==> forall k :: 0 <= k < |children| ==> children[k].valueCoded != yes
    decreases |children|
  {
    if |children| == 0 then []
    else
      var front := YesNames(children[..|children| - 1], yes);
      var c := children[|children| - 1];
      assert forall k :: 0 <= k < |children| - 1 ==> children[..|children| - 1][k] == children[k];
      front + (if c.valueCoded == yes then [match c.conceptFullname case Some(n) => n case None => ""] else [])
  }

  /** One comma-joined string per parent observation with at least one Yes child, in order. */
  function SideEffectsOf(parents: seq<SideEffectObservation>, yes: int): (r: seq<string>)
    ensures |r| <= |parents|
    decreases |parents|
  {
    if |parents| == 0 then []
    else
      var names := YesNames(parents[|parents| - 1].children, yes);
      SideEffectsOf(parents[..|parents| - 1], yes) + (if |names| == 0 then [] else [Join(names, ",")])
  }

  function CountWithYes(parents: seq<SideEffectObservation>, yes: int): nat
    decreases |parents|
  {
    if |parents| == 0 then 0
    else CountWithYes(parents[..|parents| - 1], yes) + (if |YesNames(parents[|parents| - 1].children, yes)| == 0 then 0 else 1)
  }

  lemma {:induction false} SideEffectsCount(parents: seq<SideEffectObservation>, yes: int)
    ensures |SideEffectsOf(parents, yes)| == CountWithYes(parents, yes)
    decreases |parents|
  {
    if |parents| > 0 {
      SideEffectsCount(parents[..|parents| - 1], yes);
    }
  }

  /** The visit object with its two memoised results. */
  class PatientVisit {
    var sideEffectsMemo: Option<seq<string>>
    var pillsMemo: Option<seq<(string, int)>>

    constructor ()
      ensures sideEffectsMemo.None? && pillsMemo.None?
    {
      sideEffectsMemo := None;
      pillsMemo := None;
    }

    /**
     * `side_effects`: the memoised list when there is one (an empty list
     * counts), otherwise computed from the observations and memoised.
     */
    method SideEffects(parents: seq<SideEffectObservation>, yes: int) returns (r: seq<string>)
      modifies this`sideEffectsMemo
      ensures old(sideEffectsMemo).Some? ==> r == old(sideEffectsMemo).value && sideEffectsMemo == old(sideEffectsMemo)
      ensures old(sideEffectsMemo).None? ==> r == SideEffectsOf(parents, yes) && sideEffectsMemo == Some(r)
    {
      if sideEffectsMemo.Some? {
        return sideEffectsMemo.value;
      }
      var acc: seq<string> := [];
      var i := 0;
      while i < |parents|
        invariant 0 <= i <= |parents|
        invariant acc == SideEffectsOf(parents[..i], yes)
      {
        assert parents[..i + 1][..i] == parents[..i] && parents[..i + 1][i] == parents[i];
        var result := YesNames(parents[i].children, yes);
        if |result| > 0 {
          acc := acc + [Join(result, ",")];
        }
        i := i + 1;
      }
      assert parents[..|parents|] == parents;
      sideEffectsMemo := Some(acc);
      return acc;
    }

    /**
     * `patient_pills_dispensed`: the first call computes the totals, memoises
     * the hash and returns its pairs; later calls return the memoised hash.
     * A raise leaves the memo unset.
     */
    method PatientPillsDispensed(obs: seq<PillObservation>) returns (r: Result<PillsView>)
      modifies this`pillsMemo
      ensures old(pillsMemo).Some? ==> r == Ok(HashView(old(pillsMemo).value)) && pillsMemo == old(pillsMemo)
      ensures old(pillsMemo).None? ==> match PillTotals(obs)
        case Raised(m) => r == Raised(m) && pillsMemo.None?
        case Ok(pairs) => r == Ok(PairList(pairs)) && pillsMemo == Some(pairs)
    {
      if pillsMemo.Some? {
        return Ok(HashView(pillsMemo.value));
      }
      var pairs: seq<(string, int)> := [];
      var i := 0;
      while i < |obs|
        invariant 0 <= i <= |obs|
        invariant PillTotals(obs[..i]) == Ok(pairs)
      {
        assert obs[..i + 1][..i] == obs[..i] && obs[..i + 1][i] == obs[i];
        var o := obs[i];
        if o.drug.None? {
          i := i + 1;
          continue;
        }
        var name := FormatDrugName(o.drug.value);
        if o.valueNumeric.None? {
          PillsRaisedPrefix(obs, i + 1);
          return Raised("TypeError: nil can't be coerced into Integer");
        }
        pairs := AddPills(pairs, name, o.valueNumeric.value);
        i := i + 1;
      }
      assert obs[..|obs|] == obs;
      pillsMemo := Some(pairs);
      return Ok(PairList(pairs));
    }
  }

  /** The first call returns the pairs of the hash; later calls return the hash itself. */
  datatype PillsView = PairList(pairs: seq<(string, int)>) | HashView(hash: seq<(string, int)>)

  lemma {:induction false} PillsRaisedPrefix(obs: seq<PillObservation>, k: nat)
    requires k <= |obs| && PillTotals(obs[..k]).Raised?
    ensures PillTotals(obs) == PillTotals(obs[..k])
    decreases |obs| - k
  {
    if k < |obs| {
      assert obs[..k + 1][..k] == obs[..k];
      PillsRaisedPrefix(obs, k + 1);
    } else {
      assert obs[..k] == obs;
    }
  }
}
