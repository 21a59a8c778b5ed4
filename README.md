# BHT-EMR-API report logic in Dafny

This project models the in-memory decision and aggregation code of the report
services in BHT-EMR-API, the electronic medical record used at Malawian HIV,
TB, HTS and cervical-cancer clinics. Each database query (`select_all`,
ActiveRecord lookups) is an input: a sequence of typed rows or a function
argument. The model then states and proves what the Ruby code does with those
rows:

- viral-load coverage eligibility, banding and the report skeleton (`ViralLoadCoverage`);
- the PEPFAR utilities: age groups and the TPT completion and 3HP rules (`PepfarUtils`);
- the regimen-switch listing (`RegimenSwitch`);
- the text of the ART transfer-out label (`TransferOutLabel`);
- the TB visit summary helpers (`TbPatientVisit`);
- the HTS "initial tested for syphilis" tallies (`HtsSyphilis`);
- the CxCa monthly screening report (`CxcaMonthlyScreen`);
- the TB community report helpers (`TbCommunity`).

Three helper modules stand for the Ruby and Rails behaviour the code relies on:

- `Collections`: `uniq`, `a - b`, `compact`, `sum`, and `Result` for a raised error.
- `Text`: ASCII `downcase`, `strip`, `blank?`, `to_i`, `to_s`, `split`, `join`.
- `Calendar`: dates as year/month/day, with Rails `+ n.months` clamping the day to the length of the month.

The code's form is kept:

- Loops that append into hashes or lists are `method`s with loop invariants. Each is proved equal to a specification function, and the properties are proved about that function.
- Objects whose fields the code updates are classes:
  - `ViralLoadCoverageReport` with `@clients`, `@maternal_status` and the report;
  - `PatientVisit` with its two memo fields;
  - `HtsSyphilisReport` with `@query` and `@data`;
  - `MonthlyScreenReport` with `report`.
- Pure helpers are functions with lemmas.

A Ruby exception the code lets escape, such as `NoMethodError` on `nil` or a failed `find`, is modelled as a `Raised` result and is never excluded by a precondition.

## Model

| member | source | states |
|---|---|---|
| ViralLoadCoverage.VlMaternalStatus | app/services/art_service/reports/pepfar/viral_load_coverage2.rb:29-42 | An empty patient list gives three empty lists. FP holds the patients found pregnant. FBf holds those found breastfeeding among the rest. FNP holds every other patient of the list. |
| ViralLoadCoverage.MaternalListsPartition | app/services/art_service/reports/pepfar/viral_load_coverage2.rb:33-41 | FP, FBf and FNP are pairwise disjoint and together hold exactly the patient list. |
| ViralLoadCoverage.QueryWomen | app/services/art_service/reports/pepfar/viral_load_coverage2.rb:32-35 | A grouped person query returns, without duplicates, exactly the listed patients that qualify. |
| ViralLoadCoverage.StatusOf | app/services/art_service/reports/pepfar/viral_load_coverage2.rb:149-154 | The row's status is 'FP' iff the patient is in FP; 'FBf' iff the patient is in FBf and not in FP; nil iff in neither. |
| ViralLoadCoverage.NeverDue | app/services/art_service/reports/pepfar/viral_load_coverage2.rb:155-157 | The patient is never due if the defaulter date is before end minus 12 months, the ART start date is missing, or ART started after end minus 6 months. |
| ViralLoadCoverage.ViralLoadCoverageReport.RemoveAdverseOutcomePatient | app/services/art_service/reports/pepfar/viral_load_coverage2.rb:163-183 | The step-by-step method equals the closed-form verdict, which covers every branch. On ART, or a VL order within the period or the last 12 months, gives false. A 'Defaulted' patient is removed iff last date plus the lookback (6 or 12 months) is not before the end date. The other states compare with the outcome date. A nil date raises. |
| ViralLoadCoverage.ViralLoadCoverageReport.ProcessClientEligibility | app/services/art_service/reports/pepfar/viral_load_coverage2.rb:148-161 | The row gets its maternal status first. The patient is appended to the clients exactly when the eligibility chain says due; nothing else changes. |
| ViralLoadCoverage.ViralLoadCoverageReport.EligibilityChain | app/services/art_service/reports/pepfar/viral_load_coverage2.rb:155-158 | The early returns give exactly the ordered exclusion chain: a stale defaulter, a missing or too recent ART start, or an adverse outcome keeps the row out, and a raise propagates. |
| ViralLoadCoverage.DueClients | app/services/art_service/reports/pepfar/viral_load_coverage2.rb:55-60 | The loop raises exactly when the eligibility chain raises for some row, once that row has its maternal status. Otherwise the clients are exactly the reference list `EligibleRows`. |
| ViralLoadCoverage.EligibleRowsMembers | app/services/art_service/reports/pepfar/viral_load_coverage2.rb:148-161 | A patient is on the reference list exactly when it is an input row, given its maternal status, that the eligibility chain finds due. The list keeps row order, and each member is a valid row. |
| ViralLoadCoverage.ViralLoadCoverageReport.CollectDueClients | app/services/art_service/reports/pepfar/viral_load_coverage2.rb:60 | The sequential loop leaves exactly the due-client list of the rows in order, or reports the error a row raised. |
| ViralLoadCoverage.ViralLoadCoverageReport.ProcessDuePeople | app/services/art_service/reports/pepfar/viral_load_coverage2.rb:47-64 | The maternal status is computed from the female patients. The clients are the due list when the report type is blank, 'poc' or 'emastercard', and empty otherwise. |
| ViralLoadCoverage.Females | app/services/art_service/reports/pepfar/viral_load_coverage2.rb:52-54 | The list holds exactly the ids of rows whose gender is 'F'. |
| ViralLoadCoverage.InitReport | app/services/art_service/reports/pepfar/viral_load_coverage2.rb:291-302 | Every PEPFAR age group is a key. Each key has an F and an M cell with empty due, drawn, low and high lists. |
| ViralLoadCoverage.AppendDue | app/services/art_service/reports/pepfar/viral_load_coverage2.rb:233 | Appending into the due list fails exactly when the age group is not a key or the gender is neither F nor M. On success the keys are unchanged. |
| ViralLoadCoverage.AppendDueCell | app/services/art_service/reports/pepfar/viral_load_coverage2.rb:233 | The patient's id goes at the end of the due list of its own [age_group][gender] cell. Every other list and every other cell is unchanged. |
| ViralLoadCoverage.DueTally | app/services/art_service/reports/pepfar/viral_load_coverage2.rb:232-234 | Building the due lists adds exactly one due entry per client, summed over all cells, and leaves the other lists' counts unchanged. |
| ViralLoadCoverage.WithDueOk | app/services/art_service/reports/pepfar/viral_load_coverage2.rb:232-234 | Filling the due lists fails exactly when some client's age group is not a report key or its gender is neither F nor M. |
| ViralLoadCoverage.DuePlacement | app/services/art_service/reports/pepfar/viral_load_coverage2.rb:232-234 | Each cell's due list becomes its old list followed by the ids of exactly the clients of that age group and gender, in client order. The cell's other lists are unchanged. |
| ViralLoadCoverage.ViralLoadCoverageReport.AddDueClients | app/services/art_service/reports/pepfar/viral_load_coverage2.rb:232-234 | The loop leaves the report equal to the specification function, or fails exactly where it fails. |
| ViralLoadCoverage.ReasonOf | app/services/art_service/reports/pepfar/viral_load_coverage2.rb:273 | A missing reason is routine. Otherwise the reason is routine iff it contains 'Routine' case-insensitively. |
| ViralLoadCoverage.BandOf | app/services/art_service/reports/pepfar/viral_load_coverage2.rb:276-284 | No result, no band. A result is low iff it equals 'LDL' case-insensitively or its to_i is below 1000; it is high otherwise. |
| ViralLoadCoverage.BandBoundary | app/services/art_service/reports/pepfar/viral_load_coverage2.rb:278-283 | '999', 'LDL' and 'ldl' are low, '1000' is high, and a nil result has no band. |
| ViralLoadCoverage.RecordTestCounts | app/services/art_service/reports/pepfar/viral_load_coverage2.rb:275-284 | One test adds exactly one drawn entry. It adds one low entry iff the band is low and one high entry iff the band is high. The due list is untouched. |
| ViralLoadCoverage.RecordTest | app/services/art_service/reports/pepfar/viral_load_coverage2.rb:273-284 | The test's patient id is appended to drawn under its reason (routine or targeted). It is appended to low_vl under that reason iff the result is LDL or below 1000, and to high_vl iff the result is 1000 or more. The due list and tx_curr are unchanged. |
| ViralLoadCoverage.RecordTestLists | app/services/art_service/reports/pepfar/viral_load_coverage2.rb:273-284 | Each list of the cell gains the test's id exactly when the test lands in that list, and is otherwise unchanged. |
| ViralLoadCoverage.AppendTestFrame | app/services/art_service/reports/pepfar/viral_load_coverage2.rb:270-284 | Only the test's own [age_group][gender] cell changes, and it changes as `RecordTest` says. Every other cell is unchanged. |
| ViralLoadCoverage.TestStep | app/services/art_service/reports/pepfar/viral_load_coverage2.rb:270-284 | One test appends its id to a list of a cell exactly when that cell is the test's own [age_group][gender] cell and the test lands in that list. tx_curr is unchanged. |
| ViralLoadCoverage.WithTestsOk | app/services/art_service/reports/pepfar/viral_load_coverage2.rb:270-272 | Loading the tests fails exactly when some test's age group is not a report key or its gender is neither F nor M. |
| ViralLoadCoverage.TestPlacement | app/services/art_service/reports/pepfar/viral_load_coverage2.rb:269-286 | Each list of each cell becomes its old list followed by the ids of exactly the tests that land there, in test order. tx_curr is unchanged. |
| ViralLoadCoverage.BandsCoverResults | app/services/art_service/reports/pepfar/viral_load_coverage2.rb:276-284 | The low and high counts add up to the number of tests with a result. |
| ViralLoadCoverage.TestTally | app/services/art_service/reports/pepfar/viral_load_coverage2.rb:269-286 | Summed over the report, the drawn count grows by the number of tests, the low and high counts by the tests in each band, and the due count not at all. |
| ViralLoadCoverage.ViralLoadCoverageReport.LoadPatientTestsIntoReport | app/services/art_service/reports/pepfar/viral_load_coverage2.rb:269-286 | The loop leaves the report equal to the specification function, or fails exactly where it fails. |
| ViralLoadCoverage.PopulateTxCurr | app/services/art_service/reports/pepfar/viral_load_coverage2.rb:261-265 | It raises iff a patient of the age group has no gender. Otherwise it lists exactly the ids of that age group and gender. |
| ViralLoadCoverage.ViralLoadCoverageReport.LoadTxCurrIntoReport | app/services/art_service/reports/pepfar/viral_load_coverage2.rb:252-259 | The keys are kept. Every cell's tx_curr becomes the populate_tx_curr list of its age group and gender. Failure is exactly a raising population. |
| ViralLoadCoverage.ViralLoadCoverageReport.FindReport | app/services/art_service/reports/pepfar/viral_load_coverage2.rb:23-27 | The report succeeds exactly when no tx_curr lookup raises, no eligibility check raises (when the loop runs for the report type), and every client and every test has a cell. On success the maternal lists are those of the female patients. The clients are the eligible rows, or none when no loop runs. The keys are the age groups. Each cell's due list holds exactly its own clients' ids, in order. Each drawn, low_vl and high_vl list holds exactly the ids of the tests that land there, in order. tx_curr is the `populate_tx_curr` list. |
| ViralLoadCoverage.GenderKey | app/services/art_service/reports/pepfar/viral_load_coverage2.rb:233 | `gender.to_sym` selects the F cell iff the gender is 'F', and the M cell iff it is 'M'. |
| PepfarUtils.AgeGroupsShape | app/services/art_service/reports/pepfar/utils.rb:11-27 | 21 distinct labels: 'Unknown' first, '<1 year' second, '90 plus years' last. |
| PepfarUtils.CohortRegimensShape | app/services/art_service/reports/pepfar/utils.rb:29-32 | There are 31 pairwise distinct codes. Each ends in P or A. The first 17 are the paediatric codes, and they are the only codes that contain a P. |
| PepfarUtils.ThreeHpDivider | app/services/art_service/reports/pepfar/utils.rb:82 | The divider is 14 iff the comma-separated concept list has more than one element, and 7 otherwise. |
| PepfarUtils.PatientCompletedTpt | app/services/art_service/reports/pepfar/utils.rb:77-88 | On 3HP, at least 3 months counts as complete. With fewer months, 3HP raises exactly when drug_concepts or the day total is nil. A non-3HP course never raises, and is complete exactly when a day total is given and is at least 146. |
| PepfarUtils.ThreeHpByDoses | app/services/art_service/reports/pepfar/utils.rb:82-84 | Below 3 months, 3HP is complete iff the days divided by the divider, rounded half up, reach 12. |
| PepfarUtils.CompletedTptMonotone | app/services/art_service/reports/pepfar/utils.rb:80-86 | With the other fields fixed, completion is monotone in total days on medication. |
| PepfarUtils.RoundedQuotientMonotone | app/services/art_service/reports/pepfar/utils.rb:83 | The rounded quotient is monotone in the dividend. |
| PepfarUtils.PatientOn3hp | app/services/art_service/reports/pepfar/utils.rb:130-133 | A nil drug_concepts raises. Otherwise the answer is true exactly when some comma-separated concept id, read with to_i, is the rifapentine or the isoniazid/rifapentine concept. |
| RegimenSwitch.LatestRegimens | app/services/art_service/reports/regimen_switch.rb:72-107 | The loop builds exactly the specification's grouping. It has one entry per patient and order pair. The entry's fields come from the pair's first row. pack_sizes holds one value per row of the pair, in row order. |
| RegimenSwitch.GroupRowsDescribes | app/services/art_service/reports/regimen_switch.rb:87-104 | The grouping has an entry exactly for the pairs some row carries. Each entry is built from its first row, with the pack sizes of all its rows. |
| RegimenSwitch.LatestRegimensPairs | app/services/art_service/reports/regimen_switch.rb:87-88 | A pair has rows iff some input row carries that patient id and order id. |
| RegimenSwitch.NewEntry | app/services/art_service/reports/regimen_switch.rb:89-101 | A new entry starts with empty pack sizes. The VL order date is 'N/A' iff the patient has no VL order. The result date and result are 'N/A' iff there is no VL result. |
| RegimenSwitch.PackSizes | app/services/art_service/reports/regimen_switch.rb:104 | One pack size per row, in row order. |
| RegimenSwitch.KeptMeansSwitched | app/services/art_service/reports/regimen_switch.rb:289-307 | A patient who is kept is 'On antiretrovirals' and has a visit date inside the period. The previous regimen differs from the current one and is not 'N/A'. |
| RegimenSwitch.NewClient | app/services/art_service/reports/regimen_switch.rb:322-334 | A new client has no medication. Its arv_number is 'N/A' when blank and the identifier otherwise. |
| RegimenSwitch.Items | app/services/art_service/reports/regimen_switch.rb:337-342 | One item per medication row, carrying the row's name and quantity and the visit date. |
| RegimenSwitch.SwitchRaises | app/services/art_service/reports/regimen_switch.rb:293-294 | The report raises iff some record that passed the outcome check has no medication row to read a start date from. |
| RegimenSwitch.SwitchClientsShape | app/services/art_service/reports/regimen_switch.rb:281-345 | A patient is listed iff some record for them is kept. The client is built from the first such record. Its medication count is the total over all kept records, and every item's date lies in the period. |
| RegimenSwitch.SwitchReport | app/services/art_service/reports/regimen_switch.rb:275-346 | The loop returns exactly the specification's client map or error. |
| RegimenSwitch.PushMedications | app/services/art_service/reports/regimen_switch.rb:309-342 | The inner loop creates the client if absent and appends one item per medication; other clients are untouched. |
| RegimenSwitch.AddVisitEffect | app/services/art_service/reports/regimen_switch.rb:309-342 | A kept visit creates the client once and appends the visit's items to them alone. |
| RegimenSwitch.GetPatientType | app/services/art_service/reports/regimen_switch.rb:348-355 | nil iff not pepfar. Otherwise 'External' iff an external-consultation observation exists, else 'Resident'. |
| RegimenSwitch.MaternalStatusLabel | app/services/art_service/reports/regimen_switch.rb:445-454 | nil iff the gender is blank. Otherwise a non-empty FBf gives 'FBf', then a non-empty FP gives 'FP', else 'FNP'. |
| RegimenSwitch.MaternalStatusOfPatient | app/services/art_service/reports/regimen_switch.rb:445-454 | For one patient with a gender, 'FP' iff pregnant. 'FBf' iff not pregnant and breastfeeding. 'FNP' iff neither. |
| TransferOutLabel.StagingConditions | app/services/art_service/patient_transfer_out_label.rb:24-32 | The loop builds exactly the numbered text of the non-blank conditions. |
| TransferOutLabel.StagingStep | app/services/art_service/patient_transfer_out_label.rb:27-30 | One pass over a condition keeps the loop state: the text is the staging text of the one-longer prefix, and count is the number of non-blank conditions so far (1 before the first). |
| TransferOutLabel.StagingFirst | app/services/art_service/patient_transfer_out_label.rb:27-28 | The first non-blank condition is numbered 1 and becomes the whole text. |
| TransferOutLabel.StagingNext | app/services/art_service/patient_transfer_out_label.rb:29-30 | A later non-blank condition takes the next number and is appended after one space. |
| TransferOutLabel.StagingBlank | app/services/art_service/patient_transfer_out_label.rb:28-30 | A blank condition adds no non-blank condition. |
| TransferOutLabel.NumberAll | app/services/art_service/patient_transfer_out_label.rb:28-30 | Non-blank conditions are numbered consecutively from 1 in input order. |
| TransferOutLabel.StagingEmptyIffAllBlank | app/services/art_service/patient_transfer_out_label.rb:26-31 | The staging text is empty iff every condition is blank. |
| TransferOutLabel.BlankTakesNoNumber | app/services/art_service/patient_transfer_out_label.rb:28-30 | A blank condition changes neither the text nor the numbering. |
| TransferOutLabel.NonBlankEmpty | app/services/art_service/patient_transfer_out_label.rb:27-30 | No condition survives iff all are blank. |
| TransferOutLabel.CurrentArtDrugs | app/services/art_service/patient_transfer_out_label.rb:45-64 | It raises iff some order's drug is missing from the catalogue. Otherwise it returns the distinct names of the ARVs dated like the first ARV order, joined with ' + '. |
| TransferOutLabel.CurrentDrugsStep | app/services/art_service/patient_transfer_out_label.rb:51-61 | One pass over an order raises iff the order's drug is not catalogued. Otherwise the first ARV date and the collected names advance exactly as for the one-longer prefix. |
| TransferOutLabel.ArvSkip | app/services/art_service/patient_transfer_out_label.rb:52-53 | An order that is not an ARV changes neither the first ARV date nor the collected names. |
| TransferOutLabel.ArvFirst | app/services/art_service/patient_transfer_out_label.rb:55-57 | The first ARV order fixes the date, and its name is the only one collected so far. |
| TransferOutLabel.ArvLater | app/services/art_service/patient_transfer_out_label.rb:55-58 | A later ARV order keeps the date. Its name is appended iff it is dated like the first ARV order. |
| TransferOutLabel.FirstArvDateMeaning | app/services/art_service/patient_transfer_out_label.rb:52-55 | None iff no order is an ARV. Otherwise it is the date of the first ARV order. |
| TransferOutLabel.ArvNamesOnMembers | app/services/art_service/patient_transfer_out_label.rb:52-58 | It lists exactly the names of ARV orders on the given date. |
| TransferOutLabel.CurrentArtDrugsContents | app/services/art_service/patient_transfer_out_label.rb:52-64 | The names are duplicate-free. Each comes from an ARV order on the first ARV order's date. |
| TransferOutLabel.ActualTransferOutDate | app/services/art_service/patient_transfer_out_label.rb:126-136 | With no state-2 record starting on or before the date, the result is the date itself. Otherwise it is the latest such start date. It is never after the date. |
| TbPatientVisit.PatientOutcome | app/services/tb_service/patient_visit.rb:19-24 | 'Unknown' when the lookup raises or finds no state; the state otherwise. |
| TbPatientVisit.FormatDrugName | app/services/tb_service/patient_visit.rb:119-133 | On the drug-code path the result is the MoH name with its whitespace removed and Isoniazid replaced by INH. That result has no whitespace and is no longer than the MoH name. Otherwise it is the name cut before its last '(', or 'CPT' when that contains 'Cotrimoxazole'. |
| TbPatientVisit.CutNameOneLine | app/services/tb_service/patient_visit.rb:127-128 | On a one-line name with a '(' after the first character, the cut is the prefix before the last '('. Otherwise the name is unchanged. |
| TbPatientVisit.DrugCodeExamples | app/services/tb_service/patient_visit.rb:122 | 'AZT300' matches the drug-code pattern and 'Cotrimoxazole' does not. |
| TbPatientVisit.IsoniazidExample | app/services/tb_service/patient_visit.rb:122-124 | The MoH name 'Isoniazid 300' formats to 'INH300'. |
| TbPatientVisit.FormatDrugNameNoIsoniazid | app/services/tb_service/patient_visit.rb:122-124 | On the drug-code path the shown name holds no Isoniazid in any case. |
| TbPatientVisit.ReplaceIsoniazidRemovesAll | app/services/tb_service/patient_visit.rb:124 | After `gsub(/Isoniazid/i, 'INH')`, no Isoniazid is left in any case, whatever the input. |
| TbPatientVisit.ReplaceIsoniazidUnchanged | app/services/tb_service/patient_visit.rb:124 | A text with no Isoniazid in any case comes back unchanged. |
| TbPatientVisit.ReplaceIsoniazidNoSpaces | app/services/tb_service/patient_visit.rb:123-124 | Replacing Isoniazid by INH keeps a whitespace-free text free of whitespace. |
| TbPatientVisit.AddPills | app/services/tb_service/patient_visit.rb:108-109 | After adding, the name is a key, and the keys are the old ones plus that name. |
| TbPatientVisit.AddPillsValue | app/services/tb_service/patient_visit.rb:108-109 | Adding v under a name raises that name's total by v and leaves the other totals unchanged. |
| TbPatientVisit.PillTotalsKeys | app/services/tb_service/patient_visit.rb:103-112 | A name has a pair exactly when it is the formatted name of some observation that has a drug. |
| TbPatientVisit.PillTotalsValues | app/services/tb_service/patient_visit.rb:103-112 | The value under a name is the sum of the values of the observations whose drug formats to that name. |
| TbPatientVisit.PillTotals | app/services/tb_service/patient_visit.rb:103-110 | The pairs' names are distinct. |
| TbPatientVisit.PatientVisit.PatientPillsDispensed | app/services/tb_service/patient_visit.rb:95-113 | The first call stores and returns the pair list, or its error. A later call returns the memoised hash unchanged. |
| TbPatientVisit.SideEffectsCount | app/services/tb_service/patient_visit.rb:36-42 | There is one joined string per parent observation with at least one Yes child. |
| TbPatientVisit.YesNames | app/services/tb_service/patient_visit.rb:37-39 | The list is empty iff no child is coded Yes. |
| TbPatientVisit.PatientVisit.SideEffects | app/services/tb_service/patient_visit.rb:26-45 | A second call returns the memoised value unchanged. The first stores the computed list. |
| HtsSyphilis.FilterHashColumn | app/services/hts_service/reports/moh/hts_initial_tested_for_syphilis.rb:160 | With a string key, a row is kept iff its value's stripped text equals the target's. |
| HtsSyphilis.FilterHashPair | app/services/hts_service/reports/moh/hts_initial_tested_for_syphilis.rb:158 | With an array key, a row is kept iff both columns equal the value. |
| HtsSyphilis.FilterHashNilTarget | app/services/hts_service/reports/moh/hts_initial_tested_for_syphilis.rb:160 | A nil target keeps exactly the rows whose column is nil. |
| HtsSyphilis.StrippedTextIsStrip | app/services/hts_service/reports/moh/hts_initial_tested_for_syphilis.rb:160 | The compared text is `to_s` followed by `strip`, for every kind of value. |
| HtsSyphilis.GetDiff | app/services/hts_service/reports/moh/hts_initial_tested_for_syphilis.rb:163-166 | It is the day difference of two dates, or -1 when either is not a date. |
| HtsSyphilis.GetDiffAntisymmetric | app/services/hts_service/reports/moh/hts_initial_tested_for_syphilis.rb:164 | Swapping two dates negates the difference. |
| HtsSyphilis.BirthdateToAge | app/services/hts_service/reports/moh/hts_initial_tested_for_syphilis.rb:168-171 | The difference of calendar years from today. A birthdate that is not a date raises. |
| HtsSyphilis.AgeBandsPartition | app/services/hts_service/reports/moh/hts_initial_tested_for_syphilis.rb:221-224 | Every integer age is in exactly one of <1, 1-14, 15-24 and 25+. |
| HtsSyphilis.AgeBandsCount | app/services/hts_service/reports/moh/hts_initial_tested_for_syphilis.rb:221-224 | The four age lists together hold every row once. |
| HtsSyphilis.SelectAgeBand | app/services/hts_service/reports/moh/hts_initial_tested_for_syphilis.rb:221-224 | It raises iff some birthdate is not a date. Otherwise it keeps exactly the rows of the band. |
| HtsSyphilis.HtsSyphilisReport.FetchAgeGroups | app/services/hts_service/reports/moh/hts_initial_tested_for_syphilis.rb:221-224 | It stores the four age lists and leaves the other keys alone. On a bad birthdate it stores nothing. |
| HtsSyphilis.HivTestWindows | app/services/hts_service/reports/moh/hts_initial_tested_for_syphilis.rb:254-259 | The six windows are pairwise disjoint. A day difference lies in one iff it is in 0..330 or at least 365, so -1 and 331-364 fall in none. |
| HtsSyphilis.ArvWindows | app/services/hts_service/reports/moh/hts_initial_tested_for_syphilis.rb:280-285 | The six windows are pairwise disjoint and together cover exactly 0..1000. |
| HtsSyphilis.OverwritePreviousTest | app/services/hts_service/reports/moh/hts_initial_tested_for_syphilis.rb:245 | The `=` block writes the text into 'previous_hiv_test' of every row done the given way. It leaves other rows as they were and every other column unchanged. |
| HtsSyphilis.DoneBy | app/services/hts_service/reports/moh/hts_initial_tested_for_syphilis.rb:245 | It keeps exactly the rows whose 'previous_hiv_test_done' matches the concept. |
| HtsSyphilis.SelfRowsHoldNegative | app/services/hts_service/reports/moh/hts_initial_tested_for_syphilis.rb:245-246 | After the two 'Negative' overwrites, every self-tested row reads 'Negative'. |
| HtsSyphilis.ProfRowsHoldNegative | app/services/hts_service/reports/moh/hts_initial_tested_for_syphilis.rb:245-246 | After the two 'Negative' overwrites, every professionally tested row reads 'Negative'. |
| HtsSyphilis.PositiveListsAlwaysEmpty | app/services/hts_service/reports/moh/hts_initial_tested_for_syphilis.rb:245-248 | As written, the positive self-test and positive professional-test lists are empty for every query. |
| HtsSyphilis.PositiveSelfTestCounterexample | app/services/hts_service/reports/moh/hts_initial_tested_for_syphilis.rb:245-247 | A self-tested row coded positive is missing from the list as written and present in the corrected one. |
| HtsSyphilis.CorrectedPositiveSelf | app/services/hts_service/reports/moh/hts_initial_tested_for_syphilis.rb:247 | Corrected, a row is a positive self-test iff it was self-tested and its coded result is positive. |
| HtsSyphilis.CorrectedNegativeAndPositiveDisjoint | app/services/hts_service/reports/moh/hts_initial_tested_for_syphilis.rb:245-247 | Corrected, no row is both a negative and a positive self-test. |
| HtsSyphilis.LastTestListsAsWritten | app/services/hts_service/reports/moh/hts_initial_tested_for_syphilis.rb:244-252 | It has an entry for each of the nine last-HIV-test kinds and no other keys. Each holds the rows the code as written selects, the `=` blocks included. |
| HtsSyphilis.PositiveEntriesEmpty | app/services/hts_service/reports/moh/hts_initial_tested_for_syphilis.rb:245-248 | As written, the positive self-test and professional-test entries hold no rows. |
| HtsSyphilis.LastTestListsCorrected | app/services/hts_service/reports/moh/hts_initial_tested_for_syphilis.rb:244-252 | It has an entry for each of the nine last-HIV-test kinds and no other keys. Each holds the rows selected with `==` against the concept ids. |
| HtsSyphilis.HtsSyphilisReport.FetchHivTests | app/services/hts_service/reports/moh/hts_initial_tested_for_syphilis.rb:243-260 | It stores the corrected last-test lists and the six time-since-last-test windows over the unchanged query. The positive and negative self-test entries hold exactly the corrected selections. |
| HtsSyphilis.HtsSyphilisReport.FetchEverTakenDrugsBefore | app/services/hts_service/reports/moh/hts_initial_tested_for_syphilis.rb:275-286 | It stores the four ever-taken filters and the six time-since-ARV windows. |
| HtsSyphilis.ColumnSumIsSumOfCompact | app/services/hts_service/reports/moh/hts_initial_tested_for_syphilis.rb:270-272 | A total that does not raise is the sum of the column's non-nil values. |
| HtsSyphilis.ColumnSum | app/services/hts_service/reports/moh/hts_initial_tested_for_syphilis.rb:270-272 | It raises iff a non-nil value is not a number. |
| HtsSyphilis.HtsSyphilisReport.FetchItemsGiven | app/services/hts_service/reports/moh/hts_initial_tested_for_syphilis.rb:269-273 | It stores the three column totals. It fails iff a column holds a non-number. |
| HtsSyphilis.SetUniqueOf | app/services/hts_service/reports/moh/hts_initial_tested_for_syphilis.rb:147-155 | The keys are kept. The three sum keys are untouched. Every other list of rows becomes a duplicate-free list of exactly its rows' person ids. |
| HtsSyphilis.HtsSyphilisReport.SetUnique | app/services/hts_service/reports/moh/hts_initial_tested_for_syphilis.rb:147-155 | The loop leaves exactly that map. It fails iff a non-sum key holds a total. |
| HtsSyphilis.InitialData | app/services/hts_service/reports/moh/hts_initial_tested_for_syphilis.rb:74-116 | The starting keys hold empty lists. The referral-slip and male-condom sums are among them; the female-condom sum is not. |
| CxcaMonthlyScreen.TxGroups | app/services/cxca_service/reports/clinic/monthly_screen_report.rb:13-17 | There are exactly three distinct treatment groups. |
| CxcaMonthlyScreen.GroupsDisjoint | app/services/cxca_service/reports/clinic/monthly_screen_report.rb:13-17 | No visit reason belongs to two groups. |
| CxcaMonthlyScreen.OutcomesDisjoint | app/services/cxca_service/reports/clinic/monthly_screen_report.rb:19-23 | The positive, negative and suspected vocabularies are pairwise disjoint. |
| CxcaMonthlyScreen.OneRowOneOutcome | app/services/cxca_service/reports/clinic/monthly_screen_report.rb:75-79 | A single row lands in at most one outcome list. |
| CxcaMonthlyScreen.GetIndicatorsMeaning | app/services/cxca_service/reports/clinic/monthly_screen_report.rb:72-84 | Each indicator list is duplicate-free. It holds exactly the person ids of rows with that outcome, or with same-day treatment. |
| CxcaMonthlyScreen.GroupRowsShape | app/services/cxca_service/reports/clinic/monthly_screen_report.rb:44-52 | There is one row per age group, labelled with it, then a '50 plus years' row. Each age row counts only rows of the group and that age group. |
| CxcaMonthlyScreen.OutsideGroupNotCounted | app/services/cxca_service/reports/clinic/monthly_screen_report.rb:47-50 | A person whose only row is not in the group's lower-cased vocabulary is counted in none of its rows. |
| CxcaMonthlyScreen.MonthlyScreenReport.InitReport | app/services/cxca_service/reports/clinic/monthly_screen_report.rb:42-53 | Every group key is present. Each holds its previous rows followed by its group rows. Other keys are kept. |
| CxcaMonthlyScreen.MonthlyScreenReport.PushGroup | app/services/cxca_service/reports/clinic/monthly_screen_report.rb:45-51 | The inner loop appends exactly the group rows to that group's list. |
| CxcaMonthlyScreen.TotalsOf | app/services/cxca_service/reports/clinic/monthly_screen_report.rb:55-70 | total_screened is the distinct person ids. The negative, positive and suspect totals are exactly the ids with that outcome, all within total_screened. The same-day total is the distinct rows eligible under the corrected line 62. |
| CxcaMonthlyScreen.MonthlyScreenReport.GetTotals | app/services/cxca_service/reports/clinic/monthly_screen_report.rb:55-70 | It stores those totals. |
| CxcaMonthlyScreen.SameDayEligibleMeaning | app/services/cxca_service/reports/clinic/monthly_screen_report.rb:62 | As written, a row is eligible iff screening_results is 'VIA positive' and tx_option is 'Same day treatment'. |
| CxcaMonthlyScreen.SameDayTotalAsWritten | app/services/cxca_service/reports/clinic/monthly_screen_report.rb:61-63 | As written, the total keeps exactly the rows screened 'VIA positive' with same-day treatment. |
| CxcaMonthlyScreen.DowncasedNeverVia | app/services/cxca_service/reports/clinic/monthly_screen_report.rb:62 | A downcased string never equals 'VIA positive'. |
| CxcaMonthlyScreen.SameDayCounterexample | app/services/cxca_service/reports/clinic/monthly_screen_report.rb:62 | A row whose via_result is 'VIA Positive' is eligible when corrected and not as written. |
| TbCommunity.GetReportingQuarter | app/services/tb_service/reports/community.rb:55-71 | The quarter is in 0..4. A quarter q of 1 or more means start and end are the first and last days of calendar quarter q. |
| TbCommunity.QuarterIff | app/services/tb_service/reports/community.rb:56-66 | The result is q iff the period is calendar quarter q, each end in its own year. |
| TbCommunity.NoQuarterIsZero | app/services/tb_service/reports/community.rb:58 | A period that is no calendar quarter yields 0. |
| TbCommunity.YearsIndependent | app/services/tb_service/reports/community.rb:56-59 | The two years are not compared: 1 January to 31 March of the next year is still quarter 1. |
| TbCommunity.GetReportingQuarterAsWritten | app/services/tb_service/reports/community.rb:55-71 | As written, the result is in 0..4 and a second quarter needs an end that is already a Date. |
| TbCommunity.AsWrittenAgreesOnDates | app/services/tb_service/reports/community.rb:61 | As written and corrected agree whenever the end is a Date object. |
| TbCommunity.SecondQuarterTextCounterexample | app/services/tb_service/reports/community.rb:61 | Given as date strings, 1 April to 30 June is quarter 0 as written and quarter 2 corrected. |
| TbCommunity.FunctionalSputumSampleCollectionPoints | app/services/tb_service/reports/community.rb:28-35 | [] when the property is absent; otherwise 1..n for the value's to_i, where a NULL value gives []. |
| TbCommunity.OneTo | app/services/tb_service/reports/community.rb:31 | `(1..n).to_a`: n elements 1, 2, …, n, and none for n of 0 or less. |
| TbCommunity.NewlyEstablishedSputumSampleCollectionPoints | app/services/tb_service/reports/community.rb:37-47 | [] when the period's property is absent; otherwise 1..n for its value. |
| TbCommunity.NewPointsKeyFields | app/services/tb_service/reports/community.rb:39 | The key splits on '.' into the fixed prefix, the start year and the quarter. |
| TbCommunity.NewPointsKeyDistinct | app/services/tb_service/reports/community.rb:38-39 | Periods with different quarters read different properties. |
| TbCommunity.NewPointsKeyAsWrittenOnDates | app/services/tb_service/reports/community.rb:38-39 | When the end date is a Date, the key carries the quarter that the code as written computes. |
| Calendar.AddMonths | app/services/art_service/reports/pepfar/viral_load_coverage2.rb:155-157 | Rails `+ n.months` moves the month index by n and keeps the date valid. The day is kept or clamped to the month's last day. |
| Calendar.AddMonthsMonotone | app/services/art_service/reports/pepfar/viral_load_coverage2.rb:180 | Adding the same number of months keeps the order of two dates. |
| Collections.Uniq | app/services/art_service/patient_transfer_out_label.rb:64 | `uniq` gives a duplicate-free list with the same members. |
| Text.Split | app/services/art_service/reports/pepfar/utils.rb:82 | `split(',')` yields parts without the separator. |
| Text.SplitJoin | app/services/art_service/reports/pepfar/utils.rb:82 | Joining the parts of `s.split(sep)` with sep gives back s without its trailing separators. So it gives back s itself when s does not end in sep. |
| Text.RemoveSpacesAppend | app/services/tb_service/patient_visit.rb:123 | `gsub(/\s+/, '')` works piece by piece: it drops a whitespace character and keeps any other one. So it keeps exactly the non-space characters, in order. |
| Text.RemoveSpacesKeeps | app/services/tb_service/patient_visit.rb:123 | A character is in the result exactly when it is in the input and is not whitespace. |
| Text.ContainsWindow | app/services/tb_service/patient_visit.rb:124 | A text contains a literal exactly when some window of the text equals it. |
| Collections.Select | app/services/cxca_service/reports/clinic/monthly_screen_report.rb:47 | `select` keeps exactly the rows that satisfy the block, and keeps no more rows than it was given. |
| Collections.SelectSplits | app/services/hts_service/reports/moh/hts_initial_tested_for_syphilis.rb:160 | A selection and the selection of its complement together hold every row exactly once, counted by length. |

## Left out

- All SQL and ActiveRecord queries are inputs, not models. These include `patients_on_art`, `find_patients_with_viral_load`, `pregnant_women`, `breast_feeding`, `create_patients_alive_and_on_art_query`, `arv_dispensention_data`, `regimen_data`, `latest_vl_orders`/`latest_vl_results`, the `patient_current_regimen` calls, the demographics query, the `INDICATORS` scopes and `his_patients_rev`. So are the per-patient VL and external-consultation lookups and the TB observation queries. The row-qualifying rules inside them are not modelled.
- The SQL delegators at the top of `app/services/tb_service/reports/community.rb` (lines 3-26) and `initial_visits_query` only pass their arguments to queries; they are not modelled.
- `Parallel.each(results, in_threads: 20)` runs `process_client_eligibility` from 20 threads with an unsynchronised `@clients <<`. The model runs the same per-patient step sequentially, so thread interleaving and lost appends are not captured.
- Cohort rebuilds and temporary tables are not modelled: `refresh_outcomes_table`, `latest_regimen_dispensed(rebuild_outcome)` and `pepfar_outcome_builder`. The temporary outcome table they fill is an input.
- The Zebra label rendering of `print` after the current ART drugs, and the CD4, height and weight text, are not modelled. They do no computation beyond formatting.
- `app/services/notification_service.rb` is not part of this model: it consists of database writes and transactions.
- Time is a parameter. `Time.now`, used only for logging, is dropped. `Date.today` in `birthdate_to_age` is the `today` argument.
- The hard-coded '2024-03-31' in `diff_in_months` is not modelled: `diff_in_months` is an input field of the patient row.
- `disaggregated_age_group` and the `age_groups` and `fifty_plus` lists the CxCa report takes from its utilities are not modelled. Age-group labels, and those two lists, are inputs.
- Floating point is modelled with integers: `quantity.to_f` and `value_numeric.to_f` in `latest_regimens`, and the summed `value_numeric` in `patient_pills_dispensed`. `(days / divider).round` is integer division rounded half up.
- Case folding and whitespace are ASCII only. No Unicode case mapping or Unicode whitespace is modelled.
- Regular expressions are modelled by hand-written matchers for the few patterns used. These are the drug-code pattern, `/P/i`, `/Routine/i` and `/^(.+)\s*\(.*$/` on one-line names. `CutNameOneLine` states the cut for names without a newline only.
- HtsSyphilis.InitialData: the starting hash is modelled by the key names given as a parameter, not by the 42 literal names.
- The other `filter_hash` fetches of the HTS report are covered only through `FilterHash` and its lemmas: the sex, test-result, risk, partner, referral and linked-client lists. No per-key method is written for them.
- HtsSyphilis.FilterHash: a text cell compared with a date target is compared as text. Text cells are not parsed as dates.
- HtsSyphilis.GetDiff: text cells are not parsed as dates. The model returns -1 unless both cells are Date values, though Ruby's `to_date` would parse a date string.
- CxcaMonthlyScreen.MonthlyScreenReport.GetTotals: stores the corrected same-day total (see Findings). The as-written total is stated by `SameDayTotalAsWritten`.
- DueTally: states the due counts summed over the report only. Which cell receives which id is stated by `AppendDueCell` and `DuePlacement`.
- RecordTestCounts: states per-measure counts only. Which list under which reason receives the id is stated by `RecordTest` and `RecordTestLists`.
- TestTally: states sums over the report only. The placement by cell, measure and reason is stated by `TestStep` and `TestPlacement`.
- Text.Split: its own contract states only that no part holds the separator. That the parts are the fields of the text is stated by `SplitJoin`.
- TbCommunity.NewlyEstablishedSputumSampleCollectionPoints: reads the property under `NewPointsKey`, which uses the corrected quarter.
- TbCommunity.NewPointsKey: the key uses the corrected `GetReportingQuarter` (see Findings). For date-string arguments in the second quarter, the code as written looks up quarter 0 instead. `NewPointsKeyAsWrittenOnDates` shows the two agree when the end is a Date.
- TbCommunity.NewPointsKeyFields: its third field is the corrected quarter, for the same reason.
- Values, not references: the rows of `@query` and the report hashes are modelled as values. The `=` selects overwriting `@query`'s rows appear only in the as-written half of the first finding (`OverwritePreviousTest` and the `After…` functions). The report object uses the corrected selects, which change no row. Other sharing between report entries is not modelled.
- HtsSyphilis.HtsSyphilisReport.FetchHivTests: the method stores the corrected lists, not the as-written ones (see Findings). The as-written lists, and the rows they rewrite, are stated by `LastTestListsAsWritten` and the lemmas about it.
- TbCommunity.GetReportingQuarter: a date argument is a Date object or a date string that parses. A malformed string, on which `to_date` raises, is not modelled.
- The global-property lookup is a map from property name to an optional value. Duplicate property records are not modelled.
- TransferOutLabel.CurrentArtDrugs: `drug.concept` is assumed to exist for every catalogued drug, so its absence does not raise.
- TbPatientVisit.PatientVisit.SideEffects: the early `return [] unless parent_obs` cannot fire, because a relation is never nil, and is not modelled.

## Findings

| source | as written | input that shows it | evidently intended | confidence | as-written member | corrected member |
|---|---|---|---|---|---|---|
| app/services/hts_service/reports/moh/hts_initial_tested_for_syphilis.rb:245-252 | The select blocks at lines 245, 246, 250 and 251 use `=` instead of `==`. Each keeps every row and writes 'Negative' or 'Invalid or inconclusive' into its `previous_hiv_test`, in the shared `@query` rows. So lines 247-248 never find a positive coded result. | A self-tested row whose `previous_hiv_test` is a positive concept id is missing from `last_hiv_test_positive_selftest`, and is counted as a negative self-test. | Compare with `==` against the concept ids, leaving the rows unchanged. | high; not executed | HtsSyphilis.PositiveListsAlwaysEmpty, HtsSyphilis.PositiveSelfTestCounterexample | HtsSyphilis.CorrectedPositiveSelf, HtsSyphilis.CorrectedNegativeAndPositiveDisjoint |
| app/services/cxca_service/reports/clinic/monthly_screen_report.rb:62 | The via_result is downcased and then compared with 'VIA positive', which holds capitals, so that disjunct never holds. | A row with via_result 'VIA Positive' and no screening result is left out of `total_via_plus_eligible_for_same_day_tx`. | Compare the downcased via_result with 'via positive'. | medium; not executed | CxcaMonthlyScreen.SameDayCounterexample, CxcaMonthlyScreen.SameDayEligibleMeaning | CxcaMonthlyScreen.TotalsOf |
| app/services/tb_service/reports/community.rb:61 | The second-quarter branch compares `end_date` itself, without `to_date`, with a Date. A String never equals a Date. | start_date '2024-04-01' and end_date '2024-06-30' given as strings yield quarter 0 instead of 2. | Compare `end_date.to_date`, as the other three branches do. | medium; not executed | TbCommunity.SecondQuarterTextCounterexample, TbCommunity.GetReportingQuarterAsWritten | TbCommunity.GetReportingQuarter, TbCommunity.QuarterIff |
