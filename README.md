# DuraXell biomarker resolution, modelled in Dafny

The DuraXell tooling turns synthetic HL7 FHIR R4 patient bundles into one flat
biomarker record per patient (breast or lung cancer). It also checks a
dataset's coverage: the check passes only when every required biomarker is
mentioned for at least 95% of the patients and no patient lacks any of them,
which together means every patient has every required biomarker.
This project models the two scripts that do this:

- `extract_structured_biomarkers.py` covers three things:
  - the `value[x]` resolver of an Observation;
  - the two per-cancer extraction engines, one pass over the bundle's entries that fills a fixed-key record;
  - the batch loop that skips a patient whose engine raises, and the per-field completeness count of the summary.
- `verify_biomarkers.py` covers four things:
  - the LOINC code and keyword tables;
  - the two-stage matcher;
  - the found-set loop of one patient file;
  - the stats and missing-patients fold over the dataset, and the pass/fail gate.

Modules, one file each:

- `Wrappers`: `Option` and `Result`.
- `Text`: ASCII lower-casing, substring search (Python's `in` on strings), `split('-')[0]`, and decimal `int()`/`float()` parsing as partial functions.
- `Fhir`: the FHIR R4 elements the scripts read, each at its FHIR type, with every optional key an `Option`. Also the record cell `Value = Null | Num | Str` (Python `None`, a JSON number, a string), Python truthiness, and the exceptions that matter (`IndexError`, `ValueError`).
- `ValueResolver`: `extract_value_from_observation`.
- `Categorizers`: the ER/PR status threshold and the PD-L1, FEV1 and DLCO bands.
- `Records`: the record keys, the two schemas, and the completeness count.
- `Extraction`: a single engine, parameterised by a cancer `Profile`. Each profile holds the schema, the cancer-site word, the breast histology words, and the ordered `if/elif` chain written as a rule table. The engine comes in two forms. `Extract` is the specification function. `ExtractRecord` is the in-place loop, proved equal to it. Also `ExtractAll` and the end-to-end scenarios.
- `Coverage`: the verifier's tables, matcher, `AnalyzePatient`, `VerifyBiomarkers` and `Gate`.

The engines mutate a dictionary inside a loop, so they are written as methods
with loop invariants and proved against the specification functions. Every
property is stated and proved about those functions. The same holds for
`print_summary`'s count, the batch loop, the found-set loops, the dataset
fold and the gate flag.

A status field is not tied to its percentage:

- a percentage of `0` or `""` is falsy, so it is stored but leaves the status as it was, including a status set by an earlier observation;
- a non-numeric ER/PR value raises, so the whole patient is dropped.

## Model

| member | source | states |
|---|---|---|
| Fhir.FirstCoding | duraxell_synthea/extract_structured_biomarkers.py:103 | `coding` defaults to `[{}]`: an absent list gives an empty coding, the first element is taken otherwise, and an empty list raises IndexError exactly then |
| ValueResolver.ExtractValue | duraxell_synthea/extract_structured_biomarkers.py:22-39 | a present `valueQuantity` wins with its value and the unit dropped; only it yields a number; otherwise the first coded display; `valueString` only when neither earlier key exists; fails exactly on an empty coded list; other resources give None |
| Categorizers.ReceptorStatus | duraxell_synthea/extract_structured_biomarkers.py:121 | "Positive" exactly when the value is above 10, "Negative" exactly when it is at most 10 |
| Categorizers.BandIndex | duraxell_synthea/extract_structured_biomarkers.py:242-247 | the chosen band is the first whose lower bound the value reaches; every earlier band's bound is above the value |
| Categorizers.BandIndexMonotone | duraxell_synthea/extract_structured_biomarkers.py:252-283 | a larger value never lands in a later (worse) band |
| Categorizers.Pdl1Tiers | duraxell_synthea/extract_structured_biomarkers.py:242-247 | at least 50 is High, 1 up to 50 is Low, below 1 is Negative |
| Categorizers.Pdl1Boundaries | duraxell_synthea/extract_structured_biomarkers.py:242-247 | 50 is High, 49.999 and 1 are Low, 0.999 is Negative |
| Categorizers.Fev1Tiers | duraxell_synthea/extract_structured_biomarkers.py:257-264 | bounds 80, 60 and 40 give Normal, Mild, Moderate and Severe obstruction |
| Categorizers.Fev1Boundaries | duraxell_synthea/extract_structured_biomarkers.py:257-264 | each bound belongs to the better band and a value just under it to the next band |
| Categorizers.DlcoTiers | duraxell_synthea/extract_structured_biomarkers.py:274-281 | bounds 75, 60 and 40 give Normal, Mild, Moderate and Severe reduction |
| Categorizers.Fev1Monotone | duraxell_synthea/extract_structured_biomarkers.py:257-264 | a better FEV1 value never gets a worse category |
| Categorizers.DlcoMonotone | duraxell_synthea/extract_structured_biomarkers.py:274-281 | a better DLCO value never gets a worse category |
| Records.EmptyRecord | duraxell_synthea/extract_structured_biomarkers.py:46-64 | the initial record has exactly the schema's keys, all None |
| Records.SchemaSizes | duraxell_synthea/extract_structured_biomarkers.py:46-64 | the breast record has 17 distinct keys and the lung record 19 |
| Records.CountPresentBounds | duraxell_synthea/extract_structured_biomarkers.py:380 | a field's count is at most the number of records, and equals it exactly when every record has the field |
| Records.CountPresentAppend | duraxell_synthea/extract_structured_biomarkers.py:380 | counts add up over a split of the record list |
| Records.FieldCounts | duraxell_synthea/extract_structured_biomarkers.py:376-381 | no table for no records; otherwise one entry per key of the first record except `patient_id`, each the number of records where it is not None |
| Extraction.BreastWellFormed | duraxell_synthea/extract_structured_biomarkers.py:110-141 | every breast branch writes only keys of the breast record, never `tnm_complete`, and a percentage never shares its key with its status |
| Extraction.LungWellFormed | duraxell_synthea/extract_structured_biomarkers.py:211-291 | the same for the lung branches and the lung record |
| Extraction.FirstMatch | duraxell_synthea/extract_structured_biomarkers.py:110-141 | the branch taken matches by code or by a display keyword, and no earlier branch matches; no branch is taken only when none matches |
| Extraction.Apply | duraxell_synthea/extract_structured_biomarkers.py:110-141 | only the branch's keys change; the value is stored as is; a label branch (lung histology) writes its fixed label; a truthy receptor value sets the status at the 10 threshold; a falsy value keeps the status or category; a non-numeric value keeps the category; only a truthy non-numeric receptor value raises ValueError |
| Extraction.FirstHistology | duraxell_synthea/extract_structured_biomarkers.py:94-99 | the chosen histology is the first of the list whose word occurs in the display |
| Extraction.HistologyPriority | duraxell_synthea/extract_structured_biomarkers.py:94-99 | ductal wins over lobular, which wins over triple negative; with none of them no histology is chosen |
| Extraction.ExtractRecord | duraxell_synthea/extract_structured_biomarkers.py:66-145 | the in-place pass over the entries, with the observation branch raising out of the loop, yields exactly the specification's record or error |
| Extraction.PatientStep | duraxell_synthea/extract_structured_biomarkers.py:71-83 | a Patient always writes id and gender; the age becomes current year minus birth year when the year converts, and otherwise keeps its value without raising; no other key changes |
| Extraction.BirthYearFallbacks | duraxell_synthea/extract_structured_biomarkers.py:76-83 | an absent or empty birth date, or one whose part before the first '-' is not an integer ("ab-01", "-1970"), gives no year |
| Extraction.BirthYearOfDate | duraxell_synthea/extract_structured_biomarkers.py:76-79 | the year written before the first '-' of a birth date, or a bare year, is read back exactly |
| Extraction.PatientWithoutYear | duraxell_synthea/extract_structured_biomarkers.py:71-83 | a Patient whose birth year does not convert still extracts, with age None and its id and gender |
| Extraction.CodingHistology | duraxell_synthea/extract_structured_biomarkers.py:90-99 | a coding gives a histology label exactly when it names the site and "cancer" and contains a histology word, and the label is one of the profile's |
| Extraction.CodingStepEffect | duraxell_synthea/extract_structured_biomarkers.py:88-99 | one coding sets the diagnosis date when it names the site and "cancer", changes nothing otherwise, and sets the histology to its label when it gives one |
| Extraction.ConditionStepUnchanged | duraxell_synthea/extract_structured_biomarkers.py:86-91 | a Condition with no coding naming the site and "cancer" leaves the record unchanged |
| Extraction.ConditionStepDate | duraxell_synthea/extract_structured_biomarkers.py:88-91 | a Condition with some coding naming the site and "cancer" sets the diagnosis date to its onset date |
| Extraction.ConditionStepNoHistology | duraxell_synthea/extract_structured_biomarkers.py:93-99 | with no coding giving a histology label, the histology keeps its value |
| Extraction.ConditionStepLastHistology | duraxell_synthea/extract_structured_biomarkers.py:87-99 | the histology is the label of the last coding that gives one |
| Extraction.ConditionStepEffect | duraxell_synthea/extract_structured_biomarkers.py:86-99 | the four facts above together: unchanged without a site coding, the onset date with one, the last label wins, no label keeps the histology |
| Extraction.ConditionHistologyByProfile | duraxell_synthea/extract_structured_biomarkers.py:86-99 | a breast Condition whose last coding names the site and a histology word takes that word's label by the ductal, lobular, triple-negative priority; a lung Condition never writes the histology (lines 195-200) |
| Extraction.LungAdenocarcinoma | duraxell_synthea/extract_structured_biomarkers.py:209-221 | a codeless lung observation whose display names adenocarcinoma and no TNM word sets the histology to "Adenocarcinoma" and changes nothing else |
| Extraction.LungAdenocarcinomaDisplay | duraxell_synthea/extract_structured_biomarkers.py:209-221 | the display "adenocarcinoma", alone or followed by lower-case text without 'l', 'p' or 't', with no code sets the lung histology to "Adenocarcinoma" and nothing else |
| Extraction.ConditionStepFrame | duraxell_synthea/extract_structured_biomarkers.py:86-99 | a Condition changes only the diagnosis date and the histology, and removes no key |
| Extraction.StepFrame | duraxell_synthea/extract_structured_biomarkers.py:66-141 | an entry changes only the keys it writes; a Patient writes id, gender and age; an Observation writes only its branch's keys; no key is removed |
| Extraction.ObservationWritesOneBranch | duraxell_synthea/extract_structured_biomarkers.py:110-141 | an observation with no matching branch changes nothing, and otherwise changes only the keys of its one branch |
| Extraction.LymphNodeBeforeEstrogenCode | duraxell_synthea/extract_structured_biomarkers.py:112-118 | the display "lymph node" with the ER code takes the `tnm_n` branch, not ER |
| Extraction.RunAppend | duraxell_synthea/extract_structured_biomarkers.py:66 | a pass over two pieces of the entry list is the pass over the first, then over the second from where it stopped |
| Extraction.RunKeepsUnwritten | duraxell_synthea/extract_structured_biomarkers.py:66-141 | a key that no remaining entry writes ends the pass as it was |
| Extraction.LastWriterWins | duraxell_synthea/extract_structured_biomarkers.py:66-141 | the value an observation stores is the final value of that key whatever was stored before, as long as no later entry writes that key |
| Extraction.RunKeepsKeys | duraxell_synthea/extract_structured_biomarkers.py:66-141 | the pass neither adds nor removes keys of the record |
| Extraction.ExtractKeepsSchema | duraxell_synthea/extract_structured_biomarkers.py:46-147 | an extracted record has exactly the keys of its schema |
| Extraction.TnmCompleteIff | duraxell_synthea/extract_structured_biomarkers.py:143-145 | `tnm_complete` is set exactly when T, N and M are all truthy, and then joins them with ", " |
| Extraction.ErObservationBranch | duraxell_synthea/extract_structured_biomarkers.py:118 | an observation carrying only the ER code takes the ER branch with its quantity as value |
| Extraction.BirthYear1970 | duraxell_synthea/extract_structured_biomarkers.py:76-81 | the birth year of "1970-01-01" is 1970 |
| Extraction.BreastScenario | duraxell_synthea/extract_structured_biomarkers.py:66-145 | a Patient plus a non-zero ER result gives id, gender, the age from the birth year, the ER percentage, "Positive" above 10 and "Negative" otherwise, and no TNM summary |
| Extraction.BreastScenarioRecord | duraxell_synthea/extract_structured_biomarkers.py:66-145 | the record that such a bundle extracts to, key by key |
| Extraction.BreastScenario1970 | duraxell_synthea/extract_structured_biomarkers.py:76-121 | born 1970-01-01 with ER 15% gives age current year minus 1970 and "Positive" |
| Extraction.FalsyReceptorKeepsStatus | duraxell_synthea/extract_structured_biomarkers.py:119-121 | a later ER result of 0 overwrites the percentage and keeps the earlier "Positive" |
| Extraction.TextErStep | duraxell_synthea/extract_structured_biomarkers.py:118-121 | an ER observation whose value is the text "positive" raises ValueError whatever the record holds |
| Extraction.NonNumericReceptorDropsPatient | duraxell_synthea/extract_structured_biomarkers.py:121 | a text ER value that is not a number raises ValueError, and the batch keeps no record for that file |
| Extraction.ExtractOfTwo | duraxell_synthea/extract_structured_biomarkers.py:66-145 | a two-entry bundle extracts to the post-pass of its two steps |
| Extraction.ExtractFailsAtSecond | duraxell_synthea/extract_structured_biomarkers.py:66-141 | a two-entry bundle whose second step raises raises the same error |
| Extraction.Extracted | duraxell_synthea/extract_structured_biomarkers.py:321-336 | a file contributes a record exactly when it was read and its engine did not raise, and then the engine's record |
| Extraction.ExtractAll | duraxell_synthea/extract_structured_biomarkers.py:300-338 | no files stops the run; otherwise the records of the files that extract, in file order |
| Extraction.KeptFromFiles | duraxell_synthea/extract_structured_biomarkers.py:319-338 | a record is kept exactly when some file extracts to it; never more records than files; as many exactly when every file extracts |
| Coverage.TablesAgree | duraxell_synthea/verify_biomarkers.py:21-68 | both cancer types require biomarkers including the three TNM ones, and the keyword table has exactly the code table's biomarkers |
| Coverage.AnyCode | duraxell_synthea/verify_biomarkers.py:77-80 | true exactly when some coding's code is in the list |
| Coverage.AnyKeyword | duraxell_synthea/verify_biomarkers.py:86-88 | true exactly when some lower-cased keyword occurs in the display or in the text |
| Coverage.Matches | duraxell_synthea/verify_biomarkers.py:71-90 | a code hit in any coding gives true whatever the description; otherwise true exactly when a keyword is in the first coding's display or in `code.text`; raises IndexError exactly on an empty coding list |
| Coverage.ScanFound | duraxell_synthea/verify_biomarkers.py:110-120 | the scan raises exactly when some observation has an empty coding list; otherwise it adds exactly the required biomarkers that some Observation mentions, each once |
| Coverage.FoundIsRequired | duraxell_synthea/verify_biomarkers.py:110-120 | a found set holds only biomarkers of the cancer type |
| Coverage.AddHits | duraxell_synthea/verify_biomarkers.py:117-120 | trying every biomarker against one observation adds exactly the matching ones, or raises |
| Coverage.AnalyzePatient | duraxell_synthea/verify_biomarkers.py:93-122 | returns the file's stem and its found set; an unreadable file gives the empty set |
| Coverage.AllFound | duraxell_synthea/verify_biomarkers.py:149-150 | the found sets of all files in order, and a failure exactly when some file's analysis raises |
| Coverage.CountFoundBounds | duraxell_synthea/verify_biomarkers.py:153-155 | a counter is at most the number of patients, and equals it exactly when every patient has the biomarker |
| Coverage.MissingOf | duraxell_synthea/verify_biomarkers.py:157-164 | each listed patient's missing set is the required set minus its found set and is not empty; the list is empty exactly when every patient has every required biomarker |
| Coverage.IncompleteIndices | duraxell_synthea/verify_biomarkers.py:157-164 | the positions of the patients whose missing set is not empty, strictly increasing, and exactly those |
| Coverage.MissingOfListsIncomplete | duraxell_synthea/verify_biomarkers.py:157-164 | the missing list has one entry per incomplete patient, in file order, each with that file's stem, its missing set and its found set |
| Coverage.Tally | duraxell_synthea/verify_biomarkers.py:153-155 | each counter of a found biomarker goes up by one, and no other counter changes |
| Coverage.StatsOfAppend | duraxell_synthea/verify_biomarkers.py:153-155 | one more patient adds one to the counter of each biomarker it has |
| Coverage.VerifyBiomarkers | duraxell_synthea/verify_biomarkers.py:125-171 | the in-place fold yields exactly the specification's report: total, counters, incomplete patients in file order, required set; no files or an uncaught exception stop the run |
| Coverage.StatsBounded | duraxell_synthea/verify_biomarkers.py:145-155 | the counters are exactly the required biomarkers and each is at most the number of patients |
| Coverage.MeetsIsPercentage | duraxell_synthea/verify_biomarkers.py:195-199 | the integer test `100*count >= 95*total` is the test `count/total*100 >= 95` |
| Coverage.Gate | duraxell_synthea/verify_biomarkers.py:192-224 | true exactly when every required biomarker reaches 95% and no patient is incomplete |
| Coverage.GatePassesIff | duraxell_synthea/verify_biomarkers.py:192-224 | a report passes exactly when every patient has every required biomarker; an empty incomplete list alone implies passing |
| Coverage.UnreadableFileFails | duraxell_synthea/verify_biomarkers.py:100-105 | an unreadable file has an empty found set, lands in the incomplete list and makes the gate fail |
| Coverage.ExtractionAndVerifierDisagree | duraxell_synthea/verify_biomarkers.py:77-80 | an observation with the ER code only in its second coding counts as ER for the verifier, but the extraction engine takes no branch for it |

## Left out

- File discovery, JSON loading, CSV writing, console output and `sys.argv` handling are I/O. A file that cannot be opened or parsed is a `PatientFile` without a bundle. `sys.exit(1)` on an empty directory is `RunError.NoPatientFiles`.
- `datetime.now().year` is the parameter `currentYear`.
- JSON of the wrong type is not modelled. Examples are a `display` that is `null` or an entry that is not an object; these raise `AttributeError` in the scripts. Every element has its FHIR R4 type here.
- Fhir.Quantity: its value is a number, so a `valueQuantity.value` that is a string is not modelled. In the scripts such a string is stored in the record as it is and reaches `float()`: a non-numeric ER/PR string raises ValueError and drops the patient, the PD-L1, FEV1 and DLCO conversions swallow the error, and a numeric string converts.
- Text.ParseInt: accepts an optional sign and ASCII digits only. Python's `int()` also accepts surrounding whitespace, underscores and non-ASCII digits.
- Text.ParseReal: accepts an optional sign and ASCII digits with at most one decimal point. Python's `float()` also accepts whitespace, underscores between digits, exponents, `inf`, `infinity`, `nan` and non-ASCII digits.
- Text.Lower: lower-cases ASCII letters only. Python's `str.lower` applies full Unicode case mapping.
- Extraction.Render: writes a number as the decimal text of its integer part, so Python's float text (`15.0`, `2.5`) in `tnm_complete` is not modelled. Strings and `None` are rendered exactly.
- Numbers are exact reals, not IEEE doubles. Coverage.Meets decides the gate in integers, which can differ from the float computation when the percentage lies within rounding error of 95.
- The `else: continue` for an unknown cancer type in `extract_biomarkers` cannot be reached: `main` accepts only breast and lung, and `CancerType` has only those two.
- Exceptions other than `IndexError` and `ValueError` are not modelled, so the batch's catch-all is modelled for those two only.
- Python set iteration order (`list(missing)`, `list(found)`) is not modelled; these are Dafny sets.
- The display-only parts of `print_summary` and `print_report` are not modelled: the 80% warning tier, the sorting, and the preview rows.
