/**
 * The coverage verifier: which biomarkers each patient bundle mentions, the
 * per-biomarker patient counts and the list of incomplete patients over a
 * dataset, and the 95% gate that decides whether the dataset is ready.
 */
module Coverage {
  import opened Wrappers
  import opened Text
  import opened Fhir
  import opened Extraction

  // ---------------------------------------------------------------------
  // The tables

  /** LOINC codes per biomarker; its keys are the required biomarkers. */
  function CodeTable(cancer: CancerType): map<string, seq<string>> {
    match cancer
    case Breast =>
      map["TNM_T" := ["21905-5"],
          "TNM_N" := ["21906-3"],
          "TNM_M" := ["21907-1"],
          "ER" := ["16112-5"],
          "PR" := ["16113-3"],
          "HER2" := ["48676-1"],
          "Ki67" := ["85319-2"],
          "Clinical_Stage" := ["21908-9", "21902-2"]]
    case Lung =>
      map["TNM_T" := ["21905-5"],
          "TNM_N" := ["21906-3"],
          "TNM_M" := ["21907-1"],
          "Histology" := ["59847-4", "31206-6"],
          "EGFR" := ["81691-4"],
          "ALK" := ["80546-6"],
          "PDL1" := ["85147-7"],
          "FEV1" := ["20150-9"],
          "DLCO" := ["19911-7"]]
  }

  /** Words looked for in the description, per biomarker. */
  function KeywordTable(cancer: CancerType): map<string, seq<string>> {
    match cancer
    case Breast =>
      map["TNM_T" := ["primary tumor", "tumor staging", "t stage", "tnm t"],
          "TNM_N" := ["regional lymph", "node", "n stage", "tnm n", "lymph node"],
          "TNM_M" := ["distant metasta", "m stage", "tnm m", "metastasis"],
          "ER" := ["estrogen receptor", "er receptor", "er status"],
          "PR" := ["progesterone receptor", "pr receptor", "pr status"],
          "HER2" := ["her2", "her-2", "erbb2"],
          "Ki67" := ["ki-67", "ki67", "mib-1"],
          "Clinical_Stage" := ["clinical stage", "pathological stage", "cancer stage"]]
    case Lung =>
      map["TNM_T" := ["primary tumor", "tumor staging", "t stage", "tnm t"],
          "TNM_N" := ["regional lymph", "node", "n stage", "tnm n", "lymph node"],
          "TNM_M" := ["distant metasta", "m stage", "tnm m", "metastasis"],
          "Histology" := ["histolog", "carcinoma", "adenocarcinoma", "squamous"],
          "EGFR" := ["egfr", "epidermal growth factor"],
          "ALK" := ["alk", "anaplastic lymphoma kinase"],
          "PDL1" := ["pd-l1", "pdl1", "programmed death"],
          "FEV1" := ["fev1", "forced expiratory volume"],
          "DLCO" := ["dlco", "diffusing capacity"]]
  }

  /** The two tables of one cancer type, as the analysis looks them up. */
  datatype Tables = Tables(codes: map<string, seq<string>>, keywords: map<string, seq<string>>)

  function TablesFor(cancer: CancerType): Tables {
    Tables(CodeTable(cancer), KeywordTable(cancer))
  }

  /** The biomarkers to find: the keys of the code table. */
  function Required(t: Tables): set<string> {
    t.codes.Keys
  }

  /** `keyword_config.get(name, [])`. */
  function KeywordsFor(t: Tables, b: string): seq<string> {
    if b in t.keywords then t.keywords[b] else []
  }

  /** Both cancer types require biomarkers, and each has its keywords. */
  lemma TablesAgree(cancer: CancerType)
    ensures Required(TablesFor(cancer)) != {}
    ensures TablesFor(cancer).keywords.Keys == Required(TablesFor(cancer))
    ensures var r := Required(TablesFor(cancer)); "TNM_T" in r && "TNM_N" in r && "TNM_M" in r
  {
  }

  // ---------------------------------------------------------------------
  // The matcher

  predicate CodeIn(c: Coding, codes: seq<string>) {
    c.code.Some? && c.code.value in codes
  }

  /** The code stage: some coding carries one of the codes. */
  function AnyCode(codings: seq<Coding>, codes: seq<string>): (r: bool)
    ensures r <==> exists i :: 0 <= i < |codings| && CodeIn(codings[i], codes)
  {
    if codings == [] then false
    else if CodeIn(codings[0], codes) then true
    else
      var rest := AnyCode(codings[1..], codes);
      assert forall i :: 0 < i < |codings| ==> codings[i] == codings[1..][i - 1];
      rest
  }

  predicate KeywordIn(keyword: string, display: string, text: string) {
    Contains(display, Lower(keyword)) || Contains(text, Lower(keyword))
  }

  /** The keyword stage: some lower-cased keyword occurs in the display or
      in the text. */
  function AnyKeyword(keywords: seq<string>, display: string, text: string): (r: bool)
    ensures r <==> exists k :: 0 <= k < |keywords| && KeywordIn(keywords[k], display, text)
  {
    if keywords == [] then false
    else if KeywordIn(keywords[0], display, text) then true
    else
      var rest := AnyKeyword(keywords[1..], display, text);
      assert forall k :: 0 < k < |keywords| ==> keywords[k] == keywords[1..][k - 1];
      rest
  }

  /** `code.get('text', '').lower()`, with `code` defaulting to `{}`. */
  function LowerText(code: Option<CodeableConcept>): string {
    match code
    case None => ""
    case Some(cc) => Lower(cc.text.GetOr(""))
  }

  /** An observation code whose `coding` list is present but empty: looking
      up its first coding raises. */
  predicate EmptyCodingList(code: Option<CodeableConcept>) {
    code.Some? && code.value.coding == Some([])
  }

  /** `check_biomarker_in_observation`: any coding's code, else a keyword in
      the first coding's display or in the text. */
  function Matches(code: Option<CodeableConcept>, codes: seq<string>, keywords: seq<string>): (r: Result<bool, PyError>)
    // A code hit decides, whatever the description says.
    ensures (exists i :: 0 <= i < |Codings(code)| && CodeIn(Codings(code)[i], codes)) ==> r == Success(true)
    // Without one, the keyword stage runs; it raises on an empty coding list.
    ensures r.Failure? <==> EmptyCodingList(code)
    ensures r.Failure? ==> r.error == IndexError
    ensures r.Success? ==>
              (r.value <==>
                 (exists i :: 0 <= i < |Codings(code)| && CodeIn(Codings(code)[i], codes)) ||
                 (exists k :: 0 <= k < |keywords| &&
                    KeywordIn(keywords[k], LowerDisplay(FirstCoding(code).value), LowerText(code))))
  {
    if AnyCode(Codings(code), codes) then Success(true)
    else
      match FirstCoding(code)
      case Failure(e) => Failure(e)
      case Success(c) => Success(AnyKeyword(keywords, LowerDisplay(c), LowerText(code)))
  }

  // ---------------------------------------------------------------------
  // One patient

  /** The biomarkers among `bs` that an observation code matches. */
  function HitsAmong(t: Tables, code: Option<CodeableConcept>, bs: set<string>): set<string>
    requires bs <= Required(t)
  {
    set b | b in bs && Matches(code, t.codes[b], KeywordsFor(t, b)) == Success(true)
  }

  /** What one observation adds to the found set; an empty coding list
      raises at the first biomarker tried, if there is one. */
  function ObservationHits(t: Tables, code: Option<CodeableConcept>): Result<set<string>, PyError> {
    if EmptyCodingList(code) && Required(t) != {} then Failure(IndexError)
    else Success(HitsAmong(t, code, Required(t)))
  }

  /** The loop over the entries, from the found set so far. */
  function Scan(t: Tables, entries: seq<Resource>, found: set<string>): Result<set<string>, PyError>
    decreases |entries|
  {
    if entries == [] then Success(found)
    else
      match entries[0]
      case Observation(code, _, _, _) =>
        (match ObservationHits(t, code)
         case Failure(e) => Failure(e)
         case Success(hits) => Scan(t, entries[1..], found + hits))
      case _ => Scan(t, entries[1..], found)
  }

  /** The found set of a file; a file that cannot be read has none. */
  function FoundIn(t: Tables, file: PatientFile): Result<set<string>, PyError> {
    match file.bundle
    case None => Success({})
    case Some(b) => Scan(t, b.entries, {})
  }

  /** An entry that makes the verifier raise. */
  predicate Crashes(t: Tables, e: Resource) {
    e.Observation? && EmptyCodingList(e.code) && Required(t) != {}
  }

  /** An entry that mentions biomarker `b`. */
  predicate Mentions(t: Tables, e: Resource, b: string) {
    && e.Observation?
    && b in Required(t)
    && Matches(e.code, t.codes[b], KeywordsFor(t, b)) == Success(true)
  }

  /** The scan raises exactly when some entry does; otherwise it adds to the
      found set exactly the required biomarkers some observation mentions,
      each once. */
  lemma {:induction false} ScanFound(t: Tables, entries: seq<Resource>, found: set<string>)
    ensures Scan(t, entries, found).Failure? <==> exists k :: 0 <= k < |entries| && Crashes(t, entries[k])
    ensures Scan(t, entries, found).Failure? ==> Scan(t, entries, found).error == IndexError
    ensures Scan(t, entries, found).Success? ==>
              forall b :: b in Scan(t, entries, found).value <==>
                b in found || exists k :: 0 <= k < |entries| && Mentions(t, entries[k], b)
    decreases |entries|
  {
    if entries != [] {
      var e := entries[0];
      var rest := entries[1..];
      assert forall k :: 0 < k < |entries| ==> entries[k] == rest[k - 1];
      assert forall k :: 0 <= k < |rest| ==> rest[k] == entries[k + 1];
      if e.Observation? {
        var hits := ObservationHits(t, e.code);
        if hits.Success? {
          ScanFound(t, rest, found + hits.value);
          forall b | b in hits.value
            ensures Mentions(t, e, b)
          {
          }
        }
      } else {
        ScanFound(t, rest, found);
      }
    }
  }

  /** A readable file's found set holds only required biomarkers. */
  lemma FoundIsRequired(t: Tables, file: PatientFile)
    requires FoundIn(t, file).Success?
    ensures FoundIn(t, file).value <= Required(t)
  {
    if file.bundle.Some? {
      ScanFound(t, file.bundle.value.entries, {});
    }
  }

  /** The inner loop of `analyze_patient_file`: every required biomarker
      is tried against one observation code and added when it matches. */
  method AddHits(t: Tables, code: Option<CodeableConcept>, found: set<string>)
    returns (r: Result<set<string>, PyError>)
    ensures r == match ObservationHits(t, code)
                 case Failure(e) => Failure(e)
                 case Success(hits) => Success(found + hits)
  {
    var acc := found;
    var pending := Required(t);
    while pending != {}
      invariant pending <= Required(t)
      invariant EmptyCodingList(code) ==> pending == Required(t)
      invariant acc == found + HitsAmong(t, code, Required(t) - pending)
      decreases pending
    {
      var b :| b in pending;
      var m := Matches(code, t.codes[b], KeywordsFor(t, b));
      if m.Failure? {
        return Failure(m.error);
      }
      ghost var done := Required(t) - pending;
      if m.value {
        acc := acc + {b};
      }
      pending := pending - {b};
      assert Required(t) - pending == done + {b};
      HitsAmongAdd(t, code, done, b);
    }
    assert Required(t) - pending == Required(t);
    r := Success(acc);
  }

  lemma HitsAmongAdd(t: Tables, code: Option<CodeableConcept>, done: set<string>, b: string)
    requires done + {b} <= Required(t)
    ensures HitsAmong(t, code, done + {b}) ==
              HitsAmong(t, code, done) +
              (if Matches(code, t.codes[b], KeywordsFor(t, b)) == Success(true) then {b} else {})
  {
  }

  /** `analyze_patient_file`: the found set is grown in place, observation
      by observation. */
  method AnalyzePatient(t: Tables, file: PatientFile) returns (id: string, found: Result<set<string>, PyError>)
    ensures id == file.stem
    ensures found == FoundIn(t, file)
  {
    id := file.stem;
    if file.bundle.None? {
      return id, Success({});
    }
    var entries := file.bundle.value.entries;
    var acc: set<string> := {};
    var i := 0;
    while i < |entries|
      invariant 0 <= i <= |entries|
      invariant Scan(t, entries, {}) == Scan(t, entries[i..], acc)
    {
      assert entries[i..][1..] == entries[i + 1..];
      if entries[i].Observation? {
        var next := AddHits(t, entries[i].code, acc);
        if next.Failure? {
          return id, Failure(next.error);
        }
        acc := next.value;
      }
      i := i + 1;
    }
    found := Success(acc);
  }

  // ---------------------------------------------------------------------
  // The dataset

  /** The found sets of the files in order; the first file that raises
      stops the run. */
  function AllFound(t: Tables, files: seq<PatientFile>): (r: Result<seq<set<string>>, PyError>)
    ensures r.Success? ==> |r.value| == |files|
    ensures r.Success? ==> forall i :: 0 <= i < |files| ==> FoundIn(t, files[i]) == Success(r.value[i])
    ensures r.Failure? <==> exists i :: 0 <= i < |files| && FoundIn(t, files[i]).Failure?
  {
    if files == [] then Success([])
    else
      var init := files[..|files| - 1];
      assert forall i :: 0 <= i < |init| ==> init[i] == files[i];
      match AllFound(t, init)
      case Failure(e) => Failure(e)
      case Success(fs) =>
        match FoundIn(t, files[|files| - 1])
        case Failure(e) => Failure(e)
        case Success(f) => Success(fs + [f])
  }

  /** A failure in a prefix is the failure of the whole list. */
  lemma {:induction false} AllFoundKeepsFailure(t: Tables, files: seq<PatientFile>, n: nat)
    requires n <= |files|
    requires AllFound(t, files[..n]).Failure?
    ensures AllFound(t, files) == AllFound(t, files[..n])
    decreases |files|
  {
    if n < |files| {
      var init := files[..|files| - 1];
      assert init[..n] == files[..n];
      AllFoundKeepsFailure(t, init, n);
    } else {
      assert files[..n] == files;
    }
  }

  /** Number of patients whose found set holds `b`. */
  function CountFound(fs: seq<set<string>>, b: string): nat {
    if fs == [] then 0
    else CountFound(fs[..|fs| - 1], b) + (if b in fs[|fs| - 1] then 1 else 0)
  }

  lemma {:induction false} CountFoundBounds(fs: seq<set<string>>, b: string)
    ensures CountFound(fs, b) <= |fs|
    ensures CountFound(fs, b) == |fs| <==> forall i :: 0 <= i < |fs| ==> b in fs[i]
  {
    if fs != [] {
      var init := fs[..|fs| - 1];
      CountFoundBounds(init, b);
      assert forall i :: 0 <= i < |init| ==> init[i] == fs[i];
    }
  }

  function StatsOf(t: Tables, fs: seq<set<string>>): map<string, nat> {
    map b | b in Required(t) :: CountFound(fs, b)
  }

  /** One incomplete patient of the report. */
  datatype MissingEntry = MissingEntry(patientId: string, missing: set<string>, found: set<string>)

  datatype Report = Report(totalPatients: nat, stats: map<string, nat>,
                           missingPatients: seq<MissingEntry>, required: set<string>)

  /** The incomplete patients, in file order. */
  function MissingOf(t: Tables, files: seq<PatientFile>, fs: seq<set<string>>): (r: seq<MissingEntry>)
    requires |files| == |fs|
    ensures |r| <= |files|
    ensures forall k :: 0 <= k < |r| ==>
              r[k].missing == Required(t) - r[k].found && r[k].missing != {}
    ensures r == [] <==> forall i :: 0 <= i < |fs| ==> Required(t) <= fs[i]
  {
    if files == [] then []
    else
      var n := |files| - 1;
      var init := MissingOf(t, files[..n], fs[..n]);
      assert forall i :: 0 <= i < n ==> fs[..n][i] == fs[i];
      var missing := Required(t) - fs[n];
      assert missing == {} <==> Required(t) <= fs[n] by {
        if missing == {} {
          forall x | x in Required(t)
            ensures x in fs[n]
          {
            assert x !in missing;
          }
        }
      }
      assert (forall i :: 0 <= i < |fs| ==> Required(t) <= fs[i]) <==>
             (forall i :: 0 <= i < n ==> Required(t) <= fs[..n][i]) && Required(t) <= fs[n];
      if missing != {} then init + [MissingEntry(files[n].stem, missing, fs[n])] else init
  }

  /** The positions of the incomplete patients, in increasing order. */
  function IncompleteIndices(t: Tables, fs: seq<set<string>>): (idx: seq<nat>)
    ensures forall k :: 0 <= k < |idx| ==> idx[k] < |fs|
    ensures forall j, k :: 0 <= j < k < |idx| ==> idx[j] < idx[k]
    ensures forall i :: 0 <= i < |fs| ==> (i in idx <==> Required(t) - fs[i] != {})
  {
    if fs == [] then []
    else
      var n := |fs| - 1;
      var init := IncompleteIndices(t, fs[..n]);
      assert forall i :: 0 <= i < n ==> fs[..n][i] == fs[i];
      if Required(t) - fs[n] != {} then init + [n] else init
  }

  /** The missing list holds, in file order, exactly the incomplete
      patients, each with its file's stem, its missing set and its found set. */
  lemma {:induction false} MissingOfListsIncomplete(t: Tables, files: seq<PatientFile>, fs: seq<set<string>>)
    requires |files| == |fs|
    ensures var r, idx := MissingOf(t, files, fs), IncompleteIndices(t, fs);
            && |r| == |idx|
            && forall k :: 0 <= k < |r| ==>
                 r[k] == MissingEntry(files[idx[k]].stem, Required(t) - fs[idx[k]], fs[idx[k]])
  {
    if files != [] {
      var n := |files| - 1;
      MissingOfListsIncomplete(t, files[..n], fs[..n]);
      assert forall i :: 0 <= i < n ==> fs[..n][i] == fs[i] && files[..n][i] == files[i];
    }
  }

  /** `verify_biomarkers` without the I/O. */
  function VerifySpec(t: Tables, files: seq<PatientFile>): Result<Report, RunError> {
    if files == [] then Failure(NoPatientFiles)
    else
      match AllFound(t, files)
      case Failure(e) => Failure(Crashed(e))
      case Success(fs) =>
        Success(Report(|files|, StatsOf(t, fs), MissingOf(t, files, fs), Required(t)))
  }

  /** `stats[b] += 1` for every found `b` that has a counter. */
  method Tally(stats: map<string, nat>, found: set<string>) returns (next: map<string, nat>)
    ensures next == map b | b in stats :: stats[b] + (if b in found then 1 else 0)
  {
    next := stats;
    var pending := found;
    while pending != {}
      invariant pending <= found
      invariant next == map b | b in stats :: stats[b] + (if b in found - pending then 1 else 0)
      decreases pending
    {
      var b :| b in pending;
      if b in next {
        next := next[b := next[b] + 1];
      }
      pending := pending - {b};
    }
  }

  /** One more patient adds one to the counter of each biomarker it has. */
  lemma StatsOfAppend(t: Tables, fs: seq<set<string>>, f: set<string>)
    ensures StatsOf(t, fs + [f]) ==
              map b | b in StatsOf(t, fs) :: StatsOf(t, fs)[b] + (if b in f then 1 else 0)
  {
    assert (fs + [f])[..|fs + [f]| - 1] == fs;
  }

  /** The verification loop over the tables of one cancer type
      (`TablesFor`): counters incremented and incomplete patients appended
      file by file. An exception from the analysis is not caught. */
  method VerifyBiomarkers(t: Tables, files: seq<PatientFile>) returns (r: Result<Report, RunError>)
    ensures r == VerifySpec(t, files)
  {
    if files == [] {
      return Failure(NoPatientFiles);
    }
    var required := Required(t);
    var stats: map<string, nat> := map b | b in required :: 0;
    var missingPatients: seq<MissingEntry> := [];
    ghost var fs: seq<set<string>> := [];
    var i := 0;
    while i < |files|
      invariant 0 <= i <= |files|
      invariant AllFound(t, files[..i]) == Success(fs)
      invariant stats == StatsOf(t, fs)
      invariant missingPatients == MissingOf(t, files[..i], fs)
    {
      var id, found := AnalyzePatient(t, files[i]);
      assert files[..i + 1][..i] == files[..i];
      if found.Failure? {
        AllFoundKeepsFailure(t, files, i + 1);
        return Failure(Crashed(found.error));
      }
      stats := Tally(stats, found.value);
      StatsOfAppend(t, fs, found.value);
      var missing := required - found.value;
      if missing != {} {
        missingPatients := missingPatients + [MissingEntry(id, missing, found.value)];
      }
      ghost var next := fs + [found.value];
      assert next[..|next| - 1] == fs;
      assert files[..i + 1][..i] == files[..i];
      fs := next;
      i := i + 1;
    }
    assert files[..i] == files;
    r := Success(Report(|files|, stats, missingPatients, required));
  }

  /** Every counter is at most the number of patients. */
  lemma StatsBounded(t: Tables, files: seq<PatientFile>)
    requires VerifySpec(t, files).Success?
    ensures var rep := VerifySpec(t, files).value;
            rep.stats.Keys == rep.required &&
            forall b :: b in rep.stats ==> rep.stats[b] <= rep.totalPatients
  {
    var fs := AllFound(t, files).value;
    forall b | b in Required(t)
      ensures CountFound(fs, b) <= |files|
    {
      CountFoundBounds(fs, b);
    }
  }

  // ---------------------------------------------------------------------
  // The gate

  /** `percentage >= 95`, with the percentage 0 when there are no patients. */
  predicate Meets(count: nat, total: nat) {
    total > 0 && 100 * count >= 95 * total
  }

  /** The integer test is the percentage test of the report. */
  lemma MeetsIsPercentage(count: nat, total: nat)
    requires total > 0
    ensures Meets(count, total) <==> (count as real / total as real) * 100.0 >= 95.0
  {
  }

  predicate Passes(rep: Report) {
    && (forall b :: b in rep.required ==> Meets(if b in rep.stats then rep.stats[b] else 0, rep.totalPatients))
    && rep.missingPatients == []
  }

  /** `print_report`'s verdict: the flag is cleared by any biomarker under
      95%, and the list of incomplete patients must be empty. */
  method Gate(rep: Report) returns (ok: bool)
    ensures ok == Passes(rep)
  {
    var allComplete := true;
    var pending := rep.required;
    while pending != {}
      invariant pending <= rep.required
      invariant allComplete <==>
                  forall b :: b in rep.required - pending ==>
                    Meets(if b in rep.stats then rep.stats[b] else 0, rep.totalPatients)
      decreases pending
    {
      var b :| b in pending;
      var count := if b in rep.stats then rep.stats[b] else 0;
      if !(rep.totalPatients > 0 && 100 * count >= 95 * rep.totalPatients) {
        allComplete := false;
      }
      pending := pending - {b};
    }
    ok := allComplete && rep.missingPatients == [];
  }

  /** The run passes exactly when every patient has every required
      biomarker: an empty list of incomplete patients alone suffices. */
  lemma GatePassesIff(t: Tables, files: seq<PatientFile>)
    requires VerifySpec(t, files).Success?
    ensures Passes(VerifySpec(t, files).value) <==>
              forall i :: 0 <= i < |files| ==> Required(t) <= FoundIn(t, files[i]).value
    ensures VerifySpec(t, files).value.missingPatients == [] ==> Passes(VerifySpec(t, files).value)
  {
    var fs := AllFound(t, files).value;
    var rep := VerifySpec(t, files).value;
    if forall i :: 0 <= i < |files| ==> Required(t) <= fs[i] {
      forall b | b in Required(t)
        ensures Meets(rep.stats[b], rep.totalPatients)
      {
        CountFoundBounds(fs, b);
      }
    }
  }

  /** A file that cannot be read mentions nothing, so the run cannot pass. */
  lemma UnreadableFileFails(cancer: CancerType, files: seq<PatientFile>, i: nat)
    requires i < |files| && files[i].bundle.None?
    requires VerifySpec(TablesFor(cancer), files).Success?
    ensures FoundIn(TablesFor(cancer), files[i]) == Success({})
    ensures VerifySpec(TablesFor(cancer), files).value.missingPatients != []
    ensures !Passes(VerifySpec(TablesFor(cancer), files).value)
  {
    TablesAgree(cancer);
    GatePassesIff(TablesFor(cancer), files);
  }

  // ---------------------------------------------------------------------
  // Extraction and verification disagree

  /** An observation whose ER code sits in its second coding: the verifier
      counts ER, the extraction engine takes no branch. */
  function SecondCodingEr(): Resource {
    Observation(Some(CodeableConcept(Some([Coding(Some("0000-0"), None), Coding(Some("16112-5"), None)]), None)),
                Some(Quantity(Some(15.0), None)), None, None)
  }

  lemma ExtractionAndVerifierDisagree()
    ensures Mentions(TablesFor(Breast), SecondCodingEr(), "ER")
    ensures Branch(BreastProfile, SecondCodingEr()).None?
  {
    var code := SecondCodingEr().code;
    assert CodeIn(Codings(code)[1], CodeTable(Breast)["ER"]);
    var rules := BreastProfile.rules;
    forall k | 0 <= k < |rules|
      ensures !RuleMatches(rules[k], Some("0000-0"), "")
    {
      forall j | 0 <= j < |rules[k].keywords|
        ensures !Contains("", rules[k].keywords[j])
      {
        assert |rules[k].keywords[j]| > 0;
      }
    }
    assert LowerDisplay(Coding(Some("0000-0"), None)) == "";
  }
}
