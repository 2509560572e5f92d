/**
 * The extraction engine: one pass over a bundle's entries that fills the
 * fixed-key record of a cancer type, then the derived `tnm_complete` field.
 * The breast and lung engines differ only in their profile: the record's
 * keys, the cancer-site word of a diagnosis, the histology words of a
 * breast diagnosis, and the ordered `if/elif` chain of observation rules.
 */
module Extraction {
  import opened Wrappers
  import opened Text
  import opened Fhir
  import opened ValueResolver
  import opened Categorizers
  import opened Records

  /** What the branch of a matching observation does to the record. */
  datatype Action =
    | Store(target: Field)
      // target := value
    | Label(target: Field, name: string)
      // target := a fixed label (lung histology)
    | Receptor(percentage: Field, status: Field)
      // percentage := value; a truthy value also sets the status, and
      // `float(value)` is not guarded
    | Graded(percentage: Field, category: Field, banding: Banding)
      // percentage := value; a truthy value that converts sets the category

  function ActionFields(a: Action): set<Field> {
    match a
    case Store(f) => {f}
    case Label(f, _) => {f}
    case Receptor(p, s) => {p, s}
    case Graded(p, c, _) => {p, c}
  }

  /** The field that receives the observation's value itself, if any. */
  function ValueField(a: Action): Option<Field> {
    match a
    case Store(f) => Some(f)
    case Label(_, _) => None
    case Receptor(p, _) => Some(p)
    case Graded(p, _, _) => Some(p)
  }

  /** One `elif` branch: a LOINC code compared with the first coding's code,
      and words looked for in its lower-cased display. */
  datatype Rule = Rule(code: Option<string>, keywords: seq<string>, action: Action)

  datatype HistologyRule = HistologyRule(keyword: string, name: string)

  datatype Profile = Profile(schema: seq<Field>, site: string, histology: seq<HistologyRule>, rules: seq<Rule>)

  const BreastProfile := Profile(
    BreastSchema,
    "breast",
    [HistologyRule("ductal", "Invasive Ductal Carcinoma"),
     HistologyRule("lobular", "Invasive Lobular Carcinoma"),
     HistologyRule("triple negative", "Triple Negative Breast Cancer")],
    [Rule(Some("21905-5"), ["primary tumor"], Store(TnmT)),
     Rule(Some("21906-3"), ["lymph node"], Store(TnmN)),
     Rule(Some("21907-1"), ["metasta"], Store(TnmM)),
     Rule(Some("16112-5"), ["estrogen receptor"], Receptor(ErPercentage, ErStatus)),
     Rule(Some("16113-3"), ["progesterone receptor"], Receptor(PrPercentage, PrStatus)),
     Rule(Some("48676-1"), ["her2", "her-2"], Store(Her2Status)),
     Rule(Some("85319-2"), ["ki-67", "ki67"], Store(Ki67Percentage)),
     Rule(None, ["clinical stage"], Store(ClinicalStage)),
     Rule(None, ["pathological stage"], Store(PathologicalStage))])

  const LungProfile := Profile(
    LungSchema,
    "lung",
    [],
    [Rule(Some("21905-5"), ["primary tumor"], Store(TnmT)),
     Rule(Some("21906-3"), ["lymph node"], Store(TnmN)),
     Rule(Some("21907-1"), ["metasta"], Store(TnmM)),
     Rule(None, ["adenocarcinoma"], Label(Histology, "Adenocarcinoma")),
     Rule(None, ["squamous"], Label(Histology, "Squamous Cell Carcinoma")),
     Rule(None, ["large cell"], Label(Histology, "Large Cell Carcinoma")),
     Rule(None, ["small cell"], Label(Histology, "Small Cell Lung Cancer")),
     Rule(Some("81691-4"), ["egfr"], Store(EgfrMutation)),
     Rule(Some("80546-6"), ["alk"], Store(AlkStatus)),
     Rule(Some("85147-7"), ["pd-l1", "pdl1"], Graded(Pdl1Percentage, Pdl1Category, Pdl1Banding)),
     Rule(Some("20150-9"), ["fev1"], Graded(Fev1Percentage, Fev1Category, Fev1Banding)),
     Rule(Some("19911-7"), ["dlco"], Graded(DlcoPercentage, DlcoCategory, DlcoBanding)),
     Rule(None, ["clinical stage", "cancer stage"], Store(ClinicalStage)),
     Rule(None, ["smoking", "tobacco"], Store(SmokingStatus))])

  function ProfileFor(cancer: CancerType): Profile {
    match cancer
    case Breast => BreastProfile
    case Lung => LungProfile
  }

  /** The fields every engine writes outside its observation rules. */
  const FixedFields: set<Field> := {PatientId, Age, Gender, DiagnosisDate, Histology}

  /** A profile whose branches only write keys of its record, never the
      derived `tnm_complete`, and never two roles into one key. */
  predicate WellFormed(p: Profile) {
    && (forall f :: f in FixedFields + {TnmT, TnmN, TnmM, TnmComplete} ==> f in p.schema)
    && forall k :: 0 <= k < |p.rules| ==> ActionWellFormed(p.schema, p.rules[k].action)
  }

  predicate ActionWellFormed(schema: seq<Field>, a: Action) {
    && (forall f :: f in ActionFields(a) ==> f in schema)
    && TnmComplete !in ActionFields(a)
    && (a.Receptor? ==> a.percentage != a.status)
    && (a.Graded? ==> a.percentage != a.category)
  }

  lemma BreastWellFormed()
    ensures WellFormed(BreastProfile)
  {
    var p := BreastProfile;
    forall k | 0 <= k < |p.rules|
      ensures ActionWellFormed(p.schema, p.rules[k].action)
    {
      assert p.rules[k].action in
        {Store(TnmT), Store(TnmN), Store(TnmM), Receptor(ErPercentage, ErStatus),
         Receptor(PrPercentage, PrStatus), Store(Her2Status), Store(Ki67Percentage),
         Store(ClinicalStage), Store(PathologicalStage)};
    }
  }

  lemma LungWellFormed()
    ensures WellFormed(LungProfile)
  {
    var p := LungProfile;
    forall k | 0 <= k < |p.rules|
      ensures ActionWellFormed(p.schema, p.rules[k].action)
    {
      var a := p.rules[k].action;
      assert ActionFields(a) <=
        {TnmT, TnmN, TnmM, Histology, EgfrMutation, AlkStatus, Pdl1Percentage, Pdl1Category,
         Fev1Percentage, Fev1Category, DlcoPercentage, DlcoCategory, ClinicalStage, SmokingStatus};
    }
  }

  // ---------------------------------------------------------------------
  // Observations

  predicate RuleMatches(rule: Rule, code: Option<string>, display: string) {
    || (rule.code.Some? && code == rule.code)
    || exists k :: 0 <= k < |rule.keywords| && Contains(display, rule.keywords[k])
  }

  /** The branch of the `if/elif` chain that runs: the first matching rule. */
  function FirstMatch(rules: seq<Rule>, code: Option<string>, display: string): (r: Option<nat>)
    ensures r.Some? ==> r.value < |rules| && RuleMatches(rules[r.value], code, display)
    ensures r.Some? ==> forall j :: 0 <= j < r.value ==> !RuleMatches(rules[j], code, display)
    ensures r.None? ==> forall j :: 0 <= j < |rules| ==> !RuleMatches(rules[j], code, display)
  {
    if rules == [] then None
    else if RuleMatches(rules[0], code, display) then Some(0)
    else
      match FirstMatch(rules[1..], code, display)
      case None => None
      case Some(k) => Some(k + 1)
  }

  /** Runs one branch on the record with the observation's value. */
  function Apply(rec: Record, a: Action, v: Value): (r: Result<Record, PyError>)
    // Nothing outside the branch's fields changes, and no key is removed.
    ensures r.Success? ==> forall f :: f !in ActionFields(a) ==> Get(r.value, f) == Get(rec, f)
    ensures r.Success? ==> rec.Keys <= r.value.Keys <= rec.Keys + ActionFields(a)
    // The value field receives the value as it is, truthy or not.
    ensures (r.Success? && ValueField(a).Some? && !(a.Receptor? && a.status == a.percentage) &&
             !(a.Graded? && a.category == a.percentage)) ==> Get(r.value, ValueField(a).value) == v
    // Only the unguarded receptor conversion can fail.
    ensures r.Failure? <==> a.Receptor? && Truthy(v) && AsReal(v).None?
    ensures r.Failure? ==> r.error == ValueError
    // A falsy value leaves the status or category as it was.
    ensures r.Success? && a.Receptor? && !Truthy(v) && a.status != a.percentage ==> Get(r.value, a.status) == Get(rec, a.status)
    ensures r.Success? && a.Graded? && !Truthy(v) && a.category != a.percentage ==> Get(r.value, a.category) == Get(rec, a.category)
    // A truthy number sets the status: Positive exactly above 10.
    ensures a.Receptor? && Truthy(v) && AsReal(v).Some? ==>
              r.Success? && Get(r.value, a.status) == Str(if AsReal(v).value > 10.0 then "Positive" else "Negative")
    // A truthy value that converts sets the category; one that does not leaves it.
    ensures a.Graded? && Truthy(v) && AsReal(v).Some? ==>
              r.Success? && Get(r.value, a.category) == Str(Categorize(a.banding, AsReal(v).value))
    ensures a.Graded? && AsReal(v).None? && a.category != a.percentage ==>
              r.Success? && Get(r.value, a.category) == Get(rec, a.category)
    // A label branch writes its fixed label, whatever the value.
    ensures a.Label? ==> r == Success(rec[a.target := Str(a.name)])
  {
    match a
    case Store(f) => Success(rec[f := v])
    case Label(f, name) => Success(rec[f := Str(name)])
    case Receptor(pct, status) =>
      var withValue := rec[pct := v];
      if !Truthy(v) then Success(withValue)
      else
        (match AsReal(v)
         case None => Failure(ValueError)
         case Some(x) => Success(withValue[status := Str(ReceptorStatus(x))]))
    case Graded(pct, category, banding) =>
      var withValue := rec[pct := v];
      if !Truthy(v) then Success(withValue)
      else
        match AsReal(v)
        case None => Success(withValue)
        case Some(x) => Success(withValue[category := Str(Categorize(banding, x))])
  }

  /** The branch an observation takes, or `None` when no rule matches or its
      code element cannot be read. */
  function Branch(p: Profile, obs: Resource): (k: Option<nat>)
    requires obs.Observation?
    ensures k.Some? ==> k.value < |p.rules|
  {
    match FirstCoding(obs.code)
    case Failure(_) => None
    case Success(c) => FirstMatch(p.rules, c.code, LowerDisplay(c))
  }

  /** The observation branch of the engine loop. */
  function ObservationStep(p: Profile, rec: Record, obs: Resource): (r: Result<Record, PyError>)
    requires obs.Observation?
  {
    match FirstCoding(obs.code)
    case Failure(e) => Failure(e)
    case Success(c) =>
      match ExtractValue(obs)
      case Failure(e) => Failure(e)
      case Success(v) =>
        match FirstMatch(p.rules, c.code, LowerDisplay(c))
        case None => Success(rec)
        case Some(k) => Apply(rec, p.rules[k].action, v)
  }

  // ---------------------------------------------------------------------
  // Patients and conditions

  /** `int(birthDate.split('-')[0])` for a non-empty birth date; `None` when
      the date is absent, empty, or its year does not convert. */
  function BirthYear(birthDate: Option<string>): Option<int> {
    match birthDate
    case None => None
    case Some(s) => if s == "" then None else ParseInt(Before(s, '-'))
  }

  /** The Patient branch: id and gender are always written; the age only
      when the birth year converts, and otherwise it keeps its value. */
  function PatientStep(rec: Record, id: Option<string>, gender: Option<string>,
                       birthDate: Option<string>, currentYear: int): (r: Record)
    ensures Get(r, PatientId) == OfStr(id) && Get(r, Gender) == OfStr(gender)
    ensures BirthYear(birthDate).None? ==> Get(r, Age) == Get(rec, Age)
    ensures BirthYear(birthDate).Some? ==> Get(r, Age) == Num((currentYear - BirthYear(birthDate).value) as real)
    ensures forall f :: f !in {PatientId, Gender, Age} ==> Get(r, f) == Get(rec, f)
    ensures rec.Keys <= r.Keys <= rec.Keys + {PatientId, Gender, Age}
  {
    var r := rec[PatientId := OfStr(id)][Gender := OfStr(gender)];
    match BirthYear(birthDate)
    case None => r
    case Some(year) => r[Age := Num((currentYear - year) as real)]
  }

  /** The first histology rule whose word occurs in the display. */
  function FirstHistology(rules: seq<HistologyRule>, display: string): (r: Option<nat>)
    ensures r.Some? ==> r.value < |rules| && Contains(display, rules[r.value].keyword)
    ensures r.Some? ==> forall j :: 0 <= j < r.value ==> !Contains(display, rules[j].keyword)
    ensures r.None? ==> forall j :: 0 <= j < |rules| ==> !Contains(display, rules[j].keyword)
  {
    if rules == [] then None
    else if Contains(display, rules[0].keyword) then Some(0)
    else
      match FirstHistology(rules[1..], display)
      case None => None
      case Some(k) => Some(k + 1)
  }

  /** The lower-cased display of a coding names the cancer site and "cancer". */
  predicate NamesSite(p: Profile, c: Coding) {
    Contains(LowerDisplay(c), p.site) && Contains(LowerDisplay(c), "cancer")
  }

  /** The histology label a Condition coding gives: one naming the site and
      a histology word of the profile. */
  function CodingHistology(p: Profile, c: Coding): (h: Option<string>)
    ensures h.Some? <==> NamesSite(p, c) && FirstHistology(p.histology, LowerDisplay(c)).Some?
    ensures h.Some? ==> exists k :: 0 <= k < |p.histology| && h.value == p.histology[k].name
  {
    if NamesSite(p, c) then
      match FirstHistology(p.histology, LowerDisplay(c))
      case None => None
      case Some(k) => Some(p.histology[k].name)
    else None
  }

  /** One coding of a Condition: a display naming the cancer site and
      "cancer" records the onset date and, for breast, the histology. */
  function CodingStep(p: Profile, rec: Record, c: Coding, onset: Option<string>): Record {
    var display := LowerDisplay(c);
    if NamesSite(p, c) then
      var dated := rec[DiagnosisDate := OfStr(onset)];
      match FirstHistology(p.histology, display)
      case None => dated
      case Some(k) => dated[Histology := Str(p.histology[k].name)]
    else rec
  }

  function ConditionStep(p: Profile, rec: Record, codings: seq<Coding>, onset: Option<string>): Record
    decreases |codings|
  {
    if codings == [] then rec
    else ConditionStep(p, CodingStep(p, rec, codings[0], onset), codings[1..], onset)
  }

  // ---------------------------------------------------------------------
  // The pass over the bundle

  /** One iteration of the `for entry in bundle['entry']` loop. */
  function Step(p: Profile, rec: Record, e: Resource, currentYear: int): Result<Record, PyError> {
    match e
    case Patient(id, gender, birthDate) => Success(PatientStep(rec, id, gender, birthDate, currentYear))
    case Condition(code, onset) => Success(ConditionStep(p, rec, Codings(code), onset))
    case Observation(_, _, _, _) => ObservationStep(p, rec, e)
    case OtherResource => Success(rec)
  }

  /** The loop over the remaining entries; the first exception ends it. */
  function Run(p: Profile, rec: Record, es: seq<Resource>, currentYear: int): Result<Record, PyError>
    decreases |es|
  {
    if es == [] then Success(rec)
    else
      match Step(p, rec, es[0], currentYear)
      case Failure(err) => Failure(err)
      case Success(next) => Run(p, next, es[1..], currentYear)
  }

  /** `str(v)` inside the f-string of `tnm_complete`. A number is written as
      the decimal text of its integer part. */
  function Render(v: Value): string {
    match v
    case Null => "None"
    case Num(x) => IntText(x.Floor)
    case Str(s) => s
  }

  /** The post-pass: `tnm_complete` is set when T, N and M are all truthy. */
  function CompleteTnm(rec: Record): Record {
    var t, n, m := Get(rec, TnmT), Get(rec, TnmN), Get(rec, TnmM);
    if Truthy(t) && Truthy(n) && Truthy(m) then
      rec[TnmComplete := Str(Render(t) + ", " + Render(n) + ", " + Render(m))]
    else rec
  }

  /** `extract_breast_cancer_biomarkers` / `extract_lung_cancer_biomarkers`. */
  function Extract(p: Profile, bundle: Bundle, currentYear: int): Result<Record, PyError> {
    match Run(p, EmptyRecord(p.schema), bundle.entries, currentYear)
    case Failure(e) => Failure(e)
    case Success(rec) => Success(CompleteTnm(rec))
  }

  /** The engine as the scripts run it: the record is updated in place entry
      by entry, and an exception abandons it. */
  method ExtractRecord(p: Profile, bundle: Bundle, currentYear: int) returns (r: Result<Record, PyError>)
    ensures r == Extract(p, bundle, currentYear)
  {
    var entries := bundle.entries;
    var rec := EmptyRecord(p.schema);
    var i := 0;
    while i < |entries|
      invariant 0 <= i <= |entries|
      invariant Run(p, EmptyRecord(p.schema), entries, currentYear) == Run(p, rec, entries[i..], currentYear)
    {
      assert entries[i..][1..] == entries[i + 1..];
      match entries[i] {
        case Patient(id, gender, birthDate) =>
          rec := rec[PatientId := OfStr(id)];
          rec := rec[Gender := OfStr(gender)];
          if birthDate.Some? && birthDate.value != "" {
            var year := ParseInt(Before(birthDate.value, '-'));
            if year.Some? {
              rec := rec[Age := Num((currentYear - year.value) as real)];
            }
          }
        case Condition(code, onset) =>
          var codings := Codings(code);
          ghost var before := rec;
          var j := 0;
          while j < |codings|
            invariant 0 <= j <= |codings|
            invariant ConditionStep(p, before, codings, onset) == ConditionStep(p, rec, codings[j..], onset)
          {
            assert codings[j..][1..] == codings[j + 1..];
            var display := LowerDisplay(codings[j]);
            if Contains(display, p.site) && Contains(display, "cancer") {
              rec := rec[DiagnosisDate := OfStr(onset)];
              var histology := FirstHistology(p.histology, display);
              if histology.Some? {
                rec := rec[Histology := Str(p.histology[histology.value].name)];
              }
            }
            j := j + 1;
          }
        case Observation(_, _, _, _) =>
          var next := ObservationStep(p, rec, entries[i]);
          if next.Failure? {
            return Failure(next.error);
          }
          rec := next.value;
        case OtherResource =>
      }
      i := i + 1;
    }
    r := Success(CompleteTnm(rec));
  }

  // ---------------------------------------------------------------------
  // What each step may change

  /** The keys an entry's step may write. */
  predicate Writes(p: Profile, e: Resource, f: Field) {
    match e
    case Patient(_, _, _) => f in {PatientId, Gender, Age}
    case Condition(_, _) => f in {DiagnosisDate, Histology}
    case Observation(_, _, _, _) =>
      (match Branch(p, e)
       case None => false
       case Some(k) => f in ActionFields(p.rules[k].action))
    case OtherResource => false
  }

  lemma {:induction false} ConditionStepFrame(p: Profile, rec: Record, codings: seq<Coding>, onset: Option<string>)
    ensures forall f :: f !in {DiagnosisDate, Histology} ==> Get(ConditionStep(p, rec, codings, onset), f) == Get(rec, f)
    ensures rec.Keys <= ConditionStep(p, rec, codings, onset).Keys <= rec.Keys + {DiagnosisDate, Histology}
    decreases |codings|
  {
    if codings != [] {
      ConditionStepFrame(p, CodingStep(p, rec, codings[0], onset), codings[1..], onset);
    }
  }

  /** One coding: the date is set exactly when it names the site, and the
      histology becomes its label when it gives one. */
  lemma CodingStepEffect(p: Profile, rec: Record, c: Coding, onset: Option<string>)
    ensures !NamesSite(p, c) ==> CodingStep(p, rec, c, onset) == rec
    ensures NamesSite(p, c) ==> Get(CodingStep(p, rec, c, onset), DiagnosisDate) == OfStr(onset)
    ensures Get(CodingStep(p, rec, c, onset), Histology) ==
              if CodingHistology(p, c).Some? then Str(CodingHistology(p, c).value) else Get(rec, Histology)
  {
  }

  /** With no coding naming the site, a Condition changes nothing. */
  lemma {:induction false} ConditionStepUnchanged(p: Profile, rec: Record, codings: seq<Coding>, onset: Option<string>)
    requires forall j :: 0 <= j < |codings| ==> !NamesSite(p, codings[j])
    ensures ConditionStep(p, rec, codings, onset) == rec
    decreases |codings|
  {
    if codings != [] {
      CodingStepEffect(p, rec, codings[0], onset);
      assert forall j :: 0 <= j < |codings[1..]| ==> codings[1..][j] == codings[j + 1];
      ConditionStepUnchanged(p, rec, codings[1..], onset);
    }
  }

  /** With some coding naming the site, `diagnosis_date` is the onset date. */
  lemma {:induction false} ConditionStepDate(p: Profile, rec: Record, codings: seq<Coding>, onset: Option<string>, j: int)
    requires 0 <= j < |codings| && NamesSite(p, codings[j])
    ensures Get(ConditionStep(p, rec, codings, onset), DiagnosisDate) == OfStr(onset)
    decreases |codings|
  {
    var rest := codings[1..];
    var next := CodingStep(p, rec, codings[0], onset);
    CodingStepEffect(p, rec, codings[0], onset);
    if j > 0 {
      assert rest[j - 1] == codings[j];
      ConditionStepDate(p, next, rest, onset, j - 1);
    } else if exists k :: 0 <= k < |rest| && NamesSite(p, rest[k]) {
      var k :| 0 <= k < |rest| && NamesSite(p, rest[k]);
      ConditionStepDate(p, next, rest, onset, k);
    } else {
      ConditionStepUnchanged(p, next, rest, onset);
    }
  }

  /** With no coding giving a histology label, the histology keeps its value. */
  lemma {:induction false} ConditionStepNoHistology(p: Profile, rec: Record, codings: seq<Coding>, onset: Option<string>)
    requires forall j :: 0 <= j < |codings| ==> CodingHistology(p, codings[j]).None?
    ensures Get(ConditionStep(p, rec, codings, onset), Histology) == Get(rec, Histology)
    decreases |codings|
  {
    if codings != [] {
      CodingStepEffect(p, rec, codings[0], onset);
      assert forall k :: 0 <= k < |codings[1..]| ==> codings[1..][k] == codings[k + 1];
      ConditionStepNoHistology(p, CodingStep(p, rec, codings[0], onset), codings[1..], onset);
    }
  }

  /** The histology is the label of the last coding that gives one. */
  lemma {:induction false} ConditionStepLastHistology(p: Profile, rec: Record, codings: seq<Coding>, onset: Option<string>, j: int)
    requires 0 <= j < |codings| && CodingHistology(p, codings[j]).Some?
    requires forall k :: j < k < |codings| ==> CodingHistology(p, codings[k]).None?
    ensures Get(ConditionStep(p, rec, codings, onset), Histology) == Str(CodingHistology(p, codings[j]).value)
    decreases |codings|
  {
    var rest := codings[1..];
    var next := CodingStep(p, rec, codings[0], onset);
    CodingStepEffect(p, rec, codings[0], onset);
    assert forall k :: 0 <= k < |rest| ==> rest[k] == codings[k + 1];
    if j > 0 {
      ConditionStepLastHistology(p, next, rest, onset, j - 1);
    } else {
      ConditionStepNoHistology(p, next, rest, onset);
    }
  }

  /** What the codings of a Condition do: with no coding naming the site
      the record is unchanged; with one, `diagnosis_date` is the onset date;
      the histology is the label of the last coding that gives one, and it
      keeps its value when none does. */
  lemma ConditionStepEffect(p: Profile, rec: Record, codings: seq<Coding>, onset: Option<string>)
    ensures (forall j :: 0 <= j < |codings| ==> !NamesSite(p, codings[j])) ==>
              ConditionStep(p, rec, codings, onset) == rec
    ensures (exists j :: 0 <= j < |codings| && NamesSite(p, codings[j])) ==>
              Get(ConditionStep(p, rec, codings, onset), DiagnosisDate) == OfStr(onset)
    ensures forall j :: 0 <= j < |codings| && CodingHistology(p, codings[j]).Some? &&
                        (forall k :: j < k < |codings| ==> CodingHistology(p, codings[k]).None?) ==>
              Get(ConditionStep(p, rec, codings, onset), Histology) == Str(CodingHistology(p, codings[j]).value)
    ensures (forall j :: 0 <= j < |codings| ==> CodingHistology(p, codings[j]).None?) ==>
              Get(ConditionStep(p, rec, codings, onset), Histology) == Get(rec, Histology)
  {
    if forall j :: 0 <= j < |codings| ==> !NamesSite(p, codings[j]) {
      ConditionStepUnchanged(p, rec, codings, onset);
    } else {
      var j :| 0 <= j < |codings| && NamesSite(p, codings[j]);
      ConditionStepDate(p, rec, codings, onset, j);
    }
    forall j | 0 <= j < |codings| && CodingHistology(p, codings[j]).Some? &&
               (forall k :: j < k < |codings| ==> CodingHistology(p, codings[k]).None?)
      ensures Get(ConditionStep(p, rec, codings, onset), Histology) == Str(CodingHistology(p, codings[j]).value)
    {
      ConditionStepLastHistology(p, rec, codings, onset, j);
    }
    if forall j :: 0 <= j < |codings| ==> CodingHistology(p, codings[j]).None? {
      ConditionStepNoHistology(p, rec, codings, onset);
    }
  }

  /** A breast diagnosis coding takes the first histology word of the
      chain; a lung Condition never writes the histology. */
  lemma ConditionHistologyByProfile(rec: Record, codings: seq<Coding>, onset: Option<string>)
    ensures |codings| > 0 && NamesSite(BreastProfile, codings[|codings| - 1]) &&
            FirstHistology(BreastProfile.histology, LowerDisplay(codings[|codings| - 1])).Some? ==>
              Get(ConditionStep(BreastProfile, rec, codings, onset), Histology) ==
                Str(BreastProfile.histology[FirstHistology(BreastProfile.histology, LowerDisplay(codings[|codings| - 1])).value].name)
    ensures Get(ConditionStep(LungProfile, rec, codings, onset), Histology) == Get(rec, Histology)
  {
    ConditionStepEffect(BreastProfile, rec, codings, onset);
    ConditionStepEffect(LungProfile, rec, codings, onset);
  }

  /** A step changes only the keys its entry writes, and adds no key outside
      them. */
  lemma StepFrame(p: Profile, rec: Record, e: Resource, currentYear: int)
    requires Step(p, rec, e, currentYear).Success?
    ensures forall f :: !Writes(p, e, f) ==> Get(Step(p, rec, e, currentYear).value, f) == Get(rec, f)
    ensures forall f :: f in Step(p, rec, e, currentYear).value && f !in rec ==> Writes(p, e, f)
    ensures rec.Keys <= Step(p, rec, e, currentYear).value.Keys
  {
    if e.Condition? {
      ConditionStepFrame(p, rec, Codings(e.code), e.onsetDateTime);
    }
  }

  /** An observation writes the fields of at most one branch: the first
      rule that matches its first coding. With no match, nothing changes. */
  lemma ObservationWritesOneBranch(p: Profile, rec: Record, obs: Resource)
    requires obs.Observation?
    requires ObservationStep(p, rec, obs).Success?
    ensures Branch(p, obs).None? ==> ObservationStep(p, rec, obs).value == rec
    ensures Branch(p, obs).Some? ==>
              forall f :: f !in ActionFields(p.rules[Branch(p, obs).value].action) ==>
                Get(ObservationStep(p, rec, obs).value, f) == Get(rec, f)
  {
  }

  /** A lower-case display "lymph node" with the estrogen-receptor code
      takes the `tnm_n` branch: the N rule comes first in the chain. */
  lemma LymphNodeBeforeEstrogenCode()
    ensures FirstMatch(BreastProfile.rules, Some("16112-5"), "lymph node") == Some(1)
  {
    var rules := BreastProfile.rules;
    assert !Contains("lymph node", "primary tumor");
    assert !RuleMatches(rules[0], Some("16112-5"), "lymph node");
    assert "lymph node"[..|"lymph node"|] == "lymph node";
    assert Contains("lymph node", rules[1].keywords[0]);
    assert RuleMatches(rules[1], Some("16112-5"), "lymph node");
    assert rules[1..][0] == rules[1];
  }

  // ---------------------------------------------------------------------
  // The whole pass

  /** Running over two pieces is running over the first, then the second. */
  lemma {:induction false} RunAppend(p: Profile, rec: Record, a: seq<Resource>, b: seq<Resource>, currentYear: int)
    ensures Run(p, rec, a + b, currentYear) ==
              match Run(p, rec, a, currentYear)
              case Failure(e) => Failure(e)
              case Success(mid) => Run(p, mid, b, currentYear)
    decreases |a|
  {
    if a == [] {
      assert a + b == b;
    } else {
      assert (a + b)[0] == a[0];
      assert (a + b)[1..] == a[1..] + b;
      match Step(p, rec, a[0], currentYear)
      case Failure(_) =>
      case Success(next) => RunAppend(p, next, a[1..], b, currentYear);
    }
  }

  /** Entries that do not write a key leave it as it was. */
  lemma {:induction false} RunKeepsUnwritten(p: Profile, rec: Record, es: seq<Resource>, currentYear: int, f: Field)
    requires forall k :: 0 <= k < |es| ==> !Writes(p, es[k], f)
    requires Run(p, rec, es, currentYear).Success?
    ensures Get(Run(p, rec, es, currentYear).value, f) == Get(rec, f)
    decreases |es|
  {
    if es != [] {
      StepFrame(p, rec, es[0], currentYear);
      var next := Step(p, rec, es[0], currentYear).value;
      RunKeepsUnwritten(p, next, es[1..], currentYear, f);
    }
  }

  /** Last match wins: the value an observation stores survives every later
      entry that does not write the same key, whatever earlier entries
      stored there. */
  lemma LastWriterWins(p: Profile, rec: Record, before: seq<Resource>, obs: Resource,
                       after: seq<Resource>, currentYear: int, f: Field)
    requires WellFormed(p)
    requires obs.Observation? && Branch(p, obs).Some?
    requires ValueField(p.rules[Branch(p, obs).value].action) == Some(f)
    requires forall k :: 0 <= k < |after| ==> !Writes(p, after[k], f)
    requires Run(p, rec, before + [obs] + after, currentYear).Success?
    ensures ExtractValue(obs).Success?
    ensures Get(Run(p, rec, before + [obs] + after, currentYear).value, f) == ExtractValue(obs).value
  {
    RunAppend(p, rec, before + [obs], after, currentYear);
    RunAppend(p, rec, before, [obs], currentYear);
    var mid := Run(p, rec, before, currentYear).value;
    assert [obs][1..] == [];
    var k := Branch(p, obs).value;
    assert p.rules[k].action.Receptor? ==> p.rules[k].action.percentage != p.rules[k].action.status;
    assert p.rules[k].action.Graded? ==> p.rules[k].action.percentage != p.rules[k].action.category;
    var written := Run(p, rec, before + [obs], currentYear).value;
    RunKeepsUnwritten(p, written, after, currentYear, f);
  }

  /** Keys of a well-formed profile's record stay exactly its schema. */
  lemma {:induction false} RunKeepsKeys(p: Profile, rec: Record, es: seq<Resource>, currentYear: int)
    requires WellFormed(p)
    requires rec.Keys == set f | f in p.schema
    requires Run(p, rec, es, currentYear).Success?
    ensures Run(p, rec, es, currentYear).value.Keys == set f | f in p.schema
    decreases |es|
  {
    if es != [] {
      var next := Step(p, rec, es[0], currentYear).value;
      StepFrame(p, rec, es[0], currentYear);
      assert forall f :: Writes(p, es[0], f) ==> f in p.schema;
      RunKeepsKeys(p, next, es[1..], currentYear);
    }
  }

  /** The extracted record has exactly the keys of its schema. */
  lemma ExtractKeepsSchema(p: Profile, bundle: Bundle, currentYear: int)
    requires WellFormed(p)
    requires Extract(p, bundle, currentYear).Success?
    ensures Extract(p, bundle, currentYear).value.Keys == set f | f in p.schema
  {
    RunKeepsKeys(p, EmptyRecord(p.schema), bundle.entries, currentYear);
  }

  /** `tnm_complete` is present exactly when T, N and M are all truthy, and
      then joins them with ", ". */
  lemma TnmCompleteIff(p: Profile, bundle: Bundle, currentYear: int)
    requires WellFormed(p)
    requires Extract(p, bundle, currentYear).Success?
    ensures var r := Extract(p, bundle, currentYear).value;
            var t, n, m := Get(r, TnmT), Get(r, TnmN), Get(r, TnmM);
            && (Get(r, TnmComplete) != Null <==> Truthy(t) && Truthy(n) && Truthy(m))
            && (Truthy(t) && Truthy(n) && Truthy(m) ==>
                  Get(r, TnmComplete) == Str(Render(t) + ", " + Render(n) + ", " + Render(m)))
  {
    var es := bundle.entries;
    forall k | 0 <= k < |es|
      ensures !Writes(p, es[k], TnmComplete)
    {
    }
    RunKeepsUnwritten(p, EmptyRecord(p.schema), es, currentYear, TnmComplete);
  }

  // ---------------------------------------------------------------------
  // Concrete behaviour

  /** A breast observation carrying only the estrogen-receptor code and a
      quantity. */
  function ErObservation(percent: real): Resource {
    Observation(Some(CodeableConcept(Some([Coding(Some("16112-5"), None)]), None)),
                Some(Quantity(Some(percent), Some("%"))), None, None)
  }

  /** The ER code alone selects the estrogen-receptor branch, the fourth of
      the breast chain. */
  lemma ErObservationBranch(percent: real)
    ensures FirstCoding(ErObservation(percent).code) == Success(Coding(Some("16112-5"), None))
    ensures Branch(BreastProfile, ErObservation(percent)) == Some(3)
    ensures ExtractValue(ErObservation(percent)) == Success(Num(percent))
  {
  }

  /** An absent or empty birth date, or one whose text before the first '-'
      is not an integer, gives no year. */
  lemma BirthYearFallbacks()
    ensures BirthYear(None) == None
    ensures BirthYear(Some("")) == None
    ensures BirthYear(Some("ab-01")) == None
    ensures BirthYear(Some("-1970")) == None
  {
    BeforeSeparator("ab", '-', "01");
    assert "ab" + ['-'] + "01" == "ab-01";
    assert !IsDigit("ab"[0]);
    BeforeSeparator("", '-', "1970");
    assert [] + ['-'] + "1970" == "-1970";
  }

  /** The year written before the first '-' of a birth date is read back. */
  lemma BirthYearOfDate(year: nat, rest: string)
    ensures BirthYear(Some(NatText(year) + "-" + rest)) == Some(year)
    ensures BirthYear(Some(NatText(year))) == Some(year)
  {
    NatTextRoundTrip(year);
    var t := NatText(year);
    assert forall i :: 0 <= i < |t| ==> t[i] != '-';
    BeforeSeparator(t, '-', rest);
    assert t + "-" + rest == t + ['-'] + rest;
  }

  /** A Patient whose birth year does not convert leaves the age None and
      does not stop the extraction. */
  lemma PatientWithoutYear(p: Profile, id: Option<string>, gender: Option<string>,
                           birthDate: Option<string>, currentYear: int)
    requires BirthYear(birthDate).None?
    ensures var r := Extract(p, Bundle([Patient(id, gender, birthDate)]), currentYear);
            && r.Success?
            && Get(r.value, Age) == Null
            && Get(r.value, PatientId) == OfStr(id)
            && Get(r.value, Gender) == OfStr(gender)
  {
    var es := [Patient(id, gender, birthDate)];
    var rec := PatientStep(EmptyRecord(p.schema), id, gender, birthDate, currentYear);
    assert es[1..] == [];
    assert Run(p, EmptyRecord(p.schema), es, currentYear) == Success(rec);
  }

  lemma BirthYear1970()
    ensures BirthYear(Some("1970-01-01")) == Some(1970)
  {
    var s := "1970-01-01";
    assert Before(s[4..], '-') == [];
    assert Before(s, '-') == "1970";
    assert DigitsValue("1970") == 1970 by {
      assert "1970"[..3] == "197";
      assert "197"[..2] == "19";
      assert "19"[..1] == "1";
      assert "1"[..0] == "";
    }
  }

  /** A lung observation whose lower-cased display names adenocarcinoma
      and none of the TNM words, and that carries no code, sets the
      histology label and nothing else. */
  lemma LungAdenocarcinoma(rec: Record, display: string)
    requires Contains(Lower(display), "adenocarcinoma")
    requires !Contains(Lower(display), "primary tumor")
    requires !Contains(Lower(display), "lymph node")
    requires !Contains(Lower(display), "metasta")
    ensures ObservationStep(LungProfile, rec,
              Observation(Some(CodeableConcept(Some([Coding(None, Some(display))]), None)), None, None, None))
            == Success(rec[Histology := Str("Adenocarcinoma")])
  {
    var rules := LungProfile.rules;
    var d := Lower(display);
    assert rules[3].keywords[0] == "adenocarcinoma";
    assert RuleMatches(rules[3], None, d);
    assert !RuleMatches(rules[0], None, d);
    assert !RuleMatches(rules[1], None, d);
    assert !RuleMatches(rules[2], None, d);
    assert FirstMatch(rules[3..], None, d) == Some(0);
    assert rules[3..] == rules[1..][1..][1..];
  }

  /** A space or a lower-case letter other than 'l', 'p' and 't': none of
      the TNM words can occur in a text made of these. */
  predicate QuietChar(c: char) {
    c == ' ' || ('a' <= c <= 'z' && c != 'l' && c != 'p' && c != 't')
  }

  /** "adenocarcinoma", alone or followed by lower-case text without the
      letters 'l', 'p' and 't', is such a display. */
  lemma LungAdenocarcinomaDisplay(rec: Record, suffix: string)
    requires forall i :: 0 <= i < |suffix| ==> QuietChar(suffix[i])
    ensures ObservationStep(LungProfile, rec,
              Observation(Some(CodeableConcept(Some([Coding(None, Some("adenocarcinoma" + suffix))]), None)), None, None, None))
            == Success(rec[Histology := Str("Adenocarcinoma")])
  {
    var d := "adenocarcinoma" + suffix;
    forall i | 0 <= i < |d|
      ensures QuietChar(d[i])
    {
      if i >= 14 {
        assert d[i] == suffix[i - 14];
      }
    }
    assert d[..14] == "adenocarcinoma";
    QuietDisplay(d);
    LungAdenocarcinoma(rec, d);
  }

  /** A display of quiet characters that starts with "adenocarcinoma" meets
      the conditions above. */
  lemma QuietDisplay(d: string)
    requires |d| >= 14 && d[..14] == "adenocarcinoma"
    requires forall i :: 0 <= i < |d| ==> QuietChar(d[i])
    ensures Contains(Lower(d), "adenocarcinoma")
    ensures !Contains(Lower(d), "primary tumor")
    ensures !Contains(Lower(d), "lymph node")
    ensures !Contains(Lower(d), "metasta")
  {
    assert Lower(d) == d by {
      assert forall i :: 0 <= i < |d| ==> !('A' <= d[i] <= 'Z');
    }
    assert OccursAt(d, "adenocarcinoma", 0);
    AbsentChar(d, "primary tumor", 0);
    AbsentChar(d, "lymph node", 0);
    AbsentChar(d, "metasta", 2);
  }

  // ---------------------------------------------------------------------
  // The batch over the bundle directory

  /** What one file contributes: nothing when it cannot be read or its
      engine raises (the exception is reported and the file skipped). */
  function Extracted(cancer: CancerType, file: PatientFile, currentYear: int): (r: Option<Record>)
    ensures r.Some? <==> file.bundle.Some? && Extract(ProfileFor(cancer), file.bundle.value, currentYear).Success?
    ensures r.Some? ==> r.value == Extract(ProfileFor(cancer), file.bundle.value, currentYear).value
  {
    match file.bundle
    case None => None
    case Some(b) =>
      match Extract(ProfileFor(cancer), b, currentYear)
      case Failure(_) => None
      case Success(rec) => Some(rec)
  }

  /** The present values of a list of outcomes, in order. */
  function Somes<T>(os: seq<Option<T>>): seq<T> {
    if os == [] then []
    else
      var init := Somes(os[..|os| - 1]);
      match os[|os| - 1]
      case None => init
      case Some(x) => init + [x]
  }

  /** A value is kept exactly when some outcome holds it. */
  lemma {:induction false} SomesMembers<T>(os: seq<Option<T>>, x: T)
    ensures x in Somes(os) <==> Some(x) in os
  {
    if os != [] {
      var init := os[..|os| - 1];
      SomesMembers(init, x);
      assert os == init + [os[|os| - 1]];
    }
  }

  /** There are never more values than outcomes, and as many exactly when
      every outcome is present. */
  lemma {:induction false} SomesCount<T>(os: seq<Option<T>>)
    ensures |Somes(os)| <= |os|
    ensures |Somes(os)| == |os| <==> forall i :: 0 <= i < |os| ==> os[i].Some?
  {
    if os != [] {
      var init := os[..|os| - 1];
      SomesCount(init);
      assert forall i :: 0 <= i < |init| ==> init[i] == os[i];
    }
  }

  /** What each file contributes, in file order. */
  function Outcomes(cancer: CancerType, files: seq<PatientFile>, currentYear: int): (os: seq<Option<Record>>)
    ensures |os| == |files|
    ensures forall i :: 0 <= i < |files| ==> os[i] == Extracted(cancer, files[i], currentYear)
  {
    seq(|files|, i requires 0 <= i < |files| => Extracted(cancer, files[i], currentYear))
  }

  /** The records kept from the files, in file order. */
  function Kept(cancer: CancerType, files: seq<PatientFile>, currentYear: int): seq<Record> {
    Somes(Outcomes(cancer, files, currentYear))
  }

  /** `extract_biomarkers` without the I/O: an empty directory stops the
      script; otherwise each file's record is appended when it extracts. */
  method ExtractAll(cancer: CancerType, files: seq<PatientFile>, currentYear: int)
    returns (r: Result<seq<Record>, RunError>)
    ensures files == [] <==> r == Failure(NoPatientFiles)
    ensures files != [] ==> r == Success(Kept(cancer, files, currentYear))
  {
    if files == [] {
      return Failure(NoPatientFiles);
    }
    var all: seq<Record> := [];
    var i := 0;
    while i < |files|
      invariant 0 <= i <= |files|
      invariant all == Somes(Outcomes(cancer, files, currentYear)[..i])
    {
      assert Outcomes(cancer, files, currentYear)[..i + 1][..i] == Outcomes(cancer, files, currentYear)[..i];
      var file := files[i];
      if file.bundle.Some? {
        var extracted := ExtractRecord(ProfileFor(cancer), file.bundle.value, currentYear);
        if extracted.Success? {
          all := all + [extracted.value];
        }
      }
      i := i + 1;
    }
    assert Outcomes(cancer, files, currentYear)[..i] == Outcomes(cancer, files, currentYear);
    r := Success(all);
  }

  /** A record is kept exactly when some file extracts to it; there are
      never more records than files, and as many exactly when every file
      extracts. */
  lemma KeptFromFiles(cancer: CancerType, files: seq<PatientFile>, currentYear: int, rec: Record)
    ensures rec in Kept(cancer, files, currentYear) <==>
              exists i :: 0 <= i < |files| && Extracted(cancer, files[i], currentYear) == Some(rec)
    ensures |Kept(cancer, files, currentYear)| <= |files|
    ensures |Kept(cancer, files, currentYear)| == |files| <==>
              forall i :: 0 <= i < |files| ==> Extracted(cancer, files[i], currentYear).Some?
  {
    var os := Outcomes(cancer, files, currentYear);
    SomesMembers(os, rec);
    SomesCount(os);
  }

  // ---------------------------------------------------------------------
  // Scenarios

  /** A patient entry with an id, a gender and a birth date. */
  function PatientEntry(birthDate: string): Resource {
    Patient(Some("p1"), Some("female"), Some(birthDate))
  }

  /** A breast bundle with a patient and a non-zero ER result gives the age
      from the birth year, the ER percentage and its status, and no TNM
      summary. */
  lemma BreastScenario(currentYear: int, birthDate: string, percent: real)
    requires BirthYear(Some(birthDate)).Some?
    requires percent != 0.0
    ensures var r := Extract(BreastProfile, Bundle([PatientEntry(birthDate), ErObservation(percent)]), currentYear);
            && r.Success?
            && Get(r.value, PatientId) == Str("p1")
            && Get(r.value, Gender) == Str("female")
            && Get(r.value, Age) == Num((currentYear - BirthYear(Some(birthDate)).value) as real)
            && Get(r.value, ErPercentage) == Num(percent)
            && Get(r.value, ErStatus) == Str(if percent > 10.0 then "Positive" else "Negative")
            && Get(r.value, TnmComplete) == Null
  {
    var rec := BreastScenarioRecord(currentYear, birthDate, percent);
    ScenarioFields(EmptyRecord(BreastSchema), (currentYear - BirthYear(Some(birthDate)).value) as real, percent);
  }

  /** The fields the scenario's steps write, read back from a record that
      started out all None. */
  lemma ScenarioFields(rec0: Record, age: real, percent: real)
    requires forall f :: Get(rec0, f) == Null
    ensures var rec := rec0[PatientId := Str("p1")][Gender := Str("female")][Age := Num(age)]
                           [ErPercentage := Num(percent)][ErStatus := Str(ReceptorStatus(percent))];
            && Get(rec, PatientId) == Str("p1")
            && Get(rec, Gender) == Str("female")
            && Get(rec, Age) == Num(age)
            && Get(rec, ErPercentage) == Num(percent)
            && Get(rec, ErStatus) == Str(if percent > 10.0 then "Positive" else "Negative")
            && Get(rec, TnmComplete) == Null
  {
    assert Get(rec0, TnmComplete) == Null;
  }

  lemma BreastScenarioRecord(currentYear: int, birthDate: string, percent: real) returns (rec: Record)
    requires BirthYear(Some(birthDate)).Some?
    requires percent != 0.0
    ensures rec == EmptyRecord(BreastSchema)[PatientId := Str("p1")][Gender := Str("female")]
                     [Age := Num((currentYear - BirthYear(Some(birthDate)).value) as real)]
                     [ErPercentage := Num(percent)][ErStatus := Str(ReceptorStatus(percent))]
    ensures Extract(BreastProfile, Bundle([PatientEntry(birthDate), ErObservation(percent)]), currentYear) == Success(rec)
  {
    var p := BreastProfile;
    var rec0 := EmptyRecord(p.schema);
    var rec1 := PatientEntryStep(rec0, birthDate, currentYear);
    rec := ErStep(rec1, percent);
    ObservationStepYear(p, rec1, ErObservation(percent), 0, currentYear);
    ExtractOfTwo(p, PatientEntry(birthDate), ErObservation(percent), currentYear, rec1, rec);
    assert CompleteTnm(rec) == rec by {
      assert Get(rec, TnmT) == Null;
    }
  }

  /** The scenario's Patient entry writes its id, gender and age. */
  lemma PatientEntryStep(rec: Record, birthDate: string, currentYear: int) returns (next: Record)
    requires BirthYear(Some(birthDate)).Some?
    ensures Step(BreastProfile, rec, PatientEntry(birthDate), currentYear) == Success(next)
    ensures next == rec[PatientId := Str("p1")][Gender := Str("female")]
                      [Age := Num((currentYear - BirthYear(Some(birthDate)).value) as real)]
  {
    next := PatientStep(rec, Some("p1"), Some("female"), Some(birthDate), currentYear);
  }

  /** The scenario for a patient born on 1 January 1970 with an ER result
      of 15%: a positive status. */
  lemma BreastScenario1970(currentYear: int)
    ensures var r := Extract(BreastProfile, Bundle([PatientEntry("1970-01-01"), ErObservation(15.0)]), currentYear);
            && r.Success?
            && Get(r.value, Age) == Num((currentYear - 1970) as real)
            && Get(r.value, ErStatus) == Str("Positive")
  {
    BirthYear1970();
    BreastScenario(currentYear, "1970-01-01", 15.0);
  }

  /** An ER observation of a non-zero number sets the percentage and the
      status and nothing else. */
  lemma ErStep(rec: Record, percent: real) returns (next: Record)
    requires percent != 0.0
    ensures Step(BreastProfile, rec, ErObservation(percent), 0) == Success(next)
    ensures next == rec[ErPercentage := Num(percent)][ErStatus := Str(ReceptorStatus(percent))]
  {
    ErObservationBranch(percent);
    next := rec[ErPercentage := Num(percent)][ErStatus := Str(ReceptorStatus(percent))];
  }

  /** The step of an observation does not depend on the current year. */
  lemma ObservationStepYear(p: Profile, rec: Record, e: Resource, y1: int, y2: int)
    requires e.Observation?
    ensures Step(p, rec, e, y1) == Step(p, rec, e, y2)
  {
  }

  /** Extracting a two-entry bundle is two steps and the post-pass. */
  lemma ExtractOfTwo(p: Profile, e1: Resource, e2: Resource, currentYear: int, rec1: Record, rec2: Record)
    requires Step(p, EmptyRecord(p.schema), e1, currentYear) == Success(rec1)
    requires Step(p, rec1, e2, currentYear) == Success(rec2)
    ensures Extract(p, Bundle([e1, e2]), currentYear) == Success(CompleteTnm(rec2))
  {
    var es := [e1, e2];
    assert es[1..] == [e2];
    assert es[1..][1..] == [];
    assert Run(p, rec2, es[1..][1..], currentYear) == Success(rec2);
    assert Run(p, rec1, es[1..], currentYear) == Success(rec2);
    assert Run(p, EmptyRecord(p.schema), es, currentYear) == Success(rec2);
  }

  /** A later ER result of 0 overwrites the percentage but, being falsy,
      leaves the status of the earlier result in place. */
  lemma FalsyReceptorKeepsStatus(currentYear: int)
    ensures var r := Extract(BreastProfile, Bundle([ErObservation(15.0), ErObservation(0.0)]), currentYear);
            && r.Success?
            && Get(r.value, ErPercentage) == Num(0.0)
            && Get(r.value, ErStatus) == Str("Positive")
  {
    var p := BreastProfile;
    var rec0 := EmptyRecord(p.schema);
    var rec1 := ErStep(rec0, 15.0);
    ObservationStepYear(p, rec0, ErObservation(15.0), 0, currentYear);
    var rec2 := ZeroErStep(rec1);
    ExtractOfTwo(p, ErObservation(15.0), ErObservation(0.0), currentYear, rec1, rec2);
    assert Get(rec2, TnmT) == Null;
  }

  /** An ER observation of 0 sets the percentage only. */
  lemma ZeroErStep(rec: Record) returns (next: Record)
    ensures forall y :: Step(BreastProfile, rec, ErObservation(0.0), y) == Success(next)
    ensures next == rec[ErPercentage := Num(0.0)]
  {
    ErObservationBranch(0.0);
    next := rec[ErPercentage := Num(0.0)];
  }

  /** An ER observation whose value is the text "positive". */
  function TextErObservation(): Resource {
    Observation(ErObservation(15.0).code, None, None, Some("positive"))
  }

  /** Its step raises ValueError on any record: the text is truthy and
      does not convert. */
  lemma TextErStep(rec: Record, currentYear: int)
    ensures Step(BreastProfile, rec, TextErObservation(), currentYear) == Failure(ValueError)
  {
    var obs := TextErObservation();
    ErObservationBranch(15.0);
    assert Branch(BreastProfile, obs) == Some(3);
    assert ExtractValue(obs) == Success(Str("positive"));
    var a := BreastProfile.rules[3].action;
    assert a == Receptor(ErPercentage, ErStatus);
    assert AsReal(Str("positive")) == None by {
      assert !IsDigit('p');
    }
    assert Apply(rec, a, Str("positive")) == Failure(ValueError);
  }

  /** An ER result given as text that is not a number makes the engine
      raise, so the batch drops that patient. */
  lemma NonNumericReceptorDropsPatient(currentYear: int)
    ensures var obs := TextErObservation();
            && Extract(BreastProfile, Bundle([PatientEntry(""), obs]), currentYear) == Failure(ValueError)
            && Extracted(Breast, PatientFile("p1", Some(Bundle([PatientEntry(""), obs]))), currentYear) == None
  {
    var p := BreastProfile;
    var rec0 := EmptyRecord(p.schema);
    var rec1 := PatientStep(rec0, Some("p1"), Some("female"), Some(""), currentYear);
    assert Step(p, rec0, PatientEntry(""), currentYear) == Success(rec1);
    TextErStep(rec1, currentYear);
    ExtractFailsAtSecond(p, PatientEntry(""), TextErObservation(), currentYear, rec1);
  }

  /** A two-entry bundle whose second step raises raises the same. */
  lemma ExtractFailsAtSecond(p: Profile, e1: Resource, e2: Resource, currentYear: int, rec1: Record)
    requires Step(p, EmptyRecord(p.schema), e1, currentYear) == Success(rec1)
    requires Step(p, rec1, e2, currentYear).Failure?
    ensures Extract(p, Bundle([e1, e2]), currentYear) == Failure(Step(p, rec1, e2, currentYear).error)
  {
    var es := [e1, e2];
    assert es[1..] == [e2];
    assert Run(p, rec1, es[1..], currentYear) == Failure(Step(p, rec1, e2, currentYear).error);
    assert Run(p, EmptyRecord(p.schema), es, currentYear) == Failure(Step(p, rec1, e2, currentYear).error);
  }

  /** Breast histology is decided by the first word found, in the order
      ductal, lobular, triple negative. */
  lemma HistologyPriority(display: string)
    ensures Contains(display, "ductal") ==>
              FirstHistology(BreastProfile.histology, display) == Some(0)
    ensures !Contains(display, "ductal") && Contains(display, "lobular") ==>
              FirstHistology(BreastProfile.histology, display) == Some(1)
    ensures !Contains(display, "ductal") && !Contains(display, "lobular") && Contains(display, "triple negative") ==>
              FirstHistology(BreastProfile.histology, display) == Some(2)
    ensures !Contains(display, "ductal") && !Contains(display, "lobular") && !Contains(display, "triple negative") ==>
              FirstHistology(BreastProfile.histology, display) == None
  {
    var h := BreastProfile.histology;
    assert h[0].keyword == "ductal" && h[1].keyword == "lobular" && h[2].keyword == "triple negative";
  }
}
