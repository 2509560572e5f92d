/**
 * The flat per-patient biomarker record (a dictionary with a fixed key set
 * per cancer type) and the per-field completeness count of the extraction
 * summary.
 */
module Records {
  import opened Fhir

  /** The keys of the breast and lung records. */
  datatype Field =
    | PatientId | Age | Gender
    | TnmT | TnmN | TnmM | TnmComplete
    | ErStatus | ErPercentage | PrStatus | PrPercentage
    | Her2Status | Ki67Percentage
    | ClinicalStage | PathologicalStage
    | Histology | DiagnosisDate
    | EgfrMutation | AlkStatus
    | Pdl1Percentage | Pdl1Category
    | Fev1Percentage | Fev1Category
    | DlcoPercentage | DlcoCategory
    | SmokingStatus

  type Record = map<Field, Value>

  /** Key order of the breast record. */
  const BreastSchema: seq<Field> :=
    [PatientId, Age, Gender, TnmT, TnmN, TnmM, TnmComplete,
     ErStatus, ErPercentage, PrStatus, PrPercentage, Her2Status, Ki67Percentage,
     ClinicalStage, PathologicalStage, Histology, DiagnosisDate]

  /** Key order of the lung record. */
  const LungSchema: seq<Field> :=
    [PatientId, Age, Gender, TnmT, TnmN, TnmM, TnmComplete,
     Histology, EgfrMutation, AlkStatus, Pdl1Percentage, Pdl1Category,
     Fev1Percentage, Fev1Category, DlcoPercentage, DlcoCategory,
     ClinicalStage, SmokingStatus, DiagnosisDate]

  /** `record.get(field)`. */
  function Get(rec: Record, f: Field): Value {
    if f in rec then rec[f] else Null
  }

  /** The initial dictionary: every key of the schema mapped to `None`. */
  function EmptyRecord(schema: seq<Field>): (rec: Record)
    ensures rec.Keys == set f | f in schema
    ensures forall f :: Get(rec, f) == Null
  {
    map f | f in schema :: Null
  }

  predicate Distinct(schema: seq<Field>) {
    forall i, j :: 0 <= i < j < |schema| ==> schema[i] != schema[j]
  }

  /** A schema is distinct when some function gives each key its own
      position. */
  lemma DistinctByPosition(schema: seq<Field>, position: Field -> int)
    requires forall i :: 0 <= i < |schema| ==> position(schema[i]) == i
    ensures Distinct(schema)
  {
  }

  /** Position of a key in the breast record, -1 for the others. */
  function BreastPosition(f: Field): int {
    match f
    case PatientId => 0
    case Age => 1
    case Gender => 2
    case TnmT => 3
    case TnmN => 4
    case TnmM => 5
    case TnmComplete => 6
    case ErStatus => 7
    case ErPercentage => 8
    case PrStatus => 9
    case PrPercentage => 10
    case Her2Status => 11
    case Ki67Percentage => 12
    case ClinicalStage => 13
    case PathologicalStage => 14
    case Histology => 15
    case DiagnosisDate => 16
    case _ => -1
  }

  /** Position of a key in the lung record, -1 for the others. */
  function LungPosition(f: Field): int {
    match f
    case PatientId => 0
    case Age => 1
    case Gender => 2
    case TnmT => 3
    case TnmN => 4
    case TnmM => 5
    case TnmComplete => 6
    case Histology => 7
    case EgfrMutation => 8
    case AlkStatus => 9
    case Pdl1Percentage => 10
    case Pdl1Category => 11
    case Fev1Percentage => 12
    case Fev1Category => 13
    case DlcoPercentage => 14
    case DlcoCategory => 15
    case ClinicalStage => 16
    case SmokingStatus => 17
    case DiagnosisDate => 18
    case _ => -1
  }

  /** The breast record has 17 distinct keys and the lung record 19. */
  lemma SchemaSizes()
    ensures |BreastSchema| == 17 && Distinct(BreastSchema)
    ensures |LungSchema| == 19 && Distinct(LungSchema)
  {
    DistinctByPosition(BreastSchema, BreastPosition);
    DistinctByPosition(LungSchema, LungPosition);
  }

  /** Number of records whose `f` is not `None`. */
  function CountPresent(records: seq<Record>, f: Field): nat {
    if records == [] then 0
    else CountPresent(records[..|records| - 1], f) + (if Get(records[|records| - 1], f) != Null then 1 else 0)
  }

  /** A count never exceeds the number of records, and it reaches it exactly
      when every record has the field. */
  lemma {:induction false} CountPresentBounds(records: seq<Record>, f: Field)
    ensures CountPresent(records, f) <= |records|
    ensures CountPresent(records, f) == |records| <==> forall i :: 0 <= i < |records| ==> Get(records[i], f) != Null
  {
    if records != [] {
      var init := records[..|records| - 1];
      CountPresentBounds(init, f);
      assert forall i :: 0 <= i < |init| ==> init[i] == records[i];
    }
  }

  /** Counting splits over a concatenation, so the count does not depend on
      how the dataset is partitioned. */
  lemma {:induction false} CountPresentAppend(a: seq<Record>, b: seq<Record>, f: Field)
    ensures CountPresent(a + b, f) == CountPresent(a, f) + CountPresent(b, f)
  {
    if b != [] {
      var init := b[..|b| - 1];
      assert (a + b)[..|a + b| - 1] == a + init;
      CountPresentAppend(a, init, f);
    } else {
      assert a + b == a;
    }
  }

  /** The completeness table of `print_summary`: for each key of the first
      record except `patient_id`, the number of records where it is not
      `None`. An empty list gives no table. */
  method FieldCounts(records: seq<Record>) returns (counts: map<Field, nat>)
    ensures records == [] ==> counts == map[]
    ensures records != [] ==> counts.Keys == records[0].Keys - {PatientId}
    ensures forall f :: f in counts ==> counts[f] == CountPresent(records, f)
  {
    counts := map[];
    if records == [] {
      return;
    }
    var pending := records[0].Keys - {PatientId};
    while pending != {}
      invariant pending <= records[0].Keys - {PatientId}
      invariant counts.Keys == records[0].Keys - {PatientId} - pending
      invariant forall f :: f in counts ==> counts[f] == CountPresent(records, f)
      decreases pending
    {
      var f :| f in pending;
      var count := 0;
      var i := 0;
      while i < |records|
        invariant 0 <= i <= |records|
        invariant count == CountPresent(records[..i], f)
      {
        assert records[..i + 1][..i] == records[..i];
        if Get(records[i], f) != Null {
          count := count + 1;
        }
        i := i + 1;
      }
      assert records[..i] == records;
      counts := counts[f := count];
      pending := pending - {f};
    }
  }
}
