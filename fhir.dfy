/**
 * The part of an HL7 FHIR R4 patient bundle the scripts read, with every
 * element at its FHIR type and every optional element an Option (a key that
 * may be absent from the JSON object), and the scalar values that end up in
 * an extracted record.
 */
module Fhir {
  import opened Wrappers
  import opened Text

  /** A record cell: Python's `None`, a JSON number, or a string. */
  datatype Value = Null | Num(n: real) | Str(s: string)

  /** Python truthiness of a cell: `None`, `0` and `""` are false. */
  predicate Truthy(v: Value) {
    match v
    case Null => false
    case Num(x) => x != 0.0
    case Str(s) => s != ""
  }

  function OfNum(o: Option<real>): Value {
    match o
    case None => Null
    case Some(x) => Num(x)
  }

  function OfStr(o: Option<string>): Value {
    match o
    case None => Null
    case Some(s) => Str(s)
  }

  /** `float(value)`; `None` is never converted because it is falsy. */
  function AsReal(v: Value): Option<real> {
    match v
    case Null => None
    case Num(x) => Some(x)
    case Str(s) => ParseReal(s)
  }

  datatype Coding = Coding(code: Option<string>, display: Option<string>)

  datatype CodeableConcept = CodeableConcept(coding: Option<seq<Coding>>, text: Option<string>)

  datatype Quantity = Quantity(value: Option<real>, unit: Option<string>)

  /** One `entry[].resource`, told apart by its `resourceType`. */
  datatype Resource =
    | Patient(id: Option<string>, gender: Option<string>, birthDate: Option<string>)
    | Condition(code: Option<CodeableConcept>, onsetDateTime: Option<string>)
    | Observation(code: Option<CodeableConcept>,
                  valueQuantity: Option<Quantity>,
                  valueCodeableConcept: Option<CodeableConcept>,
                  valueString: Option<string>)
    | OtherResource

  datatype Bundle = Bundle(entries: seq<Resource>)

  /** A `*.json` file of the bundle directory; `bundle` is `None` when the
      file could not be opened or parsed. */
  datatype PatientFile = PatientFile(stem: string, bundle: Option<Bundle>)

  datatype CancerType = Breast | Lung

  /** The Python exceptions the two scripts can raise. */
  datatype PyError = IndexError | ValueError

  /** Run-level outcomes that stop a script: an empty bundle directory
      (`sys.exit(1)`) or an exception nobody catches. */
  datatype RunError = NoPatientFiles | Crashed(error: PyError)

  const EmptyCoding := Coding(None, None)

  /** `concept.get('coding', [{}])[0]`, with `concept` defaulting to `{}`:
      a missing list gives an empty coding, an empty list raises. */
  function FirstCoding(concept: Option<CodeableConcept>): (r: Result<Coding, PyError>)
    ensures r.Failure? <==> concept.Some? && concept.value.coding == Some([])
    ensures r.Failure? ==> r.error == IndexError
    ensures r.Success? && concept.Some? && concept.value.coding.Some? ==> r.value == concept.value.coding.value[0]
    ensures r.Success? && (concept.None? || concept.value.coding.None?) ==> r.value == EmptyCoding
  {
    match concept
    case None => Success(EmptyCoding)
    case Some(cc) =>
      match cc.coding
      case None => Success(EmptyCoding)
      case Some(cs) => if cs == [] then Failure(IndexError) else Success(cs[0])
  }

  /** `concept.get('coding', [])`, with `concept` defaulting to `{}`. */
  function Codings(concept: Option<CodeableConcept>): seq<Coding> {
    match concept
    case None => []
    case Some(cc) => cc.coding.GetOr([])
  }

  /** `coding.get('display', '').lower()`. */
  function LowerDisplay(c: Coding): string {
    Lower(c.display.GetOr(""))
  }
}
