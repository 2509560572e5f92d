/**
 * The scalar carried by an Observation's `value[x]` choice element, looked
 * up in a fixed priority: `valueQuantity`, then `valueCodeableConcept`, then
 * `valueString`.
 */
module ValueResolver {
  import opened Wrappers
  import opened Fhir

  /** `extract_value_from_observation`. Any other resource has none of the
      three keys, so its value is `None`. */
  function ExtractValue(r: Resource): (v: Result<Value, PyError>)
    // A quantity wins over every other representation, and its unit is dropped.
    ensures r.Observation? && r.valueQuantity.Some? ==> v == Success(OfNum(r.valueQuantity.value.value))
    // Only a quantity yields a number.
    ensures v.Success? && v.value.Num? ==> r.Observation? && r.valueQuantity.Some?
    // Without a quantity, a coded value yields the display of its first coding.
    ensures r.Observation? && r.valueQuantity.None? && r.valueCodeableConcept.Some? && v.Success? ==>
              FirstCoding(r.valueCodeableConcept).Success? &&
              v.value == OfStr(FirstCoding(r.valueCodeableConcept).value.display)
    // The free-text value is used only when neither earlier key is present.
    ensures r.Observation? && r.valueQuantity.None? && r.valueCodeableConcept.None? ==> v == Success(OfStr(r.valueString))
    // The lookup fails only on a coded value whose `coding` list is empty.
    ensures v.Failure? <==> r.Observation? && r.valueQuantity.None? && r.valueCodeableConcept.Some? &&
                              r.valueCodeableConcept.value.coding == Some([])
    ensures !r.Observation? ==> v == Success(Null)
  {
    match r
    case Observation(_, quantity, concept, text) =>
      if quantity.Some? then Success(OfNum(quantity.value.value))
      else if concept.Some? then
        match FirstCoding(concept)
        case Failure(e) => Failure(e)
        case Success(c) => Success(OfStr(c.display))
      else Success(OfStr(text))
    case _ => Success(Null)
  }
}
