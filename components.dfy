/**
 * The data-component records the pipeline works on. Only the fields the
 * pipeline itself reads are spelled out; every other authored field (title,
 * description, labels, units, display settings, ...) travels in `authored`
 * and is read only by the flattening collaborator.
 */
module Components {
  import opened Wrappers
  import opened JsValue
  import opened Ids

  /** `function_arguments[i]`: a named parameter with an optional default. */
  datatype FunctionArgument = FunctionArgument(id: int, name: string, default_value: Option<string>)

  /**
   * A data component as submitted: `id` is absent on a new component,
   * `value_type` is absent (undefined) or a type name such as "number" or
   * "function", `input_value` holds the authored rich text.
   */
  datatype DataComponent = DataComponent(
    id: Option<IdAndVersion>,
    value_type: Option<string>,
    input_value: Option<string>,
    function_arguments: seq<FunctionArgument>,
    recursive_dependency_ids: Option<seq<IdAndVersion>>,
    authored: map<string, Value>)

  /** The projection fetched to resolve dependencies without loading whole rows. */
  datatype PartialDataComponent = PartialDataComponent(
    id: IdAndVersion,
    value_type: Option<string>,
    recursive_dependency_ids: Option<seq<IdAndVersion>>)

  predicate IsFunction(value_type: Option<string>)
  {
    value_type == Some("function")
  }

  /** `input_value || ""`: an absent input reads as empty text. */
  function InputText(input_value: Option<string>): string
  {
    match input_value
    case Some(text) => text
    case None => ""
  }
}
