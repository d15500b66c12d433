/**
 * `prepare_data_component_for_db_insert` and `..._update`: resolve the
 * dependency ids and write them onto the component, evaluate its result
 * value, flatten it, project title and description to plain text, and lay
 * the fields out as the argument record of the insert or update call.
 *
 * The evaluator, the flattening to a database row and the plain-text
 * projection are collaborators held in a `Pipeline`, together with the
 * resolver's extractor and fetch.
 */
module Prepare {
  import opened Wrappers
  import opened JsValue
  import opened Ids
  import opened Errors
  import opened Components
  import opened Dependencies
  import FetchPartials

  /** What `calculate_result_value` answers: nothing, or a result and an error field. */
  datatype EvalResponse = NoResponse | EvalResponse(result: Value, error: Value)

  /** The fields of a flattened database row. */
  datatype RowField =
    | Id | VersionNumber | OwnerId | EditorId | CreatedAt
    | Comment | BytesChanged | VersionType | VersionRolledBackTo
    | Title | Description | LabelIds | InputValue | ResultValueField
    | RecursiveDependencyIds | ValueType | ValueNumberDisplayType | ValueNumberSigFigs
    | DatetimeRangeStart | DatetimeRangeEnd | DatetimeRepeatEvery
    | Units | DimensionIds | FunctionArguments | Scenarios | TestRunId
    | PlainTitle | PlainDescription

  /** A flattened row: the fields the flattening wrote, with their values. */
  type Row = map<RowField, Value>

  /**
   * The keys of an argument record: `p_<field>` for a field copied from the
   * row, and the keys whose values are computed here.
   */
  datatype ArgKey = P(field: RowField) | PResultValue | PPlainTitle | PPlainDescription | PId | PVersionNumber

  type Record = map<ArgKey, Value>

  datatype Pipeline = Pipeline(
    extract: Extractor,
    fetch: Fetch,
    policy: DuplicatePolicy,
    evaluate: DataComponent -> EvalResponse,
    flatten: DataComponent -> Row,
    toPlain: Value -> string)

  /** The row fields copied into the insert record. */
  const CopiedFields: set<RowField> := {
    OwnerId, Comment, BytesChanged, VersionType, VersionRolledBackTo,
    Title, Description, LabelIds, InputValue, RecursiveDependencyIds,
    ValueType, ValueNumberDisplayType, ValueNumberSigFigs,
    DatetimeRangeStart, DatetimeRangeEnd, DatetimeRepeatEvery,
    Units, DimensionIds, FunctionArguments, Scenarios, TestRunId
  }

  /** A row field copied into the insert record: everything but the identity, editor, timestamps and computed fields. */
  predicate IsCopied(f: RowField)
  {
    !(f == Id || f == VersionNumber || f == EditorId || f == CreatedAt
      || f == ResultValueField || f == PlainTitle || f == PlainDescription)
  }

  /** A key of the insert argument record. */
  predicate IsInsertKey(k: ArgKey)
  {
    match k
    case P(f) => IsCopied(f)
    case PVersionNumber => false
    case _ => true
  }

  /** A key of the update argument record: no owner, no test run, but a version number. */
  predicate IsUpdateKey(k: ArgKey)
  {
    match k
    case P(f) => IsCopied(f) && f != OwnerId && f != TestRunId
    case _ => true
  }

  /** `row.<field>`: a field the flattening did not write reads as undefined. */
  function Field(row: Row, f: RowField): Value
  {
    if f in row then row[f] else Undefined
  }

  /** `if (result_value_response?.error)`: only a truthy error aborts. */
  predicate EvaluationFailed(response: EvalResponse)
  {
    response.EvalResponse? && Truthy(response.error)
  }

  /** `result_value_response?.result ?? null`. */
  function ResultValue(response: EvalResponse): Value
  {
    if response.NoResponse? || response.result == Undefined || response.result == Null then Null
    else response.result
  }

  /** `let p_id = null; if ("id" in row) p_id = row.id`. */
  function RowId(row: Row): Value
  {
    if Id in row then row[Id] else Null
  }

  /** The row fields copied under their `p_` keys. */
  function CopiedRecord(row: Row): Record
  {
    map f | f in CopiedFields :: P(f) := Field(row, f)
  }

  /** The insert argument record laid out from the flattened row and the computed values. */
  function InsertRecord(row: Row, resultValue: Value, pId: Value, plainTitle: string, plainDescription: string): Record
  {
    CopiedRecord(row)
      [PResultValue := resultValue]
      [PPlainTitle := Str(plainTitle)]
      [PPlainDescription := Str(plainDescription)]
      [PId := pId]
  }

  /** The component after its resolved dependency ids are written onto it. */
  function AfterResolution(c: DataComponent, p: Pipeline): DataComponent
  {
    match Resolve(c, p.extract, p.fetch, p.policy)
    case Success(ids) => c.(recursive_dependency_ids := Some(ids))
    case Failure(_) => c
  }

  /** The insert record a component yields, or the error that aborts it. */
  function InsertArgsFor(c: DataComponent, p: Pipeline): Result<Record, Failure>
  {
    match Resolve(c, p.extract, p.fetch, p.policy)
    case Failure(e) => Failure(e)
    case Success(ids) =>
      var resolved := c.(recursive_dependency_ids := Some(ids));
      var response := p.evaluate(resolved);
      if EvaluationFailed(response) then Failure(Thrown(ERR27))
      else
        var row := p.flatten(resolved);
        Success(InsertRecord(row, ResultValue(response), RowId(row),
                             p.toPlain(Field(row, Title)), p.toPlain(Field(row, Description))))
  }

  /** The update record: the insert record without owner, test run and insert id, keyed by the component's id. */
  function UpdateFromInsert(insert: Record, id: IdAndVersion): Record
  {
    (insert - {P(TestRunId), PId, P(OwnerId)})
      [PId := Num(id.id)]
      [PVersionNumber := Num(id.version)]
  }

  function UpdateArgsFor(c: DataComponent, p: Pipeline): Result<Record, Failure>
    requires c.id.Some?
  {
    match InsertArgsFor(c, p)
    case Failure(e) => Failure(e)
    case Success(insert) => Success(UpdateFromInsert(insert, c.id.value))
  }

  /** The data component object handed to the preparers, which write its dependency ids in place. */
  class DataComponentObject {
    var value: DataComponent

    constructor (c: DataComponent)
      ensures value == c
    {
      value := c;
    }
  }

  method PrepareInsert(dc: DataComponentObject, p: Pipeline) returns (r: Result<Record, Failure>)
    modifies dc
    ensures r == InsertArgsFor(old(dc.value), p)
    ensures dc.value == AfterResolution(old(dc.value), p)
  {
    var resolved := Resolve(dc.value, p.extract, p.fetch, p.policy);
    if resolved.Failure? {
      return Failure(resolved.error);
    }
    dc.value := dc.value.(recursive_dependency_ids := Some(resolved.value));

    var response := p.evaluate(dc.value);
    if EvaluationFailed(response) {
      return Failure(Thrown(ERR27));
    }
    var resultValue := ResultValue(response);

    var row := p.flatten(dc.value);
    var pId := Null;
    if Id in row {
      pId := row[Id];
    }
    var plainTitle := p.toPlain(Field(row, Title));
    var plainDescription := p.toPlain(Field(row, Description));
    r := Success(InsertRecord(row, resultValue, pId, plainTitle, plainDescription));
  }

  method PrepareUpdate(dc: DataComponentObject, p: Pipeline) returns (r: Result<Record, Failure>)
    requires dc.value.id.Some?
    modifies dc
    ensures r == UpdateArgsFor(old(dc.value), p)
    ensures dc.value == AfterResolution(old(dc.value), p)
  {
    var insert := PrepareInsert(dc, p);
    if insert.Failure? {
      return Failure(insert.error);
    }
    r := Success(UpdateFromInsert(insert.value, dc.value.id.value));
  }

  // ---------------------------------------------------------------- properties

  /** The copied fields are exactly the row fields other than identity, editor, timestamps and computed values. */
  lemma CopiedFieldsExactly()
    ensures forall f :: f in CopiedFields <==> IsCopied(f)
  {
    forall f | IsCopied(f) ensures f in CopiedFields { }
  }

  /** Every key of the copied part is the `p_` key of a copied field. */
  lemma CopiedRecordOnlyCopied(row: Row)
    ensures forall k :: k in CopiedRecord(row) ==> k.P? && IsCopied(k.field)
  {
    CopiedFieldsExactly();
    forall k | k in CopiedRecord(row) ensures k.P? && IsCopied(k.field) {
      var f :| f in CopiedFields && k == P(f);
    }
  }

  /** Every copied field is in the copied part, under its `p_` key, with the row's value. */
  lemma CopiedRecordHoldsRow(row: Row)
    ensures forall f :: f in CopiedFields ==> P(f) in CopiedRecord(row) && CopiedRecord(row)[P(f)] == Field(row, f)
  {
    forall f | f in CopiedFields ensures P(f) in CopiedRecord(row) && CopiedRecord(row)[P(f)] == Field(row, f) {
      assert P(f).field == f;
    }
  }

  /** The copied part of the record: one `p_` key per copied field, holding that field of the row. */
  lemma CopiedRecordShape(row: Row)
    ensures forall k :: k in CopiedRecord(row) <==> k.P? && IsCopied(k.field)
    ensures forall f :: f in CopiedFields ==> P(f) in CopiedRecord(row) && CopiedRecord(row)[P(f)] == Field(row, f)
  {
    CopiedRecordOnlyCopied(row);
    CopiedRecordHoldsRow(row);
    CopiedFieldsExactly();
    forall k: ArgKey | k.P? && IsCopied(k.field) ensures k in CopiedRecord(row) {
      assert k == P(k.field);
    }
  }

  /** Adding the computed keys to a record of `p_` keys keeps every `p_` entry and adds exactly the four computed ones. */
  lemma ComputedKeysAdded(copied: Record, resultValue: Value, pId: Value, plainTitle: string, plainDescription: string)
    requires forall k :: k in copied ==> k.P?
    ensures var rec := copied[PResultValue := resultValue][PPlainTitle := Str(plainTitle)]
                             [PPlainDescription := Str(plainDescription)][PId := pId];
      && (forall k :: k in rec <==> k in copied || k == PResultValue || k == PPlainTitle || k == PPlainDescription || k == PId)
      && (forall k :: k in copied ==> rec[k] == copied[k])
      && rec[PResultValue] == resultValue
      && rec[PPlainTitle] == Str(plainTitle)
      && rec[PPlainDescription] == Str(plainDescription)
      && rec[PId] == pId
  {
  }

  /** A record holding exactly the copied `p_` keys, with the computed keys added, holds exactly the insert keys. */
  lemma InsertKeysFromCopied(copied: Record, resultValue: Value, pId: Value, plainTitle: string, plainDescription: string)
    requires forall k :: k in copied <==> k.P? && IsCopied(k.field)
    ensures var rec := copied[PResultValue := resultValue][PPlainTitle := Str(plainTitle)]
                             [PPlainDescription := Str(plainDescription)][PId := pId];
      forall k :: k in rec <==> IsInsertKey(k)
  {
  }

  /** The insert record has exactly the insert keys: never a version number, editor or creation time. */
  lemma InsertRecordKeys(row: Row, resultValue: Value, pId: Value, plainTitle: string, plainDescription: string)
    ensures forall k :: k in InsertRecord(row, resultValue, pId, plainTitle, plainDescription) <==> IsInsertKey(k)
  {
    CopiedRecordShape(row);
    InsertKeysFromCopied(CopiedRecord(row), resultValue, pId, plainTitle, plainDescription);
  }

  /**
   * The insert record carries every copied row field unchanged under its
   * `p_` key, the evaluator's result, the plain-text title and description,
   * and the id it was given.
   */
  lemma InsertRecordValues(row: Row, resultValue: Value, pId: Value, plainTitle: string, plainDescription: string)
    ensures var rec := InsertRecord(row, resultValue, pId, plainTitle, plainDescription);
      && (forall f :: f in CopiedFields ==> P(f) in rec && rec[P(f)] == Field(row, f))
      && rec[PResultValue] == resultValue
      && rec[PPlainTitle] == Str(plainTitle)
      && rec[PPlainDescription] == Str(plainDescription)
      && rec[PId] == pId
  {
    CopiedRecordShape(row);
    ComputedKeysAdded(CopiedRecord(row), resultValue, pId, plainTitle, plainDescription);
  }

  /** A failed resolution aborts the insert with the same failure, before anything is evaluated. */
  lemma ResolutionFailureAborts(c: DataComponent, p: Pipeline)
    requires Resolve(c, p.extract, p.fetch, p.policy).Failure?
    ensures InsertArgsFor(c, p) == Failure(Resolve(c, p.extract, p.fetch, p.policy).error)
    ensures AfterResolution(c, p) == c
  {
  }

  /**
   * The evaluator sees the component with its resolved ids; a truthy error
   * from it aborts the insert with ERR27, and a falsy error field does not.
   */
  lemma EvaluationErrorAborts(c: DataComponent, p: Pipeline)
    requires Resolve(c, p.extract, p.fetch, p.policy).Success?
    ensures EvaluationFailed(p.evaluate(AfterResolution(c, p))) <==> InsertArgsFor(c, p) == Failure(Thrown(ERR27))
    ensures !EvaluationFailed(p.evaluate(AfterResolution(c, p))) <==> InsertArgsFor(c, p).Success?
  {
  }

  /** `p_result_value` is the evaluator's result, or null when it gave none. */
  lemma ResultValueOrNull(response: EvalResponse)
    ensures response.NoResponse? ==> ResultValue(response) == Null
    ensures response.EvalResponse? && response.result != Undefined ==> ResultValue(response) == response.result
    ensures ResultValue(response) != Undefined
  {
  }

  /** A list of ids as the flattened row holds it: the array of their canonical keys. */
  function StoredKeyArray(ids: seq<IdAndVersion>): Value
  {
    Arr(seq(|ids|, i requires 0 <= i < |ids| => Str(Keys(ids)[i])))
  }

  /** The flattening writes a component's dependency ids as the array of their canonical keys. */
  ghost predicate FlattenStoresKeys(flatten: DataComponent -> Row)
  {
    forall c: DataComponent :: c.recursive_dependency_ids.Some? ==>
      Field(flatten(c), RecursiveDependencyIds) == StoredKeyArray(c.recursive_dependency_ids.value)
  }

  /**
   * A successful insert writes the resolver's ids onto the component and
   * emits them as `p_recursive_dependency_ids`; hydrating those keys gives
   * the very ids back.
   */
  lemma InsertStoresResolvedIds(c: DataComponent, p: Pipeline)
    requires FlattenStoresKeys(p.flatten)
    requires InsertArgsFor(c, p).Success?
    ensures Resolve(c, p.extract, p.fetch, p.policy).Success?
    ensures var ids := Resolve(c, p.extract, p.fetch, p.policy).value;
      && AfterResolution(c, p).recursive_dependency_ids == Some(ids)
      && InsertArgsFor(c, p).value[P(RecursiveDependencyIds)] == StoredKeyArray(ids)
      && FetchPartials.HydrateListOfIds(Keys(ids)) == Success(if ids == [] then None else Some(ids))
  {
    var ids := Resolve(c, p.extract, p.fetch, p.policy).value;
    var resolved := AfterResolution(c, p);
    assert resolved == c.(recursive_dependency_ids := Some(ids));
    var response := p.evaluate(resolved);
    var row := p.flatten(resolved);
    var rec := InsertRecord(row, ResultValue(response), RowId(row),
                            p.toPlain(Field(row, Title)), p.toPlain(Field(row, Description)));
    assert InsertArgsFor(c, p) == Success(rec);
    InsertRecordValues(row, ResultValue(response), RowId(row),
                       p.toPlain(Field(row, Title)), p.toPlain(Field(row, Description)));
    assert RecursiveDependencyIds in CopiedFields;
    assert rec[P(RecursiveDependencyIds)] == Field(row, RecursiveDependencyIds);
    assert Field(row, RecursiveDependencyIds) == StoredKeyArray(ids);
    FetchPartials.HydrateStoredKeys(ids);
  }

  /**
   * The update record drops owner, test run and the insert id, keys the
   * record by the component's id and version, and leaves every other field
   * as the insert record had it.
   */
  lemma UpdateRecordLayout(insert: Record, id: IdAndVersion)
    requires forall k :: k in insert <==> IsInsertKey(k)
    ensures var update := UpdateFromInsert(insert, id);
      && (forall k :: k in update <==> IsUpdateKey(k))
      && update[PId] == Num(id.id)
      && update[PVersionNumber] == Num(id.version)
      && (forall k :: k in update && k != PId && k != PVersionNumber ==> k in insert && update[k] == insert[k])
  {
  }

  /** The update succeeds exactly when the insert does, and fails with the same error. */
  lemma UpdateFollowsInsert(c: DataComponent, p: Pipeline)
    requires c.id.Some?
    ensures UpdateArgsFor(c, p).Success? <==> InsertArgsFor(c, p).Success?
    ensures InsertArgsFor(c, p).Failure? ==> UpdateArgsFor(c, p) == Failure(InsertArgsFor(c, p).error)
    ensures InsertArgsFor(c, p).Success? ==>
      (forall k :: k in UpdateArgsFor(c, p).value <==> IsUpdateKey(k))
  {
    if InsertArgsFor(c, p).Success? {
      var resolved := AfterResolution(c, p);
      var row := p.flatten(resolved);
      InsertRecordKeys(row, ResultValue(p.evaluate(resolved)), RowId(row),
                       p.toPlain(Field(row, Title)), p.toPlain(Field(row, Description)));
      UpdateRecordLayout(InsertArgsFor(c, p).value, c.id.value);
    }
  }
}
