/**
 * The batch fetcher `get_data_components_by_id_and_version` made by
 * `factory_get_data_components_by_id_and_version`: one query for all the
 * requested ids, guarded by an empty-input short cut, an error check and a
 * row-count check, then each row mapped to a `PartialDataComponent`.
 * The database query is a parameter: its outcome for a given id list.
 */
module FetchPartials {
  import opened Wrappers
  import opened Ids
  import opened Errors
  import opened Components

  /** A row of `data_components_history` as selected: dependency ids as canonical keys. */
  datatype Row = Row(id: int, version_number: int, value_type: Option<string>, recursive_dependency_ids: seq<string>)

  datatype QueryResult = QueryError(message: string) | Rows(rows: seq<Row>)

  /** The query `select ... or(<one clause per id>)` on the history table. */
  type Query = seq<IdAndVersion> -> QueryResult

  predicate WellFormedKeys(keys: seq<string>)
  {
    forall i :: 0 <= i < |keys| ==> FromStr(keys[i]).Some?
  }

  /** Reads every key in order; the first malformed key fails the whole list. */
  function ReadKeys(keys: seq<string>): (r: Result<seq<IdAndVersion>, Failure>)
    ensures r.Success? <==> WellFormedKeys(keys)
    ensures r.Success? ==> |r.value| == |keys| && forall i :: 0 <= i < |keys| ==> FromStr(keys[i]) == Some(r.value[i])
  {
    if keys == [] then Success([])
    else
      match FromStr(keys[0])
      case None => Failure(MalformedStoredId(keys[0]))
      case Some(first) =>
        match ReadKeys(keys[1..])
        case Failure(e) => Failure(e)
        case Success(rest) => Success([first] + rest)
  }

  /**
   * `hydrate_list_of_ids`: an empty stored list reads as undefined, any other
   * list as the ids its keys spell.
   */
  function HydrateListOfIds(keys: seq<string>): Result<Option<seq<IdAndVersion>>, Failure>
  {
    if keys == [] then Success(None)
    else
      match ReadKeys(keys)
      case Failure(e) => Failure(e)
      case Success(ids) => Success(Some(ids))
  }

  /** Stored canonical keys hydrate back to the very ids they were written from. */
  lemma HydrateStoredKeys(ids: seq<IdAndVersion>)
    ensures HydrateListOfIds(Keys(ids)) == Success(if ids == [] then None else Some(ids))
  {
    var keys := Keys(ids);
    forall i | 0 <= i < |ids| ensures FromStr(keys[i]) == Some(ids[i]) {
      FromStrToStr(ids[i]);
    }
    if ids != [] {
      var read := ReadKeys(keys);
      assert read.Success?;
      assert read.value == ids;
    }
  }

  /** Each partial is the row it came from: same id, version, type and dependency ids. */
  predicate Hydrates(rows: seq<Row>, partials: seq<PartialDataComponent>)
  {
    && |rows| == |partials|
    && forall i :: 0 <= i < |rows| ==>
         && partials[i].id == IdAndVersion(rows[i].id, rows[i].version_number)
         && partials[i].value_type == rows[i].value_type
         && HydrateListOfIds(rows[i].recursive_dependency_ids) == Success(partials[i].recursive_dependency_ids)
  }

  predicate RowsWellFormed(rows: seq<Row>)
  {
    forall i :: 0 <= i < |rows| ==> WellFormedKeys(rows[i].recursive_dependency_ids)
  }

  /** `data.map(dc => ({ id, value_type, recursive_dependency_ids }))`, in row order. */
  function HydrateRows(rows: seq<Row>): (r: Result<seq<PartialDataComponent>, Failure>)
    ensures r.Success? <==> RowsWellFormed(rows)
    ensures r.Success? ==> Hydrates(rows, r.value)
  {
    if rows == [] then Success([])
    else
      var row := rows[0];
      match HydrateListOfIds(row.recursive_dependency_ids)
      case Failure(e) => Failure(e)
      case Success(dependencies) =>
        match HydrateRows(rows[1..])
        case Failure(e) => Failure(e)
        case Success(rest) =>
          Success([PartialDataComponent(IdAndVersion(row.id, row.version_number), row.value_type, dependencies)] + rest)
  }

  function GetDataComponentsByIdAndVersion(ids: seq<IdAndVersion>, query: Query): (r: Result<seq<PartialDataComponent>, Failure>)
    ensures ids == [] ==> r == Success([])
    ensures ids != [] && query(ids).QueryError? ==> r == Failure(Thrown(ERR37))
    ensures ids != [] && query(ids).Rows? && |query(ids).rows| != |ids| ==> r == Failure(Thrown(ERR38))
    ensures ids != [] && query(ids).Rows? && |query(ids).rows| == |ids| ==>
              (r.Success? <==> RowsWellFormed(query(ids).rows))
    ensures r.Success? && ids != [] ==> query(ids).Rows? && |r.value| == |ids| && Hydrates(query(ids).rows, r.value)
  {
    if |ids| == 0 then Success([])
    else
      match query(ids)
      case QueryError(_) => Failure(Thrown(ERR37))
      case Rows(rows) =>
        if |rows| != |ids| then Failure(Thrown(ERR38))
        else HydrateRows(rows)
  }

  /** An empty request never consults the database. */
  lemma EmptyRequestSkipsQuery(query: Query, query': Query)
    ensures GetDataComponentsByIdAndVersion([], query) == GetDataComponentsByIdAndVersion([], query')
  {
  }

  /**
   * The count check compares lengths only: rows for ids other than the
   * requested ones are accepted as long as there are as many of them.
   */
  lemma CountCheckIgnoresWhichIds(ids: seq<IdAndVersion>, query: Query)
    requires ids != [] && query(ids).Rows? && |query(ids).rows| == |ids| && RowsWellFormed(query(ids).rows)
    requires forall i :: 0 <= i < |ids| ==> IdAndVersion(query(ids).rows[i].id, query(ids).rows[i].version_number) !in ids
    ensures GetDataComponentsByIdAndVersion(ids, query).Success?
  {
  }

  /** The example rows of the fetcher's own tests: "5v1" hydrates to id 5, an empty list to undefined. */
  lemma HydrateExampleRows()
    ensures HydrateRows([Row(1, 2, Some("number"), ["5v1"]), Row(3, 4, Some("string"), [])])
            == Success([PartialDataComponent(IdAndVersion(1, 2), Some("number"), Some([IdAndVersion(5, 1)])),
                        PartialDataComponent(IdAndVersion(3, 4), Some("string"), None)])
  {
    HydrateStoredKeys([IdAndVersion(5, 1)]);
    assert ToStr(IdAndVersion(5, 1)) == "5v1";
    assert Keys([IdAndVersion(5, 1)]) == ["5v1"];
    assert HydrateListOfIds(["5v1"]) == Success(Some([IdAndVersion(5, 1)]));
    var tail := [Row(3, 4, Some("string"), [])];
    assert tail[1..] == [];
    assert HydrateRows(tail[1..]) == Success([]);
    var p := PartialDataComponent(IdAndVersion(3, 4), Some("string"), None);
    assert HydrateRows(tail) == Success([p] + []);
    assert [p] + [] == [p];
    assert HydrateListOfIds(tail[0].recursive_dependency_ids) == Success(None);
    assert HydrateRows(tail) == Success([PartialDataComponent(IdAndVersion(3, 4), Some("string"), None)]);
    var rows := [Row(1, 2, Some("number"), ["5v1"])] + tail;
    assert rows[1..] == tail;
    var first := PartialDataComponent(IdAndVersion(1, 2), Some("number"), Some([IdAndVersion(5, 1)]));
    assert HydrateRows(rows) == Success([first] + [p]);
    assert rows == [Row(1, 2, Some("number"), ["5v1"]), Row(3, 4, Some("string"), [])];
    assert [first] + [p] == [first, p];
  }
}
