/**
 * `get_recursive_dependency_ids`: the dependency ids stored with a data
 * component. A non-function component stores its direct references (the
 * mentions in its `input_value`, in document order). A function component
 * stores, for each direct reference in turn, that target's own stored
 * `recursive_dependency_ids` when the target is itself a function, followed
 * by the target. Non-function targets cache their result, so nothing is
 * pulled in through them.
 *
 * The mention extractor and the batch fetch are parameters. How repeated ids
 * are treated is an explicit `DuplicatePolicy`: kept as found, or reduced to
 * the first-seen ordered-unique list.
 */
module Dependencies {
  import opened Wrappers
  import opened JsValue
  import opened Ids
  import opened Errors
  import opened Components

  /** The rich-text mention extractor: the ids mentioned in a text, in document order. */
  type Extractor = string -> seq<IdAndVersion>

  /** The batch fetch of partial components, one call for a whole id list. */
  type Fetch = seq<IdAndVersion> -> Result<seq<PartialDataComponent>, Failure>

  datatype DuplicatePolicy = KeepRepeats | FirstSeenOnly

  function ApplyPolicy(policy: DuplicatePolicy, ids: seq<IdAndVersion>): seq<IdAndVersion>
  {
    match policy
    case KeepRepeats => ids
    case FirstSeenOnly => FirstSeen(ids)
  }

  function DirectReferences(c: DataComponent, extract: Extractor): seq<IdAndVersion>
  {
    extract(InputText(c.input_value))
  }

  /** The first fetched partial with the given id. */
  function Lookup(fetched: seq<PartialDataComponent>, ref: IdAndVersion): (r: Option<PartialDataComponent>)
    ensures r.Some? ==> r.value in fetched && r.value.id == ref
    ensures r.None? ==> forall k :: 0 <= k < |fetched| ==> fetched[k].id != ref
  {
    if fetched == [] then None
    else if fetched[0].id == ref then Some(fetched[0])
    else Lookup(fetched[1..], ref)
  }

  function StoredDependencies(p: PartialDataComponent): seq<IdAndVersion>
  {
    match p.recursive_dependency_ids
    case None => []
    case Some(ids) => ids
  }

  /** True when the reference's target was fetched and is a function. */
  predicate IsFunctionTarget(fetched: seq<PartialDataComponent>, ref: IdAndVersion)
  {
    Lookup(fetched, ref).Some? && IsFunction(Lookup(fetched, ref).value.value_type)
  }

  /** What one direct reference adds: a function target's stored ids, then the target itself. */
  function Contribution(fetched: seq<PartialDataComponent>, ref: IdAndVersion): seq<IdAndVersion>
  {
    if IsFunctionTarget(fetched, ref) then StoredDependencies(Lookup(fetched, ref).value) + [ref] else [ref]
  }

  /** The contributions of the direct references, in their order. */
  function Closure(fetched: seq<PartialDataComponent>, direct: seq<IdAndVersion>): seq<IdAndVersion>
  {
    if direct == [] then [] else Contribution(fetched, direct[0]) + Closure(fetched, direct[1..])
  }

  /**
   * The ids a component stores. Resolution fails only through the fetch, and
   * every direct reference is among the stored ids.
   */
  function Resolve(c: DataComponent, extract: Extractor, fetch: Fetch, policy: DuplicatePolicy): (r: Result<seq<IdAndVersion>, Failure>)
    ensures r.Failure? ==>
      IsFunction(c.value_type) && DirectReferences(c, extract) != [] && fetch(DirectReferences(c, extract)).Failure?
    ensures r.Success? ==> forall x :: x in DirectReferences(c, extract) ==> x in r.value
  {
    var direct := DirectReferences(c, extract);
    if !IsFunction(c.value_type) then
      PolicyKeepsMembers(policy, direct);
      Success(ApplyPolicy(policy, direct))
    else if direct == [] then Success([])
    else
      match fetch(direct)
      case Failure(e) => Failure(e)
      case Success(fetched) =>
        DirectInClosure(fetched, direct);
        PolicyKeepsMembers(policy, Closure(fetched, direct));
        Success(ApplyPolicy(policy, Closure(fetched, direct)))
  }

  /** Either policy keeps exactly the ids it is given. */
  lemma PolicyKeepsMembers(policy: DuplicatePolicy, ids: seq<IdAndVersion>)
    ensures forall x :: x in ApplyPolicy(policy, ids) <==> x in ids
  {
    if policy == FirstSeenOnly {
      FirstSeenIsUniqueAndComplete(ids);
    }
  }

  /** Every direct reference is in the closure, after whatever it pulls in. */
  lemma {:induction false} DirectInClosure(fetched: seq<PartialDataComponent>, direct: seq<IdAndVersion>)
    ensures forall x :: x in direct ==> x in Closure(fetched, direct)
  {
    if direct != [] {
      DirectInClosure(fetched, direct[1..]);
      forall x | x in direct ensures x in Closure(fetched, direct) {
        if x != direct[0] {
          assert x in direct[1..];
        }
      }
    }
  }

  // ---------------------------------------------------------------- properties

  /**
   * A non-function component (value_type undefined, "number", ...) stores its
   * direct references, the extractor's list untouched, and never fetches.
   */
  lemma NonFunctionStoresDirectReferences(c: DataComponent, extract: Extractor, fetch: Fetch, fetch': Fetch)
    requires !IsFunction(c.value_type)
    ensures Resolve(c, extract, fetch, KeepRepeats) == Success(extract(InputText(c.input_value)))
    ensures Resolve(c, extract, fetch, FirstSeenOnly) == Success(FirstSeen(extract(InputText(c.input_value))))
    ensures Resolve(c, extract, fetch, KeepRepeats) == Resolve(c, extract, fetch', KeepRepeats)
  {
  }

  /** A component without references stores nothing and never fetches, whatever its value_type. */
  lemma NoReferencesNoFetch(c: DataComponent, extract: Extractor, fetch: Fetch, policy: DuplicatePolicy)
    requires DirectReferences(c, extract) == []
    ensures Resolve(c, extract, fetch, policy) == Success([])
  {
    assert FirstSeen([]) == [];
  }

  /** A missing `input_value` is read as the empty text. */
  lemma MissingInputReadsAsEmpty(c: DataComponent, extract: Extractor)
    requires c.input_value.None?
    ensures DirectReferences(c, extract) == extract("")
  {
  }

  /** A failing batch fetch fails the resolution with the same error. */
  lemma FetchFailurePropagates(c: DataComponent, extract: Extractor, fetch: Fetch, policy: DuplicatePolicy)
    requires IsFunction(c.value_type) && DirectReferences(c, extract) != []
    requires fetch(DirectReferences(c, extract)).Failure?
    ensures Resolve(c, extract, fetch, policy) == Failure(fetch(DirectReferences(c, extract)).error)
  {
  }

  /** The closure of a concatenation is the concatenation of the closures. */
  lemma {:induction false} ClosureAppend(fetched: seq<PartialDataComponent>, a: seq<IdAndVersion>, b: seq<IdAndVersion>)
    ensures Closure(fetched, a + b) == Closure(fetched, a) + Closure(fetched, b)
  {
    if a != [] {
      assert (a + b)[1..] == a[1..] + b;
      ClosureAppend(fetched, a[1..], b);
    } else {
      assert a + b == b;
    }
  }

  /**
   * Ordering: the ids pulled in through the i-th direct reference sit
   * immediately before it, after everything the earlier references contributed.
   */
  lemma ClosureAt(fetched: seq<PartialDataComponent>, direct: seq<IdAndVersion>, i: nat)
    requires i < |direct|
    ensures Closure(fetched, direct)
            == Closure(fetched, direct[..i]) + Contribution(fetched, direct[i]) + Closure(fetched, direct[i + 1..])
  {
    assert direct == direct[..i] + ([direct[i]] + direct[i + 1..]);
    ClosureAppend(fetched, direct[..i], [direct[i]] + direct[i + 1..]);
    assert ([direct[i]] + direct[i + 1..])[1..] == direct[i + 1..];
  }

  /**
   * Exactly the right ids are stored: every direct reference, and every id
   * stored by a direct reference that is a function, and nothing else.
   */
  lemma {:induction false} ClosureMembers(fetched: seq<PartialDataComponent>, direct: seq<IdAndVersion>, x: IdAndVersion)
    ensures x in Closure(fetched, direct) <==>
              exists i :: 0 <= i < |direct| &&
                (x == direct[i] ||
                 (IsFunctionTarget(fetched, direct[i]) && x in StoredDependencies(Lookup(fetched, direct[i]).value)))
  {
    if direct != [] {
      ClosureMembers(fetched, direct[1..], x);
      if x in Closure(fetched, direct[1..]) {
        var j :| 0 <= j < |direct[1..]| &&
          (x == direct[1..][j] ||
           (IsFunctionTarget(fetched, direct[1..][j]) && x in StoredDependencies(Lookup(fetched, direct[1..][j]).value)));
        assert direct[1..][j] == direct[j + 1];
      }
      if exists i :: 0 <= i < |direct| &&
           (x == direct[i] ||
            (IsFunctionTarget(fetched, direct[i]) && x in StoredDependencies(Lookup(fetched, direct[i]).value))) {
        var i :| 0 <= i < |direct| &&
          (x == direct[i] ||
           (IsFunctionTarget(fetched, direct[i]) && x in StoredDependencies(Lookup(fetched, direct[i]).value)));
        if i > 0 {
          assert direct[1..][i - 1] == direct[i];
        }
      }
    }
  }

  /** When no direct reference is a function, a function component stores just its direct references. */
  lemma {:induction false} ClosureOfNonFunctionTargets(fetched: seq<PartialDataComponent>, direct: seq<IdAndVersion>)
    requires forall i :: 0 <= i < |direct| ==> !IsFunctionTarget(fetched, direct[i])
    ensures Closure(fetched, direct) == direct
  {
    if direct != [] {
      ClosureOfNonFunctionTargets(fetched, direct[1..]);
    }
  }

  /** Under the first-seen policy the stored list has no repeats and loses no id. */
  lemma FirstSeenPolicyIsUnique(c: DataComponent, extract: Extractor, fetch: Fetch)
    requires Resolve(c, extract, fetch, KeepRepeats).Success?
    ensures Resolve(c, extract, fetch, FirstSeenOnly).Success?
    ensures NoDuplicates(Resolve(c, extract, fetch, FirstSeenOnly).value)
    ensures forall x :: x in Resolve(c, extract, fetch, FirstSeenOnly).value <==> x in Resolve(c, extract, fetch, KeepRepeats).value
  {
    FirstSeenIsUniqueAndComplete(Resolve(c, extract, fetch, KeepRepeats).value);
    assert FirstSeen([]) == [];
  }

  /** When nothing repeats, both policies store the same list. */
  lemma PoliciesAgreeWithoutRepeats(c: DataComponent, extract: Extractor, fetch: Fetch)
    requires Resolve(c, extract, fetch, KeepRepeats).Success?
    requires NoDuplicates(Resolve(c, extract, fetch, KeepRepeats).value)
    ensures Resolve(c, extract, fetch, FirstSeenOnly) == Resolve(c, extract, fetch, KeepRepeats)
  {
    FirstSeenOfDistinct(Resolve(c, extract, fetch, KeepRepeats).value);
  }

  // ---------------------------------------------------------------- worked cases

  /**
   * A function component (id 4) that mentions 1 (value_type undefined) and
   * 3 (a number that itself depends on 1 and 2) stores [1, 3]: 2 is not
   * pulled in, because 3's result is already computed.
   */
  lemma FunctionOverNonFunctionTargets(c: DataComponent, extract: Extractor, fetch: Fetch, policy: DuplicatePolicy)
    requires c.value_type == Some("function")
    requires DirectReferences(c, extract) == [IdAndVersion(1, 1), IdAndVersion(3, 1)]
    requires fetch([IdAndVersion(1, 1), IdAndVersion(3, 1)])
             == Success([PartialDataComponent(IdAndVersion(1, 1), None, None),
                         PartialDataComponent(IdAndVersion(3, 1), Some("number"), Some([IdAndVersion(1, 1), IdAndVersion(2, 1)]))])
    ensures Resolve(c, extract, fetch, policy) == Success([IdAndVersion(1, 1), IdAndVersion(3, 1)])
  {
    var direct := [IdAndVersion(1, 1), IdAndVersion(3, 1)];
    var fetched := fetch(direct).value;
    assert !IsFunctionTarget(fetched, direct[0]);
    assert Lookup(fetched, direct[1]) == Some(fetched[1]);
    ClosureOfNonFunctionTargets(fetched, direct);
    FirstSeenOfDistinct(direct);
  }

  /**
   * A function component (id 5) that mentions the function component 4,
   * whose stored ids are [1, 3], stores [1, 3, 4].
   */
  lemma FunctionOverFunctionTarget(c: DataComponent, extract: Extractor, fetch: Fetch, policy: DuplicatePolicy)
    requires c.value_type == Some("function")
    requires DirectReferences(c, extract) == [IdAndVersion(4, 1)]
    requires fetch([IdAndVersion(4, 1)])
             == Success([PartialDataComponent(IdAndVersion(4, 1), Some("function"), Some([IdAndVersion(1, 1), IdAndVersion(3, 1)]))])
    ensures Resolve(c, extract, fetch, policy) == Success([IdAndVersion(1, 1), IdAndVersion(3, 1), IdAndVersion(4, 1)])
  {
    var direct := [IdAndVersion(4, 1)];
    var fetched := fetch(direct).value;
    assert direct[1..] == [];
    assert Closure(fetched, direct) == [IdAndVersion(1, 1), IdAndVersion(3, 1)] + [IdAndVersion(4, 1)] + [];
    assert [IdAndVersion(1, 1), IdAndVersion(3, 1)] + [IdAndVersion(4, 1)] + []
           == [IdAndVersion(1, 1), IdAndVersion(3, 1), IdAndVersion(4, 1)];
    FirstSeenOfDistinct([IdAndVersion(1, 1), IdAndVersion(3, 1), IdAndVersion(4, 1)]);
  }

  /**
   * A number component (id 6) that mentions the function component 5 stores
   * only [5]: non-function components keep direct references only.
   */
  lemma NonFunctionOverFunctionTarget(c: DataComponent, extract: Extractor, fetch: Fetch, policy: DuplicatePolicy)
    requires c.value_type == Some("number")
    requires DirectReferences(c, extract) == [IdAndVersion(5, 1)]
    ensures Resolve(c, extract, fetch, policy) == Success([IdAndVersion(5, 1)])
  {
    assert !IsFunction(c.value_type);
    FirstSeenOfDistinct([IdAndVersion(5, 1)]);
  }

  /**
   * A function component mentioning A and the function C whose stored ids are
   * [A, B]: kept as found the list is [A, A, B, C]; first-seen it is [A, B, C].
   */
  lemma RepeatedIdUnderPolicies(c: DataComponent, extract: Extractor, fetch: Fetch, a: IdAndVersion, b: IdAndVersion, cId: IdAndVersion)
    requires a != b && a != cId && b != cId
    requires c.value_type == Some("function")
    requires DirectReferences(c, extract) == [a, cId]
    requires fetch([a, cId]) == Success([PartialDataComponent(a, Some("number"), None),
                                         PartialDataComponent(cId, Some("function"), Some([a, b]))])
    ensures Resolve(c, extract, fetch, KeepRepeats) == Success([a, a, b, cId])
    ensures Resolve(c, extract, fetch, FirstSeenOnly) == Success([a, b, cId])
  {
    var fetched := fetch([a, cId]).value;
    assert Lookup(fetched, a) == Some(fetched[0]);
    assert Lookup(fetched, cId) == Some(fetched[1]);
    assert [a, cId][1..] == [cId];
    assert [cId][1..] == [];
    assert Closure(fetched, [cId]) == [a, b] + [cId] + [];
    assert Closure(fetched, [a, cId]) == [a] + ([a, b] + [cId] + []);
    assert [a] + ([a, b] + [cId] + []) == [a, a, b, cId];
    assert [a][..0] == [];
    assert FirstSeen([a]) == [a];
    assert [a, a][..1] == [a];
    assert FirstSeen([a, a]) == [a];
    assert [a, a, b][..2] == [a, a];
    assert FirstSeen([a, a, b]) == [a, b];
    assert [a, a, b, cId][..3] == [a, a, b];
    assert FirstSeen([a, a, b, cId]) == [a, b, cId];
  }

  // ---------------------------------------------------------------- the body as written

  /**
   * The resolver body as written: it reads `input_value` off its argument and
   * returns the extractor's list for `input_value || ""`, with no closure.
   */
  function ResolveAsWritten(argument: map<string, Value>, extract: Extractor): seq<IdAndVersion>
  {
    var input := Get(argument, "input_value");
    extract(if Truthy(input) && input.Str? then input.s else "")
  }

  /**
   * Its caller passes `{ data_component, get_data_components_by_id_and_version }`,
   * an object without `input_value`, so the body reads the empty text and the
   * references of the component are lost.
   */
  lemma AsWrittenLosesReferences(c: DataComponent, extract: Extractor, fetch: Fetch, argument: map<string, Value>)
    requires argument.Keys == {"data_component", "get_data_components_by_id_and_version"}
    requires extract("") == []
    requires c.value_type == Some("number")
    requires DirectReferences(c, extract) == [IdAndVersion(1, 1), IdAndVersion(2, 1)]
    ensures ResolveAsWritten(argument, extract) == []
    ensures Resolve(c, extract, fetch, KeepRepeats) == Success([IdAndVersion(1, 1), IdAndVersion(2, 1)])
  {
    assert "input_value" !in argument;
  }

  /** Even handed the component itself, the body skips the closure a function component needs. */
  lemma AsWrittenSkipsClosure(c: DataComponent, extract: Extractor, fetch: Fetch, text: string)
    requires c.value_type == Some("function") && c.input_value == Some(text) && text != ""
    requires extract(text) == [IdAndVersion(4, 1)]
    requires fetch([IdAndVersion(4, 1)])
             == Success([PartialDataComponent(IdAndVersion(4, 1), Some("function"), Some([IdAndVersion(1, 1), IdAndVersion(3, 1)]))])
    ensures ResolveAsWritten(map["input_value" := Str(text)], extract) == [IdAndVersion(4, 1)]
    ensures Resolve(c, extract, fetch, KeepRepeats) == Success([IdAndVersion(1, 1), IdAndVersion(3, 1), IdAndVersion(4, 1)])
  {
    FunctionOverFunctionTarget(c, extract, fetch, KeepRepeats);
  }
}
