/** `io.github.liana.config.core.JacksonMerger`: folds an ordered list of configuration maps
    into one. Each map becomes a Jackson `ObjectNode`; its top-level array fields replace the
    accumulated ones outright, and the rest is applied with Jackson's updating reader, which
    merges objects recursively and lets a later scalar win.

    What Jackson does that the code cannot see is a parameter, `Backend`: whether each of the
    three conversions fails, and how the updating reader combines two arrays met below the
    top level. */
module JacksonMerger {
  import opened Wrappers
  import opened JsonTree

  type Fields = map<string, Tree>

  const SourcesMessage := "sources list must not be null"
  const PrepareMessage := "failed to prepare data for merging"
  const UpdateMessage := "error merging data structures"
  const FinalizeMessage := "failed to finalize merged result"

  /** NullPointerException for a null list, then `ConversionException` and `MergeException`
      with their fixed messages (the wrapped cause is not modelled). */
  datatype MergeError = NullSources | ConversionFailed(message: string) | MergeFailed(message: string)

  /** The Jackson calls: `convertValue(source, ObjectNode.class)`, the updating reader and
      `convertValue(mergedNode, MAP_TYPE)` may each fail, and the updating reader combines
      two arrays it meets inside objects in its own way. */
  datatype Backend = Backend(
    prepareFails: Fields -> bool,
    updateFails: (Fields, Fields) -> bool,
    finalizeFails: Fields -> bool,
    combineArrays: (seq<Tree>, seq<Tree>) -> seq<Tree>)

  /** The updating reader applied to one value: objects merge field by field, two arrays are
      combined by the backend, anything else is replaced by the update. */
  function Updated(b: Backend, existing: Tree, update: Tree): (r: Tree)
    ensures existing.Obj? && update.Obj? ==> r.Obj? && r.fields.Keys == existing.fields.Keys + update.fields.Keys
    decreases update
  {
    match (existing, update)
    case (Obj(have), Obj(add)) =>
      Obj(have + map k | k in add :: if k in have then Updated(b, have[k], add[k]) else add[k])
    case (Arr(have), Arr(add)) => Arr(b.combineArrays(have, add))
    case _ => update
  }

  /** `readerForUpdating(target).readValue(update)` on two objects. */
  function DeepUpdate(b: Backend, target: Fields, update: Fields): (r: Fields)
    ensures r.Keys == target.Keys + update.Keys
  {
    Updated(b, Obj(target), Obj(update)).fields
  }

  /** A field only the target has survives; a field only the update has is taken as is. */
  lemma DeepUpdateFields(b: Backend, target: Fields, update: Fields, k: string)
    ensures k in target && k !in update ==> DeepUpdate(b, target, update)[k] == target[k]
    ensures k !in target && k in update ==> DeepUpdate(b, target, update)[k] == update[k]
    ensures k in target && k in update && !(target[k].Obj? && update[k].Obj?) && !(target[k].Arr? && update[k].Arr?) ==>
      DeepUpdate(b, target, update)[k] == update[k]
    ensures k in target && k in update && target[k].Obj? && update[k].Obj? ==>
      DeepUpdate(b, target, update)[k] == Obj(DeepUpdate(b, target[k].fields, update[k].fields))
  {
    if k in target && k in update && !(target[k].Obj? && update[k].Obj?) && !(target[k].Arr? && update[k].Arr?) {
      assert Updated(b, target[k], update[k]) == update[k];
    }
  }

  /** The top-level array fields of a map, and the others. */
  function ArrayFields(m: Fields): (r: Fields)
    ensures r.Keys <= m.Keys && forall k :: k in r ==> r[k] == m[k] && r[k].Arr?
    ensures forall k :: k in m && m[k].Arr? ==> k in r
  {
    m - (set k | k in m && !m[k].Arr?)
  }

  function NonArrayFields(m: Fields): (r: Fields)
    ensures r.Keys <= m.Keys && forall k :: k in r ==> r[k] == m[k] && !r[k].Arr?
    ensures forall k :: k in m && !m[k].Arr? ==> k in r
  {
    m - (set k | k in m && m[k].Arr?)
  }

  /** `mergeSourceIntoNode` as a function of the accumulated fields. */
  function MergeSource(b: Backend, acc: Fields, source: Fields): Result<Fields, MergeError> {
    if b.prepareFails(source) then Failure(ConversionFailed(PrepareMessage))
    else
      var target := acc + ArrayFields(source);
      var rest := NonArrayFields(source);
      if b.updateFails(target, rest) then Failure(MergeFailed(UpdateMessage))
      else Success(DeepUpdate(b, target, rest))
  }

  /** A source the fold skips: null or empty. */
  predicate Skipped(source: Option<Fields>) {
    source.None? || source.value == map[]
  }

  /** The stream of sources merged one by one, left to right, into `acc`; the first failure
      ends it. */
  function Fold(b: Backend, acc: Fields, sources: seq<Option<Fields>>): (r: Result<Fields, MergeError>)
    ensures r.Failure? ==> r.error == ConversionFailed(PrepareMessage) || r.error == MergeFailed(UpdateMessage)
    decreases |sources|
  {
    if sources == [] then Success(acc)
    else if Skipped(sources[0]) then Fold(b, acc, sources[1..])
    else
      match MergeSource(b, acc, sources[0].value)
      case Failure(e) => Failure(e)
      case Success(next) => Fold(b, next, sources[1..])
  }

  /** What `merge` returns or throws. */
  function MergeSpec(b: Backend, sources: Option<seq<Option<Fields>>>): (r: Result<Fields, MergeError>)
    ensures sources.None? ==> r == Failure(NullSources)
    ensures sources == Some([]) ==> r == Success(map[])
    ensures sources.Some? && |sources.value| == 1 ==> r == Success(sources.value[0].GetOr(map[]))
    ensures r.Failure? && sources.Some? ==>
      r.error in {ConversionFailed(PrepareMessage), MergeFailed(UpdateMessage), ConversionFailed(FinalizeMessage)}
  {
    if sources.None? then Failure(NullSources)
    else if |sources.value| == 0 then Success(map[])
    else if |sources.value| == 1 then Success(sources.value[0].GetOr(map[]))
    else
      match Fold(b, map[], sources.value)
      case Failure(e) => Failure(e)
      case Success(merged) =>
        if b.finalizeFails(merged) then Failure(ConversionFailed(FinalizeMessage)) else Success(merged)
  }

  // Properties of one merge step

  /** A top-level array of the source replaces the accumulated value wholesale. */
  lemma ArrayReplaced(b: Backend, acc: Fields, source: Fields, k: string)
    requires MergeSource(b, acc, source).Success? && k in source && source[k].Arr?
    ensures k in MergeSource(b, acc, source).value && MergeSource(b, acc, source).value[k] == source[k]
  {
    var target := acc + ArrayFields(source);
    DeepUpdateFields(b, target, NonArrayFields(source), k);
  }

  /** A scalar of the source wins; so does an object of the source where the accumulated
      value is not an object. */
  lemma LaterValueWins(b: Backend, acc: Fields, source: Fields, k: string)
    requires MergeSource(b, acc, source).Success? && k in source && !source[k].Arr?
    requires !source[k].Obj? || k !in acc || !acc[k].Obj?
    ensures k in MergeSource(b, acc, source).value && MergeSource(b, acc, source).value[k] == source[k]
  {
    var target := acc + ArrayFields(source);
    DeepUpdateFields(b, target, NonArrayFields(source), k);
  }

  /** A field the source does not have keeps its accumulated value. */
  lemma EarlierValueKept(b: Backend, acc: Fields, source: Fields, k: string)
    requires MergeSource(b, acc, source).Success? && k in acc && k !in source
    ensures k in MergeSource(b, acc, source).value && MergeSource(b, acc, source).value[k] == acc[k]
  {
    var target := acc + ArrayFields(source);
    DeepUpdateFields(b, target, NonArrayFields(source), k);
  }

  /** Two objects under the same key merge recursively. */
  lemma ObjectsMerged(b: Backend, acc: Fields, source: Fields, k: string)
    requires MergeSource(b, acc, source).Success? && k in acc && k in source
    requires acc[k].Obj? && source[k].Obj?
    ensures k in MergeSource(b, acc, source).value
    ensures MergeSource(b, acc, source).value[k] == Obj(DeepUpdate(b, acc[k].fields, source[k].fields))
  {
    var target := acc + ArrayFields(source);
    DeepUpdateFields(b, target, NonArrayFields(source), k);
  }

  /** A merge step holds the keys of both sides and no others. */
  lemma MergeSourceKeys(b: Backend, acc: Fields, source: Fields)
    requires MergeSource(b, acc, source).Success?
    ensures MergeSource(b, acc, source).value.Keys == acc.Keys + source.Keys
  {
    assert source.Keys == ArrayFields(source).Keys + NonArrayFields(source).Keys;
  }

  // Properties of the fold

  /** The sources the fold does not skip, in order. */
  function Kept(sources: seq<Option<Fields>>): (r: seq<Option<Fields>>)
    ensures |r| <= |sources|
    ensures forall i :: 0 <= i < |r| ==> !Skipped(r[i])
  {
    if sources == [] then []
    else if Skipped(sources[0]) then Kept(sources[1..])
    else [sources[0]] + Kept(sources[1..])
  }

  /** Null and empty sources change nothing: folding the list is folding its kept maps. */
  lemma {:induction false} FoldKept(b: Backend, acc: Fields, sources: seq<Option<Fields>>)
    ensures Fold(b, acc, sources) == Fold(b, acc, Kept(sources))
    decreases |sources|
  {
    if sources != [] {
      FoldKept(b, acc, sources[1..]);
      if !Skipped(sources[0]) {
        var kept := Kept(sources);
        assert kept[0] == sources[0] && kept[1..] == Kept(sources[1..]);
        match MergeSource(b, acc, sources[0].value)
        case Failure(_) =>
        case Success(next) => FoldKept(b, next, sources[1..]);
      }
    }
  }

  /** The merged map holds exactly the keys of the accumulator and of the kept sources. */
  lemma {:induction false} FoldKeys(b: Backend, acc: Fields, sources: seq<Option<Fields>>, k: string)
    requires Fold(b, acc, sources).Success?
    ensures k in Fold(b, acc, sources).value <==>
      k in acc || exists i :: 0 <= i < |sources| && sources[i].Some? && k in sources[i].value
    decreases |sources|
  {
    if sources != [] {
      var tail := sources[1..];
      var next := if Skipped(sources[0]) then acc else MergeSource(b, acc, sources[0].value).value;
      if !Skipped(sources[0]) {
        MergeSourceKeys(b, acc, sources[0].value);
      }
      FoldKeys(b, next, tail, k);
      if exists i :: 0 <= i < |sources| && sources[i].Some? && k in sources[i].value {
        var i :| 0 <= i < |sources| && sources[i].Some? && k in sources[i].value;
        if i > 0 {
          assert tail[i - 1] == sources[i];
        }
      }
      if exists i :: 0 <= i < |tail| && tail[i].Some? && k in tail[i].value {
        var i :| 0 <= i < |tail| && tail[i].Some? && k in tail[i].value;
        assert sources[i + 1] == tail[i];
      }
    }
  }

  /** A key that no later source mentions keeps its accumulated value through the fold. */
  lemma {:induction false} FoldKeepsUntouched(b: Backend, acc: Fields, sources: seq<Option<Fields>>, k: string)
    requires Fold(b, acc, sources).Success? && k in acc
    requires forall i :: 0 <= i < |sources| && sources[i].Some? ==> k !in sources[i].value
    ensures k in Fold(b, acc, sources).value && Fold(b, acc, sources).value[k] == acc[k]
    decreases |sources|
  {
    if sources != [] {
      var next := acc;
      if !Skipped(sources[0]) {
        assert k !in sources[0].value;
        EarlierValueKept(b, acc, sources[0].value, k);
        next := MergeSource(b, acc, sources[0].value).value;
      }
      FoldKeepsUntouched(b, next, sources[1..], k);
    }
  }

  /** The last source that has a key decides its value when that value is a scalar: later
      scalars win. */
  lemma {:induction false} LastScalarWins(b: Backend, acc: Fields, sources: seq<Option<Fields>>, j: nat, k: string)
    requires Fold(b, acc, sources).Success?
    requires j < |sources| && sources[j].Some? && k in sources[j].value
    requires !sources[j].value[k].Arr? && !sources[j].value[k].Obj?
    requires forall i :: j < i < |sources| && sources[i].Some? ==> k !in sources[i].value
    ensures k in Fold(b, acc, sources).value && Fold(b, acc, sources).value[k] == sources[j].value[k]
    decreases |sources|
  {
    var source := sources[0];
    if j == 0 {
      assert !Skipped(source);
      LaterValueWins(b, acc, source.value, k);
      var next := MergeSource(b, acc, source.value).value;
      FoldKeepsUntouched(b, next, sources[1..], k);
    } else {
      var next := if Skipped(source) then acc else MergeSource(b, acc, source.value).value;
      LastScalarWins(b, next, sources[1..], j - 1, k);
    }
  }

  // The imperative code

  /** A Jackson `ObjectNode`: its fields change in place. */
  class ObjectNode {
    var fields: Fields

    constructor(fields: Fields)
      ensures this.fields == fields
    {
      this.fields := fields;
    }
  }

  /** `overrideArrays`: each array field of `current` is set on `merged` and removed from
      `current` through the field iterator; the other fields stay in `current`. */
  method OverrideArrays(merged: ObjectNode, current: ObjectNode)
    requires merged != current
    modifies merged, current
    ensures merged.fields == old(merged.fields) + ArrayFields(old(current.fields))
    ensures current.fields == NonArrayFields(old(current.fields))
  {
    ghost var original := current.fields;
    var fieldNames := current.fields.Keys;
    while fieldNames != {}
      invariant fieldNames <= original.Keys
      invariant current.fields == original - (set k | k in original && k !in fieldNames && original[k].Arr?)
      invariant merged.fields == old(merged.fields) + (original - (set k | k in original && (k in fieldNames || !original[k].Arr?)))
      decreases fieldNames
    {
      var fieldName :| fieldName in fieldNames;
      var value := current.fields[fieldName];
      if value.Arr? {
        merged.fields := merged.fields[fieldName := value];
        current.fields := current.fields - {fieldName};
      }
      fieldNames := fieldNames - {fieldName};
    }
    assert (set k | k in original && k !in fieldNames && original[k].Arr?) == (set k | k in original && original[k].Arr?);
    assert (set k | k in original && (k in fieldNames || !original[k].Arr?)) == (set k | k in original && !original[k].Arr?);
  }

  /** `mergeSourceIntoNode`: convert, override the arrays, then apply the update. */
  method MergeSourceIntoNode(b: Backend, source: Fields, merged: ObjectNode) returns (r: Result<(), MergeError>)
    modifies merged
    ensures MergeSource(b, old(merged.fields), source).Failure? ==>
      r == Failure(MergeSource(b, old(merged.fields), source).error)
    ensures MergeSource(b, old(merged.fields), source).Success? ==>
      r.Success? && merged.fields == MergeSource(b, old(merged.fields), source).value
  {
    if b.prepareFails(source) {
      return Failure(ConversionFailed(PrepareMessage));
    }
    var current := new ObjectNode(source);
    OverrideArrays(merged, current);
    if b.updateFails(merged.fields, current.fields) {
      return Failure(MergeFailed(UpdateMessage));
    }
    merged.fields := DeepUpdate(b, merged.fields, current.fields);
    r := Success(());
  }

  /** `merge`: the early returns, then the fold over a fresh node, then the final
      conversion. */
  method Merge(b: Backend, sources: Option<seq<Option<Fields>>>) returns (r: Result<Fields, MergeError>)
    ensures r == MergeSpec(b, sources)
  {
    if sources.None? {
      return Failure(NullSources);
    }
    var list := sources.value;
    if |list| == 0 {
      return Success(map[]);
    }
    if |list| == 1 {
      return Success(list[0].GetOr(map[]));
    }
    var mergedNode := new ObjectNode(map[]);
    for i := 0 to |list|
      invariant Fold(b, map[], list) == Fold(b, mergedNode.fields, list[i..])
    {
      assert list[i..][1..] == list[i + 1..];
      if !Skipped(list[i]) {
        var step := MergeSourceIntoNode(b, list[i].value, mergedNode);
        if step.Failure? {
          return Failure(step.error);
        }
      }
    }
    var merged := mergedNode.fields;
    if b.finalizeFails(merged) {
      return Failure(ConversionFailed(FinalizeMessage));
    }
    r := Success(merged);
  }
}
