/** The behaviour `JacksonMergerTest` checks, proved of the model on the same inputs. A backend
    whose conversions and update succeed is `Reliable`. */
module MergerExamples {
  import opened Wrappers
  import opened JsonTree
  import opened JacksonMerger

  ghost predicate Reliable(b: Backend) {
    (forall m :: !b.prepareFails(m)) && (forall m, n :: !b.updateFails(m, n)) && (forall m :: !b.finalizeFails(m))
  }

  /** Two sources merge as two steps from the empty object. */
  lemma TwoSources(b: Backend, first: Fields, second: Fields)
    requires Reliable(b) && first != map[] && second != map[]
    ensures MergeSource(b, map[], first).Success?
    ensures MergeSource(b, MergeSource(b, map[], first).value, second).Success?
    ensures MergeSpec(b, Some([Some(first), Some(second)])) == MergeSource(b, MergeSource(b, map[], first).value, second)
  {
    var sources := [Some(first), Some(second)];
    var step := MergeSource(b, map[], first).value;
    var merged := MergeSource(b, step, second).value;
    assert sources[1..] == [Some(second)];
    assert Fold(b, map[], sources) == Fold(b, step, [Some(second)]);
    assert [Some(second)][1..] == [];
    assert Fold(b, step, [Some(second)]) == Fold(b, merged, []);
    assert !b.finalizeFails(merged);
  }

  /** The first source merged into the empty object comes out as it went in. */
  lemma FirstIntoEmpty(b: Backend, source: Fields)
    requires Reliable(b)
    ensures MergeSource(b, map[], source) == Success(source)
  {
    var merged := MergeSource(b, map[], source).value;
    MergeSourceKeys(b, map[], source);
    forall k | k in source
      ensures merged[k] == source[k]
    {
      if source[k].Arr? {
        ArrayReplaced(b, map[], source, k);
      } else {
        LaterValueWins(b, map[], source, k);
      }
    }
    assert merged == source;
  }

  /** A map with three keys is the display of its three entries. */
  lemma ThreeEntries(m: Fields, k1: string, k2: string, k3: string)
    requires m.Keys == {k1, k2, k3}
    ensures m == map[k1 := m[k1], k2 := m[k2], k3 := m[k3]]
  {
  }

  /** The second step of the array test, for any three distinct keys: the earlier scalar
      stays, the later array replaces the earlier one and the new key is added. */
  lemma ArrayStep(b: Backend, k1: string, k2: string, k3: string, v1: Tree, v3: Tree, a12: seq<Tree>, a34: seq<Tree>)
    requires Reliable(b) && !v1.Arr? && !v3.Arr? && k1 != k2 && k2 != k3 && k1 != k3
    ensures MergeSource(b, map[k1 := v1, k2 := Arr(a12)], map[k2 := Arr(a34), k3 := v3]) ==
      Success(map[k1 := v1, k2 := Arr(a34), k3 := v3])
  {
    var step := map[k1 := v1, k2 := Arr(a12)];
    var second := map[k2 := Arr(a34), k3 := v3];
    var merged := MergeSource(b, step, second).value;
    MergeSourceKeys(b, step, second);
    EarlierValueKept(b, step, second, k1);
    ArrayReplaced(b, step, second, k2);
    LaterValueWins(b, step, second, k3);
    ThreeEntries(merged, k1, k2, k3);
  }

  /** `{key1: v1, key2: [1, 2]}` then `{key2: [3, 4], key3: v3}`: the array is replaced,
      not combined, and the other keys survive. The leaves are parameters, so the lemma
      covers the test's values and every other choice of them. */
  lemma ArraysReplacedWholesale(b: Backend, first: Fields, second: Fields, v1: Tree, v3: Tree, a12: seq<Tree>, a34: seq<Tree>)
    requires Reliable(b) && !v1.Arr? && !v3.Arr?
    requires first == map["key1" := v1, "key2" := Arr(a12)]
    requires second == map["key2" := Arr(a34), "key3" := v3]
    ensures MergeSpec(b, Some([Some(first), Some(second)])) ==
      Success(map["key1" := v1, "key2" := Arr(a34), "key3" := v3])
  {
    var k1, k2, k3 := "key1", "key2", "key3";
    assert k1 in first && k3 in second;
    TwoSources(b, first, second);
    FirstIntoEmpty(b, first);
    ArrayStep(b, k1, k2, k3, v1, v3, a12, a34);
  }

  /** Inside the nested object: the later scalar `timeout` wins and `retries` survives. */
  lemma InnerObjectMerged(b: Backend, have: Fields, add: Fields, t1: Tree, r: Tree, t2: Tree)
    requires !t2.Obj? && !t2.Arr?
    requires have == map["timeout" := t1, "retries" := r] && add == map["timeout" := t2]
    ensures DeepUpdate(b, have, add) == map["timeout" := t2, "retries" := r]
  {
    var inner := DeepUpdate(b, have, add);
    DeepUpdateFields(b, have, add, "timeout");
    DeepUpdateFields(b, have, add, "retries");
    assert inner.Keys == {"timeout", "retries"};
  }

  /** The second step of the nested test: the objects under one key merge. */
  lemma NestedStep(b: Backend, step: Fields, second: Fields, key: string, inner: Fields)
    requires Reliable(b) && key in step && key in second && step[key].Obj? && second[key].Obj?
    requires step.Keys == {key} && second.Keys == {key}
    requires DeepUpdate(b, step[key].fields, second[key].fields) == inner
    ensures MergeSource(b, step, second) == Success(map[key := Obj(inner)])
  {
    var merged := MergeSource(b, step, second).value;
    MergeSourceKeys(b, step, second);
    ObjectsMerged(b, step, second, key);
    assert merged.Keys == {key};
    assert merged == map[key := Obj(inner)];
  }

  /** `{config: {timeout: t1, retries: r}}` then `{config: {timeout: t2}}`, with a scalar
      `t2`: the nested objects merge, so `retries` survives and `timeout` takes the later
      value. */
  lemma NestedObjectsMerged(b: Backend, first: Fields, second: Fields, t1: Tree, r: Tree, t2: Tree)
    requires Reliable(b) && !t2.Obj? && !t2.Arr?
    requires first == map["config" := Obj(map["timeout" := t1, "retries" := r])]
    requires second == map["config" := Obj(map["timeout" := t2])]
    ensures MergeSpec(b, Some([Some(first), Some(second)])) ==
      Success(map["config" := Obj(map["timeout" := t2, "retries" := r])])
  {
    var key := "config";
    assert key in first && key in second;
    TwoSources(b, first, second);
    FirstIntoEmpty(b, first);
    var inner := map["timeout" := t2, "retries" := r];
    InnerObjectMerged(b, first[key].fields, second[key].fields, t1, r, t2);
    NestedStep(b, first, second, key, inner);
  }

  /** A null and an empty map before `{key1: value1}` are skipped. */
  lemma NullAndEmptyIgnored(b: Backend, third: Fields)
    requires Reliable(b) && third == map["key1" := Str("value1")]
    ensures MergeSpec(b, Some([None, Some(map[]), Some(third)])) == Success(third)
  {
    var sources := [None, Some(map[]), Some(third)];
    assert sources[1..][1..] == [Some(third)];
    assert [Some(third)][1..] == [];
    assert "key1" in third;
    var merged := MergeSource(b, map[], third).value;
    MergeSourceKeys(b, map[], third);
    LaterValueWins(b, map[], third, "key1");
    assert merged == third;
    assert Fold(b, map[], sources) == Fold(b, map[], [Some(third)]);
    assert Fold(b, map[], [Some(third)]) == Fold(b, merged, []);
    assert !b.finalizeFails(merged);
  }

  /** A source the first conversion rejects ends the merge with the preparation error. */
  lemma PrepareFailureReported(b: Backend, source: Fields)
    requires source != map[] && b.prepareFails(source)
    ensures MergeSpec(b, Some([Some(source), Some(map[])])) == Failure(ConversionFailed(PrepareMessage))
  {
  }

  /** A failing update ends the merge with the merge error. */
  lemma UpdateFailureReported(b: Backend, source: Fields)
    requires source != map[] && !b.prepareFails(source) && forall m, n :: b.updateFails(m, n)
    ensures MergeSpec(b, Some([Some(source), Some(map[])])) == Failure(MergeFailed(UpdateMessage))
  {
  }

  /** A failing final conversion is reported as such. */
  lemma FinalizeFailureReported(b: Backend, source: Fields)
    requires source != map[] && !b.prepareFails(source) && forall m, n :: !b.updateFails(m, n)
    requires forall m :: b.finalizeFails(m)
    ensures MergeSpec(b, Some([Some(source), Some(map[])])) == Failure(ConversionFailed(FinalizeMessage))
  {
    var sources := [Some(source), Some(map[])];
    assert sources[1..] == [Some(map[])];
    var merged := MergeSource(b, map[], source).value;
    var rest: seq<Option<Fields>> := [Some(map[])];
    assert sources[1..] == rest && rest[1..] == [];
    assert Fold(b, map[], sources) == Fold(b, merged, rest);
    assert Fold(b, map[], sources).Success?;
  }
}
