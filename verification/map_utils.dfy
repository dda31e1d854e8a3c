/** `io.github.liana.internal.MapUtils.of`: a map built from alternating keys and values. */
module MapUtils {
  import opened Wrappers

  /** The two exceptions `of` throws: NullPointerException for a null array, and
      IllegalArgumentException "Missing value for key: " followed by the dangling key. */
  datatype OfError<T> = NullEntries | MissingValueForKey(key: T)

  /** The map the loop has built after consuming `entries` pair by pair: a later pair with
      the same key replaces the earlier value, as `HashMap.put` does. */
  function PairsToMap<T>(entries: seq<T>): map<T, T>
    requires |entries| % 2 == 0
    decreases |entries|
  {
    if entries == [] then map[]
    else PairsToMap(entries[..|entries| - 2])[entries[|entries| - 2] := entries[|entries| - 1]]
  }

  /** A key is present exactly when it stands at some even index. */
  lemma {:induction false} PairsToMapKeys<T>(entries: seq<T>, key: T)
    requires |entries| % 2 == 0
    ensures key in PairsToMap(entries) <==> exists i :: 0 <= i < |entries| && i % 2 == 0 && entries[i] == key
  {
    if entries != [] {
      var n := |entries|;
      var front := entries[..n - 2];
      PairsToMapKeys(front, key);
      if key in PairsToMap(entries) && key != entries[n - 2] {
        var i :| 0 <= i < |front| && i % 2 == 0 && front[i] == key;
        assert entries[i] == key;
      }
      if exists i :: 0 <= i < n && i % 2 == 0 && entries[i] == key {
        var i :| 0 <= i < n && i % 2 == 0 && entries[i] == key;
        if i < n - 2 {
          assert front[i] == key;
        }
      }
    }
  }

  /** Each key maps to the value that follows its last occurrence at an even index. */
  lemma {:induction false} PairsToMapLastWins<T>(entries: seq<T>, i: nat)
    requires |entries| % 2 == 0 && i % 2 == 0 && i < |entries|
    requires forall j :: i < j < |entries| && j % 2 == 0 ==> entries[j] != entries[i]
    ensures entries[i] in PairsToMap(entries) && PairsToMap(entries)[entries[i]] == entries[i + 1]
  {
    var n := |entries|;
    if i < n - 2 {
      var front := entries[..n - 2];
      assert entries[n - 2] != entries[i];
      forall j | i < j < |front| && j % 2 == 0 ensures front[j] != front[i] {
        assert entries[j] != entries[i];
      }
      PairsToMapLastWins(front, i);
    }
  }

  /** At most one entry per pair. */
  lemma {:induction false} PairsToMapSize<T>(entries: seq<T>)
    requires |entries| % 2 == 0
    ensures |PairsToMap(entries)| <= |entries| / 2
  {
    if entries != [] {
      var n := |entries|;
      PairsToMapSize(entries[..n - 2]);
      var front := PairsToMap(entries[..n - 2]);
      var k := entries[n - 2];
      if k in front {
        assert front[k := entries[n - 1]].Keys == front.Keys;
      } else {
        assert front[k := entries[n - 1]].Keys == front.Keys + {k};
      }
    }
  }

  /** What `of` returns or throws. */
  function OfSpec<T>(entries: Option<seq<T>>): (r: Result<map<T, T>, OfError<T>>)
    ensures entries.None? ==> r == Failure(NullEntries)
    ensures entries.Some? && |entries.value| % 2 == 1 ==>
      r == Failure(MissingValueForKey(entries.value[|entries.value| - 1]))
    ensures entries.Some? && |entries.value| % 2 == 0 ==> r.Success?
  {
    if entries.None? then Failure(NullEntries)
    else if |entries.value| % 2 != 0 then Failure(MissingValueForKey(entries.value[|entries.value| - 1]))
    else Success(PairsToMap(entries.value))
  }

  /** The loop of `of`: put each even-index element with the element after it. */
  method Of<T>(entries: Option<seq<T>>) returns (r: Result<map<T, T>, OfError<T>>)
    ensures r == OfSpec(entries)
  {
    if entries.None? {
      return Failure(NullEntries);
    }
    var items := entries.value;
    var numEntries := |items|;
    if numEntries % 2 != 0 {
      return Failure(MissingValueForKey(items[numEntries - 1]));
    }
    var m: map<T, T> := map[];
    var i := 0;
    while i < numEntries
      invariant 0 <= i <= numEntries && i % 2 == 0
      invariant m == PairsToMap(items[..i])
    {
      assert items[..i + 2][..i] == items[..i];
      m := m[items[i] := items[i + 1]];
      i := i + 2;
    }
    assert items[..i] == items;
    r := Success(m);
  }

  lemma OfEmpty<T>()
    ensures OfSpec<T>(Some([])) == Success(map[])
  {
  }
}
