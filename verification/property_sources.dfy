/** `io.github.liana.config.PropertySources`: property sources backed by a map. A
    `PropertySource` answers `get(key)` with a value or null; the modelled sources are
    finite, so one is a `map<string, string>` whose missing keys answer null. Environment
    variables (`fromEnv`) are not part of this model. */
module PropertySources {
  import opened Wrappers
  import opened Exceptions

  type Source = map<string, string>

  /** `PropertySource.get`. */
  function Get(source: Source, key: string): Option<string> {
    if key in source then Some(source[key]) else None
  }

  /** `fromMap`: a null map acts as an empty one; a key answers the string form of its value
      when the value is present and non-null. `show` is the values' `toString`. The source is
      a value, so later changes to the caller's map cannot reach it. */
  function FromMap<V>(m: Option<map<string, Option<V>>>, show: V -> string): (source: Source)
    ensures m.None? ==> source == map[]
    ensures forall key :: Get(source, key).Some? <==> m.Some? && key in m.value && m.value[key].Some?
    ensures forall key :: key in source ==> Get(source, key) == Some(show(m.value[key].value))
  {
    var entries := m.GetOr(map[]);
    map key | key in entries && entries[key].Some? :: show(entries[key].value)
  }

  /** `from`: the identity on non-null sources. */
  function From(source: Option<Source>): (r: Result<Source, Exception>)
    ensures source.None? ==> r == Failure(NullPointer("source must not be null"))
    ensures source.Some? ==> r == Success(source.value)
  {
    if source.None? then Failure(NullPointer("source must not be null")) else Success(source.value)
  }
}
