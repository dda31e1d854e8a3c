/** `io.github.liana.config.core.ServiceRegistry`: a registry that finds, for a type alias, the
    first service in loader order that the filter accepts, converts it with the factory
    function, and caches the result under the lower-cased alias. The services the loader yields
    are a sequence in iteration order; the filter and the function are total functions (a
    function returning null is `None`). */
module ServiceRegistry {
  import opened Wrappers
  import opened Exceptions
  import opened JavaString
  import StringUtils

  const LoaderMessage := "loader must not be null"
  const FilterMessage := "filter must not be null"
  const FunctionMessage := "function must not be null"
  const TypeMessage := "type must not be null"

  /** The position of the first service the filter accepts for `alias`. */
  function FirstMatch<T>(services: seq<T>, filter: (T, string) -> bool, alias: string): (r: Option<nat>)
    ensures r.Some? ==> r.value < |services| && filter(services[r.value], alias)
    ensures r.Some? ==> forall j :: 0 <= j < r.value ==> !filter(services[j], alias)
    ensures r.None? <==> forall j :: 0 <= j < |services| ==> !filter(services[j], alias)
  {
    if services == [] then None
    else if filter(services[0], alias) then Some(0)
    else
      match FirstMatch(services[1..], filter, alias)
      case None => None
      case Some(i) => Some(i + 1)
  }

  /** What `create` yields: the function applied to the first accepted service, or nothing when
      the filter accepts none. */
  function Created<T, R>(services: seq<T>, filter: (T, string) -> bool, factory: T -> Option<R>, alias: string)
    : (r: Option<R>)
    ensures (forall j :: 0 <= j < |services| ==> !filter(services[j], alias)) ==> r.None?
  {
    match FirstMatch(services, filter, alias)
    case None => None
    case Some(i) => factory(services[i])
  }

  /** The service at `i` decides when it is the first the filter accepts. */
  lemma CreatedFirst<T, R>(services: seq<T>, filter: (T, string) -> bool, factory: T -> Option<R>,
                           alias: string, i: nat)
    requires i < |services| && filter(services[i], alias)
    requires forall j :: 0 <= j < i ==> !filter(services[j], alias)
    ensures Created(services, filter, factory, alias) == factory(services[i])
  {
    var k := FirstMatch(services, filter, alias);
    assert k.Some? by {
      assert !filter(services[i], alias) ==> false;
    }
  }

  /** Loader order decides: the services after the first accepted one are never consulted, and
      when the first group accepts none the answer comes from the rest. */
  lemma {:induction false} CreatedAppend<T, R>(first: seq<T>, rest: seq<T>, filter: (T, string) -> bool,
                                               factory: T -> Option<R>, alias: string)
    ensures FirstMatch(first, filter, alias).Some? ==>
      Created(first + rest, filter, factory, alias) == Created(first, filter, factory, alias)
    ensures FirstMatch(first, filter, alias).None? ==>
      Created(first + rest, filter, factory, alias) == Created(rest, filter, factory, alias)
    decreases |first|
  {
    if first != [] {
      assert (first + rest)[0] == first[0] && (first + rest)[1..] == first[1..] + rest;
      CreatedAppend(first[1..], rest, filter, factory, alias);
      if !filter(first[0], alias) {
        var tail := FirstMatch(first[1..] + rest, filter, alias);
        assert FirstMatch(first + rest, filter, alias) == if tail.None? then None else Some(tail.value + 1);
      }
    } else {
      assert first + rest == rest;
    }
  }

  class Registry<T, R> {
    const services: seq<T>
    const filter: (T, string) -> bool
    const factory: T -> Option<R>
    var cache: map<string, R>
    /** The aliases for which `create` ran, oldest first. */
    ghost var scans: seq<string>

    /** Every cached entry sits under a lower-case key and is what a fresh `create` would give
        for it. */
    ghost predicate Valid()
      reads this
    {
      forall k :: k in cache ==> ToLower(k) == k && Created(services, filter, factory, k) == Some(cache[k])
    }

    /** A registry over non-null arguments starts with an empty cache. */
    constructor(services: seq<T>, filter: (T, string) -> bool, factory: T -> Option<R>)
      ensures this.services == services && this.filter == filter && this.factory == factory
      ensures cache == map[] && scans == [] && Valid()
    {
      this.services := services;
      this.filter := filter;
      this.factory := factory;
      cache := map[];
      scans := [];
    }

    /** `create`: scans the services in order and converts the first one the filter accepts. */
    method Create(alias: string) returns (r: Option<R>)
      ensures r == Created(services, filter, factory, alias)
    {
      var i := 0;
      while i < |services|
        invariant 0 <= i <= |services|
        invariant forall j :: 0 <= j < i ==> !filter(services[j], alias)
      {
        if filter(services[i], alias) {
          return factory(services[i]);
        }
        i := i + 1;
      }
      return None;
    }

    /** `get`: a null alias is rejected; otherwise the entry cached under the lower-cased alias,
        or, when there is none, the result of `create` for that lower-cased alias, which is
        stored only when there is one. An existing entry is never replaced and is returned
        without a scan. */
    method Get(alias: Option<string>) returns (r: Result<Option<R>, Exception>)
      requires Valid()
      modifies this
      ensures Valid()
      ensures alias.None? ==>
        r == Failure(NullPointer(TypeMessage)) && cache == old(cache) && scans == old(scans)
      ensures alias.Some? ==>
        var key := ToLower(alias.value);
        var created := Created(services, filter, factory, key);
        && r == Success(if key in old(cache) then Some(old(cache)[key]) else created)
        && r == Success(created)
        && cache == (if key !in old(cache) && created.Some? then old(cache)[key := created.value] else old(cache))
        && scans == old(scans) + (if key in old(cache) then [] else [key])
    {
      if alias.None? {
        return Failure(NullPointer(TypeMessage));
      }
      var key := ToLower(alias.value);
      ToLowerIdempotent(alias.value);
      if key in cache {
        return Success(Some(cache[key]));
      }
      scans := scans + [key];
      var created := Create(key);
      if created.Some? {
        cache := cache[key := created.value];
      }
      r := Success(created);
    }
  }

  /** The constructor: a null loader, filter or function is rejected, in that order. */
  method New<T, R>(loader: Option<seq<T>>, filter: Option<(T, string) -> bool>, factory: Option<T -> Option<R>>)
    returns (r: Result<Registry<T, R>, Exception>)
    ensures loader.None? ==> r == Failure(NullPointer(LoaderMessage))
    ensures loader.Some? && filter.None? ==> r == Failure(NullPointer(FilterMessage))
    ensures loader.Some? && filter.Some? && factory.None? ==> r == Failure(NullPointer(FunctionMessage))
    ensures r.Success? <==> loader.Some? && filter.Some? && factory.Some?
    ensures r.Success? ==>
      fresh(r.value) && r.value.Valid() && r.value.cache == map[] && r.value.scans == [] &&
      r.value.services == loader.value && r.value.filter == filter.value && r.value.factory == factory.value
  {
    if loader.None? {
      return Failure(NullPointer(LoaderMessage));
    }
    if filter.None? {
      return Failure(NullPointer(FilterMessage));
    }
    if factory.None? {
      return Failure(NullPointer(FunctionMessage));
    }
    var registry := new Registry(loader.value, filter.value, factory.value);
    r := Success(registry);
  }

  /** Two aliases that differ only in case share one entry: once the first has produced a
      value, the second returns that value and neither scans nor changes the cache. */
  method GetIgnoringCase<T, R>(registry: Registry<T, R>, first: string, second: string)
    returns (a: Result<Option<R>, Exception>, b: Result<Option<R>, Exception>)
    requires registry.Valid() && StringUtils.EqualsIgnoreCase(Some(first), Some(second))
    modifies registry
    ensures registry.Valid()
    ensures a.Success? && a.value.Some? ==>
      b == a && ToLower(second) in registry.cache && registry.cache[ToLower(second)] == a.value.value &&
      registry.scans == old(registry.scans) + (if ToLower(first) in old(registry.cache) then [] else [ToLower(first)])
  {
    assert ToLower(first) == ToLower(second);
    a := registry.Get(Some(first));
    b := registry.Get(Some(second));
  }

  /** A miss stores nothing, so asking again scans again. */
  method GetMissTwice<T, R>(registry: Registry<T, R>, alias: string)
    returns (a: Result<Option<R>, Exception>, b: Result<Option<R>, Exception>)
    requires registry.Valid() && ToLower(alias) !in registry.cache
    requires Created(registry.services, registry.filter, registry.factory, ToLower(alias)).None?
    modifies registry
    ensures a == b == Success(None)
    ensures registry.cache == old(registry.cache)
    ensures registry.scans == old(registry.scans) + [ToLower(alias), ToLower(alias)]
  {
    a := registry.Get(Some(alias));
    b := registry.Get(Some(alias));
  }
}
