/** `io.github.liana.config.ConfigMapCache`: a cell that is filled once, with a read-only copy
    of what the first loader supplies, and afterwards returns that copy to every caller. The
    map is a sequence of entries in iteration order; a loader that may be null is an `Option`
    of a function, and a loader that returns null gives `None`. */
module ConfigMapCache {
  import opened Wrappers
  import opened Exceptions

  type Entries<K, V> = seq<(K, V)>

  class Cache<K, V> {
    var cache: Option<Entries<K, V>>
    /** How many times a loader was called. */
    ghost var loads: nat

    constructor()
      ensures cache.None? && loads == 0
    {
      cache := None;
      loads := 0;
    }

    /** `get`: the stored map when there is one, without calling `loader`; otherwise the loader
        is called once and a copy of its map, in the same order, is stored and returned. A null
        loader, or a null map from it, is a NullPointerException and leaves the cell empty. */
    method Get(loader: Option<() -> Option<Entries<K, V>>>) returns (r: Result<Entries<K, V>, Exception>)
      modifies this
      ensures old(cache).Some? ==> r == Success(old(cache).value) && cache == old(cache) && loads == old(loads)
      ensures old(cache).None? && loader.None? ==>
        r == Failure(NullPointer("")) && cache.None? && loads == old(loads)
      ensures old(cache).None? && loader.Some? ==> loads == old(loads) + 1
      ensures old(cache).None? && loader.Some? && loader.value().None? ==>
        r == Failure(NullPointer("")) && cache.None?
      ensures old(cache).None? && loader.Some? && loader.value().Some? ==>
        r == Success(loader.value().value) && cache == Some(loader.value().value)
      ensures r.Success? ==> cache == Some(r.value)
    {
      if cache.Some? {
        return Success(cache.value);
      }
      if loader.None? {
        return Failure(NullPointer(""));
      }
      loads := loads + 1;
      var loaded := loader.value();
      if loaded.None? {
        return Failure(NullPointer(""));
      }
      var copy := loaded.value;
      cache := Some(copy);
      r := Success(copy);
    }
  }

  /** Once filled, the cell answers every later call with the same map, whatever loader is
      passed, and no loader is called again. */
  method GetTwice<K, V>(c: Cache<K, V>, first: Option<() -> Option<Entries<K, V>>>,
                        second: Option<() -> Option<Entries<K, V>>>)
    returns (a: Result<Entries<K, V>, Exception>, b: Result<Entries<K, V>, Exception>)
    modifies c
    ensures a.Success? ==> b == a && c.cache == Some(a.value)
    ensures a.Success? ==> c.loads == old(c.loads) + (if old(c.cache).None? then 1 else 0)
    ensures old(c.cache).Some? ==> a == b == Success(old(c.cache).value) && c.cache == old(c.cache)
  {
    a := c.Get(first);
    b := c.Get(second);
  }
}
