/**
  The sequential behaviour of a Guava LoadingCache keyed by strings: a map
  of stored values and the loader the cache was built with. A get returns
  the stored value on a hit; on a miss it runs the loader and stores what
  it returns, unless the loader failed.
 */
module Cache {
  import opened Wrappers
  import opened SheetsErrors

  /** What a CacheLoader computes for a key, or the exception it throws. */
  type Loader<V> = string -> Result<V, LoadError>

  /** The stored values after a get of key, given those before it. */
  function AfterGet<V>(entries: map<string, V>, key: string, load: Loader<V>): map<string, V>
  {
    if key in entries then entries
    else match load(key)
      case Success(v) => entries[key := v]
      case Failure(_) => entries
  }

  class LoadingCache<V> {
    /** The loader given to CacheBuilder.build. */
    const load: Loader<V>
    /** The values stored so far, by key. */
    var entries: map<string, V>

    /** Every stored value is what the loader gives for its key. */
    ghost predicate Valid()
      reads this
    {
      forall k :: k in entries ==> load(k) == Success(entries[k])
    }

    /** An empty cache around a loader. */
    constructor (load: Loader<V>)
      ensures this.load == load && entries == map[] && Valid()
    {
      this.load := load;
      entries := map[];
    }

    /**
      LoadingCache.get: a hit returns the stored value and changes nothing; a
      miss returns what the loader gives, storing it under key alone when the
      load succeeded and storing nothing when it failed.
     */
    method Get(key: string) returns (r: Result<V, LoadError>)
      requires Valid()
      modifies this
      ensures Valid()
      ensures r == load(key)
      ensures key in old(entries) ==> r == Success(old(entries)[key]) && entries == old(entries)
      ensures key !in old(entries) ==>
        entries == if r.Success? then old(entries)[key := r.value] else old(entries)
    {
      if key in entries {
        r := Success(entries[key]);
      } else {
        r := load(key);
        if r.Success? {
          entries := entries[key := r.value];
        }
      }
    }
  }
}
