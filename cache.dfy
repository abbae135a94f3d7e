/**
 * The process-local Django cache (`LocMemCache`) the throttles count in,
 * reduced to what the core uses: integer values per key, the timeout last
 * given for each key, and the four calls `incr`, `get`, `add` and `set`.
 * Expiry by wall clock is not modelled: an entry stays until overwritten.
 */
module KeyValueCache {
  import opened Wrappers

  /** `cache.get(key, 0)`: the stored counter, or 0 for a missing key. */
  function CountOf(entries: map<string, int>, key: string): (n: int)
    ensures key in entries ==> n == entries[key]
    ensures key !in entries ==> n == 0
  {
    if key in entries then entries[key] else 0
  }

  class Cache {
    var entries: map<string, int>
    var timeouts: map<string, int>
    /**
     * Whether `incr` works on an existing key. The local-memory backend
     * supports it; a backend that raises on every `incr` drives the
     * throttle into its fallback path.
     */
    const incrSupported: bool

    constructor (incrSupported: bool)
      ensures entries == map[] && timeouts == map[]
      ensures this.incrSupported == incrSupported
    {
      entries := map[];
      timeouts := map[];
      this.incrSupported := incrSupported;
    }

    /**
     * `cache.incr(key)`: adds one to an existing counter and returns the new
     * value. `None` stands for the ValueError raised for a missing key (or by
     * a backend without incr); the timeout is left as it was.
     */
    method Incr(key: string) returns (r: Option<int>)
      modifies this
      ensures incrSupported && key in old(entries) ==>
                r == Some(old(entries)[key] + 1) && entries == old(entries)[key := old(entries)[key] + 1]
      ensures !(incrSupported && key in old(entries)) ==> r == None && entries == old(entries)
      ensures timeouts == old(timeouts)
    {
      if incrSupported && key in entries {
        entries := entries[key := entries[key] + 1];
        r := Some(entries[key]);
      } else {
        r := None;
      }
    }

    /** `cache.get(key)`: the stored value, `None` for a missing key. */
    method Get(key: string) returns (r: Option<int>)
      ensures key in entries ==> r == Some(entries[key])
      ensures key !in entries ==> r == None
    {
      r := if key in entries then Some(entries[key]) else None;
    }

    /** `cache.add(key, value, timeout)`: stores only when the key is missing. */
    method Add(key: string, value: int, timeout: int) returns (added: bool)
      modifies this
      ensures added <==> key !in old(entries)
      ensures entries == if added then old(entries)[key := value] else old(entries)
      ensures timeouts == if added then old(timeouts)[key := timeout] else old(timeouts)
    {
      added := key !in entries;
      if added {
        entries := entries[key := value];
        timeouts := timeouts[key := timeout];
      }
    }

    /** `cache.set(key, value, timeout)`: stores unconditionally. */
    method Set(key: string, value: int, timeout: int)
      modifies this
      ensures entries == old(entries)[key := value]
      ensures timeouts == old(timeouts)[key := timeout]
    {
      entries := entries[key := value];
      timeouts := timeouts[key := timeout];
    }
  }
}
