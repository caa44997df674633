/** The protected read as code, run by one caller: the early returns, the double check
    inside the flight, and what each Redis command may do. */
module ProtectedCacheCode {
  import opened CacheModel
  import opened Wrappers

  class RedisCache {
    var store: map<string, Entry>
    var inFlight: set<string>
    const now: int

    constructor (now: int)
      ensures store == map[] && inFlight == {} && this.now == now
    {
      this.now, store, inFlight := now, map[], {};
    }

    /** GET; None stands for an error, be it a missing key or a failure. */
    method Get(key: string, works: bool) returns (val: Option<string>)
      ensures val == if works && key in store then Some(store[key].value) else None
    {
      if works && key in store {
        val := Some(store[key].value);
      } else {
        val := None;
      }
    }

    method Set(key: string, val: string, ttl: int, works: bool)
      modifies this`store
      ensures store == if works then old(store)[key := Entry(val, now + ttl)] else old(store)
    {
      if works {
        store := store[key := Entry(val, now + ttl)];
      }
    }

    /** GetWithProtection of utils/redis/cache.go. `loader` is what the loader returns if it
        is called, None being its error; reads and write say whether the Redis commands work.
        If others are flying for the key, `shared` is what their flight ends with. */
    method GetWithProtection(key: string, baseTTL: int, loader: Option<string>, jitter: nat, shared: Outcome,
                             firstWorks: bool, secondWorks: bool, setWorks: bool)
      returns (outcome: Outcome, called: bool)
      requires 10 <= baseTTL && jitter < baseTTL / 10
      modifies this
      ensures inFlight == old(inFlight)
      ensures var hit := firstWorks && key in old(store);
              var joins := !hit && key in old(inFlight);
              && (called <==> !joins && !((firstWorks || secondWorks) && key in old(store)))
              && (joins ==> outcome == shared && store == old(store))
              && (!called && !joins ==> outcome == Value(Decode(old(store[key].value))) && store == old(store))
      ensures called && loader.None? ==> outcome == LoaderError && store == old(store)
      ensures called && loader.Some? ==> outcome == Value(loader.value)
      ensures called && loader.Some? && !setWorks ==> store == old(store)
      ensures called && loader.Some? && setWorks ==>
                && store.Keys == old(store.Keys) + {key}
                && store[key].value == Encode(loader.value)
                && (loader.value == "" ==> store[key].deadline == now + EMPTY_CACHE_TTL)
                && (loader.value != "" ==> now + baseTTL <= store[key].deadline < now + baseTTL + baseTTL / 10)
                && (forall k :: k in old(store) && k != key ==> store[k] == old(store[k]))
    {
      called := false;
      var val := Get(key, firstWorks);
      if val.Some? {
        if val.value == EMPTY_CACHE_VALUE {
          return Value(""), called;
        }
        return Value(val.value), called;
      }
      if key in inFlight {
        return shared, called;
      }
      inFlight := inFlight + {key};
      outcome, called := RunFlight(key, baseTTL, loader, jitter, secondWorks, setWorks);
      inFlight := inFlight - {key};
    }

    /** The function that singleflight runs. */
    method RunFlight(key: string, baseTTL: int, loader: Option<string>, jitter: nat,
                     getWorks: bool, setWorks: bool)
      returns (outcome: Outcome, called: bool)
      requires 10 <= baseTTL && jitter < baseTTL / 10
      modifies this`store
      ensures called <==> !(getWorks && key in old(store))
      ensures !called ==> outcome == Value(Decode(old(store[key].value)))
      ensures called ==> outcome == if loader.None? then LoaderError else Value(loader.value)
      ensures store == if called && loader.Some? && setWorks
                       then old(store)[key := Entry(Encode(loader.value),
                              now + BaseTTL(loader.value, baseTTL) + if loader.value == "" then 0 else jitter)]
                       else old(store)
    {
      called := false;
      var val := Get(key, getWorks);
      if val.Some? {
        if val.value == EMPTY_CACHE_VALUE {
          return Value(""), called;
        }
        return Value(val.value), called;
      }
      called := true;
      if loader.None? {
        return LoaderError, called;
      }
      if loader.value == "" {
        Set(key, EMPTY_CACHE_VALUE, EMPTY_CACHE_TTL, setWorks);
        return Value(""), called;
      }
      Set(key, loader.value, baseTTL + jitter, setWorks);
      return Value(loader.value), called;
    }
  }
}
