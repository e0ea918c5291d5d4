/** `CacheService`: a typed facade over the process-wide `MemoryCache.Default`.
    The clock is a parameter (`now`, in milliseconds); an entry whose absolute
    expiry has been reached is gone. */
module Cache {
  import opened Values

  const MillisPerMinute := 60_000

  /** A cached object with its absolute expiry time. */
  datatype Entry = Entry(obj: Obj, expiresAt: int)

  /** The contents of the memory cache, by key. */
  type Store = map<string, Entry>

  /** `key` has an entry that has not expired at `now`. */
  predicate Live(store: Store, key: string, now: int)
  {
    key in store && now < store[key].expiresAt
  }

  /** `MemoryCache.Default.Get(key) as T` at time `now`. */
  function Lookup(store: Store, key: string, target: TypeTag, now: int): (r: Option<Obj>)
    ensures r.Some? <==> Live(store, key, now) && IsA(store[key].obj.runtimeType, target)
    ensures r.Some? ==> r.value == store[key].obj
  {
    if Live(store, key, now) then As(Some(store[key].obj), target) else None
  }

  /** The store after `Set(key, data, minutes)` at time `now`: null data is
      ignored, and `MemoryCache.Add` never replaces a live entry. */
  function Added(store: Store, key: string, data: Option<Obj>, minutes: int, now: int): (r: Store)
    ensures r - {key} == store - {key}
    ensures data.None? || Live(store, key, now) ==> r == store
    ensures data.Some? && !Live(store, key, now) ==>
              key in r && r[key] == Entry(data.value, now + minutes * MillisPerMinute)
  {
    if data.Some? && !Live(store, key, now) then
      store[key := Entry(data.value, now + minutes * MillisPerMinute)]
    else
      store
  }

  /** `MemoryCache.Default`: the store; one object, when every `CacheService` is given it. */
  class MemoryCache {
    var entries: Store

    constructor()
      ensures entries == map[]
    {
      entries := map[];
    }
  }

  /** `CacheService`, working on the memory cache it is given. */
  class CacheService {
    const memory: MemoryCache

    constructor(memory: MemoryCache)
      ensures this.memory == memory
    {
      this.memory := memory;
    }

    /** `Get<T>(key)`: the live entry when it is a `T`, null otherwise. */
    method Get(key: string, target: TypeTag, now: int) returns (r: Option<Obj>)
      ensures r == Lookup(memory.entries, key, target, now)
      ensures r.Some? ==> IsA(r.value.runtimeType, target)
    {
      if key in memory.entries && now < memory.entries[key].expiresAt {
        r := As(Some(memory.entries[key].obj), target);
      } else {
        r := None;
      }
    }

    /** `Set<T>(key, data, minutes)`: stores `data` until `minutes` from now,
        unless it is null or the key already has a live entry. `T` plays no part. */
    method Set(key: string, data: Option<Obj>, minutes: int32, now: int)
      modifies memory
      ensures memory.entries == Added(old(memory.entries), key, data, minutes as int, now)
    {
      if data.Some? {
        // `MemoryCache.Add`: add-if-absent, where an expired entry counts as absent
        if !(key in memory.entries && now < memory.entries[key].expiresAt) {
          memory.entries := memory.entries[key := Entry(data.value, now + minutes as int * MillisPerMinute)];
        }
      }
    }
  }

  /** Round trip: what `Set` stores, `Get` gives back as long as it has not
      expired, and only to a reader asking for its type (or `object`). */
  lemma SetThenGet(store: Store, key: string, obj: Obj, minutes: int, now: int, later: int, target: TypeTag)
    requires !Live(store, key, now)
    requires now <= later < now + minutes * MillisPerMinute
    ensures Lookup(Added(store, key, Some(obj), minutes, now), key, target, later)
            == (if IsA(obj.runtimeType, target) then Some(obj) else None)
  {
  }

  /** Once the expiry is reached the entry is gone, whatever was stored. */
  lemma ExpiredEntryIsMissing(store: Store, key: string, obj: Obj, minutes: int, now: int, later: int, target: TypeTag)
    requires !Live(store, key, now)
    requires later >= now + minutes * MillisPerMinute
    ensures Lookup(Added(store, key, Some(obj), minutes, now), key, target, later) == None
  {
  }

  /** Add-if-absent: `Set` on a key with a live entry changes nothing a reader can see. */
  lemma SetKeepsLiveEntry(store: Store, key: string, data: Option<Obj>, minutes: int, now: int, target: TypeTag)
    requires Live(store, key, now)
    ensures Added(store, key, data, minutes, now) == store
    ensures Lookup(Added(store, key, data, minutes, now), key, target, now) == Lookup(store, key, target, now)
  {
  }

  /** `Set` with null data is a no-op. */
  lemma SetNullIsNoOp(store: Store, key: string, minutes: int, now: int)
    ensures Added(store, key, None, minutes, now) == store
  {
  }

  /** `Set` on one key leaves every other key's reads unchanged. */
  lemma SetLeavesOtherKeys(store: Store, key: string, other: string, data: Option<Obj>, minutes: int, now: int,
                           later: int, target: TypeTag)
    requires other != key
    ensures Lookup(Added(store, key, data, minutes, now), other, target, later) == Lookup(store, other, target, later)
  {
    var r := Added(store, key, data, minutes, now);
    assert (other in r) == (other in r - {key}) && (other in store) == (other in store - {key});
    if other in r {
      assert r[other] == (r - {key})[other] == (store - {key})[other] == store[other];
    }
  }

  /** A key nobody has set misses. */
  lemma UnsetKeyMisses(store: Store, key: string, target: TypeTag, now: int)
    requires key !in store
    ensures Lookup(store, key, target, now) == None
  {
  }
}
