/** The in-memory cache with expiry and bounded size (packages/runtime/src/cache.ts:19-62). */
module RuntimeCache {
  import opened Collections
  import opened InsertionMap

  datatype Entry<T> = Entry(expiresAt: int, value: T)

  type Entries<T> = OrderedMap<string, Entry<T>>

  predicate Expired<T>(e: Entry<T>, now: int) {
    e.expiresAt <= now
  }

  /** The keys, in order, whose entries are not expired. */
  function LiveKeys<T>(keys: seq<string>, entries: map<string, Entry<T>>, now: int): seq<string>
    requires forall k :: k in keys ==> k in entries
  {
    if keys == [] then []
    else (if Expired(entries[keys[0]], now) then [] else [keys[0]]) + LiveKeys(keys[1..], entries, now)
  }

  function LiveEntries<T>(entries: map<string, Entry<T>>, now: int): map<string, Entry<T>> {
    map k | k in entries.Keys && !Expired(entries[k], now) :: entries[k]
  }

  /** What is left when every expired entry is dropped. */
  function Swept<T>(m: Entries<T>, now: int): Entries<T>
    requires m.Valid()
  {
    OrderedMap(LiveKeys(m.keys, m.entries, now), LiveEntries(m.entries, now))
  }

  function Lookup<T>(m: Entries<T>, key: string, now: int): Option<T> {
    if key in m.entries && !Expired(m.entries[key], now) then Some(m.entries[key].value) else None
  }

  function AfterGet<T>(m: Entries<T>, key: string, now: int): Entries<T> {
    if key in m.entries && Expired(m.entries[key], now) then m.Delete(key) else m
  }

  /** Room for one more entry: expired ones go first, then the oldest. */
  function MakeRoom<T>(m: Entries<T>, maxSize: nat, now: int): Entries<T>
    requires m.Valid()
  {
    var swept := if |m.keys| >= maxSize then Swept(m, now) else m;
    if |swept.keys| >= maxSize && swept.keys != [] then swept.Delete(swept.keys[0]) else swept
  }

  /** The clock is read once for expiry and again for the new entry. */
  function AfterSet<T>(m: Entries<T>, maxSize: nat, key: string, value: T, ttl: int, sweepTime: int, setTime: int)
    : Entries<T>
    requires m.Valid()
  {
    MakeRoom(m, maxSize, sweepTime).Put(key, Entry(setTime + Max(ttl, 1), value))
  }

  // ---- Sweeping ----

  lemma {:induction false} LiveKeysMembers<T>(keys: seq<string>, entries: map<string, Entry<T>>, now: int)
    requires NoDuplicates(keys) && forall k :: k in keys ==> k in entries
    ensures NoDuplicates(LiveKeys(keys, entries, now))
    ensures forall k :: k in LiveKeys(keys, entries, now) <==> k in keys && !Expired(entries[k], now)
    ensures |LiveKeys(keys, entries, now)| <= |keys|
  {
    if keys != [] {
      LiveKeysMembers(keys[1..], entries, now);
      assert keys[0] !in keys[1..];
    }
  }

  lemma SweptIsValid<T>(m: Entries<T>, now: int)
    requires m.Valid()
    ensures Swept(m, now).Valid()
    ensures |Swept(m, now).keys| <= |m.keys|
  {
    LiveKeysMembers(m.keys, m.entries, now);
  }

  // ---- The cache ----

  class RuntimeMemoryCache<T> {
    const defaultTtlMs: int
    const maxSize: nat
    var entries: Entries<T>

    ghost predicate Valid()
      reads this
    {
      entries.Valid() && |entries.keys| <= maxSize && maxSize >= 1 && defaultTtlMs >= 1
    }

    constructor (defaultTtl: Option<int>, maximum: Option<int>)
      ensures Valid() && entries == Empty()
      ensures maxSize == Max(if maximum.Some? then maximum.value else 1000, 1)
      ensures defaultTtlMs == Max(if defaultTtl.Some? then defaultTtl.value else 60000, 1)
    {
      defaultTtlMs := Max(if defaultTtl.Some? then defaultTtl.value else 60000, 1);
      maxSize := Max(if maximum.Some? then maximum.value else 1000, 1);
      entries := Empty();
    }

    method EvictExpired(now: int)
      requires entries.Valid()
      modifies this
      ensures entries == Swept(old(entries), now)
    {
      var kept: seq<string> := [];
      ghost var all := entries;
      for i := 0 to |entries.keys|
        invariant kept == LiveKeys(all.keys[..i], all.entries, now)
        invariant entries == all
      {
        assert all.keys[i] in all.keys;
        LiveKeysAppend(all.keys[..i], all.keys[i], all.entries, now);
        assert all.keys[..i + 1] == all.keys[..i] + [all.keys[i]];
        if entries.entries[entries.keys[i]].expiresAt > now {
          kept := kept + [entries.keys[i]];
        }
      }
      assert all.keys[..|all.keys|] == all.keys;
      entries := OrderedMap(kept, LiveEntries(entries.entries, now));
    }

    method Get(key: string, now: int) returns (value: Option<T>)
      requires Valid()
      modifies this
      ensures Valid()
      ensures value == Lookup(old(entries), key, now)
      ensures entries == AfterGet(old(entries), key, now)
    {
      var entry := entries.Get(key);
      if entry.None? {
        return None;
      }
      if entry.value.expiresAt <= now {
        DeleteKeepsValid(entries, key);
        entries := entries.Delete(key);
        return None;
      }
      return Some(entry.value.value);
    }

    method Set(key: string, value: T, ttlMs: Option<int>, sweepTime: int, setTime: int)
      requires Valid()
      modifies this
      ensures Valid()
      ensures entries == AfterSet(old(entries), maxSize, key, value,
                                  if ttlMs.Some? then ttlMs.value else defaultTtlMs, sweepTime, setTime)
    {
      MakeRoomFits(entries, maxSize, sweepTime);
      if |entries.keys| >= maxSize {
        EvictExpired(sweepTime);
      }
      if |entries.keys| >= maxSize {
        if entries.keys != [] {
          entries := entries.Delete(entries.keys[0]);
        }
      }
      var effectiveTtlMs := Max(if ttlMs.Some? then ttlMs.value else defaultTtlMs, 1);
      PutKeepsValid(entries, key, Entry(setTime + effectiveTtlMs, value));
      entries := entries.Put(key, Entry(setTime + effectiveTtlMs, value));
    }

    method Delete(key: string)
      requires Valid()
      modifies this
      ensures Valid()
      ensures entries == old(entries).Delete(key)
    {
      DeleteKeepsValid(entries, key);
      entries := entries.Delete(key);
    }

    method Clear()
      requires Valid()
      modifies this
      ensures Valid()
      ensures entries == Empty()
    {
      entries := Empty();
    }
  }

  lemma {:induction false} LiveKeysAppend<T>(keys: seq<string>, k: string, entries: map<string, Entry<T>>, now: int)
    requires k in entries && forall j :: j in keys ==> j in entries
    ensures LiveKeys(keys + [k], entries, now) ==
            LiveKeys(keys, entries, now) + if Expired(entries[k], now) then [] else [k]
  {
    if keys == [] {
      assert keys + [k] == [k];
      assert LiveKeys([k][1..], entries, now) == [];
    } else {
      assert (keys + [k])[1..] == keys[1..] + [k];
      assert keys[0] in keys;
      LiveKeysAppend(keys[1..], k, entries, now);
    }
  }

  lemma MakeRoomFits<T>(m: Entries<T>, maxSize: nat, now: int)
    requires m.Valid() && maxSize >= 1 && |m.keys| <= maxSize
    ensures MakeRoom(m, maxSize, now).Valid() && |MakeRoom(m, maxSize, now).keys| < maxSize
  {
    SweptIsValid(m, now);
    var swept := if |m.keys| >= maxSize then Swept(m, now) else m;
    if |swept.keys| >= maxSize {
      DeleteKeepsValid(swept, swept.keys[0]);
      assert swept.keys[0] in swept.keys;
    }
  }
}
