/** The cache against a plain map, over runs, and what dropping expired entries does to one set. */
module CacheProperties {
  import opened Collections
  import opened InsertionMap
  import opened RuntimeCache

  // ---- One set ----

  /** The live entry that a set has to give up: the oldest, when live entries alone fill the cache. */
  function Victim<T>(m: Entries<T>, maxSize: nat, now: int): Option<string>
    requires m.Valid()
  {
    var live := LiveKeys(m.keys, m.entries, now);
    if |live| >= maxSize && live != [] then Some(live[0]) else None
  }

  lemma RoomLeavesOthers<T>(m: Entries<T>, maxSize: nat, now: int, key: string, t: int)
    requires m.Valid() && maxSize >= 1 && now <= t
    ensures Lookup(MakeRoom(m, maxSize, now), key, t) ==
            if Victim(m, maxSize, now) == Some(key) then None else Lookup(m, key, t)
  {
    LiveKeysMembers(m.keys, m.entries, now);
    SweptIsValid(m, now);
  }

  /** A set makes its value live, gives up the victim if there is one, and changes nothing else. */
  lemma SetEffect<T>(m: Entries<T>, maxSize: nat, key: string, value: T, ttl: int, sweepTime: int, setTime: int,
                     other: string, t: int)
    requires m.Valid() && maxSize >= 1 && |m.keys| <= maxSize
    requires sweepTime <= setTime <= t
    ensures var after := AfterSet(m, maxSize, key, value, ttl, sweepTime, setTime);
      && after.Valid() && |after.keys| <= maxSize
      && Lookup(after, key, t) == (if t < setTime + Max(ttl, 1) then Some(value) else None)
      && (other == key || Lookup(after, other, t) ==
            (if Victim(m, maxSize, sweepTime) == Some(other) then None else Lookup(m, other, t)))
  {
    MakeRoomFits(m, maxSize, sweepTime);
    RoomLeavesOthers(m, maxSize, sweepTime, other, t);
    PutKeepsValid(MakeRoom(m, maxSize, sweepTime), key, Entry(setTime + Max(ttl, 1), value));
  }

  /** A get drops the entry it finds expired, so that the key loses its place, and changes nothing else. */
  lemma GetEffect<T>(m: Entries<T>, key: string, now: int)
    requires m.Valid()
    ensures var after := AfterGet(m, key, now);
      && after.Valid()
      && (key in after.entries <==> key in m.entries && now < m.entries[key].expiresAt)
      && (forall k :: k != key ==> (k in after.entries <==> k in m.entries))
      && (forall k :: k in after.entries ==> after.entries[k] == m.entries[k])
      && after.keys == (if key in after.entries || key !in m.entries then m.keys else Without(m.keys, key))
  {
    DeleteKeepsValid(m, key);
  }

  // ---- Runs ----

  datatype Op<T> =
    | GetOp(key: string, time: int)
    | SetOp(key: string, value: T, ttl: int, sweepTime: int, setTime: int)
    | DeleteOp(key: string)
    | ClearOp

  ghost function Apply<T>(m: Entries<T>, maxSize: nat, op: Op<T>): Entries<T>
    requires m.Valid()
  {
    match op
    case GetOp(key, time) => AfterGet(m, key, time)
    case SetOp(key, value, ttl, sweepTime, setTime) => AfterSet(m, maxSize, key, value, ttl, sweepTime, setTime)
    case DeleteOp(key) => m.Delete(key)
    case ClearOp => Empty()
  }

  /** The clock at which the operation is done; a delete or clear takes no reading. */
  function EndTime<T>(op: Op<T>, before: int): int {
    match op
    case GetOp(_, time) => time
    case SetOp(_, _, _, _, setTime) => setTime
    case _ => before
  }

  predicate InTime<T>(op: Op<T>, before: int) {
    match op
    case GetOp(_, time) => before <= time
    case SetOp(_, _, _, sweepTime, setTime) => before <= sweepTime <= setTime
    case _ => true
  }

  function ClockAfter<T>(ops: seq<Op<T>>, start: int): int {
    if ops == [] then start else EndTime(Last(ops), ClockAfter(Init(ops), start))
  }

  predicate NonDecreasing<T>(ops: seq<Op<T>>, start: int) {
    ops == [] || (NonDecreasing(Init(ops), start) && InTime(Last(ops), ClockAfter(Init(ops), start)))
  }

  lemma ApplyKeepsBounds<T>(m: Entries<T>, maxSize: nat, op: Op<T>)
    requires m.Valid() && maxSize >= 1 && |m.keys| <= maxSize
    ensures Apply(m, maxSize, op).Valid() && |Apply(m, maxSize, op).keys| <= maxSize
  {
    match op
    case GetOp(key, _) => DeleteKeepsValid(m, key);
    case SetOp(key, value, ttl, sweepTime, setTime) =>
      MakeRoomFits(m, maxSize, sweepTime);
      PutKeepsValid(MakeRoom(m, maxSize, sweepTime), key, Entry(setTime + Max(ttl, 1), value));
    case DeleteOp(key) => DeleteKeepsValid(m, key);
    case ClearOp =>
  }

  /** The entries after a run; the size never exceeds the maximum. */
  ghost function After<T>(maxSize: nat, ops: seq<Op<T>>): (m: Entries<T>)
    requires maxSize >= 1
    ensures m.Valid() && |m.keys| <= maxSize
  {
    if ops == [] then Empty()
    else
      var before := After(maxSize, Init(ops));
      ApplyKeepsBounds(before, maxSize, Last(ops));
      Apply(before, maxSize, Last(ops))
  }

  /** What a plain map would hold: the entry last set for the key and not deleted or cleared since. */
  function LastSet<T>(ops: seq<Op<T>>, key: string): Option<Entry<T>> {
    if ops == [] then None
    else
      match Last(ops)
      case SetOp(k, value, ttl, _, setTime) =>
        if k == key then Some(Entry(setTime + Max(ttl, 1), value)) else LastSet(Init(ops), key)
      case DeleteOp(k) => if k == key then None else LastSet(Init(ops), key)
      case ClearOp => None
      case GetOp(_, _) => LastSet(Init(ops), key)
  }

  function PlainLookup<T>(ops: seq<Op<T>>, key: string, now: int): Option<T> {
    var e := LastSet(ops, key);
    if e.Some? && !Expired(e.value, now) then Some(e.value.value) else None
  }

  lemma RoomKeepsEntries<T>(m: Entries<T>, maxSize: nat, now: int, key: string)
    requires m.Valid()
    requires key in MakeRoom(m, maxSize, now).entries
    ensures key in m.entries && MakeRoom(m, maxSize, now).entries[key] == m.entries[key]
  {
  }

  /** Where an entry that is held after an operation comes from. */
  lemma HeldAfter<T>(m: Entries<T>, maxSize: nat, op: Op<T>, key: string)
    requires m.Valid()
    requires key in Apply(m, maxSize, op).entries
    ensures !op.ClearOp? && (op.DeleteOp? ==> op.key != key)
    ensures if op.SetOp? && op.key == key
            then Apply(m, maxSize, op).entries[key] == Entry(op.setTime + Max(op.ttl, 1), op.value)
            else key in m.entries && Apply(m, maxSize, op).entries[key] == m.entries[key]
  {
    if op.SetOp? && op.key != key {
      RoomKeepsEntries(m, maxSize, op.sweepTime, key);
    }
  }

  /** Whatever is still held for a key is what was last set for it. */
  lemma {:induction false} HoldsOnlyLastSet<T>(maxSize: nat, ops: seq<Op<T>>, key: string)
    requires maxSize >= 1
    requires key in After(maxSize, ops).entries
    ensures LastSet(ops, key) == Some(After(maxSize, ops).entries[key])
  {
    var op := Last(ops);
    HeldAfter(After(maxSize, Init(ops)), maxSize, op, key);
    if !(op.SetOp? && op.key == key) {
      HoldsOnlyLastSet(maxSize, Init(ops), key);
    }
  }

  /** A get never returns anything a plain map would not. */
  lemma GetReturnsOnlyLastSet<T>(maxSize: nat, ops: seq<Op<T>>, key: string, now: int)
    requires maxSize >= 1
    ensures Lookup(After(maxSize, ops), key, now).Some? ==>
              Lookup(After(maxSize, ops), key, now) == PlainLookup(ops, key, now)
  {
    if key in After(maxSize, ops).entries {
      HoldsOnlyLastSet(maxSize, ops, key);
    }
  }

  /** No set ever meets a cache that live entries alone fill. */
  ghost predicate NeverCrowded<T>(maxSize: nat, ops: seq<Op<T>>)
    requires maxSize >= 1
  {
    ops == [] ||
    (NeverCrowded(maxSize, Init(ops)) &&
     (Last(ops).SetOp? ==> Victim(After(maxSize, Init(ops)), maxSize, Last(ops).sweepTime).None?))
  }

  lemma ApplyLookup<T>(m: Entries<T>, maxSize: nat, op: Op<T>, before: int, key: string, now: int)
    requires m.Valid() && maxSize >= 1 && |m.keys| <= maxSize
    requires InTime(op, before) && EndTime(op, before) <= now
    requires op.SetOp? ==> Victim(m, maxSize, op.sweepTime).None?
    ensures Lookup(Apply(m, maxSize, op), key, now) ==
      match op
      case SetOp(k, value, ttl, _, setTime) =>
        if k == key then (if now < setTime + Max(ttl, 1) then Some(value) else None) else Lookup(m, key, now)
      case DeleteOp(k) => if k == key then None else Lookup(m, key, now)
      case ClearOp => None
      case GetOp(_, _) => Lookup(m, key, now)
  {
    match op
    case SetOp(k, value, ttl, sweepTime, setTime) =>
      SetEffect(m, maxSize, k, value, ttl, sweepTime, setTime, key, now);
    case _ =>
  }

  lemma ClockRuns<T>(op: Op<T>, before: int)
    requires InTime(op, before)
    ensures before <= EndTime(op, before)
  {
  }

  /** Uncrowded, the cache answers exactly like a plain map. */
  lemma {:induction false} RefinesPlainMap<T>(maxSize: nat, ops: seq<Op<T>>, start: int, key: string, now: int)
    requires maxSize >= 1 && NeverCrowded(maxSize, ops)
    requires NonDecreasing(ops, start) && ClockAfter(ops, start) <= now
    ensures Lookup(After(maxSize, ops), key, now) == PlainLookup(ops, key, now)
  {
    if ops != [] {
      var before := ClockAfter(Init(ops), start);
      ClockRuns(Last(ops), before);
      RefinesPlainMap(maxSize, Init(ops), start, key, now);
      ApplyLookup(After(maxSize, Init(ops)), maxSize, Last(ops), before, key, now);
    }
  }

  // ---- Dropping expired entries ----

  /** Equal but for expired entries: the same live entries in the same order. */
  ghost predicate SameLive<T>(a: Entries<T>, b: Entries<T>, now: int)
    requires a.Valid() && b.Valid()
  {
    Swept(a, now) == Swept(b, now)
  }

  lemma {:induction false} LiveKeysConcat<T>(a: seq<string>, b: seq<string>, entries: map<string, Entry<T>>, now: int)
    requires forall k :: k in a + b ==> k in entries
    ensures LiveKeys(a + b, entries, now) == LiveKeys(a, entries, now) + LiveKeys(b, entries, now)
  {
    if a == [] {
      assert a + b == b;
    } else {
      assert (a + b)[1..] == a[1..] + b;
      assert a[0] in a + b;
      LiveKeysConcat(a[1..], b, entries, now);
    }
  }

  lemma {:induction false} LiveKeysAgree<T>(keys: seq<string>, a: map<string, Entry<T>>, b: map<string, Entry<T>>,
                                            now: int)
    requires forall k :: k in keys ==> k in a && k in b && (Expired(a[k], now) <==> Expired(b[k], now))
    ensures LiveKeys(keys, a, now) == LiveKeys(keys, b, now)
  {
    if keys != [] {
      assert keys[0] in keys;
      LiveKeysAgree(keys[1..], a, b, now);
    }
  }

  lemma {:induction false} LiveKeysAllLive<T>(keys: seq<string>, entries: map<string, Entry<T>>, now: int)
    requires forall k :: k in keys ==> k in entries && !Expired(entries[k], now)
    ensures LiveKeys(keys, entries, now) == keys
  {
    if keys != [] {
      assert keys[0] in keys;
      LiveKeysAllLive(keys[1..], entries, now);
    }
  }

  lemma SweptTwice<T>(m: Entries<T>, now: int)
    requires m.Valid()
    ensures Swept(m, now).Valid() && Swept(Swept(m, now), now) == Swept(m, now)
  {
    SweptIsValid(m, now);
    LiveKeysMembers(m.keys, m.entries, now);
    LiveKeysAllLive(Swept(m, now).keys, Swept(m, now).entries, now);
  }

  /** The other keys on both sides of a key. */
  lemma Neighbours<T>(m: Entries<T>, before: seq<string>, after: seq<string>, key: string)
    requires m.Valid() && m.keys == before + [key] + after
    ensures forall k :: k in before ==> k in m.entries && k != key
    ensures forall k :: k in after ==> k in m.entries && k != key
  {
    assert m.keys[|before|] == key;
    forall k | k in before
      ensures k in m.entries && k != key
    {
      var i :| 0 <= i < |before| && before[i] == k;
      assert m.keys[i] == k && m.keys[i] in m.keys;
    }
    forall k | k in after
      ensures k in m.entries && k != key
    {
      var i :| 0 <= i < |after| && after[i] == k;
      assert m.keys[|before| + 1 + i] == k && m.keys[|before| + 1 + i] in m.keys;
    }
  }

  lemma LiveAround<T>(entries: map<string, Entry<T>>, before: seq<string>, after: seq<string>, key: string, now: int)
    requires forall k :: k in before ==> k in entries
    requires forall k :: k in after ==> k in entries
    requires key in entries
    ensures forall k :: k in before + [key] + after ==> k in entries
    ensures LiveKeys(before + [key] + after, entries, now) ==
            LiveKeys(before, entries, now) + (if Expired(entries[key], now) then [] else [key]) +
            LiveKeys(after, entries, now)
  {
    LiveKeysConcat(before + [key], after, entries, now);
    LiveKeysAppend(before, key, entries, now);
  }

  lemma {:induction false} FindKey(keys: seq<string>, key: string) returns (before: seq<string>, after: seq<string>)
    requires key in keys
    ensures keys == before + [key] + after
  {
    var i :| 0 <= i < |keys| && keys[i] == key;
    before, after := keys[..i], keys[i + 1..];
  }

  /** Live entries of a map and of its live part agree after the same put. */
  lemma LiveAfterPut<T>(entries: map<string, Entry<T>>, key: string, e: Entry<T>, now: int)
    requires !Expired(e, now)
    ensures LiveEntries(entries[key := e], now) == LiveEntries(LiveEntries(entries, now)[key := e], now)
  {
  }

  /** The live keys after putting a present key: it keeps its place. */
  lemma PutPresentLive<T>(m: Entries<T>, before: seq<string>, after: seq<string>, key: string, e: Entry<T>, now: int)
    requires m.Valid() && m.keys == before + [key] + after && !Expired(e, now)
    ensures forall k :: k in before ==> k in m.entries
    ensures forall k :: k in after ==> k in m.entries
    ensures key in m.entries && m.Put(key, e).Valid()
    ensures Swept(m.Put(key, e), now).keys ==
            LiveKeys(before, m.entries, now) + [key] + LiveKeys(after, m.entries, now)
  {
    Neighbours(m, before, after, key);
    assert m.keys[|before|] in m.keys;
    PutKeepsValid(m, key, e);
    var entries := m.entries[key := e];
    LiveAround(entries, before, after, key, now);
    LiveKeysAgree(before, m.entries, entries, now);
    LiveKeysAgree(after, m.entries, entries, now);
  }

  lemma AllLivePut<T>(m: Entries<T>, key: string, e: Entry<T>, now: int)
    requires m.Valid() && !Expired(e, now)
    requires forall k :: k in m.entries ==> !Expired(m.entries[k], now)
    ensures m.Put(key, e).Valid()
    ensures Swept(m.Put(key, e), now).keys == m.Put(key, e).keys
  {
    PutKeepsValid(m, key, e);
    LiveKeysAllLive(m.Put(key, e).keys, m.Put(key, e).entries, now);
  }

  /** The keys of the swept map around one key. */
  lemma SweptAround<T>(m: Entries<T>, before: seq<string>, after: seq<string>, key: string, now: int)
    requires m.Valid() && m.keys == before + [key] + after
    requires forall k :: k in before ==> k in m.entries
    requires forall k :: k in after ==> k in m.entries
    requires key in m.entries
    ensures Swept(m, now).Valid()
    ensures key in Swept(m, now).entries <==> !Expired(m.entries[key], now)
    ensures var live, more := LiveKeys(before, m.entries, now), LiveKeys(after, m.entries, now);
      Swept(m, now).keys == if key in Swept(m, now).entries then live + [key] + more else live + more
  {
    hide LiveKeys, NoDuplicates;
    LiveAround(m.entries, before, after, key, now);
    SweptIsValid(m, now);
    if Expired(m.entries[key], now) {
      var live, more := LiveKeys(before, m.entries, now), LiveKeys(after, m.entries, now);
      assert live + [] + more == live + more;
    }
  }

  lemma SweptIsLive<T>(m: Entries<T>, now: int)
    requires m.Valid()
    ensures Swept(m, now).Valid()
    ensures forall k :: k in Swept(m, now).entries ==> !Expired(Swept(m, now).entries[k], now)
  {
    SweptIsValid(m, now);
  }

  lemma PutOrder<T>(swept: Entries<T>, live: seq<string>, more: seq<string>, key: string, e: Entry<T>, now: int)
    requires swept.Valid() && !Expired(e, now)
    requires forall k :: k in swept.entries ==> !Expired(swept.entries[k], now)
    requires swept.keys == if key in swept.entries then live + [key] + more else live + more
    ensures swept.Put(key, e).Valid()
    ensures Swept(swept.Put(key, e), now).keys ==
            if key in swept.entries then live + [key] + more else live + more + [key]
  {
    AllLivePut(swept, key, e, now);
  }

  /** The expired leftover of the key keeps a place in front of a live entry. */
  ghost predicate LeftoverAhead<T>(m: Entries<T>, key: string, now: int)
    requires m.Valid()
  {
    key in m.entries && Expired(m.entries[key], now) &&
    exists j :: 0 <= j < |m.keys| && Follows(m.keys, key, j) && !Expired(m.entries[m.keys[j]], now)
  }

  predicate Follows(keys: seq<string>, key: string, j: nat)
    requires j < |keys|
  {
    key in keys[..j]
  }

  lemma OrderMatters(live: seq<string>, more: seq<string>, key: string)
    requires key !in more
    ensures live + [key] + more == live + more + [key] <==> more == []
  {
    var a, b := live + [key] + more, live + more + [key];
    if more != [] {
      assert a[|live|] == key && b[|live|] == more[0];
    } else {
      assert a == b;
    }
  }

  lemma LeftoverIff<T>(m: Entries<T>, before: seq<string>, after: seq<string>, key: string, now: int)
    requires m.Valid() && m.keys == before + [key] + after
    requires key in m.entries && forall k :: k in after ==> k in m.entries
    ensures LeftoverAhead(m, key, now) <==> Expired(m.entries[key], now) && LiveKeys(after, m.entries, now) != []
  {
    TailIsDistinct(m.keys, before, after, key);
    LiveKeysMembers(after, m.entries, now);
    if LiveKeys(after, m.entries, now) != [] {
      var k := LiveKeys(after, m.entries, now)[0];
      assert k in after;
      var i :| 0 <= i < |after| && after[i] == k;
      var j := |before| + 1 + i;
      assert m.keys[j] == k && m.keys[..j][|before|] == key;
      assert Follows(m.keys, key, j);
    }
    if j :| 0 <= j < |m.keys| && Follows(m.keys, key, j) && !Expired(m.entries[m.keys[j]], now) {
      FollowsMeansTail(m.keys, before, after, key, j);
      assert m.keys[j] in LiveKeys(after, m.entries, now);
    }
  }

  lemma FollowsMeansTail(keys: seq<string>, before: seq<string>, after: seq<string>, key: string, j: nat)
    requires NoDuplicates(keys) && keys == before + [key] + after
    requires j < |keys| && Follows(keys, key, j)
    ensures j > |before| && keys[j] == after[j - |before| - 1]
    ensures keys[j] in after
  {
    var i :| 0 <= i < j && keys[..j][i] == key;
    assert keys[i] == key && keys[|before|] == key;
  }

  lemma TailIsDistinct(keys: seq<string>, before: seq<string>, after: seq<string>, key: string)
    requires NoDuplicates(keys) && keys == before + [key] + after
    ensures NoDuplicates(after)
  {
    forall i, j | 0 <= i < j < |after|
      ensures after[i] != after[j]
    {
      assert keys[|before| + 1 + i] == after[i] && keys[|before| + 1 + j] == after[j];
    }
  }

  lemma PutAfterSweep<T>(m: Entries<T>, key: string, e: Entry<T>, now: int)
    requires m.Valid() && !Expired(e, now)
    ensures m.Put(key, e).Valid() && Swept(m, now).Valid() && Swept(m, now).Put(key, e).Valid()
    ensures SameLive(m.Put(key, e), Swept(m, now).Put(key, e), now) <==> !LeftoverAhead(m, key, now)
  {
    SweptIsValid(m, now);
    LiveAfterPut(m.entries, key, e, now);
    if key in m.entries {
      var before, after := FindKey(m.keys, key);
      PutPresentLive(m, before, after, key, e, now);
      Neighbours(m, before, after, key);
      SweptIsLive(m, now);
      SweptAround(m, before, after, key, now);
      PutOrder(Swept(m, now), LiveKeys(before, m.entries, now), LiveKeys(after, m.entries, now), key, e, now);
      LeftoverIff(m, before, after, key, now);
      TailIsDistinct(m.keys, before, after, key);
      LiveKeysMembers(after, m.entries, now);
      OrderMatters(LiveKeys(before, m.entries, now), LiveKeys(after, m.entries, now), key);
    } else {
      PutNewLive(m, key, e, now);
    }
  }

  lemma PutNewLive<T>(m: Entries<T>, key: string, e: Entry<T>, now: int)
    requires m.Valid() && key !in m.entries && !Expired(e, now)
    ensures m.Put(key, e).Valid() && Swept(m, now).Valid() && Swept(m, now).Put(key, e).Valid()
    ensures Swept(m.Put(key, e), now).keys == Swept(Swept(m, now).Put(key, e), now).keys
  {
    SweptIsValid(m, now);
    PutKeepsValid(m, key, e);
    PutKeepsValid(Swept(m, now), key, e);
    var entries := m.entries[key := e];
    LiveKeysAppend(m.keys, key, entries, now);
    LiveKeysAgree(m.keys, m.entries, entries, now);
    LiveKeysMembers(m.keys, m.entries, now);
    LiveKeysAllLive(Swept(m, now).Put(key, e).keys, Swept(m, now).Put(key, e).entries, now);
  }

  lemma FullIsSwept<T>(m: Entries<T>, maxSize: nat, now: int)
    requires m.Valid() && |m.keys| >= maxSize
    ensures Swept(m, now).Valid() && MakeRoom(Swept(m, now), maxSize, now) == MakeRoom(m, maxSize, now)
  {
    SweptTwice(m, now);
  }

  lemma RoomyUnchanged<T>(m: Entries<T>, maxSize: nat, now: int)
    requires m.Valid() && |m.keys| < maxSize
    ensures MakeRoom(m, maxSize, now) == m
  {
  }

  /** Both rooms, and whether putting into them gives the same live entries. */
  lemma RoomsCompared<T>(m: Entries<T>, maxSize: nat, key: string, e: Entry<T>, now: int)
    requires m.Valid() && !Expired(e, now)
    ensures Swept(m, now).Valid()
    ensures MakeRoom(m, maxSize, now).Put(key, e).Valid() && MakeRoom(Swept(m, now), maxSize, now).Put(key, e).Valid()
    ensures SameLive(MakeRoom(m, maxSize, now).Put(key, e), MakeRoom(Swept(m, now), maxSize, now).Put(key, e), now) <==>
            !(|m.keys| < maxSize && LeftoverAhead(m, key, now))
  {
    SweptIsValid(m, now);
    if |m.keys| >= maxSize {
      FullIsSwept(m, maxSize, now);
      RoomIsValid(m, maxSize, now);
      PutKeepsValid(MakeRoom(m, maxSize, now), key, e);
    } else {
      RoomyUnchanged(m, maxSize, now);
      RoomyUnchanged(Swept(m, now), maxSize, now);
      PutAfterSweep(m, key, e, now);
    }
  }

  lemma RoomIsValid<T>(m: Entries<T>, maxSize: nat, now: int)
    requires m.Valid()
    ensures MakeRoom(m, maxSize, now).Valid()
  {
    SweptIsValid(m, now);
    var swept := if |m.keys| >= maxSize then Swept(m, now) else m;
    if swept.keys != [] {
      DeleteKeepsValid(swept, swept.keys[0]);
    }
  }

  /**
    Right after a set, the live entries and their order are the same with and without a sweep before it
    exactly when no expired entry of the key would otherwise have kept its place ahead of a live one.
   */
  lemma SweepBeforeSetIff<T>(m: Entries<T>, maxSize: nat, key: string, value: T, ttl: int, now: int)
    requires m.Valid()
    ensures Swept(m, now).Valid()
    ensures AfterSet(m, maxSize, key, value, ttl, now, now).Valid()
    ensures AfterSet(Swept(m, now), maxSize, key, value, ttl, now, now).Valid()
    ensures SameLive(AfterSet(m, maxSize, key, value, ttl, now, now),
                     AfterSet(Swept(m, now), maxSize, key, value, ttl, now, now), now) <==>
            !(|m.keys| < maxSize && LeftoverAhead(m, key, now))
  {
    hide LiveKeys, LiveEntries, SameLive, LeftoverAhead, MakeRoom;
    var e := Entry(now + Max(ttl, 1), value);
    RoomsCompared(m, maxSize, key, e, now);
    var a := AfterSet(m, maxSize, key, value, ttl, now, now);
    var b := AfterSet(Swept(m, now), maxSize, key, value, ttl, now, now);
    assert a == MakeRoom(m, maxSize, now).Put(key, e);
    assert b == MakeRoom(Swept(m, now), maxSize, now).Put(key, e);
  }
}
