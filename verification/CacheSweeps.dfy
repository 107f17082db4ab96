/**
  Whether dropping expired entries can ever be noticed (packages/runtime/src/cache.ts:25-55): over every
  later run, with a clock that does not go back, do all gets answer the same with and without the sweep?
 */
module CacheSweeps {
  import opened Collections
  import opened InsertionMap
  import opened RuntimeCache
  import opened CacheProperties

  /** The entries after a run that starts from a given cache. */
  ghost function RunFrom<T>(m: Entries<T>, maxSize: nat, ops: seq<Op<T>>): (r: Entries<T>)
    requires m.Valid() && maxSize >= 1 && |m.keys| <= maxSize
    ensures r.Valid() && |r.keys| <= maxSize
  {
    if ops == [] then m
    else
      var before := RunFrom(m, maxSize, Init(ops));
      ApplyKeepsBounds(before, maxSize, Last(ops));
      Apply(before, maxSize, Last(ops))
  }

  /** No run from now on, and no get after it, tells the two caches apart. */
  ghost predicate NeverTold<T(!new)>(a: Entries<T>, b: Entries<T>, maxSize: nat, now: int)
    requires maxSize >= 1 && a.Valid() && |a.keys| <= maxSize && b.Valid() && |b.keys| <= maxSize
  {
    forall ops: seq<Op<T>>, key: string, t: int :: NonDecreasing(ops, now) && ClockAfter(ops, now) <= t ==>
      Lookup(RunFrom(a, maxSize, ops), key, t) == Lookup(RunFrom(b, maxSize, ops), key, t)
  }

  lemma RunMore<T>(m: Entries<T>, maxSize: nat, ops: seq<Op<T>>, op: Op<T>)
    requires m.Valid() && maxSize >= 1 && |m.keys| <= maxSize
    ensures RunFrom(m, maxSize, ops + [op]) == Apply(RunFrom(m, maxSize, ops), maxSize, op)
  {
    assert Init(ops + [op]) == ops;
  }

  lemma ClockMore<T>(ops: seq<Op<T>>, op: Op<T>, now: int)
    requires NonDecreasing(ops, now) && InTime(op, ClockAfter(ops, now))
    ensures NonDecreasing(ops + [op], now)
    ensures ClockAfter(ops + [op], now) == EndTime(op, ClockAfter(ops, now))
  {
    assert Init(ops + [op]) == ops;
  }

  lemma LiveCons<T>(k: string, rest: seq<string>, entries: map<string, Entry<T>>, t: int)
    requires k in entries && forall x :: x in rest ==> x in entries
    ensures forall x :: x in [k] + rest ==> x in entries
    ensures LiveKeys([k] + rest, entries, t) ==
            if Expired(entries[k], t) then LiveKeys(rest, entries, t) else [k] + LiveKeys(rest, entries, t)
  {
    assert ([k] + rest)[1..] == rest;
    assert [] + LiveKeys(rest, entries, t) == LiveKeys(rest, entries, t);
  }

  // ---- What sweeping commutes with ----

  lemma {:induction false} LiveLater<T>(keys: seq<string>, entries: map<string, Entry<T>>, t: int, later: int)
    requires t <= later && forall k :: k in keys ==> k in entries
    ensures forall k :: k in LiveKeys(keys, entries, t) ==> k in LiveEntries(entries, t)
    ensures LiveKeys(LiveKeys(keys, entries, t), LiveEntries(entries, t), later) == LiveKeys(keys, entries, later)
  {
    if keys != [] {
      hide LiveKeys;
      var k, rest := keys[0], keys[1..];
      assert keys == [k] + rest;
      LiveLater(rest, entries, t, later);
      LiveCons(k, rest, entries, t);
      LiveCons(k, rest, entries, later);
      if !Expired(entries[k], t) {
        LiveCons(k, LiveKeys(rest, entries, t), LiveEntries(entries, t), later);
      }
    }
  }

  lemma SweptLater<T>(m: Entries<T>, t: int, later: int)
    requires m.Valid() && t <= later
    ensures Swept(m, t).Valid() && Swept(Swept(m, t), later) == Swept(m, later)
  {
    SweptIsValid(m, t);
    LiveLater(m.keys, m.entries, t, later);
  }

  /** What has the same live entries now has them later. */
  lemma SameLiveLater<T>(a: Entries<T>, b: Entries<T>, t: int, later: int)
    requires a.Valid() && b.Valid() && t <= later && SameLive(a, b, t)
    ensures SameLive(a, b, later)
  {
    SweptLater(a, t, later);
    SweptLater(b, t, later);
  }

  lemma SameLiveAnswers<T>(a: Entries<T>, b: Entries<T>, key: string, t: int)
    requires a.Valid() && b.Valid() && SameLive(a, b, t)
    ensures Lookup(a, key, t) == Lookup(b, key, t)
  {
    assert LiveEntries(a.entries, t) == LiveEntries(b.entries, t);
    assert key in LiveEntries(a.entries, t) <==> key in a.entries && !Expired(a.entries[key], t);
    assert key in LiveEntries(b.entries, t) <==> key in b.entries && !Expired(b.entries[key], t);
    if key in LiveEntries(a.entries, t) {
      assert LiveEntries(a.entries, t)[key] == LiveEntries(b.entries, t)[key];
    }
  }

  lemma {:induction false} WithoutAbsent(keys: seq<string>, k: string)
    requires k !in keys
    ensures Without(keys, k) == keys
  {
    if keys != [] {
      assert keys[0] in keys;
      WithoutAbsent(keys[1..], k);
    }
  }

  lemma {:induction false} LiveWithout<T>(keys: seq<string>, entries: map<string, Entry<T>>, k: string, t: int)
    requires forall j :: j in keys ==> j in entries
    ensures forall j :: j in Without(keys, k) ==> j in entries
    ensures LiveKeys(Without(keys, k), entries, t) == Without(LiveKeys(keys, entries, t), k)
  {
    if keys != [] {
      assert keys[0] in keys;
      LiveWithout(keys[1..], entries, k, t);
      var rest := Without(keys[1..], k);
      if keys[0] != k {
        assert ([keys[0]] + rest)[1..] == rest;
      } else {
        assert [] + rest == rest;
      }
      var live := LiveKeys(keys[1..], entries, t);
      if Expired(entries[keys[0]], t) {
        assert [] + live == live;
      } else {
        assert ([keys[0]] + live)[1..] == live;
      }
    }
  }

  lemma SweptDeleteKeys<T>(m: Entries<T>, k: string, t: int)
    requires m.Valid() && m.Delete(k).Valid()
    ensures Swept(m.Delete(k), t).keys == Without(Swept(m, t).keys, k)
  {
    WithoutMembers(m.keys, k);
    LiveWithout(m.keys, m.entries, k, t);
    LiveKeysAgree(Without(m.keys, k), m.entries, m.Delete(k).entries, t);
  }

  lemma SweptDeleteEntries<T>(m: Entries<T>, k: string, t: int)
    requires m.Valid() && m.Delete(k).Valid()
    ensures Swept(m.Delete(k), t).entries == Swept(m, t).Delete(k).entries
  {
    hide LiveKeys, Without;
  }

  /** Deleting and sweeping can be done in either order. */
  lemma SweptDelete<T>(m: Entries<T>, k: string, t: int)
    requires m.Valid()
    ensures m.Delete(k).Valid() && Swept(m, t).Valid()
    ensures Swept(m.Delete(k), t) == Swept(m, t).Delete(k)
  {
    hide LiveKeys, LiveEntries, Without;
    DeleteKeepsValid(m, k);
    SweptIsValid(m, t);
    SweptDeleteKeys(m, k, t);
    SweptDeleteEntries(m, k, t);
  }

  lemma DeleteAbsent<T>(m: Entries<T>, k: string)
    requires m.Valid() && k !in m.entries
    ensures m.Delete(k) == m
  {
    WithoutAbsent(m.keys, k);
  }

  /** A get leaves the same live entries whether or not a sweep came first. */
  lemma GetKeepsLive<T>(m: Entries<T>, key: string, t: int)
    requires m.Valid()
    ensures AfterGet(m, key, t).Valid()
    ensures SameLive(AfterGet(m, key, t), m, t)
  {
    DeleteKeepsValid(m, key);
    if key in m.entries && Expired(m.entries[key], t) {
      SweptDelete(m, key, t);
      DeleteAbsent(Swept(m, t), key);
    }
  }

  /** Before a get a sweep makes no difference, to the answer or to what is left. */
  lemma SweepBeforeGet<T>(m: Entries<T>, key: string, now: int)
    requires m.Valid()
    ensures Swept(m, now).Valid()
    ensures Lookup(Swept(m, now), key, now) == Lookup(m, key, now)
    ensures AfterGet(m, key, now).Valid() && AfterGet(Swept(m, now), key, now).Valid()
    ensures SameLive(AfterGet(m, key, now), AfterGet(Swept(m, now), key, now), now)
  {
    SweptIsValid(m, now);
    SweptTwice(m, now);
    GetKeepsLive(m, key, now);
    GetKeepsLive(Swept(m, now), key, now);
  }

  // ---- Room for two at most: never noticed ----

  lemma SmallHasNothingAhead<T>(m: Entries<T>, key: string, now: int)
    requires m.Valid() && |m.keys| < 2
    ensures !LeftoverAhead(m, key, now)
  {
  }

  lemma SmallSetSweeps<T>(m: Entries<T>, maxSize: nat, key: string, e: Entry<T>, t: int)
    requires m.Valid() && maxSize <= 2 && !Expired(e, t)
    ensures Swept(m, t).Valid()
    ensures MakeRoom(m, maxSize, t).Put(key, e).Valid() && MakeRoom(Swept(m, t), maxSize, t).Put(key, e).Valid()
    ensures SameLive(MakeRoom(m, maxSize, t).Put(key, e), MakeRoom(Swept(m, t), maxSize, t).Put(key, e), t)
  {
    RoomsCompared(m, maxSize, key, e, t);
    if |m.keys| < maxSize {
      SmallHasNothingAhead(m, key, t);
    }
  }

  /** Two caches with the same live entries, after the same set. */
  lemma SmallPut<T>(a: Entries<T>, b: Entries<T>, maxSize: nat, key: string, e: Entry<T>, t: int)
    returns (c: Entries<T>, d: Entries<T>)
    requires a.Valid() && b.Valid() && maxSize <= 2 && !Expired(e, t)
    requires SameLive(a, b, t)
    ensures c == MakeRoom(a, maxSize, t).Put(key, e) && d == MakeRoom(b, maxSize, t).Put(key, e)
    ensures c.Valid() && d.Valid() && SameLive(c, d, t)
  {
    c, d := MakeRoom(a, maxSize, t).Put(key, e), MakeRoom(b, maxSize, t).Put(key, e);
    SmallSetSweeps(a, maxSize, key, e, t);
    SmallSetSweeps(b, maxSize, key, e, t);
  }

  lemma SmallSet<T>(a: Entries<T>, b: Entries<T>, maxSize: nat, key: string, value: T, ttl: int, sweepTime: int,
                    setTime: int) returns (c: Entries<T>, d: Entries<T>)
    requires a.Valid() && b.Valid() && maxSize <= 2 && sweepTime <= setTime
    requires SameLive(a, b, sweepTime)
    ensures c == AfterSet(a, maxSize, key, value, ttl, sweepTime, setTime)
    ensures d == AfterSet(b, maxSize, key, value, ttl, sweepTime, setTime)
    ensures c.Valid() && d.Valid() && SameLive(c, d, setTime)
  {
    c, d := SmallPut(a, b, maxSize, key, Entry(setTime + Max(ttl, 1), value), sweepTime);
    SameLiveLater(c, d, sweepTime, setTime);
  }

  lemma SmallStep<T>(a: Entries<T>, b: Entries<T>, maxSize: nat, op: Op<T>, before: int)
    requires a.Valid() && b.Valid() && maxSize <= 2 && InTime(op, before)
    requires SameLive(a, b, before)
    requires Apply(a, maxSize, op).Valid() && Apply(b, maxSize, op).Valid()
    ensures SameLive(Apply(a, maxSize, op), Apply(b, maxSize, op), EndTime(op, before))
  {
    match op
    case GetOp(key, time) =>
      SameLiveLater(a, b, before, time);
      GetKeepsLive(a, key, time);
      GetKeepsLive(b, key, time);
    case SetOp(key, value, ttl, sweepTime, setTime) =>
      SameLiveLater(a, b, before, sweepTime);
      var c, d := SmallSet(a, b, maxSize, key, value, ttl, sweepTime, setTime);
    case DeleteOp(key) =>
      SweptDelete(a, key, before);
      SweptDelete(b, key, before);
    case ClearOp =>
  }

  lemma {:induction false} SmallRun<T>(a: Entries<T>, b: Entries<T>, maxSize: nat, ops: seq<Op<T>>, now: int)
    requires a.Valid() && |a.keys| <= maxSize && b.Valid() && |b.keys| <= maxSize && 1 <= maxSize <= 2
    requires SameLive(a, b, now) && NonDecreasing(ops, now)
    ensures SameLive(RunFrom(a, maxSize, ops), RunFrom(b, maxSize, ops), ClockAfter(ops, now))
  {
    if ops != [] {
      SmallRun(a, b, maxSize, Init(ops), now);
      var c, d := RunFrom(a, maxSize, Init(ops)), RunFrom(b, maxSize, Init(ops));
      ApplyKeepsBounds(c, maxSize, Last(ops));
      ApplyKeepsBounds(d, maxSize, Last(ops));
      SmallStep(c, d, maxSize, Last(ops), ClockAfter(Init(ops), now));
    }
  }

  lemma SmallNeverTold<T(!new)>(a: Entries<T>, b: Entries<T>, maxSize: nat, now: int)
    requires a.Valid() && |a.keys| <= maxSize && b.Valid() && |b.keys| <= maxSize && 1 <= maxSize <= 2
    requires SameLive(a, b, now)
    ensures NeverTold(a, b, maxSize, now)
  {
    forall ops: seq<Op<T>>, key: string, t: int | NonDecreasing(ops, now) && ClockAfter(ops, now) <= t
      ensures Lookup(RunFrom(a, maxSize, ops), key, t) == Lookup(RunFrom(b, maxSize, ops), key, t)
    {
      SmallRun(a, b, maxSize, ops, now);
      SameLiveLater(RunFrom(a, maxSize, ops), RunFrom(b, maxSize, ops), ClockAfter(ops, now), t);
      SameLiveAnswers(RunFrom(a, maxSize, ops), RunFrom(b, maxSize, ops), key, t);
    }
  }

  // ---- Room for three: a run that tells ----

  function Deletes<T>(keys: seq<string>): seq<Op<T>> {
    if keys == [] then [] else Deletes(Init(keys)) + [DeleteOp(Last(keys))]
  }

  /** A key of the given length beyond x, so different from x and from shorter ones. */
  function Fresh(x: string, n: nat): (key: string)
    ensures |key| == |x| + n
  {
    if n == 0 then x else Fresh(x, n - 1) + "x"
  }

  function SetNow<T>(key: string, value: T, now: int): Op<T> {
    SetOp(key, value, 1, now, now)
  }

  /** Delete the others, then set a new key, then x. */
  function Opening<T>(others: seq<string>, x: string, value: T, now: int): seq<Op<T>> {
    Deletes(others) + [SetNow(Fresh(x, 1), value, now)] + [SetNow(x, value, now)]
  }

  /** The opening and then new keys, n sets in all. */
  function Script<T>(others: seq<string>, x: string, value: T, now: int, n: nat): seq<Op<T>> {
    if n <= 2 then Opening(others, x, value, now)
    else Script(others, x, value, now, n - 1) + [SetNow(Fresh(x, n), value, now)]
  }

  lemma {:induction false} DeletesInTime<T>(keys: seq<string>, now: int)
    ensures NonDecreasing(Deletes<T>(keys), now) && ClockAfter(Deletes<T>(keys), now) == now
  {
    if keys != [] {
      DeletesInTime<T>(Init(keys), now);
      ClockMore(Deletes<T>(Init(keys)), DeleteOp(Last(keys)), now);
    }
  }

  ghost predicate AtOnce<T>(ops: seq<Op<T>>, now: int) {
    NonDecreasing(ops, now) && ClockAfter(ops, now) == now
  }

  lemma SetInTime<T>(ops: seq<Op<T>>, key: string, value: T, now: int)
    requires AtOnce(ops, now)
    ensures AtOnce(ops + [SetNow(key, value, now)], now)
  {
    ClockMore(ops, SetNow(key, value, now), now);
  }

  lemma {:induction false} ScriptInTime<T>(others: seq<string>, x: string, value: T, now: int, n: nat)
    ensures AtOnce(Script(others, x, value, now, n), now)
  {
    if n <= 2 {
      DeletesInTime<T>(others, now);
      SetInTime(Deletes(others), Fresh(x, 1), value, now);
      SetInTime(Deletes(others) + [SetNow(Fresh(x, 1), value, now)], x, value, now);
    } else {
      ScriptInTime(others, x, value, now, n - 1);
      SetInTime(Script(others, x, value, now, n - 1), Fresh(x, n), value, now);
    }
  }

  lemma {:induction false} DeletesLeave<T>(m: Entries<T>, maxSize: nat, keys: seq<string>)
    requires m.Valid() && maxSize >= 1 && |m.keys| <= maxSize
    ensures forall k :: k in RunFrom(m, maxSize, Deletes(keys)).entries <==> k in m.entries && k !in keys
  {
    if keys != [] {
      DeletesLeave(m, maxSize, Init(keys));
      RunMore(m, maxSize, Deletes(Init(keys)), DeleteOp(Last(keys)));
      assert keys == Init(keys) + [Last(keys)];
    }
  }

  lemma AllButOne<T>(m: Entries<T>, maxSize: nat, x: string)
    requires m.Valid() && maxSize >= 1 && |m.keys| <= maxSize
    requires x in m.entries
    ensures RunFrom(m, maxSize, Deletes(Without(m.keys, x))).keys == [x]
  {
    var r := RunFrom(m, maxSize, Deletes(Without(m.keys, x)));
    WithoutMembers(m.keys, x);
    DeletesLeave(m, maxSize, Without(m.keys, x));
    assert x in m.keys && x in r.entries;
    OnlyKey(r.keys, x);
  }

  lemma OnlyKey(keys: seq<string>, x: string)
    requires NoDuplicates(keys) && x in keys && forall k :: k in keys ==> k == x
    ensures keys == [x]
  {
    DistinctLength(keys);
    assert Elements(keys) == {x};
    assert keys[0] in keys;
  }

  /** n live keys, the first one known, x among them, and none longer than |x| + n. */
  ghost predicate Filled<T>(m: Entries<T>, x: string, value: T, first: string, now: int, n: nat) {
    && m.Valid() && |m.keys| == n && n > 0 && m.keys[0] == first
    && x in m.entries && m.entries[x].value == value
    && forall k :: k in m.entries ==> !Expired(m.entries[k], now) && |k| <= |x| + n
  }

  lemma FillOneMore<T>(m: Entries<T>, maxSize: nat, x: string, value: T, first: string, now: int, n: nat)
    requires Filled(m, x, value, first, now, n) && n < maxSize
    ensures Filled(AfterSet(m, maxSize, Fresh(x, n + 1), value, 1, now, now), x, value, first, now, n + 1)
  {
    var key := Fresh(x, n + 1);
    PutKeepsValid(m, key, Entry(now + 1, value));
    assert key !in m.entries;
  }

  lemma RunSet<T>(m: Entries<T>, maxSize: nat, ops: seq<Op<T>>, key: string, value: T, now: int)
    requires m.Valid() && |m.keys| <= maxSize && maxSize >= 1
    ensures RunFrom(m, maxSize, ops + [SetNow(key, value, now)]) ==
            AfterSet(RunFrom(m, maxSize, ops), maxSize, key, value, 1, now, now)
  {
    RunMore(m, maxSize, ops, SetNow(key, value, now));
  }

  /** The sets of the script after the opening, until the cache is full. */
  lemma {:induction false} FillUp<T>(m: Entries<T>, maxSize: nat, others: seq<string>, x: string, value: T,
                                     first: string, now: int, n: nat) returns (r: Entries<T>)
    requires m.Valid() && |m.keys| <= maxSize && 2 <= n <= maxSize
    requires Filled(RunFrom(m, maxSize, Opening(others, x, value, now)), x, value, first, now, 2)
    ensures r == RunFrom(m, maxSize, Script(others, x, value, now, n)) && Filled(r, x, value, first, now, n)
  {
    r := RunFrom(m, maxSize, Script(others, x, value, now, n));
    if n > 2 {
      var before := FillUp(m, maxSize, others, x, value, first, now, n - 1);
      FillOneMore(before, maxSize, x, value, first, now, n - 1);
      RunSet(m, maxSize, Script(others, x, value, now, n - 1), Fresh(x, n), value, now);
    }
  }

  lemma FullOfLive<T>(m: Entries<T>, maxSize: nat, now: int)
    requires m.Valid() && |m.keys| >= maxSize && m.keys != []
    requires forall k :: k in m.entries ==> !Expired(m.entries[k], now)
    ensures Victim(m, maxSize, now) == Some(m.keys[0])
  {
    LiveKeysAllLive(m.keys, m.entries, now);
  }

  /** In a full cache one more new key drives out the first one. */
  lemma OneTooMany<T>(m: Entries<T>, after: Entries<T>, maxSize: nat, x: string, value: T, first: string, now: int)
    requires Filled(m, x, value, first, now, maxSize)
    requires after == AfterSet(m, maxSize, Fresh(x, maxSize + 1), value, 1, now, now)
    ensures Lookup(after, x, now) == if first == x then None else Some(value)
  {
    FullOfLive(m, maxSize, now);
    SetEffect(m, maxSize, Fresh(x, maxSize + 1), value, 1, now, now, x, now);
  }

  lemma NextSetOf<T>(m: Entries<T>, maxSize: nat, others: seq<string>, x: string, value: T, now: int, n: nat,
                     before: Entries<T>) returns (after: Entries<T>)
    requires m.Valid() && |m.keys| <= maxSize && maxSize >= 1 && n >= 2
    requires before.Valid() && before == RunFrom(m, maxSize, Script(others, x, value, now, n))
    ensures after == RunFrom(m, maxSize, Script(others, x, value, now, n + 1))
    ensures after == AfterSet(before, maxSize, Fresh(x, n + 1), value, 1, now, now)
  {
    after := RunFrom(m, maxSize, Script(others, x, value, now, n + 1));
    RunSet(m, maxSize, Script(others, x, value, now, n), Fresh(x, n + 1), value, now);
  }

  /** The whole script: whether x is still found depends on which of the first two keys is in front. */
  lemma ScriptTells<T>(m: Entries<T>, maxSize: nat, others: seq<string>, x: string, value: T, first: string, now: int)
    returns (after: Entries<T>)
    requires m.Valid() && |m.keys| <= maxSize && maxSize >= 2
    requires Filled(RunFrom(m, maxSize, Opening(others, x, value, now)), x, value, first, now, 2)
    ensures after == RunFrom(m, maxSize, Script(others, x, value, now, maxSize + 1))
    ensures Lookup(after, x, now) == if first == x then None else Some(value)
  {
    var full := FillUp(m, maxSize, others, x, value, first, now, maxSize);
    after := NextSetOf(m, maxSize, others, x, value, now, maxSize, full);
    OneTooMany(full, after, maxSize, x, value, first, now);
  }

  lemma SetWithRoom<T>(m: Entries<T>, maxSize: nat, key: string, value: T, now: int)
    requires m.Valid() && |m.keys| < maxSize
    ensures var after := AfterSet(m, maxSize, key, value, 1, now, now);
      after.Valid() && after == m.Put(key, Entry(now + 1, value))
  {
    PutKeepsValid(m, key, Entry(now + 1, value));
  }

  /** Setting a new key and then x: x is in front if it was there before, and behind otherwise. */
  lemma FirstTwo<T>(r: Entries<T>, maxSize: nat, x: string, value: T, now: int)
    requires r.Valid() && maxSize >= 3 && (r.keys == [x] || r.keys == [])
    ensures AfterSet(r, maxSize, Fresh(x, 1), value, 1, now, now).Valid()
    ensures var one := AfterSet(r, maxSize, Fresh(x, 1), value, 1, now, now);
      Filled(AfterSet(one, maxSize, x, value, 1, now, now), x, value, if r.keys == [x] then x else Fresh(x, 1), now, 2)
  {
    var e, f := Entry(now + 1, value), Fresh(x, 1);
    SetWithRoom(r, maxSize, f, value, now);
    TwoPuts(r, x, f, e);
    SetWithRoom(r.Put(f, e), maxSize, x, value, now);
    TwoAreFilled(r.Put(f, e).Put(x, e), x, f, e, if r.keys == [x] then x else f, now);
  }

  lemma TwoPuts<T>(r: Entries<T>, x: string, f: string, e: Entry<T>)
    requires r.Valid() && (r.keys == [x] || r.keys == []) && x != f
    ensures r.Put(f, e).Valid() && |r.Put(f, e).keys| <= 2
    ensures var two := r.Put(f, e).Put(x, e);
      && two.Valid() && two.keys == (if r.keys == [x] then [x, f] else [f, x])
      && two.entries == map[x := e, f := e]
  {
    assert forall k :: k in r.entries <==> k in r.keys;
    PutKeepsValid(r, f, e);
    PutKeepsValid(r.Put(f, e), x, e);
  }

  lemma TwoAreFilled<T>(m: Entries<T>, x: string, f: string, e: Entry<T>, first: string, now: int)
    requires m.Valid() && |m.keys| == 2 && m.keys[0] == first && m.entries == map[x := e, f := e]
    requires e.expiresAt == now + 1 && |f| == |x| + 1
    ensures Filled(m, x, e.value, first, now, 2)
  {
  }

  lemma OpeningFills<T>(m: Entries<T>, maxSize: nat, others: seq<string>, x: string, value: T, now: int)
    requires m.Valid() && |m.keys| <= maxSize && maxSize >= 3
    requires var r := RunFrom(m, maxSize, Deletes(others)); r.keys == [x] || r.keys == []
    ensures Filled(RunFrom(m, maxSize, Opening(others, x, value, now)), x, value,
                   if RunFrom(m, maxSize, Deletes(others)).keys == [x] then x else Fresh(x, 1), now, 2)
  {
    FirstTwo(RunFrom(m, maxSize, Deletes(others)), maxSize, x, value, now);
    RunSet(m, maxSize, Deletes(others), Fresh(x, 1), value, now);
    RunSet(m, maxSize, Deletes(others) + [SetNow(Fresh(x, 1), value, now)], x, value, now);
  }

  /** In a cache with room for three, any expired entry makes a run after which a get answers differently. */
  lemma SweepChangesLaterGet<T>(m: Entries<T>, maxSize: nat, x: string, now: int) returns (ops: seq<Op<T>>)
    requires m.Valid() && |m.keys| <= maxSize && maxSize >= 3
    requires x in m.entries && Expired(m.entries[x], now)
    ensures Swept(m, now).Valid() && |Swept(m, now).keys| <= maxSize
    ensures NonDecreasing(ops, now) && ClockAfter(ops, now) == now
    ensures Lookup(RunFrom(m, maxSize, ops), x, now) == None
    ensures Lookup(RunFrom(Swept(m, now), maxSize, ops), x, now) == Some(m.entries[x].value)
  {
    var swept, value, others := Swept(m, now), m.entries[x].value, Without(m.keys, x);
    SweptIsValid(m, now);
    ops := Script(others, x, value, now, maxSize + 1);
    ScriptInTime(others, x, value, now, maxSize + 1);
    AllButOne(m, maxSize, x);
    OpeningFills(m, maxSize, others, x, value, now);
    var missed := ScriptTells(m, maxSize, others, x, value, x, now);
    NothingLeft(m, maxSize, x, now);
    OpeningFills(swept, maxSize, others, x, value, now);
    var found := ScriptTells(swept, maxSize, others, x, value, Fresh(x, 1), now);
  }

  /** Without its expired entries, the cache is empty once all keys but an expired one are deleted. */
  lemma NothingLeft<T>(m: Entries<T>, maxSize: nat, x: string, now: int)
    requires m.Valid() && |m.keys| <= maxSize && maxSize >= 1
    requires x in m.entries && Expired(m.entries[x], now)
    ensures Swept(m, now).Valid() && |Swept(m, now).keys| <= maxSize
    ensures RunFrom(Swept(m, now), maxSize, Deletes(Without(m.keys, x))).keys == []
  {
    SweptIsValid(m, now);
    WithoutMembers(m.keys, x);
    DeletesLeave(Swept(m, now), maxSize, Without(m.keys, x));
    KeysHaveEntries(RunFrom(Swept(m, now), maxSize, Deletes(Without(m.keys, x))));
  }

  lemma KeysHaveEntries<T>(m: Entries<T>)
    requires m.Valid()
    ensures m.keys != [] ==> m.keys[0] in m.entries
  {
    if m.keys != [] {
      assert m.keys[0] in m.keys;
    }
  }

  // ---- The exact condition ----

  lemma NothingToSweep<T>(m: Entries<T>, now: int)
    requires m.Valid() && forall k :: k in m.entries ==> !Expired(m.entries[k], now)
    ensures Swept(m, now) == m
  {
    LiveKeysAllLive(m.keys, m.entries, now);
  }

  /**
    Dropping the expired entries of a cache is unobservable, over all later runs, exactly when there are
    none or the cache has room for at most two.
   */
  lemma SweepUnobservableIff<T(!new)>(m: Entries<T>, maxSize: nat, now: int)
    requires m.Valid() && maxSize >= 1 && |m.keys| <= maxSize
    ensures Swept(m, now).Valid() && |Swept(m, now).keys| <= maxSize
    ensures NeverTold(m, Swept(m, now), maxSize, now) <==>
            maxSize <= 2 || forall k :: k in m.entries ==> !Expired(m.entries[k], now)
  {
    SweptTwice(m, now);
    SweptIsValid(m, now);
    if maxSize <= 2 {
      SmallNeverTold(m, Swept(m, now), maxSize, now);
    } else if x: string :| x in m.entries && Expired(m.entries[x], now) {
      var ops := SweepChangesLaterGet(m, maxSize, x, now);
    } else {
      NothingToSweep(m, now);
    }
  }
}
