/** How long the cache serves what was put. */
module CacheLifetime {
  import opened Common
  import opened LruSpec
  import opened LruRuns
  import opened CacheExpiry

  /** Right after PutWithTTL a lookup finds the data at any time up to the TTL's end, that
      moment included, and for ever if the TTL is not positive; too large an item never. */
  lemma PutServes(capacity: int, items: seq<CacheItem>, key: string, data: Bytes, ttl: int, t: Time, u: Time)
    requires t <= u
    ensures Lookup(AfterPut(capacity, items, CacheItem(key, data, t, ttl)), key, u) ==
            if |data| <= capacity && (ttl <= 0 || u - t <= ttl) then Some(data) else None
  {
    var item := CacheItem(key, data, t, ttl);
    var kept := EvictTo(Without(items, key), capacity - |data|);
    PutLookup(capacity, items, item, key, u);
    EvictToIsLongestFittingPrefix(Without(items, key), capacity - |data|);
    WithoutProperties(items, key);
    assert forall it :: it in kept ==> it in Without(items, key);
    assert Find(kept, key).None?;
  }

  /** The operation neither puts, deletes nor evicts the item under the key. */
  predicate Leaves(capacity: int, items: seq<CacheItem>, op: Op, key: string) {
    match op
    case Put(k, _, _, _) => k != key && Stays(items, Step(capacity, items, op), key)
    case Get(_, _) => true
    case Delete(k) => k != key
    case Cleanup(_) => true
    case Clear => false
    case Read(k, _, _, now, _) =>
      if k == key then Lookup(items, key, now).Some? else Stays(items, Step(capacity, items, op), key)
  }

  predicate Stays(was: seq<CacheItem>, items: seq<CacheItem>, key: string) {
    Find(was, key).Some? ==> Find(items, key).Some?
  }

  predicate NeverTouched(capacity: int, items: seq<CacheItem>, ops: seq<Op>, key: string)
    decreases |ops|
  {
    ops == [] || (
      Leaves(capacity, items, ops[0], key) && NeverTouched(capacity, Step(capacity, items, ops[0]), ops[1..], key))
  }

  /** What the cache holds after `ops`, starting from `items`. */
  function RunFrom(capacity: int, items: seq<CacheItem>, ops: seq<Op>): seq<CacheItem>
    decreases |ops|
  {
    if ops == [] then items else RunFrom(capacity, Step(capacity, items, ops[0]), ops[1..])
  }

  /** The clock after a run that starts at `t`. */
  function ClockAfter(ops: seq<Op>, t: Time): Time {
    if ops == [] then t else ClockAfter(ops[1..], After(ops[0], t))
  }

  /** The item is there, or it is gone because its time was up by now. */
  ghost predicate HasOrOutlived(items: seq<CacheItem>, item: CacheItem, t: Time) {
    Find(items, item.key) == Some(item)
    || (Find(items, item.key).None? && item.ttl > 0 && t - item.createdAt > item.ttl)
  }

  lemma {:induction false} FindWithout(items: seq<CacheItem>, k: string, key: string)
    ensures Find(Without(items, k), key) == if k == key then None else Find(items, key)
  {
    if items != [] {
      FindWithout(items[1..], k, key);
    }
  }

  lemma {:induction false} FindLive(items: seq<CacheItem>, now: Time, key: string)
    requires UniqueKeys(items)
    ensures Find(Live(items, now), key) ==
            if Find(items, key).Some? && !Find(items, key).value.Expired(now) then Find(items, key) else None
  {
    if items != [] {
      assert items == [items[0]] + items[1..];
      assert forall it :: it in items[1..] ==> it.key != items[0].key by {
        forall it | it in items[1..] ensures it.key != items[0].key {
          var i :| 0 <= i < |items[1..]| && items[1..][i] == it;
          assert items[0].key != items[i + 1].key;
        }
      }
      FindLive(items[1..], now, key);
    }
  }

  lemma FindAfterGet(items: seq<CacheItem>, k: string, now: Time, key: string)
    ensures Find(AfterGet(items, k, now), key) ==
            if k == key && Find(items, k).Some? && Find(items, k).value.Expired(now) then None else Find(items, key)
  {
    FindWithout(items, k, key);
    if Find(items, k).Some? {
      assert ([Find(items, k).value] + Without(items, k))[1..] == Without(items, k);
    }
  }

  lemma FindAfterPut(capacity: int, items: seq<CacheItem>, item: CacheItem, key: string)
    requires item.key != key
    ensures Find(AfterPut(capacity, items, item), key) == Find(items, key)
         || Find(AfterPut(capacity, items, item), key).None?
  {
    var others := Without(items, item.key);
    var kept := EvictTo(others, capacity - item.Size());
    EvictToIsLongestFittingPrefix(others, capacity - item.Size());
    assert others == kept + others[|kept|..];
    FindAppend(kept, others[|kept|..], key);
    FindWithout(items, item.key, key);
    assert ([item] + kept)[1..] == kept;
  }

  lemma StepLeaves(capacity: int, items: seq<CacheItem>, op: Op, item: CacheItem, t: Time)
    requires UniqueKeys(items) && HasOrOutlived(items, item, t) && Leaves(capacity, items, op, item.key)
    requires t <= At(op).GetOr(t) <= After(op, t)
    ensures HasOrOutlived(Step(capacity, items, op), item, After(op, t))
  {
    hide AfterGet, AfterPut, Live, Without, UniqueKeys;
    match op
    case Put(k, data, ttl, now) => FindAfterPut(capacity, items, CacheItem(k, data, now, ttl), item.key);
    case Get(k, now) => FindAfterGet(items, k, now, item.key);
    case Delete(k) => FindWithout(items, k, item.key);
    case Cleanup(now) => FindLive(items, now, item.key);
    case Clear =>
    case Read(k, data, ttl, now, later) =>
      FindAfterGet(items, k, now, item.key);
      if Lookup(items, k, now).None? {
        FindAfterPut(capacity, AfterGet(items, k, now), CacheItem(k, data, later, ttl), item.key);
      }
  }

  lemma {:induction false} RunLeaves(capacity: int, items: seq<CacheItem>, ops: seq<Op>, item: CacheItem, t: Time)
    requires UniqueKeys(items) && HasOrOutlived(items, item, t) && Timed(ops, t)
    requires NeverTouched(capacity, items, ops, item.key)
    ensures HasOrOutlived(RunFrom(capacity, items, ops), item, ClockAfter(ops, t))
    decreases |ops|
  {
    hide UniqueKeys, HasOrOutlived, Step, Leaves;
    if ops != [] {
      StepLeaves(capacity, items, ops[0], item, t);
      StepKeepsUnique(capacity, items, ops[0]);
      RunLeaves(capacity, Step(capacity, items, ops[0]), ops[1..], item, After(ops[0], t));
    }
  }

  /** What was put at `t` is served after any later run that neither puts, deletes nor
      evicts it, at any time from then on, if and only if its TTL is not positive or not
      over yet: cleanups, other Puts and Gets of it make no difference. */
  lemma ServedUntilTtl(capacity: int, items: seq<CacheItem>, key: string, data: Bytes, ttl: int, t: Time,
                       ops: seq<Op>, u: Time)
    requires UniqueKeys(items) && |data| <= capacity && Timed(ops, t) && ClockAfter(ops, t) <= u
    requires NeverTouched(capacity, AfterPut(capacity, items, CacheItem(key, data, t, ttl)), ops, key)
    ensures t <= u
    ensures Lookup(RunFrom(capacity, AfterPut(capacity, items, CacheItem(key, data, t, ttl)), ops), key, u) ==
            if ttl <= 0 || u - t <= ttl then Some(data) else None
  {
    var item := CacheItem(key, data, t, ttl);
    var put := AfterPut(capacity, items, item);
    PutKeepsUnique(capacity, items, item);
    assert Find(put, key) == Some(item);
    RunLeaves(capacity, put, ops, item, t);
    ClockGoesOn(ops, t);
  }

  lemma {:induction false} ClockGoesOn(ops: seq<Op>, t: Time)
    requires Timed(ops, t)
    ensures t <= ClockAfter(ops, t)
  {
    if ops != [] {
      ClockGoesOn(ops[1..], After(ops[0], t));
    }
  }
}
