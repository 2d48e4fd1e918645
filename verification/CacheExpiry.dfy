/** When cleaning up expired items can be noticed. */
module CacheExpiry {
  import opened Common
  import opened LruSpec
  import opened LruRuns

  function At(op: Op): Option<Time> {
    match op
    case Put(_, _, _, now) => Some(now)
    case Get(_, now) => Some(now)
    case Delete(_) => None
    case Cleanup(now) => Some(now)
    case Clear => None
    case Read(_, _, _, now, _) => Some(now)
  }

  /** The clock after the operation; a Read has it read again for what it puts. */
  function After(op: Op, t: Time): Time { if op.Read? then op.later else At(op).GetOr(t) }

  /** The operations carry clock readings that never go back, from `t` on. */
  ghost predicate Timed(ops: seq<Op>, t: Time) {
    ops == [] || (t <= At(ops[0]).GetOr(t) <= After(ops[0], t) && Timed(ops[1..], After(ops[0], t)))
  }

  /** The answer of every lookup of the run, in order. */
  function Answers(capacity: int, items: seq<CacheItem>, ops: seq<Op>): seq<Option<Bytes>>
    decreases |ops|
  {
    if ops == [] then []
    else
      (if ops[0].Get? || ops[0].Read? then [Lookup(items, ops[0].key, ops[0].now)] else [])
      + Answers(capacity, Step(capacity, items, ops[0]), ops[1..])
  }

  // ---------- two caches fed the same run ----------

  /** No prefix with more than `n` unexpired items fits the room. */
  predicate NoMoreFit(items: seq<CacheItem>, n: nat, room: int, now: Time) {
    forall m :: 0 <= m <= |items| && |Live(items[..m], now)| > n ==> TotalSize(items[..m]) > room
  }

  /** A Put of `size` bytes under `key` costs `b` no unexpired item that it leaves
      `a`: past those that `b` keeps of the others, none would fit `a` either. */
  predicate HidesNothing(capacity: int, a: seq<CacheItem>, b: seq<CacheItem>, key: string, size: nat, now: Time) {
    NoMoreFit(Without(a, key), |Live(EvictTo(Without(b, key), capacity - size), now)|, capacity - size, now)
  }

  /** The operation puts an item and thereby tells `a` from `b`. */
  predicate Reveals(capacity: int, a: seq<CacheItem>, b: seq<CacheItem>, op: Op) {
    match op
    case Put(key, data, _, now) => !HidesNothing(capacity, a, b, key, |data|, now)
    case Read(key, data, _, now, later) =>
      Lookup(b, key, now).None?
      && !HidesNothing(capacity, AfterGet(a, key, now), AfterGet(b, key, now), key, |data|, later)
    case _ => false
  }

  predicate NeverReveals(capacity: int, a: seq<CacheItem>, b: seq<CacheItem>, ops: seq<Op>)
    decreases |ops|
  {
    ops == [] || (
      && !Reveals(capacity, a, b, ops[0])
      && NeverReveals(capacity, Step(capacity, a, ops[0]), Step(capacity, b, ops[0]), ops[1..]))
  }

  /** No lookup at time `t` tells the two caches apart. */
  ghost predicate Alike(a: seq<CacheItem>, b: seq<CacheItem>, t: Time) {
    forall key :: Lookup(a, key, t) == Lookup(b, key, t)
  }

  /** No lookup at any moment of the run does. */
  ghost predicate AlwaysAlike(capacity: int, a: seq<CacheItem>, b: seq<CacheItem>, ops: seq<Op>, t: Time)
    decreases |ops|
  {
    Alike(a, b, t) && (
      ops == []
      || AlwaysAlike(capacity, Step(capacity, a, ops[0]), Step(capacity, b, ops[0]), ops[1..], After(ops[0], t)))
  }

  /** `size` more bytes fit beside the items under other keys. */
  predicate Fits(capacity: int, items: seq<CacheItem>, key: string, size: nat) {
    Without(items, key) == [] || TotalSize(Without(items, key)) + size <= capacity
  }

  /** The operation puts an item only where it fits without evicting. */
  predicate Unevicting(capacity: int, items: seq<CacheItem>, op: Op) {
    match op
    case Put(key, data, _, _) => Fits(capacity, items, key, |data|)
    case Read(key, data, _, now, _) =>
      Lookup(items, key, now).Some? || Fits(capacity, AfterGet(items, key, now), key, |data|)
    case _ => true
  }

  predicate NeverEvicts(capacity: int, items: seq<CacheItem>, ops: seq<Op>)
    decreases |ops|
  {
    ops == [] || (
      Unevicting(capacity, items, ops[0]) && NeverEvicts(capacity, Step(capacity, items, ops[0]), ops[1..]))
  }

  /** `items` less those under the keys of `gone`. */
  function Less(items: seq<CacheItem>, gone: set<string>): seq<CacheItem> {
    if items == [] then []
    else if items[0].key in gone then Less(items[1..], gone)
    else [items[0]] + Less(items[1..], gone)
  }

  ghost predicate Stale(items: seq<CacheItem>, gone: set<string>, t: Time) {
    forall it :: it in items && it.key in gone ==> it.Expired(t)
  }

  // ---------- Less and the operations ----------

  lemma {:induction false} LessFind(items: seq<CacheItem>, gone: set<string>, key: string)
    ensures Find(Less(items, gone), key) == if key in gone then None else Find(items, key)
  {
    if items != [] {
      LessFind(items[1..], gone, key);
    }
  }

  lemma {:induction false} LessWithout(items: seq<CacheItem>, gone: set<string>, key: string)
    ensures Without(Less(items, gone), key) == Less(Without(items, key), gone)
    ensures Less(Without(items, key), gone) == Less(Without(items, key), gone - {key})
    ensures key in gone ==> Less(Without(items, key), gone) == Less(items, gone)
  {
    if items != [] {
      LessWithout(items[1..], gone, key);
    }
  }

  lemma {:induction false} LessSize(items: seq<CacheItem>, gone: set<string>)
    ensures TotalSize(Less(items, gone)) <= TotalSize(items)
    ensures items == [] ==> Less(items, gone) == []
  {
    if items != [] {
      LessSize(items[1..], gone);
    }
  }

  lemma {:induction false} LessNothing(items: seq<CacheItem>)
    ensures Less(items, {}) == items
  {
    if items != [] {
      LessNothing(items[1..]);
    }
  }

  lemma {:induction false} LessLive(items: seq<CacheItem>, gone: set<string>, now: Time)
    requires Stale(items, gone, now)
    ensures Live(Less(items, gone), now) == Live(items, now)
  {
    if items != [] {
      assert items[0] in items;
      LessLive(items[1..], gone, now);
    }
  }

  lemma {:induction false} LiveIsLess(items: seq<CacheItem>, gone: set<string>, now: Time)
    requires forall it :: it in items ==> (it.key in gone <==> it.Expired(now))
    ensures Live(items, now) == Less(items, gone)
  {
    if items != [] {
      assert items[0] in items;
      LiveIsLess(items[1..], gone, now);
    }
  }

  lemma {:induction false} LessMore(items: seq<CacheItem>, gone: set<string>, key: string)
    requires forall it :: it in items ==> it.key != key
    ensures Less(items, gone + {key}) == Less(items, gone)
  {
    if items != [] {
      assert items[0] in items;
      LessMore(items[1..], gone, key);
    }
  }

  // ---------- appending ----------

  lemma {:induction false} LiveAppend(a: seq<CacheItem>, b: seq<CacheItem>, now: Time)
    ensures Live(a + b, now) == Live(a, now) + Live(b, now)
  {
    if a == [] {
      assert a + b == b;
    } else {
      assert (a + b)[1..] == a[1..] + b;
      LiveAppend(a[1..], b, now);
    }
  }

  lemma {:induction false} LessAppend(a: seq<CacheItem>, b: seq<CacheItem>, gone: set<string>)
    ensures Less(a + b, gone) == Less(a, gone) + Less(b, gone)
  {
    if a == [] {
      assert a + b == b;
    } else {
      assert (a + b)[1..] == a[1..] + b;
      LessAppend(a[1..], b, gone);
    }
  }

  lemma {:induction false} WithoutAppend(a: seq<CacheItem>, b: seq<CacheItem>, key: string)
    ensures Without(a + b, key) == Without(a, key) + Without(b, key)
  {
    if a == [] {
      assert a + b == b;
    } else {
      assert (a + b)[1..] == a[1..] + b;
      WithoutAppend(a[1..], b, key);
    }
  }

  lemma {:induction false} FindAppend(a: seq<CacheItem>, b: seq<CacheItem>, key: string)
    ensures Find(a + b, key) == if Find(a, key).Some? then Find(a, key) else Find(b, key)
  {
    if a == [] {
      assert a + b == b;
    } else {
      assert (a + b)[1..] == a[1..] + b;
      FindAppend(a[1..], b, key);
    }
  }

  lemma LivePrefix(p: seq<CacheItem>, items: seq<CacheItem>, now: Time)
    requires p <= items
    ensures Live(p, now) <= Live(items, now)
    ensures Live(items, now) == Live(p, now) + Live(items[|p|..], now)
  {
    assert items == p + items[|p|..];
    LiveAppend(p, items[|p|..], now);
  }

  // ---------- eviction and expiry ----------

  /** Evicting among all items leaves, of the unexpired ones, a prefix of what
      evicting among those alone leaves. */
  lemma LiveOfEvicted(others: seq<CacheItem>, room: int, now: Time)
    ensures Live(EvictTo(others, room), now) <= EvictTo(Live(others, now), room)
  {
    var kept, live := EvictTo(others, room), Live(others, now);
    EvictToIsLongestFittingPrefix(others, room);
    EvictToIsLongestFittingPrefix(live, room);
    LivePrefix(kept, others, now);
    LiveProperties(kept, now);
    assert live[..|Live(kept, now)|] == Live(kept, now);
  }

  /** Eviction leaves no more unexpired items than these if and only if no more fit. */
  lemma KeepsNoMoreIff(items: seq<CacheItem>, live: seq<CacheItem>, room: int, now: Time)
    requires live <= Live(EvictTo(items, room), now)
    ensures live == Live(EvictTo(items, room), now) <==> NoMoreFit(items, |live|, room, now)
  {
    var kept := EvictTo(items, room);
    EvictToIsLongestFittingPrefix(items, room);
    assert items[..|kept|] == kept;
    forall m | 0 <= m <= |kept| ensures Live(items[..m], now) <= Live(kept, now) {
      assert items[..m] <= kept;
      LivePrefix(items[..m], kept, now);
    }
  }

  lemma {:induction false} LiveLater(items: seq<CacheItem>, t: Time, now: Time)
    requires t <= now
    ensures Live(Live(items, t), now) == Live(items, now)
  {
    if items != [] {
      LiveLater(items[1..], t, now);
    }
  }

  /** Dropping at `t` what has expired and evicting at `now` leave the same unexpired
      items as evicting alone if and only if, past those, no more would fit. */
  lemma EvictCommutesIff(others: seq<CacheItem>, room: int, t: Time, now: Time)
    requires t <= now
    ensures var l, c := Live(EvictTo(others, room), now), Live(others, t);
            l == Live(EvictTo(c, room), now) <==> NoMoreFit(c, |l|, room, now)
  {
    var kept, c := EvictTo(others, room), Live(others, t);
    LiveOfEvicted(others, room, t);
    LivePrefix(Live(kept, t), EvictTo(c, room), now);
    LiveLater(kept, t, now);
    KeepsNoMoreIff(c, Live(kept, now), room, now);
  }

  /** With no key twice, a lookup sees the unexpired items and nothing else. */
  lemma {:induction false} LookupLive(items: seq<CacheItem>, key: string, now: Time)
    requires UniqueKeys(items)
    ensures Lookup(items, key, now) == Lookup(Live(items, now), key, now)
    ensures Lookup(Live(items, now), key, now).Some? <==> Find(Live(items, now), key).Some?
  {
    if items != [] {
      assert items == [items[0]] + items[1..];
      LookupLive(items[1..], key, now);
      LiveProperties(items[1..], now);
      if items[0].key == key && items[0].Expired(now) {
        forall it | it in items[1..] ensures it.key != key {
        }
      }
    }
  }

  /** Lookups tell two lists apart, one's unexpired items being a prefix of the
      other's, exactly when there are more of these: by the first one more. */
  lemma LookupsShow(p: seq<CacheItem>, q: seq<CacheItem>, now: Time)
    requires UniqueKeys(p) && UniqueKeys(q) && Live(p, now) <= Live(q, now)
    ensures var l, e := Live(p, now), Live(q, now);
            && (l == e ==> Alike(q, p, now))
            && (l != e ==> Lookup(q, e[|l|].key, now) != Lookup(p, e[|l|].key, now))
  {
    var l, e := Live(p, now), Live(q, now);
    LiveProperties(q, now);
    hide Live;
    forall key ensures Lookup(p, key, now) == Lookup(l, key, now) && Lookup(q, key, now) == Lookup(e, key, now) {
      LookupLive(p, key, now);
      LookupLive(q, key, now);
    }
    if l != e {
      var key := e[|l|].key;
      LookupLive(q, key, now);
      LookupLive(p, key, now);
      assert e[|l|] in e;
      assert Find(l, key).None?;
    }
  }

  lemma PutLookup(capacity: int, items: seq<CacheItem>, item: CacheItem, key: string, now: Time)
    ensures Lookup(AfterPut(capacity, items, item), key, now) ==
            if key == item.key && item.Size() <= capacity
            then if item.Expired(now) then None else Some(item.data)
            else Lookup(EvictTo(Without(items, item.key), capacity - item.Size()), key, now)
  {
    var kept := EvictTo(Without(items, item.key), capacity - item.Size());
    assert ([item] + kept)[1..] == kept;
  }

  // ---------- the cleaned cache follows the other one ----------

  /** `a` answers as `b` does: it lacks some expired items of `b` and keeps, at
      the back, some expired items that `b` has lost. */
  ghost predicate Follows(a: seq<CacheItem>, b: seq<CacheItem>, gone: set<string>, tail: seq<CacheItem>, t: Time) {
    && a == Less(b, gone) + tail
    && Stale(b, gone, t)
    && forall it :: it in tail ==> it.Expired(t)
  }

  lemma FollowsLater(a: seq<CacheItem>, b: seq<CacheItem>, gone: set<string>, tail: seq<CacheItem>,
                     t: Time, now: Time)
    requires Follows(a, b, gone, tail, t) && t <= now
    ensures Follows(a, b, gone, tail, now)
  {
  }

  lemma DropFollows(a: seq<CacheItem>, b: seq<CacheItem>, gone: set<string>, tail: seq<CacheItem>, key: string, t: Time)
    requires Follows(a, b, gone, tail, t)
    ensures Follows(Without(a, key), Without(b, key), gone, Without(tail, key), t)
  {
    WithoutAppend(Less(b, gone), tail, key);
    LessWithout(b, gone, key);
    WithoutProperties(b, key);
    WithoutProperties(tail, key);
  }

  lemma {:induction false} NoneLive(items: seq<CacheItem>, t: Time)
    requires forall it :: it in items ==> it.Expired(t)
    ensures Live(items, t) == []
  {
    if items != [] {
      assert items[0] in items;
      NoneLive(items[1..], t);
    }
  }

  lemma LiveFollows(a: seq<CacheItem>, b: seq<CacheItem>, gone: set<string>, tail: seq<CacheItem>, t: Time)
    requires Follows(a, b, gone, tail, t)
    ensures Live(a, t) == Live(b, t)
  {
    LiveAppend(Less(b, gone), tail, t);
    LessLive(b, gone, t);
    NoneLive(tail, t);
  }

  lemma PushFollows(a: seq<CacheItem>, b: seq<CacheItem>, gone: set<string>, tail: seq<CacheItem>,
                    item: CacheItem, t: Time)
    requires Follows(a, b, gone, tail, t) && forall it :: it in b ==> it.key != item.key
    ensures Follows(a, b, gone - {item.key}, tail, t)
    ensures Follows([item] + a, [item] + b, gone - {item.key}, tail, t)
  {
    var gone' := gone - {item.key};
    LessMore(b, gone', item.key);
    assert gone' + {item.key} == gone + {item.key};
    LessMore(b, gone, item.key);
    assert ([item] + b)[1..] == b;
    assert Less([item] + b, gone') == [item] + Less(b, gone');
  }

  lemma GetFollows(a: seq<CacheItem>, b: seq<CacheItem>, gone: set<string>, tail: seq<CacheItem>,
                   key: string, now: Time)
    requires Follows(a, b, gone, tail, now)
    ensures Lookup(a, key, now) == Lookup(b, key, now)
    ensures Follows(AfterGet(a, key, now), AfterGet(b, key, now), gone, Without(tail, key), now)
  {
    FindAppend(Less(b, gone), tail, key);
    LessFind(b, gone, key);
    DropFollows(a, b, gone, tail, key, now);
    WithoutProperties(b, key);
    if Find(a, key).None? {
      WithoutAbsent(a, key);
    }
    if Find(b, key).None? {
      WithoutAbsent(b, key);
    }
    assert Find(b, key).Some? && key in gone ==> Find(b, key).value.Expired(now);
    hide Without, Find, Less, Follows;
    if Find(b, key).Some? && !Find(b, key).value.Expired(now) {
      assert gone - {key} == gone;
      PushFollows(Without(a, key), Without(b, key), gone, Without(tail, key), Find(b, key).value, now);
    }
  }

  /** What `b` keeps of its items is the front of what `a` keeps. */
  lemma KeptPrefix(a: seq<CacheItem>, b: seq<CacheItem>, gone: set<string>, tail: seq<CacheItem>, room: int)
    requires a == Less(b, gone) + tail
    ensures Less(EvictTo(b, room), gone) <= EvictTo(a, room)
  {
    var e := EvictTo(b, room);
    EvictToIsLongestFittingPrefix(a, room);
    EvictToIsLongestFittingPrefix(b, room);
    assert b == e + b[|e|..];
    LessAppend(e, b[|e|..], gone);
    LessSize(e, gone);
    hide EvictTo, Less, TotalSize;
    assert a[..|Less(e, gone)|] == Less(e, gone);
  }

  lemma KeptLive(a: seq<CacheItem>, b: seq<CacheItem>, gone: set<string>, tail: seq<CacheItem>, room: int, t: Time)
    requires Follows(a, b, gone, tail, t)
    ensures Stale(EvictTo(b, room), gone, t)
    ensures Live(EvictTo(b, room), t) == Live(Less(EvictTo(b, room), gone), t) <= Live(EvictTo(a, room), t)
  {
    var e, q := EvictTo(b, room), EvictTo(a, room);
    KeptPrefix(a, b, gone, tail, room);
    EvictToIsLongestFittingPrefix(b, room);
    hide EvictTo, Less, TotalSize, Live;
    assert Stale(e, gone, t) by { assert forall it :: it in e ==> it in b; }
    LessLive(e, gone, t);
    LivePrefix(Less(e, gone), q, t);
  }

  /** The items kept in the two caches, once the one being put is out of both. */
  lemma EvictFollows(a: seq<CacheItem>, b: seq<CacheItem>, gone: set<string>, tail: seq<CacheItem>, room: int, t: Time)
      returns (tail': seq<CacheItem>)
    requires Follows(a, b, gone, tail, t) && Live(EvictTo(b, room), t) == Live(EvictTo(a, room), t)
    ensures Follows(EvictTo(a, room), EvictTo(b, room), gone, tail', t)
  {
    var p, q := Less(EvictTo(b, room), gone), EvictTo(a, room);
    KeptPrefix(a, b, gone, tail, room);
    KeptLive(a, b, gone, tail, room, t);
    hide EvictTo, Less, TotalSize, Live;
    tail' := q[|p|..];
    LivePrefix(p, q, t);
    assert Live(tail', t) == [];
    LiveProperties(tail', t);
  }

  /** A lookup tells the two Puts apart when it tells what they kept apart. */
  lemma PutShows(capacity: int, a: seq<CacheItem>, b: seq<CacheItem>, item: CacheItem, key: string, now: Time)
    ensures var room := capacity - item.Size();
            (Lookup(AfterPut(capacity, a, item), key, now) == Lookup(AfterPut(capacity, b, item), key, now))
            <==>
            ((key == item.key && item.Size() <= capacity)
              || Lookup(EvictTo(Without(a, item.key), room), key, now)
              == Lookup(EvictTo(Without(b, item.key), room), key, now))
  {
    PutLookup(capacity, a, item, key, now);
    PutLookup(capacity, b, item, key, now);
  }

  /** Of the unexpired items under other keys `b` keeps a prefix of what `a` keeps,
      and all of it if and only if the Put hides nothing. */
  lemma PutKeeps(capacity: int, a: seq<CacheItem>, b: seq<CacheItem>, gone: set<string>, tail: seq<CacheItem>,
                 key: string, size: nat, t: Time)
    requires Follows(a, b, gone, tail, t)
    ensures Follows(Without(a, key), Without(b, key), gone, Without(tail, key), t)
    ensures var p, q := EvictTo(Without(b, key), capacity - size), EvictTo(Without(a, key), capacity - size);
            && Live(p, t) <= Live(q, t)
            && (Live(p, t) == Live(q, t) <==> HidesNothing(capacity, a, b, key, size, t))
  {
    hide Follows, EvictTo, Without, TotalSize, Live;
    DropFollows(a, b, gone, tail, key, t);
    KeptLive(Without(a, key), Without(b, key), gone, Without(tail, key), capacity - size, t);
    KeepsNoMoreIff(Without(a, key), Live(EvictTo(Without(b, key), capacity - size), t), capacity - size, t);
  }

  /** The same Put in both leaves no lookup to tell them apart if and only if it
      hides nothing. */
  lemma PutAlikeIff(capacity: int, a: seq<CacheItem>, b: seq<CacheItem>, gone: set<string>, tail: seq<CacheItem>,
                    item: CacheItem, now: Time)
    requires UniqueKeys(a) && UniqueKeys(b) && Follows(a, b, gone, tail, now)
    ensures Alike(AfterPut(capacity, a, item), AfterPut(capacity, b, item), now)
            <==> HidesNothing(capacity, a, b, item.key, item.Size(), now)
  {
    hide EvictTo, Live, Without, TotalSize, Lookup, AfterPut, UniqueKeys, Follows, HidesNothing, NoMoreFit;
    var room := capacity - item.Size();
    var p, q := EvictTo(Without(b, item.key), room), EvictTo(Without(a, item.key), room);
    PutKeeps(capacity, a, b, gone, tail, item.key, item.Size(), now);
    KeptUnique(a, item.key, room);
    KeptUnique(b, item.key, room);
    LookupsShow(p, q, now);
    if Live(p, now) == Live(q, now) {
      forall key
        ensures Lookup(AfterPut(capacity, a, item), key, now) == Lookup(AfterPut(capacity, b, item), key, now)
      {
        PutShows(capacity, a, b, item, key, now);
      }
    } else {
      var lost := Live(q, now)[|Live(p, now)|];
      LiveProperties(q, now);
      assert lost in Live(q, now);
      PutShows(capacity, a, b, item, lost.key, now);
    }
  }

  lemma KeptUnique(items: seq<CacheItem>, key: string, room: int)
    requires UniqueKeys(items)
    ensures var kept := EvictTo(Without(items, key), room);
            UniqueKeys(kept) && forall it :: it in kept ==> it.key != key
  {
    var others := Without(items, key);
    WithoutProperties(items, key);
    EvictToIsLongestFittingPrefix(others, room);
    var kept := EvictTo(others, room);
    assert kept == others[..|kept|];
    UniquePrefix(others, |kept|);
  }

  lemma PutFollows(capacity: int, a: seq<CacheItem>, b: seq<CacheItem>, gone: set<string>, tail: seq<CacheItem>,
                   item: CacheItem, t: Time) returns (tail': seq<CacheItem>)
    requires Follows(a, b, gone, tail, t) && HidesNothing(capacity, a, b, item.key, item.Size(), t)
    ensures Follows(AfterPut(capacity, a, item), AfterPut(capacity, b, item), gone - {item.key}, tail', t)
  {
    hide EvictTo, Without, TotalSize, Live, Follows, HidesNothing, NoMoreFit;
    var key, room := item.key, capacity - item.Size();
    var x, y := Without(a, key), Without(b, key);
    PutKeeps(capacity, a, b, gone, tail, key, item.Size(), t);
    tail' := EvictFollows(x, y, gone, Without(tail, key), room, t);
    EvictToIsLongestFittingPrefix(y, room);
    WithoutProperties(b, key);
    assert forall it :: it in EvictTo(y, room) ==> it in y;
    PushFollows(EvictTo(x, room), EvictTo(y, room), gone, tail', item, t);
  }

  lemma StepKeepsUnique(capacity: int, items: seq<CacheItem>, op: Op)
    requires UniqueKeys(items)
    ensures UniqueKeys(Step(capacity, items, op))
  {
    assert UniqueKeys([]);
    hide UniqueKeys, TotalSize, EvictTo;
    match op
    case Put(key, data, ttl, now) => PutKeepsUnique(capacity, items, CacheItem(key, data, now, ttl));
    case Get(key, now) => GetKeepsWellFormed(TotalSize(items), items, key, now);
    case Delete(key) => WithoutProperties(items, key);
    case Cleanup(now) => LiveProperties(items, now);
    case Clear =>
    case Read(key, data, ttl, now, later) =>
      GetKeepsWellFormed(TotalSize(items), items, key, now);
      PutKeepsUnique(capacity, AfterGet(items, key, now), CacheItem(key, data, later, ttl));
  }

  lemma PutKeepsUnique(capacity: int, items: seq<CacheItem>, item: CacheItem)
    requires UniqueKeys(items)
    ensures UniqueKeys(AfterPut(capacity, items, item))
  {
    KeptUnique(items, item.key, capacity - item.Size());
    hide UniqueKeys, EvictTo;
    UniquePush(item, EvictTo(Without(items, item.key), capacity - item.Size()));
  }

  /** One step keeps the relation and gives the same answer, unless it reveals. */
  lemma StepFollows(capacity: int, a: seq<CacheItem>, b: seq<CacheItem>, gone: set<string>, tail: seq<CacheItem>,
                    op: Op, t: Time) returns (gone': set<string>, tail': seq<CacheItem>)
    requires Follows(a, b, gone, tail, t) && t <= At(op).GetOr(t) <= After(op, t) && !Reveals(capacity, a, b, op)
    ensures Follows(Step(capacity, a, op), Step(capacity, b, op), gone', tail', After(op, t))
    ensures op.Get? || op.Read? ==> Lookup(a, op.key, op.now) == Lookup(b, op.key, op.now)
  {
    assert Follows(a, b, gone, tail, At(op).GetOr(t));
    LessNothing([]);
    assert Follows([], [], {}, [], t);
    hide Less, Without, EvictTo, TotalSize, Live, Lookup, AfterGet, AfterPut, HidesNothing;
    gone', tail' := gone, tail;
    match op
    case Put(key, data, ttl, now) =>
      tail' := PutFollows(capacity, a, b, gone, tail, CacheItem(key, data, now, ttl), now);
      gone' := gone - {key};
    case Get(key, now) =>
      GetFollows(a, b, gone, tail, key, now);
      tail' := Without(tail, key);
    case Delete(key) =>
      DropFollows(a, b, gone, tail, key, t);
      tail' := Without(tail, key);
    case Cleanup(now) =>
      LiveFollows(a, b, gone, tail, now);
      LessNothing(Live(b, now));
      gone', tail' := {}, [];
    case Clear =>
      gone', tail' := {}, [];
    case Read(key, data, ttl, now, later) =>
      GetFollows(a, b, gone, tail, key, now);
      tail' := Without(tail, key);
      FollowsLater(AfterGet(a, key, now), AfterGet(b, key, now), gone, tail', now, later);
      if Lookup(b, key, now).None? {
        tail' := PutFollows(capacity, AfterGet(a, key, now), AfterGet(b, key, now), gone, tail',
                            CacheItem(key, data, later, ttl), later);
        gone' := gone - {key};
      }
  }

  lemma FollowsAlike(a: seq<CacheItem>, b: seq<CacheItem>, gone: set<string>, tail: seq<CacheItem>, t: Time)
    requires Follows(a, b, gone, tail, t)
    ensures Alike(a, b, t)
  {
    forall key ensures Lookup(a, key, t) == Lookup(b, key, t) {
      GetFollows(a, b, gone, tail, key, t);
    }
  }

  lemma RevealedIsSeen(capacity: int, a: seq<CacheItem>, b: seq<CacheItem>, gone: set<string>, tail: seq<CacheItem>,
                       op: Op, t: Time)
    requires UniqueKeys(a) && UniqueKeys(b) && Follows(a, b, gone, tail, t)
    requires t <= At(op).GetOr(t) <= After(op, t) && Reveals(capacity, a, b, op)
    ensures !Alike(Step(capacity, a, op), Step(capacity, b, op), After(op, t))
  {
    assert Follows(a, b, gone, tail, At(op).GetOr(t));
    hide UniqueKeys, Follows, Alike, HidesNothing, AfterPut, Lookup, AfterGet;
    match op
    case Put(key, data, ttl, now) =>
      PutAlikeIff(capacity, a, b, gone, tail, CacheItem(key, data, now, ttl), now);
    case Read(key, data, ttl, now, later) =>
      GetFollows(a, b, gone, tail, key, now);
      GetKeepsWellFormed(TotalSize(a), a, key, now);
      GetKeepsWellFormed(TotalSize(b), b, key, now);
      FollowsLater(AfterGet(a, key, now), AfterGet(b, key, now), gone, Without(tail, key), now, later);
      PutAlikeIff(capacity, AfterGet(a, key, now), AfterGet(b, key, now), gone, Without(tail, key),
                  CacheItem(key, data, later, ttl), later);
    case _ =>
  }

  lemma {:induction false} RunFollows(capacity: int, a: seq<CacheItem>, b: seq<CacheItem>, gone: set<string>,
                                      tail: seq<CacheItem>, ops: seq<Op>, t: Time)
    requires UniqueKeys(a) && UniqueKeys(b) && Follows(a, b, gone, tail, t) && Timed(ops, t)
    ensures AlwaysAlike(capacity, a, b, ops, t) <==> NeverReveals(capacity, a, b, ops)
    ensures NeverReveals(capacity, a, b, ops) ==> Answers(capacity, a, ops) == Answers(capacity, b, ops)
    decreases |ops|
  {
    hide UniqueKeys, Follows, Step, Reveals, Alike;
    FollowsAlike(a, b, gone, tail, t);
    if ops != [] {
      var a', b', t' := Step(capacity, a, ops[0]), Step(capacity, b, ops[0]), After(ops[0], t);
      if Reveals(capacity, a, b, ops[0]) {
        RevealedIsSeen(capacity, a, b, gone, tail, ops[0], t);
      } else {
        var gone', tail' := StepFollows(capacity, a, b, gone, tail, ops[0], t);
        StepKeepsUnique(capacity, a, ops[0]);
        StepKeepsUnique(capacity, b, ops[0]);
        RunFollows(capacity, a', b', gone', tail', ops[1..], t');
      }
    }
  }

  /** The cleaned cache, from the cleanup on. */
  lemma CleanedFollows(items: seq<CacheItem>, t: Time, now: Time) returns (gone: set<string>)
    requires UniqueKeys(items) && t <= now
    ensures UniqueKeys(Live(items, t)) && Follows(Live(items, t), items, gone, [], now)
  {
    gone := set it | it in items && it.Expired(t) :: it.key;
    forall it | it in items && it.key in gone ensures it.Expired(t) {
      var i :| 0 <= i < |items| && items[i] == it;
      var j :| 0 <= j < |items| && items[j].key == it.key && items[j].Expired(t);
    }
    LiveIsLess(items, gone, t);
    LiveProperties(items, t);
  }

  // ---------- when a cleanup shows ----------

  /** A Put at `now` answers every lookup as it would had the items expired at `t`
      been cleaned up, if and only if it hides nothing. */
  lemma PutHidesNothingIff(capacity: int, items: seq<CacheItem>, item: CacheItem, t: Time, now: Time)
    requires UniqueKeys(items) && t <= now
    ensures (forall key :: Lookup(AfterPut(capacity, Live(items, t), item), key, now)
                        == Lookup(AfterPut(capacity, items, item), key, now))
            <==> HidesNothing(capacity, Live(items, t), items, item.key, item.Size(), now)
  {
    var gone := CleanedFollows(items, t, now);
    hide UniqueKeys, Follows, HidesNothing, AfterPut, Lookup, Live;
    PutAlikeIff(capacity, Live(items, t), items, gone, [], item, now);
  }

  /** Running CleanupExpired at time `t` stays invisible all along a later run, to
      the lookups in it and to any other, if and only if no Put of the run reveals it. */
  lemma CleanupIsInvisible(capacity: int, items: seq<CacheItem>, ops: seq<Op>, t: Time)
    requires UniqueKeys(items) && Timed(ops, t)
    ensures AlwaysAlike(capacity, Live(items, t), items, ops, t)
            <==> NeverReveals(capacity, Live(items, t), items, ops)
    ensures NeverReveals(capacity, Live(items, t), items, ops) ==>
              Answers(capacity, items, [Op.Cleanup(t)] + ops) == Answers(capacity, items, ops)
  {
    var gone := CleanedFollows(items, t, t);
    RunFollows(capacity, Live(items, t), items, gone, [], ops, t);
    assert ([Op.Cleanup(t)] + ops)[1..] == ops;
  }

  lemma RoomyPutHidesNothing(capacity: int, a: seq<CacheItem>, b: seq<CacheItem>, gone: set<string>,
                             tail: seq<CacheItem>, key: string, size: nat, now: Time)
    requires Follows(a, b, gone, tail, now) && Fits(capacity, b, key, size)
    ensures HidesNothing(capacity, a, b, key, size, now)
  {
    var x, y := Without(a, key), Without(b, key);
    DropFollows(a, b, gone, tail, key, now);
    LiveFollows(x, y, gone, Without(tail, key), now);
    assert EvictTo(y, capacity - size) == y;
    forall m | 0 <= m <= |x| ensures |Live(x[..m], now)| <= |Live(x, now)| {
      LivePrefix(x[..m], x, now);
    }
  }

  lemma {:induction false} UnevictingRunsRevealNothing(capacity: int, a: seq<CacheItem>, b: seq<CacheItem>,
                                                       gone: set<string>, tail: seq<CacheItem>, ops: seq<Op>, t: Time)
    requires Follows(a, b, gone, tail, t) && Timed(ops, t) && NeverEvicts(capacity, b, ops)
    ensures NeverReveals(capacity, a, b, ops)
    decreases |ops|
  {
    if ops != [] {
      var op := ops[0];
      assert Follows(a, b, gone, tail, At(op).GetOr(t));
      hide Follows, Step, Fits, HidesNothing, AfterGet, Lookup;
      match op {
        case Put(key, data, _, now) => RoomyPutHidesNothing(capacity, a, b, gone, tail, key, |data|, now);
        case Read(key, data, _, now, later) =>
          GetFollows(a, b, gone, tail, key, now);
          FollowsLater(AfterGet(a, key, now), AfterGet(b, key, now), gone, Without(tail, key), now, later);
          if Lookup(b, key, now).None? {
            RoomyPutHidesNothing(capacity, AfterGet(a, key, now), AfterGet(b, key, now), gone,
                                 Without(tail, key), key, |data|, later);
          }
        case _ =>
      }
      var gone', tail' := StepFollows(capacity, a, b, gone, tail, op, t);
      var a', b' := Step(capacity, a, op), Step(capacity, b, op);
      UnevictingRunsRevealNothing(capacity, a', b', gone', tail', ops[1..], After(op, t));
    }
  }

  /** In particular up to the first Put that must evict. */
  lemma InvisibleUntilEviction(capacity: int, items: seq<CacheItem>, ops: seq<Op>, t: Time)
    requires UniqueKeys(items) && Timed(ops, t) && NeverEvicts(capacity, items, ops)
    ensures AlwaysAlike(capacity, Live(items, t), items, ops, t)
    ensures Answers(capacity, items, [Op.Cleanup(t)] + ops) == Answers(capacity, items, ops)
  {
    var gone := CleanedFollows(items, t, t);
    UnevictingRunsRevealNothing(capacity, Live(items, t), items, gone, [], ops, t);
    CleanupIsInvisible(capacity, items, ops, t);
  }

  /** A Put that does hide something, so that the cleanup shows: with two bytes of
      room, an expired item keeps a live one from staying. */
  lemma EvictionRevealsCleanup()
    ensures var stale, live := CacheItem("s", [1], 0, 1), CacheItem("l", [1], 0, 0);
            var ops := [Op.Put("n", [1], 0, 5), Op.Get("l", 5)];
            && Answers(2, [stale, live], ops) == [None]
            && Answers(2, [stale, live], [Op.Cleanup(5)] + ops) == [Some([1])]
  {
    var stale, live, n := CacheItem("s", [1], 0, 1), CacheItem("l", [1], 0, 0), CacheItem("n", [1], 5, 0);
    var put, get := Op.Put("n", [1], 0, 5), Op.Get("l", 5);
    var ops := [put, get];
    assert Without([live], "n") == [live] && Without([stale, live], "n") == [stale] + Without([live], "n");
    assert [stale, live][..1] == [stale] && [stale][1..] == [] && TotalSize([stale]) == 1;
    assert EvictTo([stale, live], 1) == EvictTo([stale], 1) == [stale];
    assert AfterPut(2, [stale, live], n) == [n, stale];
    assert AfterPut(2, [live], n) == [n, live];
    assert Live([stale, live], 5) == Live([live], 5);
    assert [n, stale][1..] == [stale] && [n, live][1..] == [live];
  }
}
