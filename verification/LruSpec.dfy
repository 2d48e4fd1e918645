/** The value model of the byte-bounded LRU cache: a cache is the sequence of
    its items, most recently used first. */
module LruSpec {
  import opened Common

  datatype CacheItem = CacheItem(key: string, data: Bytes, createdAt: Time, ttl: int) {
    function Size(): nat { |data| }

    predicate Expired(now: Time) { ttl > 0 && now - createdAt > ttl }
  }

  function TotalSize(items: seq<CacheItem>): nat {
    if items == [] then 0 else items[0].Size() + TotalSize(items[1..])
  }

  function Keys(items: seq<CacheItem>): (ks: seq<string>)
    ensures |ks| == |items|
    ensures forall i :: 0 <= i < |items| ==> ks[i] == items[i].key
  {
    if items == [] then [] else [items[0].key] + Keys(items[1..])
  }

  ghost predicate UniqueKeys(items: seq<CacheItem>) {
    forall i, j :: 0 <= i < j < |items| ==> items[i].key != items[j].key
  }

  function Find(items: seq<CacheItem>, key: string): (r: Option<CacheItem>)
    ensures r.Some? ==> r.value in items && r.value.key == key
    ensures r.None? ==> forall it :: it in items ==> it.key != key
  {
    if items == [] then None
    else if items[0].key == key then Some(items[0])
    else Find(items[1..], key)
  }

  function Without(items: seq<CacheItem>, key: string): seq<CacheItem> {
    if items == [] then []
    else if items[0].key == key then Without(items[1..], key)
    else [items[0]] + Without(items[1..], key)
  }

  /** Items expired at `now`, taken out; the others keep their order. */
  function Live(items: seq<CacheItem>, now: Time): seq<CacheItem> {
    if items == [] then []
    else if items[0].Expired(now) then Live(items[1..], now)
    else [items[0]] + Live(items[1..], now)
  }

  /** Drop items from the back while they total more than `room`. */
  function EvictTo(items: seq<CacheItem>, room: int): seq<CacheItem>
    decreases |items|
  {
    if items != [] && TotalSize(items) > room then EvictTo(items[..|items| - 1], room) else items
  }

  /** PutWithTTL: the old entry goes first, then the eviction, then the
      oversize test, so an oversized item still flushes the cache. */
  function AfterPut(capacity: int, items: seq<CacheItem>, item: CacheItem): seq<CacheItem> {
    var kept := EvictTo(Without(items, item.key), capacity - item.Size());
    if item.Size() > capacity then kept else [item] + kept
  }

  function Lookup(items: seq<CacheItem>, key: string, now: Time): Option<Bytes> {
    match Find(items, key)
    case None => None
    case Some(item) => if item.Expired(now) then None else Some(item.data)
  }

  /** Get: an expired item is removed, a live one moves to the front. */
  function AfterGet(items: seq<CacheItem>, key: string, now: Time): seq<CacheItem> {
    match Find(items, key)
    case None => items
    case Some(item) =>
      if item.Expired(now) then Without(items, key) else [item] + Without(items, key)
  }

  /** What the representation promises: no key twice, and the bytes fit. */
  ghost predicate WellFormed(capacity: int, items: seq<CacheItem>) {
    UniqueKeys(items) && (items == [] || TotalSize(items) <= capacity)
  }

  // ---------- sums ----------

  lemma {:induction false} TotalSizeAppend(a: seq<CacheItem>, b: seq<CacheItem>)
    ensures TotalSize(a + b) == TotalSize(a) + TotalSize(b)
  {
    if a == [] {
      assert a + b == b;
    } else {
      assert (a + b)[0] == a[0] && (a + b)[1..] == a[1..] + b;
      TotalSizeAppend(a[1..], b);
    }
  }

  // ---------- eviction ----------

  /** Eviction keeps the longest prefix that fits: it stops at once when the
      room suffices, and every longer prefix would have been too big. */
  lemma {:induction false} EvictToIsLongestFittingPrefix(items: seq<CacheItem>, room: int)
    ensures EvictTo(items, room) <= items
    ensures EvictTo(items, room) == [] || TotalSize(EvictTo(items, room)) <= room
    ensures forall m :: |EvictTo(items, room)| < m <= |items| ==> TotalSize(items[..m]) > room
    decreases |items|
  {
    assert items[..|items|] == items;
    if items != [] && TotalSize(items) > room {
      var shorter := items[..|items| - 1];
      EvictToIsLongestFittingPrefix(shorter, room);
      forall m | |EvictTo(items, room)| < m <= |items|
        ensures TotalSize(items[..m]) > room
      {
        if m < |items| { assert items[..m] == shorter[..m]; }
      }
    }
  }

  // ---------- removal ----------

  lemma {:induction false} WithoutProperties(items: seq<CacheItem>, key: string)
    ensures forall it :: it in Without(items, key) <==> it in items && it.key != key
    ensures TotalSize(Without(items, key)) <= TotalSize(items)
    ensures UniqueKeys(items) ==> UniqueKeys(Without(items, key))
  {
    if items != [] {
      WithoutProperties(items[1..], key);
      assert items == [items[0]] + items[1..];
      if UniqueKeys(items) && items[0].key != key {
        var rest := Without(items[1..], key);
        forall j | 0 <= j < |rest| ensures rest[j].key != items[0].key {
          assert rest[j] in items[1..];
        }
      }
    }
  }

  lemma {:induction false} WithoutAbsent(items: seq<CacheItem>, key: string)
    requires forall it :: it in items ==> it.key != key
    ensures Without(items, key) == items
  {
    if items != [] {
      assert items == [items[0]] + items[1..];
      WithoutAbsent(items[1..], key);
    }
  }

  lemma UniqueTail(items: seq<CacheItem>, i: nat)
    requires UniqueKeys(items) && 0 < i < |items|
    ensures UniqueKeys(items[1..]) && items[1..][i - 1] == items[i] && items[0].key != items[i].key
  {
  }

  /** Removing the item at position i, when keys are unique, is removing its key. */
  lemma {:induction false} WithoutIsSplice(items: seq<CacheItem>, i: nat)
    requires i < |items| && UniqueKeys(items)
    ensures Without(items, items[i].key) == items[..i] + items[i + 1..]
    ensures Find(items, items[i].key) == Some(items[i])
    ensures TotalSize(Without(items, items[i].key)) == TotalSize(items) - items[i].Size()
  {
    if i == 0 {
      WithoutAbsent(items[1..], items[0].key);
      assert items[..0] + items[1..] == items[1..];
    } else {
      UniqueTail(items, i);
      hide UniqueKeys;
      WithoutIsSplice(items[1..], i - 1);
      assert items[1..][i..] == items[i + 1..];
      assert items[..i] + items[i + 1..] == [items[0]] + (items[1..][..i - 1] + items[i + 1..]);
    }
  }

  lemma {:induction false} LiveProperties(items: seq<CacheItem>, now: Time)
    ensures forall it :: it in Live(items, now) <==> it in items && !it.Expired(now)
    ensures TotalSize(Live(items, now)) <= TotalSize(items)
    ensures UniqueKeys(items) ==> UniqueKeys(Live(items, now))
  {
    if items != [] {
      LiveProperties(items[1..], now);
      assert items == [items[0]] + items[1..];
      if UniqueKeys(items) && !items[0].Expired(now) {
        var rest := Live(items[1..], now);
        forall j | 0 <= j < |rest| ensures rest[j].key != items[0].key {
          assert rest[j] in items[1..];
        }
      }
    }
  }

  lemma {:induction false} LiveIgnoresExpired(items: seq<CacheItem>, i: nat, now: Time)
    requires i < |items| && UniqueKeys(items) && items[i].Expired(now)
    ensures Live(Without(items, items[i].key), now) == Live(items, now)
  {
    if i == 0 {
      WithoutAbsent(items[1..], items[0].key);
    } else {
      assert items[0].key != items[i].key;
      LiveIgnoresExpired(items[1..], i - 1, now);
      assert Without(items, items[i].key)[1..] == Without(items[1..], items[i].key);
    }
  }

  lemma {:induction false} LiveOfLive(items: seq<CacheItem>, now: Time)
    requires forall it :: it in items ==> !it.Expired(now)
    ensures Live(items, now) == items
  {
    if items != [] {
      assert items[0] in items;
      LiveOfLive(items[1..], now);
    }
  }

  // ---------- what lookups and cleanups mean ----------

  /** The answer is the data of an item under the key whose TTL is not positive or not
      over yet; none if there is no such item. */
  ghost predicate Answered(items: seq<CacheItem>, key: string, now: Time, answer: Option<Bytes>) {
    match answer
    case Some(data) =>
      exists it :: it in items && it.key == key && it.data == data && (it.ttl <= 0 || now - it.createdAt <= it.ttl)
    case None => forall it :: it in items && it.key == key ==> it.ttl > 0 && now - it.createdAt > it.ttl
  }

  lemma LookupAnswers(items: seq<CacheItem>, key: string, now: Time)
    requires UniqueKeys(items)
    ensures Answered(items, key, now, Lookup(items, key, now))
  {
    var found := Find(items, key);
    if found.Some? {
      var i :| 0 <= i < |items| && items[i] == found.value;
      forall it | it in items && it.key == key ensures it == found.value {
        var j :| 0 <= j < |items| && items[j] == it;
      }
    }
  }

  /** A Get leaves all items but the one under its key if that one's time is over, and
      puts it first if not. */
  ghost predicate Fetched(was: seq<CacheItem>, items: seq<CacheItem>, key: string, now: Time) {
    && (forall it :: it in items <==>
          it in was && (it.key == key ==> it.ttl <= 0 || now - it.createdAt <= it.ttl))
    && ((exists it :: it in items && it.key == key) ==> items[0].key == key)
  }

  lemma GetFetches(items: seq<CacheItem>, key: string, now: Time)
    requires UniqueKeys(items)
    ensures Fetched(items, AfterGet(items, key, now), key, now)
  {
    LookupAnswers(items, key, now);
    WithoutProperties(items, key);
    var found := Find(items, key);
    if found.Some? {
      forall it | it in items && it.key == key ensures it == found.value {
        var i :| 0 <= i < |items| && items[i] == found.value;
        var j :| 0 <= j < |items| && items[j] == it;
      }
    }
  }

  /** Exactly the items whose TTL is not positive or not over yet are left. */
  ghost predicate OnlyUnexpired(was: seq<CacheItem>, items: seq<CacheItem>, now: Time) {
    forall it :: it in items <==> it in was && (it.ttl <= 0 || now - it.createdAt <= it.ttl)
  }

  lemma LiveIsUnexpired(items: seq<CacheItem>, now: Time)
    ensures OnlyUnexpired(items, Live(items, now), now)
  {
    LiveProperties(items, now);
  }

  // ---------- every operation keeps the representation sound ----------

  lemma UniquePush(item: CacheItem, rest: seq<CacheItem>)
    requires UniqueKeys(rest) && forall it :: it in rest ==> it.key != item.key
    ensures UniqueKeys([item] + rest)
    ensures TotalSize([item] + rest) == item.Size() + TotalSize(rest)
  {
  }

  lemma UniquePrefix(items: seq<CacheItem>, m: nat)
    requires UniqueKeys(items) && m <= |items|
    ensures UniqueKeys(items[..m])
  {
  }

  lemma PutKeepsWellFormed(capacity: int, items: seq<CacheItem>, item: CacheItem)
    requires WellFormed(capacity, items)
    ensures WellFormed(capacity, AfterPut(capacity, items, item))
  {
    hide UniqueKeys, EvictTo;
    var others := Without(items, item.key);
    var kept := EvictTo(others, capacity - item.Size());
    WithoutProperties(items, item.key);
    EvictToIsLongestFittingPrefix(others, capacity - item.Size());
    UniquePrefix(others, |kept|);
    assert kept == others[..|kept|];
    assert forall it :: it in kept ==> it in others;
    UniquePush(item, kept);
  }

  lemma GetKeepsWellFormed(capacity: int, items: seq<CacheItem>, key: string, now: Time)
    requires WellFormed(capacity, items)
    ensures WellFormed(capacity, AfterGet(items, key, now))
  {
    hide UniqueKeys, TotalSize;
    WithoutProperties(items, key);
    var found := Find(items, key);
    if found.Some? {
      var i :| 0 <= i < |items| && items[i] == found.value;
      WithoutIsSplice(items, i);
      UniquePush(found.value, Without(items, key));
    }
  }
}
