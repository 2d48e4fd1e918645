/** Whole runs of the cache: the value of any sequence of method calls. */
module LruRuns {
  import opened Common
  import opened LruSpec

  /** `Read` is the read-through access of Fetch: a Get, and on a miss the
      content that a relay node answered is Put. */
  datatype Op =
    | Put(key: string, data: Bytes, ttl: int, now: Time)
    | Get(key: string, now: Time)
    | Delete(key: string)
    | Cleanup(now: Time)
    | Clear
    | Read(key: string, data: Bytes, ttl: int, now: Time, later: Time)

  function ReadThrough(capacity: int, items: seq<CacheItem>,
                       key: string, data: Bytes, ttl: int, now: Time, later: Time): seq<CacheItem>
  {
    if Lookup(items, key, now).Some? then AfterGet(items, key, now)
    else AfterPut(capacity, AfterGet(items, key, now), CacheItem(key, data, later, ttl))
  }

  function Step(capacity: int, items: seq<CacheItem>, op: Op): seq<CacheItem> {
    match op
    case Put(key, data, ttl, now) => AfterPut(capacity, items, CacheItem(key, data, now, ttl))
    case Get(key, now) => AfterGet(items, key, now)
    case Delete(key) => Without(items, key)
    case Cleanup(now) => Live(items, now)
    case Clear => []
    case Read(key, data, ttl, now, later) => ReadThrough(capacity, items, key, data, ttl, now, later)
  }

  /** What the cache holds after `ops`, starting empty. */
  function Run(capacity: int, ops: seq<Op>): seq<CacheItem> {
    if ops == [] then []
    else Step(capacity, Run(capacity, ops[..|ops| - 1]), ops[|ops| - 1])
  }

  lemma StepKeepsWellFormed(capacity: int, items: seq<CacheItem>, op: Op)
    requires WellFormed(capacity, items)
    ensures WellFormed(capacity, Step(capacity, items, op))
  {
    assert UniqueKeys([]);
    hide UniqueKeys, TotalSize;
    match op
    case Put(key, data, ttl, now) => PutKeepsWellFormed(capacity, items, CacheItem(key, data, now, ttl));
    case Get(key, now) => GetKeepsWellFormed(capacity, items, key, now);
    case Delete(key) => WithoutProperties(items, key);
    case Cleanup(now) => LiveProperties(items, now);
    case Clear =>
    case Read(key, data, ttl, now, later) =>
      GetKeepsWellFormed(capacity, items, key, now);
      PutKeepsWellFormed(capacity, AfterGet(items, key, now), CacheItem(key, data, later, ttl));
  }

  /** In every run the cache never holds more bytes than its capacity, nor a key twice. */
  lemma {:induction false} RunIsWellFormed(capacity: int, ops: seq<Op>)
    ensures WellFormed(capacity, Run(capacity, ops))
  {
    if ops != [] {
      RunIsWellFormed(capacity, ops[..|ops| - 1]);
      StepKeepsWellFormed(capacity, Run(capacity, ops[..|ops| - 1]), ops[|ops| - 1]);
    }
  }
}
