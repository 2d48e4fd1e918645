/** What the cache holds as a function of the access history alone. No item has a
    TTL here, and every key has one content. */
module StackDistance {
  import opened Common
  import opened LruSpec
  import opened LruRuns

  type Content = string -> Bytes

  function Weight(ks: seq<string>, content: Content): nat {
    if ks == [] then 0 else |content(ks[0])| + Weight(ks[1..], content)
  }

  function DropKey(ks: seq<string>, k: string): seq<string> {
    if ks == [] then []
    else if ks[0] == k then DropKey(ks[1..], k)
    else [ks[0]] + DropKey(ks[1..], k)
  }

  /** `p` is the longest prefix of `ks` whose bytes fit `room`. */
  ghost predicate LongestFit(p: seq<string>, ks: seq<string>, content: Content, room: int) {
    && p <= ks
    && (p == [] || Weight(p, content) <= room)
    && (|p| < |ks| ==> Weight(ks[..|p| + 1], content) > room)
  }

  ghost predicate Distinct(ks: seq<string>) {
    forall i, j :: 0 <= i < j < |ks| ==> ks[i] != ks[j]
  }

  /** The cache's items carry the fixed contents and no TTL. */
  ghost predicate Plain(items: seq<CacheItem>, content: Content) {
    forall it :: it in items ==> it.ttl == 0 && it.data == content(it.key)
  }

  // ---------- sequences of keys ----------

  lemma {:induction false} WeightAppend(a: seq<string>, b: seq<string>, content: Content)
    ensures Weight(a + b, content) == Weight(a, content) + Weight(b, content)
  {
    if a == [] {
      assert a + b == b;
    } else {
      assert (a + b)[1..] == a[1..] + b;
      WeightAppend(a[1..], b, content);
    }
  }

  lemma WeightPrefix(ks: seq<string>, m: nat, n: nat, content: Content)
    requires m <= n <= |ks|
    ensures Weight(ks[..m], content) <= Weight(ks[..n], content)
  {
    assert ks[..n] == ks[..m] + ks[m..n];
    WeightAppend(ks[..m], ks[m..n], content);
  }

  lemma {:induction false} DropKeyAppend(a: seq<string>, b: seq<string>, k: string)
    ensures DropKey(a + b, k) == DropKey(a, k) + DropKey(b, k)
  {
    if a == [] {
      assert a + b == b;
    } else {
      assert (a + b)[1..] == a[1..] + b;
      DropKeyAppend(a[1..], b, k);
    }
  }

  lemma {:induction false} DropKeyAbsent(ks: seq<string>, k: string)
    requires k !in ks
    ensures DropKey(ks, k) == ks
  {
    if ks != [] {
      DropKeyAbsent(ks[1..], k);
    }
  }

  lemma DistinctPush(k: string, rest: seq<string>)
    requires Distinct(rest) && k !in rest
    ensures Distinct([k] + rest)
  {
  }

  lemma {:induction false} DropKeyMembers(ks: seq<string>, k: string)
    ensures forall x :: x in DropKey(ks, k) <==> x in ks && x != k
    ensures Distinct(ks) ==> Distinct(DropKey(ks, k))
  {
    if ks != [] {
      DropKeyMembers(ks[1..], k);
      assert ks == [ks[0]] + ks[1..];
      if Distinct(ks) && ks[0] != k {
        assert Distinct(ks[1..]) && ks[0] !in ks[1..];
        DistinctPush(ks[0], DropKey(ks[1..], k));
      }
    }
  }

  lemma {:induction false} DropKeyWeight(ks: seq<string>, k: string, content: Content)
    requires Distinct(ks) && k in ks
    ensures Weight(DropKey(ks, k), content) == Weight(ks, content) - |content(k)|
  {
    if ks[0] == k {
      DropKeyAbsent(ks[1..], k);
    } else {
      DropKeyWeight(ks[1..], k, content);
    }
  }

  lemma DropKeyWeightIfAny(ks: seq<string>, k: string, content: Content)
    requires Distinct(ks)
    ensures Weight(DropKey(ks, k), content) == Weight(ks, content) - if k in ks then |content(k)| else 0
  {
  }

  lemma DropKeyPrefix(a: seq<string>, b: seq<string>, k: string)
    requires a <= b
    ensures DropKey(a, k) <= DropKey(b, k)
  {
    assert b == a + b[|a|..];
    DropKeyAppend(a, b[|a|..], k);
  }

  // ---------- items and their keys ----------

  lemma {:induction false} KeysOfWithout(items: seq<CacheItem>, key: string)
    ensures Keys(Without(items, key)) == DropKey(Keys(items), key)
  {
    if items != [] {
      assert Keys(items)[1..] == Keys(items[1..]);
      KeysOfWithout(items[1..], key);
    }
  }

  lemma {:induction false} WeightOfKeys(items: seq<CacheItem>, content: Content)
    requires Plain(items, content)
    ensures Weight(Keys(items), content) == TotalSize(items)
  {
    if items != [] {
      assert items[0] in items;
      assert Keys(items)[1..] == Keys(items[1..]);
      WeightOfKeys(items[1..], content);
    }
  }

  lemma FindIsMembership(items: seq<CacheItem>, key: string)
    ensures Find(items, key).Some? <==> key in Keys(items)
  {
  }

  lemma EvictedKeysFit(items: seq<CacheItem>, content: Content, room: int)
    requires Plain(items, content)
    ensures LongestFit(Keys(EvictTo(items, room)), Keys(items), content, room)
    ensures Plain(EvictTo(items, room), content)
  {
    var kept := EvictTo(items, room);
    EvictToIsLongestFittingPrefix(items, room);
    WeightOfKeys(kept, content);
    assert Keys(kept) == Keys(items)[..|kept|];
    if |kept| < |items| {
      var more := items[..|kept| + 1];
      WeightOfKeys(more, content);
      assert Keys(more) == Keys(items)[..|kept| + 1];
    }
  }

  /** Without TTLs a lookup is a membership test and a hit's content is the key's. */
  lemma PlainLookup(items: seq<CacheItem>, content: Content, key: string, now: Time)
    requires Plain(items, content)
    ensures Lookup(items, key, now) == if key in Keys(items) then Some(content(key)) else None
    ensures Plain(AfterGet(items, key, now), content)
    ensures Keys(AfterGet(items, key, now)) ==
            if key in Keys(items) then [key] + DropKey(Keys(items), key) else Keys(items)
  {
    FindIsMembership(items, key);
    KeysOfWithout(items, key);
    WithoutProperties(items, key);
    var found := Find(items, key);
    if found.Some? {
      var after := [found.value] + Without(items, key);
      assert Keys(after) == [key] + Keys(Without(items, key));
    }
  }

  lemma PlainPut(capacity: int, items: seq<CacheItem>, content: Content, item: CacheItem)
    requires Plain(items, content) && item.ttl == 0 && item.data == content(item.key)
    ensures Plain(AfterPut(capacity, items, item), content)
    ensures var others, room := Without(items, item.key), capacity - item.Size();
            && Keys(others) == DropKey(Keys(items), item.key)
            && LongestFit(Keys(EvictTo(others, room)), Keys(others), content, room)
            && Keys(AfterPut(capacity, items, item)) ==
               (if item.Size() > capacity then [] else [item.key]) + Keys(EvictTo(others, room))
  {
    hide LongestFit, EvictTo, DropKey, Without, TotalSize, Weight;
    var others, room := Without(items, item.key), capacity - item.Size();
    var kept := EvictTo(others, room);
    WithoutProperties(items, item.key);
    KeysOfWithout(items, item.key);
    EvictedKeysFit(others, content, room);
    PlainPush(item, kept, content);
    assert [] + Keys(kept) == Keys(kept);
  }

  lemma PlainPush(item: CacheItem, rest: seq<CacheItem>, content: Content)
    requires Plain(rest, content) && item.ttl == 0 && item.data == content(item.key)
    ensures Plain([item] + rest, content)
    ensures Keys([item] + rest) == [item.key] + Keys(rest)
  {
  }

  // ---------- the stack-distance theorem ----------

  /** The keys of a run of read-through accesses. */
  function ReadKeys(ops: seq<Op>): (ks: seq<string>)
    requires forall op :: op in ops ==> op.Read?
    ensures |ks| == |ops|
    ensures forall i :: 0 <= i < |ops| ==> ks[i] == ops[i].key
  {
    seq(|ops|, i requires 0 <= i < |ops| => ops[i].key)
  }

  /** All keys accessed so far, most recently accessed first. */
  function Recency(ks: seq<string>): seq<string> {
    if ks == [] then []
    else [ks[|ks| - 1]] + DropKey(Recency(ks[..|ks| - 1]), ks[|ks| - 1])
  }

  ghost predicate ReadsOf(ops: seq<Op>, content: Content) {
    forall op :: op in ops ==> op.Read? && op.ttl == 0 && op.data == content(op.key)
  }

  lemma {:induction false} RecencyMembers(ks: seq<string>)
    ensures Distinct(Recency(ks))
    ensures forall x :: x in Recency(ks) <==> x in ks
  {
    if ks != [] {
      var before, k := ks[..|ks| - 1], ks[|ks| - 1];
      RecencyMembers(before);
      DropKeyMembers(Recency(before), k);
      DistinctPush(k, DropKey(Recency(before), k));
      assert ks == before + [k];
    }
  }

  /** Only the weight of the fitting prefix matters to what comes after it. */
  lemma FitSwap(p: seq<string>, front: seq<string>, rest: seq<string>, content: Content, room: int)
    requires p != [] && LongestFit(p, p + rest, content, room)
    requires Weight(front, content) == Weight(p, content)
    ensures LongestFit(front, front + rest, content, room)
  {
    if rest != [] {
      assert (front + rest)[..|front| + 1] == front + [rest[0]];
      assert (p + rest)[..|p| + 1] == p + [rest[0]];
      WeightAppend(front, [rest[0]], content);
      WeightAppend(p, [rest[0]], content);
    }
  }

  lemma HitKeepsFit(p: seq<string>, order: seq<string>, k: string, content: Content, capacity: int)
    requires Distinct(order) && LongestFit(p, order, content, capacity) && k in p
    ensures LongestFit([k] + DropKey(p, k), [k] + DropKey(order, k), content, capacity)
  {
    hide LongestFit, Weight, DropKey;
    FitSplits(p, order, content, capacity);
    var rest, front := order[|p|..], [k] + DropKey(p, k);
    DistinctParts(p, rest, k);
    DropKeyAppend(p, rest, k);
    DropKeyAbsent(rest, k);
    DropKeyWeight(p, k, content);
    WeightAppend([k], DropKey(p, k), content);
    SingleWeight(k, content);
    assert [k] + DropKey(order, k) == front + rest;
    FitSwap(p, front, rest, content, capacity);
  }

  lemma FitSplits(p: seq<string>, order: seq<string>, content: Content, room: int)
    requires LongestFit(p, order, content, room)
    ensures |p| <= |order| && order == p + order[|p|..]
  {
  }

  lemma DistinctParts(p: seq<string>, rest: seq<string>, k: string)
    requires Distinct(p + rest) && k in p
    ensures Distinct(p) && k !in rest
  {
    var both := p + rest;
    assert forall i :: 0 <= i < |p| ==> both[i] == p[i];
    assert forall j :: 0 <= j < |rest| ==> both[|p| + j] == rest[j];
  }

  lemma SingleWeight(k: string, content: Content)
    ensures Weight([k], content) == |content(k)|
  {
  }

  lemma FitPush(kept: seq<string>, ks: seq<string>, k: string, content: Content, room: int)
    requires LongestFit(kept, ks, content, room - |content(k)|) && |content(k)| <= room
    ensures LongestFit([k] + kept, [k] + ks, content, room)
  {
    WeightAppend([k], kept, content);
    if |kept| < |ks| {
      assert ([k] + ks)[..|kept| + 2] == [k] + ks[..|kept| + 1];
      WeightAppend([k], ks[..|kept| + 1], content);
    }
  }

  /** What fits beside a missed key within the cached prefix is also what fits
      within the whole order: the key after it was too big already. */
  lemma MissFit(p: seq<string>, kept: seq<string>, order: seq<string>,
                k: string, content: Content, capacity: int)
    requires LongestFit(p, order, content, capacity) && k !in p
    requires LongestFit(kept, p, content, capacity - |content(k)|) && |content(k)| <= capacity
    ensures LongestFit(kept, DropKey(order, k), content, capacity - |content(k)|)
  {
    var tail := order[|p|..];
    var rest := DropKey(tail, k);
    assert order == p + tail;
    DropKeyAppend(p, tail, k);
    DropKeyAbsent(p, k);
    if |kept| < |p| {
      assert (p + rest)[..|kept| + 1] == p[..|kept| + 1];
    } else if rest != [] {
      assert kept == p && order[..|p| + 1] == p + [tail[0]];
      WeightAppend(p, [tail[0]], content);
      assert tail[0] != k;
      assert (p + rest)[..|p| + 1] == p + [tail[0]];
    }
  }

  lemma MissKeepsFit(p: seq<string>, kept: seq<string>, order: seq<string>,
                     k: string, content: Content, capacity: int)
    requires LongestFit(p, order, content, capacity) && k !in p
    requires LongestFit(kept, p, content, capacity - |content(k)|)
    ensures LongestFit((if |content(k)| > capacity then [] else [k]) + kept,
                       [k] + DropKey(order, k), content, capacity)
  {
    if |content(k)| > capacity {
      assert [] + kept == [];
      assert ([k] + DropKey(order, k))[..1] == [k];
    } else {
      MissFit(p, kept, order, k, content, capacity);
      FitPush(kept, DropKey(order, k), k, content, capacity);
    }
  }

  lemma ReadKeepsFit(capacity: int, items: seq<CacheItem>, order: seq<string>, content: Content, op: Op)
    requires Plain(items, content) && op.Read? && op.ttl == 0 && op.data == content(op.key)
    requires Distinct(order) && LongestFit(Keys(items), order, content, capacity)
    ensures Plain(Step(capacity, items, op), content)
    ensures LongestFit(Keys(Step(capacity, items, op)), [op.key] + DropKey(order, op.key), content, capacity)
  {
    hide Plain, LongestFit, Distinct, EvictTo, DropKey, Without, TotalSize, Weight, Lookup, AfterGet, AfterPut;
    var key := op.key;
    PlainLookup(items, content, key, op.now);
    if key in Keys(items) {
      HitKeepsFit(Keys(items), order, key, content, capacity);
    } else {
      var item := CacheItem(key, op.data, op.later, op.ttl);
      var others := Without(AfterGet(items, key, op.now), key);
      DropKeyAbsent(Keys(items), key);
      PlainPut(capacity, AfterGet(items, key, op.now), content, item);
      MissKeepsFit(Keys(items), Keys(EvictTo(others, capacity - item.Size())), order, key, content, capacity);
    }
  }

  /** For any run of read-through accesses, the cache list is exactly the longest
      prefix of the recency order of all keys accessed that fits the capacity. */
  lemma {:induction false} CacheIsFittingPrefixOfRecency(capacity: int, ops: seq<Op>, content: Content)
    requires ReadsOf(ops, content)
    ensures Plain(Run(capacity, ops), content)
    ensures LongestFit(Keys(Run(capacity, ops)), Recency(ReadKeys(ops)), content, capacity)
  {
    if ops != [] {
      hide Distinct, DropKey, Weight, Step;
      var before, op := ops[..|ops| - 1], ops[|ops| - 1];
      assert op in ops;
      CacheIsFittingPrefixOfRecency(capacity, before, content);
      assert ReadKeys(ops)[..|ops| - 1] == ReadKeys(before);
      RecencyMembers(ReadKeys(before));
      ReadKeepsFit(capacity, Run(capacity, before), Recency(ReadKeys(before)), content, op);
    }
  }

  // ---------- hits and stack distance ----------

  /** The accesses from the last one of `k` on. */
  function SinceLast(ks: seq<string>, k: string): (r: seq<string>)
    requires k in ks
    ensures r != []
  {
    if ks[|ks| - 1] == k then [k]
    else SinceLast(ks[..|ks| - 1], k) + [ks[|ks| - 1]]
  }

  /** The bytes of the distinct keys in `ks`. */
  function DistinctBytes(ks: seq<string>, content: Content): nat {
    if ks == [] then 0
    else
      var before, k := ks[..|ks| - 1], ks[|ks| - 1];
      DistinctBytes(before, content) + if k in before then 0 else |content(k)|
  }

  /** The keys up to and including `k`. */
  function Through(ks: seq<string>, k: string): (r: seq<string>)
    requires k in ks
    ensures r <= ks && r != [] && r[|r| - 1] == k
  {
    if ks[0] == k then [k] else [ks[0]] + Through(ks[1..], k)
  }

  lemma {:induction false} ThroughDrop(ks: seq<string>, k: string, x: string)
    requires k in ks && x != k
    ensures k in DropKey(ks, x)
    ensures Through(DropKey(ks, x), k) == DropKey(Through(ks, k), x)
  {
    DropKeyMembers(ks, x);
    if ks[0] == k {
      DropKeyAbsent([k], x);
    } else {
      ThroughDrop(ks[1..], k, x);
      assert ([ks[0]] + Through(ks[1..], k))[1..] == Through(ks[1..], k);
    }
  }

  /** One more access, of another key, on both sides. */
  lemma ThroughPush(order: seq<string>, since: seq<string>, k: string, x: string, content: Content)
    requires Distinct(order) && k in order && x != k
    requires forall y :: y in Through(order, k) <==> y in since
    requires Weight(Through(order, k), content) == DistinctBytes(since, content)
    ensures var next := [x] + DropKey(order, x);
            && k in next
            && (forall y :: y in Through(next, k) <==> y in since + [x])
            && Weight(Through(next, k), content) == DistinctBytes(since + [x], content)
  {
    var upto, next := Through(order, k), [x] + DropKey(order, x);
    ThroughDrop(order, k, x);
    DropKeyMembers(upto, x);
    assert next[1..] == DropKey(order, x);
    assert Through(next, k) == [x] + DropKey(upto, x);
    assert Distinct(upto);
    hide Through, DropKey, Distinct;
    WeightAppend([x], DropKey(upto, x), content);
    SingleWeight(x, content);
    DropKeyWeightIfAny(upto, x, content);
    assert (since + [x])[..|since|] == since;
  }

  /** The recency order through `k` lists the keys accessed since `k`, once each. */
  lemma {:induction false} StackDistance(ks: seq<string>, k: string, content: Content)
    requires k in ks
    ensures k in Recency(ks)
    ensures forall x :: x in Through(Recency(ks), k) <==> x in SinceLast(ks, k)
    ensures Weight(Through(Recency(ks), k), content) == DistinctBytes(SinceLast(ks, k), content)
  {
    hide Distinct, DropKey;
    var before, x := ks[..|ks| - 1], ks[|ks| - 1];
    RecencyMembers(ks);
    if x != k {
      assert ks == before + [x];
      RecencyMembers(before);
      StackDistance(before, k, content);
      ThroughPush(Recency(before), SinceLast(before, k), k, x, content);
    }
  }

  /** In a fitting prefix are exactly the keys whose prefix through them fits. */
  lemma FitMembers(p: seq<string>, order: seq<string>, k: string, content: Content, room: int)
    requires Distinct(order) && LongestFit(p, order, content, room) && k in order
    ensures k in p <==> Weight(Through(order, k), content) <= room
  {
    hide Weight;
    var upto := Through(order, k);
    assert order[..|upto|] == upto && order[..|p|] == p;
    if k in p {
      var i :| 0 <= i < |p| && p[i] == k;
      assert order[i] == order[|upto| - 1];
      WeightPrefix(order, |upto|, |p|, content);
    } else {
      assert forall i :: 0 <= i < |p| ==> order[i] == p[i];
      assert order[|upto| - 1] == k;
      WeightPrefix(order, |p| + 1, |upto|, content);
    }
  }

  /** A Get hits if and only if the distinct keys accessed since that key's last
      access, itself included, total at most the capacity. */
  lemma HitIffStackDistanceFits(capacity: int, ops: seq<Op>, content: Content, key: string, now: Time)
    requires ReadsOf(ops, content)
    ensures var ks := ReadKeys(ops);
            Lookup(Run(capacity, ops), key, now) ==
            if key in ks && DistinctBytes(SinceLast(ks, key), content) <= capacity
            then Some(content(key)) else None
  {
    var ks, items := ReadKeys(ops), Run(capacity, ops);
    CacheIsFittingPrefixOfRecency(capacity, ops, content);
    RecencyMembers(ks);
    PlainLookup(items, content, key, now);
    if key in ks {
      StackDistance(ks, key, content);
      FitMembers(Keys(items), Recency(ks), key, content, capacity);
    }
  }
}
