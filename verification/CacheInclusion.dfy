/** Caches of different capacities fed the same run. */
module CacheInclusion {
  import opened Common
  import opened LruSpec
  import opened LruRuns
  import opened StackDistance

  /** A run of any operations, with one content per key and no TTL. */
  ghost predicate PlainRun(ops: seq<Op>, content: Content) {
    forall op :: op in ops ==> PlainOp(op, content)
  }

  ghost predicate PlainOp(op: Op, content: Content) {
    match op
    case Put(key, data, ttl, _) => ttl == 0 && data == content(key)
    case Read(key, data, ttl, _, _) => ttl == 0 && data == content(key)
    case _ => true
  }

  /** A bare Get tears the lists apart when it moves to the front of the big cache
      a key that the small one, with something else in front, does not hold. */
  predicate Tears(s: seq<CacheItem>, b: seq<CacheItem>, op: Op) {
    op.Get? && op.key !in Keys(s) && op.key in Keys(b) && s != []
  }

  /** No bare Get of the run tears the two caches' lists apart. */
  predicate NeverTears(small: int, big: int, ops: seq<Op>)
    decreases |ops|
  {
    ops == [] || (
      var before := ops[..|ops| - 1];
      NeverTears(small, big, before) && !Tears(Run(small, before), Run(big, before), ops[|ops| - 1]))
  }

  /** The smaller cache's list is a prefix of the larger one's all along the run. */
  predicate AlwaysNested(small: int, big: int, ops: seq<Op>)
    decreases |ops|
  {
    Keys(Run(small, ops)) <= Keys(Run(big, ops)) && (ops == [] || AlwaysNested(small, big, ops[..|ops| - 1]))
  }

  lemma FitsNest(a: seq<string>, b: seq<string>, p: seq<string>, q: seq<string>,
                 content: Content, small: int, big: int)
    requires a <= b && small <= big
    requires LongestFit(p, a, content, small) && LongestFit(q, b, content, big)
    ensures p <= q
  {
    if |q| < |p| {
      assert b[..|p|] == p;
      WeightPrefix(b, |q| + 1, |p|, content);
    }
  }

  lemma PutNests(small: int, big: int, s: seq<CacheItem>, b: seq<CacheItem>,
                 content: Content, i: CacheItem, j: CacheItem)
    requires small <= big && Keys(s) <= Keys(b) && Plain(s, content) && Plain(b, content)
    requires i.key == j.key && i.data == j.data == content(i.key) && i.ttl == j.ttl == 0
    ensures Keys(AfterPut(small, s, i)) <= Keys(AfterPut(big, b, j))
  {
    PlainPut(small, s, content, i);
    PlainPut(big, b, content, j);
    DropKeyPrefix(Keys(s), Keys(b), i.key);
    var keptS := EvictTo(Without(s, i.key), small - i.Size());
    var keptB := EvictTo(Without(b, j.key), big - j.Size());
    FitsNest(Keys(Without(s, i.key)), Keys(Without(b, j.key)), Keys(keptS), Keys(keptB),
             content, small - i.Size(), big - j.Size());
    if i.Size() > small {
      assert Keys(keptS) == [];
    }
  }

  /** A miss in the small cache that is a hit in the big one. */
  lemma ReadNests(small: int, s: seq<CacheItem>, b: seq<CacheItem>, content: Content, item: CacheItem)
    requires Keys(s) <= Keys(b) && Plain(s, content)
    requires item.data == content(item.key) && item.ttl == 0 && item.key !in Keys(s)
    ensures Keys(AfterPut(small, s, item)) <= [item.key] + DropKey(Keys(b), item.key)
  {
    PlainPut(small, s, content, item);
    DropKeyPrefix(Keys(s), Keys(b), item.key);
    if item.Size() > small {
      assert Keys(EvictTo(Without(s, item.key), small - item.Size())) == [];
    }
  }

  lemma {:induction false} LiveOfPlain(items: seq<CacheItem>, content: Content, now: Time)
    requires Plain(items, content)
    ensures Live(items, now) == items
  {
    if items != [] {
      assert items[0] in items;
      LiveOfPlain(items[1..], content, now);
    }
  }

  lemma ReadStepNests(small: int, big: int, s: seq<CacheItem>, b: seq<CacheItem>, content: Content, op: Op)
    requires small <= big && Keys(s) <= Keys(b) && Plain(s, content) && Plain(b, content)
    requires PlainOp(op, content) && op.Read?
    ensures Keys(Step(small, s, op)) <= Keys(Step(big, b, op))
    ensures Plain(Step(small, s, op), content) && Plain(Step(big, b, op), content)
  {
    hide LongestFit, EvictTo, DropKey, Without, TotalSize, Weight;
    var key := op.key;
    var item := CacheItem(key, op.data, op.later, op.ttl);
    PlainLookup(s, content, key, op.now);
    PlainLookup(b, content, key, op.now);
    DropKeyPrefix(Keys(s), Keys(b), key);
    if key in Keys(s) {
    } else if key in Keys(b) {
      PlainPut(small, AfterGet(s, key, op.now), content, item);
      ReadNests(small, AfterGet(s, key, op.now), b, content, item);
    } else {
      PlainPut(small, AfterGet(s, key, op.now), content, item);
      PlainPut(big, AfterGet(b, key, op.now), content, item);
      PutNests(small, big, AfterGet(s, key, op.now), AfterGet(b, key, op.now), content, item, item);
    }
  }

  /** A bare Get keeps the nesting if and only if it does not tear the lists apart. */
  lemma GetNestsIff(s: seq<CacheItem>, b: seq<CacheItem>, content: Content, key: string, now: Time)
    requires Keys(s) <= Keys(b) && Plain(s, content) && Plain(b, content)
    ensures Keys(AfterGet(s, key, now)) <= Keys(AfterGet(b, key, now)) <==>
            key in Keys(s) || key !in Keys(b) || s == []
  {
    PlainLookup(s, content, key, now);
    PlainLookup(b, content, key, now);
    DropKeyPrefix(Keys(s), Keys(b), key);
    if key !in Keys(s) && key in Keys(b) && s != [] {
      assert Keys(s)[0] != key;
    }
  }

  lemma PutStepNests(small: int, big: int, s: seq<CacheItem>, b: seq<CacheItem>, content: Content, op: Op)
    requires small <= big && Keys(s) <= Keys(b) && Plain(s, content) && Plain(b, content)
    requires PlainOp(op, content) && op.Put?
    ensures Keys(Step(small, s, op)) <= Keys(Step(big, b, op))
    ensures Plain(Step(small, s, op), content) && Plain(Step(big, b, op), content)
  {
    hide Plain, LongestFit, EvictTo, DropKey, Without, TotalSize, Weight, AfterPut;
    var item := CacheItem(op.key, op.data, op.now, op.ttl);
    PutNests(small, big, s, b, content, item, item);
    PlainPut(small, s, content, item);
    PlainPut(big, b, content, item);
  }

  lemma DeleteNests(s: seq<CacheItem>, b: seq<CacheItem>, content: Content, key: string)
    requires Keys(s) <= Keys(b) && Plain(s, content) && Plain(b, content)
    ensures Keys(Without(s, key)) <= Keys(Without(b, key))
    ensures Plain(Without(s, key), content) && Plain(Without(b, key), content)
  {
    KeysOfWithout(s, key);
    KeysOfWithout(b, key);
    DropKeyPrefix(Keys(s), Keys(b), key);
    WithoutProperties(s, key);
    WithoutProperties(b, key);
  }

  lemma StepNestsIff(small: int, big: int, s: seq<CacheItem>, b: seq<CacheItem>, content: Content, op: Op)
    requires small <= big && Keys(s) <= Keys(b) && Plain(s, content) && Plain(b, content)
    requires PlainOp(op, content)
    ensures Keys(Step(small, s, op)) <= Keys(Step(big, b, op)) <==> !Tears(s, b, op)
    ensures Plain(Step(small, s, op), content) && Plain(Step(big, b, op), content)
  {
    assert Plain([], content);
    hide Plain, PlainOp, Without, Live, AfterGet, AfterPut, Lookup;
    match op
    case Put(_, _, _, _) =>
      PutStepNests(small, big, s, b, content, op);
    case Get(key, now) =>
      GetNestsIff(s, b, content, key, now);
      PlainLookup(s, content, key, now);
      PlainLookup(b, content, key, now);
    case Delete(key) =>
      DeleteNests(s, b, content, key);
    case Cleanup(now) =>
      LiveOfPlain(s, content, now);
      LiveOfPlain(b, content, now);
    case Clear =>
    case Read(_, _, _, _, _) =>
      ReadStepNests(small, big, s, b, content, op);
  }

  /** All along a run the smaller cache's list is a prefix of the larger one's if
      and only if no bare Get tears them apart; Puts, Deletes, cleanups and
      read-through accesses never do. */
  lemma {:induction false} InclusionIff(small: int, big: int, ops: seq<Op>, content: Content)
    requires small <= big && PlainRun(ops, content)
    ensures AlwaysNested(small, big, ops) <==> NeverTears(small, big, ops)
    ensures Plain(Run(small, ops), content) && Plain(Run(big, ops), content)
    decreases |ops|
  {
    if ops != [] {
      var before, op := ops[..|ops| - 1], ops[|ops| - 1];
      assert op in ops;
      InclusionIff(small, big, before, content);
      PlainSteps(small, Run(small, before), content, op);
      PlainSteps(big, Run(big, before), content, op);
      if Keys(Run(small, before)) <= Keys(Run(big, before)) {
        StepNestsIff(small, big, Run(small, before), Run(big, before), content, op);
      }
    }
  }

  lemma PlainSteps(capacity: int, items: seq<CacheItem>, content: Content, op: Op)
    requires Plain(items, content) && PlainOp(op, content)
    ensures Plain(Step(capacity, items, op), content)
  {
    StepNestsIff(capacity, capacity, items, items, content, op);
  }

  /** Whatever the smaller cache serves after such a run, the larger one serves. */
  lemma LargerCacheServesMore(small: int, big: int, ops: seq<Op>, content: Content, key: string, now: Time)
    requires small <= big && PlainRun(ops, content) && NeverTears(small, big, ops)
    requires Lookup(Run(small, ops), key, now).Some?
    ensures Lookup(Run(big, ops), key, now) == Lookup(Run(small, ops), key, now)
  {
    InclusionIff(small, big, ops, content);
    PlainLookup(Run(small, ops), content, key, now);
    PlainLookup(Run(big, ops), content, key, now);
  }

  /** Runs without bare Gets never tear. */
  lemma {:induction false} ReadThroughRunsNest(small: int, big: int, ops: seq<Op>, content: Content)
    requires small <= big && PlainRun(ops, content) && forall op :: op in ops ==> !op.Get?
    ensures AlwaysNested(small, big, ops)
    decreases |ops|
  {
    if ops != [] {
      assert ops[|ops| - 1] in ops;
      ReadThroughRunsNest(small, big, ops[..|ops| - 1], content);
      InclusionIff(small, big, ops[..|ops| - 1], content);
    }
    InclusionIff(small, big, ops, content);
  }

  /** A run that does tear: after Put a, Put b, Get a the one-byte cache lists b
      and the two-byte one a, b. */
  lemma BareGetBreaksInclusion()
    ensures var ops := [Op.Put("a", [1], 0, 0), Op.Put("b", [1], 0, 0), Op.Get("a", 0)];
            Keys(Run(1, ops)) == ["b"] && Keys(Run(2, ops)) == ["a", "b"]
  {
    var a, b := CacheItem("a", [1], 0, 0), CacheItem("b", [1], 0, 0);
    var ops := [Op.Put("a", [1], 0, 0), Op.Put("b", [1], 0, 0), Op.Get("a", 0)];
    assert ops[..2] == [Op.Put("a", [1], 0, 0), Op.Put("b", [1], 0, 0)];
    assert ops[..2][..1] == [Op.Put("a", [1], 0, 0)];
    assert Run(1, ops[..2][..1]) == [a] && Run(2, ops[..2][..1]) == [a];
    assert [a][1..] == [] && [a][..0] == [] && a.Size() == 1;
    var none: seq<CacheItem> := [];
    assert TotalSize(none) == 0;
    assert Without([a], "b") == [a] && TotalSize([a]) == 1;
    assert EvictTo([a], 0) == [] && EvictTo([a], 1) == [a];
    assert AfterPut(1, [a], b) == [b] && AfterPut(2, [a], b) == [b, a];
    assert Find([b, a], "a") == Find([a], "a") == Some(a);
    assert Without([b, a], "a") == [b] + Without([a], "a");
    assert AfterGet([b, a], "a", 0) == [a, b];
  }
}
