/** The cache as the program keeps it: a doubly linked recency list, a lookup
    table into it and a running byte count, all updated in place. */
module LruCaches {
  import opened Common
  import opened LruSpec

  class Element {
    const item: CacheItem
    var prev: Element?
    var next: Element?

    constructor (item: CacheItem)
      ensures this.item == item
    {
      this.item := item;
      prev, next := null, null;
    }
  }

  /** A doubly linked list; `elems` is its ghost contents, front to back. */
  class LinkedList {
    var front: Element?
    var back: Element?
    var len: nat
    ghost var elems: seq<Element>
    ghost var nodes: set<Element>

    ghost predicate Valid()
      reads this, nodes
    {
      && len == |elems|
      && nodes == (set e | e in elems)
      && (forall i, j :: 0 <= i < j < |elems| ==> elems[i] != elems[j])
      && (elems == [] ==> front == null && back == null)
      && (elems != [] ==>
            && front == elems[0] && elems[0].prev == null
            && back == elems[|elems| - 1] && elems[|elems| - 1].next == null)
      && (forall i, j :: 0 <= i && j == i + 1 && j < |elems| ==>
            elems[i].next == elems[j] && elems[j].prev == elems[i])
    }

    constructor ()
      ensures Valid() && elems == [] && nodes == {}
    {
      front, back, len := null, null, 0;
      elems, nodes := [], {};
    }

    method PushFront(e: Element)
      requires Valid() && e !in elems
      modifies this, nodes, e
      ensures Valid() && elems == [e] + old(elems) && nodes == old(nodes) + {e}
    {
      e.prev, e.next := null, front;
      if front == null {
        back := e;
      } else {
        front.prev := e;
      }
      front := e;
      len := len + 1;
      elems, nodes := [e] + elems, nodes + {e};
    }

    method Remove(e: Element, ghost at: nat)
      requires Valid() && at < |elems| && elems[at] == e
      modifies this, nodes
      ensures Valid() && elems == old(elems[..at] + elems[at + 1..]) && nodes == old(nodes) - {e}
    {
      assert e.prev == if at > 0 then elems[at - 1] else null;
      assert e.next == if at + 1 < |elems| then elems[at + 1] else null;
      if e.prev == null { front := e.next; } else { e.prev.next := e.next; }
      if e.next == null { back := e.prev; } else { e.next.prev := e.prev; }
      len := len - 1;
      elems, nodes := elems[..at] + elems[at + 1..], nodes - {e};
    }

    method MoveToFront(e: Element, ghost at: nat)
      requires Valid() && at < |elems| && elems[at] == e
      modifies this, nodes
      ensures Valid() && elems == old([e] + (elems[..at] + elems[at + 1..])) && nodes == old(nodes)
    {
      if front != e {
        Remove(e, at);
        PushFront(e);
        assert elems == old([e] + (elems[..at] + elems[at + 1..]));
      } else {
        assert at == 0;
      }
    }
  }

  /** The items of a chain of list elements. */
  ghost function ItemsOf(es: seq<Element>): (items: seq<CacheItem>)
    ensures |items| == |es|
    ensures forall i :: 0 <= i < |es| ==> items[i] == es[i].item
  {
    seq(|es|, i requires 0 <= i < |es| => es[i].item)
  }

  /** The lookup table and the list name each other's entries one to one. */
  ghost predicate Indexed(es: seq<Element>, lookup: map<string, Element>) {
    && UniqueKeys(ItemsOf(es))
    && (forall e :: e in es ==> e.item.key in lookup && lookup[e.item.key] == e)
    && (forall k :: k in lookup ==> lookup[k] in es && lookup[k].item.key == k)
  }

  lemma SpliceMembers(es: seq<Element>, at: nat)
    requires at < |es| && UniqueKeys(ItemsOf(es))
    ensures forall e :: e in es[..at] + es[at + 1..] <==> e in es && e != es[at]
    ensures forall e :: e in es && e != es[at] ==> e.item.key != es[at].item.key
  {
  }

  lemma RemovedItems(es: seq<Element>, at: nat)
    requires at < |es| && UniqueKeys(ItemsOf(es))
    ensures ItemsOf(es[..at] + es[at + 1..]) == Without(ItemsOf(es), es[at].item.key)
    ensures TotalSize(ItemsOf(es[..at] + es[at + 1..])) == TotalSize(ItemsOf(es)) - es[at].item.Size()
    ensures UniqueKeys(ItemsOf(es[..at] + es[at + 1..]))
  {
    var items := ItemsOf(es);
    hide TotalSize, UniqueKeys, Without;
    WithoutIsSplice(items, at);
    WithoutProperties(items, es[at].item.key);
    assert ItemsOf(es[..at] + es[at + 1..]) == items[..at] + items[at + 1..];
  }

  lemma IndexedRemove(es: seq<Element>, lookup: map<string, Element>, at: nat)
    requires Indexed(es, lookup) && at < |es|
    ensures Indexed(es[..at] + es[at + 1..], lookup - {es[at].item.key})
    ensures ItemsOf(es[..at] + es[at + 1..]) == Without(ItemsOf(es), es[at].item.key)
    ensures TotalSize(ItemsOf(es[..at] + es[at + 1..])) == TotalSize(ItemsOf(es)) - es[at].item.Size()
  {
    hide TotalSize, UniqueKeys, ItemsOf, Without;
    SpliceMembers(es, at);
    RemovedItems(es, at);
    assert es[at] in es;
  }

  lemma IndexedPush(es: seq<Element>, lookup: map<string, Element>, e: Element)
    requires Indexed(es, lookup) && e.item.key !in lookup
    ensures Indexed([e] + es, lookup[e.item.key := e])
    ensures ItemsOf([e] + es) == [e.item] + ItemsOf(es)
    ensures TotalSize(ItemsOf([e] + es)) == TotalSize(ItemsOf(es)) + e.item.Size()
  {
  }

  lemma IndexedAt(es: seq<Element>, lookup: map<string, Element>, at: nat)
    requires Indexed(es, lookup) && at < |es|
    ensures es[at].item.key in lookup && lookup[es[at].item.key] == es[at]
  {
  }

  lemma IndexedTouch(es: seq<Element>, lookup: map<string, Element>, at: nat)
    requires Indexed(es, lookup) && at < |es|
    ensures var touched := [es[at]] + (es[..at] + es[at + 1..]);
            && Indexed(touched, lookup)
            && ItemsOf(touched) == [es[at].item] + Without(ItemsOf(es), es[at].item.key)
            && TotalSize(ItemsOf(touched)) == TotalSize(ItemsOf(es))
  {
    hide TotalSize, UniqueKeys, ItemsOf, Without, Indexed;
    var e, rest := es[at], es[..at] + es[at + 1..];
    IndexedRemove(es, lookup, at);
    IndexedPush(rest, lookup - {e.item.key}, e);
    IndexedAt(es, lookup, at);
    assert lookup == (lookup - {e.item.key})[e.item.key := e];
  }

  lemma IndexedFind(es: seq<Element>, lookup: map<string, Element>, key: string)
    requires Indexed(es, lookup)
    ensures Find(ItemsOf(es), key) == if key in lookup then Some(lookup[key].item) else None
    ensures key !in lookup ==> Without(ItemsOf(es), key) == ItemsOf(es)
    ensures key in lookup ==> lookup[key] in es && lookup[key].item.key == key
  {
    if key in lookup {
      var i :| 0 <= i < |es| && es[i] == lookup[key];
      WithoutIsSplice(ItemsOf(es), i);
    } else {
      forall it | it in ItemsOf(es) ensures it.key != key {
        var i :| 0 <= i < |es| && ItemsOf(es)[i] == it;
        assert es[i] in es;
      }
      WithoutAbsent(ItemsOf(es), key);
    }
  }

  class LRUCache {
    const capacity: int
    var currentSize: int
    var items: LinkedList
    var lookup: map<string, Element>
    var hits: nat
    var misses: nat

    /** The cache's value: its items, most recently used first. */
    ghost function Contents(): seq<CacheItem>
      reads this, items
    {
      ItemsOf(items.elems)
    }

    /** The representation, less the size bound (which Put breaks for a while). */
    ghost predicate Linked()
      reads this, items, items.nodes
    {
      && items.Valid()
      && currentSize == TotalSize(Contents())
      && Indexed(items.elems, lookup)
    }

    ghost predicate Valid()
      reads this, items, items.nodes
    {
      Linked() && WellFormed(capacity, Contents())
    }

    constructor (capacityBytes: int)
      ensures Valid() && Contents() == [] && capacity == capacityBytes && hits == misses == 0
      ensures fresh(items)
    {
      capacity, currentSize := capacityBytes, 0;
      items := new LinkedList();
      lookup, hits, misses := map[], 0, 0;
    }

    /** The position of a listed element; ghost, for the proofs. */
    ghost function Position(e: Element): (i: nat)
      reads this, items
      requires e in items.elems
      ensures i < |items.elems| && items.elems[i] == e
    {
      var i :| 0 <= i < |items.elems| && items.elems[i] == e; i
    }

    method RemoveElement(e: Element)
      requires Linked() && e in items.elems
      modifies this`currentSize, this`lookup, items, items.nodes
      ensures Linked() && items == old(items)
      ensures Contents() == old(Without(Contents(), e.item.key))
      ensures |Contents()| == old(|Contents()|) - 1
      ensures lookup == old(lookup) - {e.item.key}
      ensures items.nodes == old(items.nodes) - {e}
    {
      hide LinkedList.Valid, Indexed, TotalSize;
      ghost var at := Position(e);
      IndexedRemove(items.elems, lookup, at);
      items.Remove(e, at);
      lookup := lookup - {e.item.key};
      currentSize := currentSize - e.item.Size();
    }

    method EvictOldest()
      requires Linked() && items.len > 0
      modifies this`currentSize, this`lookup, items, items.nodes
      ensures Linked() && items == old(items)
      ensures Contents() == old(Contents()[..|Contents()| - 1])
      ensures lookup.Keys <= old(lookup.Keys)
      ensures items.nodes <= old(items.nodes)
    {
      hide Indexed, TotalSize, UniqueKeys;
      ghost var was := Contents();
      IndexedRemove(items.elems, lookup, |was| - 1);
      assert items.back == items.elems[|was| - 1];
      RemoveElement(items.back);
      assert was[..|was| - 1] + was[|was|..] == was[..|was| - 1];
    }

    /** Get's last step: a hit moves its element to the front. */
    method Touch(e: Element)
      requires Linked() && e in items.elems
      modifies items, items.nodes
      ensures Linked() && items == old(items)
      ensures Contents() == old([e.item] + Without(Contents(), e.item.key))
      ensures items.nodes == old(items.nodes)
    {
      hide LinkedList.Valid, Indexed, TotalSize;
      ghost var at := Position(e);
      IndexedTouch(items.elems, lookup, at);
      items.MoveToFront(e, at);
    }

    method Get(key: string, now: Time) returns (data: Option<Bytes>)
      requires Valid()
      modifies this`hits, this`misses, this`currentSize, this`lookup, items, items.nodes
      ensures Valid() && items == old(items)
      ensures data == old(Lookup(Contents(), key, now))
      ensures Contents() == old(AfterGet(Contents(), key, now))
      ensures hits == old(hits) + if data.Some? then 1 else 0
      ensures misses == old(misses) + if data.None? then 1 else 0
      ensures items.nodes <= old(items.nodes)
      ensures Answered(old(Contents()), key, now, data) && Fetched(old(Contents()), Contents(), key, now)
    {
      hide LinkedList.Valid, Indexed, TotalSize, Answered, Fetched;
      LookupAnswers(Contents(), key, now);
      GetFetches(Contents(), key, now);
      GetKeepsWellFormed(capacity, Contents(), key, now);
      IndexedFind(items.elems, lookup, key);
      data := None;
      if key in lookup {
        var e := lookup[key];
        if e.item.Expired(now) {
          RemoveElement(e);
        } else {
          Touch(e);
          data := Some(e.item.data);
        }
      }
      if data.Some? { hits := hits + 1; } else { misses := misses + 1; }
    }

    /** Put's first step: an existing entry under the key is taken out. */
    method DropExisting(key: string)
      requires Linked()
      modifies this`currentSize, this`lookup, items, items.nodes
      ensures Linked() && items == old(items) && key !in lookup
      ensures Contents() == old(Without(Contents(), key))
      ensures items.nodes <= old(items.nodes)
    {
      IndexedFind(items.elems, lookup, key);
      if key in lookup {
        RemoveElement(lookup[key]);
      }
    }

    /** Put's second step: items leave from the back until `size` bytes fit. */
    method MakeRoom(size: nat, ghost key: string)
      requires Linked() && key !in lookup
      modifies this`currentSize, this`lookup, items, items.nodes
      ensures Linked() && items == old(items) && key !in lookup
      ensures Contents() == old(EvictTo(Contents(), capacity - size))
      ensures items.nodes <= old(items.nodes)
    {
      while currentSize + size > capacity && items.len > 0
        invariant Linked() && items == old(items) && key !in lookup
        invariant items.nodes <= old(items.nodes)
        invariant EvictTo(Contents(), capacity - size) == old(EvictTo(Contents(), capacity - size))
        decreases items.len
      {
        EvictOldest();
      }
    }

    /** Put's last step: the new item goes to the front. */
    method Insert(item: CacheItem)
      requires Linked() && item.key !in lookup
      modifies this`currentSize, this`lookup, items, items.nodes
      ensures Linked() && items == old(items)
      ensures Contents() == old([item] + Contents())
      ensures fresh(items.nodes - old(items.nodes))
    {
      hide LinkedList.Valid, Indexed, TotalSize;
      var e := new Element(item);
      IndexedPush(items.elems, lookup, e);
      items.PushFront(e);
      lookup := lookup[item.key := e];
      currentSize := currentSize + item.Size();
    }

    method PutWithTTL(key: string, data: Bytes, ttl: int, now: Time)
      requires Valid()
      modifies this`currentSize, this`lookup, items, items.nodes
      ensures Valid() && items == old(items)
      ensures Contents() == old(AfterPut(capacity, Contents(), CacheItem(key, data, now, ttl)))
      ensures fresh(items.nodes - old(items.nodes))
    {
      hide LRUCache.Linked;
      var size := |data|;
      PutKeepsWellFormed(capacity, Contents(), CacheItem(key, data, now, ttl));
      DropExisting(key);
      MakeRoom(size, key);
      if size > capacity {
        return;
      }
      Insert(CacheItem(key, data, now, ttl));
    }

    method Put(key: string, data: Bytes, now: Time)
      requires Valid()
      modifies this`currentSize, this`lookup, items, items.nodes
      ensures Valid() && items == old(items)
      ensures Contents() == old(AfterPut(capacity, Contents(), CacheItem(key, data, now, 0)))
      ensures fresh(items.nodes - old(items.nodes))
    {
      PutWithTTL(key, data, 0, now);
    }

    method Delete(key: string) returns (found: bool)
      requires Valid()
      modifies this`currentSize, this`lookup, items, items.nodes
      ensures Valid() && items == old(items)
      ensures found == old(Find(Contents(), key).Some?)
      ensures Contents() == old(Without(Contents(), key))
      ensures items.nodes <= old(items.nodes)
    {
      hide LinkedList.Valid, Indexed, TotalSize;
      WithoutProperties(Contents(), key);
      IndexedFind(items.elems, lookup, key);
      if key !in lookup {
        return false;
      }
      RemoveElement(lookup[key]);
      return true;
    }

    /** The first loop of CleanupExpired: walk from the back, note the expired. */
    method CollectExpired(now: Time) returns (toRemove: seq<Element>)
      requires Linked()
      ensures forall x :: x in toRemove <==> x in items.nodes && x.item.Expired(now)
      ensures forall i, j :: 0 <= i < j < |toRemove| ==> toRemove[i] != toRemove[j]
    {
      hide Indexed, UniqueKeys, TotalSize, ItemsOf;
      toRemove := [];
      var e := items.back;
      ghost var i := |items.elems|;
      while e != null
        invariant 0 <= i <= |items.elems|
        invariant e == if i == 0 then null else items.elems[i - 1]
        invariant forall x :: x in toRemove <==> x in items.elems[i..] && x.item.Expired(now)
        invariant forall i, j :: 0 <= i < j < |toRemove| ==> toRemove[i] != toRemove[j]
        decreases i
      {
        assert items.elems[i - 1..] == [e] + items.elems[i..];
        if e.item.Expired(now) {
          assert e !in items.elems[i..];
          toRemove := toRemove + [e];
        }
        e, i := e.prev, i - 1;
      }
      assert items.elems[0..] == items.elems;
    }

    /** One turn of the second loop: removing an expired element hides nothing live. */
    method RemoveExpired(e: Element, ghost now: Time)
      requires Linked() && e in items.nodes && e.item.Expired(now)
      modifies this`currentSize, this`lookup, items, items.nodes
      ensures Linked() && items == old(items)
      ensures items.nodes == old(items.nodes) - {e}
      ensures Live(Contents(), now) == old(Live(Contents(), now))
      ensures |Contents()| == old(|Contents()|) - 1
    {
      LiveIgnoresExpired(Contents(), Position(e), now);
      RemoveElement(e);
    }

    method CleanupExpired(now: Time) returns (removed: nat)
      requires Valid()
      modifies this`currentSize, this`lookup, items, items.nodes
      ensures Valid() && items == old(items)
      ensures Contents() == old(Live(Contents(), now))
      ensures removed == |old(Contents())| - |Contents()|
      ensures items.nodes <= old(items.nodes)
      ensures OnlyUnexpired(old(Contents()), Contents(), now)
    {
      hide LRUCache.Linked, Live, UniqueKeys, TotalSize, OnlyUnexpired;
      LiveIsUnexpired(Contents(), now);
      LiveProperties(Contents(), now);
      var toRemove := CollectExpired(now);
      for n := 0 to |toRemove|
        invariant Linked() && items == old(items)
        invariant items.nodes <= old(items.nodes)
        invariant forall x :: x in toRemove[n..] <==> x in items.nodes && x.item.Expired(now)
        invariant Live(Contents(), now) == old(Live(Contents(), now))
        invariant |Contents()| == old(|Contents()|) - n
      {
        assert toRemove[n..] == [toRemove[n]] + toRemove[n + 1..];
        RemoveExpired(toRemove[n], now);
      }
      NothingExpired(now);
      removed := |toRemove|;
    }

    lemma NothingExpired(now: Time)
      requires Linked() && forall x :: x in items.nodes ==> !x.item.Expired(now)
      ensures Live(Contents(), now) == Contents()
    {
      forall it | it in Contents() ensures !it.Expired(now) {
        var i :| 0 <= i < |items.elems| && items.elems[i].item == it;
        assert items.elems[i] in items.nodes;
      }
      LiveOfLive(Contents(), now);
    }

    method Clear()
      requires Valid()
      modifies this`currentSize, this`lookup, this`items
      ensures Valid() && Contents() == [] && fresh(items)
    {
      items := new LinkedList();
      lookup := map[];
      currentSize := 0;
    }
  }
}
