/** The queue object: slices over shared arrays, and the files that mirror them. */
module MessageQueues {
  import opened Common
  import opened QueueSpec

  datatype Slice = Slice(arr: array<Message>, len: nat)

  /** The file format: any codec that reads back what it wrote. */
  datatype Codec = Codec(encode: seq<Message> -> Bytes, decode: Bytes -> Option<seq<Message>>) {
    ghost predicate RoundTrips() { forall ms :: decode(encode(ms)) == Some(ms) }
  }

  ghost function Arrays(pending: map<string, Slice>): set<array<Message>> {
    set p | p in pending :: pending[p].arr
  }

  ghost predicate Separate(pending: map<string, Slice>) {
    && (forall p :: p in pending ==> pending[p].len <= pending[p].arr.Length)
    && (forall p, q :: p in pending && q in pending && p != q ==> pending[p].arr != pending[q].arr)
  }

  ghost function Contents(pending: map<string, Slice>): map<string, seq<Message>>
    requires Separate(pending)
    reads Arrays(pending)
  {
    map p | p in pending :: pending[p].arr[..pending[p].len]
  }

  lemma Unbind(pending: map<string, Slice>, peer: string)
    requires Separate(pending)
    ensures Separate(pending - {peer}) && Contents(pending - {peer}) == Contents(pending) - {peer}
    ensures Arrays(pending - {peer}) <= Arrays(pending)
    ensures peer in pending ==>
              && pending[peer].len <= pending[peer].arr.Length
              && Arrays(pending) == Arrays(pending - {peer}) + {pending[peer].arr}
              && pending[peer].arr !in Arrays(pending - {peer})
              && peer in Contents(pending)
              && Contents(pending)[peer] == pending[peer].arr[..pending[peer].len]
    ensures peer !in pending ==> pending - {peer} == pending && peer !in Contents(pending)
  {
    var rest := pending - {peer};
    if peer in pending {
      forall a | a in Arrays(pending) && a != pending[peer].arr ensures a in Arrays(rest) {
        var p :| p in pending && pending[p].arr == a;
        assert rest[p].arr == a;
      }
    }
  }

  lemma Rebind(rest: map<string, Slice>, peer: string, s: Slice)
    requires Separate(rest) && peer !in rest && s.len <= s.arr.Length && s.arr !in Arrays(rest)
    ensures Separate(rest[peer := s])
    ensures Contents(rest[peer := s]) == Contents(rest)[peer := s.arr[..s.len]]
    ensures Arrays(rest[peer := s]) == Arrays(rest) + {s.arr}
  {
    var bound := rest[peer := s];
    assert Separate(bound) by {
      forall p | p in rest ensures rest[p].arr in Arrays(rest) {}
    }
    assert Contents(bound) == Contents(rest)[peer := s.arr[..s.len]];
    forall a | a in Arrays(rest) + {s.arr} ensures a in Arrays(bound) {
      if a == s.arr {
        assert bound[peer].arr == a;
      } else {
        var p :| p in rest && rest[p].arr == a;
        assert bound[p].arr == a;
      }
    }
  }

  lemma SetAgain<V>(m: map<string, V>, k: string, v: V)
    ensures (m - {k})[k := v] == m[k := v]
  {
  }

  lemma SetOver<V>(m: map<string, V>, k: string, v: V, w: V)
    ensures m[k := v][k := w] == m[k := w]
  {
  }

  /** The peer's messages; none if the table does not know the peer. */
  function Of(lists: map<string, seq<Message>>, peer: string): seq<Message> {
    if peer in lists then lists[peer] else []
  }

  /** A peer's file exists iff it has pending messages, and then holds them. */
  ghost predicate Mirrors(codec: Codec, files: map<string, Bytes>, lists: map<string, seq<Message>>) {
    && (forall p :: p in files <==> Of(lists, p) != [])
    && (forall p :: p in files ==> files[p] == codec.encode(Of(lists, p)))
  }

  /** The files mirror every list but perhaps this peer's. */
  ghost predicate MirrorsOthers(codec: Codec, files: map<string, Bytes>, lists: map<string, seq<Message>>,
                                peer: string)
  {
    && (forall p :: p != peer ==> (p in files <==> Of(lists, p) != []))
    && (forall p :: p in files && p != peer ==> files[p] == codec.encode(Of(lists, p)))
  }

  /** The files once this peer's has been written, or removed for want of messages. */
  function Saved(codec: Codec, files: map<string, Bytes>, peer: string, ms: seq<Message>): map<string, Bytes> {
    if ms == [] then files - {peer} else files[peer := codec.encode(ms)]
  }

  lemma SavedMirrors(codec: Codec, files: map<string, Bytes>, lists: map<string, seq<Message>>, peer: string)
    requires MirrorsOthers(codec, files, lists, peer)
    ensures Mirrors(codec, Saved(codec, files, peer, Of(lists, peer)), lists)
  {
  }

  lemma UpdateKeepsOthers(codec: Codec, files: map<string, Bytes>, lists: map<string, seq<Message>>,
                          peer: string, ms: seq<Message>)
    requires Mirrors(codec, files, lists)
    ensures MirrorsOthers(codec, files, lists[peer := ms], peer)
  {
  }

  lemma RemovalKeeps(codec: Codec, files: map<string, Bytes>, lists: map<string, seq<Message>>, peer: string)
    requires Mirrors(codec, files, lists)
    ensures Mirrors(codec, files - {peer}, lists - {peer})
  {
  }

  /** What Cleanup leaves: the kept messages of every peer that has some. */
  function Cleaned(lists: map<string, seq<Message>>, now: Time): map<string, seq<Message>> {
    map p | p in lists && Kept(lists[p], now) != [] :: Kept(lists[p], now)
  }

  /** One peer's share of Cleanup. */
  function CleanedPeer(lists: map<string, seq<Message>>, peer: string, now: Time): map<string, seq<Message>> {
    var kept := Kept(Of(lists, peer), now);
    if kept == [] then lists - {peer} else lists[peer := kept]
  }

  /** Exactly those messages stay that have time and attempts left. */
  ghost predicate Purged(was: seq<Message>, ms: seq<Message>, now: Time) {
    forall m :: m in ms <==> m in was && now < m.expiresAt && m.attempts < 10
  }

  ghost predicate AllPurged(was: map<string, seq<Message>>, lists: map<string, seq<Message>>, now: Time) {
    forall p :: Purged(Of(was, p), Of(lists, p), now)
  }

  lemma KeptIsPurged(ms: seq<Message>, now: Time)
    ensures Purged(ms, Kept(ms, now), now)
  {
    KeptMembers(ms, now);
  }

  lemma CleanedIsPurged(lists: map<string, seq<Message>>, now: Time)
    ensures AllPurged(lists, Cleaned(lists, now), now)
  {
    forall p ensures Purged(Of(lists, p), Of(Cleaned(lists, now), p), now) {
      KeptMembers(Of(lists, p), now);
    }
  }

  lemma CleanedPeerIsPurged(lists: map<string, seq<Message>>, peer: string, now: Time)
    ensures Purged(Of(lists, peer), Of(CleanedPeer(lists, peer, now), peer), now)
  {
    KeptMembers(Of(lists, peer), now);
  }

  /** The first message under the ID, and no other, counts one more attempt. */
  ghost predicate Counted(was: seq<Message>, ms: seq<Message>, id: string, now: Time) {
    |ms| == |was| && forall k :: 0 <= k < |was| ==>
      ms[k] == if k == IndexOf(was, id) then was[k].(attempts := was[k].attempts + 1, lastAttempt := now) else was[k]
  }

  lemma MarkCounts(ms: seq<Message>, id: string, now: Time)
    ensures Counted(ms, MarkFirst(ms, id, now), id, now)
  {
    MarkFirstAt(ms, id, now);
  }

  /** How many messages there are in all. */
  ghost function Total(lists: map<string, seq<Message>>): nat {
    if lists == map[] then 0
    else
      var p :| p in lists;
      |lists[p]| + Total(lists - {p})
  }

  lemma {:induction false} TotalLess(lists: map<string, seq<Message>>, peer: string)
    ensures Total(lists) == |Of(lists, peer)| + Total(lists - {peer})
    decreases |lists|
  {
    if peer in lists {
      var p :| p in lists && Total(lists) == |lists[p]| + Total(lists - {p});
      if p != peer {
        TotalLess(lists - {p}, peer);
        TotalLess(lists - {peer}, p);
        assert lists - {p} - {peer} == lists - {peer} - {p};
      }
    } else {
      assert lists - {peer} == lists;
    }
  }

  lemma CleanedTotal(lists: map<string, seq<Message>>, peer: string, now: Time)
    ensures Total(lists) - Total(CleanedPeer(lists, peer, now)) ==
            |Of(lists, peer)| - |Of(CleanedPeer(lists, peer, now), peer)|
  {
    var after := CleanedPeer(lists, peer, now);
    TotalLess(lists, peer);
    TotalLess(after, peer);
    assert after - {peer} == lists - {peer};
  }

  /** What load makes of the files. */
  function Loaded(codec: Codec, files: map<string, Bytes>): map<string, seq<Message>> {
    map p | p in files && codec.decode(files[p]).Some? :: codec.decode(files[p]).value
  }

  function NonEmpty(lists: map<string, seq<Message>>): map<string, seq<Message>> {
    map p | p in lists && lists[p] != [] :: lists[p]
  }

  /** Loading the files after a restart restores every nonempty queue, exactly. */
  lemma RestartRestores(codec: Codec, files: map<string, Bytes>, lists: map<string, seq<Message>>)
    requires codec.RoundTrips() && Mirrors(codec, files, lists)
    ensures Loaded(codec, files) == NonEmpty(lists)
    ensures Mirrors(codec, files, Loaded(codec, files))
  {
    forall p | p in files ensures codec.decode(files[p]) == Some(Of(lists, p)) && p in lists {
    }
    forall p | p in NonEmpty(lists) ensures p in files {
      assert Of(lists, p) != [];
    }
  }

  class MessageQueue {
    const codec: Codec
    var pending: map<string, Slice>
    var files: map<string, Bytes>

    ghost predicate Linked()
      reads this
    {
      Separate(pending)
    }

    ghost function Lists(): map<string, seq<Message>>
      requires Linked()
      reads this, Arrays(pending)
    {
      Contents(pending)
    }

    ghost predicate Valid()
      reads this, Arrays(pending)
    {
      Linked() && Mirrors(codec, files, Lists())
    }

    ghost function BufferOf(s: Slice): Buffer
      reads s.arr
    {
      Buffer(s.arr[..], s.len)
    }

    /** The peer's slice ends before its array does. */
    ghost predicate HasRoom(peer: string)
      reads this
    {
      peer in pending && pending[peer].len < pending[peer].arr.Length
    }

    method SavePeer(peer: string)
      requires Linked()
      requires MirrorsOthers(codec, files, Lists(), peer)
      modifies this`files
      ensures Valid()
    {
      ghost var lists := Lists();
      SavedMirrors(codec, files, lists, peer);
      hide Mirrors, MirrorsOthers;
      if peer !in pending || pending[peer].len == 0 {
        assert Of(lists, peer) == [];
        files := files - {peer};
      } else {
        var s := pending[peer];
        assert Of(lists, peer) == s.arr[..s.len];
        files := files[peer := codec.encode(s.arr[..s.len])];
      }
      assert files == Saved(codec, old(files), peer, Of(lists, peer));
      assert Lists() == lists;
    }

    /** append: in place while the backing array has room, else into a larger
        array of whatever capacity the runtime picks. */
    method Append(s: Slice, m: Message) returns (s': Slice)
      requires s.len <= s.arr.Length
      modifies if s.len < s.arr.Length then {s.arr} else {}
      ensures s'.len == s.len + 1 <= s'.arr.Length
      ensures s.len < s.arr.Length ==> s'.arr == s.arr && BufferOf(s') == old(BufferOf(s)).Push(m)
      ensures s.len == s.arr.Length ==> fresh(s'.arr)
      ensures s'.arr[..s'.len] == old(s.arr[..s.len]) + [m]
      ensures forall i :: 0 <= i < s.arr.Length && i != s.len ==> s.arr[i] == old(s.arr[i])
    {
      if s.len < s.arr.Length {
        s.arr[s.len] := m;
        s' := Slice(s.arr, s.len + 1);
      } else {
        var capacity: nat :| capacity > s.len;
        var grown := new Message[capacity](_ => m);
        for i := 0 to s.len
          invariant grown[..i] == s.arr[..i]
          invariant grown[s.len] == m
        {
          grown[i] := s.arr[i];
        }
        s' := Slice(grown, s.len + 1);
        assert grown[..s.len + 1] == grown[..s.len] + [m];
      }
    }

    /** Enqueue's update in memory: the peer's slice is appended to and rebound. */
    method AppendTo(peer: string, m: Message)
      requires Linked()
      modifies this`pending, Arrays(pending)
      ensures Linked() && fresh(Arrays(pending) - old(Arrays(pending)))
      ensures Lists() == old(Lists())[peer := old(Of(Lists(), peer)) + [m]]
      ensures peer in pending
      ensures if old(HasRoom(peer))
              then pending[peer].arr == old(pending[peer].arr)
                && BufferOf(pending[peer]) == old(BufferOf(pending[peer])).Push(m)
              else fresh(pending[peer].arr)
    {
      hide Separate, Contents;
      Unbind(pending, peer);
      ghost var rest, was := pending - {peer}, Lists();
      var s: Slice;
      if peer in pending {
        s := pending[peer];
      } else {
        var nil := new Message[0];
        s := Slice(nil, 0);
      }
      assert s.arr[..s.len] == Of(was, peer);
      s := Append(s, m);
      assert s.arr[..s.len] == Of(was, peer) + [m];
      assert Contents(rest) == was - {peer};
      Rebind(rest, peer, s);
      pending := pending[peer := s];
      SetAgain(old(pending), peer, s);
      SetAgain(was, peer, Of(was, peer) + [m]);
    }

    method Enqueue(msg: Message, stamp: string, now: Time)
      requires Valid()
      modifies this`pending, this`files, Arrays(pending)
      ensures Valid() && fresh(Arrays(pending) - old(Arrays(pending)))
      ensures Lists() == old(Lists())[msg.to := old(Of(Lists(), msg.to)) + [Stamped(msg, stamp, now)]]
      ensures AcceptedAs(Lists()[msg.to][|old(Of(Lists(), msg.to))|], msg, stamp, now)
      ensures msg.to in pending
      ensures if old(HasRoom(msg.to))
              then pending[msg.to].arr == old(pending[msg.to].arr)
                && BufferOf(pending[msg.to]) == old(BufferOf(pending[msg.to])).Push(Stamped(msg, stamp, now))
              else fresh(pending[msg.to].arr)
    {
      hide Mirrors, MirrorsOthers, AcceptedAs;
      StampedIsAccepted(msg, stamp, now);
      var m := Stamped(msg, stamp, now);
      UpdateKeepsOthers(codec, files, Lists(), msg.to, Of(Lists(), msg.to) + [m]);
      AppendTo(msg.to, m);
      SavePeer(msg.to);
    }

    /** Peek hands out the live slice itself, not a copy. */
    method Peek(peer: string) returns (s: Slice)
      requires Valid()
      ensures peer in pending ==> s == pending[peer]
      ensures peer !in pending ==> s.len == 0 && fresh(s.arr)
      ensures s.len <= s.arr.Length && s.arr[..s.len] == Of(Lists(), peer)
    {
      if peer in pending {
        s := pending[peer];
      } else {
        var nil := new Message[0];
        s := Slice(nil, 0);
      }
    }

    method Search(s: Slice, id: string) returns (i: nat)
      requires s.len <= s.arr.Length
      ensures i == IndexOf(s.arr[..s.len], id)
    {
      i := 0;
      while i < s.len && s.arr[i].id != id
        invariant i <= s.len
        invariant forall j :: 0 <= j < i ==> s.arr[j].id != id
      {
        i := i + 1;
      }
      IndexIs(s.arr[..s.len], id, i);
    }

    /** append(messages[:i], messages[i+1:]...): the tail moves down in place. */
    method ShiftDown(s: Slice, i: nat)
      requires i < s.len <= s.arr.Length
      modifies s.arr
      ensures s.arr[..] == old(s.arr[..i] + s.arr[i + 1..s.len] + s.arr[s.len - 1..])
    {
      for j := i to s.len - 1
        invariant forall k :: 0 <= k < s.arr.Length ==>
          s.arr[k] == if i <= k < j then old(s.arr[k + 1]) else old(s.arr[k])
      {
        s.arr[j] := s.arr[j + 1];
      }
    }

    /** The removal itself: the slice shrinks over the shifted array. */
    method RemoveIndex(peer: string, i: nat, ghost id: string)
      requires Valid() && peer in pending && i < pending[peer].len <= pending[peer].arr.Length
      requires i == IndexOf(pending[peer].arr[..pending[peer].len], id)
      modifies this`pending, this`files, Arrays(pending)
      ensures Valid() && Arrays(pending) == old(Arrays(pending))
      ensures peer in pending && pending[peer].arr == old(pending[peer].arr)
      ensures BufferOf(pending[peer]) == old(BufferOf(pending[peer])).Remove(id)
      ensures Lists() == old(Lists())[peer := BufferOf(pending[peer]).Live()]
    {
      hide Separate, Contents, Mirrors, MirrorsOthers, IndexOf, Buffer.Remove;
      Unbind(pending, peer);
      ghost var rest, was := pending - {peer}, Lists();
      var s := pending[peer];
      ghost var b := BufferOf(s).Remove(id);
      RemoveIsShift(BufferOf(s), id, i);
      UpdateKeepsOthers(codec, files, was, peer, b.Live());
      ShiftDown(s, i);
      var s' := Slice(s.arr, s.len - 1);
      assert BufferOf(s') == b;
      assert Contents(rest) == was - {peer};
      Rebind(rest, peer, s');
      pending := pending[peer := s'];
      SetAgain(old(pending), peer, s');
      SetAgain(was, peer, b.Live());
      SavePeer(peer);
    }

    method RemoveMessage(peer: string, id: string) returns (found: bool)
      requires Valid()
      modifies this`pending, this`files, Arrays(pending)
      ensures Valid() && Arrays(pending) == old(Arrays(pending))
      ensures found <==> old(IndexOf(Of(Lists(), peer), id) < |Of(Lists(), peer)|)
      ensures peer !in old(pending) ==> pending == old(pending) && Lists() == old(Lists())
      ensures peer in old(pending) ==>
                && peer in pending && pending[peer].arr == old(pending[peer].arr)
                && BufferOf(pending[peer]) == old(BufferOf(pending[peer])).Remove(id)
                && Lists() == old(Lists())[peer := old(RemoveFirst(Of(Lists(), peer), id))]
    {
      ListsKeys();
      hide Separate, Contents, Mirrors, IndexOf;
      if peer !in pending {
        return false;
      }
      OwnList(peer);
      ghost var was := Lists();
      assert was == was[peer := was[peer]];
      var s := pending[peer];
      var i := Search(s, id);
      assert s.arr[..s.len] == Of(was, peer) && |Of(was, peer)| == s.len;
      if i == s.len {
        return false;
      }
      RemoveIndex(peer, i, id);
      return true;
    }

    method MarkAttempt(peer: string, id: string, now: Time)
      requires Valid()
      modifies this`files, Arrays(pending)
      ensures Valid() && pending == old(pending)
      ensures peer !in pending ==> Lists() == old(Lists())
      ensures peer in pending ==>
                && BufferOf(pending[peer]) == old(BufferOf(pending[peer])).Mark(id, now)
                && Lists() == old(Lists())[peer := old(MarkFirst(Of(Lists(), peer), id, now))]
                && Counted(old(Of(Lists(), peer)), Of(Lists(), peer), id, now)
    {
      hide Separate, Contents, Mirrors, MirrorsOthers, Counted;
      MarkCounts(Of(Lists(), peer), id, now);
      Unbind(pending, peer);
      ghost var rest, was := pending - {peer}, Lists();
      if peer in pending {
        var s := pending[peer];
        ghost var b := BufferOf(s).Mark(id, now);
        UpdateKeepsOthers(codec, files, was, peer, b.Live());
        var i := Search(s, id);
        if i < s.len {
          s.arr[i] := Marked(s.arr[i], now);
        }
        assert BufferOf(s) == b;
        assert Contents(rest) == was - {peer};
        Rebind(rest, peer, s);
        assert pending == rest[peer := s];
        SetAgain(was, peer, b.Live());
      } else {
        UpdateKeepsOthers(codec, files, was, peer, []);
        OthersOfAbsent(codec, files, was, peer);
      }
      SavePeer(peer);
    }

    /** The messages Cleanup keeps, appended one by one to a nil slice. */
    method Filter(s: Slice, now: Time) returns (valid: Slice, removed: nat)
      requires s.len <= s.arr.Length
      ensures valid.len <= valid.arr.Length && fresh(valid.arr)
      ensures valid.arr[..valid.len] == Kept(s.arr[..s.len], now)
      ensures removed == s.len - valid.len
      ensures Purged(s.arr[..s.len], valid.arr[..valid.len], now)
    {
      hide Purged;
      KeptIsPurged(s.arr[..s.len], now);
      var nil := new Message[0];
      valid, removed := Slice(nil, 0), 0;
      for i := 0 to s.len
        invariant valid.len <= valid.arr.Length && fresh(valid.arr) && removed == i - valid.len
        invariant valid.arr[..valid.len] == Kept(s.arr[..i], now)
      {
        KeptAppend(s.arr[..i], s.arr[i], now);
        assert s.arr[..i + 1] == s.arr[..i] + [s.arr[i]];
        if now < s.arr[i].expiresAt && s.arr[i].attempts < MAX_RETRY {
          valid := Append(valid, s.arr[i]);
        } else {
          removed := removed + 1;
        }
      }
    }

    /** One turn of Cleanup's loop: the peer's slice and file are replaced or dropped. */
    method CleanupPeer(peer: string, now: Time) returns (removed: nat)
      requires Valid() && peer in pending
      modifies this`pending, this`files
      ensures Valid() && fresh(Arrays(pending) - old(Arrays(pending)))
      ensures Lists() == CleanedPeer(old(Lists()), peer, now)
      ensures removed == |Of(old(Lists()), peer)| - |Of(Lists(), peer)|
      ensures peer in pending ==> fresh(pending[peer].arr)
      ensures Purged(Of(old(Lists()), peer), Of(Lists(), peer), now)
    {
      hide Separate, Contents, Mirrors, MirrorsOthers, Purged;
      CleanedPeerIsPurged(Lists(), peer, now);
      Unbind(pending, peer);
      ghost var rest, was := pending - {peer}, Lists();
      var valid;
      valid, removed := Filter(pending[peer], now);
      if valid.len == 0 {
        RemovalKeeps(codec, files, was, peer);
        pending := pending - {peer};
        files := files - {peer};
      } else {
        UpdateKeepsOthers(codec, files, was, peer, Kept(was[peer], now));
        Rebind(rest, peer, valid);
        pending := pending[peer := valid];
        SetAgain(old(pending), peer, valid);
        SetAgain(was, peer, Kept(was[peer], now));
        SavePeer(peer);
      }
    }

    /** Every peer's messages that are expired or at the retry limit go. */
    method Cleanup(now: Time) returns (removed: nat)
      requires Valid()
      modifies this`pending, this`files
      ensures Valid() && fresh(Arrays(pending) - old(Arrays(pending)))
      ensures Lists() == Cleaned(old(Lists()), now)
      ensures removed == Total(old(Lists())) - Total(Lists())
      ensures AllPurged(old(Lists()), Lists(), now)
    {
      hide Contents, Mirrors, CleanedPeer, Total, AllPurged, Purged;
      CleanedIsPurged(Lists(), now);
      ghost var was := Lists();
      ListsKeys();
      var todo := pending.Keys;
      removed := 0;
      ghost var done: set<string> := {};
      PartlyCleanedStart(was, now);
      while todo != {}
        invariant Valid() && fresh(Arrays(pending) - old(Arrays(pending)))
        invariant todo <= pending.Keys && todo !! done && todo + done == was.Keys
        invariant Lists() == PartlyCleaned(was, done, now) && removed == Total(was) - Total(Lists())
        decreases todo
      {
        var peer :| peer in todo;
        CleanedTotal(Lists(), peer, now);
        var n := CleanupPeer(peer, now);
        PartlyCleanedStep(was, done, peer, now);
        ListsKeys();
        removed, todo, done := removed + n, todo - {peer}, done + {peer};
      }
      PartlyCleanedEnd(was, now);
    }

    method PeersWithPending() returns (peers: set<string>)
      requires Linked()
      ensures forall p :: p in peers <==> Of(Lists(), p) != []
    {
      peers := {};
      var todo := pending.Keys;
      while todo != {}
        invariant todo <= pending.Keys
        invariant forall p :: p in peers <==> p !in todo && Of(Lists(), p) != []
        decreases todo
      {
        var peer :| peer in todo;
        if pending[peer].len > 0 {
          peers := peers + {peer};
        }
        todo := todo - {peer};
      }
    }

    lemma OwnList(peer: string)
      requires Linked() && peer in pending
      ensures pending[peer].len <= pending[peer].arr.Length && pending[peer].arr in Arrays(pending)
      ensures peer in Lists() && Lists()[peer] == BufferOf(pending[peer]).Live()
    {
    }

    lemma ListsKeys()
      requires Linked()
      ensures Lists().Keys == pending.Keys
    {
    }

    method Dequeue(peer: string) returns (messages: seq<Message>)
      requires Valid()
      modifies this`pending, this`files
      ensures Valid() && Arrays(pending) <= old(Arrays(pending))
      ensures messages == Of(old(Lists()), peer)
      ensures Lists() == old(Lists()) - {peer}
    {
      hide Separate, Contents, Mirrors;
      Unbind(pending, peer);
      RemovalKeeps(codec, files, Lists(), peer);
      messages := if peer in pending then pending[peer].arr[..pending[peer].len] else [];
      pending := pending - {peer};
      files := files - {peer};
    }

    /** A queue over the files that an earlier process left. */
    constructor (codec: Codec, files: map<string, Bytes>)
      ensures this.codec == codec && this.files == files
      ensures Linked() && fresh(Arrays(pending)) && Lists() == Loaded(codec, files)
      ensures forall lists: map<string, seq<Message>> :: codec.RoundTrips() && Mirrors(codec, files, lists) ==>
                Valid() && Lists() == NonEmpty(lists)
    {
      this.codec, this.files, this.pending := codec, files, map[];
      new;
      Load();
      hide Separate, Contents, Loaded, Mirrors, NonEmpty, Codec.RoundTrips;
      forall lists: map<string, seq<Message>> | codec.RoundTrips() && Mirrors(codec, files, lists)
        ensures Mirrors(codec, files, Lists()) && Lists() == NonEmpty(lists)
      {
        RestartRestores(codec, files, lists);
      }
    }

    /** One file's turn in load: the peer's list becomes a new slice. */
    method SetList(peer: string, ms: seq<Message>)
      requires Linked()
      modifies this`pending
      ensures Linked() && fresh(Arrays(pending) - old(Arrays(pending)))
      ensures Lists() == old(Lists())[peer := ms]
    {
      hide Separate, Contents;
      Unbind(pending, peer);
      ghost var rest, was := pending - {peer}, Lists();
      var arr := new Message[|ms|](i requires 0 <= i < |ms| => ms[i]);
      assert arr[..|ms|] == ms;
      assert Contents(rest) == was - {peer};
      Rebind(rest, peer, Slice(arr, |ms|));
      pending := pending[peer := Slice(arr, |ms|)];
      SetAgain(old(pending), peer, Slice(arr, |ms|));
      SetAgain(was, peer, ms);
    }

    method Load()
      requires Linked() && pending == map[]
      modifies this`pending
      ensures Linked() && fresh(Arrays(pending)) && Lists() == Loaded(codec, files)
    {
      assert Lists() == map[];
      hide Separate, Contents, Loaded;
      var todo := files.Keys;
      LoadedNothing(codec, files);
      while todo != {}
        invariant Linked() && fresh(Arrays(pending)) && todo <= files.Keys
        invariant Lists() == Loaded(codec, files) - todo
        decreases todo
      {
        var peer :| peer in todo;
        var messages := codec.decode(files[peer]);
        if messages.Some? {
          SetList(peer, messages.value);
        }
        LoadedStep(codec, files, todo, peer);
        todo := todo - {peer};
      }
    }
  }

  /** A node that restarts makes a new queue over the files of the old one. */
  method Restart(q: MessageQueue) returns (r: MessageQueue)
    requires q.Valid() && q.codec.RoundTrips()
    ensures fresh(r) && r.Valid() && r.Lists() == NonEmpty(q.Lists())
  {
    r := new MessageQueue(q.codec, q.files);
  }

  lemma OthersOfAbsent(codec: Codec, files: map<string, Bytes>, lists: map<string, seq<Message>>, peer: string)
    requires Mirrors(codec, files, lists)
    ensures MirrorsOthers(codec, files, lists, peer)
  {
  }

  lemma {:induction false} KeptAppend(ms: seq<Message>, m: Message, now: Time)
    ensures Kept(ms + [m], now) == Kept(ms, now) + if now < m.expiresAt && m.attempts < 10 then [m] else []
  {
    if ms == [] {
      assert [] + [m] == [m] && [m][1..] == [];
    } else {
      var rest := Kept(ms[1..], now);
      var last := if now < m.expiresAt && m.attempts < 10 then [m] else [];
      assert (ms + [m])[0] == ms[0] && (ms + [m])[1..] == ms[1..] + [m];
      KeptAppend(ms[1..], m, now);
      assert [ms[0]] + (rest + last) == [ms[0]] + rest + last && [] + (rest + last) == [] + rest + last;
    }
  }

  /** The lists when Cleanup has been through the peers of `done`. */
  ghost function PartlyCleaned(lists: map<string, seq<Message>>, done: set<string>, now: Time)
      : map<string, seq<Message>>
  {
    map p | p in lists && (p in done ==> Kept(lists[p], now) != []) ::
      if p in done then Kept(lists[p], now) else lists[p]
  }

  lemma PartlyCleanedStart(lists: map<string, seq<Message>>, now: Time)
    ensures PartlyCleaned(lists, {}, now) == lists
  {
  }

  lemma PartlyCleanedEnd(lists: map<string, seq<Message>>, now: Time)
    ensures PartlyCleaned(lists, lists.Keys, now) == Cleaned(lists, now)
  {
  }

  lemma PartlyCleanedStep(lists: map<string, seq<Message>>, done: set<string>, peer: string, now: Time)
    requires peer in lists && peer !in done
    ensures CleanedPeer(PartlyCleaned(lists, done, now), peer, now) == PartlyCleaned(lists, done + {peer}, now)
    ensures forall p :: p in lists && p !in done ==> p in PartlyCleaned(lists, done, now)
  {
  }

  lemma LoadedNothing(codec: Codec, files: map<string, Bytes>)
    ensures Loaded(codec, files) - files.Keys == map[]
  {
  }

  lemma LoadedStep(codec: Codec, files: map<string, Bytes>, todo: set<string>, peer: string)
    requires peer in todo && todo <= files.Keys
    ensures Loaded(codec, files) - (todo - {peer}) ==
            match codec.decode(files[peer])
            case None => Loaded(codec, files) - todo
            case Some(ms) => (Loaded(codec, files) - todo)[peer := ms]
  {
  }
}
