/** The relay node's handlers, with sends and remote answers as given outcomes. */
module RelayNodes {
  import opened Common
  import opened QueueSpec
  import opened MessageQueues
  import opened DeliveryPasses
  import opened DeliveryAccounts
  import opened LruCaches
  import LruSpec
  import LruRuns

  const FRESH: Time := 5 * 60 * 1000000000

  /** The first relay answer that carries data. */
  function FirstAnswer(responses: seq<Option<Bytes>>): Option<Bytes> {
    if responses == [] then None
    else if responses[0].Some? && responses[0].value != [] then responses[0]
    else FirstAnswer(responses[1..])
  }

  ghost predicate NoneBefore(responses: seq<Option<Bytes>>, i: nat)
    requires i <= |responses|
  {
    forall j :: 0 <= j < i ==> responses[j] == None || responses[j] == Some([])
  }

  /** Whether the answer is the earliest one that carries data, or there is none. */
  ghost predicate Earliest(responses: seq<Option<Bytes>>, answer: Option<Bytes>) {
    match answer
    case None => NoneBefore(responses, |responses|)
    case Some(data) =>
      data != [] && exists i :: 0 <= i < |responses| && responses[i] == answer && NoneBefore(responses, i)
  }

  lemma {:induction false} FirstAnswerIsEarliest(responses: seq<Option<Bytes>>)
    ensures Earliest(responses, FirstAnswer(responses))
  {
    if responses != [] {
      var rest := responses[1..];
      FirstAnswerIsEarliest(rest);
      if responses[0].Some? && responses[0].value != [] {
      } else if FirstAnswer(rest).Some? {
        var i :| 0 <= i < |rest| && rest[i] == FirstAnswer(rest) && NoneBefore(rest, i);
        assert responses[i + 1] == rest[i] && NoneBefore(responses, i + 1);
      }
    }
  }

  /** The lists after one pass over the peer's, if it has one. */
  function AfterPass(lists: map<string, seq<Message>>, peer: string, outcomes: seq<Outcome>, marks: bool)
      : map<string, seq<Message>>
    requires |Of(lists, peer)| <= |outcomes|
  {
    if peer in lists then lists[peer := PassOver(lists[peer], outcomes, marks)] else lists
  }

  predicate Seen(online: map<string, Time>, peer: string, now: Time) {
    peer in online && now - online[peer] <= FRESH
  }

  /** There are outcomes for every send of a pass over any of the lists. */
  predicate Enough(lists: map<string, seq<Message>>, outcomes: string -> seq<Outcome>) {
    forall p :: p in lists ==> |lists[p]| <= |outcomes(p)|
  }

  /** The lists when the tick has yet to come to the peers of `todo`: of the others,
      those seen lately got a pass that marks its failures. */
  function Ticked(lists: map<string, seq<Message>>, todo: set<string>, online: map<string, Time>,
                  at: string -> Time, outcomes: string -> seq<Outcome>): map<string, seq<Message>>
    requires Enough(lists, outcomes)
  {
    map p | p in lists ::
      if p !in todo && Seen(online, p, at(p)) then PassOver(lists[p], outcomes(p), true) else lists[p]
  }

  lemma TickStarts(lists: map<string, seq<Message>>, todo: set<string>, online: map<string, Time>,
                   at: string -> Time, outcomes: string -> seq<Outcome>)
    requires Enough(lists, outcomes) && forall p :: p in todo <==> Of(lists, p) != []
    ensures todo <= lists.Keys && Ticked(lists, todo, online, at, outcomes) == lists
  {
    forall p | p in lists && p !in todo ensures lists[p] == [] {
      assert Of(lists, p) == lists[p];
    }
  }

  lemma TickStep(lists: map<string, seq<Message>>, todo: set<string>, peer: string, online: map<string, Time>,
                 at: string -> Time, outcomes: string -> seq<Outcome>)
    requires Enough(lists, outcomes) && peer in lists && peer in todo
    ensures var was := Ticked(lists, todo, online, at, outcomes);
            && |Of(was, peer)| <= |outcomes(peer)|
            && Ticked(lists, todo - {peer}, online, at, outcomes) ==
               if peer in online && at(peer) - online[peer] <= 5 * 60 * 1000000000
               then AfterPass(was, peer, outcomes(peer), true) else was
  {
  }

  /** With distinct IDs a pass has left in the peer's list just what it did not
      deliver, its failed sends counted if they are marked. */
  ghost predicate PassDone(was: seq<Message>, left: seq<Message>, outcomes: seq<Outcome>, marks: bool) {
    && |was| <= |outcomes|
    && (DistinctIds(was) ==>
         Accounted(was, left, SentBy(was, outcomes, marks), outcomes[..|was|], marks))
  }

  /** The tick has done so for those peers, and those only, that were seen in the five
      minutes before it came to them. */
  ghost predicate TickDone(was: map<string, seq<Message>>, lists: map<string, seq<Message>>,
                           online: map<string, Time>, at: string -> Time, outcomes: string -> seq<Outcome>)
  {
    lists.Keys == was.Keys
    && forall p :: p in was ==>
         if p in online && at(p) - online[p] <= 5 * 60 * 1000000000
         then PassDone(was[p], lists[p], outcomes(p), true)
         else lists[p] == was[p]
  }

  lemma PassIsDone(ms: seq<Message>, outcomes: seq<Outcome>, marks: bool)
    requires |ms| <= |outcomes|
    ensures PassDone(ms, PassOver(ms, outcomes, marks), outcomes, marks)
  {
    if DistinctIds(ms) {
      PassAccounts(ms, outcomes, marks);
    }
  }

  lemma TickIsDone(lists: map<string, seq<Message>>, online: map<string, Time>,
                   at: string -> Time, outcomes: string -> seq<Outcome>)
    requires Enough(lists, outcomes)
    ensures TickDone(lists, Ticked(lists, {}, online, at, outcomes), online, at, outcomes)
  {
    forall p | p in lists ensures PassDone(lists[p], PassOver(lists[p], outcomes(p), true), outcomes(p), true) {
      PassIsDone(lists[p], outcomes(p), true);
    }
    hide PassDone, PassOver;
  }

  class RelayNode {
    const queue: MessageQueue?
    const cache: LRUCache
    const cacheTTL: int
    var onlinePeers: map<string, Time>

    constructor (queue: MessageQueue?, cache: LRUCache, cacheTTL: int)
      ensures this.queue == queue && this.cache == cache && this.cacheTTL == cacheTTL && onlinePeers == map[]
    {
      this.queue, this.cache, this.cacheTTL, onlinePeers := queue, cache, cacheTTL, map[];
    }

    /** A message is sent at once to a peer seen lately, else (or if that send
        fails) it is queued, if there is a queue. */
    method HandleForward(msg: Message, stamp: string, now: Time, sendOk: bool) returns (direct: bool)
      requires queue != null ==> queue.Valid()
      modifies if queue != null then {queue} + Arrays(queue.pending) else {}
      ensures direct <==>
                msg.to in onlinePeers && now - onlinePeers[msg.to] < 5 * 60 * 1000000000 && sendOk
      ensures queue != null ==> queue.Valid() && fresh(Arrays(queue.pending) - old(Arrays(queue.pending)))
      ensures queue != null ==>
                queue.Lists() == if direct then old(queue.Lists()) else
                  old(queue.Lists())[msg.to := old(Of(queue.Lists(), msg.to)) + [Stamped(msg, stamp, now)]]
      ensures queue != null && !direct ==>
                AcceptedAs(queue.Lists()[msg.to][|old(Of(queue.Lists(), msg.to))|], msg, stamp, now)
    {
      hide AcceptedAs;
      if msg.to in onlinePeers && now - onlinePeers[msg.to] < FRESH {
        if sendOk {
          return true;
        }
      }
      if queue != null {
        queue.Enqueue(msg, stamp, now);
      }
      return false;
    }

    /** One turn of a delivery loop: the send's outcome decides what the queue does. */
    method Settle(peer: string, msg: Message, outcome: Outcome, marks: bool)
      requires queue != null && queue.Valid() && peer in queue.pending
      modifies queue`pending, queue`files, Arrays(queue.pending)
      ensures queue.Valid() && Arrays(queue.pending) == old(Arrays(queue.pending))
      ensures peer in queue.pending && queue.pending[peer].arr == old(queue.pending[peer].arr)
      ensures old(queue.BufferOf(queue.pending[peer])).Valid()
      ensures queue.BufferOf(queue.pending[peer]) == Turn(old(queue.BufferOf(queue.pending[peer])), msg, outcome, marks)
      ensures queue.Lists() == old(queue.Lists())[peer := queue.BufferOf(queue.pending[peer]).Live()]
      ensures outcome.Sent? ==> Of(queue.Lists(), peer) == RemoveFirst(old(Of(queue.Lists(), peer)), msg.id)
      ensures outcome.Failed? && marks ==>
                Counted(old(Of(queue.Lists(), peer)), Of(queue.Lists(), peer), msg.id, outcome.at)
      ensures outcome.Failed? && !marks ==> queue.Lists() == old(queue.Lists())
    {
      hide Separate, Contents, Mirrors, Counted;
      queue.OwnList(peer);
      ghost var was := queue.Lists();
      assert was == was[peer := was[peer]];
      match outcome {
        case Sent => var _ := queue.RemoveMessage(peer, msg.id);
        case Failed(at) => if marks { queue.MarkAttempt(peer, msg.id, at); }
      }
    }

    /** The loop over the live Peek slice, turn by turn; `sent` is what goes out. */
    method DeliverSlice(peer: string, outcomes: seq<Outcome>, marks: bool) returns (sent: seq<Message>)
      requires queue != null && queue.Valid()
      requires |Of(queue.Lists(), peer)| <= |outcomes|
      modifies queue`pending, queue`files, Arrays(queue.pending)
      ensures queue.Valid() && Arrays(queue.pending) == old(Arrays(queue.pending))
      ensures peer !in old(queue.pending) ==> queue.Lists() == old(queue.Lists()) && sent == []
      ensures peer in old(queue.pending) ==>
                var b := old(queue.BufferOf(queue.pending[peer]));
                && queue.Lists() == old(queue.Lists())[peer := Pass(b, 0, b.len, outcomes, marks).Live()]
                && sent == Sends(b, 0, b.len, outcomes, marks)
    {
      hide Separate, Contents, Mirrors, Turn, Of, Pass, Sends;
      sent := [];
      var messages := queue.Peek(peer);
      if peer !in queue.pending {
        return [];
      }
      queue.OwnList(peer);
      ghost var was, b := queue.Lists(), queue.BufferOf(messages);
      assert was == was[peer := was[peer]];
      NoTurns(b, outcomes, marks);
      for i := 0 to messages.len
        invariant queue.Valid() && Arrays(queue.pending) == old(Arrays(queue.pending))
        invariant peer in queue.pending && queue.pending[peer].arr == messages.arr
        invariant queue.BufferOf(queue.pending[peer]) == Pass(b, 0, i, outcomes, marks)
        invariant queue.Lists() == was[peer := queue.BufferOf(queue.pending[peer]).Live()]
        invariant sent == Sends(b, 0, i, outcomes, marks)
      {
        PassSnoc(b, 0, i + 1, outcomes, marks);
        ghost var left := queue.BufferOf(queue.pending[peer]).Live();
        sent := sent + [messages.arr[i]];
        Settle(peer, messages.arr[i], outcomes[i], marks);
        SetOver(was, peer, left, queue.BufferOf(queue.pending[peer]).Live());
      }
    }

    /** A pass over the live slice, seen on the lists. */
    lemma PassOnLists(peer: string, outcomes: seq<Outcome>, marks: bool)
      requires queue != null && queue.Valid() && |Of(queue.Lists(), peer)| <= |outcomes|
      ensures peer !in queue.pending ==>
                && AfterPass(queue.Lists(), peer, outcomes, marks) == queue.Lists()
                && SentBy(Of(queue.Lists(), peer), outcomes, marks) == []
      ensures peer in queue.pending ==>
                var b := queue.BufferOf(queue.pending[peer]);
                && b.len <= |b.cells| && b.len <= |outcomes|
                && SentBy(Of(queue.Lists(), peer), outcomes, marks) == Sends(b, 0, b.len, outcomes, marks)
                && AfterPass(queue.Lists(), peer, outcomes, marks) ==
                   queue.Lists()[peer := Pass(b, 0, b.len, outcomes, marks).Live()]
      ensures PassDone(Of(queue.Lists(), peer), Of(AfterPass(queue.Lists(), peer, outcomes, marks), peer),
                       outcomes, marks)
    {
      hide PassDone;
      queue.ListsKeys();
      PassIsDone(Of(queue.Lists(), peer), outcomes, marks);
      if peer in queue.pending {
        queue.OwnList(peer);
        PassOfLive(queue.BufferOf(queue.pending[peer]), outcomes, marks);
        SentByLive(queue.BufferOf(queue.pending[peer]), outcomes, marks);
      }
    }

    /** What handleAnnounce and deliveryLoop do alike for a peer; only the latter marks
        a failed attempt. */
    method DeliverPending(peer: string, outcomes: seq<Outcome>, marks: bool) returns (sent: seq<Message>)
      requires queue != null && queue.Valid()
      requires |Of(queue.Lists(), peer)| <= |outcomes|
      modifies queue`pending, queue`files, Arrays(queue.pending)
      ensures queue.Valid() && Arrays(queue.pending) == old(Arrays(queue.pending))
      ensures queue.Lists() == AfterPass(old(queue.Lists()), peer, outcomes, marks)
      ensures sent == SentBy(old(Of(queue.Lists(), peer)), outcomes, marks)
      ensures PassDone(old(Of(queue.Lists(), peer)), Of(queue.Lists(), peer), outcomes, marks)
    {
      hide Separate, Contents, Mirrors, AfterPass, Of, Pass, Sends, SentBy, PassDone;
      PassOnLists(peer, outcomes, marks);
      sent := DeliverSlice(peer, outcomes, marks);
    }

    method HandleAnnounce(peer: string, now: Time, outcomes: seq<Outcome>)
      requires queue != null ==> queue.Valid() && |Of(queue.Lists(), peer)| <= |outcomes|
      modifies this`onlinePeers
      modifies if queue != null then {queue} + Arrays(queue.pending) else {}
      ensures onlinePeers == old(onlinePeers)[peer := now]
      ensures queue != null ==> queue.Valid() && Arrays(queue.pending) == old(Arrays(queue.pending))
      ensures queue != null ==> queue.Lists() == AfterPass(old(queue.Lists()), peer, outcomes, false)
      ensures queue != null ==> PassDone(old(Of(queue.Lists(), peer)), Of(queue.Lists(), peer), outcomes, false)
    {
      hide Separate, Contents, Mirrors, AfterPass, Of, Pass, PassDone;
      onlinePeers := onlinePeers[peer := now];
      if queue != null {
        var _ := DeliverPending(peer, outcomes, false);
      }
    }

    /** One peer's turn in a tick of the delivery loop. */
    method DeliverTo(peer: string, now: Time, outcomes: seq<Outcome>)
      requires queue != null && queue.Valid() && |Of(queue.Lists(), peer)| <= |outcomes|
      modifies queue`pending, queue`files, Arrays(queue.pending)
      ensures queue.Valid() && Arrays(queue.pending) == old(Arrays(queue.pending))
      ensures queue.Lists() == if peer in onlinePeers && now - onlinePeers[peer] <= 5 * 60 * 1000000000
                               then AfterPass(old(queue.Lists()), peer, outcomes, true) else old(queue.Lists())
      ensures peer in onlinePeers && now - onlinePeers[peer] <= 5 * 60 * 1000000000 ==>
                PassDone(old(Of(queue.Lists(), peer)), Of(queue.Lists(), peer), outcomes, true)
    {
      hide Separate, Contents, Mirrors, AfterPass, Of, Pass, PassDone;
      if peer !in onlinePeers || now - onlinePeers[peer] > FRESH {
        return;
      }
      var _ := DeliverPending(peer, outcomes, true);
    }

    /** A whole tick, through the peers with pending messages in whatever order the
        map yields them; `at` is the clock when it comes to a peer. */
    method DeliveryTick(at: string -> Time, outcomes: string -> seq<Outcome>)
      requires queue != null ==> queue.Valid() && Enough(queue.Lists(), outcomes)
      modifies if queue != null then {queue} + Arrays(queue.pending) else {}
      ensures queue != null ==> queue.Valid() && Arrays(queue.pending) == old(Arrays(queue.pending))
      ensures queue != null ==>
                queue.Lists() == Ticked(old(queue.Lists()), {}, onlinePeers, at, outcomes)
      ensures queue != null ==> TickDone(old(queue.Lists()), queue.Lists(), onlinePeers, at, outcomes)
    {
      hide Ticked, TickDone, Enough;
      if queue != null {
        TickIsDone(queue.Lists(), onlinePeers, at, outcomes);
        TickPeers(at, outcomes);
      }
    }

    method TickPeers(at: string -> Time, outcomes: string -> seq<Outcome>)
      requires queue != null && queue.Valid() && Enough(queue.Lists(), outcomes)
      modifies queue`pending, queue`files, Arrays(queue.pending)
      ensures queue.Valid() && Arrays(queue.pending) == old(Arrays(queue.pending))
      ensures queue.Lists() == Ticked(old(queue.Lists()), {}, onlinePeers, at, outcomes)
    {
      hide Separate, Contents, Mirrors, Ticked, PassOver, Seen, AfterPass, Enough, Of;
      ghost var was := queue.Lists();
      var todo := queue.PeersWithPending();
      TickStarts(was, todo, onlinePeers, at, outcomes);
      while todo != {}
        invariant queue.Valid() && Arrays(queue.pending) == old(Arrays(queue.pending))
        invariant todo <= was.Keys
        invariant queue.Lists() == Ticked(was, todo, onlinePeers, at, outcomes)
        decreases todo
      {
        var peer :| peer in todo;
        TickStep(was, todo, peer, onlinePeers, at, outcomes);
        DeliverTo(peer, at(peer), outcomes(peer));
        todo := todo - {peer};
      }
    }

    method HandleCache(key: string, data: Bytes, now: Time)
      requires cache.Valid()
      modifies cache, cache.items, cache.items.nodes
      ensures cache.Valid()
      ensures cache.Contents() ==
              if key != "" && data != []
              then old(LruSpec.AfterPut(cache.capacity, cache.Contents(), LruSpec.CacheItem(key, data, now, cacheTTL)))
              else old(cache.Contents())
    {
      if key != "" && |data| > 0 {
        cache.PutWithTTL(key, data, cacheTTL, now);
      }
    }

    /** Local cache first; on a miss the relays in turn, caching what comes back. */
    method Fetch(key: string, responses: seq<Option<Bytes>>, now: Time, later: Time) returns (data: Option<Bytes>)
      requires cache.Valid()
      modifies cache, cache.items, cache.items.nodes
      ensures cache.Valid()
      ensures var was := old(cache.Contents());
              var local, remote := LruSpec.Lookup(was, key, now), FirstAnswer(responses);
              && data == (if local.Some? then local else remote)
              && cache.Contents() ==
                 if data.None? then LruSpec.AfterGet(was, key, now)
                 else LruRuns.ReadThrough(cache.capacity, was, key, remote.GetOr([]), cacheTTL, now, later)
      ensures LruSpec.Lookup(old(cache.Contents()), key, now).None? ==> Earliest(responses, data)
    {
      hide Earliest;
      FirstAnswerIsEarliest(responses);
      data := cache.Get(key, now);
      if data.Some? {
        return;
      }
      for i := 0 to |responses|
        invariant cache.Valid() && fresh(cache.items.nodes - old(cache.items.nodes)) && cache.items == old(cache.items)
        invariant cache.Contents() == old(LruSpec.AfterGet(cache.Contents(), key, now))
        invariant FirstAnswer(responses) == FirstAnswer(responses[i..])
      {
        if responses[i].Some? && |responses[i].value| > 0 {
          cache.PutWithTTL(key, responses[i].value, cacheTTL, later);
          return responses[i];
        }
      }
      return None;
    }
  }
}
