/** The relay as a state machine: forwards, announces, ticks of the delivery
    loop and cleanups interleave freely. A delivery loop holds a slice header
    taken from Peek and, between reading a message, sending it and telling the
    queue, anything else may happen, to the very array it reads included. */
module RelayProtocol {
  import opened Common
  import opened QueueSpec

  /** A backing array: the cells written so far, and how many there are in all. */
  datatype Backing = Backing(cells: seq<Message>, capacity: nat)

  datatype Header = Header(arr: nat, len: nat)

  datatype Phase = Ready | Holding(msg: Message) | Sent(msg: Message, ok: bool)

  /** A delivery loop; `marks` tells a tick of deliveryLoop from an announce. */
  datatype Loop = Loop(peer: string, header: Header, next: nat, phase: Phase, marks: bool)

  /** Why Cleanup took a message: its state and the time. */
  datatype Drop = Drop(msg: Message, at: Time)

  /** The last four components are history: which messages were accepted, whose
      sends succeeded, how many failed sends were marked, what Cleanup dropped. */
  datatype State = State(heap: map<nat, Backing>, nextArr: nat, pending: map<string, Header>,
                         loops: map<nat, Loop>, nextLoop: nat, now: Time,
                         accepted: map<string, Message>, delivered: set<string>,
                         failures: map<string, nat>, dropped: map<string, Drop>)

  datatype Event =
    | Forward(msg: Message, stamp: string, direct: bool, spare: nat)
    | StartLoop(peer: string, marks: bool)
    | Read(loop: nat)
    | Send(loop: nat, ok: bool)
    | Settle(loop: nat)
    | CleanupPeer(peer: string, spare: nat)
    | Tick(to: Time)
    | Restart

  const INIT: State := State(map[], 0, map[], map[], 0, 0, map[], {}, map[], map[])

  // ---------- memory ----------

  /** Every slice lies within its array, and no two peers share one. */
  ghost predicate Shaped(s: State) {
    && (forall a :: a in s.heap ==> a < s.nextArr && |s.heap[a].cells| <= s.heap[a].capacity)
    && (forall p :: p in s.pending ==>
          s.pending[p].arr in s.heap && s.pending[p].len <= |s.heap[s.pending[p].arr].cells|)
    && (forall p, q :: p in s.pending && q in s.pending && p != q ==> s.pending[p].arr != s.pending[q].arr)
    && (forall l :: l in s.loops ==> l < s.nextLoop && LoopShaped(s.heap, s.loops[l]))
  }

  /** A loop stays within its slice, and the slice within its array. */
  ghost predicate LoopShaped(heap: map<nat, Backing>, loop: Loop) {
    && loop.next <= loop.header.len
    && (loop.header.len > 0 ==> loop.header.arr in heap && loop.header.len <= |heap[loop.header.arr].cells|)
  }

  ghost function BufferOf(s: State, p: string): (b: Buffer)
    requires Shaped(s) && p in s.pending
    ensures b.len <= |b.cells|
  {
    Buffer(s.heap[s.pending[p].arr].cells, s.pending[p].len)
  }

  /** The messages pending for a peer. */
  ghost function Live(s: State, p: string): seq<Message>
    requires Shaped(s)
  {
    if p in s.pending then BufferOf(s, p).Live() else []
  }

  /** The peer's slice after an operation in place on its array. */
  ghost function InPlace(s: State, p: string, b: Buffer): State
    requires Shaped(s) && p in s.pending
  {
    var h := s.pending[p];
    s.(heap := s.heap[h.arr := s.heap[h.arr].(cells := b.cells)], pending := s.pending[p := h.(len := b.len)])
  }

  /** The peer's slice rebound to a new array with `spare` cells to come. */
  ghost function Rebound(s: State, p: string, ms: seq<Message>, spare: nat): State {
    s.(heap := s.heap[s.nextArr := Backing(ms, |ms| + spare)], nextArr := s.nextArr + 1,
       pending := s.pending[p := Header(s.nextArr, |ms|)])
  }

  /** append: in place while there is room, else into a new array. */
  ghost function Appended(s: State, p: string, m: Message, spare: nat): State
    requires Shaped(s)
  {
    if p in s.pending && s.pending[p].len < s.heap[s.pending[p].arr].capacity then
      InPlace(s, p, BufferOf(s, p).Push(m))
    else Rebound(s, p, Live(s, p) + [m], spare)
  }

  ghost function Removed(s: State, p: string, id: string): State
    requires Shaped(s)
  {
    if p in s.pending then InPlace(s, p, BufferOf(s, p).Remove(id)) else s
  }

  ghost function MarkedIn(s: State, p: string, id: string): State
    requires Shaped(s)
  {
    if p in s.pending then InPlace(s, p, BufferOf(s, p).Mark(id, s.now)) else s
  }

  // ---------- steps ----------

  ghost function DropAll(dropped: map<string, Drop>, ms: seq<Message>, now: Time): map<string, Drop>
    decreases |ms|
  {
    if ms == [] then dropped
    else if Keeps(ms[0], now) then DropAll(dropped, ms[1..], now)
    else DropAll(dropped[ms[0].id := Drop(ms[0], now)], ms[1..], now)
  }

  ghost function Failures(s: State, id: string): nat { if id in s.failures then s.failures[id] else 0 }

  /** A forwarded message is sent directly or queued. */
  ghost function Forwarded(s: State, msg: Message, stamp: string, direct: bool, spare: nat): State
    requires Shaped(s)
  {
    var m := Stamped(msg, stamp, s.now);
    var s' := s.(accepted := s.accepted[m.id := m]);
    if direct then s'.(delivered := s.delivered + {m.id}) else Appended(s', m.to, m, spare)
  }

  /** The message that the event forwards, if any, bears an ID never used before. */
  ghost predicate NewId(s: State, e: Event) {
    e.Forward? ==> Stamped(e.msg, e.stamp, s.now).id !in s.accepted
  }

  ghost function Started(s: State, peer: string, marks: bool): State {
    var header := if peer in s.pending then s.pending[peer] else Header(0, 0);
    s.(loops := s.loops[s.nextLoop := Loop(peer, header, 0, Ready, marks)], nextLoop := s.nextLoop + 1)
  }

  /** What the queue does when a loop reports its send. */
  ghost function Settled(s: State, loop: Loop, msg: Message, ok: bool): State
    requires Shaped(s)
  {
    if ok then Removed(s, loop.peer, msg.id)
    else if loop.marks then
      MarkedIn(s, loop.peer, msg.id).(failures := s.failures[msg.id := Failures(s, msg.id) + 1])
    else s
  }

  ghost function Cleaned(s: State, peer: string, spare: nat): State
    requires Shaped(s)
  {
    if peer !in s.pending then s
    else
      var kept := Kept(Live(s, peer), s.now);
      var s' := s.(dropped := DropAll(s.dropped, Live(s, peer), s.now));
      if kept == [] then s'.(pending := s.pending - {peer}) else Rebound(s', peer, kept, spare)
  }

  /** A restart loses the loops and reloads every nonempty list from its file,
      which holds exactly the pending messages. With no loop left to read them,
      the old arrays stand for the new ones. */
  ghost function Restarted(s: State): State {
    s.(loops := map[], pending := map p | p in s.pending && s.pending[p].len > 0 :: s.pending[p])
  }

  ghost function Step(s: State, e: Event): State
    requires Shaped(s)
  {
    match e
    case Forward(msg, stamp, direct, spare) => Forwarded(s, msg, stamp, direct, spare)
    case StartLoop(peer, marks) => Started(s, peer, marks)
    case Read(l) =>
      if l in s.loops && s.loops[l].phase.Ready? && s.loops[l].next < s.loops[l].header.len then
        var loop := s.loops[l];
        var msg := s.heap[loop.header.arr].cells[loop.next];
        s.(loops := s.loops[l := loop.(next := loop.next + 1, phase := Holding(msg))])
      else s
    case Send(l, ok) =>
      if l in s.loops && s.loops[l].phase.Holding? then
        var loop := s.loops[l];
        var id := loop.phase.msg.id;
        s.(loops := s.loops[l := loop.(phase := Sent(loop.phase.msg, ok))],
           delivered := if ok then s.delivered + {id} else s.delivered)
      else s
    case Settle(l) =>
      if l in s.loops && s.loops[l].phase.Sent? then
        var loop := s.loops[l];
        var s' := s.(loops := s.loops[l := loop.(phase := Ready)]);
        Settled(s', loop, loop.phase.msg, loop.phase.ok)
      else s
    case CleanupPeer(peer, spare) => Cleaned(s, peer, spare)
    case Tick(to) => if s.now <= to then s.(now := to) else s
    case Restart => Restarted(s)
  }

  // ---------- what every step keeps ----------

  /** A copy of an accepted message; only the retry bookkeeping may differ. */
  ghost predicate Genuine(s: State, m: Message) {
    m.id in s.accepted && m.(attempts := 0, lastAttempt := 0) == s.accepted[m.id].(attempts := 0, lastAttempt := 0)
  }

  /** Every cell of every array, stale ones included, is such a copy. */
  ghost predicate CellsGenuine(s: State) {
    forall a, i :: a in s.heap && 0 <= i < |s.heap[a].cells| ==> Genuine(s, s.heap[a].cells[i])
  }

  ghost predicate ListOk(s: State, p: string, ms: seq<Message>) {
    && (forall m :: m in ms ==> Genuine(s, m) && m.to == p && m.attempts <= Failures(s, m.id))
    && DistinctIds(ms)
  }

  ghost predicate ListsOk(s: State)
    requires Shaped(s)
  {
    forall p :: ListOk(s, p, Live(s, p))
  }

  ghost predicate LoopsOk(s: State) {
    forall l :: l in s.loops ==>
      match s.loops[l].phase
      case Ready => true
      case Holding(msg) => Genuine(s, msg)
      case Sent(msg, ok) => Genuine(s, msg) && (ok ==> msg.id in s.delivered)
  }

  /** The message is in its addressee's list. */
  ghost predicate Pending(s: State, id: string)
    requires Shaped(s) && id in s.accepted
  {
    exists m :: m in Live(s, s.accepted[id].to) && m.id == id
  }

  /** Each accepted message has been delivered, is pending, or was dropped. */
  ghost predicate Conserved(s: State)
    requires Shaped(s)
  {
    forall id :: id in s.accepted ==> id in s.delivered || id in s.dropped || Pending(s, id)
  }

  /** Cleanup drops only what has outlived its time to live or has failed
      MAX_RETRY marked sends. */
  ghost predicate DropsJustified(s: State) {
    forall id :: id in s.dropped ==>
      var d := s.dropped[id];
      && d.msg.id == id && Genuine(s, d.msg)
      && (d.at >= s.accepted[id].createdAt + DEFAULT_TTL || Failures(s, id) >= MAX_RETRY)
  }

  ghost predicate AcceptedOk(s: State) {
    && (forall id :: id in s.accepted ==>
          s.accepted[id].id == id && s.accepted[id].expiresAt == s.accepted[id].createdAt + DEFAULT_TTL)
    && s.delivered <= s.accepted.Keys
  }

  ghost predicate Inv(s: State) {
    && Shaped(s) && CellsGenuine(s) && ListsOk(s) && LoopsOk(s)
    && Conserved(s) && DropsJustified(s) && AcceptedOk(s)
  }

  // ---------- shape ----------

  /** History has no part in the shape of memory. */
  lemma HistoryShape(s: State, s': State)
    requires Shaped(s)
    requires s'.heap == s.heap && s'.nextArr == s.nextArr && s'.pending == s.pending
    requires s'.loops == s.loops && s'.nextLoop == s.nextLoop
    ensures Shaped(s') && forall p :: Live(s', p) == Live(s, p)
  {
  }

  lemma InPlaceShape(s: State, p: string, b: Buffer)
    requires Shaped(s) && p in s.pending && b.len <= |b.cells|
    requires |BufferOf(s, p).cells| <= |b.cells| <= s.heap[s.pending[p].arr].capacity
    ensures var s' := InPlace(s, p, b);
            && Shaped(s') && Live(s', p) == b.Live()
            && forall q :: q != p ==> Live(s', q) == Live(s, q)
  {
  }

  lemma ReboundShape(s: State, p: string, ms: seq<Message>, spare: nat)
    requires Shaped(s)
    ensures var s' := Rebound(s, p, ms, spare);
            && Shaped(s') && Live(s', p) == ms
            && forall q :: q != p ==> Live(s', q) == Live(s, q)
  {
  }

  lemma AppendedShape(s: State, p: string, m: Message, spare: nat)
    requires Shaped(s)
    ensures var s' := Appended(s, p, m, spare);
            && Shaped(s') && Live(s', p) == Live(s, p) + [m]
            && forall q :: q != p ==> Live(s', q) == Live(s, q)
  {
    if p in s.pending && s.pending[p].len < s.heap[s.pending[p].arr].capacity {
      InPlaceShape(s, p, BufferOf(s, p).Push(m));
    } else {
      ReboundShape(s, p, Live(s, p) + [m], spare);
    }
  }

  lemma ForwardShape(s: State, msg: Message, stamp: string, direct: bool, spare: nat)
    requires Shaped(s)
    ensures var m, s' := Stamped(msg, stamp, s.now), Forwarded(s, msg, stamp, direct, spare);
            && Shaped(s')
            && Live(s', m.to) == Live(s, m.to) + (if direct then [] else [m])
            && forall q :: q != m.to ==> Live(s', q) == Live(s, q)
  {
    var m := Stamped(msg, stamp, s.now);
    var s1 := s.(accepted := s.accepted[m.id := m]);
    hide Shaped, Appended;
    HistoryShape(s, s1);
    HistoryShape(s, s1.(delivered := s.delivered + {m.id}));
    AppendedShape(s1, m.to, m, spare);
    assert Live(s, m.to) + [] == Live(s, m.to);
  }

  lemma SettledShape(s: State, loop: Loop, msg: Message, ok: bool)
    requires Shaped(s)
    ensures var s' := Settled(s, loop, msg, ok);
            && Shaped(s')
            && Live(s', loop.peer) ==
               (if ok then RemoveFirst(Live(s, loop.peer), msg.id)
                else if loop.marks then MarkFirst(Live(s, loop.peer), msg.id, s.now)
                else Live(s, loop.peer))
            && forall q :: q != loop.peer ==> Live(s', q) == Live(s, q)
  {
    hide Shaped, Removed, MarkedIn, RemoveFirst, MarkFirst, Live;
    RemovedShape(s, loop.peer, msg.id);
    MarkedShape(s, loop.peer, msg.id);
    HistoryShape(MarkedIn(s, loop.peer, msg.id),
                 MarkedIn(s, loop.peer, msg.id).(failures := s.failures[msg.id := Failures(s, msg.id) + 1]));
  }

  lemma RemovedShape(s: State, p: string, id: string)
    requires Shaped(s)
    ensures var s' := Removed(s, p, id);
            && Shaped(s') && Live(s', p) == RemoveFirst(Live(s, p), id)
            && forall q :: q != p ==> Live(s', q) == Live(s, q)
  {
    if p in s.pending {
      InPlaceShape(s, p, BufferOf(s, p).Remove(id));
    }
  }

  lemma MarkedShape(s: State, p: string, id: string)
    requires Shaped(s)
    ensures var s' := MarkedIn(s, p, id);
            && Shaped(s') && Live(s', p) == MarkFirst(Live(s, p), id, s.now)
            && forall q :: q != p ==> Live(s', q) == Live(s, q)
  {
    if p in s.pending {
      InPlaceShape(s, p, BufferOf(s, p).Mark(id, s.now));
    }
  }

  lemma CleanedShape(s: State, peer: string, spare: nat)
    requires Shaped(s)
    ensures var s' := Cleaned(s, peer, spare);
            && Shaped(s') && Live(s', peer) == Kept(Live(s, peer), s.now)
            && forall q :: q != peer ==> Live(s', q) == Live(s, q)
  {
    var s1 := s.(dropped := DropAll(s.dropped, Live(s, peer), s.now));
    assert forall p :: Live(s1, p) == Live(s, p);
    ReboundShape(s1, peer, Kept(Live(s, peer), s.now), spare);
  }

  lemma RestartedShape(s: State)
    requires Shaped(s)
    ensures Shaped(Restarted(s)) && forall q :: Live(Restarted(s), q) == Live(s, q)
  {
  }
}
