/** No interleaving of the relay's steps loses a message. */
module RelayConservation {
  import opened Common
  import opened QueueSpec
  import opened RelayProtocol

  // ---------- cells stay genuine ----------

  /** `t` has accepted all that `s` has. */
  ghost predicate Extends(t: State, s: State) {
    forall id :: id in s.accepted ==> id in t.accepted && t.accepted[id] == s.accepted[id]
  }

  lemma InPlaceGenuine(s: State, p: string, b: Buffer)
    requires Shaped(s) && CellsGenuine(s) && p in s.pending
    requires forall i :: 0 <= i < |b.cells| ==> Genuine(s, b.cells[i])
    ensures CellsGenuine(InPlace(s, p, b))
  {
  }

  lemma ReboundGenuine(s: State, p: string, ms: seq<Message>, spare: nat)
    requires CellsGenuine(s) && forall i :: 0 <= i < |ms| ==> Genuine(s, ms[i])
    ensures CellsGenuine(Rebound(s, p, ms, spare))
  {
  }

  lemma LiveGenuine(s: State, p: string)
    requires Shaped(s) && CellsGenuine(s)
    ensures forall i :: 0 <= i < |Live(s, p)| ==> Genuine(s, Live(s, p)[i])
  {
  }

  lemma AppendedGenuine(s: State, p: string, m: Message, spare: nat)
    requires Shaped(s) && CellsGenuine(s) && Genuine(s, m)
    ensures CellsGenuine(Appended(s, p, m, spare))
  {
    LiveGenuine(s, p);
    if p in s.pending && s.pending[p].len < s.heap[s.pending[p].arr].capacity {
      var b := BufferOf(s, p);
      assert forall i :: 0 <= i < |b.cells| ==> Genuine(s, b.cells[i]);
      InPlaceGenuine(s, p, b.Push(m));
    } else {
      ReboundGenuine(s, p, Live(s, p) + [m], spare);
    }
  }

  lemma RemovedGenuine(s: State, p: string, id: string)
    requires Shaped(s) && CellsGenuine(s)
    ensures CellsGenuine(Removed(s, p, id))
  {
    if p in s.pending {
      var b := BufferOf(s, p);
      assert forall i :: 0 <= i < |b.cells| ==> Genuine(s, b.cells[i]);
      hide Shaped, CellsGenuine, Genuine, Buffer.Remove, IndexOf;
      RemoveMovesCells(b, id);
      InPlaceGenuine(s, p, b.Remove(id));
    }
  }

  lemma MarkedGenuine(s: State, p: string, id: string)
    requires Shaped(s) && CellsGenuine(s)
    ensures CellsGenuine(MarkedIn(s, p, id))
  {
  }

  lemma HistoryGenuine(s: State, t: State)
    requires CellsGenuine(s) && t.heap == s.heap && Extends(t, s)
    ensures CellsGenuine(t)
  {
  }

  /** Loops that go on, and recorded drops, stay sound as history grows. */
  lemma HistoryKeeps(s: State, t: State)
    requires LoopsOk(s) && DropsJustified(s) && Extends(t, s)
    requires s.delivered <= t.delivered && t.dropped == s.dropped
    requires forall id :: id in s.dropped ==> Failures(t, id) >= Failures(s, id)
    requires forall l :: l in t.loops ==> t.loops[l].phase.Ready? || (l in s.loops && t.loops[l] == s.loops[l])
    ensures LoopsOk(t) && DropsJustified(t)
  {
  }

  // ---------- each step keeps the invariant ----------

  lemma ForwardKeeps(s: State, msg: Message, stamp: string, direct: bool, spare: nat)
    requires Inv(s) && Stamped(msg, stamp, s.now).id !in s.accepted
    ensures Inv(Forwarded(s, msg, stamp, direct, spare))
  {
    hide Shaped, CellsGenuine, ListsOk, LoopsOk, Conserved, DropsJustified, AcceptedOk, Appended, Live;
    var m, t := Stamped(msg, stamp, s.now), Forwarded(s, msg, stamp, direct, spare);
    ForwardShape(s, msg, stamp, direct, spare);
    ForwardKeepsCells(s, m, direct, spare);
    AppendedHistory(s.(accepted := s.accepted[m.id := m]), m.to, m, spare);
    ForwardKeepsLists(s, t, m, direct);
    ForwardConserves(s, t, m, direct);
    HistoryKeeps(s, t);
    ForwardAccepts(s, t, m);
  }

  lemma ForwardAccepts(s: State, t: State, m: Message)
    requires AcceptedOk(s) && t.accepted == s.accepted[m.id := m]
    requires m.expiresAt == m.createdAt + DEFAULT_TTL && t.delivered <= s.delivered + {m.id}
    ensures AcceptedOk(t)
  {
  }

  lemma AppendedHistory(s: State, p: string, m: Message, spare: nat)
    requires Shaped(s)
    ensures var t := Appended(s, p, m, spare);
            t.(heap := s.heap, nextArr := s.nextArr, pending := s.pending) == s
  {
  }

  lemma ForwardKeepsCells(s: State, m: Message, direct: bool, spare: nat)
    requires Shaped(s) && CellsGenuine(s) && m.id !in s.accepted
    ensures var s1 := s.(accepted := s.accepted[m.id := m]);
            && Shaped(s1)
            && CellsGenuine(if direct then s1.(delivered := s.delivered + {m.id}) else Appended(s1, m.to, m, spare))
  {
    hide Appended;
    var s1 := s.(accepted := s.accepted[m.id := m]);
    HistoryShape(s, s1);
    HistoryGenuine(s, s1);
    AppendedGenuine(s1, m.to, m, spare);
    HistoryGenuine(s1, s1.(delivered := s.delivered + {m.id}));
  }

  lemma ForwardKeepsLists(s: State, t: State, m: Message, direct: bool)
    requires Shaped(s) && ListsOk(s) && Shaped(t) && m.id !in s.accepted && t.accepted == s.accepted[m.id := m]
    requires t.failures == s.failures && m.attempts == 0
    requires Live(t, m.to) == Live(s, m.to) + if direct then [] else [m]
    requires forall q :: q != m.to ==> Live(t, q) == Live(s, q)
    ensures ListsOk(t)
  {
    hide Shaped, Live;
    forall p ensures ListOk(t, p, Live(t, p)) {
      assert ListOk(s, p, Live(s, p));
      ListOkLater(s, t, p, Live(s, p));
      ListOkGrows(s, t, p, Live(s, p), m);
      assert Live(s, p) + [] == Live(s, p);
    }
  }

  lemma ListOkGrows(s: State, t: State, p: string, ms: seq<Message>, m: Message)
    requires ListOk(s, p, ms) && ListOk(t, p, ms) && m.id !in s.accepted
    requires m.id in t.accepted && t.accepted[m.id] == m && m.attempts == 0
    ensures m.to == p ==> ListOk(t, p, ms + [m])
  {
  }

  lemma ListOkLater(s: State, t: State, p: string, ms: seq<Message>)
    requires ListOk(s, p, ms) && Extends(t, s)
    requires forall id :: id in s.accepted ==> Failures(t, id) >= Failures(s, id)
    ensures ListOk(t, p, ms)
  {
  }

  lemma ForwardConserves(s: State, t: State, m: Message, direct: bool)
    requires Shaped(s) && Conserved(s) && Shaped(t) && m.id !in s.accepted && t.accepted == s.accepted[m.id := m]
    requires t.delivered == s.delivered + (if direct then {m.id} else {}) && t.dropped == s.dropped
    requires Live(t, m.to) == Live(s, m.to) + if direct then [] else [m]
    requires forall q :: q != m.to ==> Live(t, q) == Live(s, q)
    ensures Conserved(t)
  {
  }

  lemma LoopStepKeeps(s: State, e: Event)
    requires Inv(s) && (e.StartLoop? || e.Read? || e.Send?)
    ensures Inv(Step(s, e))
  {
    hide Shaped, CellsGenuine, ListsOk, LoopsOk, Conserved, DropsJustified, AcceptedOk, Live;
    var t := Step(s, e);
    LoopStepShape(s, e);
    LoopStepLoops(s, e);
    HistoryGenuine(s, t);
    AcceptedStays(s, t);
    ListsStay(s, t);
    StaysPending(s, t);
    HistoryDrops(s, t);
  }

  lemma HistoryDrops(s: State, t: State)
    requires DropsJustified(s) && t.accepted == s.accepted && t.dropped == s.dropped && t.failures == s.failures
    ensures DropsJustified(t)
  {
  }

  lemma ListsStay(s: State, t: State)
    requires Shaped(s) && Shaped(t) && ListsOk(s) && forall p :: Live(t, p) == Live(s, p)
    requires t.accepted == s.accepted && t.failures == s.failures
    ensures ListsOk(t)
  {
  }

  /** What was pending in `s` is pending in `t`, so conservation carries over. */
  lemma StaysPending(s: State, t: State)
    requires Shaped(s) && Shaped(t) && Conserved(s) && forall p :: Live(t, p) == Live(s, p)
    requires t.accepted == s.accepted && s.delivered <= t.delivered && t.dropped == s.dropped
    ensures Conserved(t)
  {
  }

  lemma LoopStepLoops(s: State, e: Event)
    requires Inv(s) && (e.StartLoop? || e.Read? || e.Send?)
    ensures LoopsOk(Step(s, e)) && Step(s, e).delivered <= s.delivered + s.accepted.Keys
  {
    if e.Read? && e.loop in s.loops && s.loops[e.loop].next < s.loops[e.loop].header.len {
      assert Genuine(s, s.heap[s.loops[e.loop].header.arr].cells[s.loops[e.loop].next]);
    }
  }

  lemma LoopStepShape(s: State, e: Event)
    requires Shaped(s) && (e.StartLoop? || e.Read? || e.Send?)
    ensures Shaped(Step(s, e)) && forall p :: Live(Step(s, e), p) == Live(s, p)
  {
    LoopsAreShaped(s);
    hide Shaped, Forwarded, Settled, Cleaned, Restarted, Live;
    LoopsShape(s, Step(s, e));
  }

  lemma LoopsAreShaped(s: State)
    requires Shaped(s)
    ensures forall l :: l in s.loops ==> l < s.nextLoop && LoopShaped(s.heap, s.loops[l])
    ensures forall p :: p in s.pending ==>
              s.pending[p].arr in s.heap && s.pending[p].len <= |s.heap[s.pending[p].arr].cells|
  {
  }

  /** Loops have no part in the shape of memory, as long as each stays within
      the slice it was started on. */
  lemma LoopsShape(s: State, t: State)
    requires Shaped(s) && t.heap == s.heap && t.nextArr == s.nextArr && t.pending == s.pending
    requires forall l :: l in t.loops ==> l < t.nextLoop && LoopShaped(s.heap, t.loops[l])
    ensures Shaped(t) && forall p :: Live(t, p) == Live(s, p)
  {
  }

  /** A loop that removes a message has had it delivered; a failed one only marks it. */
  lemma SettleKeeps(s: State, l: nat)
    requires Inv(s) && l in s.loops && s.loops[l].phase.Sent?
    ensures Inv(Step(s, Settle(l)))
  {
    hide Shaped, CellsGenuine, ListsOk, Conserved, DropsJustified, AcceptedOk, Settled, Live, RemoveFirst, MarkFirst;
    var loop := s.loops[l];
    var msg, ok := loop.phase.msg, loop.phase.ok;
    var s1 := s.(loops := s.loops[l := loop.(phase := Ready)]);
    ReadyShape(s, l);
    var t := Settled(s1, loop, msg, ok);
    SettledShape(s1, loop, msg, ok);
    HistoryGenuine(s, s1);
    SettledGenuine(s1, loop, msg, ok);
    SettledHistory(s1, loop, msg, ok);
    SettleKeepsLists(s, t, loop, msg, ok);
    SettleConserves(s, t, loop, msg, ok);
    HistoryKeeps(s, t);
    AcceptedStays(s, t);
  }

  lemma AcceptedStays(s: State, t: State)
    requires AcceptedOk(s) && t.accepted == s.accepted && t.delivered <= s.delivered + s.accepted.Keys
    ensures AcceptedOk(t)
  {
  }

  lemma ReadyShape(s: State, l: nat)
    requires Shaped(s) && l in s.loops
    ensures var s1 := s.(loops := s.loops[l := s.loops[l].(phase := Ready)]);
            Shaped(s1) && forall p :: Live(s1, p) == Live(s, p)
  {
  }

  lemma SettledGenuine(s: State, loop: Loop, msg: Message, ok: bool)
    requires Shaped(s) && CellsGenuine(s)
    ensures CellsGenuine(Settled(s, loop, msg, ok))
  {
    hide Removed, MarkedIn, Shaped, CellsGenuine;
    RemovedGenuine(s, loop.peer, msg.id);
    MarkedGenuine(s, loop.peer, msg.id);
    var marked := MarkedIn(s, loop.peer, msg.id);
    HistoryGenuine(marked, marked.(failures := s.failures[msg.id := Failures(s, msg.id) + 1]));
  }

  lemma SettledHistory(s: State, loop: Loop, msg: Message, ok: bool)
    requires Shaped(s)
    ensures var t := Settled(s, loop, msg, ok);
            t.(heap := s.heap, pending := s.pending) ==
            if !ok && loop.marks then s.(failures := s.failures[msg.id := Failures(s, msg.id) + 1]) else s
  {
  }

  lemma SettleKeepsLists(s: State, t: State, loop: Loop, msg: Message, ok: bool)
    requires Shaped(s) && ListsOk(s) && Shaped(t) && t.accepted == s.accepted
    requires t.failures == if !ok && loop.marks then s.failures[msg.id := Failures(s, msg.id) + 1] else s.failures
    requires Live(t, loop.peer) == if ok then RemoveFirst(Live(s, loop.peer), msg.id)
                                   else if loop.marks then MarkFirst(Live(s, loop.peer), msg.id, s.now)
                                   else Live(s, loop.peer)
    requires forall q :: q != loop.peer ==> Live(t, q) == Live(s, q)
    ensures ListsOk(t)
  {
    hide Shaped, Live, RemoveFirst, MarkFirst;
    forall p ensures ListOk(t, p, Live(t, p)) {
      assert ListOk(s, p, Live(s, p));
      ListOkLater(s, t, p, Live(s, p));
      if p == loop.peer {
        ListOkSettled(s, t, p, Live(s, p), msg.id, ok, loop.marks);
      }
    }
  }

  lemma ListOkSettled(s: State, t: State, p: string, ms: seq<Message>, id: string, ok: bool, marks: bool)
    requires ListOk(s, p, ms) && ListOk(t, p, ms) && t.accepted == s.accepted
    requires !ok && marks ==> Failures(t, id) == Failures(s, id) + 1
    ensures ok ==> ListOk(t, p, RemoveFirst(ms, id))
    ensures !ok && marks ==> ListOk(t, p, MarkFirst(ms, id, s.now))
  {
    RemoveFirstMembers(ms, id);
    MarkFirstMembers(ms, id, s.now);
    if !ok && marks {
      hide MarkFirst;
      var marked := MarkFirst(ms, id, s.now);
      forall m | m in marked ensures Genuine(t, m) && m.to == p && m.attempts <= Failures(t, m.id) {
        var i :| 0 <= i < |marked| && marked[i] == m;
        assert ms[i] in ms;
      }
    }
  }

  lemma SettleConserves(s: State, t: State, loop: Loop, msg: Message, ok: bool)
    requires Shaped(s) && ListsOk(s) && Conserved(s) && Shaped(t)
    requires t.accepted == s.accepted && t.delivered == s.delivered && t.dropped == s.dropped
    requires ok ==> msg.id in s.delivered
    requires Live(t, loop.peer) == if ok then RemoveFirst(Live(s, loop.peer), msg.id)
                                   else if loop.marks then MarkFirst(Live(s, loop.peer), msg.id, s.now)
                                   else Live(s, loop.peer)
    requires forall q :: q != loop.peer ==> Live(t, q) == Live(s, q)
    ensures Conserved(t)
  {
    hide Shaped, Live;
    var ms := Live(s, loop.peer);
    assert ListOk(s, loop.peer, ms);
    RemoveFirstMembers(ms, msg.id);
    MarkFirstMembers(ms, msg.id, s.now);
    hide RemoveFirst, MarkFirst;
    forall id | id in t.accepted ensures id in t.delivered || id in t.dropped || Pending(t, id) {
      if Pending(s, id) && !(ok && id == msg.id) {
        var p := s.accepted[id].to;
        var x :| x in Live(s, p) && x.id == id;
        if p == loop.peer && !ok && loop.marks {
          var i :| 0 <= i < |ms| && ms[i] == x;
          assert Live(t, p)[i].id == id;
        } else {
          assert x in Live(t, p);
        }
      }
    }
  }

  /** DropAll records exactly the messages that are not kept, with the time. */
  lemma {:induction false} DropAllRecords(dropped: map<string, Drop>, ms: seq<Message>, now: Time)
    requires DistinctIds(ms)
    ensures forall id :: id in DropAll(dropped, ms, now) ==>
              || (id in dropped && DropAll(dropped, ms, now)[id] == dropped[id])
              || exists m :: m in ms && !Keeps(m, now) && m.id == id && DropAll(dropped, ms, now)[id] == Drop(m, now)
    ensures forall id :: id in dropped ==> id in DropAll(dropped, ms, now)
    ensures forall m :: m in ms && !Keeps(m, now) ==> m.id in DropAll(dropped, ms, now)
    decreases |ms|
  {
    if ms != [] {
      var dropped' := if Keeps(ms[0], now) then dropped else dropped[ms[0].id := Drop(ms[0], now)];
      DropAllRecords(dropped', ms[1..], now);
      var r := DropAll(dropped, ms, now);
      assert ms[0] in ms;
      forall id | id in r && !(id in dropped && r[id] == dropped[id])
        ensures exists m :: m in ms && !Keeps(m, now) && m.id == id && r[id] == Drop(m, now)
      {
        if id in dropped' && r[id] == dropped'[id] {
          assert !Keeps(ms[0], now) && ms[0].id == id && r[id] == Drop(ms[0], now);
        } else {
          var m :| m in ms[1..] && !Keeps(m, now) && m.id == id && r[id] == Drop(m, now);
          assert m in ms;
        }
      }
    }
  }

  lemma CleanupKeeps(s: State, peer: string, spare: nat)
    requires Inv(s)
    ensures Inv(Cleaned(s, peer, spare))
  {
    hide Shaped, CellsGenuine, ListsOk, LoopsOk, Conserved, DropsJustified, AcceptedOk, Live, Kept, DropAll, Cleaned;
    var t := Cleaned(s, peer, spare);
    CleanedShape(s, peer, spare);
    CleanedGenuine(s, peer, spare);
    CleanedHistory(s, peer, spare);
    CleanedLists(s, t, peer);
    CleanupConserves(s, t, peer);
    CleanupJustified(s, t, peer);
    HistoryLoops(s, t);
    AcceptedStays(s, t);
  }

  lemma CleanedHistory(s: State, peer: string, spare: nat)
    requires Shaped(s)
    ensures var t := Cleaned(s, peer, spare);
            && t.loops == s.loops && t.accepted == s.accepted && t.delivered == s.delivered && t.failures == s.failures
            && t.dropped == DropAll(s.dropped, Live(s, peer), s.now)
  {
    hide Shaped, Kept, BufferOf;
  }

  lemma CleanedLists(s: State, t: State, peer: string)
    requires Shaped(s) && Shaped(t) && ListsOk(s) && t.accepted == s.accepted && t.failures == s.failures
    requires Live(t, peer) == Kept(Live(s, peer), s.now)
    requires forall q :: q != peer ==> Live(t, q) == Live(s, q)
    ensures ListsOk(t)
  {
    hide Shaped, Live, Kept;
    KeptFrom(Live(s, peer), s.now);
    forall p ensures ListOk(t, p, Live(t, p)) {
      assert ListOk(s, p, Live(s, p));
      KeptMembers(Live(s, peer), s.now);
    }
  }

  lemma HistoryLoops(s: State, t: State)
    requires LoopsOk(s) && t.loops == s.loops && t.accepted == s.accepted && t.delivered == s.delivered
    ensures LoopsOk(t)
  {
  }

  lemma CleanedGenuine(s: State, peer: string, spare: nat)
    requires Shaped(s) && CellsGenuine(s)
    ensures CellsGenuine(Cleaned(s, peer, spare))
  {
    if peer in s.pending {
      var ms := Live(s, peer);
      var kept := Kept(ms, s.now);
      var s1 := s.(dropped := DropAll(s.dropped, ms, s.now));
      LiveGenuine(s, peer);
      KeptFrom(ms, s.now);
      HistoryGenuine(s, s1);
      forall i | 0 <= i < |kept| ensures Genuine(s1, kept[i]) { assert kept[i] in ms; }
      ReboundGenuine(s1, peer, kept, spare);
      HistoryGenuine(s1, s1.(pending := s.pending - {peer}));
    }
  }

  lemma KeptFrom(ms: seq<Message>, now: Time)
    ensures forall m :: m in Kept(ms, now) ==> m in ms
  {
  }

  lemma CleanupConserves(s: State, t: State, peer: string)
    requires Shaped(s) && ListsOk(s) && Conserved(s) && Shaped(t)
    requires t.accepted == s.accepted && t.delivered == s.delivered
    requires t.dropped == DropAll(s.dropped, Live(s, peer), s.now)
    requires Live(t, peer) == Kept(Live(s, peer), s.now)
    requires forall q :: q != peer ==> Live(t, q) == Live(s, q)
    ensures Conserved(t)
  {
    hide Shaped, Live, Kept;
    assert ListOk(s, peer, Live(s, peer));
    KeptMembers(Live(s, peer), s.now);
    DropAllRecords(s.dropped, Live(s, peer), s.now);
    forall id | id in t.accepted ensures id in t.delivered || id in t.dropped || Pending(t, id) {
      if Pending(s, id) {
        var x :| x in Live(s, s.accepted[id].to) && x.id == id;
        if s.accepted[id].to != peer || Keeps(x, s.now) {
          assert x in Live(t, t.accepted[id].to);
        }
      }
    }
  }

  lemma CleanupJustified(s: State, t: State, peer: string)
    requires Shaped(s) && ListsOk(s) && DropsJustified(s) && AcceptedOk(s)
    requires t.accepted == s.accepted && t.failures == s.failures
    requires t.dropped == DropAll(s.dropped, Live(s, peer), s.now)
    ensures DropsJustified(t)
  {
    hide Shaped, Conserved, Live;
    var ms := Live(s, peer);
    assert ListOk(s, peer, ms);
    DropAllRecords(s.dropped, ms, s.now);
    forall id | id in t.dropped
      ensures var d := t.dropped[id];
              && d.msg.id == id && Genuine(t, d.msg)
              && (d.at >= t.accepted[id].createdAt + DEFAULT_TTL || Failures(t, id) >= MAX_RETRY)
    {
      if !(id in s.dropped && t.dropped[id] == s.dropped[id]) {
        var m :| m in ms && !Keeps(m, s.now) && m.id == id && t.dropped[id] == Drop(m, s.now);
        assert Genuine(s, m);
      }
    }
  }

  lemma QuietKeeps(s: State, t: State)
    requires Inv(s) && Shaped(t) && (forall p :: Live(t, p) == Live(s, p)) && t.heap == s.heap
    requires t.loops == s.loops || t.loops == map[]
    requires t.accepted == s.accepted && t.delivered == s.delivered
    requires t.failures == s.failures && t.dropped == s.dropped
    ensures Inv(t)
  {
    hide Shaped, CellsGenuine, ListsOk, Conserved, Live;
    HistoryGenuine(s, t);
    StaysPending(s, t);
    ListsStay(s, t);
  }

  lemma StepKeepsInv(s: State, e: Event)
    requires Inv(s) && NewId(s, e)
    ensures Inv(Step(s, e))
  {
    hide Inv;
    match e
    case Forward(msg, stamp, direct, spare) => ForwardKeeps(s, msg, stamp, direct, spare);
    case StartLoop(_, _) => LoopStepKeeps(s, e);
    case Read(_) => LoopStepKeeps(s, e);
    case Send(_, _) => LoopStepKeeps(s, e);
    case Settle(l) => if l in s.loops && s.loops[l].phase.Sent? { SettleKeeps(s, l); }
    case CleanupPeer(peer, spare) => CleanupKeeps(s, peer, spare);
    case Tick(to) => TickKeeps(s, to);
    case Restart => RestartKeeps(s);
  }

  lemma TickKeeps(s: State, to: Time)
    requires Inv(s)
    ensures Inv(s.(now := to))
  {
    HistoryShape(s, s.(now := to));
    QuietKeeps(s, s.(now := to));
  }

  lemma RestartKeeps(s: State)
    requires Inv(s)
    ensures Inv(Restarted(s))
  {
    RestartedShape(s);
    QuietKeeps(s, Restarted(s));
  }

  // ---------- whole runs ----------

  /** From nothing on, with no message ID used twice. */
  ghost predicate Behaviour(states: seq<State>, events: seq<Event>) {
    && |states| == |events| + 1 && states[0] == INIT
    && forall i :: 0 <= i < |events| ==>
         Shaped(states[i]) && NewId(states[i], events[i]) && states[i + 1] == Step(states[i], events[i])
  }

  lemma InitInv()
    ensures Inv(INIT)
  {
  }

  lemma {:induction false} BehaviourKeepsInv(states: seq<State>, events: seq<Event>, n: nat)
    requires Behaviour(states, events) && n <= |events|
    ensures Inv(states[n])
  {
    if n == 0 {
      InitInv();
    } else {
      hide Inv, Step;
      BehaviourKeepsInv(states, events, n - 1);
      StepKeepsInv(states[n - 1], events[n - 1]);
    }
  }

  /** Over every interleaving, IDs not being used twice, each accepted message has been delivered, is still
      pending in its addressee's list, or was dropped by Cleanup after its time to
      live or after MAX_RETRY failed sends; and nothing that was not accepted, or
      was altered, is ever delivered or about to be. */
  lemma RelayConserves(states: seq<State>, events: seq<Event>, n: nat)
    requires Behaviour(states, events) && n <= |events|
    ensures var s := states[n];
            && Shaped(s)
            && (forall id :: id in s.accepted ==> id in s.delivered || id in s.dropped || Pending(s, id))
            && (forall id :: id in s.dropped ==>
                  && id in s.accepted
                  && (s.dropped[id].at >= s.accepted[id].createdAt + DEFAULT_TTL || Failures(s, id) >= MAX_RETRY))
            && s.delivered <= s.accepted.Keys
            && (forall l :: l in s.loops && !s.loops[l].phase.Ready? ==> Genuine(s, s.loops[l].phase.msg))
  {
    BehaviourKeepsInv(states, events, n);
  }

  /** No delivery loop takes an undelivered message out of the queue, even when it
      acts on a stale slice entry: a message that a step takes out of its list was
      delivered before, or is dropped by that very Cleanup. */
  lemma OnlyDeliveredLeave(s: State, e: Event, id: string)
    requires Inv(s) && NewId(s, e) && id in s.accepted && Pending(s, id)
    ensures Inv(Step(s, e)) && id in Step(s, e).accepted
    ensures Pending(Step(s, e), id)
         || (e.Settle? && id in s.delivered)
         || (e.CleanupPeer? && e.peer == s.accepted[id].to && id in Step(s, e).dropped)
  {
    hide Shaped, CellsGenuine, ListsOk, LoopsOk, Conserved, DropsJustified, AcceptedOk;
    hide Live, Settled, Cleaned, Restarted;
    StepKeepsInv(s, e);
    var t, p := Step(s, e), s.accepted[id].to;
    var x :| x in Live(s, p) && x.id == id;
    match e {
      case Forward(msg, stamp, direct, spare) =>
        ForwardShape(s, msg, stamp, direct, spare);
        ForwardExtends(s, msg, stamp, direct, spare);
        assert x in Live(t, p);
      case Settle(l) =>
        if l in s.loops && s.loops[l].phase.Sent? {
          SettleLeaves(s, l, id, x);
        } else {
          assert x in Live(t, p);
        }
      case CleanupPeer(peer, spare) => CleanupLeaves(s, peer, spare, id, x);
      case Tick(to) =>
        HistoryShape(s, s.(now := to));
        assert x in Live(t, p);
      case Restart =>
        RestartedShape(s);
        RestartedHistory(s);
        assert x in Live(t, p);
      case _ =>
        LoopStepShape(s, e);
        assert x in Live(t, p);
    }
  }

  lemma ForwardExtends(s: State, msg: Message, stamp: string, direct: bool, spare: nat)
    requires Shaped(s) && Stamped(msg, stamp, s.now).id !in s.accepted
    ensures Extends(Forwarded(s, msg, stamp, direct, spare), s)
  {
  }

  lemma RestartedHistory(s: State)
    ensures Restarted(s).accepted == s.accepted
  {
  }

  lemma CleanupLeaves(s: State, peer: string, spare: nat, id: string, x: Message)
    requires Inv(s) && id in s.accepted && x in Live(s, s.accepted[id].to) && x.id == id
    ensures var t := Cleaned(s, peer, spare);
            && Shaped(t) && t.accepted == s.accepted
            && (Pending(t, id) || (peer == s.accepted[id].to && id in t.dropped))
  {
    hide Shaped, CellsGenuine, LoopsOk, Conserved, DropsJustified, Live, Kept, DropAll, BufferOf;
    var t, p := Cleaned(s, peer, spare), s.accepted[id].to;
    CleanedShape(s, peer, spare);
    assert ListOk(s, peer, Live(s, peer));
    KeptMembers(Live(s, peer), s.now);
    DropAllRecords(s.dropped, Live(s, peer), s.now);
    if peer != p || Keeps(x, s.now) {
      assert x in Live(t, p);
    }
  }

  lemma SettleLeaves(s: State, l: nat, id: string, x: Message)
    requires Inv(s) && id in s.accepted && l in s.loops && s.loops[l].phase.Sent?
    requires x in Live(s, s.accepted[id].to) && x.id == id
    ensures Shaped(Step(s, Settle(l))) && Step(s, Settle(l)).accepted == s.accepted
    ensures Pending(Step(s, Settle(l)), id) || id in s.delivered
  {
    hide Shaped, Live, Settled, CellsGenuine, Conserved, DropsJustified, RemoveFirst, MarkFirst;
    var loop, p := s.loops[l], s.accepted[id].to;
    var msg, ok := loop.phase.msg, loop.phase.ok;
    var s1 := s.(loops := s.loops[l := loop.(phase := Ready)]);
    ReadyShape(s, l);
    SettledShape(s1, loop, msg, ok);
    SettledHistory(s1, loop, msg, ok);
    var t, ms := Settled(s1, loop, msg, ok), Live(s, p);
    assert ListOk(s, p, ms);
    if p == loop.peer {
      RemoveFirstMembers(ms, msg.id);
      MarkFirstMembers(ms, msg.id, s.now);
      if !ok && loop.marks {
        var i :| 0 <= i < |ms| && ms[i] == x;
        assert Live(t, p)[i].id == id;
      } else if !ok || msg.id != id {
        assert x in Live(t, p);
      }
    } else {
      assert x in Live(t, p);
    }
  }
}
