/** What became of each forwarded message, told by the events of a behaviour alone. */
module RelayHistory {
  import opened Common
  import opened QueueSpec
  import opened RelayProtocol
  import opened RelayConservation

  /** The ID under which a forwarded message is accepted. */
  function IdOf(e: Event): string
    requires e.Forward?
  {
    if e.msg.id == "" then e.stamp else e.msg.id
  }

  /** The step delivers this message: a direct send, or a loop's send of what it holds. */
  ghost predicate Delivers(s: State, e: Event, m: Message) {
    || (e.Forward? && e.direct && AcceptedAs(m, e.msg, e.stamp, s.now))
    || (e.Send? && e.ok && e.loop in s.loops && s.loops[e.loop].phase == Holding(m))
  }

  /** The step reports a failed send under this ID, of a loop that marks. */
  ghost predicate FailsAt(s: State, e: Event, id: string) {
    && e.Settle? && e.loop in s.loops && s.loops[e.loop].phase.Sent? && !s.loops[e.loop].phase.ok
    && s.loops[e.loop].marks && s.loops[e.loop].phase.msg.id == id
  }

  ghost function FailedMarks(states: seq<State>, events: seq<Event>, n: nat, id: string): nat
    requires n <= |events| && |states| == |events| + 1
  {
    if n == 0 then 0
    else FailedMarks(states, events, n - 1, id) + if FailsAt(states[n - 1], events[n - 1], id) then 1 else 0
  }

  /** Event `j` forwarded what `m` carries. */
  ghost predicate ForwardedAt(states: seq<State>, events: seq<Event>, j: nat, m: Message)
    requires j < |events| < |states|
  {
    events[j].Forward? && Carries(m, events[j].msg, events[j].stamp, states[j].now)
  }

  ghost predicate DeliveredAt(states: seq<State>, events: seq<Event>, i: nat, id: string)
    requires i < |events| < |states|
  {
    exists m :: Delivers(states[i], events[i], m) && m.id == id
  }

  /** The message `d.msg`, overdue or out of attempts, was in a list that event `i`
      cleaned up at `d.at`. */
  ghost predicate DroppedAt(states: seq<State>, events: seq<Event>, i: nat, d: Drop)
    requires i < |events| < |states|
  {
    && events[i].CleanupPeer? && Shaped(states[i]) && d.at == states[i].now
    && d.msg in Live(states[i], events[i].peer) && (d.at >= d.msg.expiresAt || d.msg.attempts >= 10)
  }

  // ---------- one step ----------

  lemma SettleHistory(s: State, l: nat)
    requires Shaped(s)
    ensures var t := Step(s, Settle(l));
            && t.accepted == s.accepted && t.delivered == s.delivered && t.dropped == s.dropped
            && (forall id :: Failures(t, id) == Failures(s, id) + if FailsAt(s, Settle(l), id) then 1 else 0)
  {
    hide Shaped, Settled;
    if l in s.loops && s.loops[l].phase.Sent? {
      var loop := s.loops[l];
      ReadyShape(s, l);
      SettledHistory(s.(loops := s.loops[l := loop.(phase := Ready)]), loop, loop.phase.msg, loop.phase.ok);
    }
  }

  lemma ForwardHistory(s: State, e: Event)
    requires Shaped(s) && e.Forward?
    ensures var t, m := Step(s, e), Stamped(e.msg, e.stamp, s.now);
            && m.id == IdOf(e) && t.accepted == s.accepted[m.id := m]
            && t.failures == s.failures && t.dropped == s.dropped
            && t.delivered == if e.direct then s.delivered + {m.id} else s.delivered
  {
    hide Shaped, Appended;
    var m := Stamped(e.msg, e.stamp, s.now);
    HistoryShape(s, s.(accepted := s.accepted[m.id := m]));
    AppendedHistory(s.(accepted := s.accepted[m.id := m]), m.to, m, e.spare);
  }

  lemma StepHistory(s: State, e: Event)
    requires Shaped(s)
    ensures var t := Step(s, e);
            && t.accepted == (if e.Forward? then s.accepted[IdOf(e) := Stamped(e.msg, e.stamp, s.now)] else s.accepted)
            && (forall id :: Failures(t, id) == Failures(s, id) + if FailsAt(s, e, id) then 1 else 0)
            && t.dropped == (if e.CleanupPeer? then DropAll(s.dropped, Live(s, e.peer), s.now) else s.dropped)
  {
    hide Shaped, Stamped, Forwarded, Settled, Cleaned, Live, DropAll;
    match e
    case Forward(_, _, _, _) => ForwardHistory(s, e);
    case Settle(l) => SettleHistory(s, l);
    case CleanupPeer(peer, spare) => CleanedHistory(s, peer, spare);
    case _ =>
  }

  lemma StepDelivers(s: State, e: Event, id: string)
    requires Shaped(s)
    ensures id in Step(s, e).delivered <==> id in s.delivered || exists m :: Delivers(s, e, m) && m.id == id
  {
    hide Shaped, Forwarded, Settled, Cleaned, Live, DropAll, Stamped, AcceptedAs;
    match e
    case Forward(msg, stamp, direct, spare) =>
      ForwardHistory(s, e);
      StampedIsAccepted(msg, stamp, s.now);
      AcceptedIds(msg, stamp, s.now);
      assert direct ==> Delivers(s, e, Stamped(msg, stamp, s.now));
    case Send(l, ok) =>
      if ok && l in s.loops && s.loops[l].phase.Holding? {
        assert Delivers(s, e, s.loops[l].phase.msg);
      }
    case Settle(l) => SettleHistory(s, l);
    case CleanupPeer(peer, spare) => CleanedHistory(s, peer, spare);
    case _ =>
  }

  lemma AcceptedIds(msg: Message, stamp: string, now: Time)
    ensures Stamped(msg, stamp, now).id == if msg.id == "" then stamp else msg.id
    ensures forall m :: AcceptedAs(m, msg, stamp, now) ==> m.id == Stamped(msg, stamp, now).id
  {
  }

  // ---------- whole behaviours ----------

  lemma AcceptedStep(states: seq<State>, events: seq<Event>, n: nat)
    requires Behaviour(states, events) && n < |events|
    ensures var s, t, e := states[n], states[n + 1], events[n];
            if e.Forward? then
              && IdOf(e) !in s.accepted && IdOf(e) in t.accepted
              && t.accepted == s.accepted[IdOf(e) := t.accepted[IdOf(e)]]
              && ForwardedAt(states, events, n, t.accepted[IdOf(e)])
            else t.accepted == s.accepted
  {
    hide Shaped, Step, Stamped, AcceptedAs;
    var s, e := states[n], events[n];
    StepHistory(s, e);
    if e.Forward? {
      AcceptedIds(e.msg, e.stamp, s.now);
      StampedIsAccepted(e.msg, e.stamp, s.now);
      StampedCarries(e.msg, e.stamp, s.now);
    }
  }

  lemma StampedCarries(msg: Message, stamp: string, now: Time)
    ensures Carries(Stamped(msg, stamp, now), msg, stamp, now)
  {
    StampedIsAccepted(msg, stamp, now);
  }

  /** An event before `n` forwarded what is accepted under this ID. */
  ghost predicate Traced(states: seq<State>, events: seq<Event>, n: nat, id: string)
    requires n <= |events| < |states| && id in states[n].accepted
  {
    exists j :: 0 <= j < n && ForwardedAt(states, events, j, states[n].accepted[id]) && IdOf(events[j]) == id
  }

  /** What event `j` forwarded is accepted. */
  ghost predicate Recorded(states: seq<State>, events: seq<Event>, n: nat, j: nat)
    requires j < n <= |events| < |states|
  {
    events[j].Forward? ==>
      && IdOf(events[j]) in states[n].accepted
      && ForwardedAt(states, events, j, states[n].accepted[IdOf(events[j])])
  }

  lemma TracedLater(states: seq<State>, events: seq<Event>, n: nat, id: string)
    requires Behaviour(states, events) && n < |events|
    requires id in states[n].accepted && Traced(states, events, n, id)
    ensures id in states[n + 1].accepted && Traced(states, events, n + 1, id)
  {
    AcceptedStep(states, events, n);
    hide ForwardedAt, Behaviour;
  }

  lemma RecordedLater(states: seq<State>, events: seq<Event>, n: nat, j: nat)
    requires Behaviour(states, events) && j < n < |events| && Recorded(states, events, n, j)
    ensures Recorded(states, events, n + 1, j)
  {
    AcceptedStep(states, events, n);
    hide ForwardedAt, Behaviour;
  }

  /** What was accepted is what was forwarded, and stays so. */
  lemma {:induction false} AcceptedWasForwarded(states: seq<State>, events: seq<Event>, n: nat)
    requires Behaviour(states, events) && n <= |events|
    ensures forall id :: id in states[n].accepted ==> Traced(states, events, n, id)
    ensures forall j :: 0 <= j < n ==> Recorded(states, events, n, j)
  {
    if n > 0 {
      AcceptedWasForwarded(states, events, n - 1);
      AcceptedStep(states, events, n - 1);
      forall id | id in states[n].accepted ensures Traced(states, events, n, id) {
        if id in states[n - 1].accepted {
          TracedLater(states, events, n - 1, id);
        }
      }
      forall j | 0 <= j < n ensures Recorded(states, events, n, j) {
        if j < n - 1 {
          RecordedLater(states, events, n - 1, j);
        }
      }
    }
  }

  lemma {:induction false} FailuresAreMarks(states: seq<State>, events: seq<Event>, n: nat, id: string)
    requires Behaviour(states, events) && n <= |events|
    ensures Failures(states[n], id) == FailedMarks(states, events, n, id)
  {
    hide Shaped, Step;
    if n > 0 {
      FailuresAreMarks(states, events, n - 1, id);
      StepHistory(states[n - 1], events[n - 1]);
    }
  }

  lemma {:induction false} DeliveredWasSent(states: seq<State>, events: seq<Event>, n: nat, id: string)
    requires Behaviour(states, events) && n <= |events|
    ensures id in states[n].delivered <==> exists i :: 0 <= i < n && DeliveredAt(states, events, i, id)
  {
    hide Shaped, Step, Delivers;
    if n > 0 {
      DeliveredWasSent(states, events, n - 1, id);
      StepDelivers(states[n - 1], events[n - 1], id);
      assert DeliveredAt(states, events, n - 1, id) <==>
             exists m :: Delivers(states[n - 1], events[n - 1], m) && m.id == id;
    }
  }

  lemma {:induction false} DroppedWasCleaned(states: seq<State>, events: seq<Event>, n: nat, id: string)
    requires Behaviour(states, events) && n <= |events| && id in states[n].dropped
    ensures exists i :: 0 <= i < n && DroppedAt(states, events, i, states[n].dropped[id])
  {
    hide Shaped, Step, Live, DropAll;
    if n > 0 {
      var s, e := states[n - 1], events[n - 1];
      StepHistory(s, e);
      if id in s.dropped && states[n].dropped[id] == s.dropped[id] {
        DroppedWasCleaned(states, events, n - 1, id);
      } else {
        BehaviourKeepsInv(states, events, n - 1);
        ListIsDistinct(s, e.peer);
        DropAllRecords(s.dropped, Live(s, e.peer), s.now);
        assert DroppedAt(states, events, n - 1, states[n].dropped[id]);
      }
    }
  }

  lemma ListIsDistinct(s: State, p: string)
    requires Inv(s)
    ensures DistinctIds(Live(s, p))
  {
    assert ListOk(s, p, Live(s, p));
  }

  lemma GenuineCarries(states: seq<State>, events: seq<Event>, n: nat, m: Message) returns (j: nat)
    requires Behaviour(states, events) && n <= |events| && Genuine(states[n], m)
    ensures j < n && ForwardedAt(states, events, j, m)
  {
    AcceptedWasForwarded(states, events, n);
    assert Traced(states, events, n, m.id);
    j :| 0 <= j < n && ForwardedAt(states, events, j, states[n].accepted[m.id]);
    SameCarries(m, states[n].accepted[m.id], events[j].msg, events[j].stamp, states[j].now);
  }

  lemma SameCarries(m: Message, a: Message, msg: Message, stamp: string, at: Time)
    requires m.(attempts := 0, lastAttempt := 0) == a.(attempts := 0, lastAttempt := 0)
    requires Carries(a, msg, stamp, at)
    ensures Carries(m, msg, stamp, at)
  {
    var x, y := m.(attempts := 0, lastAttempt := 0), a.(attempts := 0, lastAttempt := 0);
    assert x.id == y.id && x.from == y.from && x.to == y.to && x.kind == y.kind && x.content == y.content
        && x.createdAt == y.createdAt && x.expiresAt == y.expiresAt;
  }

  /** Whatever is delivered, and whatever is pending, is a message that was forwarded
      before, with the sender, addressee, kind and content it was forwarded with. */
  lemma OnlyForwardedArrive(states: seq<State>, events: seq<Event>, n: nat)
    requires Behaviour(states, events) && n <= |events|
    ensures Shaped(states[n])
    ensures forall p, m :: m in Live(states[n], p) ==>
              m.to == p && exists j :: 0 <= j < n && ForwardedAt(states, events, j, m)
    ensures forall m :: n < |events| && Delivers(states[n], events[n], m) ==>
              exists j :: 0 <= j <= n && ForwardedAt(states, events, j, m)
  {
    BehaviourKeepsInv(states, events, n);
    var s := states[n];
    forall p, m | m in Live(s, p)
      ensures m.to == p && exists j :: 0 <= j < n && ForwardedAt(states, events, j, m)
    {
      assert ListOk(s, p, Live(s, p));
      var j := GenuineCarries(states, events, n, m);
    }
    forall m | n < |events| && Delivers(s, events[n], m)
      ensures exists j :: 0 <= j <= n && ForwardedAt(states, events, j, m)
    {
      if events[n].Forward? {
        assert ForwardedAt(states, events, n, m);
      } else {
        assert Genuine(s, m);
        var j := GenuineCarries(states, events, n, m);
      }
    }
  }

  /** The message forwarded by event `j` is in its addressee's list. */
  ghost predicate StillPending(states: seq<State>, events: seq<Event>, j: nat, n: nat)
    requires j < n <= |events| < |states|
  {
    events[j].Forward? && Shaped(states[n])
    && exists m :: m in Live(states[n], events[j].msg.to) && ForwardedAt(states, events, j, m)
  }

  /** Event `i` cleaned the addressee's list up with this message in it, when its seven
      days were over or ten marked sends of it had failed. */
  ghost predicate DroppedWithCause(states: seq<State>, events: seq<Event>, j: nat, i: nat)
    requires j < |events| && i < |events| && |states| == |events| + 1
  {
    events[j].Forward? && events[i].CleanupPeer? && events[i].peer == events[j].msg.to && Shaped(states[i])
    && (exists m :: m in Live(states[i], events[j].msg.to) && ForwardedAt(states, events, j, m))
    && (states[i].now >= states[j].now + 7 * 24 * 3600 * 1000000000
        || FailedMarks(states, events, i, IdOf(events[j])) >= 10)
  }

  lemma PendingFound(states: seq<State>, events: seq<Event>, j: nat, n: nat)
    requires Behaviour(states, events) && j < n <= |events| && events[j].Forward? && Inv(states[n])
    requires IdOf(events[j]) in states[n].accepted && Pending(states[n], IdOf(events[j]))
    requires ForwardedAt(states, events, j, states[n].accepted[IdOf(events[j])])
    ensures StillPending(states, events, j, n)
  {
    var s, id := states[n], IdOf(events[j]);
    var a := s.accepted[id];
    var m :| m in Live(s, a.to) && m.id == id;
    assert ListOk(s, a.to, Live(s, a.to));
    SameCarries(m, a, events[j].msg, events[j].stamp, states[j].now);
    assert ForwardedAt(states, events, j, m);
  }

  lemma DropFound(states: seq<State>, events: seq<Event>, j: nat, n: nat) returns (i: nat)
    requires Behaviour(states, events) && j < n <= |events| && events[j].Forward? && Inv(states[n])
    requires IdOf(events[j]) in states[n].accepted && IdOf(events[j]) in states[n].dropped
    requires ForwardedAt(states, events, j, states[n].accepted[IdOf(events[j])])
    ensures i < n && DroppedWithCause(states, events, j, i)
  {
    var s, id := states[n], IdOf(events[j]);
    var d := s.dropped[id];
    DroppedWasCleaned(states, events, n, id);
    i :| 0 <= i < n && DroppedAt(states, events, i, d);
    BehaviourKeepsInv(states, events, i);
    assert ListOk(states[i], events[i].peer, Live(states[i], events[i].peer));
    assert Genuine(s, d.msg);
    SameCarries(d.msg, s.accepted[id], events[j].msg, events[j].stamp, states[j].now);
    assert ForwardedAt(states, events, j, d.msg);
    FailuresAreMarks(states, events, i, id);
  }

  /** Every message ever forwarded has been delivered, is still in its addressee's list,
      unaltered, or was taken out of it by a cleanup that had cause to. */
  lemma EveryForwardIsAccountedFor(states: seq<State>, events: seq<Event>, j: nat, n: nat)
    requires Behaviour(states, events) && j < n <= |events| && events[j].Forward?
    ensures || (exists i :: 0 <= i < n && DeliveredAt(states, events, i, IdOf(events[j])))
            || StillPending(states, events, j, n)
            || (exists i :: 0 <= i < n && DroppedWithCause(states, events, j, i))
  {
    hide Shaped, Live, Step, Pending, DeliveredAt, DroppedWithCause, StillPending;
    var id := IdOf(events[j]);
    BehaviourKeepsInv(states, events, n);
    AcceptedWasForwarded(states, events, n);
    assert Recorded(states, events, n, j);
    DeliveredWasSent(states, events, n, id);
    if id in states[n].delivered {
    } else if id in states[n].dropped {
      var i := DropFound(states, events, j, n);
    } else {
      PendingFound(states, events, j, n);
    }
  }

  /** Right after a cleanup of its list no message is pending for the peer whose seven
      days are over or that counts ten attempts, and all others are. */
  lemma CleanupLeavesNoneOverdue(states: seq<State>, events: seq<Event>, n: nat)
    requires Behaviour(states, events) && n < |events| && events[n].CleanupPeer?
    ensures var s, t, p := states[n], states[n + 1], events[n].peer;
            && Shaped(s) && Shaped(t)
            && (forall m :: m in Live(t, p) <==> m in Live(s, p) && s.now < m.expiresAt && m.attempts < 10)
            && (forall m :: m in Live(t, p) ==> exists j :: 0 <= j < n && ForwardedAt(states, events, j, m)
                                                 && s.now < states[j].now + 7 * 24 * 3600 * 1000000000)
  {
    hide Shaped, Live, Step, Cleaned;
    var s, t, p := states[n], states[n + 1], events[n].peer;
    OnlyForwardedArrive(states, events, n);
    CleanedStep(s, events[n]);
    KeptMembers(Live(s, p), s.now);
    forall m | m in Live(t, p)
      ensures exists j :: 0 <= j < n && ForwardedAt(states, events, j, m)
                          && s.now < states[j].now + 7 * 24 * 3600 * 1000000000
    {
      var j :| 0 <= j < n && ForwardedAt(states, events, j, m);
    }
  }

  lemma CleanedStep(s: State, e: Event)
    requires Shaped(s) && e.CleanupPeer?
    ensures Shaped(Step(s, e)) && Live(Step(s, e), e.peer) == Kept(Live(s, e.peer), s.now)
  {
    CleanedShape(s, e.peer, e.spare);
  }
}
