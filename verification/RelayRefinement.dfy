/** The protocol's delivery loop, when nothing comes between its steps, is the pass
    that the relay node's own loop makes. */
module RelayRefinement {
  import opened Common
  import opened QueueSpec
  import opened RelayProtocol
  import RelayConservation
  import Passes = DeliveryPasses
  import Accounts = DeliveryAccounts

  ghost function Run(s: State, events: seq<Event>): State
    decreases |events|
  {
    if events == [] || !Shaped(s) then s else Run(Step(s, events[0]), events[1..])
  }

  /** One turn: read, send, report. */
  function TurnEvents(l: nat, outcome: Passes.Outcome): seq<Event> {
    [Read(l), Send(l, outcome.Sent?), Settle(l)]
  }

  function LoopEvents(l: nat, i: nat, n: nat, outcomes: seq<Passes.Outcome>): seq<Event>
    requires i <= n <= |outcomes|
    decreases n - i
  {
    if i == n then [] else TurnEvents(l, outcomes[i]) + LoopEvents(l, i + 1, n, outcomes)
  }

  /** Loop `l` is about to read slot `next` of the array that the peer's slice lies in. */
  ghost predicate AtTurn(s: State, l: nat, peer: string, next: nat, n: nat, marks: bool) {
    && Shaped(s) && l in s.loops && peer in s.pending
    && s.loops[l] == Loop(peer, Header(s.pending[peer].arr, n), next, Ready, marks)
    && next <= n <= |s.heap[s.pending[peer].arr].cells|
  }

  lemma ReadAndSend(s: State, l: nat, peer: string, next: nat, n: nat, marks: bool, ok: bool)
    requires AtTurn(s, l, peer, next, n, marks) && next < n
    ensures var msg := BufferOf(s, peer).cells[next];
            var s1 := Step(s, Read(l));
            && Shaped(s1)
            && var s2 := Step(s1, Send(l, ok));
               && Shaped(s2)
               && s2 == s.(loops := s.loops[l := s.loops[l].(next := next + 1, phase := RelayProtocol.Sent(msg, ok))],
                           delivered := if ok then s.delivered + {msg.id} else s.delivered)
               && (forall q :: Live(s2, q) == Live(s, q))
  {
    var s1 := Step(s, Read(l));
    RelayConservation.LoopStepShape(s, Read(l));
    RelayConservation.LoopStepShape(s1, Send(l, ok));
    var msg := BufferOf(s, peer).cells[next];
    assert s1.loops[l] == s.loops[l].(next := next + 1, phase := Holding(msg));
    hide Shaped, Live;
  }

  lemma ReportTurn(s: State, l: nat, peer: string, msg: Message, outcome: Passes.Outcome, next: nat, n: nat,
                   marks: bool)
    requires Shaped(s) && l in s.loops && peer in s.pending
    requires s.loops[l].header == Header(s.pending[peer].arr, n) && s.loops[l].next == next
    requires s.loops[l].peer == peer && s.loops[l].marks == marks
    requires s.loops[l].phase == RelayProtocol.Sent(msg, outcome.Sent?)
    requires next <= n <= |s.heap[s.pending[peer].arr].cells| && (outcome.Failed? ==> outcome.at == s.now)
    ensures var t := Step(s, Settle(l));
            && AtTurn(t, l, peer, next, n, marks)
            && BufferOf(t, peer) == Passes.Turn(BufferOf(s, peer), msg, outcome, marks)
            && (forall q :: q != peer ==> Live(t, q) == Live(s, q))
            && t.now == s.now && t.delivered == s.delivered
  {
    var loop := s.loops[l];
    var s1 := s.(loops := s.loops[l := loop.(phase := Ready)]);
    RelayConservation.ReadyShape(s, l);
    SettledShape(s1, loop, msg, outcome.Sent?);
    RelayConservation.SettledHistory(s1, loop, msg, outcome.Sent?);
  }

  lemma TurnIsTurn(s: State, l: nat, peer: string, outcome: Passes.Outcome, next: nat, n: nat, marks: bool)
    requires AtTurn(s, l, peer, next, n, marks) && next < n && (outcome.Failed? ==> outcome.at == s.now)
    ensures var msg := BufferOf(s, peer).cells[next];
            var t := Run(s, TurnEvents(l, outcome));
            && AtTurn(t, l, peer, next + 1, n, marks)
            && BufferOf(t, peer) == Passes.Turn(BufferOf(s, peer), msg, outcome, marks)
            && (forall q :: q != peer ==> Live(t, q) == Live(s, q))
            && t.now == s.now
            && t.delivered == (if outcome.Sent? then s.delivered + {msg.id} else s.delivered)
  {
    hide Step, Live, Passes.Turn;
    var ok := outcome.Sent?;
    ReadAndSend(s, l, peer, next, n, marks, ok);
    var s1 := Step(s, Read(l));
    var s2 := Step(s1, Send(l, ok));
    assert BufferOf(s2, peer) == BufferOf(s, peer);
    ReportTurn(s2, l, peer, BufferOf(s, peer).cells[next], outcome, next + 1, n, marks);
    RunThree(s, Read(l), Send(l, ok), Settle(l));
  }

  lemma RunThree(s: State, x: Event, y: Event, z: Event)
    requires Shaped(s) && Shaped(Step(s, x)) && Shaped(Step(Step(s, x), y))
    ensures Run(s, [x, y, z]) == Step(Step(Step(s, x), y), z)
  {
    hide Step, Shaped;
    var s2 := Step(Step(s, x), y);
    assert [x, y, z][1..] == [y, z] && [y, z][1..] == [z] && [z][1..] == [];
    assert Run(s2, [z]) == Run(Step(s2, z), []) == Step(s2, z);
  }

  lemma {:induction false} RunAppend(s: State, a: seq<Event>, b: seq<Event>)
    ensures Run(s, a + b) == Run(Run(s, a), b)
    decreases |a|
  {
    if a == [] || !Shaped(s) {
      assert [] + b == b;
    } else {
      assert (a + b)[1..] == a[1..] + b;
      RunAppend(Step(s, a[0]), a[1..], b);
    }
  }

  /** The turns from `i` on are the pass from `i` on, and deliver what it sends. */
  lemma {:induction false} LoopIsPass(s: State, l: nat, peer: string, i: nat, n: nat,
                                      outcomes: seq<Passes.Outcome>, marks: bool)
    requires AtTurn(s, l, peer, i, n, marks) && n <= |outcomes|
    requires forall k :: i <= k < n && outcomes[k].Failed? ==> outcomes[k].at == s.now
    ensures var t := Run(s, LoopEvents(l, i, n, outcomes));
            && AtTurn(t, l, peer, n, n, marks)
            && BufferOf(t, peer) == Passes.Pass(BufferOf(s, peer), i, n, outcomes, marks)
            && (forall q :: q != peer ==> Live(t, q) == Live(s, q))
            && t.delivered == s.delivered
                 + Accounts.SentIds(Passes.Sends(BufferOf(s, peer), i, n, outcomes, marks), outcomes[i..n])
    decreases n - i
  {
    hide Step, Live, Shaped, Passes.Turn, Accounts.SentIds;
    var b := BufferOf(s, peer);
    if i == n {
      NothingSent(outcomes[i..n]);
    } else {
      var s' := Run(s, TurnEvents(l, outcomes[i]));
      TurnIsTurn(s, l, peer, outcomes[i], i, n, marks);
      RunAppend(s, TurnEvents(l, outcomes[i]), LoopEvents(l, i + 1, n, outcomes));
      LoopIsPass(s', l, peer, i + 1, n, outcomes, marks);
      var rest := Passes.Sends(BufferOf(s', peer), i + 1, n, outcomes, marks);
      Accounts.SentFirst(b.cells[i], outcomes[i], rest, outcomes[i + 1..n]);
      OneSent(b.cells[i], outcomes[i]);
      assert outcomes[i..n] == [outcomes[i]] + outcomes[i + 1..n];
    }
  }

  lemma NothingSent(outcomes: seq<Passes.Outcome>)
    ensures Accounts.SentIds([], outcomes) == {}
  {
  }

  lemma OneSent(msg: Message, outcome: Passes.Outcome)
    ensures Accounts.SentIds([msg], [outcome]) == if outcome.Sent? then {msg.id} else {}
  {
    assert [msg][0] == msg && [outcome][0] == outcome;
  }

  /** A whole loop over a peer's list, started and left to run, leaves what the pass
      leaves, delivers what it sends with success, and touches no other list. */
  lemma UninterruptedLoopIsPass(s: State, peer: string, outcomes: seq<Passes.Outcome>, marks: bool)
    requires Shaped(s) && peer in s.pending && |Live(s, peer)| <= |outcomes|
    requires forall k :: 0 <= k < |Live(s, peer)| && outcomes[k].Failed? ==> outcomes[k].at == s.now
    ensures var ms := Live(s, peer);
            var t := Run(s, [StartLoop(peer, marks)] + LoopEvents(s.nextLoop, 0, |ms|, outcomes));
            && Shaped(t)
            && Live(t, peer) == Passes.PassOver(ms, outcomes, marks)
            && (forall q :: q != peer ==> Live(t, q) == Live(s, q))
            && t.delivered == s.delivered + Accounts.SentIds(Accounts.SentBy(ms, outcomes, marks), outcomes[..|ms|])
  {
    var l, n, b := s.nextLoop, s.pending[peer].len, BufferOf(s, peer);
    var s' := Step(s, StartLoop(peer, marks));
    assert |Live(s, peer)| == n;
    RelayConservation.LoopStepShape(s, StartLoop(peer, marks));
    assert AtTurn(s', l, peer, 0, n, marks) && BufferOf(s', peer) == b;
    StartThen(s, StartLoop(peer, marks), LoopEvents(l, 0, n, outcomes));
    LoopIsPass(s', l, peer, 0, n, outcomes, marks);
    Passes.PassOfLive(b, outcomes, marks);
    Accounts.SentByLive(b, outcomes, marks);
    assert outcomes[0..n] == outcomes[..n];
  }

  lemma StartThen(s: State, e: Event, events: seq<Event>)
    requires Shaped(s)
    ensures Run(s, [e] + events) == Run(Step(s, e), events)
  {
    assert ([e] + events)[1..] == events;
  }
}
