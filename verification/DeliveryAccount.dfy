/** What a delivery pass does to each message, whatever the outcomes of its sends. */
module DeliveryAccounts {
  import opened Common
  import opened QueueSpec
  import opened DeliveryPasses

  function IdsOf(ms: seq<Message>): (ids: seq<string>)
    ensures |ids| == |ms| && forall i :: 0 <= i < |ms| ==> ids[i] == ms[i].id
  {
    if ms == [] then [] else [ms[0].id] + IdsOf(ms[1..])
  }

  /** The IDs outside `gone`, in their order. */
  function Outside(ids: seq<string>, gone: set<string>): seq<string> {
    if ids == [] then []
    else if ids[0] in gone then Outside(ids[1..], gone)
    else [ids[0]] + Outside(ids[1..], gone)
  }

  /** The IDs under which a send succeeded. */
  function SentIds(sends: seq<Message>, outcomes: seq<Outcome>): set<string>
    requires |sends| <= |outcomes|
  {
    set i | 0 <= i < |sends| && outcomes[i].Sent? :: sends[i].id
  }

  /** How many sends under this ID failed. */
  function Fails(sends: seq<Message>, outcomes: seq<Outcome>, id: string): nat
    requires |sends| <= |outcomes|
  {
    if sends == [] then 0
    else (if outcomes[0].Failed? && sends[0].id == id then 1 else 0) + Fails(sends[1..], outcomes[1..], id)
  }

  /** The same message with `n` more attempts counted. */
  ghost predicate MoreTried(m: Message, was: Message, n: nat) {
    && m.id == was.id && m.from == was.from && m.to == was.to && m.kind == was.kind && m.content == was.content
    && m.createdAt == was.createdAt && m.expiresAt == was.expiresAt
    && m.attempts == was.attempts + n && (n == 0 ==> m.lastAttempt == was.lastAttempt)
  }

  /** Of `ms` just those are left that no send delivered, in their order, each with
      its failed sends counted if they are marked, and otherwise as it was. */
  ghost predicate Accounted(ms: seq<Message>, left: seq<Message>, sends: seq<Message>, outcomes: seq<Outcome>,
                            marks: bool)
    requires |sends| <= |outcomes|
  {
    && IdsOf(left) == Outside(IdsOf(ms), SentIds(sends, outcomes))
    && forall m :: m in left ==>
         exists was :: was in ms && MoreTried(m, was, if marks then Fails(sends, outcomes, m.id) else 0)
  }

  // ---------- accounts add up ----------

  lemma {:induction false} OutsideBoth(ids: seq<string>, a: set<string>, b: set<string>)
    ensures Outside(Outside(ids, a), b) == Outside(ids, a + b)
  {
    if ids != [] {
      OutsideBoth(ids[1..], a, b);
      if ids[0] !in a {
        assert ([ids[0]] + Outside(ids[1..], a))[1..] == Outside(ids[1..], a);
      }
    }
  }

  lemma {:induction false} OutsideNone(ids: seq<string>)
    ensures Outside(ids, {}) == ids
  {
    if ids != [] {
      OutsideNone(ids[1..]);
    }
  }

  /** Being left is being there and not being sent. */
  lemma {:induction false} OutsideMembers(ids: seq<string>, gone: set<string>)
    ensures forall id :: id in Outside(ids, gone) <==> id in ids && id !in gone
  {
    if ids != [] {
      OutsideMembers(ids[1..], gone);
    }
  }

  lemma Compose(a: seq<Message>, b: seq<Message>, c: seq<Message>, msg: Message, outcome: Outcome,
                sends: seq<Message>, outcomes: seq<Outcome>, marks: bool)
    requires |sends| <= |outcomes|
    requires Accounted(a, b, [msg], [outcome], marks) && Accounted(b, c, sends, outcomes, marks)
    ensures Accounted(a, c, [msg] + sends, [outcome] + outcomes, marks)
  {
    var all, os := [msg] + sends, [outcome] + outcomes;
    SentFirst(msg, outcome, sends, outcomes);
    OutsideBoth(IdsOf(a), SentIds([msg], [outcome]), SentIds(sends, outcomes));
    hide Outside, SentIds, IdsOf;
    forall m | m in c
      ensures exists was :: was in a && MoreTried(m, was, if marks then Fails(all, os, m.id) else 0)
    {
      var mid :| mid in b && MoreTried(m, mid, if marks then Fails(sends, outcomes, m.id) else 0);
      var was :| was in a && MoreTried(mid, was, if marks then Fails([msg], [outcome], m.id) else 0);
      FailsFirst(msg, outcome, sends, outcomes, m.id);
      assert MoreTried(m, was, if marks then Fails(all, os, m.id) else 0);
    }
  }

  lemma SentFirst(msg: Message, outcome: Outcome, sends: seq<Message>, outcomes: seq<Outcome>)
    requires |sends| <= |outcomes|
    ensures SentIds([msg] + sends, [outcome] + outcomes) == SentIds([msg], [outcome]) + SentIds(sends, outcomes)
  {
    var all, os := [msg] + sends, [outcome] + outcomes;
    forall id | id in SentIds(sends, outcomes) ensures id in SentIds(all, os) {
      var i :| 0 <= i < |sends| && outcomes[i].Sent? && sends[i].id == id;
      assert all[i + 1] == sends[i] && os[i + 1] == outcomes[i];
    }
    forall id | id in SentIds([msg], [outcome]) ensures id in SentIds(all, os) {
      assert all[0] == msg && os[0] == outcome;
    }
  }

  lemma FailsFirst(msg: Message, outcome: Outcome, sends: seq<Message>, outcomes: seq<Outcome>, id: string)
    requires |sends| <= |outcomes|
    ensures Fails([msg] + sends, [outcome] + outcomes, id) ==
            Fails([msg], [outcome], id) + Fails(sends, outcomes, id)
  {
    assert ([msg] + sends)[1..] == sends && ([outcome] + outcomes)[1..] == outcomes;
    assert [msg][1..] == [] && [outcome][1..] == [];
  }

  // ---------- one turn ----------

  lemma {:induction false} OutsideAbsent(ids: seq<string>, id: string)
    requires id !in ids
    ensures Outside(ids, {id}) == ids
  {
    if ids != [] {
      OutsideAbsent(ids[1..], id);
    }
  }

  lemma {:induction false} OutsideOne(ids: seq<string>, i: nat)
    requires i < |ids| && forall j :: 0 <= j < |ids| && j != i ==> ids[j] != ids[i]
    ensures Outside(ids, {ids[i]}) == ids[..i] + ids[i + 1..]
  {
    if i == 0 {
      OutsideAbsent(ids[1..], ids[0]);
    } else {
      OutsideOne(ids[1..], i - 1);
      assert ids[..i] + ids[i + 1..] == [ids[0]] + (ids[1..][..i - 1] + ids[1..][i..]);
    }
  }

  lemma {:induction false} IdsOfAppend(a: seq<Message>, b: seq<Message>)
    ensures IdsOf(a + b) == IdsOf(a) + IdsOf(b)
  {
    if a == [] {
      assert a + b == b;
    } else {
      assert (a + b)[1..] == a[1..] + b;
      IdsOfAppend(a[1..], b);
    }
  }

  lemma IdsOfParts(ms: seq<Message>, i: nat)
    requires i < |ms|
    ensures IdsOf(RemoveAt(ms, i)) == IdsOf(ms)[..i] + IdsOf(ms)[i + 1..]
  {
    hide IdsOf;
    IdsOfAppend(ms[..i], ms[i..]);
    IdsOfAppend(ms[..i + 1], ms[i + 1..]);
    IdsOfAppend(ms[..i], ms[i + 1..]);
    assert ms[..i] + ms[i..] == ms && ms[..i + 1] + ms[i + 1..] == ms;
  }

  lemma RemovedIds(ms: seq<Message>, id: string)
    requires DistinctIds(ms)
    ensures IdsOf(RemoveFirst(ms, id)) == Outside(IdsOf(ms), {id})
  {
    hide IdsOf, Outside, RemoveAt, IndexOf;
    var i := IndexOf(ms, id);
    if i < |ms| {
      OutsideOne(IdsOf(ms), i);
      IdsOfParts(ms, i);
    } else {
      OutsideAbsent(IdsOf(ms), id);
    }
  }

  lemma SameIds(a: seq<Message>, b: seq<Message>)
    requires |a| == |b| && forall i :: 0 <= i < |a| ==> a[i].id == b[i].id
    ensures IdsOf(a) == IdsOf(b)
  {
  }

  lemma SendAccounts(ms: seq<Message>, msg: Message, marks: bool)
    requires DistinctIds(ms)
    ensures Accounted(ms, RemoveFirst(ms, msg.id), [msg], [Sent], marks)
  {
    RemovedIds(ms, msg.id);
    RemoveFirstMembers(ms, msg.id);
    assert [msg][0] == msg && SentIds([msg], [Sent]) == {msg.id};
    assert forall id :: Fails([msg], [Sent], id) == 0 by { assert [msg][1..] == [] && [Sent][1..] == []; }
    hide RemoveFirst, Fails, SentIds, IdsOf, Outside;
    assert forall m :: m in RemoveFirst(ms, msg.id) ==> MoreTried(m, m, 0);
  }

  lemma OneFailure(msg: Message, at: Time)
    ensures SentIds([msg], [Failed(at)]) == {}
    ensures forall id :: Fails([msg], [Failed(at)], id) == if id == msg.id then 1 else 0
  {
    assert [msg][1..] == [] && [Failed(at)][1..] == [];
  }

  lemma FailureAccounts(ms: seq<Message>, msg: Message, at: Time)
    ensures Accounted(ms, ms, [msg], [Failed(at)], false)
  {
    hide Fails, SentIds, IdsOf, Outside;
    OneFailure(msg, at);
    OutsideNone(IdsOf(ms));
    assert forall m :: m in ms ==> MoreTried(m, m, 0);
  }

  lemma MarkedAccounts(ms: seq<Message>, msg: Message, at: Time)
    requires DistinctIds(ms)
    ensures Accounted(ms, MarkFirst(ms, msg.id, at), [msg], [Failed(at)], true)
  {
    hide DistinctIds, MarkFirst, Fails, SentIds, IdsOf, Outside;
    var left := MarkFirst(ms, msg.id, at);
    OneFailure(msg, at);
    OutsideNone(IdsOf(ms));
    MarkFirstMembers(ms, msg.id, at);
    SameIds(ms, left);
    forall m | m in left ensures exists was :: was in ms && MoreTried(m, was, Fails([msg], [Failed(at)], m.id)) {
      var i :| 0 <= i < |left| && left[i] == m;
      assert MoreTried(m, ms[i], Fails([msg], [Failed(at)], m.id)) && ms[i] in ms;
    }
  }

  /** A turn that sends takes out the message sent, one that fails leaves all of
      them and counts an attempt if it marks. */
  lemma TurnAccounts(b: Buffer, msg: Message, outcome: Outcome, marks: bool)
    requires b.len <= |b.cells| && DistinctIds(b.Live())
    ensures Accounted(b.Live(), Turn(b, msg, outcome, marks).Live(), [msg], [outcome], marks)
    ensures DistinctIds(Turn(b, msg, outcome, marks).Live())
  {
    hide Accounted, RemoveFirst, MarkFirst, DistinctIds;
    var ms := b.Live();
    match outcome {
      case Sent =>
        SendAccounts(ms, msg, marks);
        RemoveFirstMembers(ms, msg.id);
      case Failed(at) =>
        FailureAccounts(ms, msg, at);
        MarkedAccounts(ms, msg, at);
        MarkFirstMembers(ms, msg.id, at);
    }
  }

  lemma NothingAccounts(ms: seq<Message>, marks: bool)
    ensures Accounted(ms, ms, [], [], marks)
  {
    var none: seq<Message> := [];
    OutsideNone(IdsOf(ms));
    assert SentIds(none, []) == {};
    assert forall m :: m in ms ==> MoreTried(m, m, 0);
  }

  // ---------- whole passes ----------

  lemma {:induction false} TurnsAccount(b: Buffer, i: nat, n: nat, outcomes: seq<Outcome>, marks: bool)
    requires b.len <= |b.cells| && i <= n <= |b.cells| && n <= |outcomes| && DistinctIds(b.Live())
    ensures Accounted(b.Live(), Pass(b, i, n, outcomes, marks).Live(), Sends(b, i, n, outcomes, marks),
                      outcomes[i..n], marks)
    decreases n - i
  {
    hide DistinctIds, Accounted, Turn;
    if i == n {
      NothingAccounts(b.Live(), marks);
      assert outcomes[i..n] == [];
    } else {
      var b' := Turn(b, b.cells[i], outcomes[i], marks);
      TurnAccounts(b, b.cells[i], outcomes[i], marks);
      TurnsAccount(b', i + 1, n, outcomes, marks);
      assert outcomes[i..n] == [outcomes[i]] + outcomes[i + 1..n];
      Compose(b.Live(), b'.Live(), Pass(b', i + 1, n, outcomes, marks).Live(), b.cells[i], outcomes[i],
              Sends(b', i + 1, n, outcomes, marks), outcomes[i + 1..n], marks);
    }
  }

  /** What a pass over `ms` sends, turn by turn. */
  function SentBy(ms: seq<Message>, outcomes: seq<Outcome>, marks: bool): (sends: seq<Message>)
    requires |ms| <= |outcomes|
    ensures |sends| == |ms|
  {
    Sends(Buffer(ms, |ms|), 0, |ms|, outcomes, marks)
  }

  lemma SentByLive(b: Buffer, outcomes: seq<Outcome>, marks: bool)
    requires b.len <= |b.cells| && b.len <= |outcomes|
    ensures Sends(b, 0, b.len, outcomes, marks) == SentBy(b.Live(), outcomes, marks)
  {
    PassIgnoresSpareCells(b, 0, b.len, b.len, outcomes, marks);
  }

  /** With distinct IDs and whatever outcomes, a pass leaves just the messages that
      none of its sends delivered, in their order, and counts their failures. */
  lemma PassAccounts(ms: seq<Message>, outcomes: seq<Outcome>, marks: bool)
    requires |ms| <= |outcomes| && DistinctIds(ms)
    ensures Accounted(ms, PassOver(ms, outcomes, marks), SentBy(ms, outcomes, marks), outcomes[..|ms|], marks)
  {
    var whole := Buffer(ms, |ms|);
    assert whole.Live() == ms && outcomes[0..|ms|] == outcomes[..|ms|];
    TurnsAccount(whole, 0, |ms|, outcomes, marks);
  }

  /** So a message is missing afterwards if and only if a successful send bore its ID. */
  lemma MissingIffSent(ms: seq<Message>, outcomes: seq<Outcome>, marks: bool, k: nat)
    requires |ms| <= |outcomes| && DistinctIds(ms) && k < |ms|
    ensures var left, sends := PassOver(ms, outcomes, marks), SentBy(ms, outcomes, marks);
            (forall m :: m in left ==> m.id != ms[k].id)
            <==> exists i :: 0 <= i < |ms| && outcomes[i].Sent? && sends[i].id == ms[k].id
  {
    var left, sends, os := PassOver(ms, outcomes, marks), SentBy(ms, outcomes, marks), outcomes[..|ms|];
    PassAccounts(ms, outcomes, marks);
    OutsideMembers(IdsOf(ms), SentIds(sends, os));
    assert IdsOf(ms)[k] == ms[k].id;
    if ms[k].id in SentIds(sends, os) {
      forall m | m in left ensures m.id != ms[k].id {
        var i :| 0 <= i < |left| && left[i] == m;
        assert IdsOf(left)[i] == m.id;
      }
      var i :| 0 <= i < |sends| && os[i].Sent? && sends[i].id == ms[k].id;
      assert outcomes[i].Sent?;
    } else {
      assert ms[k].id in IdsOf(left);
      var i :| 0 <= i < |left| && IdsOf(left)[i] == ms[k].id;
      assert left[i] in left;
      forall i | 0 <= i < |ms| && outcomes[i].Sent? ensures sends[i].id != ms[k].id {
        assert os[i].Sent?;
      }
    }
  }

  lemma MarkedTurn(b: Buffer, i: nat, at: Time)
    requires i < b.len == |b.cells| && DistinctIds(b.Live())
    ensures var r, m := Turn(b, b.cells[i], Failed(at), true), b.cells[i];
            && r.len == b.len && DistinctIds(r.Live())
            && r.cells == b.cells[i := m.(attempts := m.attempts + 1, lastAttempt := at)]
  {
    hide DistinctIds, MarkFirst;
    assert b.Live() == b.cells;
    MarkFirstMembers(b.cells, b.cells[i].id, at);
    OneOfId(b.cells, i);
    var r := Turn(b, b.cells[i], Failed(at), true);
    assert r.Live() == r.cells;
  }

  lemma OneOfId(ms: seq<Message>, i: nat)
    requires i < |ms| && DistinctIds(ms)
    ensures forall j :: 0 <= j < |ms| && j != i ==> ms[j].id != ms[i].id
  {
  }

  lemma {:induction false} FailedTurnsMark(b: Buffer, i: nat, outcomes: seq<Outcome>)
    requires b.len == |b.cells| <= |outcomes| && i <= b.len && DistinctIds(b.Live())
    requires forall k :: i <= k < b.len ==> outcomes[k].Failed?
    ensures var r := Pass(b, i, b.len, outcomes, true);
            && r.len == b.len
            && (forall k :: 0 <= k < i ==> r.cells[k] == b.cells[k])
            && (forall k :: i <= k < b.len ==>
                 r.cells[k] == b.cells[k].(attempts := b.cells[k].attempts + 1, lastAttempt := outcomes[k].at))
    decreases b.len - i
  {
    hide Turn, DistinctIds;
    if i < b.len {
      MarkedTurn(b, i, outcomes[i].at);
      FailedTurnsMark(Turn(b, b.cells[i], outcomes[i], true), i + 1, outcomes);
    }
  }

  /** A pass without a successful send leaves every message where it was: with one
      more attempt, made in its own turn, if failures are marked, else unchanged. */
  lemma FailedPassKeepsAll(ms: seq<Message>, outcomes: seq<Outcome>)
    requires |ms| <= |outcomes| && forall k :: 0 <= k < |ms| ==> outcomes[k].Failed?
    ensures PassOver(ms, outcomes, false) == ms
    ensures DistinctIds(ms) ==>
              var left := PassOver(ms, outcomes, true);
              && |left| == |ms|
              && forall k :: 0 <= k < |ms| ==>
                   left[k] == ms[k].(attempts := ms[k].attempts + 1, lastAttempt := outcomes[k].at)
  {
    var whole := Buffer(ms, |ms|);
    assert whole.Live() == ms;
    FailedTurns(whole, 0, |ms|, outcomes);
    if DistinctIds(ms) {
      FailedTurnsMark(whole, 0, outcomes);
    }
  }
}
