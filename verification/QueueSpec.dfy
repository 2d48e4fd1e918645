/** Values of the store-and-forward queue, and what its operations do to one
    peer's list and to the slice that backs it. */
module QueueSpec {
  import opened Common

  datatype Message = Message(id: string, from: string, to: string, kind: string, content: Bytes,
                             createdAt: Time, expiresAt: Time, attempts: nat, lastAttempt: Time)

  const DEFAULT_TTL: Time := 7 * 24 * 3600 * 1000000000
  const MAX_RETRY: nat := 10

  /** The position of the first message with this ID; the length if there is none. */
  function IndexOf(ms: seq<Message>, id: string): (i: nat)
    ensures i <= |ms|
    ensures i < |ms| ==> ms[i].id == id
    ensures forall j :: 0 <= j < i ==> ms[j].id != id
  {
    if ms == [] then 0 else if ms[0].id == id then 0 else 1 + IndexOf(ms[1..], id)
  }

  function RemoveAt(ms: seq<Message>, i: nat): seq<Message>
    requires i < |ms|
  {
    ms[..i] + ms[i + 1..]
  }

  function RemoveFirst(ms: seq<Message>, id: string): seq<Message> {
    var i := IndexOf(ms, id);
    if i < |ms| then RemoveAt(ms, i) else ms
  }

  function Marked(m: Message, now: Time): Message { m.(attempts := m.attempts + 1, lastAttempt := now) }

  function MarkFirst(ms: seq<Message>, id: string, now: Time): seq<Message> {
    var i := IndexOf(ms, id);
    if i < |ms| then ms[i := Marked(ms[i], now)] else ms
  }

  predicate Keeps(m: Message, now: Time) { now < m.expiresAt && m.attempts < MAX_RETRY }

  function Kept(ms: seq<Message>, now: Time): (r: seq<Message>)
    ensures |r| <= |ms|
  {
    if ms == [] then []
    else (if Keeps(ms[0], now) then [ms[0]] else []) + Kept(ms[1..], now)
  }

  ghost predicate DistinctIds(ms: seq<Message>) {
    forall i, j :: 0 <= i < j < |ms| ==> ms[i].id != ms[j].id
  }

  /** The message as Enqueue stores it. */
  function Stamped(m: Message, stamp: string, now: Time): Message {
    m.(id := if m.id == "" then stamp else m.id, createdAt := now, expiresAt := now + DEFAULT_TTL, attempts := 0)
  }

  /** `q` is the message `msg`, accepted at time `at`, but for its attempts: it has an
      ID in any case, and seven days. */
  ghost predicate Carries(q: Message, msg: Message, stamp: string, at: Time) {
    && q.id == (if msg.id == "" then stamp else msg.id)
    && q.from == msg.from && q.to == msg.to && q.kind == msg.kind && q.content == msg.content
    && q.createdAt == at && q.expiresAt == at + 7 * 24 * 3600 * 1000000000
  }

  ghost predicate AcceptedAs(q: Message, msg: Message, stamp: string, at: Time) {
    Carries(q, msg, stamp, at) && q.attempts == 0 && q.lastAttempt == msg.lastAttempt
  }

  lemma StampedIsAccepted(msg: Message, stamp: string, now: Time)
    ensures AcceptedAs(Stamped(msg, stamp, now), msg, stamp, now)
  {
  }

  /** A slice's backing cells as far as they were ever written, and its length. */
  datatype Buffer = Buffer(cells: seq<Message>, len: nat) {
    ghost predicate Valid() { len <= |cells| }

    function Live(): seq<Message>
      requires len <= |cells|
    {
      cells[..len]
    }

    /** append, in the next cell: past the written ones when there is none to overwrite. */
    function Push(m: Message): (b: Buffer)
      requires len <= |cells|
      ensures b.len == len + 1 <= |b.cells| && |cells| <= |b.cells|
      ensures b.Live() == Live() + [m]
    {
      Buffer(if len < |cells| then cells[len := m] else cells + [m], len + 1)
    }

    /** RemoveMessage: the tail shifts down by one in place; the slot after the
        new end keeps the message that was last. */
    function Remove(id: string): (b: Buffer)
      requires len <= |cells|
      ensures b.len <= |b.cells| == |cells|
      ensures b.Live() == RemoveFirst(Live(), id)
    {
      var i := IndexOf(cells[..len], id);
      if i < len then
        var b := Buffer(cells[..i] + cells[i + 1..len] + cells[len - 1..], len - 1);
        assert b.Live() == RemoveAt(cells[..len], i);
        b
      else this
    }

    function Mark(id: string, now: Time): (b: Buffer)
      requires len <= |cells|
      ensures b.len <= |b.cells| == |cells|
      ensures b.Live() == MarkFirst(Live(), id, now)
    {
      var i := IndexOf(cells[..len], id);
      if i < len then this.(cells := cells[i := Marked(cells[i], now)]) else this
    }
  }

  lemma RemoveIsShift(b: Buffer, id: string, i: nat)
    requires b.len <= |b.cells| && i == IndexOf(b.Live(), id) && i < b.len
    ensures b.Remove(id) == Buffer(b.cells[..i] + b.cells[i + 1..b.len] + b.cells[b.len - 1..], b.len - 1)
  {
  }

  /** Removal only moves cells, each by one place at most. */
  lemma RemoveMovesCells(b: Buffer, id: string)
    requires b.len <= |b.cells|
    ensures forall i :: 0 <= i < |b.cells| ==>
              b.Remove(id).cells[i] == b.cells[i] || (i + 1 < |b.cells| && b.Remove(id).cells[i] == b.cells[i + 1])
  {
  }

  lemma RemoveFirstMembers(ms: seq<Message>, id: string)
    requires DistinctIds(ms)
    ensures forall m :: m in RemoveFirst(ms, id) <==> m in ms && m.id != id
    ensures DistinctIds(RemoveFirst(ms, id))
  {
    var i := IndexOf(ms, id);
    if i < |ms| {
      RemoveAtMembers(ms, i);
    } else {
      forall m | m in ms ensures m.id != id {
        var k :| 0 <= k < |ms| && ms[k] == m;
      }
    }
  }

  lemma RemoveAtMembers(ms: seq<Message>, i: nat)
    requires i < |ms| && DistinctIds(ms)
    ensures forall m :: m in RemoveAt(ms, i) <==> m in ms && m.id != ms[i].id
    ensures DistinctIds(RemoveAt(ms, i))
  {
  }

  /** For every message it is the first under its ID, and so the one taken out or
      marked on its account, if and only if no two share an ID. */
  lemma FirstUnderItsIdIff(ms: seq<Message>)
    ensures (forall i :: 0 <= i < |ms| ==> IndexOf(ms, ms[i].id) == i) <==> DistinctIds(ms)
  {
    if DistinctIds(ms) {
      forall i | 0 <= i < |ms| ensures IndexOf(ms, ms[i].id) == i {
        IndexIs(ms, ms[i].id, i);
      }
    }
  }

  /** The first message under the ID counts one more attempt, made now. */
  lemma MarkFirstAt(ms: seq<Message>, id: string, now: Time)
    ensures |MarkFirst(ms, id, now)| == |ms|
    ensures forall k :: 0 <= k < |ms| ==>
              MarkFirst(ms, id, now)[k] ==
              if k == IndexOf(ms, id) then ms[k].(attempts := ms[k].attempts + 1, lastAttempt := now) else ms[k]
  {
  }

  lemma MarkFirstMembers(ms: seq<Message>, id: string, now: Time)
    requires DistinctIds(ms)
    ensures DistinctIds(MarkFirst(ms, id, now)) && |MarkFirst(ms, id, now)| == |ms|
    ensures forall i :: 0 <= i < |ms| ==>
              MarkFirst(ms, id, now)[i] ==
              if ms[i].id == id then ms[i].(attempts := ms[i].attempts + 1, lastAttempt := now) else ms[i]
  {
  }

  lemma {:induction false} KeptMembers(ms: seq<Message>, now: Time)
    ensures forall m :: m in Kept(ms, now) <==> m in ms && now < m.expiresAt && m.attempts < 10
    ensures DistinctIds(ms) ==> DistinctIds(Kept(ms, now))
  {
    if ms != [] {
      KeptMembers(ms[1..], now);
      assert ms == [ms[0]] + ms[1..];
      if DistinctIds(ms) {
        var rest := Kept(ms[1..], now);
        forall j | 0 <= j < |rest| ensures rest[j].id != ms[0].id {
          assert rest[j] in ms[1..];
        }
      }
    }
  }

  lemma {:induction false} IndexIs(ms: seq<Message>, id: string, i: nat)
    requires i <= |ms| && (forall j :: 0 <= j < i ==> ms[j].id != id) && (i < |ms| ==> ms[i].id == id)
    ensures IndexOf(ms, id) == i
  {
  }
}
