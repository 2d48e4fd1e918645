/** One delivery pass over a peer's live slice, and what repeated passes leave.
    The loop's bound and array come from the slice header it started with, while
    every removal shifts that same array. */
module DeliveryPasses {
  import opened Common
  import opened QueueSpec

  /** How one send went; a failed one carries the time of its MarkAttempt. */
  datatype Outcome = Sent | Failed(at: Time)

  /** Announce passes ignore a failed send, ticks of the delivery loop mark it. */
  function Turn(b: Buffer, msg: Message, outcome: Outcome, marks: bool): (r: Buffer)
    requires b.len <= |b.cells|
    ensures r.len <= |r.cells| == |b.cells|
  {
    match outcome
    case Sent => b.Remove(msg.id)
    case Failed(at) => if marks then b.Mark(msg.id, at) else b
  }

  /** The turns from `i` to `n`, each reading the array as it is by then. */
  function Pass(b: Buffer, i: nat, n: nat, outcomes: seq<Outcome>, marks: bool): (r: Buffer)
    requires b.len <= |b.cells| && i <= n <= |b.cells| && n <= |outcomes|
    ensures r.len <= |r.cells| == |b.cells|
    decreases n - i
  {
    if i == n then b else Pass(Turn(b, b.cells[i], outcomes[i], marks), i + 1, n, outcomes, marks)
  }

  /** The messages those turns send, in order. */
  function Sends(b: Buffer, i: nat, n: nat, outcomes: seq<Outcome>, marks: bool): (r: seq<Message>)
    requires b.len <= |b.cells| && i <= n <= |b.cells| && n <= |outcomes|
    ensures |r| == n - i
    decreases n - i
  {
    if i == n then []
    else [b.cells[i]] + Sends(Turn(b, b.cells[i], outcomes[i], marks), i + 1, n, outcomes, marks)
  }

  lemma NoTurns(b: Buffer, outcomes: seq<Outcome>, marks: bool)
    requires b.len <= |b.cells|
    ensures Pass(b, 0, 0, outcomes, marks) == b && Sends(b, 0, 0, outcomes, marks) == []
  {
  }

  lemma {:induction false} PassSnoc(b: Buffer, i: nat, n: nat, outcomes: seq<Outcome>, marks: bool)
    requires b.len <= |b.cells| && i < n <= |b.cells| && n <= |outcomes|
    ensures var before := Pass(b, i, n - 1, outcomes, marks);
            && Pass(b, i, n, outcomes, marks) == Turn(before, before.cells[n - 1], outcomes[n - 1], marks)
            && Sends(b, i, n, outcomes, marks) == Sends(b, i, n - 1, outcomes, marks) + [before.cells[n - 1]]
    decreases n - i
  {
    hide Turn;
    if i < n - 1 {
      PassSnoc(Turn(b, b.cells[i], outcomes[i], marks), i + 1, n, outcomes, marks);
    }
  }

  /** How many messages a pass over n leaves when every send succeeds. */
  function LeftOver(n: nat): nat { if n == 0 then 0 else (n + 1) / 2 - 1 }

  /** The messages at odd positions before the last. */
  function Odds(ms: seq<Message>): (r: seq<Message>)
    ensures |r| == LeftOver(|ms|)
    ensures forall j :: 0 <= j < |r| ==> r[j] == ms[2 * j + 1]
  {
    seq(LeftOver(|ms|), j requires 0 <= j < LeftOver(|ms|) => ms[2 * j + 1])
  }

  /** The array after k turns that each hit a live message: the k odd ones are
      packed in front, the untouched rest follows, and every slot past the live
      end repeats the last message. */
  ghost predicate Halfway(b: Buffer, ms: seq<Message>, k: nat) {
    && |b.cells| == |ms| && 2 * k <= |ms| + 1 && b.len == |ms| - k
    && (forall j :: 0 <= j < k && j < b.len ==> b.cells[j] == ms[2 * j + 1])
    && (forall j :: k <= j < b.len ==> b.cells[j] == ms[j + k])
    && (forall j :: b.len <= j < |ms| ==> b.cells[j] == ms[|ms| - 1])
  }

  /** The end of a pass: the odd ones are left and every later slot is stale. */
  ghost predicate Settled(b: Buffer, ms: seq<Message>) {
    && |b.cells| == |ms| && b.len == LeftOver(|ms|)
    && (forall j :: 0 <= j < b.len ==> b.cells[j] == ms[2 * j + 1])
    && (forall j :: |ms| / 2 <= j < |ms| ==> b.cells[j] == ms[|ms| - 1])
  }

  lemma RemoveLive(b: Buffer, i: nat) returns (r: Buffer)
    requires i < b.len <= |b.cells| && DistinctIds(b.Live())
    ensures r == b.Remove(b.cells[i].id) && r.len == b.len - 1 && |r.cells| == |b.cells|
    ensures forall j :: i <= j < b.len - 1 ==> r.cells[j] == b.cells[j + 1]
    ensures forall j :: (0 <= j < i || b.len - 1 <= j < |b.cells|) ==> r.cells[j] == b.cells[j]
  {
    assert b.Live()[i] == b.cells[i];
    IndexIs(b.Live(), b.cells[i].id, i);
    r := b.Remove(b.cells[i].id);
  }

  lemma HalfwayDistinct(b: Buffer, ms: seq<Message>, k: nat)
    requires Halfway(b, ms, k) && DistinctIds(ms)
    ensures DistinctIds(b.Live())
  {
  }

  /** While the read index is live, the pass finds and removes the next even message. */
  lemma HalfwayTurn(b: Buffer, ms: seq<Message>, k: nat)
    requires Halfway(b, ms, k) && DistinctIds(ms) && 2 * k < |ms|
    ensures Halfway(b.Remove(b.cells[k].id), ms, k + 1)
  {
    hide DistinctIds;
    HalfwayDistinct(b, ms, k);
    var r := RemoveLive(b, k);
    HalfwayShift(b, r, ms, k);
  }

  lemma HalfwayShift(b: Buffer, r: Buffer, ms: seq<Message>, k: nat)
    requires Halfway(b, ms, k) && 2 * k < |ms| && r.len == b.len - 1 && |r.cells| == |b.cells|
    requires forall j :: k <= j < b.len - 1 ==> r.cells[j] == b.cells[j + 1]
    requires forall j :: (0 <= j < k || b.len - 1 <= j < |b.cells|) ==> r.cells[j] == b.cells[j]
    ensures Halfway(r, ms, k + 1)
  {
  }

  /** The first stale read of an even count still finds its message: the last one. */
  lemma LastTurn(b: Buffer, ms: seq<Message>, k: nat)
    requires Halfway(b, ms, k) && DistinctIds(ms) && ms != [] && 2 * k == |ms|
    ensures Settled(b.Remove(b.cells[k].id), ms)
  {
    hide DistinctIds, IndexOf, Buffer.Remove;
    HalfwayDistinct(b, ms, k);
    assert b.cells[k] == b.cells[b.len - 1];
    var r := RemoveLive(b, b.len - 1);
  }

  /** Later stale reads find nothing to remove. */
  lemma StaleTurn(b: Buffer, ms: seq<Message>, k: nat)
    requires Settled(b, ms) && DistinctIds(ms) && |ms| / 2 <= k < |ms|
    ensures b.Remove(b.cells[k].id) == b
  {
    forall j | 0 <= j < b.len ensures b.Live()[j].id != b.cells[k].id {
      assert b.cells[j] == ms[2 * j + 1] && b.cells[k] == ms[|ms| - 1];
    }
  }

  ghost predicate AllSent(outcomes: seq<Outcome>) {
    forall i :: 0 <= i < |outcomes| ==> outcomes[i] == Sent
  }

  lemma {:induction false} SettledPass(b: Buffer, ms: seq<Message>, k: nat, outcomes: seq<Outcome>, marks: bool)
    requires Settled(b, ms) && DistinctIds(ms) && |ms| / 2 <= k <= |ms| <= |outcomes| && AllSent(outcomes)
    ensures Pass(b, k, |ms|, outcomes, marks) == b
    decreases |ms| - k
  {
    if k < |ms| {
      StaleTurn(b, ms, k);
      SettledPass(b, ms, k + 1, outcomes, marks);
    }
  }

  lemma {:induction false} HalfwayPass(b: Buffer, ms: seq<Message>, k: nat, outcomes: seq<Outcome>, marks: bool)
    requires Halfway(b, ms, k) && DistinctIds(ms) && k <= |ms| <= |outcomes| && AllSent(outcomes)
    ensures Settled(Pass(b, k, |ms|, outcomes, marks), ms)
    decreases |ms| - k
  {
    if 2 * k < |ms| {
      HalfwayTurn(b, ms, k);
      HalfwayPass(b.Remove(b.cells[k].id), ms, k + 1, outcomes, marks);
    } else if ms == [] {
    } else if 2 * k == |ms| {
      LastTurn(b, ms, k);
      SettledPass(b.Remove(b.cells[k].id), ms, k + 1, outcomes, marks);
    } else {
      SettledPass(b, ms, k, outcomes, marks);
    }
  }

  /** With distinct IDs, no interleaved calls and every send succeeding, one pass
      leaves exactly the messages at odd positions before the last. */
  lemma PassLeavesOdds(b: Buffer, outcomes: seq<Outcome>, marks: bool)
    requires b.len <= |b.cells| && b.len <= |outcomes| && DistinctIds(b.Live()) && AllSent(outcomes)
    ensures Pass(b, 0, b.len, outcomes, marks).Live() == Odds(b.Live())
  {
    var whole := Buffer(b.Live(), b.len);
    PassIgnoresSpareCells(b, 0, b.len, b.len, outcomes, marks);
    HalfwayPass(whole, b.Live(), 0, outcomes, marks);
  }

  /** What turn `i` of a pass over `ms` sends when every send succeeds: the messages at
      even positions, once each, and then the last one in every turn that remains. */
  function SentAt(ms: seq<Message>, i: nat): Message
    requires i < |ms|
  {
    if 2 * i < |ms| then ms[2 * i] else ms[|ms| - 1]
  }

  function SentFrom(ms: seq<Message>, k: nat): (r: seq<Message>)
    requires k <= |ms|
    ensures |r| == |ms| - k && forall i :: 0 <= i < |r| ==> r[i] == SentAt(ms, k + i)
    decreases |ms| - k
  {
    if k == |ms| then [] else [SentAt(ms, k)] + SentFrom(ms, k + 1)
  }

  lemma {:induction false} SettledSends(b: Buffer, ms: seq<Message>, k: nat, outcomes: seq<Outcome>, marks: bool)
    requires Settled(b, ms) && DistinctIds(ms) && |ms| / 2 <= k <= |ms| <= |outcomes| && AllSent(outcomes)
    ensures Sends(b, k, |ms|, outcomes, marks) == SentFrom(ms, k)
    decreases |ms| - k
  {
    if k < |ms| {
      StaleTurn(b, ms, k);
      SettledSends(b, ms, k + 1, outcomes, marks);
    }
  }

  lemma SuccessfulTurn(b: Buffer, k: nat, outcomes: seq<Outcome>, marks: bool)
    requires b.len <= |b.cells| && k < |b.cells| && k < |outcomes| && AllSent(outcomes)
    ensures Turn(b, b.cells[k], outcomes[k], marks) == b.Remove(b.cells[k].id)
  {
  }

  lemma HalfwayReads(b: Buffer, ms: seq<Message>, k: nat)
    requires Halfway(b, ms, k) && k < |ms|
    ensures b.len <= |b.cells| == |ms| && b.cells[k] == SentAt(ms, k)
    ensures 2 * k > |ms| ==> Settled(b, ms)
  {
  }

  lemma {:induction false} HalfwaySends(b: Buffer, ms: seq<Message>, k: nat, outcomes: seq<Outcome>, marks: bool)
    requires Halfway(b, ms, k) && DistinctIds(ms) && k <= |ms| <= |outcomes| && AllSent(outcomes)
    ensures Sends(b, k, |ms|, outcomes, marks) == SentFrom(ms, k)
    decreases |ms| - k
  {
    hide DistinctIds, Halfway, Settled, AllSent, Buffer.Remove, Turn, SentAt;
    if k < |ms| {
      HalfwayReads(b, ms, k);
      SuccessfulTurn(b, k, outcomes, marks);
      if 2 * k < |ms| {
        HalfwayTurn(b, ms, k);
        HalfwaySends(b.Remove(b.cells[k].id), ms, k + 1, outcomes, marks);
      } else if 2 * k == |ms| {
        LastTurn(b, ms, k);
        SettledSends(b.Remove(b.cells[k].id), ms, k + 1, outcomes, marks);
      } else {
        SettledSends(b, ms, k, outcomes, marks);
      }
    }
  }

  /** Cells past the first n play no part in a pass over n. */
  lemma {:induction false} PassIgnoresSpareCells(b: Buffer, i: nat, n: nat, m: nat, outcomes: seq<Outcome>, marks: bool)
    requires b.len <= n <= m && m <= |b.cells| && i <= n <= |outcomes|
    ensures var trimmed := Buffer(b.cells[..m], b.len);
            && Pass(b, i, n, outcomes, marks).Live() == Pass(trimmed, i, n, outcomes, marks).Live()
            && Sends(b, i, n, outcomes, marks) == Sends(trimmed, i, n, outcomes, marks)
    decreases n - i
  {
    var trimmed := Buffer(b.cells[..m], b.len);
    if i < n {
      var b' := Turn(b, b.cells[i], outcomes[i], marks);
      TurnIgnoresSpareCells(b, b.cells[i], m, outcomes[i], marks);
      hide Turn;
      PassIgnoresSpareCells(b', i + 1, n, m, outcomes, marks);
    }
  }

  lemma TurnIgnoresSpareCells(b: Buffer, msg: Message, m: nat, outcome: Outcome, marks: bool)
    requires b.len <= m <= |b.cells|
    ensures var b', trimmed := Turn(b, msg, outcome, marks), Buffer(b.cells[..m], b.len);
            b'.len <= b.len && Turn(trimmed, msg, outcome, marks) == Buffer(b'.cells[..m], b'.len)
  {
    var trimmed := Buffer(b.cells[..m], b.len);
    assert trimmed.Live() == b.Live();
  }

  /** With distinct IDs, no interleaved calls and every send succeeding, a pass sends
      the messages it takes out once each, and the last one over and over. */
  lemma PassSendsEvens(b: Buffer, outcomes: seq<Outcome>, marks: bool)
    requires b.len <= |b.cells| && b.len <= |outcomes| && DistinctIds(b.Live()) && AllSent(outcomes)
    ensures var sent := Sends(b, 0, b.len, outcomes, marks);
            |sent| == b.len && forall i :: 0 <= i < b.len ==> sent[i] == SentAt(b.Live(), i)
  {
    PassIgnoresSpareCells(b, 0, b.len, b.len, outcomes, marks);
    HalfwaySends(Buffer(b.Live(), b.len), b.Live(), 0, outcomes, marks);
  }

  /** The messages a pass over all of `ms` leaves. */
  function PassOver(ms: seq<Message>, outcomes: seq<Outcome>, marks: bool): seq<Message>
    requires |ms| <= |outcomes|
  {
    Pass(Buffer(ms, |ms|), 0, |ms|, outcomes, marks).Live()
  }

  lemma PassOfLive(b: Buffer, outcomes: seq<Outcome>, marks: bool)
    requires b.len <= |b.cells| && b.len <= |outcomes|
    ensures Pass(b, 0, b.len, outcomes, marks).Live() == PassOver(b.Live(), outcomes, marks)
  {
    PassIgnoresSpareCells(b, 0, b.len, b.len, outcomes, marks);
  }

  /** Only turn `j` sends. */
  ghost predicate OneSent(outcomes: seq<Outcome>, j: nat) {
    j < |outcomes| && outcomes[j].Sent? && forall i :: 0 <= i < |outcomes| && i != j ==> outcomes[i].Failed?
  }

  lemma {:induction false} FailedTurns(b: Buffer, i: nat, n: nat, outcomes: seq<Outcome>)
    requires b.len <= |b.cells| && i <= n <= |b.cells| && n <= |outcomes|
    requires forall k :: i <= k < n ==> outcomes[k].Failed?
    ensures Pass(b, i, n, outcomes, false) == b
    decreases n - i
  {
    if i < n {
      FailedTurns(b, i + 1, n, outcomes);
    }
  }

  lemma {:induction false} OneSentTurns(b: Buffer, i: nat, j: nat, n: nat, outcomes: seq<Outcome>)
    requires b.len <= |b.cells| && i <= j < n <= |b.cells| && n <= |outcomes| && OneSent(outcomes, j)
    ensures Pass(b, i, n, outcomes, false) == b.Remove(b.cells[j].id)
    decreases j - i
  {
    if i < j {
      OneSentTurns(b, i + 1, j, n, outcomes);
    } else {
      FailedTurns(b.Remove(b.cells[j].id), j + 1, n, outcomes);
    }
  }

  /** A pass in which only turn `j` sends takes out the first message under the ID
      sent. If an earlier one shares the ID, that is one never sent, and the one
      delivered stays, to be sent again. */
  lemma SharedIdLosesMessage(ms: seq<Message>, j: nat, outcomes: seq<Outcome>)
    requires j < |ms| <= |outcomes| && OneSent(outcomes, j)
    ensures var left, k := PassOver(ms, outcomes, false), IndexOf(ms, ms[j].id);
            && k <= j && left == RemoveAt(ms, k)
            && (k == j <==> forall i :: 0 <= i < j ==> ms[i].id != ms[j].id)
            && (k < j ==> left[j - 1] == ms[j])
  {
    var whole := Buffer(ms, |ms|);
    assert whole.Live() == ms;
    OneSentTurns(whole, 0, j, |ms|, outcomes);
  }

  // ---------- repeated passes ----------

  function Passes(ms: seq<Message>, p: nat): seq<Message>
    decreases p
  {
    if p == 0 then ms else Passes(Odds(ms), p - 1)
  }

  function Pow2(p: nat): (r: nat)
    ensures r >= 1
  {
    if p == 0 then 1 else 2 * Pow2(p - 1)
  }

  /** After p passes the messages left are those whose positions, counted from
      one, are the multiples of 2^p, less the last such slot: (n + 1) / 2^p - 1. */
  lemma {:induction false} PassesLeave(ms: seq<Message>, p: nat)
    ensures if Pow2(p) <= |ms| + 1
            then |Passes(ms, p)| == (|ms| + 1) / Pow2(p) - 1
            else Passes(ms, p) == []
    ensures forall j :: 0 <= j < |Passes(ms, p)| ==>
              0 <= Nth(p, j) < |ms| && Passes(ms, p)[j] == ms[Nth(p, j)]
    decreases p
  {
    if p == 0 {
      Quotient(|ms| + 1, 1, |ms| + 1, 0);
    } else {
      PassesLeave(Odds(ms), p - 1);
      HalvedTwice(|ms| + 1, Pow2(p - 1));
      forall j | 0 <= j < |Passes(ms, p)|
        ensures 0 <= Nth(p, j) < |ms| && Passes(ms, p)[j] == ms[Nth(p, j)]
      {
        NthDoubles(p, j);
        assert Passes(Odds(ms), p - 1)[j] == Odds(ms)[Nth(p - 1, j)];
      }
    }
  }

  /** The original position of the j-th message left after p passes. */
  function Nth(p: nat, j: nat): int { Pow2(p) * (j + 1) - 1 }

  lemma NthDoubles(p: nat, j: nat)
    requires p > 0
    ensures Nth(p, j) == 2 * Nth(p - 1, j) + 1
  {
  }

  lemma HalvedTwice(n: nat, half: nat)
    requires half >= 1
    ensures n / 2 / half == n / (2 * half)
    ensures half <= n / 2 <==> 2 * half <= n
  {
    var m := n / 2;
    var q, r := m / half, m % half;
    assert m == half * q + r;
    assert n == 2 * (half * q) + (2 * r + n % 2) && 2 * (half * q) == (2 * half) * q;
    Quotient(n, 2 * half, q, 2 * r + n % 2);
  }

  lemma AtLeastOnce(d: nat, a: int)
    requires a >= 1
    ensures d * a >= d
  {
  }

  lemma Quotient(n: nat, d: nat, q: nat, r: nat)
    requires d >= 1 && n == d * q + r && r < d
    ensures n / d == q
  {
    var q', r' := n / d, n % d;
    assert n == d * q' + r';
    assert d * q' - d * q == d * (q' - q) == -(d * (q - q'));
    if q' > q { AtLeastOnce(d, q' - q); }
    if q' < q { AtLeastOnce(d, q - q'); }
  }

  /** Repeated passes empty the queue, after just as many as it takes for 2^p to
      exceed half of n + 1. */
  lemma PassesDrain(ms: seq<Message>, p: nat)
    ensures Passes(ms, p) == [] <==> |ms| + 1 < 2 * Pow2(p)
  {
    hide Pow2;
    PassesLeave(ms, p);
    QuotientSize(|ms| + 1, Pow2(p));
  }

  lemma QuotientSize(n: nat, d: nat)
    requires d >= 1
    ensures n < d ==> n / d == 0
    ensures d <= n < 2 * d ==> n / d == 1
    ensures 2 * d <= n ==> n / d >= 2
  {
  }

  /** p passes in a row, each over a slice header peeked afresh, every send succeeding. */
  function PassTimes(b: Buffer, p: nat, marks: bool): (r: Buffer)
    requires b.len <= |b.cells|
    ensures r.len <= |r.cells|
    decreases p
  {
    if p == 0 then b else PassTimes(Pass(b, 0, b.len, seq(b.len, _ => Sent), marks), p - 1, marks)
  }

  lemma {:induction false} PassTimesArePasses(b: Buffer, p: nat, marks: bool)
    requires b.len <= |b.cells| && DistinctIds(b.Live())
    ensures PassTimes(b, p, marks).Live() == Passes(b.Live(), p)
    decreases p
  {
    if p > 0 {
      var outcomes := seq(b.len, _ => Sent);
      PassLeavesOdds(b, outcomes, marks);
      var b' := Pass(b, 0, b.len, outcomes, marks);
      forall i, j | 0 <= i < j < b'.len ensures b'.Live()[i].id != b'.Live()[j].id {
        assert b'.Live()[i] == b.Live()[2 * i + 1] && b'.Live()[j] == b.Live()[2 * j + 1];
      }
      PassTimesArePasses(b', p - 1, marks);
    }
  }

  /** p passes over n queued messages leave (n + 1) / 2^p - 1 of them while 2^p is
      at most n + 1, namely every 2^p-th, and none after that. */
  lemma RepeatedPasses(b: Buffer, p: nat, marks: bool)
    requires b.len <= |b.cells| && DistinctIds(b.Live())
    ensures var left := PassTimes(b, p, marks).Live();
            && |left| == (if Pow2(p) <= b.len + 1 then (b.len + 1) / Pow2(p) - 1 else 0)
            && (forall j :: 0 <= j < |left| ==> 0 <= Nth(p, j) < b.len && left[j] == b.cells[Nth(p, j)])
            && (left == [] <==> b.len + 1 < 2 * Pow2(p))
  {
    hide Passes, PassTimes, Pow2, Nth;
    PassTimesArePasses(b, p, marks);
    PassesLeave(b.Live(), p);
    PassesDrain(b.Live(), p);
  }
}
