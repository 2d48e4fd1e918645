/** Whole runs of the rate limiter. */
module LimiterRuns {
  import opened Common
  import opened TokenBuckets
  import opened RateLimiters
  import BucketRuns

  datatype Op =
    | AllowRequest(peer: string, at: Time)
    | AllowBytes(peer: string, n: int, at: Time)
    | AllowConnection(peer: string, at: Time)
    | ReleaseConnection(peer: string, at: Time)
    | WaitForRequest(peer: string, at: Time)
    | GetPeerStats(peer: string, at: Time)
    | Cleanup(maxAge: int, at: Time)
    | Reset(peer: string, at: Time)
    | ResetAll(at: Time)

  function Step(l: Limiter, op: Op): Limiter {
    match op
    case AllowRequest(peer, at) => l.AfterAllowRequest(peer, at)
    case AllowBytes(peer, n, at) => l.AfterAllowBytes(peer, n, at)
    case AllowConnection(peer, _) => l.AfterAllowConnection(peer)
    case ReleaseConnection(peer, _) => l.AfterRelease(peer)
    case WaitForRequest(peer, at) => l.AfterLook(peer, at, false)
    case GetPeerStats(peer, at) => l.AfterLook(peer, at, true)
    case Cleanup(maxAge, at) => l.Without(l.Stale(maxAge, at))
    case Reset(peer, _) => l.Without({peer})
    case ResetAll(_) => l.AfterResetAll()
  }

  predicate Granted(l: Limiter, op: Op) {
    op.AllowRequest? && l.AllowsRequest(op.peer, op.at)
  }

  /** The answers to the AllowRequest calls of a run, in order. */
  function RequestAnswers(l: Limiter, ops: seq<Op>): seq<bool>
    decreases |ops|
  {
    if ops == [] then []
    else
      (if ops[0].AllowRequest? then [Granted(l, ops[0])] else []) + RequestAnswers(Step(l, ops[0]), ops[1..])
  }

  ghost predicate Timed(ops: seq<Op>, t: Time)
    decreases |ops|
  {
    ops == [] || (t <= ops[0].at && Timed(ops[1..], ops[0].at))
  }

  ghost predicate Sane(config: Config) { config.maxBurstSize >= 0.0 && config.maxRequestsPerSecond >= 0.0 }

  // ---------- window bounds ----------

  /** Requests granted at instants between `from` and `to`, to one peer or to all. */
  function RequestsGrantedIn(l: Limiter, ops: seq<Op>, who: Option<string>, from: Time, to: Time): nat
    decreases |ops|
  {
    if ops == [] then 0
    else
      var op := ops[0];
      (if Granted(l, op) && (who.Some? ==> who.value == op.peer) && from <= op.at <= to then 1 else 0)
      + RequestsGrantedIn(Step(l, op), ops[1..], who, from, to)
  }

  /** What the global bucket is asked in a run: one token for every request. */
  function GlobalOps(ops: seq<Op>): seq<BucketRuns.Op> {
    if ops == [] then []
    else (if ops[0].AllowRequest? then [BucketRuns.AllowN(1.0, ops[0].at)] else []) + GlobalOps(ops[1..])
  }

  lemma {:induction false} GlobalOpsTimed(ops: seq<Op>, t: Time)
    requires Timed(ops, t)
    ensures BucketRuns.Timed(GlobalOps(ops), t)
    ensures BucketRuns.NonNegative(GlobalOps(ops))
  {
    if ops != [] {
      GlobalOpsTimed(ops[1..], ops[0].at);
      if ops[0].AllowRequest? {
        assert GlobalOps(ops)[1..] == GlobalOps(ops[1..]);
      } else {
        assert GlobalOps(ops) == GlobalOps(ops[1..]);
      }
    }
  }

  /** Each granted request took a token from the global bucket, which no reset touches. */
  lemma {:induction false} GlobalBucketPays(l: Limiter, ops: seq<Op>, from: Time, to: Time)
    ensures RequestsGrantedIn(l, ops, None, from, to) as real
            <= BucketRuns.GrantedIn(l.global, GlobalOps(ops), from, to)
    decreases |ops|
  {
    if ops != [] {
      var op := ops[0];
      GlobalBucketPays(Step(l, op), ops[1..], from, to);
      hide Bucket.Refill, Bucket.AfterAllowN;
      assert !op.AllowRequest? ==> Step(l, op).global == l.global;
      if op.AllowRequest? {
        assert GlobalOps(ops)[1..] == GlobalOps(ops[1..]);
      } else {
        assert GlobalOps(ops) == GlobalOps(ops[1..]);
      }
    }
  }

  lemma GlobalWithinYield(config: Config, start: Time, ops: seq<Op>, from: Time, to: Time)
    requires Sane(config) && Timed(ops, start) && from <= to
    ensures var g := NewLimiter(config, start).global;
            RequestsGrantedIn(NewLimiter(config, start), ops, None, from, to) as real
            <= g.maxTokens + (to - from) as real * g.refillRate / 1000000000.0
  {
    hide RequestsGrantedIn, GlobalOps, Yield, BucketRuns.GrantedIn;
    var l := NewLimiter(config, start);
    GlobalBucketPays(l, ops, from, to);
    GlobalOpsTimed(ops, start);
    BucketRuns.WindowBound(l.global, GlobalOps(ops), from, to);
  }

  /** In any window the requests granted to all peers together obey the global
      bucket's bound, whatever resets and cleanups the run contains. */
  lemma GlobalWindowBound(config: Config, start: Time, ops: seq<Op>, from: Time, to: Time)
    requires Sane(config) && Timed(ops, start) && from <= to
    ensures RequestsGrantedIn(NewLimiter(config, start), ops, None, from, to) as real
            <= config.maxBurstSize * 10.0 + (to - from) as real * (config.maxRequestsPerSecond * 10.0) / 1000000000.0
  {
    hide RequestsGrantedIn;
    GlobalWithinYield(config, start, ops, from, to);
  }

  /** A bucket idle for longer than `maxAge` has refilled completely. */
  ghost predicate Transparent(config: Config, maxAge: int) {
    Yield(config.maxRequestsPerSecond, maxAge) >= config.maxBurstSize
  }

  /** The run resets neither the peer nor all peers, and its cleanups only take
      request buckets that have refilled completely. */
  ghost predicate NeverReset(config: Config, ops: seq<Op>, peer: string) {
    forall op :: op in ops ==>
      && !op.ResetAll? && (op.Reset? ==> op.peer != peer)
      && (op.Cleanup? ==> Transparent(config, op.maxAge))
  }

  /** Every request bucket has the configured capacity and rate. */
  ghost predicate Configured(l: Limiter) {
    && Sane(l.config) && l.global.refillRate >= 0.0
    && forall p :: p in l.peers ==>
         && l.peers[p].maxTokens == l.config.maxBurstSize
         && l.peers[p].refillRate == l.config.maxRequestsPerSecond
         && 0.0 <= l.peers[p].tokens <= l.config.maxBurstSize
  }

  lemma StepKeepsConfigured(l: Limiter, op: Op, t: Time)
    requires Configured(l) && t <= op.at
    requires forall p :: p in l.peers ==> l.peers[p].lastRefill <= t
    ensures Configured(Step(l, op))
    ensures forall p :: p in Step(l, op).peers ==> Step(l, op).peers[p].lastRefill <= op.at
  {
    if op.AllowRequest? || op.WaitForRequest? || op.GetPeerStats? {
      var b := l.PeerBucket(op.peer, op.at);
      YieldAdds(b.refillRate, op.at - b.lastRefill, 0);
    }
  }

  /** The operation takes all the peer's entries out of the three maps. */
  predicate Drops(l: Limiter, op: Op, peer: string) {
    match op
    case Cleanup(maxAge, at) => peer in l.Stale(maxAge, at)
    case Reset(p, _) => p == peer
    case ResetAll(_) => true
    case _ => false
  }

  /** The peer's level at `t`, a peer without a bucket counting as full. */
  function Level(l: Limiter, peer: string, t: Time): Bucket { l.PeerBucket(peer, t).Refill(t) }

  ghost predicate RequestsConfigured(l: Limiter, peer: string) {
    && Sane(l.config)
    && (peer in l.peers ==>
         l.peers[peer].maxTokens == l.config.maxBurstSize && l.peers[peer].refillRate == l.config.maxRequestsPerSecond)
  }

  lemma LevelLater(l: Limiter, peer: string, t: Time, u: Time)
    requires RequestsConfigured(l, peer) && t <= u
    ensures Level(l, peer, u) == Level(l, peer, t).Refill(u)
  {
  }

  /** The global bucket lets the peer's request through to its own. */
  predicate Charges(l: Limiter, op: Op, peer: string) {
    op.AllowRequest? && op.peer == peer && l.global.Grants(1.0, op.at)
  }

  lemma PeerBucketStep(l: Limiter, op: Op, peer: string)
    ensures Step(l, op).config == l.config
    ensures Granted(l, op) && op.peer == peer <==>
              Charges(l, op, peer) && l.PeerBucket(peer, op.at).Grants(1.0, op.at)
    ensures var b, b' := l.PeerBucket(peer, op.at), Step(l, op).PeerBucket(peer, op.at);
            if Charges(l, op, peer) then b' == b.AfterAllowN(1.0, op.at)
            else if Drops(l, op, peer) then b' == Full(l.config.maxBurstSize, l.config.maxRequestsPerSecond, op.at)
            else b' == b || b' == b.Refill(op.at)
  {
    hide Bucket.Refill, Bucket.Grants, Bucket.AfterAllowN;
  }

  lemma LevelStep(l: Limiter, op: Op, peer: string, t: Time)
    requires RequestsConfigured(l, peer) && t <= op.at
    ensures RequestsConfigured(Step(l, op), peer) && Step(l, op).config == l.config
    ensures Level(l, peer, op.at) == Level(l, peer, t).Refill(op.at)
    ensures var b := Level(l, peer, op.at);
            && (Granted(l, op) && op.peer == peer <==> Charges(l, op, peer) && b.Grants(1.0, op.at))
            && Level(Step(l, op), peer, op.at) ==
               if Charges(l, op, peer) then b.AfterAllowN(1.0, op.at).Refill(op.at)
               else if Drops(l, op, peer) then Full(b.maxTokens, b.refillRate, op.at)
               else b
  {
    hide Step, Drops, Charges, Granted, Yield;
    PeerBucketStep(l, op, peer);
    YieldAdds(l.config.maxRequestsPerSecond, 0, 0);
    BucketRuns.RefillComposes(l.PeerBucket(peer, op.at), op.at, op.at);
    LevelLater(l, peer, t, op.at);
  }

  /** What cleanups and resets hand back to the peer between `from` and `to`: the
      tokens missing in its request bucket when they drop it. */
  function RequestRefunds(l: Limiter, ops: seq<Op>, peer: string, from: Time, to: Time): real
    decreases |ops|
  {
    if ops == [] then 0.0
    else
      (if Drops(l, ops[0], peer) && from <= ops[0].at <= to
       then l.config.maxBurstSize - Level(l, peer, ops[0].at).tokens else 0.0)
      + RequestRefunds(Step(l, ops[0]), ops[1..], peer, from, to)
  }

  lemma {:induction false} RequestsWithinBudget(l: Limiter, ops: seq<Op>, peer: string,
                                                t: Time, from: Time, to: Time)
    requires RequestsConfigured(l, peer) && Level(l, peer, t).Valid() && Timed(ops, t) && from <= to
    ensures RequestsGrantedIn(l, ops, Some(peer), from, to) as real
            <= BucketRuns.Budget(Level(l, peer, t), from, to) + RequestRefunds(l, ops, peer, from, to)
    decreases |ops|
  {
    var b := Level(l, peer, t);
    BucketRuns.BudgetBound(b, from, to);
    if ops != [] {
      var op := ops[0];
      var c := Level(l, peer, op.at);
      LevelStep(l, op, peer, t);
      BucketRuns.StepKeepsValid(b, BucketRuns.Tokens(op.at));
      BucketRuns.StepWithinBudget(b, BucketRuns.Tokens(op.at), from, to);
      BucketRuns.TakeWithinBudget(c, 1.0, op.at, from, to);
      BucketRuns.RenewalWithinBudget(c, op.at, from, to);
      assert c.maxTokens == l.config.maxBurstSize;
      hide RequestsConfigured, Level, BucketRuns.Budget, Yield, Granted, Charges, Drops, Step;
      hide Bucket.Refill, Bucket.AfterAllowN, Bucket.Grants;
      RequestsWithinBudget(Step(l, op), ops[1..], peer, op.at, from, to);
    }
  }

  lemma PeerWithinYield(config: Config, start: Time, ops: seq<Op>, peer: string, from: Time, to: Time)
    requires Sane(config) && Timed(ops, start) && from <= to
    ensures RequestsGrantedIn(NewLimiter(config, start), ops, Some(peer), from, to) as real
            <= config.maxBurstSize + Yield(config.maxRequestsPerSecond, to - from)
               + RequestRefunds(NewLimiter(config, start), ops, peer, from, to)
  {
    var l := NewLimiter(config, start);
    RequestsWithinBudget(l, ops, peer, start, from, to);
    BucketRuns.BudgetBound(Level(l, peer, start), from, to);
  }

  /** In any run and any window a peer is granted at most its capacity, what its rate
      yields over the window and what cleanups and resets hand back in it. */
  lemma PeerWindowBound(config: Config, start: Time, ops: seq<Op>, peer: string, from: Time, to: Time)
    requires Sane(config) && Timed(ops, start) && from <= to
    ensures RequestsGrantedIn(NewLimiter(config, start), ops, Some(peer), from, to) as real
            <= config.maxBurstSize + (to - from) as real * config.maxRequestsPerSecond / 1000000000.0
               + RequestRefunds(NewLimiter(config, start), ops, peer, from, to)
  {
    hide RequestsGrantedIn, RequestRefunds, Yield, NewLimiter;
    PeerWithinYield(config, start, ops, peer, from, to);
    YieldWrittenOut(config.maxRequestsPerSecond, to - from);
  }

  /** Cleanups by an age that lets a bucket refill completely hand nothing back. */
  lemma {:induction false} TransparentRunsRefundNothing(l: Limiter, ops: seq<Op>, peer: string,
                                                        t: Time, from: Time, to: Time)
    requires Configured(l) && Timed(ops, t) && NeverReset(l.config, ops, peer)
    requires forall p :: p in l.peers ==> l.peers[p].lastRefill <= t
    ensures RequestRefunds(l, ops, peer, from, to) == 0.0
    decreases |ops|
  {
    if ops != [] {
      var op := ops[0];
      assert op in ops;
      if Drops(l, op, peer) {
        var b := l.peers[peer];
        YieldAdds(b.refillRate, op.maxAge, op.at - b.lastRefill - op.maxAge);
      }
      StepKeepsConfigured(l, op, t);
      hide Configured, Transparent;
      TransparentRunsRefundNothing(Step(l, op), ops[1..], peer, op.at, from, to);
    }
  }

  /** Nor does the relay's hourly cleanup by a day's age under the default limits. */
  lemma HourlyCleanupsRefundNothing(start: Time, ops: seq<Op>, peer: string, from: Time, to: Time)
    requires Timed(ops, start)
    requires forall op :: op in ops ==>
               && !op.ResetAll? && (op.Reset? ==> op.peer != peer)
               && (op.Cleanup? ==> op.maxAge == 24 * 3600 * 1000000000)
    ensures var config := Config(100.0, 200.0, 10 * 1024 * 1024, 10);
            RequestRefunds(NewLimiter(config, start), ops, peer, from, to) == 0.0
  {
    var config := Config(100.0, 200.0, 10 * 1024 * 1024, 10);
    assert Transparent(config, 24 * 3600 * 1000000000);
    TransparentRunsRefundNothing(NewLimiter(config, start), ops, peer, start, from, to);
  }

  // ---------- what a burst is granted ----------

  /** One request of each of these peers, all at the same instant. */
  function AtOnce(peers: seq<string>, now: Time): (ops: seq<Op>)
    ensures |ops| == |peers|
  {
    if peers == [] then [] else [AllowRequest(peers[0], now)] + AtOnce(peers[1..], now)
  }

  /** As many as there are, but no more than the level holds. */
  function AtMost(k: nat, level: real): nat {
    if level < 1.0 then 0 else if k <= level.Floor then k else level.Floor
  }

  /** All levels that a request of this peer looks at are as of now. */
  ghost predicate AsOfNow(l: Limiter, peer: string, now: Time) {
    && l.config.maxBurstSize >= 0.0
    && l.global.lastRefill == now && 0.0 <= l.global.tokens <= l.global.maxTokens
    && (peer in l.peers ==>
         && l.peers[peer].lastRefill == now
         && 0.0 <= l.peers[peer].tokens <= l.peers[peer].maxTokens == l.config.maxBurstSize)
  }

  function TokensOf(l: Limiter, peer: string): real {
    if peer in l.peers then l.peers[peer].tokens else l.config.maxBurstSize
  }

  lemma RequestNow(l: Limiter, peer: string, now: Time)
    requires AsOfNow(l, peer, now)
    ensures var op := AllowRequest(peer, now);
            var t, ok := Step(l, op), l.global.tokens >= 1.0 && TokensOf(l, peer) >= 1.0;
            && (Granted(l, op) <==> ok)
            && t.config == l.config && AsOfNow(t, peer, now)
            && t.global.tokens == (if l.global.tokens >= 1.0 then l.global.tokens - 1.0 else l.global.tokens)
            && TokensOf(t, peer) == (if ok then TokensOf(l, peer) - 1.0 else TokensOf(l, peer))
            && t.peers.Keys <= l.peers.Keys + {peer}
  {
    hide Limiter.AllowsRequest, Limiter.AfterAllowRequest;
    RequestOutcome(l, peer, now);
  }

  lemma FirstAtOnce(l: Limiter, peers: seq<string>, now: Time)
    requires peers != []
    ensures var op := AllowRequest(peers[0], now);
            RequestsGrantedIn(l, AtOnce(peers, now), None, now, now) ==
            (if Granted(l, op) then 1 else 0) + RequestsGrantedIn(Step(l, op), AtOnce(peers[1..], now), None, now, now)
  {
    hide Granted, Step;
    assert AtOnce(peers, now)[1..] == AtOnce(peers[1..], now);
  }

  lemma {:induction false} EachOnce(l: Limiter, peers: seq<string>, now: Time)
    requires l.config.maxBurstSize >= 1.0 && l.global.lastRefill == now && 0.0 <= l.global.tokens <= l.global.maxTokens
    requires forall i :: 0 <= i < |peers| ==> peers[i] !in l.peers
    requires forall i, j :: 0 <= i < j < |peers| ==> peers[i] != peers[j]
    ensures RequestsGrantedIn(l, AtOnce(peers, now), None, now, now) == AtMost(|peers|, l.global.tokens)
    decreases |peers|
  {
    hide Granted, Step, AtOnce;
    if peers != [] {
      RequestNow(l, peers[0], now);
      FirstAtOnce(l, peers, now);
      EachOnce(Step(l, AllowRequest(peers[0], now)), peers[1..], now);
    } else {
      NoneAtOnce(l, now);
    }
  }

  lemma NoneAtOnce(l: Limiter, now: Time)
    ensures RequestsGrantedIn(l, AtOnce([], now), None, now, now) == 0
  {
  }

  lemma {:induction false} OneOften(l: Limiter, peer: string, k: nat, now: Time)
    requires AsOfNow(l, peer, now)
    ensures RequestsGrantedIn(l, AtOnce(seq(k, _ => peer), now), None, now, now)
            == AtMost(AtMost(k, TokensOf(l, peer)), l.global.tokens)
    decreases k
  {
    hide Granted, Step, AtOnce, AsOfNow;
    var peers := seq(k, _ => peer);
    if k > 0 {
      assert peers[0] == peer && peers[1..] == seq(k - 1, _ => peer);
      TokensAreSome(l, peer, now);
      RequestNow(l, peer, now);
      TokensAreSome(Step(l, AllowRequest(peer, now)), peer, now);
      FirstAtOnce(l, peers, now);
      OneOften(Step(l, AllowRequest(peer, now)), peer, k - 1, now);
    } else {
      assert peers == [];
      TokensAreSome(l, peer, now);
      NoneAtOnce(l, now);
    }
  }

  lemma TokensAreSome(l: Limiter, peer: string, now: Time)
    requires AsOfNow(l, peer, now)
    ensures TokensOf(l, peer) >= 0.0 && l.global.tokens >= 0.0
  {
  }

  /** At once a new limiter grants one request each to as many peers as ten bursts hold,
      and to a single peer as many as one burst holds. */
  lemma BurstsGranted(config: Config, peers: seq<string>, peer: string, k: nat, now: Time)
    requires config.maxBurstSize >= 1.0
    requires forall i, j :: 0 <= i < j < |peers| ==> peers[i] != peers[j]
    ensures RequestsGrantedIn(NewLimiter(config, now), AtOnce(peers, now), None, now, now)
            == AtMost(|peers|, config.maxBurstSize * 10.0)
    ensures RequestsGrantedIn(NewLimiter(config, now), AtOnce(seq(k, _ => peer), now), None, now, now)
            == AtMost(k, config.maxBurstSize)
  {
    EachOnce(NewLimiter(config, now), peers, now);
    OneOften(NewLimiter(config, now), peer, k, now);
  }

  // ---------- bytes ----------

  /** Bytes granted to the peer at instants between `from` and `to`. */
  function BytesGrantedIn(l: Limiter, ops: seq<Op>, peer: string, from: Time, to: Time): real
    decreases |ops|
  {
    if ops == [] then 0.0
    else
      var op := ops[0];
      (if op.AllowBytes? && op.peer == peer && from <= op.at <= to
          && l.AllowsBytes(peer, op.n, op.at) then op.n as real else 0.0)
      + BytesGrantedIn(Step(l, op), ops[1..], peer, from, to)
  }

  /** The peer's byte level at `t`, a peer without a bucket counting as full. */
  function ByteLevel(l: Limiter, peer: string, t: Time): Bucket { l.ByteBucket(peer, t).Refill(t) }

  ghost predicate BytesConfigured(l: Limiter, peer: string) {
    && l.config.maxBytesPerSecond >= 0
    && (peer in l.bytes ==> l.bytes[peer].maxTokens == l.bytes[peer].refillRate == l.config.maxBytesPerSecond as real)
  }

  lemma ByteLevelLater(l: Limiter, peer: string, t: Time, u: Time)
    requires BytesConfigured(l, peer) && t <= u
    ensures ByteLevel(l, peer, u) == ByteLevel(l, peer, t).Refill(u)
  {
  }

  lemma ByteBucketStep(l: Limiter, op: Op, peer: string)
    ensures Step(l, op).config == l.config
    ensures var b, b' := l.ByteBucket(peer, op.at), Step(l, op).ByteBucket(peer, op.at);
            if op.AllowBytes? && op.peer == peer then b' == b.AfterAllowN(op.n as real, op.at)
            else if Drops(l, op, peer) then
              b' == Full(l.config.maxBytesPerSecond as real, l.config.maxBytesPerSecond as real, op.at)
            else b' == b || b' == b.Refill(op.at)
  {
    hide Bucket.Refill, Bucket.Grants, Bucket.AfterAllowN;
  }

  lemma ByteLevelStep(l: Limiter, op: Op, peer: string, t: Time)
    requires BytesConfigured(l, peer) && t <= op.at
    ensures BytesConfigured(Step(l, op), peer) && Step(l, op).config == l.config
    ensures ByteLevel(l, peer, op.at) == ByteLevel(l, peer, t).Refill(op.at)
    ensures var b := ByteLevel(l, peer, op.at);
            && (op.AllowBytes? && op.peer == peer ==>
                 (l.AllowsBytes(peer, op.n, op.at) <==> b.Grants(op.n as real, op.at)))
            && ByteLevel(Step(l, op), peer, op.at) ==
               if op.AllowBytes? && op.peer == peer then b.AfterAllowN(op.n as real, op.at).Refill(op.at)
               else if Drops(l, op, peer) then Full(b.maxTokens, b.refillRate, op.at)
               else b
  {
    hide Step, Drops, Yield;
    ByteBucketStep(l, op, peer);
    YieldAdds(l.config.maxBytesPerSecond as real, 0, 0);
    BucketRuns.RefillComposes(l.ByteBucket(peer, op.at), op.at, op.at);
    ByteLevelLater(l, peer, t, op.at);
  }

  /** What cleanups and resets hand back to the peer's byte bucket between `from` and `to`. */
  function ByteRefunds(l: Limiter, ops: seq<Op>, peer: string, from: Time, to: Time): real
    decreases |ops|
  {
    if ops == [] then 0.0
    else
      (if Drops(l, ops[0], peer) && from <= ops[0].at <= to
       then l.config.maxBytesPerSecond as real - ByteLevel(l, peer, ops[0].at).tokens else 0.0)
      + ByteRefunds(Step(l, ops[0]), ops[1..], peer, from, to)
  }

  /** No AllowBytes of the peer's, from `t` on, tells the two limiters apart. */
  ghost predicate BytesAlike(l: Limiter, m: Limiter, peer: string, t: Time) {
    forall u: Time, n: int :: u >= t ==> (l.AllowsBytes(peer, n, u) <==> m.AllowsBytes(peer, n, u))
  }

  /** No AllowBytes does at any moment of the run, as part of it or not. */
  ghost predicate AlwaysBytesAlike(l: Limiter, m: Limiter, ops: seq<Op>, peer: string, t: Time)
    decreases |ops|
  {
    BytesAlike(l, m, peer, t)
    && (ops == [] || AlwaysBytesAlike(Step(l, ops[0]), Step(m, ops[0]), ops[1..], peer, ops[0].at))
  }

  /** The operation drops the peer's byte bucket, not yet refilled, in one of the
      limiters and not in the other. */
  predicate Parts(l: Limiter, m: Limiter, op: Op, peer: string) {
    Drops(l, op, peer) != Drops(m, op, peer)
    && ByteLevel(l, peer, op.at).tokens != l.config.maxBytesPerSecond as real
  }

  predicate NeverParts(l: Limiter, m: Limiter, ops: seq<Op>, peer: string)
    decreases |ops|
  {
    ops == [] || (!Parts(l, m, ops[0], peer) && NeverParts(Step(l, ops[0]), Step(m, ops[0]), ops[1..], peer))
  }

  /** Equal byte levels give equal answers from then on, and only they do: the
      fuller bucket grants a second's bytes at once that the other refuses. */
  lemma SameLevelIff(l: Limiter, m: Limiter, peer: string, t: Time)
    requires l.config == m.config && BytesConfigured(l, peer) && BytesConfigured(m, peer)
    requires ByteLevel(l, peer, t) == ByteLevel(m, peer, t)
          || ByteLevel(l, peer, t).tokens == l.config.maxBytesPerSecond as real
          || ByteLevel(m, peer, t).tokens == l.config.maxBytesPerSecond as real
    ensures BytesAlike(l, m, peer, t) <==> ByteLevel(l, peer, t) == ByteLevel(m, peer, t)
  {
    if ByteLevel(l, peer, t) == ByteLevel(m, peer, t) {
      forall u: Time, n: int | u >= t ensures l.AllowsBytes(peer, n, u) <==> m.AllowsBytes(peer, n, u) {
        ByteLevelLater(l, peer, t, u);
        ByteLevelLater(m, peer, t, u);
      }
    } else {
      var most := l.config.maxBytesPerSecond;
      assert l.AllowsBytes(peer, most, t) != m.AllowsBytes(peer, most, t);
    }
  }

  lemma PartsIff(l: Limiter, m: Limiter, op: Op, peer: string, t: Time)
    requires l.config == m.config && BytesConfigured(l, peer) && BytesConfigured(m, peer) && t <= op.at
    requires ByteLevel(l, peer, t) == ByteLevel(m, peer, t)
    ensures BytesConfigured(Step(l, op), peer) && BytesConfigured(Step(m, op), peer)
    ensures Step(l, op).config == Step(m, op).config
    ensures BytesAlike(Step(l, op), Step(m, op), peer, op.at) <==> !Parts(l, m, op, peer)
    ensures !Parts(l, m, op, peer) ==> ByteLevel(Step(l, op), peer, op.at) == ByteLevel(Step(m, op), peer, op.at)
  {
    ByteLevelStep(l, op, peer, t);
    ByteLevelStep(m, op, peer, t);
    assert ByteLevel(l, peer, op.at).maxTokens == l.config.maxBytesPerSecond as real;
    assert ByteLevel(l, peer, op.at).lastRefill == op.at;
    hide Step, Drops, ByteLevel, BytesAlike, BytesConfigured, Bucket.Refill, Bucket.AfterAllowN, Bucket.Grants;
    SameLevelIff(Step(l, op), Step(m, op), peer, op.at);
  }

  /** From equal byte levels on, no AllowBytes ever tells two limiters fed the same
      run apart if and only if no operation of the run parts them. */
  lemma {:induction false} BytesAlikeIff(l: Limiter, m: Limiter, ops: seq<Op>, peer: string, t: Time)
    requires l.config == m.config && BytesConfigured(l, peer) && BytesConfigured(m, peer) && Timed(ops, t)
    requires ByteLevel(l, peer, t) == ByteLevel(m, peer, t)
    ensures AlwaysBytesAlike(l, m, ops, peer, t) <==> NeverParts(l, m, ops, peer)
    ensures NeverParts(l, m, ops, peer) ==> forall from, to ::
              BytesGrantedIn(l, ops, peer, from, to) == BytesGrantedIn(m, ops, peer, from, to)
    decreases |ops|
  {
    hide Step, ByteLevel, BytesAlike, Parts, BytesConfigured;
    SameLevelIff(l, m, peer, t);
    if ops != [] {
      var op := ops[0];
      AlikeNow(l, m, op, peer, t);
      PartsIff(l, m, op, peer, t);
      if !Parts(l, m, op, peer) {
        BytesAlikeIff(Step(l, op), Step(m, op), ops[1..], peer, op.at);
      }
    }
  }

  lemma AlikeNow(l: Limiter, m: Limiter, op: Op, peer: string, t: Time)
    requires BytesAlike(l, m, peer, t) && t <= op.at
    ensures op.AllowBytes? ==> (l.AllowsBytes(peer, op.n, op.at) <==> m.AllowsBytes(peer, op.n, op.at))
  {
  }

  /** A Cleanup changes no byte answer of a peer over a later run if and only if it
      finds the peer's request bucket recently used, or the peer without a byte bucket,
      or that bucket full by now, and no operation of the run then parts the cleaned
      limiter from the other: a later Cleanup may, dropping a byte bucket in the one
      only, for in the other the request bucket it goes by is gone. */
  lemma CleanupKeepsBytesIff(l: Limiter, ops: seq<Op>, peer: string, maxAge: int, now: Time)
    requires BytesConfigured(l, peer) && Timed(ops, now)
    ensures var after := l.Without(l.Stale(maxAge, now));
            AlwaysBytesAlike(l, after, ops, peer, now)
            <==>
            && (peer !in l.Stale(maxAge, now) || peer !in l.bytes
                || l.bytes[peer].Refill(now).tokens == l.config.maxBytesPerSecond as real)
            && NeverParts(l, after, ops, peer)
  {
    var after, most := l.Without(l.Stale(maxAge, now)), l.config.maxBytesPerSecond as real;
    YieldAdds(most, 0, 0);
    BucketRuns.RefillComposes(l.ByteBucket(peer, now), now, now);
    SameLevelIff(l, after, peer, now);
    if ByteLevel(l, peer, now) == ByteLevel(after, peer, now) {
      BytesAlikeIff(l, after, ops, peer, now);
    }
  }

  lemma {:induction false} BytesWithinBudget(l: Limiter, ops: seq<Op>, peer: string,
                                             t: Time, from: Time, to: Time)
    requires BytesConfigured(l, peer) && ByteLevel(l, peer, t).Valid() && Timed(ops, t) && from <= to
    ensures BytesGrantedIn(l, ops, peer, from, to)
            <= BucketRuns.Budget(ByteLevel(l, peer, t), from, to) + ByteRefunds(l, ops, peer, from, to)
    decreases |ops|
  {
    var b := ByteLevel(l, peer, t);
    BucketRuns.BudgetBound(b, from, to);
    if ops != [] {
      var op := ops[0];
      var c := ByteLevel(l, peer, op.at);
      ByteLevelStep(l, op, peer, t);
      BucketRuns.StepKeepsValid(b, BucketRuns.Tokens(op.at));
      BucketRuns.StepWithinBudget(b, BucketRuns.Tokens(op.at), from, to);
      BucketRuns.TakeWithinBudget(c, if op.AllowBytes? then op.n as real else 0.0, op.at, from, to);
      BucketRuns.RenewalWithinBudget(c, op.at, from, to);
      assert c.maxTokens == l.config.maxBytesPerSecond as real;
      hide BytesConfigured, ByteLevel, BucketRuns.Budget, Yield, Drops, Step;
      hide Bucket.Refill, Bucket.AfterAllowN, Bucket.Grants;
      BytesWithinBudget(Step(l, op), ops[1..], peer, op.at, from, to);
    }
  }

  lemma BytesWithinYield(config: Config, start: Time, ops: seq<Op>, peer: string, from: Time, to: Time)
    requires config.maxBytesPerSecond >= 0 && Timed(ops, start) && from <= to
    ensures BytesGrantedIn(NewLimiter(config, start), ops, peer, from, to)
            <= config.maxBytesPerSecond as real + Yield(config.maxBytesPerSecond as real, to - from)
               + ByteRefunds(NewLimiter(config, start), ops, peer, from, to)
  {
    var l := NewLimiter(config, start);
    BytesWithinBudget(l, ops, peer, start, from, to);
    BucketRuns.BudgetBound(ByteLevel(l, peer, start), from, to);
  }

  /** In any run and any window a peer is granted at most the bytes of one second,
      what its rate yields over the window and what cleanups and resets hand back in
      it; negative counts, which AllowBytes takes for credits, count as such. */
  lemma ByteWindowBound(config: Config, start: Time, ops: seq<Op>, peer: string, from: Time, to: Time)
    requires config.maxBytesPerSecond >= 0 && Timed(ops, start) && from <= to
    ensures BytesGrantedIn(NewLimiter(config, start), ops, peer, from, to)
            <= config.maxBytesPerSecond as real
               + (to - from) as real * config.maxBytesPerSecond as real / 1000000000.0
               + ByteRefunds(NewLimiter(config, start), ops, peer, from, to)
  {
    hide BytesGrantedIn, ByteRefunds, Yield, NewLimiter;
    BytesWithinYield(config, start, ops, peer, from, to);
    YieldWrittenOut(config.maxBytesPerSecond as real, to - from);
  }

  // ---------- connections ----------

  function Run(l: Limiter, ops: seq<Op>): Limiter
    decreases |ops|
  {
    if ops == [] then l else Run(Step(l, ops[0]), ops[1..])
  }

  /** The operation grants the peer a slot. */
  predicate Opens(l: Limiter, op: Op, peer: string) {
    op.AllowConnection? && op.peer == peer && l.Connections(peer) < l.config.maxConnectionsPerPeer
  }

  /** The operation is the peer's release and finds a slot taken. */
  predicate Closes(l: Limiter, op: Op, peer: string) {
    op.ReleaseConnection? && op.peer == peer && l.Connections(peer) > 0
  }

  function Opened(l: Limiter, ops: seq<Op>, peer: string): nat
    decreases |ops|
  {
    if ops == [] then 0 else (if Opens(l, ops[0], peer) then 1 else 0) + Opened(Step(l, ops[0]), ops[1..], peer)
  }

  function Closed(l: Limiter, ops: seq<Op>, peer: string): nat
    decreases |ops|
  {
    if ops == [] then 0 else (if Closes(l, ops[0], peer) then 1 else 0) + Closed(Step(l, ops[0]), ops[1..], peer)
  }

  /** Slots recorded as taken when a cleanup or reset drops the peer's entries. */
  function Forgotten(l: Limiter, ops: seq<Op>, peer: string): int
    decreases |ops|
  {
    if ops == [] then 0
    else (if Drops(l, ops[0], peer) then l.Connections(peer) else 0) + Forgotten(Step(l, ops[0]), ops[1..], peer)
  }

  lemma ConnectionsStep(l: Limiter, op: Op, peer: string)
    requires 0 <= l.Connections(peer) <= l.config.maxConnectionsPerPeer
    ensures var after := Step(l, op);
            && after.config == l.config && 0 <= after.Connections(peer) <= l.config.maxConnectionsPerPeer
            && after.Connections(peer) + (if Drops(l, op, peer) then l.Connections(peer) else 0) ==
               l.Connections(peer) + (if Opens(l, op, peer) then 1 else 0) - if Closes(l, op, peer) then 1 else 0
  {
  }

  /** However long the run, a peer's slots granted less those released are its
      recorded connections, which stay within the limit, and those forgotten: so
      they too stay within the limit when no drop finds a slot taken. */
  lemma {:induction false} OpenConnectionsBalance(l: Limiter, ops: seq<Op>, peer: string)
    requires 0 <= l.Connections(peer) <= l.config.maxConnectionsPerPeer
    ensures l.Connections(peer) + Opened(l, ops, peer) - Closed(l, ops, peer) ==
            Run(l, ops).Connections(peer) + Forgotten(l, ops, peer)
    ensures 0 <= Run(l, ops).Connections(peer) <= l.config.maxConnectionsPerPeer
    decreases |ops|
  {
    if ops != [] {
      ConnectionsStep(l, ops[0], peer);
      hide Step, Drops, Opens, Closes;
      OpenConnectionsBalance(Step(l, ops[0]), ops[1..], peer);
    }
  }

  // ---------- cleanup is invisible to requests ----------

  /** `l` lacks some of the request buckets of `m`, all of them full at `t`. */
  ghost predicate Thinner(l: Limiter, m: Limiter, t: Time) {
    && l.config == m.config && l.global == m.global
    && (forall p :: p in l.peers ==> p in m.peers && l.peers[p] == m.peers[p])
    && (forall p :: p in m.peers && p !in l.peers ==> m.peers[p].Refill(t).tokens == m.config.maxBurstSize)
  }

  lemma ThinnerLater(l: Limiter, m: Limiter, t: Time, u: Time)
    requires Configured(m) && Thinner(l, m, t) && t <= u
    ensures Thinner(l, m, u)
  {
    forall p | p in m.peers && p !in l.peers
      ensures m.peers[p].Refill(u).tokens == m.config.maxBurstSize
    {
      BucketRuns.RefillComposes(m.peers[p], t, u);
      YieldAdds(m.peers[p].refillRate, u - t, 0);
    }
  }

  /** The same operation on both keeps the relation and gives the same answer. */
  lemma StepKeepsThinner(l: Limiter, m: Limiter, op: Op, t: Time)
    requires Configured(m) && Thinner(l, m, t) && t <= op.at
    ensures Thinner(Step(l, op), Step(m, op), op.at)
    ensures Granted(l, op) == Granted(m, op)
  {
    ThinnerLater(l, m, t, op.at);
    if op.AllowRequest? {
      AllowKeepsThinner(l, m, op.peer, op.at);
    } else if op.WaitForRequest? || op.GetPeerStats? {
      LookKeepsThinner(l, m, op.peer, op.at, op.GetPeerStats?);
    }
  }

  lemma AllowKeepsThinner(l: Limiter, m: Limiter, peer: string, now: Time)
    requires Configured(m) && Thinner(l, m, now)
    ensures Thinner(l.AfterAllowRequest(peer, now), m.AfterAllowRequest(peer, now), now)
    ensures l.AllowsRequest(peer, now) == m.AllowsRequest(peer, now)
  {
    var b, c := l.PeerBucket(peer, now), m.PeerBucket(peer, now);
    YieldAdds(m.config.maxRequestsPerSecond, 0, 0);
    assert b.Refill(now) == c.Refill(now);
    assert b.AfterAllowN(1.0, now) == c.AfterAllowN(1.0, now) && b.Grants(1.0, now) == c.Grants(1.0, now);
    hide Bucket.Refill, Bucket.AfterAllowN, Bucket.Grants, Limiter.PeerBucket;
  }

  lemma LookKeepsThinner(l: Limiter, m: Limiter, peer: string, now: Time, bytesToo: bool)
    requires Configured(m) && Thinner(l, m, now)
    ensures Thinner(l.AfterLook(peer, now, bytesToo), m.AfterLook(peer, now, bytesToo), now)
  {
  }

  /** A cleanup of the thinner one alone keeps it, when idle buckets are full. */
  lemma CleanupThins(l: Limiter, m: Limiter, maxAge: int, now: Time)
    requires Configured(m) && Thinner(l, m, now) && Transparent(m.config, maxAge)
    ensures Thinner(l.Without(l.Stale(maxAge, now)), m, now)
  {
    forall p | p in l.Stale(maxAge, now)
      ensures m.peers[p].Refill(now).tokens == m.config.maxBurstSize
    {
      var b := m.peers[p];
      YieldAdds(b.refillRate, maxAge, now - b.lastRefill - maxAge);
    }
  }

  lemma {:induction false} ThinnerAnswersAlike(l: Limiter, m: Limiter, ops: seq<Op>, keep: seq<bool>, t: Time)
    requires Configured(m) && Thinner(l, m, t) && Timed(ops, t) && |keep| == |ops|
    requires forall p :: p in m.peers ==> m.peers[p].lastRefill <= t
    requires forall i :: 0 <= i < |ops| && !keep[i] ==> ops[i].Cleanup? && Transparent(m.config, ops[i].maxAge)
    ensures RequestAnswers(l, ops) == RequestAnswers(m, BucketRuns.Select(ops, keep))
    decreases |ops|
  {
    if ops != [] {
      hide Thinner, Configured, Transparent, BucketRuns.Select;
      var op := ops[0];
      BucketRuns.SelectCons(ops, keep);
      if keep[0] {
        StepKeepsThinner(l, m, op, t);
        StepKeepsConfigured(m, op, t);
        ConfigStays(m, op);
        ThinnerAnswersAlike(Step(l, op), Step(m, op), ops[1..], keep[1..], op.at);
        assert BucketRuns.Select(ops, keep)[1..] == BucketRuns.Select(ops[1..], keep[1..]);
      } else {
        ThinnerLater(l, m, t, op.at);
        CleanupThins(l, m, op.maxAge, op.at);
        ThinnerAnswersAlike(Step(l, op), m, ops[1..], keep[1..], op.at);
      }
    } else {
      assert BucketRuns.Select(ops, keep) == [];
    }
  }

  lemma ConfigStays(l: Limiter, op: Op)
    ensures Step(l, op).config == l.config
  {
  }

  /** Cleanups whose maxAge lets a bucket refill completely can be put into or
      taken out of a run anywhere: no AllowRequest answer changes. */
  lemma CleanupIsTransparent(config: Config, start: Time, ops: seq<Op>, keep: seq<bool>)
    requires Sane(config) && Timed(ops, start) && |keep| == |ops|
    requires forall i :: 0 <= i < |ops| && !keep[i] ==> ops[i].Cleanup? && Transparent(config, ops[i].maxAge)
    ensures RequestAnswers(NewLimiter(config, start), ops)
         == RequestAnswers(NewLimiter(config, start), BucketRuns.Select(ops, keep))
  {
    var l := NewLimiter(config, start);
    ThinnerAnswersAlike(l, l, ops, keep, start);
  }

  /** The byte buckets are not so lucky: Cleanup drops them by the age of the
      request bucket, so a transparent cleanup doubles a peer's byte allowance:
      20 bytes in an instant from a bucket that holds 10. */
  lemma CleanupBreaksByteBound()
    ensures var config, now := Config(1.0, 1.0, 10, 1), 2000000000;
            var ops := [AllowRequest("p", 0), AllowBytes("p", 10, now),
                        Cleanup(1000000000, now), AllowBytes("p", 10, now)];
            && Transparent(config, 1000000000) && Timed(ops, 0)
            && BytesGrantedIn(NewLimiter(config, 0), ops, "p", now, now) == 20.0
            && config.maxBytesPerSecond as real
               + (now - now) as real * config.maxBytesPerSecond as real / 1000000000.0 == 10.0
  {
    var config, now := Config(1.0, 1.0, 10, 1), 2000000000;
    var bytes, cleanup := AllowBytes("p", 10, now), Cleanup(1000000000, now);
    var ops := [AllowRequest("p", 0), bytes, cleanup, bytes];
    assert ops[1..] == [bytes, cleanup, bytes] && [bytes, cleanup, bytes][1..] == [cleanup, bytes];
    assert [cleanup, bytes][1..] == [bytes] && [bytes][1..] == [];
    RunsInTime(ops[0], bytes, cleanup, bytes);
    var l := Step(NewLimiter(config, 0), ops[0]);
    assert Seconds(1000000000) == 1.0 && Seconds(0) == 0.0;
    DroppedInBetween(l);
    hide Step, Limiter.AllowsBytes, Yield;
    BytesGrantedFirst(Step(Step(l, bytes), cleanup), [bytes], "p", now);
    BytesGrantedFirst(Step(l, bytes), [cleanup, bytes], "p", now);
    BytesGrantedFirst(l, [bytes, cleanup, bytes], "p", now);
    BytesGrantedFirst(NewLimiter(config, 0), ops, "p", now);
  }

  /** A full byte bucket that one cleanup drops, unnoticed at first, and that a second
      one, now that it is empty, would have dropped had the first not come. */
  lemma LaterCleanupParts()
    ensures var now, start := 2000000000, [AllowRequest("p", 0), AllowBytes("p", 0, 0)];
            var l := Run(NewLimiter(Config(1.0, 1.0, 10, 1), 0), start);
            var after := l.Without(l.Stale(1000000000, now));
            var ops := [AllowBytes("p", 10, now), Cleanup(1000000000, now)];
            && BytesAlike(l, after, "p", now)
            && Run(l, ops).AllowsBytes("p", 10, now) && !Run(after, ops).AllowsBytes("p", 10, now)
  {
    var now, config := 2000000000, Config(1.0, 1.0, 10, 1);
    var first, none := AllowRequest("p", 0), AllowBytes("p", 0, 0);
    var l := Step(Step(NewLimiter(config, 0), first), none);
    FullAndIdle(l);
    PartsFrom(l);
    hide Step, BytesAlike, Limiter.AllowsBytes;
    var bytes, cleanup := AllowBytes("p", 10, now), Cleanup(1000000000, now);
    RunTwo(NewLimiter(config, 0), first, none);
    RunTwo(l, bytes, cleanup);
    RunTwo(l.Without(l.Stale(1000000000, now)), bytes, cleanup);
  }

  lemma FullAndIdle(l: Limiter)
    requires l == Step(Step(NewLimiter(Config(1.0, 1.0, 10, 1), 0), AllowRequest("p", 0)), AllowBytes("p", 0, 0))
    ensures l.config.maxBytesPerSecond == 10 && l.peers.Keys == l.bytes.Keys == {"p"}
    ensures l.peers["p"].lastRefill == 0 && l.bytes["p"] == Full(10.0, 10.0, 0)
  {
    hide Bucket.Refill, Bucket.AfterAllowN, Bucket.Grants;
    FullBuckets();
    var l1 := Step(NewLimiter(Config(1.0, 1.0, 10, 1), 0), AllowRequest("p", 0));
    assert l1.peers == map["p" := Full(1.0, 1.0, 0).AfterAllowN(1.0, 0)] && l1.bytes == map[];
  }

  lemma FullBuckets()
    ensures Full(10.0, 10.0, 0).Grants(1.0, 0)
    ensures Full(1.0, 1.0, 0).AfterAllowN(1.0, 0).lastRefill == 0
    ensures Full(10.0, 10.0, 0).AfterAllowN(0.0, 0) == Full(10.0, 10.0, 0)
  {
    assert Seconds(0) == 0.0;
  }

  lemma PartsFrom(l: Limiter)
    requires l.config.maxBytesPerSecond == 10 && l.peers.Keys == l.bytes.Keys == {"p"}
    requires l.peers["p"].lastRefill == 0 && l.bytes["p"] == Full(10.0, 10.0, 0)
    ensures var now := 2000000000;
            var after := l.Without(l.Stale(1000000000, now));
            var bytes, cleanup := AllowBytes("p", 10, now), Cleanup(1000000000, now);
            && BytesAlike(l, after, "p", now)
            && Step(Step(l, bytes), cleanup).AllowsBytes("p", 10, now)
            && !Step(Step(after, bytes), cleanup).AllowsBytes("p", 10, now)
  {
    var after := l.Without(l.Stale(1000000000, 2000000000));
    assert Seconds(2000000000) == 2.0 && Seconds(0) == 0.0;
    SameLevelIff(l, after, "p", 2000000000);
    hide BytesAlike;
  }

  lemma RunTwo(l: Limiter, x: Op, y: Op)
    ensures Run(l, [x, y]) == Step(Step(l, x), y)
  {
    hide Step;
    assert [x, y][1..] == [y] && [y][1..] == [];
    assert Run(Step(l, x), [y]) == Run(Step(Step(l, x), y), []);
  }

  lemma BytesGrantedFirst(l: Limiter, ops: seq<Op>, peer: string, now: Time)
    requires ops != []
    ensures BytesGrantedIn(l, ops, peer, now, now) ==
            (if ops[0].AllowBytes? && ops[0].peer == peer && ops[0].at == now && l.AllowsBytes(peer, ops[0].n, now)
             then ops[0].n as real else 0.0)
            + BytesGrantedIn(Step(l, ops[0]), ops[1..], peer, now, now)
  {
  }

  /** Nor are connections: the same cleanup forgets an open one, so that a peer
      limited to one has two open at once. */
  lemma CleanupBreaksConnectionLimit()
    ensures var config, now := Config(1.0, 1.0, 10, 1), 2000000000;
            var ops := [AllowRequest("p", 0), AllowConnection("p", 0),
                        Cleanup(1000000000, now), AllowConnection("p", now)];
            && Transparent(config, 1000000000) && Timed(ops, 0)
            && Opened(NewLimiter(config, 0), ops, "p") - Closed(NewLimiter(config, 0), ops, "p") == 2
            && config.maxConnectionsPerPeer == 1
  {
    hide Step, Transparent, Limiter.Connections;
    OneSecondIsTransparent();
    var config, now := Config(1.0, 1.0, 10, 1), 2000000000;
    var first, open, cleanup, again := AllowRequest("p", 0), AllowConnection("p", 0),
                                       Cleanup(1000000000, now), AllowConnection("p", now);
    var ops := [first, open, cleanup, again];
    assert ops[1..] == [open, cleanup, again] && [open, cleanup, again][1..] == [cleanup, again];
    assert [cleanup, again][1..] == [again] && [again][1..] == [];
    RunsInTime(first, open, cleanup, again);
    var l0 := NewLimiter(config, 0);
    var l1 := Step(l0, first);
    ForgottenInBetween(l0, l1);
    var l3 := Step(Step(l1, open), cleanup);
    assert Opened(l3, [again], "p") == 1 && Closed(l3, [again], "p") == 0;
    assert Opened(Step(l1, open), [cleanup, again], "p") == 1 && Closed(Step(l1, open), [cleanup, again], "p") == 0;
    assert Opened(l1, [open, cleanup, again], "p") == 2 && Closed(l1, [open, cleanup, again], "p") == 0;
  }

  lemma RunsInTime(w: Op, x: Op, y: Op, z: Op)
    requires 0 <= w.at <= x.at <= y.at <= z.at
    ensures Timed([w, x, y, z], 0)
  {
    assert [w, x, y, z][1..] == [x, y, z] && [x, y, z][1..] == [y, z] && [y, z][1..] == [z] && [z][1..] == [];
    assert Timed([z], y.at);
    assert Timed([y, z], x.at);
    assert Timed([x, y, z], w.at);
  }

  lemma OneSecondIsTransparent()
    ensures Transparent(Config(1.0, 1.0, 10, 1), 1000000000)
  {
    assert Seconds(1000000000) == 1.0;
  }

  lemma ForgottenInBetween(l0: Limiter, l1: Limiter)
    requires l0 == NewLimiter(Config(1.0, 1.0, 10, 1), 0) && l1 == Step(l0, AllowRequest("p", 0))
    ensures var l2 := Step(l1, AllowConnection("p", 0));
            var l3 := Step(l2, Cleanup(1000000000, 2000000000));
            && l0.config == l1.config == l2.config == l3.config
            && l0.Connections("p") == l1.Connections("p") == l3.Connections("p") == 0
            && l2.Connections("p") == 1
  {
    assert l1.peers["p"].lastRefill == 0;
  }

  /** The peer made its last request two seconds ago, which dates its request
      bucket; the byte bucket, just emptied, goes with it. */
  lemma DroppedInBetween(l: Limiter)
    requires l == Step(NewLimiter(Config(1.0, 1.0, 10, 1), 0), AllowRequest("p", 0))
    ensures var now := 2000000000;
            && l.AllowsBytes("p", 10, now)
            && Step(Step(l, AllowBytes("p", 10, now)), Cleanup(1000000000, now)).AllowsBytes("p", 10, now)
  {
    var spent := Step(l, AllowBytes("p", 10, 2000000000));
    assert spent.peers["p"].lastRefill == 0;
    assert "p" in spent.Stale(1000000000, 2000000000);
    assert Seconds(0) == 0.0;
  }
}
