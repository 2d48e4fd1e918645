/** The per-peer rate limiter: its value model and the object with its three
    maps of shared bucket objects. One clock reading serves each call. */
module RateLimiters {
  import opened Common
  import opened TokenBuckets

  datatype Config = Config(maxRequestsPerSecond: real, maxBurstSize: real,
                           maxBytesPerSecond: int, maxConnectionsPerPeer: int)

  datatype Limiter = Limiter(config: Config,
                             peers: map<string, Bucket>,
                             bytes: map<string, Bucket>,
                             connections: map<string, int>,
                             global: Bucket)
  {
    /** The peer's request bucket, a full new one if it has none. */
    function PeerBucket(peer: string, now: Time): Bucket {
      if peer in peers then peers[peer] else Full(config.maxBurstSize, config.maxRequestsPerSecond, now)
    }

    function ByteBucket(peer: string, now: Time): Bucket {
      if peer in bytes then bytes[peer]
      else Full(config.maxBytesPerSecond as real, config.maxBytesPerSecond as real, now)
    }

    predicate AllowsRequest(peer: string, now: Time) {
      global.Grants(1.0, now) && PeerBucket(peer, now).Grants(1.0, now)
    }

    /** The global token is spent first, even when the peer's bucket refuses. */
    function AfterAllowRequest(peer: string, now: Time): Limiter {
      var l := this.(global := global.AfterAllowN(1.0, now));
      if global.Grants(1.0, now)
      then l.(peers := peers[peer := PeerBucket(peer, now).AfterAllowN(1.0, now)])
      else l
    }

    predicate AllowsBytes(peer: string, n: int, now: Time) { ByteBucket(peer, now).Grants(n as real, now) }

    function AfterAllowBytes(peer: string, n: int, now: Time): Limiter {
      this.(bytes := bytes[peer := ByteBucket(peer, now).AfterAllowN(n as real, now)])
    }

    function Connections(peer: string): int { if peer in connections then connections[peer] else 0 }

    function AfterAllowConnection(peer: string): Limiter {
      if Connections(peer) >= config.maxConnectionsPerPeer then this
      else this.(connections := connections[peer := Connections(peer) + 1])
    }

    function AfterRelease(peer: string): Limiter {
      if Connections(peer) > 0 then this.(connections := connections[peer := Connections(peer) - 1]) else this
    }

    /** WaitForRequest and GetPeerStats refill the buckets they look at. */
    function AfterLook(peer: string, now: Time, bytesToo: bool): Limiter {
      this.(peers := if peer in peers then peers[peer := peers[peer].Refill(now)] else peers,
            bytes := if bytesToo && peer in bytes then bytes[peer := bytes[peer].Refill(now)] else bytes)
    }

    /** Peers whose request bucket has not been refilled for longer than `maxAge`. */
    function Stale(maxAge: int, now: Time): set<string> {
      set p | p in peers && now - peers[p].lastRefill > maxAge
    }

    function Without(gone: set<string>): Limiter {
      this.(peers := peers - gone, bytes := bytes - gone, connections := connections - gone)
    }

    function AfterResetAll(): Limiter { this.(peers := map[], bytes := map[], connections := map[]) }
  }

  function NewLimiter(config: Config, now: Time): Limiter {
    Limiter(config, map[], map[], map[], Full(config.maxBurstSize * 10.0, config.maxRequestsPerSecond * 10.0, now))
  }

  // ---------- what the operations mean ----------

  /** A level at `now`: that of the bucket if there is one, else a full one. */
  function LevelOf(buckets: map<string, Bucket>, peer: string, full: real, now: Time): real {
    if peer in buckets then Accrued(buckets[peer], now - buckets[peer].lastRefill) else full
  }

  /** The buckets with one peer's at this level now and all others as they were. */
  ghost predicate OneSet(was: map<string, Bucket>, buckets: map<string, Bucket>, peer: string, tokens: real,
                         full: real, rate: real, now: Time)
  {
    && peer in buckets && buckets.Keys == was.Keys + {peer}
    && (forall p :: p in was && p != peer ==> buckets[p] == was[p])
    && buckets[peer] == (if peer in was then was[peer].(tokens := tokens, lastRefill := now)
                         else Bucket(tokens, full, rate, now))
  }

  /** A request is granted if both the global and the peer's bucket hold a token by now.
      The global one loses it whenever it has one, the peer's if both have; a peer
      without a bucket is then given one with the burst for a capacity. */
  ghost predicate RequestRule(was: Limiter, l: Limiter, peer: string, now: Time, ok: bool) {
    var global := Accrued(was.global, now - was.global.lastRefill);
    var level := LevelOf(was.peers, peer, was.config.maxBurstSize, now);
    && (ok <==> global >= 1.0 && level >= 1.0)
    && l.config == was.config && l.bytes == was.bytes && l.connections == was.connections
    && l.global == was.global.(tokens := if global >= 1.0 then global - 1.0 else global, lastRefill := now)
    && if global >= 1.0
       then OneSet(was.peers, l.peers, peer, if ok then level - 1.0 else level,
                   was.config.maxBurstSize, was.config.maxRequestsPerSecond, now)
       else l.peers == was.peers
  }

  /** Bytes are granted if the peer's byte bucket, of one second's bytes, holds them by now. */
  ghost predicate BytesRule(was: Limiter, l: Limiter, peer: string, n: int, now: Time, ok: bool) {
    var second := was.config.maxBytesPerSecond as real;
    var level := LevelOf(was.bytes, peer, second, now);
    && (ok <==> level >= n as real)
    && l == was.(bytes := l.bytes)
    && OneSet(was.bytes, l.bytes, peer, if ok then level - n as real else level, second, second, now)
  }

  /** A look brings the peer's request bucket, and its byte bucket if that is looked at
      too, to their levels as of now. */
  ghost predicate LookRule(was: Limiter, l: Limiter, peer: string, now: Time, bytesToo: bool) {
    && l == was.(peers := l.peers, bytes := l.bytes)
    && (if peer in was.peers
        then OneSet(was.peers, l.peers, peer, LevelOf(was.peers, peer, 0.0, now), 0.0, 0.0, now)
        else l.peers == was.peers)
    && (if bytesToo && peer in was.bytes
        then OneSet(was.bytes, l.bytes, peer, LevelOf(was.bytes, peer, 0.0, now), 0.0, 0.0, now)
        else l.bytes == was.bytes)
  }

  /** Exactly the peers whose request bucket was last refilled longer than `maxAge` ago
      have lost all their entries. */
  ghost predicate Swept(was: Limiter, l: Limiter, maxAge: int, now: Time) {
    && l.config == was.config && l.global == was.global
    && (forall p :: p in l.peers <==> p in was.peers && now - was.peers[p].lastRefill <= maxAge)
    && (forall p :: p in l.bytes <==>
          p in was.bytes && (p in was.peers ==> now - was.peers[p].lastRefill <= maxAge))
    && (forall p :: p in l.connections <==>
          p in was.connections && (p in was.peers ==> now - was.peers[p].lastRefill <= maxAge))
    && (forall p :: p in l.peers ==> l.peers[p] == was.peers[p])
    && (forall p :: p in l.bytes ==> l.bytes[p] == was.bytes[p])
    && (forall p :: p in l.connections ==> l.connections[p] == was.connections[p])
  }

  lemma TakeAccrues(b: Bucket, n: real, now: Time)
    ensures b.Grants(n, now) <==> Accrued(b, now - b.lastRefill) >= n
    ensures var level := Accrued(b, now - b.lastRefill);
            b.AfterAllowN(n, now) == b.(tokens := if level >= n then level - n else level, lastRefill := now)
  {
    RefillAccrues(b, now);
  }

  lemma FullAccrues(max: real, rate: real, now: Time)
    ensures Accrued(Full(max, rate, now), 0) == max
  {
  }

  lemma RequestOutcome(l: Limiter, peer: string, now: Time)
    ensures RequestRule(l, l.AfterAllowRequest(peer, now), peer, now, l.AllowsRequest(peer, now))
  {
    hide Bucket.Refill, Bucket.Grants, Bucket.AfterAllowN, Accrued;
    TakeAccrues(l.global, 1.0, now);
    TakeAccrues(l.PeerBucket(peer, now), 1.0, now);
    FullAccrues(l.config.maxBurstSize, l.config.maxRequestsPerSecond, now);
  }

  lemma BytesOutcome(l: Limiter, peer: string, n: int, now: Time)
    ensures BytesRule(l, l.AfterAllowBytes(peer, n, now), peer, n, now, l.AllowsBytes(peer, n, now))
  {
    hide Bucket.Refill, Bucket.Grants, Bucket.AfterAllowN, Accrued;
    TakeAccrues(l.ByteBucket(peer, now), n as real, now);
    FullAccrues(l.config.maxBytesPerSecond as real, l.config.maxBytesPerSecond as real, now);
  }

  lemma LookOutcome(l: Limiter, peer: string, now: Time, bytesToo: bool)
    ensures LookRule(l, l.AfterLook(peer, now, bytesToo), peer, now, bytesToo)
  {
    hide Bucket.Refill, Accrued;
    RefillAccrues(l.PeerBucket(peer, now), now);
    RefillAccrues(l.ByteBucket(peer, now), now);
  }

  lemma CleanupSweeps(l: Limiter, maxAge: int, now: Time)
    ensures Swept(l, l.Without(l.Stale(maxAge, now)), maxAge, now)
  {
  }

  lemma WithoutTwice(l: Limiter, a: set<string>, b: set<string>)
    ensures l.Without(a).Without(b) == l.Without(a + b)
  {
  }

  lemma OneLessToDo(stale: set<string>, todo: set<string>, peer: string)
    requires peer in todo
    ensures stale - (todo - {peer}) == if peer in stale then stale - todo + {peer} else stale - todo
  {
  }

  lemma WithoutNone(l: Limiter)
    ensures l.Without({}) == l
  {
  }

  ghost function Objects(buckets: map<string, TokenBucket>): (r: set<TokenBucket>)
    ensures forall p :: p in buckets ==> buckets[p] in r
  {
    set p | p in buckets :: buckets[p]
  }

  ghost function States(buckets: map<string, TokenBucket>): map<string, Bucket>
    reads Objects(buckets)
  {
    map p | p in buckets :: buckets[p].State()
  }

  ghost predicate Injective(buckets: map<string, TokenBucket>) {
    forall p, q :: p in buckets && q in buckets && p != q ==> buckets[p] != buckets[q]
  }

  lemma StatesKeys(buckets: map<string, TokenBucket>)
    ensures States(buckets).Keys == buckets.Keys
  {
  }

  lemma RemoveKeys(buckets: map<string, TokenBucket>, gone: set<string>)
    requires Injective(buckets)
    ensures Injective(buckets - gone) && Objects(buckets - gone) <= Objects(buckets)
    ensures States(buckets - gone) == States(buckets) - gone
  {
  }

  lemma OneChanged(buckets: map<string, TokenBucket>, peer: string, was: map<string, Bucket>, b: Bucket)
    requires peer in buckets && was.Keys == buckets.Keys && buckets[peer].State() == b
    requires forall p :: p in buckets && p != peer ==> buckets[p].State() == was[p]
    ensures States(buckets) == was[peer := b]
  {
  }

  /** Get or create the peer's bucket, and take n tokens from it. */
  method TakeFrom(buckets: map<string, TokenBucket>, peer: string, maxTokens: real, rate: real, n: real, now: Time)
      returns (buckets': map<string, TokenBucket>, ok: bool)
    requires Injective(buckets)
    modifies if peer in buckets then {buckets[peer]} else {}
    ensures Injective(buckets')
    ensures fresh(Objects(buckets') - Objects(buckets))
    ensures var was := old(if peer in buckets then States(buckets)[peer] else Full(maxTokens, rate, now));
            && ok == was.Grants(n, now)
            && States(buckets') == old(States(buckets))[peer := was.AfterAllowN(n, now)]
  {
    buckets' := buckets;
    if peer !in buckets {
      var bucket := new TokenBucket(maxTokens, rate, now);
      buckets' := buckets[peer := bucket];
    }
    ok := buckets'[peer].AllowN(n, now);
  }

  /** The level of the peer's bucket, which the look refills; zero without one. */
  method Look(buckets: map<string, TokenBucket>, peer: string, now: Time) returns (tokens: real)
    requires Injective(buckets)
    modifies if peer in buckets then {buckets[peer]} else {}
    ensures var was := old(States(buckets));
            && States(buckets) == (if peer in buckets then was[peer := was[peer].Refill(now)] else was)
            && tokens == if peer in buckets then was[peer].Refill(now).tokens else 0.0
  {
    hide Bucket.Refill;
    tokens := 0.0;
    if peer in buckets {
      ghost var was := States(buckets);
      tokens := buckets[peer].Tokens(now);
      OneChanged(buckets, peer, was, was[peer].Refill(now));
    }
  }

  class RateLimiter {
    const config: Config
    var peerBuckets: map<string, TokenBucket>
    var byteBuckets: map<string, TokenBucket>
    var connections: map<string, int>
    const globalBucket: TokenBucket

    ghost function Repr(): set<object>
      reads this
    {
      {this, globalBucket} + Objects(peerBuckets) + Objects(byteBuckets)
    }

    /** No bucket object serves twice. */
    ghost predicate Valid()
      reads this
    {
      && Injective(peerBuckets) && Injective(byteBuckets)
      && Objects(peerBuckets) !! Objects(byteBuckets)
      && globalBucket !in Objects(peerBuckets) && globalBucket !in Objects(byteBuckets)
    }

    ghost function State(): Limiter
      reads this, Repr()
    {
      Limiter(config, States(peerBuckets), States(byteBuckets), connections, globalBucket.State())
    }

    constructor (config: Config, now: Time)
      ensures Valid() && fresh(Repr() - {this}) && State() == NewLimiter(config, now)
    {
      this.config := config;
      peerBuckets, byteBuckets, connections := map[], map[], map[];
      globalBucket := new TokenBucket(config.maxBurstSize * 10.0, config.maxRequestsPerSecond * 10.0, now);
    }

    method AllowRequest(peer: string, now: Time) returns (ok: bool)
      requires Valid()
      modifies Repr()
      ensures Valid() && fresh(Repr() - old(Repr()))
      ensures ok == old(State().AllowsRequest(peer, now))
      ensures State() == old(State().AfterAllowRequest(peer, now))
      ensures RequestRule(old(State()), State(), peer, now, ok)
    {
      hide Injective, States, RequestRule;
      RequestOutcome(State(), peer, now);
      var first := globalBucket.AllowN(1.0, now);
      assert States(peerBuckets) == old(States(peerBuckets)) && States(byteBuckets) == old(States(byteBuckets));
      if !first {
        return false;
      }
      ok := ChargePeer(peer, now);
    }

    /** The second half of AllowRequest: the peer's own bucket decides. */
    method ChargePeer(peer: string, now: Time) returns (ok: bool)
      requires Valid()
      modifies this`peerBuckets, Objects(peerBuckets)
      ensures Valid() && fresh(Repr() - old(Repr()))
      ensures ok == old(State().PeerBucket(peer, now).Grants(1.0, now))
      ensures var was := old(State());
              State() == was.(peers := was.peers[peer := was.PeerBucket(peer, now).AfterAllowN(1.0, now)])
    {
      StatesKeys(peerBuckets);
      hide Injective, States, Bucket.AfterAllowN, Bucket.Grants;
      assert peer in peerBuckets ==> peerBuckets[peer] in Objects(peerBuckets);
      peerBuckets, ok := TakeFrom(peerBuckets, peer, config.maxBurstSize, config.maxRequestsPerSecond, 1.0, now);
      assert States(byteBuckets) == old(States(byteBuckets));
    }

    method AllowBytes(peer: string, n: int, now: Time) returns (ok: bool)
      requires Valid()
      modifies this`byteBuckets, Objects(byteBuckets)
      ensures Valid() && fresh(Repr() - old(Repr()))
      ensures ok == old(State().AllowsBytes(peer, n, now))
      ensures State() == old(State().AfterAllowBytes(peer, n, now))
      ensures BytesRule(old(State()), State(), peer, n, now, ok)
    {
      hide BytesRule;
      BytesOutcome(State(), peer, n, now);
      StatesKeys(byteBuckets);
      hide Injective, States, Bucket.AfterAllowN, Bucket.Grants;
      assert peer in byteBuckets ==> byteBuckets[peer] in Objects(byteBuckets);
      byteBuckets, ok := TakeFrom(byteBuckets, peer, config.maxBytesPerSecond as real,
                                  config.maxBytesPerSecond as real, n as real, now);
      assert States(peerBuckets) == old(States(peerBuckets));
    }

    /** No wait for a peer without a bucket, whatever a new bucket would grant. */
    method WaitForRequest(peer: string, now: Time) returns (wait: Option<int>)
      requires Valid()
      modifies Objects(peerBuckets)
      ensures Valid()
      ensures wait == if peer in old(State()).peers then old(State()).peers[peer].WaitTime(1.0, now) else Some(0)
      ensures State() == old(State()).AfterLook(peer, now, false)
      ensures LookRule(old(State()), State(), peer, now, false)
    {
      hide Bucket.Refill, Bucket.WaitTime, LookRule;
      LookOutcome(State(), peer, now, false);
      if peer !in peerBuckets {
        return Some(0);
      }
      assert peerBuckets[peer] in Objects(peerBuckets);
      ghost var was := State();
      wait := peerBuckets[peer].WaitTime(1.0, now);
      OneChanged(peerBuckets, peer, was.peers, was.peers[peer].Refill(now));
    }

    method GetPeerStats(peer: string, now: Time) returns (requestTokens: real, byteTokens: int, open: int)
      requires Valid()
      modifies Objects(peerBuckets), Objects(byteBuckets)
      ensures Valid()
      ensures var after := old(State()).AfterLook(peer, now, true);
              && State() == after && open == after.Connections(peer)
              && requestTokens == (if peer in after.peers then after.peers[peer].tokens else 0.0)
              && byteTokens == (if peer in after.bytes then Truncate(after.bytes[peer].tokens) else 0)
      ensures LookRule(old(State()), State(), peer, now, true)
    {
      StatesKeys(peerBuckets);
      StatesKeys(byteBuckets);
      hide Injective, States, Bucket.Refill, LookRule;
      LookOutcome(State(), peer, now, true);
      open := if peer in connections then connections[peer] else 0;
      requestTokens := Look(peerBuckets, peer, now);
      ghost var peers := States(peerBuckets);
      var level := Look(byteBuckets, peer, now);
      byteTokens := Truncate(level);
      assert States(peerBuckets) == peers;
    }

    method AllowConnection(peer: string) returns (ok: bool)
      requires Valid()
      modifies this`connections
      ensures Valid() && Repr() == old(Repr())
      ensures ok == (old(State().Connections(peer)) < config.maxConnectionsPerPeer)
      ensures State() == old(State().AfterAllowConnection(peer))
    {
      var count := if peer in connections then connections[peer] else 0;
      if count >= config.maxConnectionsPerPeer {
        return false;
      }
      connections := connections[peer := count + 1];
      return true;
    }

    method ReleaseConnection(peer: string)
      requires Valid()
      modifies this`connections
      ensures Valid() && Repr() == old(Repr())
      ensures State() == old(State().AfterRelease(peer))
    {
      var count := if peer in connections then connections[peer] else 0;
      if count > 0 {
        connections := connections[peer := count - 1];
      }
    }

    /** Deletes while ranging over the request buckets, in any order. */
    method Cleanup(maxAge: int, now: Time)
      requires Valid()
      modifies this`peerBuckets, this`byteBuckets, this`connections
      ensures Valid() && Repr() <= old(Repr())
      ensures State() == old(State().Without(State().Stale(maxAge, now)))
      ensures Swept(old(State()), State(), maxAge, now)
    {
      hide Injective, Objects, Swept;
      CleanupSweeps(State(), maxAge, now);
      ghost var before, stale, all := State(), State().Stale(maxAge, now), peerBuckets;
      assert forall p :: p in all ==> (p in stale <==> now - all[p].lastRefill > maxAge);
      hide States, Limiter.Stale, Limiter.Without;
      var todo := peerBuckets.Keys;
      WithoutNone(before);
      assert stale - todo == {};
      while todo != {}
        invariant Valid() && Repr() <= old(Repr()) && todo <= peerBuckets.Keys <= all.Keys
        invariant forall p :: p in todo ==> peerBuckets[p] == all[p]
        invariant State() == before.Without(stale - todo)
        decreases todo
      {
        var peer :| peer in todo;
        OneLessToDo(stale, todo, peer);
        if now - peerBuckets[peer].lastRefill > maxAge {
          Reset(peer);
          WithoutTwice(before, stale - todo, {peer});
        }
        todo := todo - {peer};
      }
      assert stale - todo == stale;
    }

    method Reset(peer: string)
      requires Valid()
      modifies this`peerBuckets, this`byteBuckets, this`connections
      ensures Valid() && Repr() <= old(Repr())
      ensures peerBuckets == old(peerBuckets) - {peer}
      ensures State() == old(State().Without({peer}))
    {
      hide Injective, Objects, States;
      RemoveKeys(peerBuckets, {peer});
      RemoveKeys(byteBuckets, {peer});
      peerBuckets := peerBuckets - {peer};
      byteBuckets := byteBuckets - {peer};
      connections := connections - {peer};
    }

    method ResetAll()
      requires Valid()
      modifies this`peerBuckets, this`byteBuckets, this`connections
      ensures Valid() && Repr() <= old(Repr())
      ensures State() == old(State().AfterResetAll())
    {
      peerBuckets := map[];
      byteBuckets := map[];
      connections := map[];
    }
  }
}
