/** Any number of replicas of the state machine over one committed log. */
module Replication {
  import opened Common
  import opened StateMachines

  /** Data as of a log index. */
  datatype Taken = Taken(data: map<string, Value>, index: nat)
  datatype Stored = Stored(blob: Bytes, index: nat)

  /** A replica: its machine, how much of the log it has applied, from where on it
      still has the log, the snapshots taken but not persisted yet, and its newest
      persisted snapshot. */
  datatype Replica = Replica(data: map<string, Value>, applied: nat, logStart: nat,
                             taken: seq<Taken>, stored: Option<Stored>)

  datatype Cluster = Cluster(log: seq<Bytes>, replicas: seq<Replica>)

  datatype Event =
    | Commit(entry: Bytes)
    | ApplyNext(i: nat)
    | TakeSnapshot(i: nat)
    | Persist(i: nat, n: nat, sinkOk: bool)
    | Compact(i: nat, upto: nat)
    | Restart(i: nat)
    | Install(i: nat, from: nat)

  function New(): Replica { Replica(map[], 0, 0, [], None) }

  /** The snapshot store lists the newest first. */
  function Newer(had: Option<Stored>, s: Stored): Option<Stored> {
    if had.Some? && had.value.index > s.index then had else Some(s)
  }

  /** A machine made anew and, if there is a snapshot, restored from it. */
  function Booted(r: Replica, f: Format): Replica {
    if r.stored.None? then Replica(map[], 0, r.logStart, [], None)
    else
      match f.decodeData(r.stored.value.blob)
      case None => r.(data := map[], applied := 0, taken := [])
      case Some(data) => r.(data := data, applied := r.stored.value.index, taken := [])
  }

  /** One step of one replica; steps that are not possible do nothing. */
  function Stepped(log: seq<Bytes>, r: Replica, e: Event, source: Option<Stored>, f: Format): Replica {
    match e
    case ApplyNext(_) =>
      if r.logStart <= r.applied < |log| then
        r.(data := Applied(r.data, log[r.applied], f), applied := r.applied + 1)
      else r
    case TakeSnapshot(_) => r.(taken := r.taken + [Taken(r.data, r.applied)])
    case Persist(_, n, sinkOk) =>
      if n < |r.taken| then
        var rest := r.taken[..n] + r.taken[n + 1..];
        var s := Stored(f.encodeData(r.taken[n].data), r.taken[n].index);
        if sinkOk then r.(taken := rest, stored := Newer(r.stored, s)) else r.(taken := rest)
      else r
    case Compact(_, upto) =>
      if r.stored.Some? && r.logStart <= upto <= r.stored.value.index then r.(logStart := upto) else r
    case Restart(_) => Booted(r, f)
    case Install(_, _) =>
      if source.Some? && source.value.index > r.applied then
        Booted(r.(stored := Newer(r.stored, source.value), logStart := source.value.index), f).(taken := r.taken)
      else r
    case Commit(_) => r
  }

  /** The snapshot that an Install ships, if its sender has one. */
  function Source(c: Cluster, e: Event): Option<Stored> {
    if e.Install? && e.from < |c.replicas| then c.replicas[e.from].stored else None
  }

  function Step(c: Cluster, e: Event, f: Format): Cluster {
    if e.Commit? then c.(log := c.log + [e.entry])
    else if e.i < |c.replicas| then
      c.(replicas := c.replicas[e.i := Stepped(c.log, c.replicas[e.i], e, Source(c, e), f)])
    else c
  }

  // ---------- the invariant ----------

  ghost predicate TakenOk(log: seq<Bytes>, t: Taken, f: Format) {
    t.index <= |log| && t.data == Replay(log[..t.index], f)
  }

  ghost predicate StoredOk(log: seq<Bytes>, s: Stored, f: Format) {
    s.index <= |log| && f.decodeData(s.blob) == Some(Replay(log[..s.index], f))
  }

  ghost predicate ReplicaOk(log: seq<Bytes>, r: Replica, f: Format) {
    && r.applied <= |log| && r.data == Replay(log[..r.applied], f)
    && (forall t :: t in r.taken ==> TakenOk(log, t, f) && t.index <= r.applied)
    && (r.stored.Some? ==> StoredOk(log, r.stored.value, f) && r.stored.value.index <= r.applied)
    && r.logStart <= (if r.stored.Some? then r.stored.value.index else 0)
  }

  ghost predicate Inv(c: Cluster, f: Format) {
    forall r :: r in c.replicas ==> ReplicaOk(c.log, r, f)
  }

  lemma LongerLog(log: seq<Bytes>, entry: Bytes, r: Replica, f: Format)
    requires ReplicaOk(log, r, f)
    ensures ReplicaOk(log + [entry], r, f)
  {
    var longer := log + [entry];
    assert longer[..r.applied] == log[..r.applied];
    forall t | t in r.taken ensures TakenOk(longer, t, f) {
      assert TakenOk(log, t, f);
      assert longer[..t.index] == log[..t.index];
    }
    if r.stored.Some? {
      assert longer[..r.stored.value.index] == log[..r.stored.value.index];
    }
  }

  lemma StepKeepsReplica(log: seq<Bytes>, r: Replica, e: Event, source: Option<Stored>, f: Format)
    requires f.RoundTrips() && ReplicaOk(log, r, f) && (source.Some? ==> StoredOk(log, source.value, f))
    ensures ReplicaOk(log, Stepped(log, r, e, source, f), f)
  {
    match e
    case ApplyNext(_) =>
      if r.applied < |log| {
        assert log[..r.applied + 1][..r.applied] == log[..r.applied];
      }
    case Persist(_, n, sinkOk) =>
      if n < |r.taken| {
        assert TakenOk(log, r.taken[n], f);
      }
    case _ =>
  }

  lemma StepKeepsInv(c: Cluster, e: Event, f: Format)
    requires f.RoundTrips() && Inv(c, f)
    ensures Inv(Step(c, e, f), f)
  {
    if e.Commit? {
      forall r | r in c.replicas ensures ReplicaOk(c.log + [e.entry], r, f) {
        LongerLog(c.log, e.entry, r, f);
      }
    } else if e.i < |c.replicas| {
      if Source(c, e).Some? {
        assert ReplicaOk(c.log, c.replicas[e.from], f);
      }
      assert ReplicaOk(c.log, c.replicas[e.i], f);
      StepKeepsReplica(c.log, c.replicas[e.i], e, Source(c, e), f);
    }
  }

  function Run(c: Cluster, events: seq<Event>, f: Format): Cluster
    decreases |events|
  {
    if events == [] then c else Step(Run(c, events[..|events| - 1], f), events[|events| - 1], f)
  }

  /** A cluster of n new replicas and an empty log. */
  function Fresh(n: nat): Cluster { Cluster([], seq(n, _ => New())) }

  lemma {:induction false} RunKeepsInv(n: nat, events: seq<Event>, f: Format)
    requires f.RoundTrips()
    ensures Inv(Run(Fresh(n), events, f), f)
    decreases |events|
  {
    if events != [] {
      RunKeepsInv(n, events[..|events| - 1], f);
      StepKeepsInv(Run(Fresh(n), events[..|events| - 1], f), events[|events| - 1], f);
    }
  }

  // ---------- the theorems ----------

  /** In every run each replica's data is the replay of the log prefix it applied,
      so replicas that applied equally much agree. */
  lemma ReplicasAgree(n: nat, events: seq<Event>, f: Format, i: nat, j: nat)
    requires f.RoundTrips()
    requires i < |Run(Fresh(n), events, f).replicas| && j < |Run(Fresh(n), events, f).replicas|
    ensures var c := Run(Fresh(n), events, f);
            && c.replicas[i].applied <= |c.log|
            && c.replicas[i].data == Replay(c.log[..c.replicas[i].applied], f)
            && (c.replicas[i].applied == c.replicas[j].applied ==> c.replicas[i].data == c.replicas[j].data)
  {
    RunKeepsInv(n, events, f);
    var c := Run(Fresh(n), events, f);
    assert c.replicas[i] in c.replicas && c.replicas[j] in c.replicas;
  }

  /** Log compaction loses nothing: at any moment a replica can crash, boot from
      its newest snapshot and, from the log it still has, catch up to the whole
      committed log. */
  lemma CompactionLosesNothing(n: nat, events: seq<Event>, f: Format, i: nat)
    requires f.RoundTrips() && i < |Run(Fresh(n), events, f).replicas|
    ensures var c := Run(Fresh(n), events, f);
            var booted := Booted(c.replicas[i], f);
            && booted.logStart <= booted.applied <= |c.log|
            && ReplayFrom(booted.data, c.log[booted.applied..], f) == Replay(c.log, f)
  {
    RunKeepsInv(n, events, f);
    var c := Run(Fresh(n), events, f);
    assert c.replicas[i] in c.replicas;
    StepKeepsReplica(c.log, c.replicas[i], Restart(i), None, f);
    ReplayComposes(map[], c.log, Booted(c.replicas[i], f).applied, f);
  }

  // ---------- progress ----------

  lemma {:induction false} RunAppend(c: Cluster, a: seq<Event>, b: seq<Event>, f: Format)
    ensures Run(c, a + b, f) == Run(Run(c, a, f), b, f)
    decreases |b|
  {
    if b == [] {
      assert a + b == a;
    } else {
      assert (a + b)[..|a + b| - 1] == a + b[..|b| - 1];
      RunAppend(c, a, b[..|b| - 1], f);
    }
  }

  /** Further entries applied: as many as asked for, or as there are. */
  lemma {:induction false} AppliesReach(c: Cluster, i: nat, k: nat, f: Format)
    requires f.RoundTrips() && Inv(c, f) && i < |c.replicas|
    ensures var t := Run(c, seq(k, _ => ApplyNext(i)), f);
            && t.log == c.log && |t.replicas| == |c.replicas| && Inv(t, f)
            && (forall j :: 0 <= j < |c.replicas| && j != i ==> t.replicas[j] == c.replicas[j])
            && t.replicas[i] == c.replicas[i].(data := t.replicas[i].data, applied := t.replicas[i].applied)
            && t.replicas[i].applied == (if c.replicas[i].applied + k <= |c.log| then c.replicas[i].applied + k
                                         else |c.log|)
    decreases k
  {
    assert c.replicas[i] in c.replicas;
    if k > 0 {
      var events := seq(k, _ => ApplyNext(i));
      assert events[..k - 1] == seq(k - 1, _ => ApplyNext(i));
      AppliesReach(c, i, k - 1, f);
      var before := Run(c, events[..k - 1], f);
      StepKeepsInv(before, ApplyNext(i), f);
      assert before.replicas[i] in before.replicas;
      hide Inv, Applied;
    }
  }

  /** In any run a replica that is then fed the log to its end holds the replay of all
      of it; so does one that crashed and was booted from its newest snapshot first. */
  lemma ReplicaCatchesUp(n: nat, events: seq<Event>, f: Format, i: nat, crashed: bool, k: nat)
    requires f.RoundTrips() && i < |Run(Fresh(n), events, f).replicas| && k >= |Run(Fresh(n), events, f).log|
    ensures var c := Run(Fresh(n), events, f);
            var t := Run(Fresh(n), events + (if crashed then [Restart(i)] else []) + seq(k, _ => ApplyNext(i)), f);
            && t.log == c.log && i < |t.replicas|
            && t.replicas[i].applied == |c.log| && t.replicas[i].data == Replay(c.log, f)
  {
    var c := Run(Fresh(n), events, f);
    var mid := events + if crashed then [Restart(i)] else [];
    var c1 := Run(Fresh(n), mid, f);
    RunKeepsInv(n, mid, f);
    if crashed {
      assert mid[..|mid| - 1] == events;
    } else {
      assert mid == events;
    }
    assert c1.log == c.log && |c1.replicas| == |c.replicas|;
    RunAppend(Fresh(n), mid, seq(k, _ => ApplyNext(i)), f);
    AppliesReach(c1, i, k, f);
    var t := Run(c1, seq(k, _ => ApplyNext(i)), f);
    assert c1.replicas[i] in c1.replicas && t.replicas[i] in t.replicas;
    assert c.log[..|c.log|] == c.log;
  }

  /** A snapshot taken, persisted after any number of further entries and booted from is
      the data as of its taking; a failed sink leaves the newest snapshot as it was. */
  lemma PersistedSnapshotIsBooted(c: Cluster, i: nat, k: nat, f: Format)
    requires f.RoundTrips() && Inv(c, f) && i < |c.replicas|
    ensures var n := |c.replicas[i].taken|;
            var later := Run(Step(c, TakeSnapshot(i), f), seq(k, _ => ApplyNext(i)), f);
            && i < |later.replicas|
            && Step(later, Persist(i, n, false), f).replicas[i].stored == c.replicas[i].stored
            && var booted := Step(Step(later, Persist(i, n, true), f), Restart(i), f).replicas[i];
               booted.data == c.replicas[i].data && booted.applied == c.replicas[i].applied
  {
    var r, c1 := c.replicas[i], Step(c, TakeSnapshot(i), f);
    StepKeepsInv(c, TakeSnapshot(i), f);
    AppliesReach(c1, i, k, f);
    assert r in c.replicas;
    var later := Run(c1, seq(k, _ => ApplyNext(i)), f);
    assert later.replicas[i].taken == r.taken + [Taken(r.data, r.applied)];
  }

  /** An installed snapshot newer than what was applied takes its place, and a compacted
      log starts where it was told to, no later than the newest snapshot. */
  lemma InstallAndCompact(c: Cluster, i: nat, from: nat, upto: nat, f: Format)
    requires f.RoundTrips() && Inv(c, f) && i < |c.replicas| && from < |c.replicas|
    ensures var s, t := c.replicas[from].stored, Step(c, Install(i, from), f);
            s.Some? && s.value.index > c.replicas[i].applied ==>
              && t.replicas[i].applied == s.value.index <= |c.log|
              && t.replicas[i].data == Replay(c.log[..s.value.index], f)
    ensures var s := c.replicas[from].stored;
            s.None? || s.value.index <= c.replicas[i].applied ==> Step(c, Install(i, from), f) == c
    ensures var s, t := c.replicas[i].stored, Step(c, Compact(i, upto), f);
            t.replicas[i].logStart ==
            if s.Some? && c.replicas[i].logStart <= upto <= s.value.index then upto else c.replicas[i].logStart
  {
    assert c.replicas[i] in c.replicas && c.replicas[from] in c.replicas;
  }
}
