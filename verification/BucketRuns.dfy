/** Whole runs of one token bucket. */
module BucketRuns {
  import opened Common
  import opened TokenBuckets

  datatype Op = AllowN(n: real, at: Time) | Tokens(at: Time) | WaitTime(n: real, at: Time)

  datatype Answer = Granted(ok: bool) | Level(tokens: real) | Wait(nanos: Option<int>)

  function Step(b: Bucket, op: Op): Bucket {
    if op.AllowN? then b.AfterAllowN(op.n, op.at) else b.Refill(op.at)
  }

  function AnswerTo(b: Bucket, op: Op): Answer {
    match op
    case AllowN(n, at) => Granted(b.Grants(n, at))
    case Tokens(at) => Level(b.Refill(at).tokens)
    case WaitTime(n, at) => Wait(b.WaitTime(n, at))
  }

  function Run(b: Bucket, ops: seq<Op>): Bucket
    decreases |ops|
  {
    if ops == [] then b else Run(Step(b, ops[0]), ops[1..])
  }

  function Answers(b: Bucket, ops: seq<Op>): (answers: seq<Answer>)
    ensures |answers| == |ops|
    decreases |ops|
  {
    if ops == [] then [] else [AnswerTo(b, ops[0])] + Answers(Step(b, ops[0]), ops[1..])
  }

  /** Clock readings never go back, from `t` on. */
  ghost predicate Timed(ops: seq<Op>, t: Time) {
    ops == [] || (t <= ops[0].at && Timed(ops[1..], ops[0].at))
  }

  // ---------- refill ----------

  /** Capped refill composes over a split interval. */
  lemma RefillComposes(b: Bucket, t: Time, u: Time)
    requires 0.0 <= b.refillRate && t <= u
    ensures b.Refill(t).Refill(u) == b.Refill(u)
  {
    YieldAdds(b.refillRate, t - b.lastRefill, u - t);
  }

  lemma StepKeepsValid(b: Bucket, op: Op)
    requires b.Valid() && b.lastRefill <= op.at && (op.AllowN? ==> op.n >= 0.0)
    ensures Step(b, op).Valid()
  {
  }

  // ---------- denials are invisible ----------

  function Select<T>(s: seq<T>, keep: seq<bool>): seq<T>
    requires |keep| == |s|
  {
    if s == [] then [] else (if keep[0] then [s[0]] else []) + Select(s[1..], keep[1..])
  }

  lemma {:induction false} SelectPreservesAnswers(b: Bucket, c: Bucket, ops: seq<Op>, keep: seq<bool>, t: Time)
    requires b.maxTokens == c.maxTokens && b.refillRate == c.refillRate >= 0.0
    requires b.Refill(t) == c.Refill(t) && Timed(ops, t) && |keep| == |ops|
    requires forall i :: 0 <= i < |ops| && !keep[i] ==> Answers(b, ops)[i] != Granted(true)
    ensures Answers(c, Select(ops, keep)) == Select(Answers(b, ops), keep)
    decreases |ops|
  {
    if ops != [] {
      hide Yield, Select;
      var op := ops[0];
      RefillComposes(b, t, op.at);
      RefillComposes(c, t, op.at);
      var b' := Step(b, op);
      SelectCons(ops, keep);
      SelectCons(Answers(b, ops), keep);
      assert Answers(b, ops)[1..] == Answers(b', ops[1..]);
      assert forall i :: 0 <= i < |ops[1..]| ==> Answers(b', ops[1..])[i] == Answers(b, ops)[i + 1];
      if keep[0] {
        assert AnswerTo(c, op) == AnswerTo(b, op) && Step(c, op) == b';
        SelectPreservesAnswers(b', b', ops[1..], keep[1..], op.at);
        assert Select(ops, keep)[1..] == Select(ops[1..], keep[1..]);
      } else {
        assert Answers(b, ops)[0] != Granted(true);
        RefillComposes(b, op.at, op.at);
        SelectPreservesAnswers(b', c, ops[1..], keep[1..], op.at);
      }
    } else {
      assert Select(ops, keep) == [];
    }
  }

  lemma SelectCons<T>(s: seq<T>, keep: seq<bool>)
    requires |keep| == |s| > 0
    ensures Select(s, keep) == if keep[0] then [s[0]] + Select(s[1..], keep[1..]) else Select(s[1..], keep[1..])
  {
  }

  /** Deleting any of the denied AllowN, the Tokens and the WaitTime calls of a
      run changes none of the remaining answers. */
  lemma DenialsAreInvisible(b: Bucket, ops: seq<Op>, keep: seq<bool>)
    requires b.refillRate >= 0.0 && Timed(ops, b.lastRefill) && |keep| == |ops|
    requires forall i :: 0 <= i < |ops| && !keep[i] ==> Answers(b, ops)[i] != Granted(true)
    ensures Answers(b, Select(ops, keep)) == Select(Answers(b, ops), keep)
  {
    SelectPreservesAnswers(b, b, ops, keep, b.lastRefill);
  }

  // ---------- the window bound ----------

  /** Tokens granted at instants between `from` and `to`. */
  function GrantedIn(b: Bucket, ops: seq<Op>, from: Time, to: Time): real
    decreases |ops|
  {
    if ops == [] then 0.0
    else
      var op := ops[0];
      (if op.AllowN? && b.Grants(op.n, op.at) && from <= op.at <= to then op.n else 0.0)
      + GrantedIn(Step(b, op), ops[1..], from, to)
  }

  ghost predicate NonNegative(ops: seq<Op>) {
    forall op :: op in ops && op.AllowN? ==> op.n >= 0.0
  }

  /** What a bucket can still grant until `to`. */
  function Budget(b: Bucket, from: Time, to: Time): real {
    if b.lastRefill > to then 0.0
    else if b.lastRefill < from then b.maxTokens + Yield(b.refillRate, to - from)
    else b.tokens + Yield(b.refillRate, to - b.lastRefill)
  }

  lemma StepWithinBudget(b: Bucket, op: Op, from: Time, to: Time)
    requires b.Valid() && b.lastRefill <= op.at && from <= to && (op.AllowN? ==> op.n >= 0.0)
    ensures (if op.AllowN? && b.Grants(op.n, op.at) && from <= op.at <= to then op.n else 0.0)
            + Budget(Step(b, op), from, to) <= Budget(b, from, to)
  {
    hide Yield;
    var r, now := b.refillRate, op.at;
    YieldAdds(r, now - b.lastRefill, to - now);
    YieldAdds(r, to - b.lastRefill, 0);
    YieldAdds(r, now - from, to - now);
    YieldAdds(r, to - from, 0);
  }

  lemma {:induction false} GrantsWithinBudget(b: Bucket, ops: seq<Op>, from: Time, to: Time)
    requires b.Valid() && Timed(ops, b.lastRefill) && NonNegative(ops) && from <= to
    ensures GrantedIn(b, ops, from, to) <= Budget(b, from, to)
    decreases |ops|
  {
    if ops == [] {
      YieldAdds(b.refillRate, to - b.lastRefill, to - from);
    } else {
      assert ops[0] in ops;
      StepKeepsValid(b, ops[0]);
      StepWithinBudget(b, ops[0], from, to);
      GrantsWithinBudget(Step(b, ops[0]), ops[1..], from, to);
    }
  }

  lemma BudgetBound(b: Bucket, from: Time, to: Time)
    requires b.Valid() && from <= to
    ensures 0.0 <= Budget(b, from, to) <= b.maxTokens + Yield(b.refillRate, to - from)
  {
    hide Yield;
    YieldAdds(b.refillRate, to - b.lastRefill, b.lastRefill - from);
    YieldAdds(b.refillRate, to - from, 0);
  }

  /** In any run and any time window a bucket grants at most its capacity plus
      what its rate yields over the window. */
  lemma WindowBound(b: Bucket, ops: seq<Op>, from: Time, to: Time)
    requires b.Valid() && Timed(ops, b.lastRefill) && NonNegative(ops) && from <= to
    ensures GrantedIn(b, ops, from, to) <= b.maxTokens + (to - from) as real * b.refillRate / 1000000000.0
  {
    YieldWrittenOut(b.refillRate, to - from);
    hide Yield, Budget, GrantedIn;
    GrantsWithinBudget(b, ops, from, to);
    BudgetBound(b, from, to);
  }

  /** Whatever is taken from a bucket refilled by now, a credit if negative, and
      capped again, comes out of its budget. */
  lemma TakeWithinBudget(b: Bucket, n: real, now: Time, from: Time, to: Time)
    requires b.Valid() && b.lastRefill == now && from <= to
    ensures var b' := b.AfterAllowN(n, now).Refill(now);
            && b'.Valid()
            && (if b.Grants(n, now) && from <= now <= to then n else 0.0) + Budget(b', from, to) <= Budget(b, from, to)
  {
  }

  /** A full bucket in its place can grant what was missing on top. */
  lemma RenewalWithinBudget(b: Bucket, now: Time, from: Time, to: Time)
    requires b.Valid() && b.lastRefill == now && from <= to
    ensures Budget(Full(b.maxTokens, b.refillRate, now), from, to)
            == Budget(b, from, to) + if from <= now <= to then b.maxTokens - b.tokens else 0.0
  {
  }

  // ---------- greedy granting is optimal ----------

  /** How many of equal requests for `n` tokens, at these times, AllowN grants. */
  function GreedyCount(b: Bucket, n: real, times: seq<Time>): nat
    decreases |times|
  {
    if times == [] then 0
    else (if b.Grants(n, times[0]) then 1 else 0) + GreedyCount(b.AfterAllowN(n, times[0]), n, times[1..])
  }

  /** A bucket could serve exactly the chosen requests: at each of them its
      refilled level suffices; the others it lets go by. */
  ghost predicate Servable(b: Bucket, n: real, times: seq<Time>, choice: seq<bool>)
    requires |choice| == |times|
    decreases |times|
  {
    times == [] || (
      var c := b.Refill(times[0]);
      if choice[0]
      then c.tokens >= n && Servable(c.(tokens := c.tokens - n), n, times[1..], choice[1..])
      else Servable(c, n, times[1..], choice[1..]))
  }

  function Chosen(choice: seq<bool>): nat {
    if choice == [] then 0 else (if choice[0] then 1 else 0) + Chosen(choice[1..])
  }

  ghost predicate Increasing(times: seq<Time>, t: Time)
    decreases |times|
  {
    times == [] || (t <= times[0] && Increasing(times[1..], times[0]))
  }

  /** `lead` requests ahead, greedy's level is behind by at most their tokens. */
  ghost predicate Ahead(g: Bucket, a: Bucket, n: real, lead: int) {
    && g.maxTokens == a.maxTokens && g.refillRate == a.refillRate && g.lastRefill == a.lastRefill
    && lead >= 0 && g.tokens + lead as real * n >= a.tokens
  }

  lemma RefillKeepsAhead(g: Bucket, a: Bucket, n: real, lead: int, now: Time)
    requires Ahead(g, a, n, lead) && n > 0.0 && 0.0 <= g.refillRate && g.lastRefill <= now
    ensures Ahead(g.Refill(now), a.Refill(now), n, lead)
  {
  }

  lemma {:induction false} GreedyStaysAhead(g: Bucket, a: Bucket, n: real, times: seq<Time>, choice: seq<bool>,
                                            lead: int)
    requires Ahead(g, a, n, lead) && n > 0.0 && 0.0 <= g.refillRate
    requires Increasing(times, g.lastRefill) && |choice| == |times| && Servable(a, n, times, choice)
    ensures lead + GreedyCount(g, n, times) >= Chosen(choice)
    decreases |times|
  {
    if times != [] {
      RefillKeepsAhead(g, a, n, lead, times[0]);
      var g1, a1 := g.Refill(times[0]), a.Refill(times[0]);
      var granted := g1.tokens >= n;
      var a2 := if choice[0] then a1.(tokens := a1.tokens - n) else a1;
      var lead' := lead + (if granted then 1 else 0) - (if choice[0] then 1 else 0);
      if !granted && choice[0] {
        assert lead as real * n > 0.0;
        assert lead > 0;
      }
      assert lead' as real * n == lead as real * n + (if granted then n else 0.0) - (if choice[0] then n else 0.0);
      GreedyStaysAhead(g.AfterAllowN(n, times[0]), a2, n, times[1..], choice[1..], lead');
    }
  }

  lemma {:induction false} ServablePrefix(b: Bucket, n: real, times: seq<Time>, choice: seq<bool>, t: Time, m: nat)
    requires |choice| == |times| && Servable(b, n, times, choice) && Increasing(times, t) && m <= |times|
    ensures Servable(b, n, times[..m], choice[..m]) && Increasing(times[..m], t)
    decreases |times|
  {
    if m != 0 {
      var c := b.Refill(times[0]);
      var c' := if choice[0] then c.(tokens := c.tokens - n) else c;
      ServablePrefix(c', n, times[1..], choice[1..], times[0], m - 1);
      assert times[..m][1..] == times[1..][..m - 1] && choice[..m][1..] == choice[1..][..m - 1];
    }
  }

  /** By each moment AllowN has granted at least as many requests as any other
      choice of requests that the same bucket could have served. */
  lemma GreedyIsOptimal(b: Bucket, n: real, times: seq<Time>, choice: seq<bool>, m: nat)
    requires n > 0.0 && 0.0 <= b.refillRate && Increasing(times, b.lastRefill)
    requires |choice| == |times| && Servable(b, n, times, choice) && m <= |times|
    ensures GreedyCount(b, n, times[..m]) >= Chosen(choice[..m])
  {
    ServablePrefix(b, n, times, choice, b.lastRefill, m);
    GreedyStaysAhead(b, b, n, times[..m], choice[..m], 0);
  }

  // ---------- WaitTime is tight ----------

  lemma {:induction false} RunWithoutGrants(b: Bucket, ops: seq<Op>, t: Time)
    requires 0.0 <= b.refillRate && Timed(ops, b.lastRefill)
    requires forall i :: 0 <= i < |ops| ==> Answers(b, ops)[i] != Granted(true)
    requires t >= (if ops == [] then b.lastRefill else ops[|ops| - 1].at)
    ensures Run(b, ops).Refill(t) == b.Refill(t)
    decreases |ops|
  {
    if ops != [] {
      assert Answers(b, ops)[0] != Granted(true);
      var b' := Step(b, ops[0]);
      assert forall i :: 0 <= i < |ops[1..]| ==> Answers(b', ops[1..])[i] == Answers(b, ops)[i + 1];
      LastIsLatest(ops, b.lastRefill);
      RunWithoutGrants(b', ops[1..], t);
      RefillComposes(b, ops[0].at, t);
    }
  }

  lemma {:induction false} LastIsLatest(ops: seq<Op>, t: Time)
    requires ops != [] && Timed(ops, t)
    ensures t <= ops[0].at <= ops[|ops| - 1].at
  {
    if |ops| > 1 {
      LastIsLatest(ops[1..], ops[0].at);
    }
  }

  /** With no grant in between, n tokens are refused at any time sooner than
      WaitTime and granted from a nanosecond past it, provided n fits the bucket;
      an n that does not fit is refused for ever, whatever WaitTime says. */
  lemma WaitTimeIsTight(b: Bucket, n: real, now: Time, ops: seq<Op>, d: nat)
    requires b.Valid() && b.refillRate > 0.0 && b.lastRefill <= now
    requires Timed(ops, now) && now + d >= (if ops == [] then now else ops[|ops| - 1].at)
    requires var asked := Step(b, WaitTime(n, now));
             forall i :: 0 <= i < |ops| ==> Answers(asked, ops)[i] != Granted(true)
    ensures var w := b.WaitTime(n, now);
            var later := Run(Step(b, WaitTime(n, now)), ops);
            && w.Some?
            && (d < w.value ==> !later.Grants(n, now + d))
            && (d > w.value ==> (later.Grants(n, now + d) <==> n <= b.maxTokens))
            && (n > b.maxTokens ==> !later.Grants(n, now + d))
  {
    var asked := b.Refill(now);
    RunWithoutGrants(asked, ops, now + d);
    YieldAdds(b.refillRate, now - b.lastRefill, d);
    if asked.tokens < n {
      AccruesExactly(b.refillRate, n - asked.tokens, d);
    } else {
      YieldAdds(b.refillRate, d, 0);
    }
  }

  /** The truncated quotient separates the delays that yield less than `needed`. */
  lemma AccruesExactly(rate: real, needed: real, d: nat)
    requires rate > 0.0 && needed > 0.0
    ensures d < Truncate(needed / rate * NANOS_PER_SECOND) ==> Yield(rate, d) < needed
    ensures d > Truncate(needed / rate * NANOS_PER_SECOND) ==> Yield(rate, d) > needed
  {
    var x := needed / rate * NANOS_PER_SECOND;
    var dr := d as real;
    assert needed / rate > 0.0;
    assert x / NANOS_PER_SECOND * rate == needed;
    if d < x.Floor {
      Scales(dr, x, rate);
    } else if d > x.Floor {
      assert dr > x;
      Scales(x, dr, rate);
    }
  }

  lemma Scales(x: real, y: real, rate: real)
    requires x < y && 0.0 < rate
    ensures x / NANOS_PER_SECOND * rate < y / NANOS_PER_SECOND * rate
  {
  }
}
