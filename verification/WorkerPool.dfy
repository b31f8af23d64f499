/** mapWithConcurrency of apps/api/src/market/market.service.ts: runners that share one cursor, as an
    interleaving of the segments between their awaits. */
module WorkerPool {
  import opened Wrappers

  /** Where a runner is: about to take its first item, awaiting the worker on an item, finished, or rejected. */
  datatype Runner = Fresh | Awaiting(index: nat) | Done | Rejected

  datatype Pool<R> = Pool(cursor: nat, runners: seq<Runner>, results: seq<Option<R>>)

  /** How many runners are started: as many as the setting and the items allow, and at least one. */
  function Concurrency(maxParallel: int, n: nat): (c: nat)
    ensures c >= 1
    ensures n > 0 && maxParallel >= 1 ==> c <= maxParallel && c <= n && (c == maxParallel || c == n)
    ensures n == 0 || maxParallel < 1 ==> c == 1
  {
    var least := if maxParallel < n then maxParallel else n;
    if least < 1 then 1 else least
  }

  function Start<R>(n: nat, c: nat): Pool<R> {
    Pool(0, seq(c, _ => Fresh), seq(n, _ => None))
  }

  predicate Stopped(r: Runner) { r.Done? || r.Rejected? }

  predicate Enabled<R>(p: Pool<R>, r: nat) {
    r < |p.runners| && !Stopped(p.runners[r])
  }

  /** Take the item at the cursor and advance it; past the last item the runner is done. */
  function Claim<R>(p: Pool<R>, r: nat): Pool<R>
    requires r < |p.runners|
  {
    p.(cursor := p.cursor + 1,
       runners := p.runners[r := if p.cursor >= |p.results| then Done else Awaiting(p.cursor)])
  }

  /** One segment of runner r; outcomes[i] is what the worker does on item i: return a value, or reject.
      A stopped runner has no next segment. */
  function Step<R>(p: Pool<R>, r: nat, outcomes: seq<Option<R>>): Pool<R> {
    if !Enabled(p, r) then p
    else
      match p.runners[r]
      case Awaiting(i) =>
        if i >= |outcomes| || i >= |p.results| || outcomes[i].None? then p.(runners := p.runners[r := Rejected])
        else Claim(p.(results := p.results[i := outcomes[i]]), r)
      case _ => Claim(p, r)
  }

  /** A schedule names, segment by segment, which runner goes on. */
  ghost function Run<R>(p: Pool<R>, schedule: seq<nat>, outcomes: seq<Option<R>>): Pool<R> {
    if |schedule| == 0 then p
    else Step(Run(p, schedule[..|schedule| - 1], outcomes), schedule[|schedule| - 1], outcomes)
  }

  /** Every named runner did have a next segment. */
  ghost predicate Possible<R>(p: Pool<R>, schedule: seq<nat>, outcomes: seq<Option<R>>) {
    |schedule| > 0 ==>
      && Possible(p, schedule[..|schedule| - 1], outcomes)
      && Enabled(Run(p, schedule[..|schedule| - 1], outcomes), schedule[|schedule| - 1])
  }

  ghost predicate AllStopped<R>(p: Pool<R>) {
    forall r | 0 <= r < |p.runners| :: Stopped(p.runners[r])
  }

  // ---------- counting runners ----------

  function Count(runners: seq<Runner>, what: Runner): nat {
    if |runners| == 0 then 0 else Count(runners[1..], what) + if runners[0] == what then 1 else 0
  }

  lemma {:induction false} CountSet(runners: seq<Runner>, r: nat, now: Runner, what: Runner)
    requires r < |runners|
    ensures Count(runners[r := now], what)
            == Count(runners, what) - (if runners[r] == what then 1 else 0) + (if now == what then 1 else 0)
  {
    if r == 0 {
      assert runners[0 := now][1..] == runners[1..];
    } else {
      CountSet(runners[1..], r - 1, now, what);
      assert runners[r := now][1..] == runners[1..][r - 1 := now];
    }
  }

  lemma {:induction false} StoppedCount(runners: seq<Runner>)
    ensures Count(runners, Done) + Count(runners, Rejected) <= |runners|
    ensures (forall r | 0 <= r < |runners| :: Stopped(runners[r]))
            <==> Count(runners, Done) + Count(runners, Rejected) == |runners|
    ensures Count(runners, Rejected) > 0 <==> Rejected in runners
  {
    if |runners| > 0 {
      StoppedCount(runners[1..]);
      assert runners == [runners[0]] + runners[1..];
    }
  }

  lemma {:induction false} CountFresh(c: nat, what: Runner)
    requires what != Fresh
    ensures Count(seq(c, _ => Fresh), what) == 0
  {
    if c > 0 {
      CountFresh(c - 1, what);
      assert seq(c, _ => Fresh)[1..] == seq(c - 1, _ => Fresh);
    }
  }

  // ---------- every reachable state ----------

  /** No two runners work on one item, and an item in work has no result yet. */
  ghost predicate Exclusive<R>(p: Pool<R>) {
    && (forall r | 0 <= r < |p.runners| && p.runners[r].Awaiting? ::
          p.runners[r].index < p.cursor && p.runners[r].index < |p.results| && p.results[p.runners[r].index].None?)
    && (forall r, q | 0 <= r < q < |p.runners| && p.runners[r].Awaiting? && p.runners[q].Awaiting? ::
          p.runners[r].index != p.runners[q].index)
  }

  /** The item's value is stored; or a runner is working on it; or its worker rejected. */
  ghost predicate Settled<R>(p: Pool<R>, outcomes: seq<Option<R>>, i: nat)
    requires i < |p.results| == |outcomes|
  {
    || (p.results[i].Some? && p.results[i] == outcomes[i])
    || Awaiting(i) in p.runners
    || (outcomes[i].None? && Rejected in p.runners)
  }

  ghost predicate Accounted<R>(p: Pool<R>, outcomes: seq<Option<R>>) {
    && |p.results| == |outcomes|
    && (forall i | 0 <= i < |outcomes| && i < p.cursor :: Settled(p, outcomes, i))
    && (forall i | 0 <= i < |outcomes| && p.cursor <= i :: p.results[i].None?)
  }

  ghost predicate Inv<R>(p: Pool<R>, outcomes: seq<Option<R>>, c: nat, steps: nat) {
    && |p.runners| == c && Exclusive(p) && Accounted(p, outcomes)
    && Count(p.runners, Done) == (if p.cursor <= |outcomes| then 0 else p.cursor - |outcomes|)
    && steps == p.cursor + Count(p.runners, Rejected)
  }

  lemma StepKeepsExclusive<R>(p: Pool<R>, r: nat, outcomes: seq<Option<R>>)
    requires Exclusive(p) && Accounted(p, outcomes)
    ensures Exclusive(Step(p, r, outcomes))
  {
  }

  lemma SettledStays<R>(p: Pool<R>, r: nat, outcomes: seq<Option<R>>, i: nat)
    requires Enabled(p, r) && Exclusive(p) && Accounted(p, outcomes) && i < |outcomes| && i < p.cursor
    ensures Settled(Step(p, r, outcomes), outcomes, i)
  {
    var next := Step(p, r, outcomes);
    assert Settled(p, outcomes, i);
    if p.results[i].Some? && p.results[i] == outcomes[i] {
      assert next.results[i] == p.results[i];
    } else if p.runners[r] == Awaiting(i) {
      assert outcomes[i].None? ==> next.runners[r] == Rejected;
    } else if Awaiting(i) in p.runners {
      var q :| 0 <= q < |p.runners| && p.runners[q] == Awaiting(i);
      assert next.runners[q] == Awaiting(i);
    } else if Rejected in p.runners {
      var q :| 0 <= q < |p.runners| && p.runners[q] == Rejected;
      assert next.runners[q] == Rejected;
    }
  }

  lemma StepKeepsAccounted<R>(p: Pool<R>, r: nat, outcomes: seq<Option<R>>)
    requires Enabled(p, r) && Exclusive(p) && Accounted(p, outcomes)
    ensures Accounted(Step(p, r, outcomes), outcomes)
  {
    var next := Step(p, r, outcomes);
    forall i | 0 <= i < |outcomes| && i < next.cursor ensures Settled(next, outcomes, i) {
      if i < p.cursor {
        SettledStays(p, r, outcomes, i);
      } else {
        assert next.runners[r] == Awaiting(i);
      }
    }
  }

  lemma StepKeepsInv<R>(p: Pool<R>, r: nat, outcomes: seq<Option<R>>, c: nat, steps: nat)
    requires Inv(p, outcomes, c, steps) && Enabled(p, r)
    ensures Inv(Step(p, r, outcomes), outcomes, c, steps + 1)
  {
    StepKeepsExclusive(p, r, outcomes);
    StepKeepsAccounted(p, r, outcomes);
    var now := Step(p, r, outcomes).runners[r];
    CountSet(p.runners, r, now, Done);
    CountSet(p.runners, r, now, Rejected);
  }

  lemma StartInv<R>(outcomes: seq<Option<R>>, c: nat)
    ensures Inv(Start(|outcomes|, c), outcomes, c, 0)
  {
    CountFresh(c, Done);
    CountFresh(c, Rejected);
  }

  lemma {:induction false} RunKeepsInv<R>(outcomes: seq<Option<R>>, c: nat, schedule: seq<nat>)
    requires Possible(Start(|outcomes|, c), schedule, outcomes)
    ensures Inv(Run(Start(|outcomes|, c), schedule, outcomes), outcomes, c, |schedule|)
  {
    if |schedule| == 0 {
      StartInv(outcomes, c);
    } else {
      var before := schedule[..|schedule| - 1];
      RunKeepsInv(outcomes, c, before);
      StepKeepsInv(Run(Start(|outcomes|, c), before, outcomes), schedule[|schedule| - 1], outcomes, c, |before|);
    }
  }

  // ---------- what every schedule does ----------

  /** The items handed to the worker, in order. */
  ghost function Calls<R>(p: Pool<R>, schedule: seq<nat>, outcomes: seq<Option<R>>): seq<nat> {
    if |schedule| == 0 then []
    else
      var before := schedule[..|schedule| - 1];
      var mid, r := Run(p, before, outcomes), schedule[|schedule| - 1];
      var next := Step(mid, r, outcomes);
      Calls(p, before, outcomes) + if next.cursor > mid.cursor && next.runners[r].Awaiting? then [next.runners[r].index] else []
  }

  /** Each item is handed to the worker by exactly one runner, in order, and none is skipped. */
  lemma {:induction false} CalledOnceInOrder<R>(outcomes: seq<Option<R>>, c: nat, schedule: seq<nat>)
    requires Possible(Start(|outcomes|, c), schedule, outcomes)
    ensures
      var cursor := Run(Start(|outcomes|, c), schedule, outcomes).cursor;
      Calls(Start(|outcomes|, c), schedule, outcomes) == seq(if cursor < |outcomes| then cursor else |outcomes|, i => i)
  {
    if |schedule| > 0 {
      var before := schedule[..|schedule| - 1];
      CalledOnceInOrder(outcomes, c, before);
      RunKeepsInv(outcomes, c, before);
    }
  }

  /** When all runners have stopped and none rejected, every result is in its place. */
  lemma StoppedIsComplete<R>(p: Pool<R>, outcomes: seq<Option<R>>, c: nat, steps: nat)
    requires Inv(p, outcomes, c, steps) && c >= 1 && AllStopped(p) && Rejected !in p.runners
    ensures p.results == outcomes && steps == |outcomes| + c
  {
    StoppedCount(p.runners);
    forall i | 0 <= i < |outcomes| ensures p.results[i] == outcomes[i] {
      assert Settled(p, outcomes, i);
    }
  }

  lemma StepsBounded<R>(p: Pool<R>, outcomes: seq<Option<R>>, c: nat, steps: nat)
    requires Inv(p, outcomes, c, steps)
    ensures steps <= |outcomes| + c
    ensures Rejected !in p.runners && !AllStopped(p) ==> p.cursor < |outcomes| + c
  {
    StoppedCount(p.runners);
  }

  /** However the runners are interleaved, there are at most items + runners segments; when all runners have
      stopped and no worker rejected, there were exactly that many and every result is in its place. */
  lemma EveryScheduleEnds<R>(outcomes: seq<Option<R>>, c: nat, schedule: seq<nat>)
    requires c >= 1 && Possible(Start(|outcomes|, c), schedule, outcomes)
    ensures |schedule| <= |outcomes| + c
    ensures
      var end := Run(Start(|outcomes|, c), schedule, outcomes);
      AllStopped(end) && Rejected !in end.runners ==> |schedule| == |outcomes| + c && end.results == outcomes
  {
    RunKeepsInv(outcomes, c, schedule);
    var end := Run(Start(|outcomes|, c), schedule, outcomes);
    StepsBounded(end, outcomes, c, |schedule|);
    if AllStopped(end) && Rejected !in end.runners {
      StoppedIsComplete(end, outcomes, c, |schedule|);
    }
  }

  /** The call rejects only if a worker did: when all runners have stopped, one rejected exactly when the
      worker of some item that was reached rejects. */
  lemma RejectsOnlyWithWorker<R>(outcomes: seq<Option<R>>, c: nat, schedule: seq<nat>)
    requires c >= 1 && Possible(Start(|outcomes|, c), schedule, outcomes)
    requires AllStopped(Run(Start(|outcomes|, c), schedule, outcomes))
    ensures Rejected in Run(Start(|outcomes|, c), schedule, outcomes).runners <==> exists i | 0 <= i < |outcomes| :: outcomes[i].None?
  {
    RunKeepsInv(outcomes, c, schedule);
    var end := Run(Start(|outcomes|, c), schedule, outcomes);
    StoppedCount(end.runners);
    if Rejected !in end.runners {
      forall i | 0 <= i < |outcomes| ensures outcomes[i].Some? {
        assert Settled(end, outcomes, i);
      }
    } else {
      RejectedHasCause(outcomes, c, schedule);
    }
  }

  lemma {:induction false} RejectedHasCause<R>(outcomes: seq<Option<R>>, c: nat, schedule: seq<nat>)
    requires Possible(Start(|outcomes|, c), schedule, outcomes)
    requires Rejected in Run(Start(|outcomes|, c), schedule, outcomes).runners
    ensures exists i | 0 <= i < |outcomes| :: outcomes[i].None?
  {
    if |schedule| > 0 {
      var before, r := schedule[..|schedule| - 1], schedule[|schedule| - 1];
      var mid := Run(Start(|outcomes|, c), before, outcomes);
      RunKeepsInv(outcomes, c, before);
      if Rejected in mid.runners {
        RejectedHasCause(outcomes, c, before);
      } else {
        var q :| 0 <= q < |mid.runners| && Step(mid, r, outcomes).runners[q] == Rejected;
        assert q == r;
        assert outcomes[mid.runners[r].index].None?;
      }
    }
  }

  // ---------- the function itself ----------

  method MapWithConcurrency<T, R(0)>(items: seq<T>, worker: T -> R, maxParallel: int) returns (results: array<R>)
    ensures results.Length == |items|
    ensures forall i | 0 <= i < |items| :: results[i] == worker(items[i])
  {
    var n := |items|;
    results := new R[n];
    if n == 0 {
      return;
    }
    var c := Concurrency(maxParallel, n);
    var runners: seq<Runner> := seq(c, _ => Fresh);
    var cursor := 0;
    ghost var outcomes := seq(n, i requires 0 <= i < n => Some(worker(items[i])));
    ghost var pool: Pool<R> := Start(n, c);
    ghost var steps := 0;
    StartInv(outcomes, c);
    while exists r :: 0 <= r < |runners| && !Stopped(runners[r])
      invariant Inv(pool, outcomes, c, steps) && runners == pool.runners && cursor == pool.cursor
      invariant Rejected !in runners
      invariant forall i | 0 <= i < n && pool.results[i].Some? :: results[i] == pool.results[i].value
      decreases n + c - cursor
    {
      var r :| 0 <= r < |runners| && !Stopped(runners[r]);
      StepKeepsInv(pool, r, outcomes, c, steps);
      StepsBounded(pool, outcomes, c, steps);
      pool, steps := Step(pool, r, outcomes), steps + 1;
      if runners[r].Awaiting? {
        results[runners[r].index] := worker(items[runners[r].index]);
      }
      var index := cursor;
      cursor := cursor + 1;
      runners := runners[r := if index >= n then Done else Awaiting(index)];
    }
    StoppedIsComplete(pool, outcomes, c, steps);
  }
}
