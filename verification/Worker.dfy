/** The worker loop over the durable queue (execution/worker.py). Other processes act between its calls;
    what they do is an arbitrary sequence of store calls. */
module Worker {
  import opened Wrappers
  import opened SortedDict
  import opened Timestamps
  import opened Contracts
  import opened TaskQueue
  import opened Persistence
  import opened WorkerRound
  import opened WorkerBudget
  import opened WorkerBatch
  import Local = LocalExecutor

  class WorkerExecutor {
    const persistence: SQLitePersistence
    const local: Local.LocalExecutor
    const workerId: string
    const lease: int
    const maxAttempts: nat

    constructor (persistence: SQLitePersistence, local: Local.LocalExecutor, workerId: string, lease: int,
                 maxAttempts: nat)
      requires lease > 0 && maxAttempts >= 1
      ensures this.persistence == persistence && this.local == local && this.workerId == workerId
      ensures this.lease == lease && this.maxAttempts == maxAttempts
    {
      this.persistence := persistence;
      this.local := local;
      this.workerId := workerId;
      this.lease := lease;
      this.maxAttempts := maxAttempts;
    }

    /** `run_once`: claim at `now`, execute while others act, then settle at `failAt`. */
    method RunOnce(now: Instant, failAt: Instant, others: seq<Op>)
      returns (r: Result<Option<Outcome>>, ghost executed: Option<Outcome>)
      requires TableInvariant(persistence.tasks)
      modifies persistence`tasks, local`calls, local`cache
      ensures TableInvariant(persistence.tasks)
      ensures old(local.CacheIsOwn()) ==> local.CacheIsOwn()
      ensures Step(persistence.tasks, r) ==
              Round(old(persistence.tasks), workerId, now, lease, others, maxAttempts, executed, failAt)
      ensures var claim := Claim(old(persistence.tasks), workerId, now, lease).result;
              claim.Ok? && claim.value.Some? ==>
                if executed.Some? then ReportsOn(executed.value, claim.value.value) else !old(local.CacheIsOwn())
      ensures executed.Some? && local.Dependable() ==> !executed.value.retryable
    {
      hide Iso, TableInvariant, Claim, Run, Fail, Complete, RetryDelay;
      executed := None;
      var claimed := persistence.ClaimTask(workerId, now, lease);
      if claimed.Err? { return Err(claimed.error), None; }
      ClaimFacts(old(persistence.tasks), workerId, now, lease);
      if claimed.value.None? { return Ok(None), None; }
      var row := claimed.value.value;
      var execution := local.Execute(row.task, now, failAt);
      persistence.Interference(others);
      if execution.Err? { return Err(execution.error), None; }
      var outcome := execution.value;
      executed := Some(outcome);
      if outcome.retryable && row.attempt < maxAttempts {
        var until := failAt + RetryDelay(row.attempt) * SECOND;
        if !InRange(until) { return Err(OverflowError), executed; }
        var failed := persistence.FailTask(row.task.taskId, workerId, true, until);
        if failed.Err? { return Err(failed.error), executed; }
      } else {
        var completed := persistence.CompleteTask(outcome, workerId);
        if completed.Err? { return Err(completed.error), executed; }
      }
      r := Ok(Some(outcome));
    }

    /** The enqueueing half of `execute_many`. */
    method EnqueueAll(ordered: seq<Task>, at: Instant) returns (r: Result<()>)
      requires TableInvariant(persistence.tasks)
      requires forall task :: task in ordered ==> ValidTask(task)
      modifies persistence`tasks
      ensures TableInvariant(persistence.tasks)
      ensures FreshBatch(old(persistence.tasks), persistence.analyses.Keys, ordered) ==>
                r.Ok? && Enqueued(old(persistence.tasks), persistence.tasks, ordered, at)
    {
      hide Iso, RowInvariant, FreshBatch, Enqueue;
      NothingEnqueued(persistence.tasks, ordered, at);
      for i := 0 to |ordered|
        invariant TableInvariant(persistence.tasks)
        invariant FreshBatch(old(persistence.tasks), persistence.analyses.Keys, ordered) ==>
                    Enqueued(old(persistence.tasks), persistence.tasks, ordered[..i], at)
      {
        if FreshBatch(old(persistence.tasks), persistence.analyses.Keys, ordered) {
          EnqueueNext(old(persistence.tasks), persistence.analyses.Keys, persistence.tasks, ordered, i, at);
        }
        var enqueued := persistence.EnqueueTask(ordered[i], at);
        if enqueued.Err? { return Err(enqueued.error); }
      }
      assert ordered[..|ordered|] == ordered;
      r := Ok(());
    }

    /** The rounds of `execute_many`, for the set of pending task ids. `trace` is what its successful rounds executed.
        If nobody interferes (`quiet`), it fails exactly when a round comes too early for every unfinished task. */
    method RunRounds(ids: seq<string>, s: Schedule, ghost quiet: bool)
      returns (r: Result<map<string, Outcome>>, ghost rounds: nat, ghost trace: seq<Outcome>)
      requires TableInvariant(persistence.tasks) && maxAttempts >= 1
      requires quiet ==> local.CacheIsOwn() && LeftAlone(s, lease, RoundLimit(|ids|, maxAttempts))
      requires quiet ==> Progress(persistence.tasks, ids, s, maxAttempts, [], set id | id in ids)
      modifies persistence`tasks, local`calls, local`cache
      ensures TableInvariant(persistence.tasks)
      ensures |trace| <= rounds <= RoundLimit(|ids|, maxAttempts)
      ensures Traced(old(persistence.tasks), workerId, lease, maxAttempts, s, trace)
      ensures r.Ok? ==> persistence.tasks == TableAfter(old(persistence.tasks), workerId, lease, maxAttempts, s, trace)
      ensures r.Ok? ==> AllStored(persistence.tasks, r.value)
      ensures r.Ok? ==> forall id :: id in ids ==> id in r.value && !Retries(r.value[id], maxAttempts)
      ensures quiet && WithinAttempts(trace, maxAttempts) ==> (r.Err? <==> Starved(s, trace, maxAttempts, ids))
      ensures quiet && WithinAttempts(trace, maxAttempts) && r.Err? ==> r.error == RuntimeError
      ensures local.Dependable() ==> forall i :: 0 <= i < |trace| ==> !trace[i].retryable
    {
      hide Iso, Claim, Settle, Round, RoundDid, RowInvariant, AllStored, Progress, Retries, LeftAlone, Traced,
           TableAfter, Starved, WithinAttempts;
      var pending := set id | id in ids;
      var outcomes: map<string, Outcome> := map[];
      var maxRounds := RoundLimit(|ids|, maxAttempts);
      var round := 0;
      ghost var start := persistence.tasks;
      rounds, trace := 0, [];
      NothingStored(persistence.tasks);
      TraceStarts(start, workerId, lease, maxAttempts, s);
      while round < maxRounds && pending != {}
        invariant round <= maxRounds && rounds == round == |trace|
        invariant TableInvariant(persistence.tasks)
        invariant Traced(start, workerId, lease, maxAttempts, s, trace)
        invariant persistence.tasks == TableAfter(start, workerId, lease, maxAttempts, s, trace)
        invariant forall id :: id in ids ==> id in pending || id in outcomes
        invariant AllStored(persistence.tasks, outcomes)
        invariant forall id :: id in outcomes ==> !Retries(outcomes[id], maxAttempts)
        invariant quiet ==> local.CacheIsOwn()
        invariant quiet && WithinAttempts(trace, maxAttempts) ==>
                    Progress(persistence.tasks, ids, s, maxAttempts, trace, pending)
        invariant local.Dependable() ==> forall i :: 0 <= i < |trace| ==> !trace[i].retryable
      {
        ghost var tame := quiet && WithinAttempts(trace, maxAttempts);
        if quiet {
          AloneAt(s, lease, maxRounds, round);
          NoCallsRun(persistence.tasks);
        }
        if tame { ProgressRound(persistence.tasks, ids, s, workerId, lease, maxAttempts, trace, pending); }
        InterferenceKeepsAll(persistence.tasks, s.before(round), outcomes);
        persistence.Interference(s.before(round));
        ghost var t := persistence.tasks;
        var now, failAt, others := s.claimAt(round), s.failAt(round), s.during(round);
        rounds := rounds + 1;
        var result, executed := RunOnce(now, failAt, others);
        RoundCases(t, workerId, now, lease, others, maxAttempts, executed, failAt);
        if result.Err? { return Err(result.error), rounds, trace; }
        if result.value.None? { return Err(RuntimeError), rounds, trace; }
        var outcome := result.value.value;
        DidRound(t, workerId, lease, maxAttempts, s, round, outcome);
        RoundKeepsAll(t, workerId, now, lease, others, maxAttempts, outcome, failAt, outcomes);
        TraceGrows(start, workerId, lease, maxAttempts, s, trace, outcome);
        if quiet && WithinAttempts(trace + [outcome], maxAttempts) {
          EarlierWithin(trace, outcome, maxAttempts);
          RoundKeepsProgress(t, ids, s, workerId, lease, maxAttempts, trace, pending, outcome);
        }
        trace := trace + [outcome];
        if outcome.taskId in pending && !Retries(outcome, maxAttempts) {
          outcomes := outcomes[outcome.taskId := outcome];
          pending := pending - {outcome.taskId};
        }
        round := round + 1;
      }
      if quiet && WithinAttempts(trace, maxAttempts) {
        if round == maxRounds { NoFuelNoPending(persistence.tasks, ids, s, maxAttempts, trace, pending); }
        NothingLeft(persistence.tasks, ids, s, maxAttempts, trace);
      }
      if pending != {} { return Err(RuntimeError), rounds, trace; }
      r := Ok(outcomes);
    }

    /** `execute_many`: enqueue the batch in analyzer order, run at most len * maxAttempts rounds, and return one final
        outcome per task, each the one the store keeps whatever others did, or raise. A fresh batch that is left alone
        raises exactly when some round comes before the due time of every unfinished task; so it finishes if each
        claim is past the backoffs of the retries before it, and at any pace if no analyzer asks for a retry. */
    method ExecuteMany(tasks: seq<Task>, s: Schedule) returns (r: Result<seq<Outcome>>, ghost log: BatchLog)
      requires TableInvariant(persistence.tasks) && maxAttempts >= 1
      requires forall task :: task in tasks ==> ValidTask(task)
      modifies persistence`tasks, local`calls, local`cache
      ensures TableInvariant(persistence.tasks)
      ensures |log.trace| <= log.rounds <= RoundLimit(|tasks|, maxAttempts)
      ensures log.rounds <= if |tasks| == 0 then 1 else |tasks| * maxAttempts
      ensures Traced(log.start, workerId, lease, maxAttempts, s, log.trace)
      ensures |SortBy(tasks, Local.ByAnalyzer())| == |tasks|
      ensures r.Ok? ==> |r.value| == |tasks|
      ensures r.Ok? ==> persistence.tasks == TableAfter(log.start, workerId, lease, maxAttempts, s, log.trace)
      ensures r.Ok? ==> forall i :: 0 <= i < |tasks| ==>
                && r.value[i].taskId == SortBy(tasks, Local.ByAnalyzer())[i].taskId
                && !Retries(r.value[i], maxAttempts) && Stored(persistence.tasks, r.value[i])
      ensures FreshBatch(old(persistence.tasks), persistence.analyses.Keys, tasks) ==>
                Enqueued(old(persistence.tasks), log.start, SortBy(tasks, Local.ByAnalyzer()), s.submitAt)
      ensures var ids := TaskIds(SortBy(tasks, Local.ByAnalyzer()));
              (&& LeftAlone(s, lease, RoundLimit(|tasks|, maxAttempts)) && old(local.CacheIsOwn())
               && FreshBatch(old(persistence.tasks), persistence.analyses.Keys, tasks)) ==>
                && (WithinAttempts(log.trace, maxAttempts) ==>
                      && (r.Err? <==> Starved(s, log.trace, maxAttempts, ids))
                      && (r.Err? ==> r.error == RuntimeError)
                      && (Waited(s, log.trace, maxAttempts, RoundLimit(|tasks|, maxAttempts)) ==> r.Ok?))
                && (local.Dependable() &&
                    (forall k: nat :: k < RoundLimit(|tasks|, maxAttempts) ==> s.submitAt <= s.claimAt(k))
                    ==> r.Ok?)
    {
      hide Iso, RowInvariant, Progress, Enqueued, FreshBatch, LeftAlone, TableInvariant, Traced, TableAfter, Starved,
           Waited, WithinAttempts, RoundLimit;
      SortBySorts(tasks, Local.ByAnalyzer());
      var ordered := SortBy(tasks, Local.ByAnalyzer());
      ghost var before := persistence.tasks;
      ghost var n := RoundLimit(|tasks|, maxAttempts);
      RoundsOfBatch(|tasks|, maxAttempts);
      FreshBatchPermuted(before, persistence.analyses.Keys, tasks, ordered);
      ghost var quiet := LeftAlone(s, lease, n) && local.CacheIsOwn()
        && FreshBatch(before, persistence.analyses.Keys, ordered);
      var enqueued := EnqueueAll(ordered, s.submitAt);
      TraceStarts(persistence.tasks, workerId, lease, maxAttempts, s);
      log := BatchLog(persistence.tasks, 0, []);
      if enqueued.Err? { return Err(enqueued.error), log; }
      var ids := TaskIds(ordered);
      if quiet { BatchStarts(before, persistence.analyses.Keys, persistence.tasks, ordered, ids, s, maxAttempts); }
      var finished;
      ghost var rounds, trace;
      finished, rounds, trace := RunRounds(ids, s, quiet);
      log := BatchLog(log.start, rounds, trace);
      if Waited(s, trace, maxAttempts, n) { WaitedIsNotStarved(s, trace, maxAttempts, ids); }
      if local.Dependable() && forall k: nat :: k < n ==> s.submitAt <= s.claimAt(k) {
        NoRetriesNeedNoWait(s, trace, maxAttempts, n);
        WaitedIsNotStarved(s, trace, maxAttempts, ids);
      }
      if finished.Err? { return Err(finished.error), log; }
      r := Ok(seq(|ids|, i requires 0 <= i < |ids| => finished.value[ids[i]]));
    }

    /** `run_until_empty`, with other workers acting on the same queue before and during every round. That this
        method is accepted without a bound on its loop is the claim: as long as nothing new is enqueued, every round
        burns reserve, whatever the clocks say and whatever the others do. Alone, it burns fuel as well. */
    method RunUntilEmpty(maxTasks: Option<nat>, s: Schedule) returns (r: Result<nat>)
      requires TableInvariant(persistence.tasks) && maxAttempts >= 1
      requires forall k: nat :: NothingNew(s.before(k)) && NothingNew(s.during(k))
      modifies persistence`tasks, local`calls, local`cache
      ensures TableInvariant(persistence.tasks)
      ensures r.Ok? && maxTasks.Some? ==> r.value <= maxTasks.value
      ensures r.Ok? && (maxTasks.None? || r.value < maxTasks.value) ==>
                NextDue(persistence.tasks, Iso(s.claimAt(r.value))).None?
      ensures r.Ok? ==> r.value <= |old(persistence.tasks)| * (MAX_TASK_ATTEMPT + 2)
      ensures r.Ok? && (forall k: nat :: s.before(k) == [] && s.during(k) == []) ==>
                r.value <= |old(persistence.tasks)| * maxAttempts
    {
      hide Iso, TotalFuel, Fuel, TotalReserve, Settle, RowInvariant, Claim, NothingNew, Run;
      ghost var alone := forall k: nat :: s.before(k) == [] && s.during(k) == [];
      ghost var ids := IdsOf(persistence.tasks.Keys);
      DrainBounds(persistence.tasks, ids, maxAttempts);
      var processed := 0;
      while maxTasks.None? || processed < maxTasks.value
        invariant TableInvariant(persistence.tasks)
        invariant forall id :: id in persistence.tasks ==> id in ids
        invariant maxTasks.Some? ==> processed <= maxTasks.value
        invariant processed + TotalReserve(persistence.tasks, ids) <= TotalReserve(old(persistence.tasks), ids)
        invariant alone ==>
                    processed + TotalFuel(persistence.tasks, ids, maxAttempts) <=
                    TotalFuel(old(persistence.tasks), ids, maxAttempts)
        decreases TotalReserve(persistence.tasks, ids)
      {
        CallsDrop(persistence.tasks, s.before(processed), ids);
        if alone { NoCallsRun(persistence.tasks); }
        persistence.Interference(s.before(processed));
        ghost var t := persistence.tasks;
        var now, failAt, others := s.claimAt(processed), s.failAt(processed), s.during(processed);
        var round, executed := RunOnce(now, failAt, others);
        if round.Err? { return Err(round.error); }
        if round.value.None? {
          NothingDue(t, workerId, now, lease);
          return Ok(processed);
        }
        RoundBurnsReserve(t, workerId, now, lease, others, maxAttempts, executed, failAt, ids);
        if alone {
          NoCallsRun(Claim(t, workerId, now, lease).table);
          RoundBurnsFuel(t, workerId, now, lease, maxAttempts, round.value.value, failAt);
          FuelDrops(t, round.value.value.taskId, persistence.tasks[round.value.value.taskId], ids, maxAttempts);
        }
        processed := processed + 1;
      }
      r := Ok(processed);
    }

    method Renew(id: string, now: Instant) returns (r: Result<bool>)
      requires TableInvariant(persistence.tasks) && lease > 0
      modifies persistence`tasks
      ensures TableInvariant(persistence.tasks)
      ensures r == Ok(true) ==> Owns(old(persistence.tasks), id, workerId)
      ensures InRange(now + lease) ==> r == Ok(Owns(old(persistence.tasks), id, workerId))
      ensures Step(persistence.tasks, r) == TaskQueue.Renew(old(persistence.tasks), id, workerId, now, lease)
    {
      r := persistence.RenewTask(id, workerId, now, lease);
    }
  }
}
