/** A batch of the worker loop: what its rounds did, when each task is next due, and exactly when a batch that is
    left alone finishes (execution/worker.py). */
module WorkerBatch {
  import opened Wrappers
  import opened Ordering
  import opened Timestamps
  import opened Contracts
  import opened TaskQueue
  import opened WorkerRound
  import opened WorkerBudget

  /** The clock readings of a batch and what others do: `before` and `during` each round. */
  datatype Schedule = Schedule(
    submitAt: Instant,
    claimAt: nat -> Instant,
    failAt: nat -> Instant,
    before: nat -> seq<Op>,
    during: nat -> seq<Op>)

  /** The rounds `execute_many` allows itself. */
  function RoundLimit(tasks: nat, maxAttempts: nat): nat {
    if tasks * maxAttempts > 1 then tasks * maxAttempts else 1
  }

  lemma RoundsOfBatch(tasks: nat, maxAttempts: nat)
    ensures 1 <= RoundLimit(tasks, maxAttempts)
    ensures tasks * maxAttempts >= 1 ==> RoundLimit(tasks, maxAttempts) == tasks * maxAttempts
    ensures tasks * maxAttempts == 0 ==> RoundLimit(tasks, maxAttempts) == 1
  {}

  // ---- What the rounds did ----

  /** The table after rounds that executed these outcomes. */
  ghost function TableAfter(t: Table, worker: string, lease: int, maxAttempts: nat, s: Schedule,
                            trace: seq<Outcome>): Table {
    if trace == [] then t
    else
      var k := |trace| - 1;
      Round(Run(TableAfter(t, worker, lease, maxAttempts, s, trace[..k]), s.before(k)), worker, s.claimAt(k), lease,
            s.during(k), maxAttempts, Some(trace[k]), s.failAt(k)).table
  }

  /** Each outcome is that of a successful round, about the task and attempt the round claimed. */
  ghost predicate Traced(t: Table, worker: string, lease: int, maxAttempts: nat, s: Schedule, trace: seq<Outcome>) {
    trace == [] ||
    var k := |trace| - 1;
    && Traced(t, worker, lease, maxAttempts, s, trace[..k])
    && RoundDid(Run(TableAfter(t, worker, lease, maxAttempts, s, trace[..k]), s.before(k)), worker, lease, maxAttempts,
                s, k, trace[k])
  }

  /** Round k on this table succeeds with this outcome. */
  ghost predicate RoundDid(t: Table, worker: string, lease: int, maxAttempts: nat, s: Schedule, k: nat, o: Outcome) {
    var claim := Claim(t, worker, s.claimAt(k), lease).result;
    && claim.Ok? && claim.value.Some? && ReportsOn(o, claim.value.value)
    && Round(t, worker, s.claimAt(k), lease, s.during(k), maxAttempts, Some(o), s.failAt(k)).result == Ok(Some(o))
  }

  lemma TraceGrows(t: Table, worker: string, lease: int, maxAttempts: nat, s: Schedule, trace: seq<Outcome>, o: Outcome)
    requires Traced(t, worker, lease, maxAttempts, s, trace)
    requires var k := |trace|;
             RoundDid(Run(TableAfter(t, worker, lease, maxAttempts, s, trace), s.before(k)), worker, lease, maxAttempts,
                      s, k, o)
    ensures var k := |trace|;
            && Traced(t, worker, lease, maxAttempts, s, trace + [o])
            && TableAfter(t, worker, lease, maxAttempts, s, trace + [o]) ==
               Round(Run(TableAfter(t, worker, lease, maxAttempts, s, trace), s.before(k)), worker, s.claimAt(k), lease,
                     s.during(k), maxAttempts, Some(o), s.failAt(k)).table
  {
    hide Round, RoundDid, Run;
    assert (trace + [o])[..|trace|] == trace;
  }

  lemma TraceStarts(t: Table, worker: string, lease: int, maxAttempts: nat, s: Schedule)
    ensures Traced(t, worker, lease, maxAttempts, s, []) && TableAfter(t, worker, lease, maxAttempts, s, []) == t
  {}

  /** What a batch did: the table after enqueueing, the rounds it used, and what the successful ones executed. */
  datatype BatchLog = BatchLog(start: Table, rounds: nat, trace: seq<Outcome>)

  function TaskIds(tasks: seq<Task>): (ids: seq<string>)
    ensures |ids| == |tasks| && forall i :: 0 <= i < |tasks| ==> ids[i] == tasks[i].taskId
  {
    seq(|tasks|, i requires 0 <= i < |tasks| => tasks[i].taskId)
  }

  /** A round read case by case. */
  lemma RoundCases(t: Table, worker: string, now: Instant, lease: int, others: seq<Op>, maxAttempts: nat,
                   executed: Option<Outcome>, failAt: Instant)
    ensures var claim, round := Claim(t, worker, now, lease),
        Round(t, worker, now, lease, others, maxAttempts, executed, failAt);
            && (claim.result.Err? ==> round.result == Err(claim.result.error))
            && (claim.result == Ok(None) ==> round.result == Ok(None))
            && (claim.result.Ok? && claim.result.value.Some? ==>
                  && (executed.None? ==> round.result.Err?)
                  && (executed.Some? ==>
                        var settled := Settle(Run(claim.table, others), worker, maxAttempts, executed.value, failAt);
                        && round.table == settled.table
                        && round.result == if settled.result.Ok? then Ok(executed) else Err(settled.result.error)))
            && (round.result.Ok? && round.result.value.Some? ==> claim.result.Ok? && claim.result.value.Some?)
  {
    hide Claim, Settle, Run;
  }

  lemma DidRound(t: Table, worker: string, lease: int, maxAttempts: nat, s: Schedule, k: nat, o: Outcome)
    requires var c := Claim(t, worker, s.claimAt(k), lease).result;
             c.Ok? && c.value.Some? && ReportsOn(o, c.value.value)
    requires Round(t, worker, s.claimAt(k), lease, s.during(k), maxAttempts, Some(o), s.failAt(k)).result == Ok(Some(o))
    ensures RoundDid(t, worker, lease, maxAttempts, s, k, o)
  {
    hide Claim, Round;
  }

  lemma EarlierWithin(trace: seq<Outcome>, o: Outcome, maxAttempts: nat)
    requires WithinAttempts(trace + [o], maxAttempts)
    ensures WithinAttempts(trace, maxAttempts)
  {
    forall i | 0 <= i < |trace| ensures trace[i] == (trace + [o])[i] {}
  }

  // ---- When a task is next due ----

  /** From when on a task can be claimed after these rounds; None once it is finished. A task is due from its
      submission, and after a retry from the end of its backoff. */
  function DueAt(s: Schedule, trace: seq<Outcome>, maxAttempts: nat, id: string): Option<int> {
    if trace == [] then Some(s.submitAt)
    else
      var k := |trace| - 1;
      if trace[k].taskId != id then DueAt(s, trace[..k], maxAttempts, id)
      else if Retries(trace[k], maxAttempts) then Some(s.failAt(k) + RetryDelay(trace[k].attempt) * SECOND)
      else None
  }

  lemma DueAfter(s: Schedule, trace: seq<Outcome>, maxAttempts: nat, id: string, o: Outcome)
    ensures DueAt(s, trace + [o], maxAttempts, id) ==
            if o.taskId != id then DueAt(s, trace, maxAttempts, id)
            else if Retries(o, maxAttempts) then Some(s.failAt(|trace|) + RetryDelay(o.attempt) * SECOND)
            else None
  {
    hide RetryDelay;
    assert (trace + [o])[..|trace|] == trace;
  }

  /** The next round comes too early: rounds and tasks are left, and the clock is behind the due time of each. */
  ghost predicate Starved(s: Schedule, trace: seq<Outcome>, maxAttempts: nat, ids: seq<string>) {
    && |trace| < RoundLimit(|ids|, maxAttempts)
    && (exists id :: id in ids && DueAt(s, trace, maxAttempts, id).Some?)
    && forall id :: id in ids && DueAt(s, trace, maxAttempts, id).Some? ==>
         s.claimAt(|trace|) < DueAt(s, trace, maxAttempts, id).value
  }

  /** Nobody interferes in the first n rounds, and the calendar does not run out. */
  ghost predicate LeftAlone(s: Schedule, lease: int, n: nat) {
    forall k: nat :: k < n ==>
      && s.before(k) == [] && s.during(k) == []
      && InRange(s.claimAt(k) + lease) && InRange(s.failAt(k) + MAX_DELAY * SECOND)
  }

  lemma AloneAt(s: Schedule, lease: int, n: nat, k: nat)
    requires LeftAlone(s, lease, n) && k < n
    ensures s.before(k) == [] && s.during(k) == []
    ensures InRange(s.claimAt(k) + lease) && InRange(s.failAt(k) + MAX_DELAY * SECOND)
  {}

  /** No task was handed back from the last attempt the task contract allows, which cannot happen when maxAttempts
      is at most that attempt (`SmallLimitIsWithin`). */
  ghost predicate WithinAttempts(trace: seq<Outcome>, maxAttempts: nat) {
    forall i :: 0 <= i < |trace| && Retries(trace[i], maxAttempts) ==> trace[i].attempt < MAX_TASK_ATTEMPT
  }

  lemma SmallLimitIsWithin(trace: seq<Outcome>, maxAttempts: nat)
    requires maxAttempts <= MAX_TASK_ATTEMPT
    ensures WithinAttempts(trace, maxAttempts)
  {}

  // ---- Clocks that are never too early ----

  /** Every claim is past the submission and past the backoff of each retry that happened before it. */
  ghost predicate Waited(s: Schedule, trace: seq<Outcome>, maxAttempts: nat, n: nat) {
    && (forall k: nat :: k < n ==> s.submitAt <= s.claimAt(k))
    && (forall i: nat, k: nat :: i < |trace| && i < k < n && Retries(trace[i], maxAttempts) ==>
          s.failAt(i) + RetryDelay(trace[i].attempt) * SECOND <= s.claimAt(k))
  }

  lemma {:induction false} WaitedIsDue(s: Schedule, trace: seq<Outcome>, maxAttempts: nat, n: nat, id: string, k: nat)
    requires Waited(s, trace, maxAttempts, n) && |trace| <= k < n
    ensures DueAt(s, trace, maxAttempts, id).Some? ==> DueAt(s, trace, maxAttempts, id).value <= s.claimAt(k)
  {
    hide RetryDelay;
    if trace != [] {
      WaitedIsDue(s, trace[..|trace| - 1], maxAttempts, n, id, k);
    }
  }

  /** Such a clock never starves the batch. */
  lemma WaitedIsNotStarved(s: Schedule, trace: seq<Outcome>, maxAttempts: nat, ids: seq<string>)
    requires Waited(s, trace, maxAttempts, RoundLimit(|ids|, maxAttempts))
    ensures !Starved(s, trace, maxAttempts, ids)
  {
    hide Waited, DueAt;
    if Starved(s, trace, maxAttempts, ids) {
      var id :| id in ids && DueAt(s, trace, maxAttempts, id).Some?;
      WaitedIsDue(s, trace, maxAttempts, RoundLimit(|ids|, maxAttempts), id, |trace|);
      assert false;
    }
  }

  /** Without retries any readings from the submission on will do, back to back or not. */
  lemma NoRetriesNeedNoWait(s: Schedule, trace: seq<Outcome>, maxAttempts: nat, n: nat)
    requires forall k: nat :: k < n ==> s.submitAt <= s.claimAt(k)
    requires forall i :: 0 <= i < |trace| ==> !Retries(trace[i], maxAttempts)
    ensures Waited(s, trace, maxAttempts, n) && WithinAttempts(trace, maxAttempts)
  {}

  // ---- A batch left alone ----

  /** The table holds nothing unfinished, and the batch is new to it and consistent. */
  ghost predicate FreshBatch(t: Table, analyses: set<string>, tasks: seq<Task>) {
    && (forall id :: id in t ==> Terminal(t[id]))
    && (forall task :: task in tasks ==> task.taskId !in t && task.analysisId in analyses)
    && (forall a, b :: a in tasks && b in tasks && a.taskId == b.taskId ==> a == b)
  }

  /** An unfinished row between rounds: waiting for the time the trace says. */
  ghost predicate Awaiting(row: Row, s: Schedule, trace: seq<Outcome>, maxAttempts: nat, id: string) {
    var due := DueAt(s, trace, maxAttempts, id);
    && due.Some? && InRange(due.value) && row.availableAt == Iso(due.value)
    && row.status in {Queued, Retry} && (row.status == Retry ==> row.attempt < MAX_TASK_ATTEMPT)
  }

  /** Between rounds: exactly the pending tasks are unfinished and await their time, and fuel is left for them. */
  ghost predicate Progress(t: Table, ids: seq<string>, s: Schedule, maxAttempts: nat, trace: seq<Outcome>,
                           pending: set<string>) {
    && (forall id :: id in t && !Terminal(t[id]) ==> id in pending && Awaiting(t[id], s, trace, maxAttempts, id))
    && (forall id :: id in pending ==> id in ids && id in t && !Terminal(t[id]))
    && (forall id :: id in ids && id !in pending ==> DueAt(s, trace, maxAttempts, id).None?)
    && TotalFuel(t, ids, maxAttempts) + |trace| <= |ids| * maxAttempts
  }

  /** A row awaiting its time is due in text exactly when it is due in time. */
  lemma AwaitingIsDue(row: Row, s: Schedule, trace: seq<Outcome>, maxAttempts: nat, id: string, now: Instant)
    requires Awaiting(row, s, trace, maxAttempts, id)
    ensures TextAtMost(row.availableAt, Iso(now)) <==> DueAt(s, trace, maxAttempts, id).value <= now
  {
    hide Iso, DueAt;
    TextOrderIsTimeOrder(DueAt(s, trace, maxAttempts, id).value, now);
  }

  /** A round gets a task, and settles it, exactly when the batch is not starved. */
  lemma ProgressRound(t: Table, ids: seq<string>, s: Schedule, w: string, lease: int, maxAttempts: nat,
                      trace: seq<Outcome>, pending: set<string>)
    requires TableInvariant(t) && Progress(t, ids, s, maxAttempts, trace, pending) && pending != {}
    requires |trace| < RoundLimit(|ids|, maxAttempts) && LeftAlone(s, lease, RoundLimit(|ids|, maxAttempts))
    ensures var c := Claim(t, w, s.claimAt(|trace|), lease).result;
            c.Ok? && (c.value.Some? <==> !Starved(s, trace, maxAttempts, ids))
    ensures forall outcome ::
              var c := Claim(t, w, s.claimAt(|trace|), lease);
              c.result.value.Some? && ReportsOn(outcome, c.result.value.value) ==>
                Settle(c.table, w, maxAttempts, outcome, s.failAt(|trace|)).result.Ok?
  {
    hide Iso, TotalFuel, Claim, Settle, DueAt, LeftAlone, TableInvariant, RoundLimit;
    var k := |trace|;
    AloneAt(s, lease, RoundLimit(|ids|, maxAttempts), k);
    QuietRoundSucceeds(t, w, s.claimAt(k), lease, maxAttempts);
    forall id | id in pending
      ensures TextAtMost(t[id].availableAt, Iso(s.claimAt(k))) <==>
                DueAt(s, trace, maxAttempts, id).value <= s.claimAt(k)
    {
      AwaitingIsDue(t[id], s, trace, maxAttempts, id, s.claimAt(k));
    }
    var some :| some in pending;
    assert some in ids && DueAt(s, trace, maxAttempts, some).Some?;
  }

  lemma RoundKeepsProgress(t: Table, ids: seq<string>, s: Schedule, w: string, lease: int, maxAttempts: nat,
                           trace: seq<Outcome>, pending: set<string>, o: Outcome)
    requires TableInvariant(t) && Progress(t, ids, s, maxAttempts, trace, pending)
    requires WithinAttempts(trace + [o], maxAttempts)
    requires var c := Claim(t, w, s.claimAt(|trace|), lease).result;
             c.Ok? && c.value.Some? && ReportsOn(o, c.value.value)
    requires Settle(Claim(t, w, s.claimAt(|trace|), lease).table, w, maxAttempts, o, s.failAt(|trace|)).result.Ok?
    ensures o.taskId in pending
    ensures var after := Settle(Claim(t, w, s.claimAt(|trace|), lease).table, w, maxAttempts, o,
                                s.failAt(|trace|)).table;
            Progress(after, ids, s, maxAttempts, trace + [o],
                     if Retries(o, maxAttempts) then pending else pending - {o.taskId})
  {
    hide Iso, TotalFuel, Claim, Settle, Fuel, DueAt, RetryDelay;
    var k := |trace|;
    RoundBurnsFuel(t, w, s.claimAt(k), lease, maxAttempts, o, s.failAt(k));
    var after := Settle(Claim(t, w, s.claimAt(k), lease).table, w, maxAttempts, o, s.failAt(k)).table;
    FuelDrops(t, o.taskId, after[o.taskId], ids, maxAttempts);
    assert (trace + [o])[k] == o;
    forall id ensures DueAt(s, trace + [o], maxAttempts, id) ==
                if o.taskId != id then DueAt(s, trace, maxAttempts, id)
                else if Retries(o, maxAttempts) then Some(s.failAt(k) + RetryDelay(o.attempt) * SECOND)
                else None
    {
      DueAfter(s, trace, maxAttempts, id, o);
    }
  }

  /** Out of fuel, out of work. */
  lemma NoFuelNoPending(t: Table, ids: seq<string>, s: Schedule, maxAttempts: nat, trace: seq<Outcome>,
                        pending: set<string>)
    requires Progress(t, ids, s, maxAttempts, trace, pending) && |trace| >= |ids| * maxAttempts
    ensures pending == {}
  {
    hide DueAt;
    if pending != {} {
      var id :| id in pending;
      FuelLeft(t, ids, maxAttempts, id);
    }
  }

  lemma NothingLeft(t: Table, ids: seq<string>, s: Schedule, maxAttempts: nat, trace: seq<Outcome>)
    requires Progress(t, ids, s, maxAttempts, trace, {})
    ensures !Starved(s, trace, maxAttempts, ids)
  {
    hide DueAt, TotalFuel;
  }

  /** What enqueueing a fresh batch leaves: its rows, freshly queued, beside the rows of before. */
  ghost predicate Enqueued(before: Table, t: Table, ordered: seq<Task>, at: Instant) {
    && (forall task :: task in ordered ==> task.taskId in t && t[task.taskId] == FreshRow(task, at))
    && (forall id :: id in before ==> id in t && t[id] == before[id])
    && (forall id :: id in t && id !in before ==> exists task :: task in ordered && task.taskId == id)
  }

  lemma BatchStarts(before: Table, analyses: set<string>, t: Table, ordered: seq<Task>, ids: seq<string>,
                    s: Schedule, maxAttempts: nat)
    requires |ids| == |ordered| && maxAttempts >= 1
    requires FreshBatch(before, analyses, ordered) && Enqueued(before, t, ordered, s.submitAt)
    requires forall i :: 0 <= i < |ordered| ==> ids[i] == ordered[i].taskId && ValidTask(ordered[i])
    ensures Progress(t, ids, s, maxAttempts, [], set id | id in ids)
  {
    hide Iso, TotalFuel;
    forall id | id in t && !Terminal(t[id]) ensures id in ids && t[id].availableAt == Iso(s.submitAt) &&
      t[id].status == Queued {
      var task :| task in ordered && task.taskId == id;
    }
    FuelAtStart(t, ids, maxAttempts);
  }

  lemma EnqueueNext(before: Table, analyses: set<string>, t: Table, ordered: seq<Task>, i: nat, at: Instant)
    requires i < |ordered| && ValidTask(ordered[i])
    requires FreshBatch(before, analyses, ordered) && Enqueued(before, t, ordered[..i], at)
    ensures var e := Enqueue(t, analyses, ordered[i], at);
            e.result.Ok? && Enqueued(before, e.table, ordered[..i + 1], at)
  {
    hide Iso, Enqueue, FreshRow;
    var task := ordered[i];
    assert ordered[..i + 1] == ordered[..i] + [task] && task in ordered;
    if task.taskId in t {
      var earlier :| earlier in ordered[..i] && earlier.taskId == task.taskId;
      assert earlier in ordered;
    }
    EnqueueOf(t, analyses, task, at);
  }

  lemma EnqueueOf(t: Table, analyses: set<string>, task: Task, at: Instant)
    requires ValidTask(task)
    ensures task.taskId in t && t[task.taskId] == FreshRow(task, at) ==>
              Enqueue(t, analyses, task, at) == Step(t, Ok(FreshRow(task, at)))
    ensures task.taskId !in t && task.analysisId in analyses ==>
              Enqueue(t, analyses, task, at) == Step(t[task.taskId := FreshRow(task, at)], Ok(FreshRow(task, at)))
  {
    hide Iso;
  }

  lemma NothingEnqueued(t: Table, ordered: seq<Task>, at: Instant)
    ensures Enqueued(t, t, ordered[..0], at)
  {
    assert ordered[..0] == [];
  }

  lemma FreshBatchPermuted(t: Table, analyses: set<string>, tasks: seq<Task>, ordered: seq<Task>)
    requires multiset(tasks) == multiset(ordered)
    ensures forall task :: task in tasks <==> task in ordered
    ensures FreshBatch(t, analyses, tasks) ==> FreshBatch(t, analyses, ordered)
  {
    forall task ensures task in tasks <==> task in ordered {
      assert task in tasks <==> task in multiset(tasks);
      assert task in ordered <==> task in multiset(ordered);
    }
  }

  // ---- A batch that raises ----

  /** A fresh task left alone does not have to finish: if its first execution asks for a retry and the next claim
      comes within the two seconds of its backoff, that round finds nothing, and the batch gives up with rounds to
      spare and the task still waiting. */
  lemma EarlyClaimStarves(task: Task, worker: string, lease: nat, maxAttempts: nat, s: Schedule, o: Outcome)
    requires task.attempt == 1 && maxAttempts >= 2 && ReportsOn(o, FreshRow(task, s.submitAt)) && o.retryable
    requires LeftAlone(s, lease, 2) && s.submitAt <= s.claimAt(0)
    requires s.failAt(0) <= s.claimAt(1) < s.failAt(0) + 2 * SECOND
    ensures var t := map[task.taskId := FreshRow(task, s.submitAt)];
            var after := TableAfter(t, worker, lease, maxAttempts, s, [o]);
            && Traced(t, worker, lease, maxAttempts, s, [o])
            && task.taskId in after && after[task.taskId].status == Retry
            && Round(after, worker, s.claimAt(1), lease, [], maxAttempts, None, s.failAt(1)).result == Ok(None)
            && Starved(s, [o], maxAttempts, [task.taskId])
  {
    hide Iso, RetryDelay, Claim, Settle, Round, RoundDid, TableAfter, Traced, TableInvariant, NextDue, LeftAlone;
    var t, id := map[task.taskId := FreshRow(task, s.submitAt)], task.taskId;
    OneFreshRow(task, s.submitAt);
    AloneAt(s, lease, 2, 0);
    AloneAt(s, lease, 2, 1);
    TextOrderIsTimeOrder(s.submitAt, s.claimAt(0));
    NextDueUnique(t, Iso(s.claimAt(0)), id);
    ClaimOf(t, worker, s.claimAt(0), lease);
    FirstDelay();
    var claimed := t[id := ClaimedRow(t[id], worker, s.claimAt(0) + lease)];
    var until := s.failAt(0) + RetryDelay(1) * SECOND;
    HandedBack(claimed, worker, maxAttempts, o, s.failAt(0));
    assert Run(claimed, []) == claimed && Run(t, []) == t by { NoCallsRun(claimed); NoCallsRun(t); }
    RoundIs(t, worker, s, lease, maxAttempts, o, 0);
    TraceStarts(t, worker, lease, maxAttempts, s);
    TraceGrows(t, worker, lease, maxAttempts, s, [], o);
    assert [] + [o] == [o];
    var after := claimed[id := ReleasedRow(claimed[id], true, until)];
    TextOrderIsTimeOrder(until, s.claimAt(1));
    assert NextDue(after, Iso(s.claimAt(1))).None?;
    NothingToClaim(after, worker, s.claimAt(1), lease, maxAttempts, s.failAt(1));
    DueAfter(s, [], maxAttempts, id, o);
  }

  lemma OneFreshRow(task: Task, at: Instant)
    requires ValidTask(task)
    ensures TableInvariant(map[task.taskId := FreshRow(task, at)])
  {
    hide Iso;
    assert IsInstant(Iso(at));
  }

  lemma FirstDelay()
    ensures RetryDelay(1) == 2
  {
    assert Pow2(0) == 1 && Pow2(1) == 2;
  }

  lemma HandedBack(t: Table, worker: string, maxAttempts: nat, o: Outcome, failAt: Instant)
    requires Owns(t, o.taskId, worker) && Retries(o, maxAttempts) && InRange(failAt + RetryDelay(o.attempt) * SECOND)
    ensures Settle(t, worker, maxAttempts, o, failAt) ==
            Step(t[o.taskId := ReleasedRow(t[o.taskId], true, failAt + RetryDelay(o.attempt) * SECOND)], Ok(()))
  {
    hide Iso, RetryDelay;
  }

  /** A round that claims, executes and settles undisturbed. */
  lemma RoundIs(t: Table, worker: string, s: Schedule, lease: int, maxAttempts: nat, o: Outcome, k: nat)
    requires s.during(k) == []
    requires var c := Claim(t, worker, s.claimAt(k), lease).result;
             c.Ok? && c.value.Some? && ReportsOn(o, c.value.value)
    requires Settle(Claim(t, worker, s.claimAt(k), lease).table, worker, maxAttempts, o, s.failAt(k)).result.Ok?
    ensures RoundDid(t, worker, lease, maxAttempts, s, k, o)
    ensures Round(t, worker, s.claimAt(k), lease, s.during(k), maxAttempts, Some(o), s.failAt(k)).table ==
            Settle(Claim(t, worker, s.claimAt(k), lease).table, worker, maxAttempts, o, s.failAt(k)).table
  {
    hide Claim, Settle;
    NoCallsRun(Claim(t, worker, s.claimAt(k), lease).table);
  }

  lemma NothingToClaim(t: Table, worker: string, now: Instant, lease: int, maxAttempts: nat, failAt: Instant)
    requires InRange(now + lease) && NextDue(t, Iso(now)).None?
    ensures Round(t, worker, now, lease, [], maxAttempts, None, failAt).result == Ok(None)
  {
    hide Iso, NextDue;
  }
}
