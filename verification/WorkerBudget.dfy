/** How far rounds can go: the fuel of a queue a worker has to itself and the reserve of one it shares
    (execution/worker.py). */
module WorkerBudget {
  import opened Wrappers
  import opened Timestamps
  import opened Contracts
  import opened TaskQueue
  import opened WorkerRound

  // ---- The fuel of a batch ----

  /** Rounds a row can still take if nobody else touches the table. */
  function Fuel(row: Row, maxAttempts: nat): nat {
    if Terminal(row) then 0
    else if ClaimedAttempt(row) < maxAttempts then maxAttempts - ClaimedAttempt(row) + 1
    else 1
  }

  function TotalFuel(t: Table, ids: seq<string>, maxAttempts: nat): nat {
    if ids == [] then 0
    else (if ids[0] in t then Fuel(t[ids[0]], maxAttempts) else 0) + TotalFuel(t, ids[1..], maxAttempts)
  }

  lemma {:induction false} FuelDrops(t: Table, id: string, row: Row, ids: seq<string>, maxAttempts: nat)
    requires id in t && Fuel(row, maxAttempts) < Fuel(t[id], maxAttempts)
    ensures TotalFuel(t[id := row], ids, maxAttempts) <= TotalFuel(t, ids, maxAttempts)
    ensures id in ids ==> TotalFuel(t[id := row], ids, maxAttempts) < TotalFuel(t, ids, maxAttempts)
  {
    if ids != [] { FuelDrops(t, id, row, ids[1..], maxAttempts); }
  }

  lemma {:induction false} FuelAtStart(t: Table, ids: seq<string>, maxAttempts: nat)
    requires maxAttempts >= 1
    requires forall id :: id in ids && id in t ==> Terminal(t[id]) || ClaimedAttempt(t[id]) >= 1
    ensures TotalFuel(t, ids, maxAttempts) <= |ids| * maxAttempts
  {
    if ids != [] {
      FuelAtStart(t, ids[1..], maxAttempts);
      assert |ids| * maxAttempts == |ids[1..]| * maxAttempts + maxAttempts;
    }
  }

  lemma {:induction false} FuelLeft(t: Table, ids: seq<string>, maxAttempts: nat, id: string)
    requires id in ids && id in t && !Terminal(t[id])
    ensures TotalFuel(t, ids, maxAttempts) > 0
  {
    if ids[0] != id { FuelLeft(t, ids[1..], maxAttempts, id); }
  }

  /** What a successful round leaves of the table it started from. */
  ghost predicate Burned(t: Table, after: Table, outcome: Outcome, failAt: Instant, maxAttempts: nat) {
    var id := outcome.taskId;
    && id in t && !Terminal(t[id]) && id in after && after == t[id := after[id]] && outcome.attempt >= 1
    && Fuel(after[id], maxAttempts) < Fuel(t[id], maxAttempts)
    && (Retries(outcome, maxAttempts) ==>
          && after[id].status == Retry && after[id].attempt == outcome.attempt
          && InRange(failAt + RetryDelay(outcome.attempt) * SECOND)
          && after[id].availableAt == Iso(failAt + RetryDelay(outcome.attempt) * SECOND))
    && (!Retries(outcome, maxAttempts) ==> Terminal(after[id]) && after[id].outcome == Some(outcome))
  }

  /** A successful round with nobody interfering changes one row and lowers its fuel. */
  lemma RoundBurnsFuel(t: Table, worker: string, now: Instant, lease: int, maxAttempts: nat, outcome: Outcome,
                       failAt: Instant)
    requires TableInvariant(t)
    requires var c := Claim(t, worker, now, lease).result; c.Ok? && c.value.Some? && ReportsOn(outcome, c.value.value)
    requires Settle(Claim(t, worker, now, lease).table, worker, maxAttempts, outcome, failAt).result.Ok?
    ensures Burned(t, Settle(Claim(t, worker, now, lease).table, worker, maxAttempts, outcome, failAt).table, outcome,
                   failAt, maxAttempts)
  {
    hide Iso, RetryDelay;
    var next := NextDue(t, Iso(now)).value;
    assert RowInvariant(next, t[next]);
  }

  /** A round with nobody interfering, on a queue whose unfinished rows wait within bounds: it gets a task exactly
      when an unfinished row is due, and then it settles. */
  lemma QuietRoundSucceeds(t: Table, worker: string, now: Instant, lease: int, maxAttempts: nat)
    requires TableInvariant(t) && InRange(now + lease)
    requires forall id :: id in t && !Terminal(t[id]) ==>
               t[id].status in {Queued, Retry} && (t[id].status == Retry ==> t[id].attempt < MAX_TASK_ATTEMPT)
    ensures var c := Claim(t, worker, now, lease).result;
            && c.Ok?
            && (c.value.Some? <==> exists id :: id in t && !Terminal(t[id]) && TextAtMost(t[id].availableAt, Iso(now)))
    ensures forall outcome, failAt: Instant ::
              var c := Claim(t, worker, now, lease);
              (c.result.value.Some? && ReportsOn(outcome, c.result.value.value) &&
               InRange(failAt + MAX_DELAY * SECOND)) ==>
                Settle(c.table, worker, maxAttempts, outcome, failAt).result.Ok?
  {
    hide Iso, RetryDelay, RowInvariant;
    var next := NextDue(t, Iso(now));
    if next.Some? {
      assert RowInvariant(next.value, t[next.value]);
      AttemptsMatch(t, next.value);
    }
  }

  lemma AttemptsMatch(t: Table, id: string)
    requires TableInvariant(t) && id in t
    ensures t[id].task.taskId == id && t[id].attempt == t[id].task.attempt >= 1
    ensures t[id].status == Queued ==> t[id].attempt <= MAX_TASK_ATTEMPT
  {
    assert RowInvariant(id, t[id]);
  }

  // ---- The reserve of a shared queue ----

  /** Claims a row can still be given before it passes the last attempt, whoever makes them. */
  function Reserve(row: Row): nat {
    if Terminal(row) || row.attempt > MAX_TASK_ATTEMPT + 1 then 0
    else MAX_TASK_ATTEMPT + 2 - row.attempt + (if row.status == Queued then 1 else 0)
  }

  function TotalReserve(t: Table, ids: seq<string>): nat {
    if ids == [] then 0 else (if ids[0] in t then Reserve(t[ids[0]]) else 0) + TotalReserve(t, ids[1..])
  }

  lemma {:induction false} ReserveDrops(t: Table, id: string, row: Row, ids: seq<string>)
    requires id in t && Reserve(row) <= Reserve(t[id])
    ensures TotalReserve(t[id := row], ids) <= TotalReserve(t, ids)
    ensures id in ids && Reserve(row) < Reserve(t[id]) ==> TotalReserve(t[id := row], ids) < TotalReserve(t, ids)
  {
    if ids != [] { ReserveDrops(t, id, row, ids[1..]); }
  }

  lemma {:induction false} ReserveAtStart(t: Table, ids: seq<string>)
    requires forall id :: id in ids && id in t ==> t[id].attempt >= 1
    ensures TotalReserve(t, ids) <= |ids| * (MAX_TASK_ATTEMPT + 2)
  {
    if ids != [] { ReserveAtStart(t, ids[1..]); }
  }

  ghost predicate Drops(t: Table, after: Table, ids: seq<string>) {
    after.Keys == t.Keys && TotalReserve(after, ids) <= TotalReserve(t, ids)
  }

  lemma CallDrops(t: Table, op: Op, ids: seq<string>)
    requires !op.EnqueueOp?
    ensures Drops(t, Apply(t, op), ids)
  {
    hide Iso, NextDue, TotalReserve;
    match op
    case ClaimOp(worker, now, lease) =>
      if Apply(t, op) != t {
        var id := NextDue(t, Iso(now)).value;
        ReserveDrops(t, id, ClaimedRow(t[id], worker, now + lease), ids);
      }
    case RenewOp(id, worker, now, lease) => if Apply(t, op) != t { ReserveDrops(t, id, Apply(t, op)[id], ids); }
    case CompleteOp(outcome, worker) =>
      if Apply(t, op) != t { ReserveDrops(t, outcome.taskId, Apply(t, op)[outcome.taskId], ids); }
    case FailOp(id, worker, retry, availableAt) => if Apply(t, op) != t { ReserveDrops(t, id, Apply(t, op)[id], ids); }
  }

  predicate NothingNew(calls: seq<Op>) {
    forall i :: 0 <= i < |calls| ==> !calls[i].EnqueueOp?
  }

  lemma {:induction false} CallsDrop(t: Table, calls: seq<Op>, ids: seq<string>)
    requires NothingNew(calls)
    ensures Drops(t, Run(t, calls), ids)
    decreases |calls|
  {
    hide Apply;
    if calls != [] {
      CallDrops(t, calls[0], ids);
      CallsDrop(Apply(t, calls[0]), calls[1..], ids);
    }
  }

  lemma ClaimBurnsReserve(t: Table, worker: string, now: Instant, lease: int, ids: seq<string>)
    requires TableInvariant(t) && forall id :: id in t ==> id in ids
    requires Claim(t, worker, now, lease).result.Ok? && Claim(t, worker, now, lease).result.value.Some?
    ensures Claim(t, worker, now, lease).table.Keys == t.Keys
    ensures TotalReserve(Claim(t, worker, now, lease).table, ids) < TotalReserve(t, ids)
  {
    hide Iso, NextDue, TotalReserve;
    var id := NextDue(t, Iso(now)).value;
    assert RowInvariant(id, t[id]);
    ReserveDrops(t, id, ClaimedRow(t[id], worker, now + lease), ids);
  }

  lemma SettleDrops(t: Table, worker: string, maxAttempts: nat, outcome: Outcome, failAt: Instant, ids: seq<string>)
    ensures Drops(t, Settle(t, worker, maxAttempts, outcome, failAt).table, ids)
  {
    hide Iso, TotalReserve, Fail, Complete, RetryDelay;
    if Retries(outcome, maxAttempts) && InRange(failAt + RetryDelay(outcome.attempt) * SECOND) {
      CallDrops(t, FailOp(outcome.taskId, worker, true, failAt + RetryDelay(outcome.attempt) * SECOND), ids);
    } else {
      CallDrops(t, CompleteOp(outcome, worker), ids);
    }
  }

  /** A round that gets a task burns reserve, whatever others do meanwhile, as long as they enqueue nothing. */
  lemma RoundBurnsReserve(t: Table, worker: string, now: Instant, lease: int, others: seq<Op>, maxAttempts: nat,
                          executed: Option<Outcome>, failAt: Instant, ids: seq<string>)
    requires TableInvariant(t) && NothingNew(others) && forall id :: id in t ==> id in ids
    requires var r := Round(t, worker, now, lease, others, maxAttempts, executed, failAt).result; r.Ok? && r.value.Some?
    ensures var after := Round(t, worker, now, lease, others, maxAttempts, executed, failAt).table;
            after.Keys == t.Keys && TotalReserve(after, ids) < TotalReserve(t, ids)
  {
    hide Iso, NextDue, TotalReserve, Claim, Settle, Run, NothingNew;
    ClaimBurnsReserve(t, worker, now, lease, ids);
    var claimed := Claim(t, worker, now, lease).table;
    CallsDrop(claimed, others, ids);
    SettleDrops(Run(claimed, others), worker, maxAttempts, executed.value, failAt, ids);
  }

  // ---- Listing the rows ----

  ghost predicate Lists(ids: seq<string>, keys: set<string>) {
    |ids| == |keys| && forall id :: id in keys ==> id in ids
  }

  lemma {:induction false} ListingExists(keys: set<string>)
    ensures exists ids :: Lists(ids, keys)
  {
    if keys == {} {
      assert Lists([], keys);
    } else {
      var first :| first in keys;
      ListingExists(keys - {first});
      var ids :| Lists(ids, keys - {first});
      assert Lists([first] + ids, keys);
    }
  }

  ghost function IdsOf(keys: set<string>): (ids: seq<string>)
    ensures Lists(ids, keys)
  {
    ListingExists(keys);
    var ids :| Lists(ids, keys);
    ids
  }

  /** How many tasks a drain of the queue can take at most. */
  lemma DrainBounds(t: Table, ids: seq<string>, maxAttempts: nat)
    requires TableInvariant(t) && Lists(ids, t.Keys) && maxAttempts >= 1
    ensures TotalReserve(t, ids) <= |t| * (MAX_TASK_ATTEMPT + 2)
    ensures TotalFuel(t, ids, maxAttempts) <= |t| * maxAttempts
  {
    hide TotalReserve, TotalFuel;
    forall id | id in t ensures t[id].attempt >= 1 && ClaimedAttempt(t[id]) >= 1 { assert RowInvariant(id, t[id]); }
    assert |ids| == |t|;
    ReserveAtStart(t, ids);
    FuelAtStart(t, ids, maxAttempts);
  }
}
