/** The rows of `analyzer_tasks` and what each statement of the store does to them
    (persistence/sqlite.py). Timestamps are held as the column text and compared as text. */
module TaskQueue {
  import opened Wrappers
  import opened Ordering
  import opened SortedDict
  import opened Timestamps
  import opened Contracts

  datatype Status = Queued | Running | Retry | Completed | Failed

  datatype Row = Row(
    status: Status,
    attempt: nat,
    task: Task,
    leaseOwner: Option<string>,
    leaseExpiresAt: Option<string>,
    outcome: Option<Outcome>,
    availableAt: string)

  type Table = map<string, Row>

  /** The table after a statement, and what the call returns or raises. */
  datatype Step<+T> = Step(table: Table, result: Result<T>)

  /** `_decode_task`: the stored task must satisfy its contract. */
  function Record(row: Row): Result<Row> {
    if ValidTask(row.task) then Ok(row) else Err(PersistenceDecodeError)
  }

  function FreshRow(task: Task, now: Instant): Row {
    Row(Queued, task.attempt, task, None, None, None, Iso(now))
  }

  /** `enqueue_task`; `analyses` are the keys the foreign key refers to. */
  function Enqueue(t: Table, analyses: set<string>, task: Task, now: Instant): Step<Row> {
    if task.taskId in t then
      var row := t[task.taskId];
      if Record(row).Err? then Step(t, Record(row))
      else if row.task != task then Step(t, Err(IdempotencyConflict))
      else Step(t, Ok(row))
    else if task.analysisId !in analyses then Step(t, Err(IntegrityError))
    else Step(t[task.taskId := FreshRow(task, now)], Ok(FreshRow(task, now)))
  }

  /** a <= b on column texts. */
  predicate TextAtMost(a: string, b: string) {
    a == b || StrLess(a, b)
  }

  /** The WHERE clause of the claim. */
  predicate Due(row: Row, now: string) {
    || (row.status in {Queued, Retry} && TextAtMost(row.availableAt, now))
    || (row.status == Running && row.leaseExpiresAt.Some? && TextAtMost(row.leaseExpiresAt.value, now))
  }

  /** The ORDER BY key of the claim. */
  function ClaimOrder(id: string, row: Row): Key {
    [row.availableAt, row.task.analyzerId, id]
  }

  function DueKeys(t: Table, now: string): set<Key> {
    set id | id in t && Due(t[id], now) :: ClaimOrder(id, t[id])
  }

  /** ORDER BY ... LIMIT 1 */
  function NextDue(t: Table, now: string): (r: Option<string>)
    ensures r.None? <==> forall id :: id in t ==> !Due(t[id], now)
    ensures r.Some? ==> r.value in t && Due(t[r.value], now)
    ensures r.Some? ==> forall id :: id in t && Due(t[id], now) && id != r.value ==>
              KeyLess(ClaimOrder(r.value, t[r.value]), ClaimOrder(id, t[id]))
  {
    if DueKeys(t, now) == {} then
      assert forall id :: id in t && Due(t[id], now) ==> ClaimOrder(id, t[id]) in DueKeys(t, now);
      None
    else
      var k := MinKey(DueKeys(t, now));
      assert forall id :: id in t && Due(t[id], now) && id != k[2] ==>
        ClaimOrder(id, t[id]) in DueKeys(t, now) && ClaimOrder(id, t[id])[2] != k[2];
      Some(k[2])
  }

  lemma NextDueUnique(t: Table, now: string, id: string)
    requires id in t && Due(t[id], now)
    requires forall other :: other in t && Due(t[other], now) && other != id ==>
               KeyLess(ClaimOrder(id, t[id]), ClaimOrder(other, t[other]))
    ensures NextDue(t, now) == Some(id)
  {
    var next := NextDue(t, now).value;
    KeyTrichotomy(ClaimOrder(id, t[id]), ClaimOrder(next, t[next]));
  }

  function ClaimedAttempt(row: Row): nat {
    row.attempt + (if row.status in {Retry, Running} then 1 else 0)
  }

  /** What the claim writes into the row it selected. */
  function ClaimedRow(row: Row, worker: string, until: Instant): Row {
    row.(status := Running,
         attempt := ClaimedAttempt(row),
         task := row.task.(attempt := ClaimedAttempt(row)),
         leaseOwner := Some(worker),
         leaseExpiresAt := Some(Iso(until)))
  }

  predicate InRange(t: int) {
    0 <= t < MAX_TICKS
  }

  /** `claim_task`. A task whose stored attempt is already out of bounds is refused before
      the update; one that the claim pushes out of bounds is refused after it. */
  function Claim(t: Table, worker: string, now: Instant, lease: int): Step<Option<Row>> {
    if !InRange(now + lease) then Step(t, Err(OverflowError))
    else
      var next := NextDue(t, Iso(now));
      if next.None? then Step(t, Ok(None))
      else
        var row := t[next.value];
        if !ValidTask(row.task) then Step(t, Err(ValidationError))
        else
          var claimed := ClaimedRow(row, worker, now + lease);
          Step(t[next.value := claimed],
               if Record(claimed).Ok? then Ok(Some(claimed)) else Err(PersistenceDecodeError))
  }

  predicate Owns(t: Table, id: string, worker: string) {
    id in t && t[id].status == Running && t[id].leaseOwner == Some(worker)
  }

  /** `renew_task`: the owner alone decides, an expired lease is renewed as well. */
  function Renew(t: Table, id: string, worker: string, now: Instant, lease: int): Step<bool> {
    if lease <= 0 then Step(t, Err(ValueError))
    else if !InRange(now + lease) then Step(t, Err(OverflowError))
    else if Owns(t, id, worker) then
      Step(t[id := t[id].(leaseExpiresAt := Some(Iso(now + lease)))], Ok(true))
    else Step(t, Ok(false))
  }

  function FinishedRow(row: Row, outcome: Outcome): Row {
    row.(status := if outcome.state.StateCompleted? then Completed else Failed,
         outcome := Some(outcome), leaseOwner := None, leaseExpiresAt := None)
  }

  /** `complete_task`: neither the attempt nor the clock is looked at. */
  function Complete(t: Table, outcome: Outcome, worker: string): Step<Row> {
    var id := outcome.taskId;
    if id !in t then Step(t, Err(KeyError))
    else if t[id].status == Completed then
      if Record(t[id]).Err? then Step(t, Record(t[id]))
      else if t[id].outcome == Some(outcome) then Step(t, Ok(t[id]))
      else Step(t, Err(ImmutableResultConflict))
    else if !Owns(t, id, worker) then Step(t, Err(LeaseOwnershipError))
    else
      var row := FinishedRow(t[id], outcome);
      Step(t[id := row], Record(row))
  }

  function ReleasedRow(row: Row, retry: bool, availableAt: Instant): Row {
    row.(status := if retry then Retry else Failed,
         availableAt := Iso(availableAt), leaseOwner := None, leaseExpiresAt := None)
  }

  /** `fail_task` */
  function Fail(t: Table, id: string, worker: string, retry: bool, availableAt: Instant): Step<()> {
    if id !in t then Step(t, Err(KeyError))
    else if t[id].status == Completed then Step(t, Err(ImmutableResultConflict))
    else if !Owns(t, id, worker) then Step(t, Err(LeaseOwnershipError))
    else Step(t[id := ReleasedRow(t[id], retry, availableAt)], Ok(()))
  }

  // ---- Arbitrary use of the interface ----

  datatype Op =
    | EnqueueOp(analyses: set<string>, task: Task, at: Instant)
    | ClaimOp(worker: string, now: Instant, lease: int)
    | RenewOp(id: string, worker: string, now: Instant, lease: int)
    | CompleteOp(outcome: Outcome, worker: string)
    | FailOp(id: string, worker: string, retry: bool, availableAt: Instant)

  function Apply(t: Table, op: Op): Table {
    match op
    case EnqueueOp(analyses, task, at) => if ValidTask(task) then Enqueue(t, analyses, task, at).table else t
    case ClaimOp(worker, now, lease) => Claim(t, worker, now, lease).table
    case RenewOp(id, worker, now, lease) => Renew(t, id, worker, now, lease).table
    case CompleteOp(outcome, worker) => Complete(t, outcome, worker).table
    case FailOp(id, worker, retry, availableAt) => Fail(t, id, worker, retry, availableAt).table
  }

  function Run(t: Table, ops: seq<Op>): Table
    decreases |ops|
  {
    if ops == [] then t else Run(Apply(t, ops[0]), ops[1..])
  }

  predicate Terminal(row: Row) {
    row.status in {Completed, Failed}
  }

  /** What every reachable row satisfies. */
  ghost predicate RowInvariant(id: string, row: Row) {
    && row.task.taskId == id
    && row.attempt == row.task.attempt
    && 1 <= row.attempt <= MAX_TASK_ATTEMPT + 1
    && (row.status == Queued ==> row.attempt <= MAX_TASK_ATTEMPT)
    && (row.status == Running <==> row.leaseOwner.Some?)
    && (row.status == Running <==> row.leaseExpiresAt.Some?)
    && (row.outcome.Some? ==> Terminal(row) && row.outcome.value.taskId == id)
    && (row.outcome.Some? ==> (row.status == Completed <==> row.outcome.value.state.StateCompleted?))
    && (row.status == Completed ==> row.outcome.Some?)
    && IsInstant(row.availableAt)
    && (row.leaseExpiresAt.Some? ==> IsInstant(row.leaseExpiresAt.value))
  }

  ghost predicate TableInvariant(t: Table) {
    forall id :: id in t ==> RowInvariant(id, t[id])
  }

  lemma ClaimKeeps(t: Table, worker: string, now: Instant, lease: int)
    requires TableInvariant(t)
    ensures TableInvariant(Claim(t, worker, now, lease).table)
  {
    hide Iso;
    if InRange(now + lease) { assert IsInstant(Iso(now + lease)); }
  }

  lemma RenewKeeps(t: Table, id: string, worker: string, now: Instant, lease: int)
    requires TableInvariant(t)
    ensures TableInvariant(Renew(t, id, worker, now, lease).table)
  {
    hide Iso;
    if InRange(now + lease) { assert IsInstant(Iso(now + lease)); }
  }

  lemma CompleteKeeps(t: Table, outcome: Outcome, worker: string)
    requires TableInvariant(t)
    ensures TableInvariant(Complete(t, outcome, worker).table)
  {
    hide Iso;
  }

  lemma FailKeeps(t: Table, id: string, worker: string, retry: bool, availableAt: Instant)
    requires TableInvariant(t)
    ensures TableInvariant(Fail(t, id, worker, retry, availableAt).table)
  {
    hide Iso;
    assert IsInstant(Iso(availableAt));
  }

  lemma EnqueueKeeps(t: Table, analyses: set<string>, task: Task, now: Instant)
    requires TableInvariant(t) && ValidTask(task)
    ensures TableInvariant(Enqueue(t, analyses, task, now).table)
  {
    hide Iso;
    assert IsInstant(Iso(now));
  }

  lemma ApplyKeepsInvariant(t: Table, op: Op)
    requires TableInvariant(t)
    ensures TableInvariant(Apply(t, op))
  {
    match op
    case EnqueueOp(analyses, task, at) => if ValidTask(task) { EnqueueKeeps(t, analyses, task, at); }
    case ClaimOp(worker, now, lease) => ClaimKeeps(t, worker, now, lease);
    case RenewOp(id, worker, now, lease) => RenewKeeps(t, id, worker, now, lease);
    case CompleteOp(outcome, worker) => CompleteKeeps(t, outcome, worker);
    case FailOp(id, worker, retry, availableAt) => FailKeeps(t, id, worker, retry, availableAt);
  }

  /** From the empty table, every sequence of calls with any arguments keeps the rows well formed. */
  lemma {:induction false} RunKeepsInvariant(t: Table, ops: seq<Op>)
    requires TableInvariant(t)
    ensures TableInvariant(Run(t, ops))
    decreases |ops|
  {
    if ops != [] {
      ApplyKeepsInvariant(t, ops[0]);
      RunKeepsInvariant(Apply(t, ops[0]), ops[1..]);
    }
  }

  lemma ApplyKeepsTerminal(t: Table, op: Op, id: string)
    requires id in t && Terminal(t[id])
    ensures id in Apply(t, op) && Apply(t, op)[id] == t[id]
  {
    hide Iso;
  }

  /** A completed or failed row is never changed again, whatever is called. */
  lemma {:induction false} TerminalForever(t: Table, ops: seq<Op>, id: string)
    requires id in t && Terminal(t[id])
    ensures id in Run(t, ops) && Run(t, ops)[id] == t[id]
    decreases |ops|
  {
    if ops != [] {
      ApplyKeepsTerminal(t, ops[0], id);
      TerminalForever(Apply(t, ops[0]), ops[1..], id);
    }
  }

  lemma ApplyKeepsIdentity(t: Table, op: Op, id: string)
    requires id in t
    ensures id in Apply(t, op)
    ensures Apply(t, op)[id].task == t[id].task.(attempt := Apply(t, op)[id].task.attempt)
    ensures TableInvariant(t) ==> t[id].attempt <= Apply(t, op)[id].attempt
  {
    hide Iso;
  }

  /** A row keeps its task; only the attempt inside it moves, and only upwards. */
  lemma {:induction false} IdentityForever(t: Table, ops: seq<Op>, id: string)
    requires id in t && TableInvariant(t)
    ensures id in Run(t, ops)
    ensures Run(t, ops)[id].task == t[id].task.(attempt := Run(t, ops)[id].task.attempt)
    ensures t[id].attempt <= Run(t, ops)[id].attempt
    decreases |ops|
  {
    if ops != [] {
      ApplyKeepsIdentity(t, ops[0], id);
      ApplyKeepsInvariant(t, ops[0]);
      IdentityForever(Apply(t, ops[0]), ops[1..], id);
    }
  }

  /** The write-once register a row implements. */
  datatype Register = Unset | Set(succeeded: bool, outcome: Option<Outcome>)

  function Verdict(t: Table, id: string): Register {
    if id in t && Terminal(t[id]) then Set(t[id].status == Completed, t[id].outcome) else Unset
  }

  /** Every call either leaves the register alone or is the owner's accepted verdict on an unset one,
      and then the register holds exactly what was handed in. */
  lemma RegisterWrites(t: Table, op: Op, id: string)
    ensures Verdict(Apply(t, op), id) != Verdict(t, id) ==>
              && Verdict(t, id) == Unset
              && match op
                 case CompleteOp(outcome, worker) =>
                   && outcome.taskId == id && Owns(t, id, worker)
                   && Verdict(Apply(t, op), id) == Set(outcome.state.StateCompleted?, Some(outcome))
                 case FailOp(failed, worker, retry, _) =>
                   && failed == id && Owns(t, id, worker) && !retry
                   && Verdict(Apply(t, op), id) == Set(false, t[id].outcome)
                 case _ => false
  {
    hide Iso;
  }

  /** Handing the same outcome in again, under any worker name, is accepted exactly when the
      outcome was a success; after a stored failure the repeat is refused as a lost lease. */
  lemma RepeatedCompletion(t: Table, outcome: Outcome, worker: string, again: string)
    requires TableInvariant(t) && Owns(t, outcome.taskId, worker) && ValidTask(t[outcome.taskId].task)
    ensures var first := Complete(t, outcome, worker);
            var second := Complete(first.table, outcome, again);
            && first.result.Ok? && second.table == first.table
            && (second.result.Ok? <==> outcome.state.StateCompleted?)
            && (second.result.Ok? ==> second.result == first.result)
            && (second.result.Err? ==> second.result.error == LeaseOwnershipError)
  {
    hide Iso, TableInvariant, Complete;
    AcceptedCompletion(t, outcome, worker);
    RefusedOrRepeated(Complete(t, outcome, worker).table, outcome, again);
  }

  /** The owner's completion is accepted and stored. */
  lemma AcceptedCompletion(t: Table, outcome: Outcome, worker: string)
    requires Owns(t, outcome.taskId, worker) && ValidTask(t[outcome.taskId].task)
    ensures var row := FinishedRow(t[outcome.taskId], outcome);
            Complete(t, outcome, worker) == Step(t[outcome.taskId := row], Ok(row))
  {
    hide Iso;
  }

  /** A completion that finds its own outcome stored. */
  lemma RefusedOrRepeated(t: Table, outcome: Outcome, worker: string)
    requires outcome.taskId in t && t[outcome.taskId].outcome == Some(outcome) && ValidTask(t[outcome.taskId].task)
    requires t[outcome.taskId].status == if outcome.state.StateCompleted? then Completed else Failed
    ensures Complete(t, outcome, worker) ==
            Step(t, if outcome.state.StateCompleted? then Ok(t[outcome.taskId]) else Err(LeaseOwnershipError))
  {
    hide Iso;
  }

  /** The claim takes nothing that its owner still holds: a running row it picks has an expiry that has passed. */
  lemma ReclaimWaitsForExpiry(t: Table, now: Instant, id: string, expiry: Instant)
    requires NextDue(t, Iso(now)) == Some(id)
    requires t[id].status == Running && t[id].leaseExpiresAt == Some(Iso(expiry))
    ensures expiry <= now
  {
    hide Iso;
    TextOrderIsTimeOrder(expiry, now);
  }

  // ---- Past the last attempt ----

  /** A claim that raises although it has written exists: it is exactly the one that takes a row, not queued any
      more, from the last attempt the contract allows to the one after. */
  lemma ClaimWritesThenRaises(t: Table, worker: string, now: Instant, lease: int)
    requires TableInvariant(t)
    ensures var claim, next := Claim(t, worker, now, lease), NextDue(t, Iso(now));
            claim.result.Err? && claim.table != t <==>
              && InRange(now + lease) && next.Some?
              && t[next.value].attempt == 100 && t[next.value].status != Queued
  {
    hide Iso, NextDue;
    var next := NextDue(t, Iso(now));
    if next.Some? {
      assert RowInvariant(next.value, t[next.value]);
      if InRange(now + lease) { ClaimOf(t, worker, now, lease); }
    }
  }

  /** A claim that finds a row, case by case. */
  lemma ClaimOf(t: Table, worker: string, now: Instant, lease: int)
    requires InRange(now + lease) && NextDue(t, Iso(now)).Some?
    ensures var id := NextDue(t, Iso(now)).value;
            var claimed := ClaimedRow(t[id], worker, now + lease);
            Claim(t, worker, now, lease) ==
              if !ValidTask(t[id].task) then Step(t, Err(ValidationError))
              else Step(t[id := claimed],
                        if ValidTask(claimed.task) then Ok(Some(claimed)) else Err(PersistenceDecodeError))
  {
    hide Iso, NextDue;
  }

  /** Once a row is past the last attempt, the claims that find it first due are exactly the ones refused with a
      validation error, and they change nothing: while it is first, nobody gets any task. */
  lemma OverrunRowBlocks(t: Table, worker: string, now: Instant, lease: int)
    requires TableInvariant(t) && InRange(now + lease)
    ensures var next := NextDue(t, Iso(now));
            Claim(t, worker, now, lease) == Step(t, Err(ValidationError)) <==>
              next.Some? && t[next.value].attempt == MAX_TASK_ATTEMPT + 1
  {
    hide Iso, NextDue;
    var next := NextDue(t, Iso(now));
    if next.Some? {
      assert RowInvariant(next.value, t[next.value]);
      ClaimOf(t, worker, now, lease);
    }
  }

  // ---- Runs in two parts ----

  lemma {:induction false} RunConcat(t: Table, a: seq<Op>, b: seq<Op>)
    ensures Run(t, a + b) == Run(Run(t, a), b)
    decreases |a|
  {
    hide Apply;
    if a == [] {
      assert a + b == b;
    } else {
      assert (a + b)[0] == a[0] && (a + b)[1..] == a[1..] + b;
      RunConcat(Apply(t, a[0]), a[1..], b);
    }
  }

  lemma RunOne(t: Table, op: Op)
    ensures Run(t, [op]) == Apply(t, op)
  {
    hide Apply;
    assert Run(Apply(t, op), []) == Apply(t, op);
  }

  // ---- Which row is claimed, in the columns' own terms ----

  /** A row can be claimed exactly when it waits and is available, or runs and its lease is over. */
  predicate Claimable(row: Row, now: string) {
    || ((row.status == Queued || row.status == Retry) && !StrLess(now, row.availableAt))
    || (row.status == Running && row.leaseExpiresAt.Some? && !StrLess(now, row.leaseExpiresAt.value))
  }

  lemma DueIsClaimable(row: Row, now: string)
    ensures Due(row, now) <==> Claimable(row, now)
  {
    StrTrichotomy(row.availableAt, now);
    if row.leaseExpiresAt.Some? { StrTrichotomy(row.leaseExpiresAt.value, now); }
  }

  /** The claimed row precedes every other one that could be claimed: by availability, among rows available at the
      same time by analyzer, and among those of one analyzer by task id. */
  lemma LongestWaitingFirst(t: Table, now: string, id: string, other: string)
    requires NextDue(t, now) == Some(id) && other in t && other != id && Claimable(t[other], now)
    ensures id in t && Claimable(t[id], now)
    ensures var a, b := t[id], t[other];
            || StrLess(a.availableAt, b.availableAt)
            || (a.availableAt == b.availableAt && StrLess(a.task.analyzerId, b.task.analyzerId))
            || (a.availableAt == b.availableAt && a.task.analyzerId == b.task.analyzerId && StrLess(id, other))
  {
    hide NextDue;
    DueIsClaimable(t[other], now);
    DueIsClaimable(t[id], now);
    TupleLess(ClaimOrder(id, t[id]), ClaimOrder(other, t[other]));
  }

  /** In time: a task is claimable once its availability, or the end of its lease, has come; no claimable task became
      available before the claimed one. */
  lemma EarliestFirst(t: Table, now: Instant, id: string, other: string, a: Instant, b: Instant)
    requires NextDue(t, Iso(now)) == Some(id) && other in t && t[other].status in {Queued, Retry} && b <= now
    requires t[id].availableAt == Iso(a) && t[other].availableAt == Iso(b)
    ensures a <= b
    ensures a == b && id != other ==>
              || StrLess(t[id].task.analyzerId, t[other].task.analyzerId)
              || (t[id].task.analyzerId == t[other].task.analyzerId && StrLess(id, other))
  {
    hide Iso, NextDue;
    TextOrderIsTimeOrder(now, b);
    TextOrderIsTimeOrder(a, b);
    if id != other { LongestWaitingFirst(t, Iso(now), id, other); }
  }

  /** Nothing is claimed exactly when no waiting task is available and no lease is over. */
  lemma NothingClaimable(t: Table, now: string)
    ensures NextDue(t, now).None? <==> forall id :: id in t ==> !Claimable(t[id], now)
  {
    hide NextDue, Due, Claimable;
    forall id | id in t ensures Due(t[id], now) <==> Claimable(t[id], now) { DueIsClaimable(t[id], now); }
  }

  /** The row of a new task. */
  lemma NewTaskRow(t: Table, analyses: set<string>, task: Task, now: Instant)
    requires task.taskId !in t
    ensures var step := Enqueue(t, analyses, task, now);
            if task.analysisId !in analyses then step == Step(t, Err(IntegrityError))
            else
              && task.taskId in step.table && step.result == Ok(step.table[task.taskId])
              && step.table == t[task.taskId := step.table[task.taskId]]
              && var row := step.table[task.taskId];
                 && row.status == Queued && row.task == task && row.attempt == task.attempt
                 && row.availableAt == Iso(now)
                 && row.leaseOwner.None? && row.leaseExpiresAt.None? && row.outcome.None?
  {
    hide Iso;
  }

  /** What a hand-back answers, and what it leaves. */
  lemma FailAnswers(t: Table, id: string, worker: string, retry: bool, availableAt: Instant)
    ensures var step := Fail(t, id, worker, retry, availableAt);
            if id !in t then step == Step(t, Err(KeyError))
            else if t[id].status == Completed then step == Step(t, Err(ImmutableResultConflict))
            else if t[id].status != Running || t[id].leaseOwner != Some(worker)
            then step == Step(t, Err(LeaseOwnershipError))
            else
              && step.result.Ok? && id in step.table && step.table == t[id := step.table[id]]
              && var row := step.table[id];
                 && row.status == (if retry then Retry else Failed) && row.availableAt == Iso(availableAt)
                 && row.leaseOwner.None? && row.leaseExpiresAt.None?
                 && row.task == t[id].task && row.attempt == t[id].attempt && row.outcome == t[id].outcome
  {
    hide Iso;
  }
}
