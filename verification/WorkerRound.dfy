/** One round of the worker loop as a function of the table (execution/worker.py), and what rounds leave alone. */
module WorkerRound {
  import opened Wrappers
  import opened Timestamps
  import opened Contracts
  import opened TaskQueue

  function Pow2(n: nat): (p: nat)
    ensures p >= 1
  {
    if n == 0 then 1 else 2 * Pow2(n - 1)
  }

  const MAX_DELAY := 60

  /** Seconds until a retry: `min(60, 2**attempt)`. */
  function RetryDelay(attempt: nat): (seconds: nat)
    ensures 1 <= seconds <= MAX_DELAY
  {
    if Pow2(attempt) <= MAX_DELAY then Pow2(attempt) else MAX_DELAY
  }

  predicate Retries(outcome: Outcome, maxAttempts: nat) {
    outcome.retryable && outcome.attempt < maxAttempts
  }

  /** How a round ends: hand the task back for a later attempt, or store the outcome. */
  function Settle(t: Table, worker: string, maxAttempts: nat, outcome: Outcome, failAt: Instant): Step<()> {
    if Retries(outcome, maxAttempts) then
      if !InRange(failAt + RetryDelay(outcome.attempt) * SECOND) then Step(t, Err(OverflowError))
      else Fail(t, outcome.taskId, worker, true, failAt + RetryDelay(outcome.attempt) * SECOND)
    else
      var done := Complete(t, outcome, worker);
      Step(done.table, if done.result.Ok? then Ok(()) else Err(done.result.error))
  }

  predicate ReportsOn(outcome: Outcome, row: Row) {
    outcome.taskId == row.task.taskId && outcome.attempt == row.task.attempt
  }

  /** `run_once`: claim, execute while others act, settle. `executed` is None when the execution itself raises. */
  function Round(t: Table, worker: string, now: Instant, lease: int, others: seq<Op>, maxAttempts: nat,
                 executed: Option<Outcome>, failAt: Instant): Step<Option<Outcome>> {
    var claim := Claim(t, worker, now, lease);
    match claim.result
    case Err(e) => Step(claim.table, Err(e))
    case Ok(None) => Step(claim.table, Ok(None))
    case Ok(Some(_)) =>
      if executed.None? then Step(Run(claim.table, others), Err(ValidationError))
      else
        var settled := Settle(Run(claim.table, others), worker, maxAttempts, executed.value, failAt);
        Step(settled.table, if settled.result.Ok? then Ok(executed) else Err(settled.result.error))
  }

  /** The attempt column of a claimed row is the attempt inside its task; without a claim nothing changes. */
  lemma ClaimFacts(t: Table, worker: string, now: Instant, lease: int)
    requires Claim(t, worker, now, lease).result.Ok?
    ensures match Claim(t, worker, now, lease).result.value
            case Some(row) => row.attempt == row.task.attempt
            case None => Claim(t, worker, now, lease).table == t
  {
    hide Iso, NextDue;
  }

  // ---- The backoff, in seconds ----

  /** The backoff starts at two seconds and doubles with each attempt, up to a minute. */
  lemma DelayDoubles(attempt: nat)
    ensures RetryDelay(1) == 2
    ensures RetryDelay(attempt + 1) == if 2 * RetryDelay(attempt) < 60 then 2 * RetryDelay(attempt) else 60
  {
    assert Pow2(0) == 1 && Pow2(1) == 2;
  }

  function SecondsAfter(attempt: nat): nat {
    if attempt == 1 then 2 else if attempt == 2 then 4 else if attempt == 3 then 8
    else if attempt == 4 then 16 else if attempt == 5 then 32 else 60
  }

  lemma {:induction false} DelayTable(attempt: nat)
    requires attempt >= 1
    ensures RetryDelay(attempt) == SecondsAfter(attempt)
  {
    DelayDoubles(attempt - 1);
    if attempt > 1 { DelayTable(attempt - 1); }
  }

  /** A round that hands its task back leaves it due 2, 4, 8, 16 or 32 seconds later after the first five attempts, and
      a minute later after any other. It hands back exactly the retryable outcomes below the attempt limit. */
  lemma HandedBackIsDue(t: Table, worker: string, now: Instant, lease: int, others: seq<Op>, maxAttempts: nat,
                        o: Outcome, failAt: Instant)
    requires TableInvariant(t) && o.attempt >= 1
    requires Round(t, worker, now, lease, others, maxAttempts, Some(o), failAt).result == Ok(Some(o))
    ensures var after := Round(t, worker, now, lease, others, maxAttempts, Some(o), failAt).table;
            && o.taskId in after
            && (if o.retryable && o.attempt < maxAttempts then
                  && InRange(failAt + SecondsAfter(o.attempt) * SECOND) && after[o.taskId].status == Retry
                  && after[o.taskId].availableAt == Iso(failAt + SecondsAfter(o.attempt) * SECOND)
                else
                  && after[o.taskId].status == (if o.state.StateCompleted? then Completed else Failed)
                  && after[o.taskId].outcome == Some(o))
  {
    hide Iso, Claim, Run, Fail, Complete, RetryDelay, TableInvariant, SecondsAfter;
    DelayTable(o.attempt);
    ClaimKeeps(t, worker, now, lease);
    RunKeepsInvariant(Claim(t, worker, now, lease).table, others);
    var raced := Run(Claim(t, worker, now, lease).table, others);
    if o.retryable && o.attempt < maxAttempts {
      assert InRange(failAt + RetryDelay(o.attempt) * SECOND);
      FailAnswers(raced, o.taskId, worker, true, failAt + RetryDelay(o.attempt) * SECOND);
    } else {
      CompletedRow(raced, o, worker);
    }
  }

  lemma CompletedRow(t: Table, o: Outcome, worker: string)
    requires TableInvariant(t) && Complete(t, o, worker).result.Ok?
    ensures var after := Complete(t, o, worker).table;
            && o.taskId in after && after[o.taskId].outcome == Some(o)
            && after[o.taskId].status == if o.state.StateCompleted? then Completed else Failed
  {
    hide Iso;
    assert RowInvariant(o.taskId, t[o.taskId]);
  }

  // ---- Stored outcomes stay ----

  ghost predicate Stored(t: Table, outcome: Outcome) {
    outcome.taskId in t && Terminal(t[outcome.taskId]) && t[outcome.taskId].outcome == Some(outcome)
  }

  /** An outcome that settles for good is stored. */
  lemma SettledIsStored(t: Table, worker: string, maxAttempts: nat, outcome: Outcome, failAt: Instant)
    requires !Retries(outcome, maxAttempts) && Settle(t, worker, maxAttempts, outcome, failAt).result.Ok?
    ensures Stored(Settle(t, worker, maxAttempts, outcome, failAt).table, outcome)
  {
    hide Iso;
  }

  /** Neither others nor the worker's own rounds disturb a stored outcome. */
  lemma SettleKeepsStored(t: Table, worker: string, maxAttempts: nat, outcome: Outcome, failAt: Instant, kept: Outcome)
    requires Stored(t, kept)
    ensures Stored(Settle(t, worker, maxAttempts, outcome, failAt).table, kept)
  {
    hide Iso, RetryDelay;
  }

  lemma ClaimKeepsStored(t: Table, worker: string, now: Instant, lease: int, kept: Outcome)
    requires Stored(t, kept)
    ensures Stored(Claim(t, worker, now, lease).table, kept)
  {
    hide Iso;
    ApplyKeepsTerminal(t, ClaimOp(worker, now, lease), kept.taskId);
  }

  lemma OthersKeepStored(t: Table, calls: seq<Op>, kept: Outcome)
    requires Stored(t, kept)
    ensures Stored(Run(t, calls), kept)
  {
    TerminalForever(t, calls, kept.taskId);
  }

  ghost predicate AllStored(t: Table, outcomes: map<string, Outcome>) {
    forall id :: id in outcomes ==> outcomes[id].taskId == id && Stored(t, outcomes[id])
  }

  lemma NothingStored(t: Table)
    ensures AllStored(t, map[])
  {}

  lemma InterferenceKeepsAll(t: Table, calls: seq<Op>, outcomes: map<string, Outcome>)
    requires AllStored(t, outcomes)
    ensures AllStored(Run(t, calls), outcomes)
  {
    hide Stored;
    forall id | id in outcomes ensures Stored(Run(t, calls), outcomes[id]) { OthersKeepStored(t, calls, outcomes[id]); }
  }

  lemma RoundKeepsAll(t: Table, worker: string, now: Instant, lease: int, others: seq<Op>, maxAttempts: nat,
                      outcome: Outcome, failAt: Instant, outcomes: map<string, Outcome>)
    requires AllStored(t, outcomes)
    ensures var after := Settle(Run(Claim(t, worker, now, lease).table, others), worker, maxAttempts, outcome, failAt);
            && AllStored(after.table, outcomes)
            && (after.result.Ok? && !Retries(outcome, maxAttempts) ==>
                  AllStored(after.table, outcomes[outcome.taskId := outcome]))
  {
    hide Stored, Claim, Settle, Run, Retries;
    var claimed := Claim(t, worker, now, lease).table;
    forall id | id in outcomes ensures Stored(claimed, outcomes[id]) {
      ClaimKeepsStored(t, worker, now, lease, outcomes[id]);
    }
    InterferenceKeepsAll(claimed, others, outcomes);
    var raced := Run(claimed, others);
    var after := Settle(raced, worker, maxAttempts, outcome, failAt);
    forall id | id in outcomes ensures Stored(after.table, outcomes[id]) {
      SettleKeepsStored(raced, worker, maxAttempts, outcome, failAt, outcomes[id]);
    }
    if after.result.Ok? && !Retries(outcome, maxAttempts) {
      SettledIsStored(raced, worker, maxAttempts, outcome, failAt);
    }
  }

  lemma NoCallsRun(t: Table)
    ensures Run(t, []) == t
  {}

  /** A round finds nothing only when nothing is due, and then leaves the table as it was. */
  lemma NothingDue(t: Table, worker: string, now: Instant, lease: int)
    requires Claim(t, worker, now, lease).result == Ok(None)
    ensures NextDue(t, Iso(now)).None? && Claim(t, worker, now, lease).table == t
  {
    hide Iso, NextDue;
  }
}
