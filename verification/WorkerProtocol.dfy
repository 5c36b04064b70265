/** The worker loop plays by the protocol: a round of `run_once` is a Take, any steps of other names, and then a
    HandBack, a Finish or, where the round raises, a Crash of the ticket it took. Rounds one after the other keep the
    rule of one claim in flight per name, so the protocol's theorems are about the workers as written. */
module WorkerProtocol {
  import opened Wrappers
  import opened Timestamps
  import opened Contracts
  import opened TaskQueue
  import opened WorkerRound
  import Protocol = LeaseProtocol

  /** The claiming half: the store moves as Take says, and what the worker gets is the new ticket, in flight. */
  lemma ClaimIsTake(w: Protocol.World, worker: string, now: Instant, lease: int)
    ensures var v := Protocol.Next(w, Protocol.Take(worker, now, lease));
            var claim := Claim(w.table, worker, now, lease);
            && v.table == claim.table
            && (claim.result.Ok? && claim.result.value.Some? ==>
                  var row := claim.result.value.value;
                  && |v.log| == |w.log| + 1 && |w.log| in v.inFlight
                  && v.log[|w.log|].worker == worker
                  && v.log[|w.log|].attempt == row.attempt
                  && (Protocol.HistoryInvariant(w) ==> v.log[|w.log|].taskId == row.task.taskId))
            && (!(claim.result.Ok? && claim.result.value.Some?) ==> v.inFlight == w.inFlight)
  {
    hide Iso, NextDue, Claim, Protocol.Next, Protocol.HistoryOf, Protocol.LogInvariant;
    if Protocol.Commits(w.table, now, lease) {
      var id := NextDue(w.table, Iso(now)).value;
      Protocol.TakeIs(w, worker, now, lease, id);
      ClaimOf(w.table, worker, now, lease);
      if Protocol.HistoryInvariant(w) { assert RowInvariant(id, w.table[id]); }
    } else {
      Protocol.NotTaken(w, worker, now, lease);
      Protocol.UncommittedClaim(w.table, worker, now, lease);
    }
  }

  /** How the worker ends the round of ticket i. */
  function SettleStep(i: nat, outcome: Outcome, maxAttempts: nat, failAt: Instant): Protocol.Step
    requires Retries(outcome, maxAttempts) ==> InRange(failAt + RetryDelay(outcome.attempt) * SECOND)
  {
    if Retries(outcome, maxAttempts) then Protocol.HandBack(i, true, failAt + RetryDelay(outcome.attempt) * SECOND)
    else Protocol.Finish(i, outcome)
  }

  /** The settling half, after any steps of others: the store moves as that step says, the ticket is no longer in
      flight, and the step obeys the rules under which claims are bounded. */
  lemma SettleIsStep(w: Protocol.World, i: nat, outcome: Outcome, worker: string, maxAttempts: nat, failAt: Instant)
    requires Protocol.MayFinish(w, i, outcome) && w.log[i].worker == worker
    requires Retries(outcome, maxAttempts) ==> InRange(failAt + RetryDelay(outcome.attempt) * SECOND)
    ensures var s := SettleStep(i, outcome, maxAttempts, failAt);
            && Protocol.Next(w, s).table == Settle(w.table, worker, maxAttempts, outcome, failAt).table
            && i !in Protocol.Next(w, s).inFlight
            && Protocol.WorkerRules(w, s, maxAttempts)
  {
    hide Iso, RetryDelay;
  }

  /** A whole round in a disciplined run: if the settling call is accepted and writes, the worker's ticket was
      still the task's latest claim, whatever happened while it was executing. */
  lemma AcceptedRoundIsFresh(steps: seq<Protocol.Step>, i: nat, outcome: Outcome, worker: string, maxAttempts: nat,
                             failAt: Instant)
    requires Protocol.Disciplined(steps)
    requires var w := Protocol.After(steps); Protocol.MayFinish(w, i, outcome) && w.log[i].worker == worker
    requires var w := Protocol.After(steps);
             && Settle(w.table, worker, maxAttempts, outcome, failAt).result.Ok?
             && Settle(w.table, worker, maxAttempts, outcome, failAt).table != w.table
    ensures var w := Protocol.After(steps);
            && outcome.taskId in w.table && outcome.attempt == w.table[outcome.taskId].attempt
            && forall j :: i < j < |w.log| ==> w.log[j].taskId != outcome.taskId
  {
    hide Iso, RetryDelay, Protocol.After, Protocol.Disciplined;
    var w := Protocol.After(steps);
    assert Owns(w.table, outcome.taskId, worker);
    Protocol.AcceptedTicketIsCurrent(steps, i);
  }

  // ---- Whole rounds ----

  ghost predicate NoneInFlight(w: Protocol.World, worker: string) {
    forall i :: i in w.inFlight && i < |w.log| ==> w.log[i].worker != worker
  }

  /** Ticket i is the one ticket of this name in flight. */
  ghost predicate OneInFlight(w: Protocol.World, worker: string, i: nat) {
    && (forall j :: j in w.inFlight ==> j < |w.log|)
    && i in w.inFlight && w.log[i].worker == worker
    && forall j :: j in w.inFlight && w.log[j].worker == worker ==> j == i
  }

  /** A step that this name does not take and that ends none of its tickets. */
  ghost predicate Foreign(w: Protocol.World, s: Protocol.Step, worker: string) {
    match s
    case Take(name, _, _) => name != worker
    case Finish(i, _) => i < |w.log| ==> w.log[i].worker != worker
    case HandBack(i, _, _) => i < |w.log| ==> w.log[i].worker != worker
    case Crash(i) => i < |w.log| ==> w.log[i].worker != worker
    case _ => true
  }

  /** Steps of other names, each within the rules of the worker loop. */
  ghost predicate ForeignRun(w: Protocol.World, others: seq<Protocol.Step>, worker: string, maxAttempts: nat) {
    others == [] ||
    var front, s := others[..|others| - 1], others[|others| - 1];
    && ForeignRun(w, front, worker, maxAttempts)
    && Foreign(Protocol.From(w, front), s, worker) && Protocol.WorkerRules(Protocol.From(w, front), s, maxAttempts)
  }

  /** How a round that claimed ticket i ends, the raising paths included. */
  function EndStep(i: nat, executed: Option<Outcome>, maxAttempts: nat, failAt: Instant): Protocol.Step {
    if executed.None? then Protocol.Crash(i)
    else if Retries(executed.value, maxAttempts) && !InRange(failAt + RetryDelay(executed.value.attempt) * SECOND)
    then Protocol.Crash(i)
    else SettleStep(i, executed.value, maxAttempts, failAt)
  }

  lemma ForeignStepKeeps(w: Protocol.World, s: Protocol.Step, worker: string, i: nat)
    requires OneInFlight(w, worker, i) && Foreign(w, s, worker)
    ensures OneInFlight(Protocol.Next(w, s), worker, i)
    ensures Protocol.Next(w, s).log[i] == w.log[i]
  {
    hide Iso, Claim, NextDue, Complete, Fail, Renew, Enqueue;
  }

  lemma {:induction false} ForeignRunKeeps(w: Protocol.World, others: seq<Protocol.Step>, worker: string,
                                           maxAttempts: nat, i: nat)
    requires OneInFlight(w, worker, i) && ForeignRun(w, others, worker, maxAttempts)
    ensures OneInFlight(Protocol.From(w, others), worker, i)
    ensures Protocol.From(w, others).log[i] == w.log[i]
  {
    hide Protocol.Next, Foreign, Protocol.WorkerRules, OneInFlight;
    if others != [] {
      ForeignRunKeeps(w, others[..|others| - 1], worker, maxAttempts, i);
      ForeignStepKeeps(Protocol.From(w, others[..|others| - 1]), others[|others| - 1], worker, i);
      InFlightListed(Protocol.From(w, others[..|others| - 1]), worker, i);
      InFlightListed(Protocol.From(w, others), worker, i);
    }
  }

  lemma InFlightListed(w: Protocol.World, worker: string, i: nat)
    requires OneInFlight(w, worker, i)
    ensures i < |w.log|
  {}

  lemma {:induction false} ForeignRunExtends(steps: seq<Protocol.Step>, others: seq<Protocol.Step>, worker: string,
                                             maxAttempts: nat)
    requires Protocol.WorkerRun(steps, maxAttempts) && ForeignRun(Protocol.After(steps), others, worker, maxAttempts)
    ensures Protocol.WorkerRun(steps + others, maxAttempts)
  {
    hide Protocol.Next, Foreign, Protocol.WorkerRules;
    if others == [] {
      assert steps + others == steps;
    } else {
      var front := others[..|others| - 1];
      ForeignRunExtends(steps, front, worker, maxAttempts);
      Protocol.AfterConcat(steps, front);
      OneMoreStep(steps + front, others[|others| - 1], maxAttempts);
      assert steps + others == steps + front + [others[|others| - 1]];
    }
  }

  lemma OneMoreStep(steps: seq<Protocol.Step>, s: Protocol.Step, maxAttempts: nat)
    requires Protocol.WorkerRun(steps, maxAttempts) && Protocol.WorkerRules(Protocol.After(steps), s, maxAttempts)
    ensures Protocol.WorkerRun(steps + [s], maxAttempts)
    ensures Protocol.After(steps + [s]) == Protocol.Next(Protocol.After(steps), s)
  {
    hide Protocol.Next, Protocol.WorkerRules;
    assert (steps + [s])[..|steps|] == steps && (steps + [s])[|steps|] == s;
  }

  /** The Take of a name with nothing in flight is within the rules, and leaves its new ticket, if any, alone in
      flight. */
  lemma TakeBegins(w: Protocol.World, worker: string, now: Instant, lease: int, maxAttempts: nat)
    requires Protocol.HistoryInvariant(w) && NoneInFlight(w, worker)
    ensures Protocol.WorkerRules(w, Protocol.Take(worker, now, lease), maxAttempts)
    ensures var v, claim := Protocol.Next(w, Protocol.Take(worker, now, lease)),
        Claim(w.table, worker, now, lease).result;
            if claim.Ok? && claim.value.Some? then OneInFlight(v, worker, |w.log|) else NoneInFlight(v, worker)
  {
    hide Iso, NextDue, Protocol.HistoryOf, Protocol.LogInvariant;
    ClaimIsTake(w, worker, now, lease);
  }

  /** Whatever ends the ticket leaves nothing of this name in flight. */
  lemma EndIsFinal(w: Protocol.World, worker: string, i: nat, executed: Option<Outcome>, maxAttempts: nat,
                   failAt: Instant)
    requires OneInFlight(w, worker, i)
    requires executed.Some? ==> Protocol.MayFinish(w, i, executed.value)
    ensures var s := EndStep(i, executed, maxAttempts, failAt);
            && Protocol.WorkerRules(w, s, maxAttempts) && NoneInFlight(Protocol.Next(w, s), worker)
            && Protocol.Next(w, s).table == if executed.None? then w.table
                                            else Settle(w.table, worker, maxAttempts, executed.value, failAt).table
  {
    hide Iso, RetryDelay, Complete, Fail;
    if EndStep(i, executed, maxAttempts, failAt) != Protocol.Crash(i) {
      SettleIsStep(w, i, executed.value, worker, maxAttempts, failAt);
    }
    EndKeepsLog(w, i, executed, maxAttempts, failAt);
  }

  lemma EndKeepsLog(w: Protocol.World, i: nat, executed: Option<Outcome>, maxAttempts: nat, failAt: Instant)
    requires executed.Some? ==> Protocol.MayFinish(w, i, executed.value)
    requires i in w.inFlight && i < |w.log|
    ensures var v := Protocol.Next(w, EndStep(i, executed, maxAttempts, failAt));
            v.log == w.log && v.inFlight == w.inFlight - {i}
  {
    hide Iso, RetryDelay, Complete, Fail;
  }

  /** The steps of a round: the Take and, if it got a task, the steps of others and the end. */
  ghost function RoundSteps(w: Protocol.World, worker: string, now: Instant, lease: int, others: seq<Protocol.Step>,
                            executed: Option<Outcome>, maxAttempts: nat, failAt: Instant): seq<Protocol.Step> {
    var claim := Claim(w.table, worker, now, lease).result;
    [Protocol.Take(worker, now, lease)] +
    if claim.Ok? && claim.value.Some? then others + [EndStep(|w.log|, executed, maxAttempts, failAt)] else []
  }

  /** A run in which every worker keeps the rules, and in which this name has nothing in flight, stays one by a whole
      round of `run_once`, however the others interleave with it and however it ends. Its table is the one
      `RunOnce` promises, for the store calls the others made. */
  lemma WholeRound(steps: seq<Protocol.Step>, worker: string, now: Instant, lease: int, others: seq<Protocol.Step>,
                   executed: Option<Outcome>, maxAttempts: nat, failAt: Instant)
    requires Protocol.WorkerRun(steps, maxAttempts) && NoneInFlight(Protocol.After(steps), worker)
    requires var w := Protocol.After(steps);
             && ForeignRun(Protocol.Next(w, Protocol.Take(worker, now, lease)), others, worker, maxAttempts)
             && var claim := Claim(w.table, worker, now, lease).result;
                claim.Ok? && claim.value.Some? && executed.Some? ==> ReportsOn(executed.value, claim.value.value)
    ensures var w := Protocol.After(steps);
            var all := steps + RoundSteps(w, worker, now, lease, others, executed, maxAttempts, failAt);
            var calls := Protocol.OpsAlong(Protocol.Next(w, Protocol.Take(worker, now, lease)), others);
            && Protocol.WorkerRun(all, maxAttempts) && NoneInFlight(Protocol.After(all), worker)
            && Protocol.After(all).table ==
              Round(w.table, worker, now, lease, calls, maxAttempts, executed, failAt).table
  {
    hide Iso, Protocol.After, Protocol.Next, Protocol.WorkerRules, Claim, Settle, Run, EndStep, ForeignRun,
         Protocol.From, NoneInFlight, OneInFlight, Protocol.HistoryInvariant, Protocol.OpsAlong;
    var w, take := Protocol.After(steps), Protocol.Take(worker, now, lease);
    Protocol.AttemptAccounting(steps);
    TakeBegins(w, worker, now, lease, maxAttempts);
    ClaimIsTake(w, worker, now, lease);
    OneMoreStep(steps, take, maxAttempts);
    var claim := Claim(w.table, worker, now, lease).result;
    if claim.Ok? && claim.value.Some? {
      ClaimFacts(w.table, worker, now, lease);
      RoundAfterTake(steps + [take], worker, others, |w.log|, executed, maxAttempts, failAt);
      var end := EndStep(|w.log|, executed, maxAttempts, failAt);
      assert steps + ([take] + (others + [end])) == steps + [take] + others + [end];
    } else {
      assert steps + ([take] + []) == steps + [take];
    }
  }

  /** The rest of a round, once its ticket i is in flight. */
  lemma RoundAfterTake(steps: seq<Protocol.Step>, worker: string, others: seq<Protocol.Step>, i: nat,
                       executed: Option<Outcome>, maxAttempts: nat, failAt: Instant)
    requires Protocol.WorkerRun(steps, maxAttempts) && OneInFlight(Protocol.After(steps), worker, i)
    requires ForeignRun(Protocol.After(steps), others, worker, maxAttempts)
    requires var ticket := Protocol.After(steps).log[i];
             executed.Some? ==> executed.value.taskId == ticket.taskId && executed.value.attempt == ticket.attempt
    ensures var all := steps + others + [EndStep(i, executed, maxAttempts, failAt)];
            var raced := Run(Protocol.After(steps).table, Protocol.OpsAlong(Protocol.After(steps), others));
            && Protocol.WorkerRun(all, maxAttempts) && NoneInFlight(Protocol.After(all), worker)
            && Protocol.After(all).table ==
               if executed.None? then raced else Settle(raced, worker, maxAttempts, executed.value, failAt).table
  {
    hide Iso, Protocol.After, Protocol.Next, Protocol.WorkerRules, Settle, Run, EndStep, ForeignRun, Protocol.From,
         NoneInFlight, OneInFlight, Protocol.OpsAlong;
    var w := Protocol.After(steps);
    InFlightListed(w, worker, i);
    ForeignRunKeeps(w, others, worker, maxAttempts, i);
    ForeignRunExtends(steps, others, worker, maxAttempts);
    Protocol.AfterConcat(steps, others);
    Protocol.RunIsOps(w, others);
    var raced := Protocol.After(steps + others);
    InFlightListed(raced, worker, i);
    if executed.Some? { Reports(raced, worker, i, executed.value); }
    EndIsFinal(raced, worker, i, executed, maxAttempts, failAt);
    OneMoreStep(steps + others, EndStep(i, executed, maxAttempts, failAt), maxAttempts);
  }

  lemma Reports(w: Protocol.World, worker: string, i: nat, outcome: Outcome)
    requires OneInFlight(w, worker, i)
    requires i < |w.log| && outcome.taskId == w.log[i].taskId && outcome.attempt == w.log[i].attempt
    ensures Protocol.MayFinish(w, i, outcome)
  {}
}
