/** The queue as a protocol: any number of worker processes submit, claim, renew, finish, hand back
    or crash, in any order and with any clock readings. A ticket is one claim the store has made;
    the log of all tickets is the history the safety claims are about. */
module LeaseProtocol {
  import opened Wrappers
  import opened Timestamps
  import opened Contracts
  import opened TaskQueue

  /** One committed claim; `reclaim` marks a claim of a row that was still running. */
  datatype Ticket = Ticket(worker: string, taskId: string, attempt: nat, reclaim: bool)

  /** `views` is the expiry each worker was last granted for a task and has not given back. */
  datatype World = World(
    table: Table,
    log: seq<Ticket>,
    inFlight: set<nat>,
    views: map<(string, string), Instant>,
    submitted: map<string, Task>,
    clock: Instant)

  datatype Step =
    | Submit(analyses: set<string>, task: Task, at: Instant)
    | Take(worker: string, now: Instant, lease: int)
    | Extend(id: string, worker: string, now: Instant, lease: int)
    | Finish(ticket: nat, outcome: Outcome)
    | HandBack(ticket: nat, retry: bool, availableAt: Instant)
    | Crash(ticket: nat)

  const START := World(map[], [], {}, map[], map[], 0)

  /** Whether a claim writes a row. */
  ghost predicate Commits(t: Table, now: Instant, lease: int) {
    && InRange(now + lease)
    && NextDue(t, Iso(now)).Some?
    && ValidTask(t[NextDue(t, Iso(now)).value].task)
  }

  ghost function TicketFor(t: Table, worker: string, now: Instant): Ticket
    requires NextDue(t, Iso(now)).Some?
  {
    var id := NextDue(t, Iso(now)).value;
    Ticket(worker, id, ClaimedAttempt(t[id]), t[id].status == Running)
  }

  ghost function Next(w: World, s: Step): World {
    match s
    case Submit(analyses, task, at) =>
      if !ValidTask(task) then w
      else
        var t := Enqueue(w.table, analyses, task, at).table;
        w.(table := t,
           submitted := if task.taskId in t && task.taskId !in w.table then w.submitted[task.taskId := task]
                        else w.submitted)
    case Take(worker, now, lease) =>
      var step := Claim(w.table, worker, now, lease);
      if !Commits(w.table, now, lease) then w.(clock := now)
      else
        var ticket := TicketFor(w.table, worker, now);
        w.(table := step.table,
           log := w.log + [ticket],
           inFlight := if step.result.Ok? then w.inFlight + {|w.log|} else w.inFlight,
           views := w.views[(worker, ticket.taskId) := now + lease],
           clock := now)
    case Extend(id, worker, now, lease) =>
      var step := Renew(w.table, id, worker, now, lease);
      w.(table := step.table,
         views := if step.result == Ok(true) then w.views[(worker, id) := now + lease] else w.views,
         clock := now)
    case Finish(i, outcome) =>
      if !MayFinish(w, i, outcome) then w
      else
        var worker := w.log[i].worker;
        w.(table := Complete(w.table, outcome, worker).table,
           inFlight := w.inFlight - {i},
           views := if Owns(w.table, outcome.taskId, worker) then w.views - {(worker, outcome.taskId)} else w.views)
    case HandBack(i, retry, availableAt) =>
      if i !in w.inFlight || i >= |w.log| then w
      else
        var worker, id := w.log[i].worker, w.log[i].taskId;
        w.(table := Fail(w.table, id, worker, retry, availableAt).table,
           inFlight := w.inFlight - {i},
           views := if Owns(w.table, id, worker) then w.views - {(worker, id)} else w.views)
    case Crash(i) => w.(inFlight := w.inFlight - {i})
  }

  /** An execution reports on the task and attempt it was given. */
  predicate MayFinish(w: World, i: nat, outcome: Outcome) {
    && i in w.inFlight && i < |w.log|
    && outcome.taskId == w.log[i].taskId && outcome.attempt == w.log[i].attempt
  }

  ghost function After(steps: seq<Step>): World {
    if steps == [] then START else Next(After(steps[..|steps| - 1]), steps[|steps| - 1])
  }

  // ---- Continuing a run ----

  ghost function From(w: World, steps: seq<Step>): World {
    if steps == [] then w else Next(From(w, steps[..|steps| - 1]), steps[|steps| - 1])
  }

  lemma {:induction false} AfterConcat(steps: seq<Step>, more: seq<Step>)
    ensures After(steps + more) == From(After(steps), more)
  {
    hide Next;
    if more == [] {
      assert steps + more == steps;
    } else {
      var front := more[..|more| - 1];
      AfterConcat(steps, front);
      assert (steps + more)[..|steps + more| - 1] == steps + front;
    }
  }

  /** The store calls a step makes. */
  ghost function OpsOf(w: World, s: Step): seq<Op> {
    match s
    case Submit(analyses, task, at) => [EnqueueOp(analyses, task, at)]
    case Take(worker, now, lease) => [ClaimOp(worker, now, lease)]
    case Extend(id, worker, now, lease) => [RenewOp(id, worker, now, lease)]
    case Finish(i, outcome) => if MayFinish(w, i, outcome) then [CompleteOp(outcome, w.log[i].worker)] else []
    case HandBack(i, retry, availableAt) =>
      if i in w.inFlight && i < |w.log| then [FailOp(w.log[i].taskId, w.log[i].worker, retry, availableAt)] else []
    case Crash(_) => []
  }

  ghost function OpsAlong(w: World, steps: seq<Step>): seq<Op> {
    if steps == [] then [] else
    OpsAlong(w, steps[..|steps| - 1]) + OpsOf(From(w, steps[..|steps| - 1]), steps[|steps| - 1])
  }

  lemma StepIsOps(w: World, s: Step)
    ensures Next(w, s).table == Run(w.table, OpsOf(w, s))
  {
    hide Iso;
    if OpsOf(w, s) != [] { RunOne(w.table, OpsOf(w, s)[0]); }
    if s.Take? { UncommittedClaim(w.table, s.worker, s.now, s.lease); }
  }

  lemma UncommittedClaim(t: Table, worker: string, now: Instant, lease: int)
    ensures !Commits(t, now, lease) ==>
              var claim := Claim(t, worker, now, lease);
              claim.table == t && (claim.result.Ok? ==> claim.result.value.None?)
  {
    hide Iso, NextDue;
  }

  /** A run of the protocol moves the table by ordinary store calls. */
  lemma {:induction false} RunIsOps(w: World, steps: seq<Step>)
    ensures From(w, steps).table == Run(w.table, OpsAlong(w, steps))
  {
    hide Next, OpsOf, Run;
    if steps == [] {
      assert Run(w.table, []) == w.table by { NoCalls(w.table); }
    } else {
      var front := steps[..|steps| - 1];
      RunIsOps(w, front);
      StepIsOps(From(w, front), steps[|steps| - 1]);
      RunConcat(w.table, OpsAlong(w, front), OpsOf(From(w, front), steps[|steps| - 1]));
    }
  }

  lemma NoCalls(t: Table)
    ensures Run(t, []) == t
  {}

  // ---- Counting claims ----

  function Claims(log: seq<Ticket>, id: string): nat {
    if log == [] then 0
    else Claims(log[..|log| - 1], id) + (if log[|log| - 1].taskId == id then 1 else 0)
  }

  function Reclaims(log: seq<Ticket>, id: string): nat {
    if log == [] then 0
    else Reclaims(log[..|log| - 1], id) + (if log[|log| - 1].taskId == id && log[|log| - 1].reclaim then 1 else 0)
  }

  function LastClaim(log: seq<Ticket>, id: string): (i: nat)
    requires Claims(log, id) > 0
    ensures i < |log| && log[i].taskId == id
    ensures forall j :: i < j < |log| ==> log[j].taskId != id
  {
    if log[|log| - 1].taskId == id then |log| - 1 else LastClaim(log[..|log| - 1], id)
  }

  lemma ClaimsSnoc(log: seq<Ticket>, ticket: Ticket, id: string)
    ensures Claims(log + [ticket], id) == Claims(log, id) + (if ticket.taskId == id then 1 else 0)
    ensures Reclaims(log + [ticket], id) == Reclaims(log, id) + (if ticket.taskId == id && ticket.reclaim then 1 else 0)
  {
    assert (log + [ticket])[..|log|] == log;
  }

  lemma LastClaimSnoc(log: seq<Ticket>, ticket: Ticket, id: string)
    requires ticket.taskId == id || Claims(log, id) > 0
    ensures Claims(log + [ticket], id) > 0
    ensures LastClaim(log + [ticket], id) == if ticket.taskId == id then |log| else LastClaim(log, id)
  {
    assert (log + [ticket])[..|log|] == log;
  }

  lemma {:induction false} ClaimsGrow(log: seq<Ticket>, id: string, i: nat, j: nat)
    requires i < j <= |log| && log[i].taskId == id
    ensures Claims(log[..i], id) < Claims(log[..j], id)
  {
    assert log[..j][..j - 1] == log[..j - 1];
    if i < j - 1 { ClaimsGrow(log, id, i, j - 1); }
  }

  // ---- What every run keeps ----

  /** The log explains the table: attempts count claims, and the owner is the last claimant. */
  ghost predicate HistoryOf(w: World, id: string)
    requires id in w.table && id in w.submitted
  {
    var row, claims := w.table[id], Claims(w.log, id);
    && (row.status == Queued <==> claims == 0)
    && ValidTask(w.submitted[id]) && row.task == w.submitted[id].(attempt := row.attempt)
    && row.attempt == w.submitted[id].attempt + (if claims == 0 then 0 else claims - 1)
    && (row.status == Running ==> claims > 0 && row.leaseOwner == Some(w.log[LastClaim(w.log, id)].worker))
  }

  ghost predicate LogInvariant(w: World) {
    forall i :: 0 <= i < |w.log| ==>
      && w.log[i].taskId in w.table && w.log[i].taskId in w.submitted
      && w.log[i].attempt == w.submitted[w.log[i].taskId].attempt + Claims(w.log[..i], w.log[i].taskId)
  }

  ghost predicate HistoryInvariant(w: World) {
    && TableInvariant(w.table)
    && w.table.Keys == w.submitted.Keys
    && (forall id :: id in w.table ==> HistoryOf(w, id))
    && LogInvariant(w)
    && (forall i :: i in w.inFlight ==> i < |w.log|)
  }

  lemma {:induction false} NoClaims(log: seq<Ticket>, id: string)
    requires forall i :: 0 <= i < |log| ==> log[i].taskId != id
    ensures Claims(log, id) == 0
  {
    if log != [] { NoClaims(log[..|log| - 1], id); }
  }

  lemma SubmitKeepsHistory(w: World, analyses: set<string>, task: Task, at: Instant)
    requires HistoryInvariant(w)
    ensures HistoryInvariant(Next(w, Submit(analyses, task, at)))
  {
    hide Iso, Claims, LastClaim, HistoryOf, LogInvariant, TableInvariant, FreshRow;
    var v := Next(w, Submit(analyses, task, at));
    if ValidTask(task) && task.taskId !in w.table && task.analysisId in analyses {
      EnqueueKeeps(w.table, analyses, task, at);
      SubmittedRowHistory(w, v, task, at);
    } else {
      SameKeepsHistory(w, v);
    }
  }

  lemma SubmittedRowHistory(w: World, v: World, task: Task, at: Instant)
    requires HistoryInvariant(w) && task.taskId !in w.table && ValidTask(task) && TableInvariant(v.table)
    requires v == w.(table := w.table[task.taskId := FreshRow(task, at)], submitted := w.submitted[task.taskId := task])
    ensures HistoryInvariant(v)
  {
    hide Iso, Claims, LastClaim, RowInvariant;
    NoClaims(w.log, task.taskId);
    forall id | id in v.table ensures HistoryOf(v, id) {
      assert id in w.table ==> HistoryOf(w, id);
    }
  }

  /** A claim extends the history of the row it takes. */
  lemma TakeExtendsHistory(w: World, v: World, ticket: Ticket, row: Row, id: string)
    requires id in w.table && id in w.submitted && HistoryOf(w, id) && RowInvariant(id, w.table[id])
    requires v.table == w.table[ticket.taskId := row] && v.log == w.log + [ticket] && v.submitted == w.submitted
    requires ticket.taskId in w.table && !Terminal(w.table[ticket.taskId])
    requires row.status == Running && row.leaseOwner == Some(ticket.worker)
    requires row.attempt == ClaimedAttempt(w.table[ticket.taskId])
    requires row.task == w.table[ticket.taskId].task.(attempt := row.attempt)
    ensures HistoryOf(v, id)
  {
    hide Iso, RowInvariant, Claims, Reclaims, LastClaim;
    ClaimsSnoc(w.log, ticket, id);
    if id == ticket.taskId {
      LastClaimSnoc(w.log, ticket, id);
    } else if Claims(w.log, id) > 0 {
      LastClaimSnoc(w.log, ticket, id);
    }
  }

  lemma TakeExtendsLog(w: World, ticket: Ticket)
    requires LogInvariant(w) && ticket.taskId in w.table && ticket.taskId in w.submitted
    requires ticket.attempt == w.submitted[ticket.taskId].attempt + Claims(w.log, ticket.taskId)
    ensures LogInvariant(w.(log := w.log + [ticket]))
  {
    var log := w.log + [ticket];
    forall i | 0 <= i < |log|
      ensures log[i].taskId in w.table && log[i].taskId in w.submitted
      ensures log[i].attempt == w.submitted[log[i].taskId].attempt + Claims(log[..i], log[i].taskId)
    {
      assert log[..i] == w.log[..i];
      if i == |w.log| { assert w.log[..i] == w.log; }
    }
  }

  /** What a committed claim does to the world. */
  lemma TakeWrites(w: World, worker: string, now: Instant, lease: int)
    requires Commits(w.table, now, lease)
    ensures var v, ticket := Next(w, Take(worker, now, lease)), TicketFor(w.table, worker, now);
            && ticket.taskId in w.table && !Terminal(w.table[ticket.taskId])
            && ticket.worker == worker && ticket.attempt == ClaimedAttempt(w.table[ticket.taskId])
            && ticket.reclaim == (w.table[ticket.taskId].status == Running)
            && v.table == w.table[ticket.taskId := ClaimedRow(w.table[ticket.taskId], worker, now + lease)]
            && v.log == w.log + [ticket] && v.submitted == w.submitted && v.inFlight <= w.inFlight + {|w.log|}
            && v.views == w.views[(worker, ticket.taskId) := now + lease] && v.clock == now
  {
    hide Iso;
  }

  lemma TakeKeepsHistory(w: World, worker: string, now: Instant, lease: int)
    requires HistoryInvariant(w)
    ensures HistoryInvariant(Next(w, Take(worker, now, lease)))
  {
    hide Iso, Claims, Reclaims, LastClaim;
    ClaimKeeps(w.table, worker, now, lease);
    var v := Next(w, Take(worker, now, lease));
    if Commits(w.table, now, lease) {
      CommittedTakeKeepsHistory(w, worker, now, lease);
    } else {
      SameKeepsHistory(w, v);
    }
  }

  lemma CommittedTakeKeepsHistory(w: World, worker: string, now: Instant, lease: int)
    requires HistoryInvariant(w) && Commits(w.table, now, lease)
    requires TableInvariant(Next(w, Take(worker, now, lease)).table)
    ensures HistoryInvariant(Next(w, Take(worker, now, lease)))
  {
    hide Iso, Claims, Reclaims, LastClaim, Next, Claim, NextDue, TicketFor, HistoryOf, LogInvariant, RowInvariant;
    TakeWrites(w, worker, now, lease);
    var v, ticket := Next(w, Take(worker, now, lease)), TicketFor(w.table, worker, now);
    forall id | id in v.table ensures HistoryOf(v, id) {
      TakeExtendsHistory(w, v, ticket, v.table[ticket.taskId], id);
    }
    assert HistoryOf(w, ticket.taskId);
    LogGrows(w, v, ticket);
  }

  lemma LogGrows(w: World, v: World, ticket: Ticket)
    requires LogInvariant(w) && ticket.taskId in w.table && ticket.taskId in w.submitted && HistoryOf(w, ticket.taskId)
    requires !Terminal(w.table[ticket.taskId]) && ticket.attempt == ClaimedAttempt(w.table[ticket.taskId])
    requires v.table.Keys == w.table.Keys && v.submitted == w.submitted && v.log == w.log + [ticket]
    ensures LogInvariant(v)
  {
    hide LastClaim, LogInvariant;
    TakeExtendsLog(w, ticket);
    SameLog(w.(log := w.log + [ticket]), v);
  }

  lemma SameLog(w: World, v: World)
    requires LogInvariant(w) && v.table.Keys == w.table.Keys && v.submitted == w.submitted && v.log == w.log
    ensures LogInvariant(v)
  {
    hide Claims;
  }

  /** A write that neither queues, claims nor hands the row to another owner keeps the history. */
  lemma UpdateKeepsHistory(w: World, v: World, id: string, row: Row)
    requires HistoryInvariant(w) && TableInvariant(v.table) && id in w.table
    requires v.table == w.table[id := row] && v.log == w.log && v.submitted == w.submitted && v.inFlight <= w.inFlight
    requires row.attempt == w.table[id].attempt && row.task == w.table[id].task
    requires row.status != Queued && w.table[id].status == Running
    requires row.status == Running ==> row.leaseOwner == w.table[id].leaseOwner
    ensures HistoryInvariant(v)
  {
    hide Iso, Claims, LastClaim, HistoryOf, TableInvariant, LogInvariant;
    forall other | other in v.table ensures HistoryOf(v, other) {
      assert HistoryOf(w, other);
      UpdateKeepsRow(w, v, id, row, other);
    }
    SameLog(w, v);
  }

  lemma UpdateKeepsRow(w: World, v: World, id: string, row: Row, other: string)
    requires id in w.table && other in w.table && other in w.submitted && HistoryOf(w, other)
    requires v.table == w.table[id := row] && v.log == w.log && v.submitted == w.submitted
    requires row.attempt == w.table[id].attempt && row.task == w.table[id].task
    requires row.status != Queued && w.table[id].status == Running
    requires row.status == Running ==> row.leaseOwner == w.table[id].leaseOwner
    ensures HistoryOf(v, other)
  {
    hide Iso, Claims, LastClaim;
  }

  lemma SameKeepsHistory(w: World, v: World)
    requires HistoryInvariant(w)
    requires v.table == w.table && v.log == w.log && v.submitted == w.submitted && v.inFlight <= w.inFlight
    ensures HistoryInvariant(v)
  {
    hide Iso, Claims, LastClaim;
    forall other | other in v.table ensures HistoryOf(v, other) {
      assert HistoryOf(w, other);
    }
  }

  lemma ExtendKeepsHistory(w: World, id: string, worker: string, now: Instant, lease: int)
    requires HistoryInvariant(w)
    ensures HistoryInvariant(Next(w, Extend(id, worker, now, lease)))
  {
    hide Iso, Claims, LastClaim;
    RenewKeeps(w.table, id, worker, now, lease);
    var v := Next(w, Extend(id, worker, now, lease));
    if Renew(w.table, id, worker, now, lease).result == Ok(true) {
      UpdateKeepsHistory(w, v, id, v.table[id]);
    } else {
      SameKeepsHistory(w, v);
    }
  }

  lemma FinishKeepsHistory(w: World, i: nat, outcome: Outcome)
    requires HistoryInvariant(w)
    ensures HistoryInvariant(Next(w, Finish(i, outcome)))
  {
    hide Iso, Claims, LastClaim;
    var v := Next(w, Finish(i, outcome));
    if !MayFinish(w, i, outcome) || !Owns(w.table, outcome.taskId, w.log[i].worker) {
      SameKeepsHistory(w, v);
    } else {
      CompleteKeeps(w.table, outcome, w.log[i].worker);
      UpdateKeepsHistory(w, v, outcome.taskId, FinishedRow(w.table[outcome.taskId], outcome));
    }
  }

  lemma HandBackKeepsHistory(w: World, i: nat, retry: bool, availableAt: Instant)
    requires HistoryInvariant(w)
    ensures HistoryInvariant(Next(w, HandBack(i, retry, availableAt)))
  {
    hide Iso, Claims, LastClaim;
    var v := Next(w, HandBack(i, retry, availableAt));
    if i !in w.inFlight || !Owns(w.table, w.log[i].taskId, w.log[i].worker) {
      SameKeepsHistory(w, v);
    } else {
      var id := w.log[i].taskId;
      FailKeeps(w.table, id, w.log[i].worker, retry, availableAt);
      UpdateKeepsHistory(w, v, id, ReleasedRow(w.table[id], retry, availableAt));
    }
  }

  lemma NextKeepsHistory(w: World, s: Step)
    requires HistoryInvariant(w)
    ensures HistoryInvariant(Next(w, s))
  {
    hide Iso;
    match s
    case Submit(analyses, task, at) => SubmitKeepsHistory(w, analyses, task, at);
    case Take(worker, now, lease) => TakeKeepsHistory(w, worker, now, lease);
    case Extend(id, worker, now, lease) => ExtendKeepsHistory(w, id, worker, now, lease);
    case Finish(i, outcome) => FinishKeepsHistory(w, i, outcome);
    case HandBack(i, retry, availableAt) => HandBackKeepsHistory(w, i, retry, availableAt);
    case Crash(i) =>
      forall id | id in w.table ensures HistoryOf(Next(w, s), id) { assert HistoryOf(w, id); }
  }

  /** Attempt accounting, in every run: a row is queued iff it was never claimed, and its attempt is
      the attempt it was submitted with plus the number of claims after the first. */
  lemma {:induction false} AttemptAccounting(steps: seq<Step>)
    ensures HistoryInvariant(After(steps))
  {
    if steps != [] {
      AttemptAccounting(steps[..|steps| - 1]);
      NextKeepsHistory(After(steps[..|steps| - 1]), steps[|steps| - 1]);
    }
  }

  // ---- Fencing ----

  /** Whether the same worker name claimed the same task again after ticket i. */
  ghost predicate ClaimedAgain(log: seq<Ticket>, i: nat)
    requires i < |log|
  {
    exists j :: i < j < |log| && log[j].taskId == log[i].taskId && log[j].worker == log[i].worker
  }

  /** The store accepts by worker name only. In every run, whatever the clocks, an accepted report is
      about the row's current attempt exactly when its worker name has not claimed that task again since;
      then its ticket is the task's latest one. */
  lemma AcceptanceIsFresh(steps: seq<Step>, i: nat)
    requires i < |After(steps).log|
    requires Owns(After(steps).table, After(steps).log[i].taskId, After(steps).log[i].worker)
    ensures var w := After(steps); var ticket := w.log[i];
            && (ticket.attempt == w.table[ticket.taskId].attempt <==> !ClaimedAgain(w.log, i))
            && (!ClaimedAgain(w.log, i) <==> forall j :: i < j < |w.log| ==> w.log[j].taskId != ticket.taskId)
  {
    hide After, Iso, HistoryOf, LogInvariant, TableInvariant, ClaimedAgain;
    AttemptAccounting(steps);
    var w := After(steps);
    OwnerClaimedLast(w, i);
    AttemptsCount(w, i);
    LatestTicket(w.log, w.log[i].taskId, i);
  }

  /** The owner's name is the one on the latest ticket. */
  lemma OwnerClaimedLast(w: World, i: nat)
    requires HistoryInvariant(w) && i < |w.log| && Owns(w.table, w.log[i].taskId, w.log[i].worker)
    ensures Claims(w.log, w.log[i].taskId) > 0
    ensures var last := LastClaim(w.log, w.log[i].taskId);
            last >= i && w.log[last].worker == w.log[i].worker && (i < last <==> ClaimedAgain(w.log, i))
  {
    hide Iso, LogInvariant, TableInvariant, Claims, LastClaim;
    assert HistoryOf(w, w.log[i].taskId);
  }

  lemma AttemptsCount(w: World, i: nat)
    requires HistoryInvariant(w) && i < |w.log| && Owns(w.table, w.log[i].taskId, w.log[i].worker)
    ensures var id := w.log[i].taskId;
            w.log[i].attempt == w.table[id].attempt <==> Claims(w.log[..i], id) == Claims(w.log, id) - 1
  {
    hide Iso, TableInvariant, Claims, LastClaim;
    assert HistoryOf(w, w.log[i].taskId);
  }

  /** A ticket is preceded by all other claims of its task exactly when it is the last one. */
  lemma LatestTicket(log: seq<Ticket>, id: string, i: nat)
    requires i < |log| && log[i].taskId == id && Claims(log, id) > 0
    ensures Claims(log[..i], id) == Claims(log, id) - 1 <==> i == LastClaim(log, id)
  {
    hide Claims, LastClaim;
    var last := LastClaim(log, id);
    LastCount(log, id);
    if i < last { ClaimsGrow(log, id, i, last); }
  }

  lemma {:induction false} LastCount(log: seq<Ticket>, id: string)
    requires Claims(log, id) > 0
    ensures Claims(log[..LastClaim(log, id)], id) == Claims(log, id) - 1
  {
    if log[|log| - 1].taskId != id {
      var front := log[..|log| - 1];
      LastCount(front, id);
      assert front[..LastClaim(front, id)] == log[..LastClaim(front, id)];
    }
  }

  /** One claim in flight per worker name, which rounds of one name that run one after the other keep
      (`WorkerProtocol.WholeRound`). */
  ghost predicate OneAtATime(w: World, s: Step) {
    s.Take? ==> forall i :: i in w.inFlight && i < |w.log| ==> w.log[i].worker != s.worker
  }

  ghost predicate Disciplined(steps: seq<Step>) {
    steps == [] ||
    (Disciplined(steps[..|steps| - 1]) && OneAtATime(After(steps[..|steps| - 1]), steps[|steps| - 1]))
  }

  ghost predicate NoneClaimedAgain(w: World) {
    forall i, j :: i in w.inFlight && i < j < |w.log| ==> w.log[j].worker != w.log[i].worker
  }

  ghost predicate OutcomesMatch(t: Table) {
    forall id :: id in t && t[id].outcome.Some? ==> t[id].outcome.value.attempt == t[id].attempt
  }

  lemma NextInFlight(w: World, s: Step)
    requires HistoryInvariant(w) && NoneClaimedAgain(w) && OneAtATime(w, s)
    ensures NoneClaimedAgain(Next(w, s))
  {
    hide Iso, HistoryOf, LogInvariant, Claims;
    if s.Take? && Commits(w.table, s.now, s.lease) {
      TakeWrites(w, s.worker, s.now, s.lease);
    }
  }

  /** With one claim in flight per worker name, no claim in flight is followed by another one under its name. */
  lemma {:induction false} InFlightIsLatest(steps: seq<Step>)
    requires Disciplined(steps)
    ensures NoneClaimedAgain(After(steps))
  {
    if steps != [] {
      var front := steps[..|steps| - 1];
      InFlightIsLatest(front);
      AttemptAccounting(front);
      NextInFlight(After(front), steps[|steps| - 1]);
    }
  }

  /** Fencing: an execution whose report the store would accept holds the task's latest claim. */
  lemma AcceptedTicketIsCurrent(steps: seq<Step>, i: nat)
    requires Disciplined(steps) && i in After(steps).inFlight && i < |After(steps).log|
    requires Owns(After(steps).table, After(steps).log[i].taskId, After(steps).log[i].worker)
    ensures var w := After(steps);
            && w.log[i].attempt == w.table[w.log[i].taskId].attempt
            && forall j :: i < j < |w.log| ==> w.log[j].taskId != w.log[i].taskId
  {
    InFlightIsLatest(steps);
    AcceptanceIsFresh(steps, i);
  }

  /** A completion that is refused or carries the row's attempt keeps the outcomes matching. */
  lemma CompleteKeepsOutcomes(t: Table, outcome: Outcome, worker: string)
    requires OutcomesMatch(t)
    requires Owns(t, outcome.taskId, worker) ==> outcome.attempt == t[outcome.taskId].attempt
    ensures OutcomesMatch(Complete(t, outcome, worker).table)
  {
    hide Iso;
  }

  lemma ClaimKeepsOutcomes(t: Table, worker: string, now: Instant, lease: int)
    requires OutcomesMatch(t) && TableInvariant(t)
    ensures OutcomesMatch(Claim(t, worker, now, lease).table)
  {
    hide Iso;
    forall id | id in t ensures RowInvariant(id, t[id]) {}
  }

  lemma NextOutcomes(steps: seq<Step>, s: Step)
    requires Disciplined(steps) && OutcomesMatch(After(steps).table)
    ensures OutcomesMatch(Next(After(steps), s).table)
  {
    hide Iso, HistoryOf, LogInvariant, Claims, TableInvariant, Complete, Claim, OutcomesMatch, After, Disciplined;
    AttemptAccounting(steps);
    var w := After(steps);
    match s
    case Finish(i, outcome) =>
      if MayFinish(w, i, outcome) {
        if Owns(w.table, outcome.taskId, w.log[i].worker) { AcceptedTicketIsCurrent(steps, i); }
        CompleteKeepsOutcomes(w.table, outcome, w.log[i].worker);
      }
    case Take(worker, now, lease) => ClaimKeepsOutcomes(w.table, worker, now, lease);
    case Submit(analyses, task, at) => EnqueueKeepsOutcomes(w.table, analyses, task, at);
    case Extend(id, worker, now, lease) => RenewKeepsOutcomes(w.table, id, worker, now, lease);
    case HandBack(i, retry, availableAt) =>
      if i < |w.log| { FailKeepsOutcomes(w.table, w.log[i].taskId, w.log[i].worker, retry, availableAt); }
    case Crash(_) =>
  }

  lemma EnqueueKeepsOutcomes(t: Table, analyses: set<string>, task: Task, at: Instant)
    requires OutcomesMatch(t)
    ensures OutcomesMatch(Enqueue(t, analyses, task, at).table)
  {
    hide Iso;
  }

  lemma RenewKeepsOutcomes(t: Table, id: string, worker: string, now: Instant, lease: int)
    requires OutcomesMatch(t)
    ensures OutcomesMatch(Renew(t, id, worker, now, lease).table)
  {
    hide Iso;
  }

  lemma FailKeepsOutcomes(t: Table, id: string, worker: string, retry: bool, availableAt: Instant)
    requires OutcomesMatch(t)
    ensures OutcomesMatch(Fail(t, id, worker, retry, availableAt).table)
  {
    hide Iso;
  }

  /** So every stored outcome carries the attempt of the row it is stored in. */
  lemma {:induction false} StoredOutcomeIsCurrent(steps: seq<Step>)
    requires Disciplined(steps)
    ensures OutcomesMatch(After(steps).table)
  {
    if steps != [] {
      StoredOutcomeIsCurrent(steps[..|steps| - 1]);
      NextOutcomes(steps[..|steps| - 1], steps[|steps| - 1]);
    }
  }

  // ---- Two claims of one task ----

  /** A task is submitted and claimed. */
  lemma FirstClaim(task: Task, worker: string, at: Instant, now: Instant, lease: nat)
    requires ValidTask(task) && at <= now && InRange(now + lease)
    ensures var w := Next(Next(START, Submit({task.analysisId}, task, at)), Take(worker, now, lease));
            && w.table == map[task.taskId := ClaimedRow(FreshRow(task, at), worker, now + lease)]
            && w.log == [Ticket(worker, task.taskId, task.attempt, false)] && w.inFlight == {0}
  {
    hide Iso, Next, NextDue, TicketFor;
    var queued := Next(START, Submit({task.analysisId}, task, at));
    Submitted(task, at);
    TextOrderIsTimeOrder(at, now);
    NextDueUnique(queued.table, Iso(now), task.taskId);
    TakeIs(queued, worker, now, lease, task.taskId);
  }

  lemma Submitted(task: Task, at: Instant)
    requires ValidTask(task)
    ensures Next(START, Submit({task.analysisId}, task, at)).table == map[task.taskId := FreshRow(task, at)]
    ensures Next(START, Submit({task.analysisId}, task, at)).log == []
    ensures Next(START, Submit({task.analysisId}, task, at)).inFlight == {}
  {
    hide Iso;
  }

  /** A claim that picks a row whose task is still within bounds. */
  lemma TakeIs(w: World, worker: string, now: Instant, lease: int, id: string)
    requires InRange(now + lease) && NextDue(w.table, Iso(now)) == Some(id) && ValidTask(w.table[id].task)
    ensures var v, row := Next(w, Take(worker, now, lease)), w.table[id];
            && v.table == w.table[id := ClaimedRow(row, worker, now + lease)]
            && v.log == w.log + [Ticket(worker, id, ClaimedAttempt(row), row.status == Running)]
            && v.inFlight == if 1 <= ClaimedAttempt(row) <= MAX_TASK_ATTEMPT then w.inFlight + {|w.log|} else w.inFlight
  {
    hide Iso, NextDue;
  }

  /** Its lease runs out and it is claimed again. The second claim is in flight unless it was past the last attempt. */
  lemma SecondClaim(task: Task, worker: string, other: string, at: Instant, now: Instant, later: Instant, lease: nat)
    requires ValidTask(task) && at <= now && InRange(later + lease) && now + lease <= later
    ensures var w := After(TwoClaims(task, worker, other, at, now, later, lease));
            var first := ClaimedRow(FreshRow(task, at), worker, now + lease);
            && w.table == map[task.taskId := ClaimedRow(first, other, later + lease)]
            && w.log == [Ticket(worker, task.taskId, task.attempt, false),
                         Ticket(other, task.taskId, task.attempt + 1, true)]
            && w.inFlight == if task.attempt < MAX_TASK_ATTEMPT then {0, 1} else {0}
  {
    hide Iso, Next, NextDue;
    var s0, s1, s2 := Submit({task.analysisId}, task, at), Take(worker, now, lease), Take(other, later, lease);
    FirstClaim(task, worker, at, now, lease);
    var claimed := Next(Next(START, s0), s1);
    TextOrderIsTimeOrder(now + lease, later);
    NextDueUnique(claimed.table, Iso(later), task.taskId);
    TakeIs(claimed, other, later, lease, task.taskId);
    ThreeSteps(s0, s1, s2);
  }

  function TwoClaims(task: Task, worker: string, other: string, at: Instant, now: Instant, later: Instant,
                     lease: nat): seq<Step> {
    [Submit({task.analysisId}, task, at), Take(worker, now, lease), Take(other, later, lease)]
  }

  lemma ThreeSteps(a: Step, b: Step, c: Step)
    ensures After([a, b, c]) == Next(Next(Next(START, a), b), c)
  {
    hide Next;
    assert [a, b, c][..2] == [a, b] && [a, b][..1] == [a] && [a][..0] == [];
    assert After([]) == START && After([a]) == Next(START, a) && After([a, b]) == Next(Next(START, a), b);
  }

  /** The guarantee needs the discipline: when two processes run under one worker name (the default name
      is the same for every process), a reclaim lets the first process store its stale report. */
  lemma SharedNameStoresStaleReport(task: Task, worker: string, at: Instant, now: Instant, later: Instant,
                                    lease: nat, report: Outcome)
    requires 1 <= task.attempt < MAX_TASK_ATTEMPT && at <= now && InRange(later + lease) && now + lease <= later
    requires report.taskId == task.taskId && report.attempt == task.attempt
    ensures var t := After(TwoClaims(task, worker, worker, at, now, later, lease) + [Finish(0, report)]).table;
            && task.taskId in t && t[task.taskId].outcome == Some(report)
            && t[task.taskId].attempt == report.attempt + 1 && !OutcomesMatch(t)
  {
    hide Iso, After, TwoClaims;
    SecondClaim(task, worker, worker, at, now, later, lease);
    AfterOneMore(TwoClaims(task, worker, worker, at, now, later, lease), Finish(0, report));
  }

  lemma AfterOneMore(steps: seq<Step>, s: Step)
    ensures After(steps + [s]) == Next(After(steps), s)
  {
    hide Next;
    assert (steps + [s])[..|steps|] == steps;
  }

  // ---- Past the last attempt ----

  /** A row past the last attempt is running, and no execution can report on it for its owner. */
  ghost predicate OverrunInvariant(w: World) {
    forall id :: id in w.table && w.table[id].attempt > MAX_TASK_ATTEMPT ==>
      && w.table[id].status == Running
      && forall i :: i in w.inFlight && i < |w.log| && w.log[i].taskId == id ==>
        Some(w.log[i].worker) != w.table[id].leaseOwner
  }

  lemma TakeKeepsOverrun(w: World, worker: string, now: Instant, lease: int)
    requires TableInvariant(w.table) && OverrunInvariant(w) && OneAtATime(w, Take(worker, now, lease))
    requires forall i :: i in w.inFlight ==> i < |w.log|
    ensures OverrunInvariant(Next(w, Take(worker, now, lease)))
  {
    hide Iso, Next, NextDue, RowInvariant, TableInvariant;
    if Commits(w.table, now, lease) {
      var id := NextDue(w.table, Iso(now)).value;
      AttemptColumn(w.table, id);
      TakeIs(w, worker, now, lease, id);
      var v := Next(w, Take(worker, now, lease));
      forall other, i | other in v.table && v.table[other].attempt > MAX_TASK_ATTEMPT && i in v.inFlight && i < |v.log|
                        && v.log[i].taskId == other
        ensures Some(v.log[i].worker) != v.table[other].leaseOwner
      {
        if i in w.inFlight { assert v.log[i] == w.log[i]; }
      }
    } else {
      NotTaken(w, worker, now, lease);
    }
  }

  lemma AttemptColumn(t: Table, id: string)
    requires TableInvariant(t) && id in t
    ensures t[id].attempt == t[id].task.attempt && (t[id].status == Queued ==> t[id].attempt <= MAX_TASK_ATTEMPT)
  {
    assert RowInvariant(id, t[id]);
  }

  lemma NotTaken(w: World, worker: string, now: Instant, lease: int)
    requires !Commits(w.table, now, lease)
    ensures Next(w, Take(worker, now, lease)) == w.(clock := now)
  {
    hide Iso, NextDue;
  }

  lemma NextKeepsOverrun(w: World, s: Step)
    requires HistoryInvariant(w) && OverrunInvariant(w) && OneAtATime(w, s)
    ensures OverrunInvariant(Next(w, s))
  {
    hide Iso, HistoryOf, LogInvariant, Claim, RowInvariant;
    if s.Take? { TakeKeepsOverrun(w, s.worker, s.now, s.lease); }
  }

  lemma {:induction false} RunKeepsOverrun(steps: seq<Step>)
    requires Disciplined(steps)
    ensures OverrunInvariant(After(steps))
  {
    if steps != [] {
      var front := steps[..|steps| - 1];
      RunKeepsOverrun(front);
      AttemptAccounting(front);
      NextKeepsOverrun(After(front), steps[|steps| - 1]);
    }
  }

  /** In a disciplined run a row past the last attempt stays running for ever: it is never completed, failed,
      handed back or claimed again, whatever happens. */
  lemma OverrunNeverFinishes(steps: seq<Step>, more: seq<Step>, id: string)
    requires Disciplined(steps + more) && id in After(steps).table
    requires After(steps).table[id].attempt == MAX_TASK_ATTEMPT + 1
    ensures var t := After(steps + more).table;
            && id in t && t[id].attempt == MAX_TASK_ATTEMPT + 1 && t[id].status == Running && t[id].outcome.None?
  {
    hide Iso, After, Disciplined, HistoryOf, LogInvariant, Run, From, OpsAlong;
    RunKeepsOverrun(steps + more);
    AttemptAccounting(steps);
    AttemptAccounting(steps + more);
    AfterConcat(steps, more);
    RunIsOps(After(steps), more);
    IdentityForever(After(steps).table, OpsAlong(After(steps), more), id);
    assert RowInvariant(id, After(steps + more).table[id]);
  }

  /** Such a row is reached: a task submitted at the last attempt whose lease runs out once. From then on, while it
      is due, every claim by anybody is refused and changes nothing. */
  lemma LastAttemptOverruns(task: Task, worker: string, other: string, at: Instant, now: Instant, later: Instant,
                            lease: nat, third: string, much: Instant)
    requires task.attempt == MAX_TASK_ATTEMPT && at <= now && now + lease <= later && later + lease <= much
    requires InRange(much + lease)
    requires worker != other
    ensures var steps := TwoClaims(task, worker, other, at, now, later, lease);
            var t := After(steps).table;
            && Disciplined(steps) && task.taskId in t && t[task.taskId].attempt == MAX_TASK_ATTEMPT + 1
            && Claim(t, third, much, lease) == TaskQueue.Step(t, Err(ValidationError))
  {
    hide Iso, After, NextDue, Claim, OneAtATime;
    SecondClaim(task, worker, other, at, now, later, lease);
    DisciplinedTwoClaims(task, worker, other, at, now, later, lease);
    var t := After(TwoClaims(task, worker, other, at, now, later, lease)).table;
    TextOrderIsTimeOrder(later + lease, much);
    NextDueUnique(t, Iso(much), task.taskId);
    ClaimOf(t, third, much, lease);
  }

  /** Two claims by different names are disciplined. */
  lemma DisciplinedTwoClaims(task: Task, worker: string, other: string, at: Instant, now: Instant, later: Instant,
                             lease: nat)
    requires ValidTask(task) && at <= now && InRange(later + lease) && now + lease <= later && worker != other
    ensures Disciplined(TwoClaims(task, worker, other, at, now, later, lease))
  {
    hide Iso, Next;
    var s0, s1, s2 := Submit({task.analysisId}, task, at), Take(worker, now, lease), Take(other, later, lease);
    Submitted(task, at);
    FirstClaim(task, worker, at, now, lease);
    assert [s0, s1, s2][..2] == [s0, s1] && [s0, s1][..1] == [s0] && [s0][..0] == [];
    assert After([]) == START && After([s0]) == Next(START, s0) && After([s0, s1]) == Next(Next(START, s0), s1);
    assert Disciplined([]) && Disciplined([s0]) && Disciplined([s0, s1]);
  }

  // ---- Submitting again ----

  /** Submitting a task again is answered with the existing row exactly while it has been claimed at
      most once: a second claim rewrites the stored attempt, and the comparison then fails. */
  lemma ResubmissionAccepted(steps: seq<Step>, analyses: set<string>, id: string, at: Instant)
    requires id in After(steps).table
    ensures id in After(steps).submitted
    ensures var w := After(steps);
            var again := Enqueue(w.table, analyses, w.submitted[id], at);
            && again.table == w.table
            && (again.result.Ok? <==> Claims(w.log, id) <= 1)
            && (again.result.Ok? ==> again.result.value == w.table[id])
  {
    hide After, Enqueue, HistoryOf, LogInvariant, TableInvariant, Claims;
    AttemptAccounting(steps);
    ResubmissionOf(After(steps), analyses, id, at);
  }

  lemma ResubmissionOf(w: World, analyses: set<string>, id: string, at: Instant)
    requires HistoryInvariant(w) && id in w.table
    ensures id in w.submitted
    ensures var again := Enqueue(w.table, analyses, w.submitted[id], at);
            && again.table == w.table
            && (again.result.Ok? <==> Claims(w.log, id) <= 1)
            && (again.result.Ok? ==> again.result.value == w.table[id])
  {
    hide Iso, Claims, LastClaim, LogInvariant;
    assert HistoryOf(w, id) && RowInvariant(id, w.table[id]);
  }

  // ---- How often a task can be claimed ----

  /** What WorkerExecutor adds: it hands back for retry only, below its attempt limit, and batches start at 1. */
  ghost predicate WorkerRules(w: World, s: Step, maxAttempts: nat) {
    && OneAtATime(w, s)
    && (s.HandBack? && s.ticket < |w.log| ==> s.retry && w.log[s.ticket].attempt < maxAttempts)
    && (s.Submit? ==> s.task.attempt == 1)
  }

  ghost predicate WorkerRun(steps: seq<Step>, maxAttempts: nat) {
    steps == [] ||
    (WorkerRun(steps[..|steps| - 1], maxAttempts) &&
     WorkerRules(After(steps[..|steps| - 1]), steps[|steps| - 1], maxAttempts))
  }

  lemma {:induction false} WorkerRunDisciplined(steps: seq<Step>, maxAttempts: nat)
    requires WorkerRun(steps, maxAttempts)
    ensures Disciplined(steps)
  {
    if steps != [] { WorkerRunDisciplined(steps[..|steps| - 1], maxAttempts); }
  }

  ghost predicate ClaimBudget(w: World, maxAttempts: nat, id: string)
    requires id in w.table && id in w.submitted
  {
    && w.submitted[id].attempt == 1
    && (w.table[id].status == Retry ==> w.table[id].attempt < maxAttempts)
    && w.table[id].attempt <= maxAttempts + Reclaims(w.log, id)
  }

  ghost predicate Budgeted(w: World, maxAttempts: nat) {
    w.table.Keys == w.submitted.Keys && forall id :: id in w.table ==> ClaimBudget(w, maxAttempts, id)
  }

  lemma TakeKeepsBudget(w: World, worker: string, now: Instant, lease: int, maxAttempts: nat)
    requires HistoryInvariant(w) && Budgeted(w, maxAttempts) && maxAttempts >= 1 && Commits(w.table, now, lease)
    ensures Budgeted(Next(w, Take(worker, now, lease)), maxAttempts)
  {
    hide Iso, Claims, LastClaim, Next, Claim, NextDue, TicketFor, Reclaims;
    TakeWrites(w, worker, now, lease);
    var v, ticket := Next(w, Take(worker, now, lease)), TicketFor(w.table, worker, now);
    forall id | id in v.table ensures ClaimBudget(v, maxAttempts, id) {
      assert ClaimBudget(w, maxAttempts, id) && HistoryOf(w, id);
      ClaimsSnoc(w.log, ticket, id);
    }
  }

  lemma HandBackKeepsBudget(steps: seq<Step>, i: nat, availableAt: Instant, maxAttempts: nat)
    requires Disciplined(steps) && Budgeted(After(steps), maxAttempts)
    requires i < |After(steps).log| && After(steps).log[i].attempt < maxAttempts
    ensures Budgeted(Next(After(steps), HandBack(i, true, availableAt)), maxAttempts)
  {
    hide Iso, Reclaims, Disciplined, After;
    var w := After(steps);
    if i in w.inFlight && Owns(w.table, w.log[i].taskId, w.log[i].worker) {
      AcceptedTicketIsCurrent(steps, i);
    }
    var v := Next(w, HandBack(i, true, availableAt));
    forall id | id in v.table ensures ClaimBudget(v, maxAttempts, id) { assert ClaimBudget(w, maxAttempts, id); }
  }

  lemma OtherKeepsBudget(w: World, s: Step, maxAttempts: nat)
    requires Budgeted(w, maxAttempts) && maxAttempts >= 1
    requires s.Submit? ==> s.task.attempt == 1
    requires !s.HandBack? && (s.Take? ==> !Commits(w.table, s.now, s.lease))
    ensures Budgeted(Next(w, s), maxAttempts)
  {
    hide Iso, Reclaims;
    var v := Next(w, s);
    forall id | id in v.table ensures id in v.submitted && ClaimBudget(v, maxAttempts, id) {
      assert id in w.table ==> ClaimBudget(w, maxAttempts, id);
    }
  }

  lemma NextKeepsBudget(steps: seq<Step>, s: Step, maxAttempts: nat)
    requires Disciplined(steps) && maxAttempts >= 1
    requires Budgeted(After(steps), maxAttempts) && WorkerRules(After(steps), s, maxAttempts)
    ensures Budgeted(Next(After(steps), s), maxAttempts)
  {
    hide Iso, Budgeted, HistoryInvariant, Disciplined, After;
    var w := After(steps);
    AttemptAccounting(steps);
    if s.Take? && Commits(w.table, s.now, s.lease) {
      TakeKeepsBudget(w, s.worker, s.now, s.lease, maxAttempts);
    } else if s.HandBack? {
      if s.ticket < |w.log| { HandBackKeepsBudget(steps, s.ticket, s.availableAt, maxAttempts); }
    } else {
      OtherKeepsBudget(w, s, maxAttempts);
    }
  }

  lemma {:induction false} RunKeepsBudget(steps: seq<Step>, maxAttempts: nat)
    requires WorkerRun(steps, maxAttempts) && maxAttempts >= 1
    ensures Budgeted(After(steps), maxAttempts)
  {
    if steps != [] {
      var front := steps[..|steps| - 1];
      RunKeepsBudget(front, maxAttempts);
      WorkerRunDisciplined(front, maxAttempts);
      NextKeepsBudget(front, steps[|steps| - 1], maxAttempts);
    }
  }

  /** Under the worker's rules a task is claimed at most maxAttempts times plus once per lease expiry. */
  lemma ClaimsBounded(steps: seq<Step>, maxAttempts: nat, id: string)
    requires WorkerRun(steps, maxAttempts) && maxAttempts >= 1 && id in After(steps).table
    ensures Claims(After(steps).log, id) <= maxAttempts + Reclaims(After(steps).log, id)
  {
    RunKeepsBudget(steps, maxAttempts);
    AttemptAccounting(steps);
    assert HistoryOf(After(steps), id) && ClaimBudget(After(steps), maxAttempts, id);
  }

  // ---- Lease exclusion ----

  /** A running row's expiry is the one its owner was last granted, by a claim or a renewal. */
  ghost predicate GrantsRecorded(w: World) {
    forall id :: id in w.table && w.table[id].status == Running ==>
      && w.table[id].leaseOwner.Some? && (w.table[id].leaseOwner.value, id) in w.views
      && w.table[id].leaseExpiresAt == Some(Iso(w.views[(w.table[id].leaseOwner.value, id)]))
  }

  lemma TakeKeepsGrants(w: World, worker: string, now: Instant, lease: int)
    requires GrantsRecorded(w) && Commits(w.table, now, lease)
    ensures GrantsRecorded(Next(w, Take(worker, now, lease)))
  {
    hide Iso, Next, NextDue;
    TakeWrites(w, worker, now, lease);
  }

  lemma NextKeepsGrants(w: World, s: Step)
    requires GrantsRecorded(w)
    ensures GrantsRecorded(Next(w, s))
  {
    hide Iso;
    if s.Take? && Commits(w.table, s.now, s.lease) {
      TakeKeepsGrants(w, s.worker, s.now, s.lease);
    }
  }

  lemma {:induction false} RunKeepsGrants(steps: seq<Step>)
    ensures GrantsRecorded(After(steps))
  {
    if steps != [] {
      RunKeepsGrants(steps[..|steps| - 1]);
      NextKeepsGrants(After(steps[..|steps| - 1]), steps[|steps| - 1]);
    }
  }

  /** Step p hands the task back for retry: its ticket's worker owns the row, and the task is not claimed afterwards. */
  ghost predicate HandedBackAt(steps: seq<Step>, p: nat, id: string) {
    && p < |steps| && steps[p].HandBack? && steps[p].retry
    && var w, log := After(steps[..p]), After(steps).log;
       && steps[p].ticket in w.inFlight && steps[p].ticket < |w.log| <= |log|
       && w.log[steps[p].ticket].taskId == id && Owns(w.table, id, w.log[steps[p].ticket].worker)
       && forall j :: |w.log| <= j < |log| ==> log[j].taskId != id
  }

  /** A row is handed back by a step, or was before it, and the step does not claim it. */
  lemma RetryComesFrom(w: World, s: Step, id: string)
    requires id in Next(w, s).table && Next(w, s).table[id].status == Retry
    ensures || (&& s.HandBack? && s.retry && s.ticket in w.inFlight && s.ticket < |w.log|
                && w.log[s.ticket].taskId == id && Owns(w.table, id, w.log[s.ticket].worker) && Next(w, s).log == w.log)
            || (&& id in w.table && w.table[id].status == Retry && w.log <= Next(w, s).log
                && forall j :: |w.log| <= j < |Next(w, s).log| ==> Next(w, s).log[j].taskId != id)
  {
    hide Iso, NextDue;
    if s.Take? && Commits(w.table, s.now, s.lease) { TakeWrites(w, s.worker, s.now, s.lease); }
  }

  lemma {:induction false} RetryWasHandedBack(steps: seq<Step>, id: string)
    requires id in After(steps).table && After(steps).table[id].status == Retry
    ensures exists p: nat :: HandedBackAt(steps, p, id)
  {
    hide Next, Iso;
    if steps == [] {
      assert false;
    } else {
      var n := |steps| - 1;
      var front, s := steps[..n], steps[n];
      RetryComesFrom(After(front), s, id);
      if id in After(front).table && After(front).table[id].status == Retry && After(front).log <= After(steps).log
         && forall j :: |After(front).log| <= j < |After(steps).log| ==> After(steps).log[j].taskId != id {
        RetryWasHandedBack(front, id);
        var p: nat :| HandedBackAt(front, p, id);
        assert front[..p] == steps[..p];
        assert HandedBackAt(steps, p, id);
      } else {
        assert HandedBackAt(steps, n, id);
      }
    }
  }

  /** Whatever the clocks: a task that was claimed before is claimed again only after a step that lies behind its
      last claim handed it back for retry, or no earlier than the expiry its current owner was last granted. */
  lemma SuccessiveClaims(steps: seq<Step>, now: Instant, lease: int)
    requires Commits(After(steps).table, now, lease)
    ensures var w := After(steps); var id := NextDue(w.table, Iso(now)).value;
            Claims(w.log, id) > 0 ==>
              || (w.table[id].status == Retry && exists p: nat :: HandedBackAt(steps, p, id))
              || (w.table[id].status == Running && w.table[id].leaseOwner.Some?
                  && (w.table[id].leaseOwner.value, id) in w.views &&
                    w.views[(w.table[id].leaseOwner.value, id)] <= now)
  {
    hide After, Iso, NextDue, LogInvariant, Claims, HandedBackAt;
    var w := After(steps);
    var id := NextDue(w.table, Iso(now)).value;
    AttemptAccounting(steps);
    RunKeepsGrants(steps);
    assert HistoryOf(w, id);
    if w.table[id].status == Running {
      ReclaimWaitsForExpiry(w.table, now, id, w.views[(w.table[id].leaseOwner.value, id)]);
    } else if w.table[id].status == Retry {
      RetryWasHandedBack(steps, id);
    }
  }

  /** Clock readings of claims and renewals never go back. */
  ghost predicate Monotone(steps: seq<Step>) {
    steps == [] ||
    var front, s := After(steps[..|steps| - 1]), steps[|steps| - 1];
    && Monotone(steps[..|steps| - 1])
    && (s.Take? || s.Extend? ==> front.clock <= s.now)
  }

  /** A worker believes it holds the task until the expiry it was last granted. */
  ghost predicate Holds(w: World, worker: string, id: string) {
    (worker, id) in w.views && w.clock < w.views[(worker, id)]
  }

  ghost predicate ViewsInvariant(w: World) {
    forall worker, id :: Holds(w, worker, id) ==>
      Owns(w.table, id, worker) && w.table[id].leaseExpiresAt == Some(Iso(w.views[(worker, id)]))
  }

  lemma TakeKeepsViews(w: World, worker: string, now: Instant, lease: int)
    requires ViewsInvariant(w) && w.clock <= now && Commits(w.table, now, lease)
    ensures ViewsInvariant(Next(w, Take(worker, now, lease)))
  {
    hide Iso, Next;
    TakeWrites(w, worker, now, lease);
    var v, ticket := Next(w, Take(worker, now, lease)), NextDue(w.table, Iso(now)).value;
    forall other, id | Holds(v, other, id)
      ensures Owns(v.table, id, other) && v.table[id].leaseExpiresAt == Some(Iso(v.views[(other, id)]))
    {
      if (other, id) != (worker, ticket) {
        assert Holds(w, other, id);
        if id == ticket { ReclaimWaitsForExpiry(w.table, now, id, w.views[(other, id)]); }
      }
    }
  }

  lemma NextKeepsViews(w: World, s: Step)
    requires ViewsInvariant(w) && (s.Take? || s.Extend? ==> w.clock <= s.now)
    ensures ViewsInvariant(Next(w, s))
  {
    hide Iso;
    var v := Next(w, s);
    if s.Take? && Commits(w.table, s.now, s.lease) {
      TakeKeepsViews(w, s.worker, s.now, s.lease);
    } else {
      forall worker, id | Holds(v, worker, id)
        ensures Owns(v.table, id, worker) && v.table[id].leaseExpiresAt == Some(Iso(v.views[(worker, id)]))
      {
        assert (s.Extend? && (worker, id) == (s.worker, s.id)) || Holds(w, worker, id);
      }
    }
  }

  lemma {:induction false} RunKeepsViews(steps: seq<Step>)
    requires Monotone(steps)
    ensures ViewsInvariant(After(steps))
  {
    if steps != [] {
      RunKeepsViews(steps[..|steps| - 1]);
      NextKeepsViews(After(steps[..|steps| - 1]), steps[|steps| - 1]);
    }
  }

  /** Under a monotone clock no two workers hold unexpired leases on one task. */
  lemma LeaseExclusion(steps: seq<Step>, a: string, b: string, id: string)
    requires Monotone(steps) && Holds(After(steps), a, id) && Holds(After(steps), b, id)
    ensures a == b
  {
    RunKeepsViews(steps);
  }
}
