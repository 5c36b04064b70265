/** The store object: its tables are fields that each call updates in place (persistence/sqlite.py). */
module Persistence {
  import opened Wrappers
  import opened Ordering
  import opened Timestamps
  import opened Contracts
  import opened TaskQueue
  import ResultStore

  class SQLitePersistence {
    var tasks: Table
    var repositories: map<string, ResultStore.RepositoryRow>
    var analyses: map<string, ResultStore.AnalysisRow>

    constructor ()
      ensures tasks == map[] && Results() == ResultStore.Store(map[], map[])
    {
      tasks := map[];
      repositories := map[];
      analyses := map[];
    }

    /** The result tables as one value. */
    function Results(): ResultStore.Store
      reads this
    {
      ResultStore.Store(repositories, analyses)
    }

    /** The creation time of a known repository is read, and written again. */
    method RegisterRepository(repository: ResultStore.Repository, now: Instant) returns (r: Result<()>)
      requires ResultStore.StoreInvariant(Results())
      modifies this`repositories
      ensures r.Err? <==> ResultStore.RepositoryConflict(old(Results()), repository)
      ensures r.Err? ==> r.error == IdempotencyConflict && repositories == old(repositories)
      ensures r.Ok? ==> Results() == ResultStore.Register(old(Results()), repository, now)
    {
      hide Iso, Parse;
      var createdAt := now;
      if repository.id in repositories {
        Rewritten(repositories[repository.id].createdAt);
        createdAt := Parse(repositories[repository.id].createdAt).value;
        if repositories[repository.id].repository != repository { return Err(IdempotencyConflict); }
      }
      repositories := repositories[repository.id := ResultStore.RepositoryRow(repository, Iso(createdAt))];
      r := Ok(());
    }

    method CreateAnalysis(request: ResultStore.Request, now: ResultStore.Readings)
      returns (r: Result<ResultStore.AnalysisRow>)
      requires ResultStore.StoreInvariant(Results())
      modifies this`repositories, this`analyses
      ensures ResultStore.StoreStep(Results(), r) == ResultStore.Create(old(Results()), request, now)
      ensures ResultStore.StoreInvariant(Results())
    {
      hide Iso;
      ghost var before := Results();
      ResultStore.ApplyKeepsStore(before, ResultStore.CreateOp(request, now));
      var registered := RegisterRepository(request.repository, now.registered);
      if registered.Err? { return Err(IdempotencyConflict); }
      var key := ResultStore.KeyOf(request);
      if id :| id in analyses && analyses[id].idempotencyKey == key {
        assert ResultStore.HasKey(before, key, id);
        assert forall other :: ResultStore.HasKey(before, key, other) ==> other == id;
        if analyses[id].envelope.request != request { return Err(IdempotencyConflict); }
        return Ok(analyses[id]);
      }
      assert forall id :: !ResultStore.HasKey(before, key, id);
      if request.analysisId in analyses { return Err(IntegrityError); }
      var row := ResultStore.NewRow(request, now.created);
      analyses := analyses[request.analysisId := row];
      r := Ok(row);
    }

    method CommitEnvelope(e: ResultStore.Envelope) returns (r: Result<ResultStore.AnalysisRow>)
      requires ResultStore.StoreInvariant(Results()) && ResultStore.ValidEnvelope(e)
      modifies this`analyses
      ensures ResultStore.StoreStep(Results(), r) == ResultStore.Commit(old(Results()), e)
      ensures ResultStore.StoreInvariant(Results())
    {
      hide Iso;
      ResultStore.ApplyKeepsStore(Results(), ResultStore.CommitOp(e));
      if e.analysisId !in analyses { return Err(KeyError); }
      var existing := analyses[e.analysisId];
      if existing.envelope.request != e.request || existing.envelope.idempotencyKey != e.idempotencyKey {
        return Err(IdempotencyConflict);
      }
      if existing.envelope.score.Some? {
        if !ResultStore.SameResult(existing.envelope, e) { return Err(ImmutableResultConflict); }
        return Ok(existing);
      }
      var row := ResultStore.CommittedRow(existing, e);
      analyses := analyses[e.analysisId := row];
      r := Ok(row);
    }

    /** Whatever others do to the result tables between two calls of this one. */
    method OthersWork(calls: seq<ResultStore.StoreOp>)
      requires ResultStore.StoreInvariant(Results())
      modifies this`repositories, this`analyses
      ensures Results() == ResultStore.Run(old(Results()), calls)
      ensures ResultStore.StoreInvariant(Results())
    {
      hide ResultStore.StoreInvariant, ResultStore.Create, ResultStore.Commit;
      for i := 0 to |calls|
        invariant ResultStore.StoreInvariant(Results())
        invariant ResultStore.Run(Results(), calls[i..]) == ResultStore.Run(old(Results()), calls)
      {
        assert calls[i..][0] == calls[i] && calls[i..][1..] == calls[i + 1..];
        match calls[i]
        case CreateOp(request, now) => var _ := CreateAnalysis(request, now);
        case CommitOp(e) => if ResultStore.ValidEnvelope(e) { var _ := CommitEnvelope(e); }
      }
    }

    method EnqueueTask(task: Task, now: Instant) returns (r: Result<Row>)
      requires ValidTask(task) && TableInvariant(tasks)
      modifies this`tasks
      ensures Step(tasks, r) == Enqueue(old(tasks), analyses.Keys, task, now)
      ensures TableInvariant(tasks)
    {
      hide Iso;
      EnqueueKeeps(tasks, analyses.Keys, task, now);
      if task.taskId in tasks {
        var existing := Record(tasks[task.taskId]);
        if existing.Ok? && existing.value.task != task { return Err(IdempotencyConflict); }
        return existing;
      }
      if task.analysisId !in analyses { return Err(IntegrityError); }
      tasks := tasks[task.taskId := FreshRow(task, now)];
      r := Ok(FreshRow(task, now));
    }

    /** The claim's query: least of the due rows, all comparisons on column texts. */
    method SelectDue(text: string) returns (r: Option<string>)
      ensures r == NextDue(tasks, text)
    {
      hide Iso;
      var due := set id | id in tasks && Due(tasks[id], text);
      if due == {} {
        assert forall id :: id in tasks && Due(tasks[id], text) ==> id in due;
        return None;
      }
      assert exists id :: id in due && forall other :: other in due && other != id ==>
        KeyLess(ClaimOrder(id, tasks[id]), ClaimOrder(other, tasks[other])) by
      {
        var id := NextDue(tasks, text).value;
        assert id in due;
      }
      var id :| id in due && forall other :: other in due && other != id ==>
        KeyLess(ClaimOrder(id, tasks[id]), ClaimOrder(other, tasks[other]));
      NextDueUnique(tasks, text, id);
      r := Some(id);
    }

    method ClaimTask(worker: string, now: Instant, lease: int) returns (r: Result<Option<Row>>)
      requires TableInvariant(tasks)
      modifies this`tasks
      ensures Step(tasks, r) == Claim(old(tasks), worker, now, lease)
      ensures TableInvariant(tasks)
    {
      hide Iso, TableInvariant;
      ClaimKeeps(tasks, worker, now, lease);
      if !InRange(now + lease) { return Err(OverflowError); }
      var until: Instant := now + lease;
      var selected := SelectDue(Iso(now));
      if selected.None? { return Ok(None); }
      var id := selected.value;
      var row := tasks[id];
      if !ValidTask(row.task) { return Err(ValidationError); }
      var attempt := row.attempt;
      if row.status == Retry || row.status == Running { attempt := attempt + 1; }
      var task := row.task.(attempt := attempt);
      tasks := tasks[id := row.(status := Running, attempt := attempt, task := task,
                                leaseOwner := Some(worker), leaseExpiresAt := Some(Iso(until)))];
      var refreshed := Record(tasks[id]);
      match refreshed
      case Ok(record) => r := Ok(Some(record));
      case Err(e) => r := Err(e);
    }

    method RenewTask(id: string, worker: string, now: Instant, lease: int) returns (r: Result<bool>)
      requires TableInvariant(tasks)
      modifies this`tasks
      ensures Step(tasks, r) == Renew(old(tasks), id, worker, now, lease)
      ensures TableInvariant(tasks)
    {
      hide Iso;
      RenewKeeps(tasks, id, worker, now, lease);
      if lease <= 0 { return Err(ValueError); }
      if !InRange(now + lease) { return Err(OverflowError); }
      var until: Instant := now + lease;
      if id !in tasks || tasks[id].status != Running || tasks[id].leaseOwner != Some(worker) { return Ok(false); }
      tasks := tasks[id := tasks[id].(leaseExpiresAt := Some(Iso(until)))];
      r := Ok(true);
    }

    method CompleteTask(outcome: Outcome, worker: string) returns (r: Result<Row>)
      requires TableInvariant(tasks)
      modifies this`tasks
      ensures Step(tasks, r) == Complete(old(tasks), outcome, worker)
      ensures TableInvariant(tasks)
    {
      hide Iso;
      CompleteKeeps(tasks, outcome, worker);
      var id := outcome.taskId;
      if id !in tasks { return Err(KeyError); }
      var row := tasks[id];
      if row.status == Completed {
        var existing := Record(row);
        if existing.Ok? && row.outcome != Some(outcome) { return Err(ImmutableResultConflict); }
        return existing;
      }
      if row.status != Running || row.leaseOwner != Some(worker) { return Err(LeaseOwnershipError); }
      var terminal := if outcome.state.StateCompleted? then Completed else Failed;
      tasks := tasks[id := row.(status := terminal, outcome := Some(outcome), leaseOwner := None,
                                leaseExpiresAt := None)];
      r := Record(tasks[id]);
    }

    method FailTask(id: string, worker: string, retry: bool, availableAt: Instant) returns (r: Result<()>)
      requires TableInvariant(tasks)
      modifies this`tasks
      ensures Step(tasks, r) == Fail(old(tasks), id, worker, retry, availableAt)
      ensures TableInvariant(tasks)
    {
      hide Iso;
      FailKeeps(tasks, id, worker, retry, availableAt);
      if id !in tasks { return Err(KeyError); }
      var row := tasks[id];
      if row.status == Completed { return Err(ImmutableResultConflict); }
      if row.status != Running || row.leaseOwner != Some(worker) { return Err(LeaseOwnershipError); }
      var status := if retry then Retry else Failed;
      tasks := tasks[id := row.(status := status, availableAt := Iso(availableAt), leaseOwner := None,
                                leaseExpiresAt := None)];
      r := Ok(());
    }

    /** Whatever other processes do to the queue between two calls of this one. */
    method Interference(calls: seq<Op>)
      requires TableInvariant(tasks)
      modifies this`tasks
      ensures tasks == Run(old(tasks), calls)
      ensures TableInvariant(tasks)
    {
      RunKeepsInvariant(tasks, calls);
      tasks := Run(tasks, calls);
    }
  }
}
