/** Running one analyzer task with failures contained, and the result cache (execution/local.py). */
module LocalExecutor {
  import opened Wrappers
  import opened Ordering
  import opened SortedDict
  import opened Timestamps
  import opened Contracts

  /** What calling an analyzer can come to. */
  datatype Reply = Returned(result: CategoryResult) | TimedOut | Transient | Raised

  /** The part of an outcome that the execution decides. */
  datatype Verdict = Verdict(state: ExecutionState, result: CategoryResult, retryable: bool,
                             failureKind: Option<string>)

  function FailureResult(task: Task, reason: string, kind: string): CategoryResult {
    CategoryResult(task.analysisId, task.analyzerId, task.category, ERROR, None, kind + ": " + reason)
  }

  predicate ForTask(result: CategoryResult, task: Task) {
    result.analysisId == task.analysisId && result.analyzerId == task.analyzerId && result.category == task.category
  }

  function Failure(task: Task, state: ExecutionState, reason: string, kind: string, retryable: bool,
                   failureKind: string): Verdict {
    Verdict(state, FailureResult(task, reason, kind), retryable, Some(failureKind))
  }

  function Completion(result: CategoryResult): Verdict {
    if result.status == ERROR then Verdict(StateFailed, result, false, Some("analyzer_error"))
    else Verdict(StateCompleted, result, false, None)
  }

  /** The verdict on an analyzer's reply. */
  function Judge(task: Task, reply: Reply): Verdict {
    match reply
    case Returned(result) =>
      if ForTask(result, task) then Completion(result)
      else Failure(task, StateFailed, "analyzer execution failed", "error", false, "error")
    case TimedOut => Failure(task, StateTimeout, "analyzer execution timed out", "timeout", true, "timeout")
    case Transient => Failure(task, StateFailed, "transient analyzer failure", "error", true, "transient")
    case Raised => Failure(task, StateFailed, "analyzer execution failed", "error", false, "error")
  }

  predicate OverLimits(task: Task) {
    task.factsSize > task.maxBytes || task.observations > task.maxFiles
  }

  /** The verdict of an executor that has no cache. */
  function Uncached(analyzers: set<string>, task: Task, reply: Reply): Verdict {
    if task.analyzerId !in analyzers then
      Failure(task, StateFailed, "analyzer factory unavailable", "unsupported", false, "unsupported")
    else if OverLimits(task) then
      Failure(task, StateFailed, "resource limit exceeded", "resource_limit", false, "resource_limit")
    else Judge(task, reply)
  }

  function OutcomeOf(task: Task, v: Verdict, started: Instant, finished: Instant): Outcome {
    Outcome(task.taskId, task.analysisId, v.state, v.result, task.attempt, v.retryable, v.failureKind, started,
            finished)
  }

  /** What each reply is made of, without a cache. Only timeouts and transient failures may be retried, a failure is
      reported as an error result of the task without a score, and a result is passed on as it is. */
  lemma VerdictsByReply(analyzers: set<string>, task: Task, reply: Reply)
    ensures var v := Uncached(analyzers, task, reply);
            if task.analyzerId !in analyzers then FailsAs(v, task, StateFailed, false, "unsupported")
            else if task.factsSize > task.maxBytes || task.observations > task.maxFiles
            then FailsAs(v, task, StateFailed, false, "resource_limit")
            else match reply
              case TimedOut => FailsAs(v, task, StateTimeout, true, "timeout")
              case Transient => FailsAs(v, task, StateFailed, true, "transient")
              case Raised => FailsAs(v, task, StateFailed, false, "error")
              case Returned(result) =>
                if result.analysisId != task.analysisId || result.analyzerId != task.analyzerId ||
                   result.category != task.category
                then FailsAs(v, task, StateFailed, false, "error")
                else v.result == result && !v.retryable &&
                     if result.status == ERROR then v.state == StateFailed && v.failureKind == Some("analyzer_error")
                     else v.state == StateCompleted && v.failureKind == None
  {}

  predicate FailsAs(v: Verdict, task: Task, state: ExecutionState, retryable: bool, kind: string) {
    && v.state == state && v.retryable == retryable && v.failureKind == Some(kind)
    && v.result.analysisId == task.analysisId && v.result.analyzerId == task.analyzerId
    && v.result.category == task.category && v.result.status == ERROR && v.result.score.None?
  }

  /** An outcome carries its task's ids and attempt, the verdict, and the two clock readings. */
  lemma OutcomeFields(task: Task, v: Verdict, started: Instant, finished: Instant)
    ensures var o := OutcomeOf(task, v, started, finished);
            && (o.taskId, o.analysisId, o.attempt) == (task.taskId, task.analysisId, task.attempt)
            && (o.state, o.result, o.retryable, o.failureKind) == (v.state, v.result, v.retryable, v.failureKind)
            && o.startedAt == started && o.finishedAt == finished
  {}

  function ByAnalyzer(): Task -> Key {
    (task: Task) => [task.analyzerId]
  }

  /** The order of a batch: the same tasks by analyzer id, those of one analyzer as they were given. */
  lemma BatchOrder(tasks: seq<Task>)
    ensures var ordered := SortBy(tasks, ByAnalyzer());
            && multiset(ordered) == multiset(tasks) && |ordered| == |tasks|
            && (forall i, j :: 0 <= i < j < |ordered| ==> !StrLess(ordered[j].analyzerId, ordered[i].analyzerId))
            && forall id :: WithKey(ordered, ByAnalyzer(), [id]) == WithKey(tasks, ByAnalyzer(), [id])
  {
    hide KeyLess, StrLess, SortBy, WithKey;
    var ordered := SortBy(tasks, ByAnalyzer());
    SortBySorts(tasks, ByAnalyzer());
    forall i, j | 0 <= i < j < |ordered| ensures !StrLess(ordered[j].analyzerId, ordered[i].analyzerId) {
      TupleLess(ByAnalyzer()(ordered[j]), ByAnalyzer()(ordered[i]));
    }
    forall id ensures WithKey(ordered, ByAnalyzer(), [id]) == WithKey(tasks, ByAnalyzer(), [id]) {
      SortIsStable(tasks, ByAnalyzer(), [id]);
    }
  }

  class LocalExecutor {
    const analyzers: set<string>
    /** The reply of the n-th call, for an analyzer and an input. */
    const invoke: (nat, string, string) -> Reply
    /** What every call would reply if replies did not depend on the moment. */
    ghost const steady: (string, string) -> Reply
    var calls: nat
    /** Results by task digest; the digest covers the whole task, its attempt included. */
    var cache: map<Task, CategoryResult>

    constructor (analyzers: set<string>, invoke: (nat, string, string) -> Reply,
                 ghost steady: (string, string) -> Reply)
      ensures this.analyzers == analyzers && this.invoke == invoke && this.steady == steady
      ensures cache == map[] && CacheIsOwn() && CacheIsSteady()
    {
      this.analyzers := analyzers;
      this.invoke := invoke;
      this.steady := steady;
      calls := 0;
      cache := map[];
    }

    /** Replies are a function of analyzer and input. */
    ghost predicate Steady() {
      forall n, analyzer, input :: invoke(n, analyzer, input) == steady(analyzer, input)
    }

    /** No call ever times out or fails transiently. */
    ghost predicate Dependable() {
      forall n, analyzer, input :: !invoke(n, analyzer, input).TimedOut? && !invoke(n, analyzer, input).Transient?
    }

    /** Every cached result is its own task's, and a success. */
    ghost predicate CacheIsOwn()
      reads this
    {
      forall task :: task in cache ==> ForTask(cache[task], task) && cache[task].status != ERROR
    }

    ghost function Expected(task: Task): Verdict {
      Uncached(analyzers, task, steady(task.analyzerId, task.input))
    }

    /** Every cached result is what running the task would give. */
    ghost predicate CacheIsSteady()
      reads this
    {
      forall task :: task in cache ==> Expected(task) == Verdict(StateCompleted, cache[task], false, None)
    }

    /** What is settled before the analyzer is called, if anything: a cache hit, an unknown analyzer, a limit. A cache
        handed in from outside may hold another task's result; the outcome contract then refuses it. */
    method Open(task: Task) returns (early: Option<Result<Verdict>>)
      ensures early.None? ==> task.analyzerId in analyzers && !OverLimits(task)
      ensures early.Some? && early.value.Err? ==>
                early.value.error == ValidationError && task in cache && cache[task].analysisId != task.analysisId
      ensures early.Some? && early.value.Ok? ==> !early.value.value.retryable
      ensures CacheIsOwn() && early.Some? ==> early.value.Ok? && ForTask(early.value.value.result, task)
      ensures CacheIsOwn() && CacheIsSteady() && early.Some? ==> early.value == Ok(Expected(task))
    {
      if task in cache {
        if cache[task].analysisId != task.analysisId { return Some(Err(ValidationError)); }
        return Some(Ok(Verdict(StateCompleted, cache[task], false, None)));
      }
      if task.analyzerId !in analyzers {
        return Some(Ok(Failure(task, StateFailed, "analyzer factory unavailable", "unsupported", false,
                               "unsupported")));
      }
      if OverLimits(task) {
        return Some(Ok(Failure(task, StateFailed, "resource limit exceeded", "resource_limit", false,
                               "resource_limit")));
      }
      early := None;
    }

    /** The analyzer's reply arrives: it is judged, and a success is cached. */
    method Close(task: Task) returns (v: Verdict)
      requires task.analyzerId in analyzers && !OverLimits(task)
      modifies this`calls, this`cache
      ensures ForTask(v.result, task) && (v.retryable ==> !v.state.StateCompleted?) && (Dependable() ==> !v.retryable)
      ensures old(CacheIsOwn()) ==> CacheIsOwn()
      ensures Steady() ==> v == Expected(task) && (old(CacheIsSteady()) ==> CacheIsSteady())
    {
      var reply := invoke(calls, task.analyzerId, task.input);
      calls := calls + 1;
      v := Judge(task, reply);
      if v.state == StateCompleted {
        cache := cache[task := v.result];
      }
    }

    /** `execute`, one task from start to end. */
    method Execute(task: Task, started: Instant, finished: Instant) returns (r: Result<Outcome>)
      modifies this`calls, this`cache
      ensures r.Err? ==>
                r.error == ValidationError && task in old(cache) && old(cache)[task].analysisId != task.analysisId &&
                  cache == old(cache)
      ensures old(CacheIsOwn()) ==> CacheIsOwn() && r.Ok? && ForTask(r.value.result, task)
      ensures r.Ok? ==>
                && r.value.taskId == task.taskId && r.value.analysisId == task.analysisId
                && r.value.attempt == task.attempt
      ensures r.Ok? && r.value.retryable ==> !r.value.state.StateCompleted?
      ensures r.Ok? && Dependable() ==> !r.value.retryable
      ensures Steady() && old(CacheIsSteady()) ==> CacheIsSteady()
      ensures Steady() && old(CacheIsSteady()) && old(CacheIsOwn()) ==>
                r == Ok(OutcomeOf(task, Expected(task), started, finished))
    {
      hide Judge, Failure, Completion;
      var early := Open(task);
      if early.Some? {
        match early.value
        case Ok(v) => return Ok(OutcomeOf(task, v, started, finished));
        case Err(e) => return Err(e);
      }
      var v := Close(task);
      r := Ok(OutcomeOf(task, v, started, finished));
    }

    /** The outcome of a task that starts, or the error outcome an escaped exception becomes. */
    function Settled(task: Task, early: Result<Verdict>, started: Instant, finished: Instant): (o: Outcome)
      ensures o.taskId == task.taskId && o.attempt == task.attempt
    {
      match early
      case Ok(v) => OutcomeOf(task, v, started, finished)
      case Err(_) =>
        OutcomeOf(task, Failure(task, StateFailed, "executor failed before task result", "executor_error", false,
                                "executor_error"),
                  started, finished)
    }

    /** What a finished task of a batch satisfies. */
    ghost predicate Finished(o: Outcome, task: Task, started: Instant, finished: Instant, own: bool, expected: bool) {
      && o.taskId == task.taskId && o.attempt == task.attempt
      && (own ==> ForTask(o.result, task))
      && (expected ==> o == OutcomeOf(task, Expected(task), started, finished))
    }

    lemma SettledFinishes(task: Task, early: Result<Verdict>, started: Instant, finished: Instant, own: bool,
                          expected: bool)
      requires own ==> early.Ok? && ForTask(early.value.result, task)
      requires expected ==> early == Ok(Expected(task))
      ensures Finished(Settled(task, early, started, finished), task, started, finished, own, expected)
    {
      hide Expected, ForTask, Failure;
    }

    /** A batch after some events: which tasks have begun, which wait for a reply, and the outcomes so far. */
    ghost predicate Underway(done: seq<nat>, ordered: seq<Task>, begun: set<nat>, waiting: set<nat>,
                             results: map<nat, Outcome>, started: nat -> Instant, finished: nat -> Instant, own: bool,
                             expected: bool) {
      && (forall e :: e in begun <==> e in done)
      && waiting <= begun && (forall e :: e in begun ==> e in results || e in waiting)
      && (forall e :: e in waiting ==> e < |ordered| && ordered[e].analyzerId in analyzers && !OverLimits(ordered[e]))
      && (forall e :: multiset(done)[e] >= 2 ==> e in results)
      && (forall e :: e in results ==>
            e < |ordered| && Finished(results[e], ordered[e], started(e), finished(e), own, expected))
    }

    lemma OneMoreEvent(done: seq<nat>, e: nat)
      ensures forall x :: multiset(done + [e])[x] == multiset(done)[x] + (if x == e then 1 else 0)
      ensures forall x :: x in done + [e] <==> x in done || x == e
      ensures forall x :: x in done <==> multiset(done)[x] >= 1
    {}

    /** A task settles, at its start or by its reply. */
    lemma TurnSettles(done: seq<nat>, ordered: seq<Task>, begun: set<nat>, waiting: set<nat>,
                      results: map<nat, Outcome>, started: nat -> Instant, finished: nat -> Instant, own: bool,
                      expected: bool, e: nat, o: Outcome)
      requires Underway(done, ordered, begun, waiting, results, started, finished, own, expected)
      requires e < |ordered| && Finished(o, ordered[e], started(e), finished(e), own, expected)
      ensures Underway(done + [e], ordered, begun + {e}, waiting - {e}, results[e := o], started, finished, own,
                       expected)
    {
      hide Finished, OverLimits;
      OneMoreEvent(done, e);
    }

    lemma TurnWaits(done: seq<nat>, ordered: seq<Task>, begun: set<nat>, waiting: set<nat>, results: map<nat, Outcome>,
                    started: nat -> Instant, finished: nat -> Instant, own: bool, expected: bool, e: nat)
      requires Underway(done, ordered, begun, waiting, results, started, finished, own, expected) && e !in begun
      requires e < |ordered| && ordered[e].analyzerId in analyzers && !OverLimits(ordered[e])
      ensures Underway(done + [e], ordered, begun + {e}, waiting + {e}, results, started, finished, own, expected)
    {
      hide Finished, OverLimits;
      OneMoreEvent(done, e);
    }

    lemma TurnIgnored(done: seq<nat>, ordered: seq<Task>, begun: set<nat>, waiting: set<nat>,
                      results: map<nat, Outcome>, started: nat -> Instant, finished: nat -> Instant, own: bool,
                      expected: bool, e: nat)
      requires Underway(done, ordered, begun, waiting, results, started, finished, own, expected)
      requires e in begun && e !in waiting
      ensures Underway(done + [e], ordered, begun, waiting, results, started, finished, own, expected)
    {
      hide Finished, OverLimits;
      OneMoreEvent(done, e);
    }

    lemma NothingBegun(ordered: seq<Task>, started: nat -> Instant, finished: nat -> Instant, own: bool, expected: bool)
      ensures Underway([], ordered, {}, {}, map[], started, finished, own, expected)
    {}

    /** Only a task that has begun waits, and then it may be called. */
    lemma NotWaiting(done: seq<nat>, ordered: seq<Task>, begun: set<nat>, waiting: set<nat>, results: map<nat, Outcome>,
                     started: nat -> Instant, finished: nat -> Instant, own: bool, expected: bool, e: nat)
      requires Underway(done, ordered, begun, waiting, results, started, finished, own, expected)
      ensures e !in begun ==> waiting - {e} == waiting
      ensures e in waiting ==> e < |ordered| && ordered[e].analyzerId in analyzers && !OverLimits(ordered[e])
    {
      hide Finished, OverLimits;
    }

    lemma AllFinished(done: seq<nat>, ordered: seq<Task>, begun: set<nat>, waiting: set<nat>,
                      results: map<nat, Outcome>, started: nat -> Instant, finished: nat -> Instant, own: bool,
                      expected: bool)
      requires Underway(done, ordered, begun, waiting, results, started, finished, own, expected)
      requires forall i :: 0 <= i < |ordered| ==> multiset(done)[i] == 2
      ensures forall i :: 0 <= i < |ordered| ==>
                i in results && Finished(results[i], ordered[i], started(i), finished(i), own, expected)
    {
      hide Finished, OverLimits;
    }

    /** `execute_many`: the tasks run concurrently and the outcomes come in analyzer order, one per task. The events say
        whose turn it is: a task's first event starts it, its second one brings the analyzer's reply. They may
        interleave in any way; a task that is settled when it starts ignores its second event. */
    method ExecuteMany(tasks: seq<Task>, events: seq<nat>, started: nat -> Instant, finished: nat -> Instant)
      returns (outcomes: seq<Outcome>)
      requires forall e :: e in events ==> e < |tasks|
      requires forall i :: 0 <= i < |tasks| ==> multiset(events)[i] == 2
      modifies this`calls, this`cache
      ensures |outcomes| == |tasks| == |SortBy(tasks, ByAnalyzer())|
      ensures old(CacheIsOwn()) ==> CacheIsOwn()
      ensures Steady() && old(CacheIsSteady()) ==> CacheIsSteady()
      ensures forall i :: 0 <= i < |outcomes| ==>
                var task := SortBy(tasks, ByAnalyzer())[i];
                && outcomes[i].taskId == task.taskId && outcomes[i].attempt == task.attempt
                && (old(CacheIsOwn()) ==> ForTask(outcomes[i].result, task))
                && (Steady() && old(CacheIsSteady()) && old(CacheIsOwn()) ==>
                      outcomes[i] == OutcomeOf(task, Expected(task), started(i), finished(i)))
    {
      hide Judge, Failure, Completion, Expected, Uncached, OverLimits, CacheIsOwn, CacheIsSteady, Steady, OutcomeOf,
           ForTask, Underway;
      SortBySorts(tasks, ByAnalyzer());
      var ordered := SortBy(tasks, ByAnalyzer());
      ghost var own, steady := CacheIsOwn(), Steady() && CacheIsSteady();
      var begun: set<nat>, waiting: set<nat>, results: map<nat, Outcome> := {}, {}, map[];
      NothingBegun(ordered, started, finished, own, own && steady);
      for p := 0 to |events|
        invariant Underway(events[..p], ordered, begun, waiting, results, started, finished, own, own && steady)
        invariant own ==> CacheIsOwn()
        invariant steady ==> Steady() && CacheIsSteady()
      {
        var e := events[p];
        assert e in events && events[..p + 1] == events[..p] + [e];
        if e !in begun {
          var early := Open(ordered[e]);
          match early
          case Some(settled) =>
            var o := Settled(ordered[e], settled, started(e), finished(e));
            SettledFinishes(ordered[e], settled, started(e), finished(e), own, own && steady);
            NotWaiting(events[..p], ordered, begun, waiting, results, started, finished, own, own && steady, e);
            TurnSettles(events[..p], ordered, begun, waiting, results, started, finished, own, own && steady, e, o);
            begun, results := begun + {e}, results[e := o];
          case None =>
            TurnWaits(events[..p], ordered, begun, waiting, results, started, finished, own, own && steady, e);
            begun, waiting := begun + {e}, waiting + {e};
        } else if e in waiting {
          NotWaiting(events[..p], ordered, begun, waiting, results, started, finished, own, own && steady, e);
          var v := Close(ordered[e]);
          var o := Settled(ordered[e], Ok(v), started(e), finished(e));
          SettledFinishes(ordered[e], Ok(v), started(e), finished(e), own, own && steady);
          TurnSettles(events[..p], ordered, begun, waiting, results, started, finished, own, own && steady, e, o);
          assert begun + {e} == begun;
          waiting, results := waiting - {e}, results[e := o];
        } else {
          TurnIgnored(events[..p], ordered, begun, waiting, results, started, finished, own, own && steady, e);
        }
      }
      assert events[..|events|] == events;
      AllFinished(events, ordered, begun, waiting, results, started, finished, own, own && steady);
      outcomes := seq(|ordered|, i requires 0 <= i < |ordered| => results[i]);
    }
  }
}
