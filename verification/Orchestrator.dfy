/** `analyze`: create, collect, dispatch, score, commit, with others working on the same store meanwhile
    (orchestration/orchestrator.py). */
module Orchestrator {
  import opened Wrappers
  import opened Ordering
  import opened SortedDict
  import opened Timestamps
  import opened Contracts
  import opened ResultStore
  import opened Facts
  import opened FactsDigest
  import opened Collection
  import opened Dispatch
  import opened Persistence
  import Local = LocalExecutor

  /** One call: what collection and execution come to (None when they raise), the texts of score and digest, and what
      others do to the store meanwhile. `tasks` holds one task per requested analyzer. */
  datatype Analysis = Analysis(
    request: Request,
    profile: Profile,
    now: Readings,
    collected: Option<RepositoryFacts>,
    tasks: seq<Task>,
    batch: Option<seq<Outcome>>,
    scoreText: seq<CategoryResult> -> string,
    digestText: Payload -> string,
    detail: string,
    during: seq<StoreOp>)

  function ResultKey(): CategoryResult -> Key { (r: CategoryResult) => [r.analyzerId] }

  /** The facts of a failed collection. */
  function Fallback(repository: Repository, profile: Profile): RepositoryFacts {
    EMPTY.(repository := Some(repository), profile := profile,
           limitations := [Limitation("collection.failed", "collection failed before analyzer dispatch", None)])
  }

  function FactsOf(a: Analysis): RepositoryFacts {
    if a.collected.Some? then a.collected.value else Fallback(a.request.repository, a.profile)
  }

  function Failures(tasks: seq<Task>, reason: string, kind: string): seq<CategoryResult> {
    seq(|tasks|, i requires 0 <= i < |tasks| => Local.FailureResult(tasks[i], reason, kind))
  }

  function Results(outcomes: seq<Outcome>): seq<CategoryResult> {
    seq(|outcomes|, i requires 0 <= i < |outcomes| => outcomes[i].result)
  }

  function Categories(a: Analysis): seq<CategoryResult> {
    if a.collected.None? then Failures(a.tasks, "collection failed before analyzer dispatch", "collection_error")
    else if a.batch.None? then Failures(a.tasks, "executor failed before task results were returned", "executor_error")
    else SortBy(Results(a.batch.value), ResultKey())
  }

  predicate Unavailable(r: CategoryResult) {
    r.status in {CategoryStatus.ERROR, SKIPPED}
  }

  function StateOf(a: Analysis): AnalysisState {
    if a.collected.None? || a.batch.None? then FAILED
    else if |Categories(a)| != 6 || exists i :: 0 <= i < |Categories(a)| && Unavailable(Categories(a)[i])
    then AnalysisState.PARTIAL
    else COMPLETED
  }

  function EnvelopeOf(a: Analysis, key: string): Envelope {
    Envelope(a.request.analysisId, a.request, key, StateOf(a), Some(a.scoreText(Categories(a))), Categories(a),
             Some(a.digestText(DigestPayload(FactsOf(a)))), a.detail)
  }

  datatype Answer = Answer(store: Store, result: Result<Envelope>)

  /** `analyze`. Building the tasks validates the digest of the facts, outside any exception handler. */
  ghost function Analyze(s: Store, a: Analysis): Answer {
    var created := Create(s, a.request, a.now);
    if created.result.Err? then Answer(created.store, Err(created.result.error))
    else if created.result.value.envelope.score.Some? then Answer(created.store, Ok(created.result.value.envelope))
    else
      var raced := Run(created.store, a.during);
      if !AnalyzerInputAccepts(FactsOf(a)) then Answer(raced, Err(ValidationError))
      else
        var e := EnvelopeOf(a, created.result.value.idempotencyKey);
        var committed := Commit(raced, e);
        Answer(committed.store, if committed.result.Ok? then Ok(e) else Err(committed.result.error))
  }

  class AnalysisOrchestrator {
    const persistence: SQLitePersistence

    constructor (persistence: SQLitePersistence)
      ensures this.persistence == persistence
    {
      this.persistence := persistence;
    }

    method AnalyzeRequest(a: Analysis) returns (r: Result<Envelope>)
      requires StoreInvariant(persistence.Results())
      modifies persistence`repositories, persistence`analyses
      ensures StoreInvariant(persistence.Results())
      ensures Answer(persistence.Results(), r) == Analyze(old(persistence.Results()), a)
    {
      hide Create, Commit, Run, StoreInvariant, AnalyzerInputAccepts, Categories, StateOf;
      var record := persistence.CreateAnalysis(a.request, a.now);
      if record.Err? { return Err(record.error); }
      if record.value.envelope.score.Some? { return Ok(record.value.envelope); }
      persistence.OthersWork(a.during);
      if !AnalyzerInputAccepts(FactsOf(a)) { return Err(ValidationError); }
      var e := EnvelopeOf(a, record.value.idempotencyKey);
      var committed := persistence.CommitEnvelope(e);
      if committed.Err? { return Err(committed.error); }
      r := Ok(e);
    }
  }

  // ---- What the envelope says ----

  /** The results in an envelope: those of the executor in the order of their analyzers, or one error per task. */
  lemma ResultsOfAnalysis(a: Analysis, key: string)
    ensures var results := EnvelopeOf(a, key).categoryResults;
            if a.collected.None? || a.batch.None? then
              && |results| == |a.tasks|
              && forall i :: 0 <= i < |results| ==>
                   && results[i].analysisId == a.tasks[i].analysisId && results[i].analyzerId == a.tasks[i].analyzerId
                   && results[i].category == a.tasks[i].category && results[i].score.None?
                   && results[i].status == CategoryStatus.ERROR
                   && results[i].detail ==
                        if a.collected.None? then "collection_error" + ": " +
                          "collection failed before analyzer dispatch"
                        else "executor_error" + ": " + "executor failed before task results were returned"
            else
              var outcomes := a.batch.value;
              && multiset(results) == multiset(seq(|outcomes|, i requires 0 <= i < |outcomes| => outcomes[i].result))
              && forall i, j :: 0 <= i < j < |results| ==> !StrLess(results[j].analyzerId, results[i].analyzerId)
  {
    hide KeyLess, StrLess, SortBy;
    if a.collected.Some? && a.batch.Some? {
      var s := Results(a.batch.value);
      var results := SortBy(s, ResultKey());
      assert s == seq(|s|, i requires 0 <= i < |s| => a.batch.value[i].result);
      SortBySorts(s, ResultKey());
      forall i, j | 0 <= i < j < |results| ensures !StrLess(results[j].analyzerId, results[i].analyzerId) {
        TupleLess(ResultKey()(results[j]), ResultKey()(results[i]));
      }
    }
  }

  /** The envelope scores and judges exactly the results it carries. The analysis failed if collection or execution
      raised; it is completed if all six analyzers answered, none with an error or a skip, and partial otherwise. */
  lemma EnvelopeContents(a: Analysis, key: string)
    ensures var e := EnvelopeOf(a, key);
            && e.analysisId == a.request.analysisId && e.request == a.request && e.idempotencyKey == key
            && e.score == Some(a.scoreText(e.categoryResults)) && e.detail == a.detail
            && (a.collected.Some? ==> e.factsDigest == Some(a.digestText(DigestPayload(a.collected.value))))
            && (e.state == FAILED <==> a.collected.None? || a.batch.None?)
            && (e.state == COMPLETED <==>
                  && a.collected.Some? && a.batch.Some? && |e.categoryResults| == 6
                  && forall i :: 0 <= i < 6 ==>
                       e.categoryResults[i].status != CategoryStatus.ERROR && e.categoryResults[i].status != SKIPPED)
            && (e.state == AnalysisState.PARTIAL <==> e.state != FAILED && e.state != COMPLETED)
  {
    hide Categories, DigestPayload;
  }

  /** After a failed collection the facts carry the request's repository and profile and one limitation, nothing else.
      */
  lemma FactsOfFailedCollection(a: Analysis)
    requires a.collected.None?
    ensures var f := FactsOf(a);
            && f.repository == Some(a.request.repository) && f.profile == a.profile
            && |f.limitations| == 1 && f.limitations[0].code == "collection.failed" && f.limitations[0].scope.None?
            && f.collectedAt.None? && f.snapshotDigest.None? && f.sourceVersions == map[] && f.statuses == []
            && f.capabilities == [] && f.usedSources == [] && f.capabilityStates == []
            && forall name: GroupName ::
                 f.groups.Get(name) == FactGroup(false, [], [], None)
  {}

  // ---- When analyze raises before the commit ----

  /** It raises a validation error exactly when it had to compute and the facts were refused, and then the call has
      changed nothing but what creating the analysis changes. */
  lemma RaisesExactlyUndispatchable(s: Store, a: Analysis)
    ensures var created := Create(s, a.request, a.now);
            Analyze(s, a).result == Err(ValidationError) <==>
              created.result.Ok? && created.result.value.envelope.score.None? && !AnalyzerInputAccepts(FactsOf(a))
    ensures Analyze(s, a).result == Err(ValidationError) ==>
              Analyze(s, a).store == Run(Create(s, a.request, a.now).store, a.during)
  {
    hide AnalyzerInputAccepts, Run, EnvelopeOf, FactsOf, Iso;
  }

  /** The facts of a failed collection are always dispatched. */
  lemma FallbackDispatches(repository: Repository, profile: Profile)
    ensures AnalyzerInputAccepts(Fallback(repository, profile))
  {
    hide AnalyzerInputAccepts;
    AcceptedIffInOrder(Fallback(repository, profile));
  }

  /** So, as long as no limitations at hand clash, an analysis that has to compute raises exactly when a failure after
      the last replying collector does not follow what the collectors before it left behind. */
  lemma RaisesFromReplies(s: Store, a: Analysis, states: seq<CapabilityStatus>, cs: seq<Collector>,
                          clock: nat -> Instant)
    requires RepliesAreContracts(cs) && NoClash(a.request.repository, a.profile, cs, clock)
    requires a.collected ==
             Some(Conclude(Fold(a.request.repository, a.profile, states, cs, clock, |cs|), a.profile, states))
    requires var created := Create(s, a.request, a.now).result; created.Ok? && created.value.envelope.score.None?
    ensures Analyze(s, a).result == Err(ValidationError) <==>
            !FailuresFollow(a.request.repository, a.profile, cs, clock,
                            Replies(a.request.repository, a.profile, cs, clock), |cs|)
  {
    hide AnalyzerInputAccepts, Analyze, Create, FailuresFollow, Fold, Conclude, Replies, NoClash, RepliesAreContracts;
    RaisesExactlyUndispatchable(s, a);
    DispatchFromReplies(a.request.repository, a.profile, states, cs, clock);
  }

  /** The store after analyses one after the other. */
  ghost function AfterAll(s: Store, analyses: seq<Analysis>): Store {
    if analyses == [] then s else Analyze(AfterAll(s, analyses[..|analyses| - 1]), analyses[|analyses| - 1]).store
  }

  ghost predicate StoredUnscored(s: Store, request: Request) {
    && StoreInvariant(s) && request.analysisId in s.analyses
    && s.analyses[request.analysisId].envelope.request == request && s.analyses[request.analysisId].envelope.score.None?
  }

  lemma RaisingKeepsUnscored(s: Store, a: Analysis)
    requires StoredUnscored(s, a.request) && a.during == [] && !AnalyzerInputAccepts(FactsOf(a))
    ensures Analyze(s, a) == Answer(s, Err(ValidationError))
  {
    hide AnalyzerInputAccepts, Create, StoreInvariant, FactsOf;
    StoredRequestAnswers(s, a.request, a.now);
    assert Run(s, []) == s;
  }

  /** Repeating such an analysis does not help: however often it is tried, it raises and the row stays unscored. */
  lemma {:induction false} UndispatchableNeverScores(s: Store, analyses: seq<Analysis>, request: Request)
    requires StoredUnscored(s, request)
    requires forall i :: 0 <= i < |analyses| ==>
               analyses[i].request == request && analyses[i].during == [] && !AnalyzerInputAccepts(FactsOf(analyses[i]))
    ensures AfterAll(s, analyses) == s
    ensures forall i :: 0 <= i < |analyses| ==>
              Analyze(AfterAll(s, analyses[..i]), analyses[i]).result == Err(ValidationError)
  {
    hide AnalyzerInputAccepts, Analyze, StoredUnscored, FactsOf;
    if analyses != [] {
      var n := |analyses| - 1;
      UndispatchableNeverScores(s, analyses[..n], request);
      RaisingKeepsUnscored(s, analyses[n]);
      forall i | 0 <= i < |analyses| ensures Analyze(AfterAll(s, analyses[..i]), analyses[i]).result ==
        Err(ValidationError) {
        if i < n { assert analyses[..n][..i] == analyses[..i] && analyses[..n][i] == analyses[i]; }
      }
    }
  }

  // ---- What an accepted analysis leaves ----

  /** Alone and dispatchable, an analysis that has to compute stores exactly the envelope it returns. */
  lemma AloneStoresItsEnvelope(s: Store, a: Analysis)
    requires StoreInvariant(s) && a.during == [] && AnalyzerInputAccepts(FactsOf(a))
    requires var created := Create(s, a.request, a.now).result; created.Ok? && created.value.envelope.score.None?
    ensures var answer := Analyze(s, a);
            && answer.result == Ok(EnvelopeOf(a, KeyOf(a.request)))
            && a.request.analysisId in answer.store.analyses
            && answer.store.analyses[a.request.analysisId].envelope == answer.result.value
            && answer.store.analyses[a.request.analysisId].state == StateOf(a)
  {
    hide AnalyzerInputAccepts, Create, StoreInvariant, FactsOf, StateOf, Categories;
    CreatedRow(s, a.request, a.now);
    ApplyKeepsStore(s, CreateOp(a.request, a.now));
    var created := Create(s, a.request, a.now);
    assert Run(created.store, []) == created.store;
    CreatedKey(s, a.request, a.now);
  }

  lemma CreatedKey(s: Store, request: Request, now: Readings)
    requires StoreInvariant(s) && Create(s, request, now).result.Ok?
    ensures var row := Create(s, request, now).result.value;
            row.envelope.analysisId == request.analysisId &&
              row.envelope.idempotencyKey == row.idempotencyKey == KeyOf(request)
  {
    hide Create;
    CreatedRow(s, request, now);
    ApplyKeepsStore(s, CreateOp(request, now));
    var store := Create(s, request, now).store;
    assert store == Apply(s, CreateOp(request, now));
    assert RowInvariant(store, request.analysisId, store.analyses[request.analysisId]);
  }

  /** Once an analysis has answered, every later analysis of the request, after whatever others did and whatever its
      own collectors would say, is answered from the store: nothing changes, and the score, the categories and the
      facts digest are the ones answered before. */
  lemma AnsweredOnceForAll(s: Store, a: Analysis, afterwards: seq<StoreOp>, b: Analysis)
    requires StoreInvariant(s) && b.request == a.request && Analyze(s, a).result.Ok?
    ensures var end := Run(Analyze(s, a).store, afterwards);
            && Analyze(end, b).store == end
            && Analyze(end, b).result.Ok?
            && SameResult(Analyze(end, b).result.value, Analyze(s, a).result.value)
  {
    hide AnalyzerInputAccepts, Create, Commit, Run, StoreInvariant, FactsOf, StateOf, Categories;
    var created := Create(s, a.request, a.now);
    CreatedKey(s, a.request, a.now);
    if created.result.value.envelope.score.Some? {
      AnsweredFromStore(s, a, afterwards, b);
    } else {
      var e := EnvelopeOf(a, created.result.value.idempotencyKey);
      RepeatedAnalyzeAnswersFromStore(s, a.request, a.now, a.during, e, afterwards, b.now);
    }
  }

  /** The case of a row that was scored already. */
  lemma AnsweredFromStore(s: Store, a: Analysis, afterwards: seq<StoreOp>, b: Analysis)
    requires StoreInvariant(s) && b.request == a.request && Create(s, a.request, a.now).result.Ok?
    requires Create(s, a.request, a.now).result.value.envelope.score.Some?
    ensures var end := Run(Create(s, a.request, a.now).store, afterwards);
            Create(end, b.request, b.now) == StoreStep(end, Create(s, a.request, a.now).result)
  {
    hide Create, Run, StoreInvariant;
    var created := Create(s, a.request, a.now);
    CreatedRow(s, a.request, a.now);
    ApplyKeepsStore(s, CreateOp(a.request, a.now));
    assert created.store == Apply(s, CreateOp(a.request, a.now));
    RunKeepsStore(created.store, afterwards);
    RunPreserves(created.store, afterwards);
    StoredRequestAnswers(Run(created.store, afterwards), b.request, b.now);
  }
}
