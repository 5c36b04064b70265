/** The `repositories` and `analyses` tables: idempotent creation and write-once results
    (persistence/sqlite.py), and `analyze` as their client (orchestration/orchestrator.py). */
module ResultStore {
  import opened Wrappers
  import opened Timestamps
  import opened Contracts

  datatype Repository = Repository(id: string, payload: string)

  /** `contentDigest` is the digest of the whole request. */
  datatype Request = Request(
    analysisId: string,
    repository: Repository,
    idempotencyKey: Option<string>,
    contentDigest: string,
    body: string)

  datatype AnalysisState = QUEUED | RUNNING | PARTIAL | COMPLETED | FAILED | CANCELLED

  /** `score` is the canonical text of the result; `detail` stands for timestamps, facts and the rest. */
  datatype Envelope = Envelope(
    analysisId: string,
    request: Request,
    idempotencyKey: string,
    state: AnalysisState,
    score: Option<string>,
    categoryResults: seq<CategoryResult>,
    factsDigest: Option<string>,
    detail: string)

  datatype AnalysisRow = AnalysisRow(
    repositoryId: string,
    idempotencyKey: string,
    state: AnalysisState,
    envelope: Envelope,
    createdAt: string)

  datatype RepositoryRow = RepositoryRow(repository: Repository, createdAt: string)

  datatype Store = Store(repositories: map<string, RepositoryRow>, analyses: map<string, AnalysisRow>)

  datatype StoreStep = StoreStep(store: Store, result: Result<AnalysisRow>)

  /** The envelope contract: request and envelope name the same analysis. */
  predicate ValidEnvelope(e: Envelope) {
    e.request.analysisId == e.analysisId
  }

  /** `request.idempotency_key or request.digest()` */
  function KeyOf(request: Request): string {
    if request.idempotencyKey.Some? && request.idempotencyKey.value != "" then request.idempotencyKey.value
    else request.contentDigest
  }

  function NewRow(request: Request, now: Instant): AnalysisRow {
    var e := Envelope(request.analysisId, request, KeyOf(request), QUEUED, None, [], None, "");
    AnalysisRow(request.repository.id, KeyOf(request), QUEUED, e, Iso(now))
  }

  /** The row a key belongs to. */
  ghost predicate HasKey(s: Store, key: string, id: string) {
    id in s.analyses && s.analyses[id].idempotencyKey == key
  }

  predicate RepositoryConflict(s: Store, repository: Repository) {
    repository.id in s.repositories && s.repositories[repository.id].repository != repository
  }

  /** `register_repository`, without conflict: a known repository keeps its creation time. */
  function Register(s: Store, repository: Repository, now: Instant): Store {
    var createdAt := if repository.id in s.repositories then s.repositories[repository.id].createdAt else Iso(now);
    s.(repositories := s.repositories[repository.id := RepositoryRow(repository, createdAt)])
  }

  /** The two clock readings of a creation. */
  datatype Readings = Readings(registered: Instant, created: Instant)

  /** `create_analysis`, which registers the repository first and keeps it registered even when it then refuses. */
  ghost function Create(s: Store, request: Request, now: Readings): StoreStep {
    if RepositoryConflict(s, request.repository) then StoreStep(s, Err(IdempotencyConflict))
    else
      var registered := Register(s, request.repository, now.registered);
      if exists id :: HasKey(s, KeyOf(request), id) then
        var id :| HasKey(s, KeyOf(request), id);
        StoreStep(registered, if s.analyses[id].envelope.request != request then Err(IdempotencyConflict)
                              else Ok(s.analyses[id]))
      else if request.analysisId in s.analyses then StoreStep(registered, Err(IntegrityError))
      else
        var row := NewRow(request, now.created);
        StoreStep(registered.(analyses := s.analyses[request.analysisId := row]), Ok(row))
  }

  predicate SameResult(a: Envelope, b: Envelope) {
    b.score.Some? && a.score == b.score && a.categoryResults == b.categoryResults && a.factsDigest == b.factsDigest
  }

  function CommittedRow(row: AnalysisRow, e: Envelope): AnalysisRow {
    row.(state := e.state, envelope := e)
  }

  /** `commit_envelope` */
  function Commit(s: Store, e: Envelope): StoreStep {
    if e.analysisId !in s.analyses then StoreStep(s, Err(KeyError))
    else
      var row := s.analyses[e.analysisId];
      if row.envelope.request != e.request || row.envelope.idempotencyKey != e.idempotencyKey then
        StoreStep(s, Err(IdempotencyConflict))
      else if row.envelope.score.Some? then
        StoreStep(s, if SameResult(row.envelope, e) then Ok(row) else Err(ImmutableResultConflict))
      else
        StoreStep(s.(analyses := s.analyses[e.analysisId := CommittedRow(row, e)]), Ok(CommittedRow(row, e)))
  }

  datatype StoreOp = CreateOp(request: Request, now: Readings) | CommitOp(envelope: Envelope)

  ghost function Apply(s: Store, op: StoreOp): Store {
    match op
    case CreateOp(request, now) => Create(s, request, now).store
    case CommitOp(e) => if ValidEnvelope(e) then Commit(s, e).store else s
  }

  ghost function Run(s: Store, ops: seq<StoreOp>): Store
    decreases |ops|
  {
    if ops == [] then s else Run(Apply(s, ops[0]), ops[1..])
  }

  lemma RunOne(s: Store, op: StoreOp)
    ensures Run(s, [op]) == Apply(s, op)
  {
    hide Apply;
    assert [op][1..] == [] && Run(Apply(s, op), []) == Apply(s, op);
  }

  ghost predicate RowInvariant(s: Store, id: string, row: AnalysisRow) {
    && row.envelope.analysisId == id && ValidEnvelope(row.envelope)
    && row.idempotencyKey == row.envelope.idempotencyKey == KeyOf(row.envelope.request)
    && row.state == row.envelope.state
    && row.repositoryId == row.envelope.request.repository.id
    && row.repositoryId in s.repositories &&
      s.repositories[row.repositoryId].repository == row.envelope.request.repository
  }

  /** The columns agree with the stored envelope, and a key belongs to one row. */
  ghost predicate StoreInvariant(s: Store) {
    && (forall id :: id in s.analyses ==> RowInvariant(s, id, s.analyses[id]))
    && (forall id :: id in s.repositories ==>
          s.repositories[id].repository.id == id && IsInstant(s.repositories[id].createdAt))
    && (forall a,
        b :: a in s.analyses && b in s.analyses && s.analyses[a].idempotencyKey == s.analyses[b].idempotencyKey ==>
          a == b)
  }

  lemma RegisterKeepsStore(s: Store, repository: Repository, now: Instant)
    requires StoreInvariant(s) && !RepositoryConflict(s, repository)
    ensures StoreInvariant(Register(s, repository, now))
  {
    hide Iso;
    assert IsInstant(Iso(now));
  }

  lemma InsertKeepsStore(s: Store, request: Request, now: Instant)
    requires StoreInvariant(s) && request.analysisId !in s.analyses
    requires request.repository.id in s.repositories
    requires s.repositories[request.repository.id].repository == request.repository
    requires forall id :: id in s.analyses ==> s.analyses[id].idempotencyKey != KeyOf(request)
    ensures StoreInvariant(s.(analyses := s.analyses[request.analysisId := NewRow(request, now)]))
  {
    hide Iso, IsInstant;
  }

  lemma CommitKeepsStore(s: Store, e: Envelope)
    requires StoreInvariant(s) && ValidEnvelope(e)
    ensures StoreInvariant(Commit(s, e).store)
  {
    hide Iso, IsInstant;
  }

  lemma ApplyKeepsStore(s: Store, op: StoreOp)
    requires StoreInvariant(s)
    ensures StoreInvariant(Apply(s, op))
  {
    hide Iso, StoreInvariant, Register, NewRow, Commit;
    match op
    case CommitOp(e) => if ValidEnvelope(e) { CommitKeepsStore(s, e); }
    case CreateOp(request, now) =>
      if !RepositoryConflict(s, request.repository) {
        RegisterKeepsStore(s, request.repository, now.registered);
        Registered(s, request.repository, now.registered);
        if (forall id :: !HasKey(s, KeyOf(request), id)) && request.analysisId !in s.analyses {
          forall id | id in s.analyses ensures s.analyses[id].idempotencyKey != KeyOf(request) {
            assert !HasKey(s, KeyOf(request), id);
          }
          InsertKeepsStore(Register(s, request.repository, now.registered), request, now.created);
        }
      }
  }

  lemma Registered(s: Store, repository: Repository, now: Instant)
    ensures var r := Register(s, repository, now);
            && r.analyses == s.analyses
            && repository.id in r.repositories && r.repositories[repository.id].repository == repository
  {
    hide Iso;
  }

  lemma {:induction false} RunKeepsStore(s: Store, ops: seq<StoreOp>)
    requires StoreInvariant(s)
    ensures StoreInvariant(Run(s, ops))
    decreases |ops|
  {
    if ops != [] {
      ApplyKeepsStore(s, ops[0]);
      RunKeepsStore(Apply(s, ops[0]), ops[1..]);
    }
  }

  /** What no later call can change: the request, its key and creation time, the repository, and a scored envelope. */
  ghost predicate Preserved(before: Store, after: Store) {
    && (forall id :: id in before.repositories ==>
          id in after.repositories && after.repositories[id] == before.repositories[id])
    && (forall id :: id in before.analyses ==>
          && id in after.analyses
          && after.analyses[id].envelope.request == before.analyses[id].envelope.request
          && after.analyses[id].idempotencyKey == before.analyses[id].idempotencyKey
          && after.analyses[id].createdAt == before.analyses[id].createdAt
          && (before.analyses[id].envelope.score.Some? ==> after.analyses[id] == before.analyses[id]))
  }

  lemma ApplyPreserves(s: Store, op: StoreOp)
    ensures Preserved(s, Apply(s, op))
  {
    hide Iso;
  }

  /** Over any interleaving of creations and commits. */
  lemma {:induction false} RunPreserves(s: Store, ops: seq<StoreOp>)
    ensures Preserved(s, Run(s, ops))
    decreases |ops|
  {
    if ops != [] {
      ApplyPreserves(s, ops[0]);
      RunPreserves(Apply(s, ops[0]), ops[1..]);
    }
  }

  /** One key, one request: two accepted creations under one key, with anything in between,
      were made with equal requests and got the same row identity. */
  lemma OneKeyOneRequest(s: Store, first: Request, now: Readings, ops: seq<StoreOp>, second: Request, later: Readings)
    requires StoreInvariant(s) && KeyOf(first) == KeyOf(second)
    requires Create(s, first, now).result.Ok?
    requires Create(Run(Create(s, first, now).store, ops), second, later).result.Ok?
    ensures first == second
    ensures Create(Run(Create(s, first, now).store, ops), second, later).result.value.envelope.analysisId ==
              first.analysisId
  {
    hide Iso;
    var s1 := Create(s, first, now).store;
    var s2 := Run(s1, ops);
    assert s1 == Apply(s, CreateOp(first, now));
    ApplyKeepsStore(s, CreateOp(first, now));
    RunKeepsStore(s1, ops);
    RunPreserves(s1, ops);
    CreatedRow(s, first, now);
    assert HasKey(s2, KeyOf(second), first.analysisId);
    assert RowInvariant(s2, first.analysisId, s2.analyses[first.analysisId]);
  }

  /** Creation goes by the client's own key if it gave one. After an accepted creation the key column is that key,
      and from then on, whatever is called in between, another request under it is refused and adds no row, while the
      same request is answered with the row as it then stands. */
  lemma ClientKeyDecides(s: Store, first: Request, now: Readings, ops: seq<StoreOp>, second: Request, later: Readings)
    requires StoreInvariant(s) && Create(s, first, now).result.Ok?
    requires first.idempotencyKey.Some? && first.idempotencyKey.value != ""
    requires second.idempotencyKey == first.idempotencyKey
    ensures Create(s, first, now).result.value.idempotencyKey == first.idempotencyKey.value
    ensures var between := Run(Create(s, first, now).store, ops);
            var again := Create(between, second, later);
            && first.analysisId in between.analyses && again.store.analyses == between.analyses
            && again.result ==
                 if second == first then Ok(between.analyses[first.analysisId]) else Err(IdempotencyConflict)
  {
    hide Create, Run, StoreInvariant;
    CreatedRow(s, first, now);
    SharedKeyDecides(s, first, now, ops, second, later);
  }

  /** Without a key, or with an empty one, it goes by the digest of the request in the same way. */
  lemma ContentDecides(s: Store, first: Request, now: Readings, ops: seq<StoreOp>, second: Request, later: Readings)
    requires StoreInvariant(s) && Create(s, first, now).result.Ok?
    requires first.idempotencyKey in {None, Some("")} && second.idempotencyKey in {None, Some("")}
    requires second.contentDigest == first.contentDigest
    ensures Create(s, first, now).result.value.idempotencyKey == first.contentDigest
    ensures var between := Run(Create(s, first, now).store, ops);
            var again := Create(between, second, later);
            && first.analysisId in between.analyses && again.store.analyses == between.analyses
            && again.result ==
                 if second == first then Ok(between.analyses[first.analysisId]) else Err(IdempotencyConflict)
  {
    hide Create, Run, StoreInvariant;
    CreatedRow(s, first, now);
    SharedKeyDecides(s, first, now, ops, second, later);
  }

  lemma SharedKeyDecides(s: Store, first: Request, now: Readings, ops: seq<StoreOp>, second: Request, later: Readings)
    requires StoreInvariant(s) && Create(s, first, now).result.Ok? && KeyOf(second) == KeyOf(first)
    ensures var between := Run(Create(s, first, now).store, ops);
            var again := Create(between, second, later);
            && first.analysisId in between.analyses && again.store.analyses == between.analyses
            && again.result ==
                 if second == first then Ok(between.analyses[first.analysisId]) else Err(IdempotencyConflict)
  {
    hide Create, Run, StoreInvariant, KeyOf;
    var created := Create(s, first, now).store;
    assert created == Apply(s, CreateOp(first, now));
    ApplyKeepsStore(s, CreateOp(first, now));
    CreatedRow(s, first, now);
    RunKeepsStore(created, ops);
    RunPreserves(created, ops);
    KnownKeyAnswers(Run(created, ops), first.analysisId, second, later);
  }

  /** A creation whose key is taken. */
  lemma KnownKeyAnswers(s: Store, id: string, request: Request, later: Readings)
    requires StoreInvariant(s) && id in s.analyses && s.analyses[id].idempotencyKey == KeyOf(request)
    ensures var again := Create(s, request, later);
            && again.store.analyses == s.analyses
            && again.result ==
                 if request == s.analyses[id].envelope.request then Ok(s.analyses[id]) else Err(IdempotencyConflict)
  {
    hide Iso, KeyOf;
    assert HasKey(s, KeyOf(request), id);
    forall other | HasKey(s, KeyOf(request), other) ensures other == id {}
    assert RowInvariant(s, id, s.analyses[id]);
  }

  /** A request under a new key and a new id is stored queued and empty; under a known id it is refused. */
  lemma NewAnalysis(s: Store, request: Request, now: Readings)
    requires !RepositoryConflict(s, request.repository) && forall id :: !HasKey(s, KeyOf(request), id)
    ensures var created := Create(s, request, now);
            if request.analysisId in s.analyses
            then created.result == Err(IntegrityError) && created.store.analyses == s.analyses
            else
              && created.result.Ok? && created.store.analyses == s.analyses[request.analysisId := created.result.value]
              && var row := created.result.value;
                 && row.state == QUEUED && row.repositoryId == request.repository.id
                 && row.createdAt == Iso(now.created)
                 && row.envelope.analysisId == request.analysisId && row.envelope.request == request
                 && row.envelope.state == QUEUED && row.envelope.score.None? && row.envelope.categoryResults == []
                 && row.envelope.factsDigest.None? && row.envelope.idempotencyKey == row.idempotencyKey
  {
    hide Iso, KeyOf;
  }

  lemma CreatedRow(s: Store, request: Request, now: Readings)
    requires StoreInvariant(s) && Create(s, request, now).result.Ok?
    ensures var step := Create(s, request, now);
            && request.analysisId in step.store.analyses && step.store.analyses[request.analysisId] == step.result.value
            && step.result.value.envelope.request == request && step.result.value.idempotencyKey == KeyOf(request)
  {
    hide Iso;
    if exists id :: HasKey(s, KeyOf(request), id) {
      var id :| HasKey(s, KeyOf(request), id);
      assert RowInvariant(s, id, s.analyses[id]);
      forall other | HasKey(s, KeyOf(request), other) ensures other == id {}
    }
  }

  /** Once an envelope with a score is stored, every later commit for its analysis, after whatever else was
      called, changes nothing; it is answered with the stored row exactly when it brings the stored result, and
      refused otherwise. */
  lemma ScoredForever(s: Store, ops: seq<StoreOp>, e: Envelope)
    requires e.analysisId in s.analyses && s.analyses[e.analysisId].envelope.score.Some?
    ensures var stored, later := s.analyses[e.analysisId], Run(s, ops);
            Commit(later, e) == StoreStep(later,
              if stored.envelope.request != e.request || stored.envelope.idempotencyKey != e.idempotencyKey
              then Err(IdempotencyConflict)
              else if stored.envelope.score == e.score && stored.envelope.categoryResults == e.categoryResults
                      && stored.envelope.factsDigest == e.factsDigest
              then Ok(stored)
              else Err(ImmutableResultConflict))
  {
    hide Run;
    RunPreserves(s, ops);
  }

  /** `analyze` creates, computes an envelope while others work, commits it and returns it. Analysing the
      request again, however much later, is answered from the store with the same score, categories and
      facts digest; it is answered with the very envelope returned exactly when no other commit of a
      different envelope had won the race. */
  lemma RepeatedAnalyzeAnswersFromStore(s: Store, request: Request, now: Readings, during: seq<StoreOp>,
                                        e: Envelope, afterwards: seq<StoreOp>, later: Readings)
    requires StoreInvariant(s) && Create(s, request, now).result.Ok?
    requires e.request == request && e.analysisId == request.analysisId && e.idempotencyKey == KeyOf(request)
    requires e.score.Some?
    requires Commit(Run(Create(s, request, now).store, during), e).result.Ok?
    ensures var raced := Run(Create(s, request, now).store, during);
            var end := Run(Commit(raced, e).store, afterwards);
            var again := Create(end, request, later);
            && again.result.Ok? && again.store == end
            && SameResult(again.result.value.envelope, e)
            && request.analysisId in raced.analyses
            && (again.result.value.envelope == e <==>
                  raced.analyses[request.analysisId].envelope.score.None? ||
                    raced.analyses[request.analysisId].envelope == e)
  {
    hide Iso;
    var s1 := Create(s, request, now).store;
    assert s1 == Apply(s, CreateOp(request, now));
    ApplyKeepsStore(s, CreateOp(request, now));
    CreatedRow(s, request, now);
    var raced := Run(s1, during);
    RunKeepsStore(s1, during);
    RunPreserves(s1, during);
    var s3 := Commit(raced, e).store;
    assert s3 == Apply(raced, CommitOp(e));
    ApplyKeepsStore(raced, CommitOp(e));
    var end := Run(s3, afterwards);
    RunKeepsStore(s3, afterwards);
    RunPreserves(s3, afterwards);
    StoredRequestAnswers(end, request, later);
  }

  /** Such a race: another run commits the same result with other details first. Both commits are accepted, and
      what `analyze` returns is not what the store answers with from then on. */
  lemma RaceReturnsOtherEnvelope(s: Store, request: Request, now: Readings, e: Envelope, later: Readings)
    requires StoreInvariant(s) && !RepositoryConflict(s, request.repository)
    requires request.analysisId !in s.analyses && forall id :: !HasKey(s, KeyOf(request), id)
    requires e.request == request && e.analysisId == request.analysisId && e.idempotencyKey == KeyOf(request)
    requires e.score.Some?
    ensures var other := e.(detail := e.detail + "'");
            var raced := Run(Create(s, request, now).store, [CommitOp(other)]);
            && Create(s, request, now).result.Ok? && Commit(raced, e).result.Ok?
            && Create(Commit(raced, e).store, request, later).result.Ok?
            && Create(Commit(raced, e).store, request, later).result.value.envelope == other != e
  {
    hide Iso;
    var other := e.(detail := e.detail + "'");
    var created := Create(s, request, now).store;
    assert created == Apply(s, CreateOp(request, now));
    ApplyKeepsStore(s, CreateOp(request, now));
    CreatedRow(s, request, now);
    var raced := Run(created, [CommitOp(other)]);
    RunOne(created, CommitOp(other));
    ApplyKeepsStore(created, CommitOp(other));
    assert raced.analyses[request.analysisId].envelope == other;
    assert |other.detail| != |e.detail|;
    StoredRequestAnswers(raced, request, later);
  }

  lemma StoredRequestAnswers(s: Store, request: Request, later: Readings)
    requires StoreInvariant(s) && request.analysisId in s.analyses
    requires s.analyses[request.analysisId].envelope.request == request
    ensures Create(s, request, later) == StoreStep(s, Ok(s.analyses[request.analysisId]))
  {
    hide Iso;
    var row := s.analyses[request.analysisId];
    assert RowInvariant(s, request.analysisId, row);
    assert HasKey(s, KeyOf(request), request.analysisId);
    assert Register(s, request.repository, later.registered) == s;
  }
}
