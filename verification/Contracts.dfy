/** The task and result contracts shared by the queue, the executors and the result store.
    Serialised contracts are compared through their canonical JSON, which is taken to be
    injective, so equality of texts is equality of values here. */
module Contracts {
  import opened Wrappers
  import opened Timestamps

  datatype Category = Documentation | Activity | Issues | Cicd | Security | CodeHealth

  datatype CategoryStatus = PASS | WARN | FAIL | SKIPPED | INCONCLUSIVE | ERROR

  /** An analyzer's result; `detail` stands for the fields no modelled branch reads. */
  datatype CategoryResult = CategoryResult(
    analysisId: string,
    analyzerId: string,
    category: Category,
    status: CategoryStatus,
    score: Option<real>,
    detail: string)

  /** One analyzer invocation; `body` stands for the fields no modelled branch reads. */
  datatype Task = Task(
    taskId: string,
    analysisId: string,
    analyzerId: string,
    category: Category,
    attempt: nat,
    input: string,
    factsSize: nat,
    observations: nat,
    maxBytes: nat,
    maxFiles: nat,
    body: string)

  datatype ExecutionState = StateCompleted | StateFailed | StateTimeout

  datatype Outcome = Outcome(
    taskId: string,
    analysisId: string,
    state: ExecutionState,
    result: CategoryResult,
    attempt: nat,
    retryable: bool,
    failureKind: Option<string>,
    startedAt: Instant,
    finishedAt: Instant)

  const MAX_TASK_ATTEMPT: nat := 100

  /** The bound the task contract puts on its attempt, checked whenever a task is decoded. */
  predicate ValidTask(task: Task) {
    1 <= task.attempt <= MAX_TASK_ATTEMPT
  }
}
