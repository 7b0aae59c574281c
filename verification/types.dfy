/** Data model of the scheduler's resource-offer cycle: executors, their slot
    changes, task definitions, the one scheduler event, errors, and the record
    of what one cycle did. */
module SchedulerTypes {

  type ExecutorId = string

  /** Unsigned 32-bit integer, the width of the requested batch size. */
  newtype u32 = x: int | 0 <= x < 0x1_0000_0000

  /** One executor as reported by the executor registry: its id and how many
      task slots it has free. */
  datatype ExecutorData = ExecutorData(executorId: ExecutorId, availableTaskSlots: nat)

  /** A signed change to apply to an executor's free-slot counter. */
  datatype ExecutorDataChange = ExecutorDataChange(executorId: ExecutorId, taskSlots: int)

  /** A task to run; the cycle never looks inside it. */
  datatype TaskDefinition = TaskDefinition(jobId: string, stageId: nat, partitionId: nat)

  /** The network handle used to reach one executor. */
  datatype ExecutorClient = ExecutorClient(endpoint: string)

  /** The only event the scheduler action accepts and emits. */
  datatype SchedulerServerEvent = ReviveOffers(n: u32)

  datatype BallistaError = BallistaError(message: string)

  datatype Option<T> = None | Some(value: T)

  datatype Result<T> = Ok(value: T) | Err(error: BallistaError)

  /** Free-slot counter of every executor the registry knows. */
  type Registry = map<ExecutorId, int>

  /** The per-executor task lists chosen by the scheduling policy, in the
      order of the executor snapshot. */
  type Assignment = seq<seq<TaskDefinition>>

  /** What the scheduling policy hands back: the snapshot as it left it (it
      may consume slots), the assignment, and the number of tasks assigned. */
  datatype Fetched = Fetched(executors: seq<ExecutorData>, assignment: Assignment, numTasks: nat)

  /** Observable steps of one cycle, in the order they happen. Launches and
      registry updates carry the assignment position they belong to. */
  datatype Effect =
    | Slept(millis: nat)
    | PolicyCalled(executors: seq<ExecutorData>, n: u32)
    | TasksLaunched(position: nat, executorId: ExecutorId, client: ExecutorClient, tasks: seq<TaskDefinition>)
    | DataUpdated(position: nat, change: ExecutorDataChange)

  /** Registry after the cycle, the steps taken, and the value returned. */
  datatype Outcome<T> = Outcome(registry: Registry, trace: seq<Effect>, result: Result<T>)
}
