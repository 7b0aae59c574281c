# Ballista scheduler: the resource-offer cycle

This project models the resource-offer cycle of Ballista's scheduler server
(`SchedulerServerEventAction`) and proves properties of the model. A
`ReviveOffers(n)` event runs one cycle:

1. Read a snapshot of the executors that have free task slots.
2. If the snapshot is empty, sleep 100 ms and ask for a retry with
   `ReviveOffers(1)`.
3. Otherwise seed one `ExecutorDataChange` per executor with its free slots.
4. Call the scheduling policy (`fetch_schedulable_tasks`). The policy may
   consume slots in the snapshot. It returns per-executor task lists and a
   task count.
5. Rewrite each change as (slots after the policy − slots before).
6. If the policy assigned any task, walk the assignment in order
   (`launch_tasks`):
   - a non-empty list is sent to the executor at the same position;
   - after that send returns Ok, the executor's change is applied to the
     registry;
   - the first empty list ends the walk;
   - a failed send ends it with that error.

The cycle is a pure function in the model. Its inputs are:

- the registry's slot counters (`Registry`, a map from executor id to
  counter);
- the snapshot;
- the policy's answer (`Result<Fetched>`);
- the executor client map;
- the outcome of each launch request (`SendOracle`, indexed by assignment
  position).

It returns an `Outcome`:

- the registry after the cycle;
- a trace of `Effect`s: the sleep, the policy call, each launch and each
  registry update, tagged with their assignment position;
- the value the Rust code returns.

Modules:

- `SchedulerTypes` (types.dfy): the data model.
- `ExecutorManager` (registry.dfy): applying slot changes to the registry.
- `TaskLauncher` (launch.dfy): the dispatch walk. It is a recursive function
  over positions, `LaunchFrom`. A reference characterization goes with it:
  - `StopIndex` is the position where the walk stops;
  - `Dispatched` is the launch/update trace of the positions before it.

  `LaunchFromSpec` proves that the walk and the reference agree. The
  positional guarantees follow from that.
- `SchedulerServer` (scheduler_server.dfy): `offer_resources` and
  `on_receive`.
- `Scenarios` (scenarios.dfy): four concrete cycles checked against the model.

Two details of the code fix the model's shape:

- Sign of the change. Each change is post-policy minus pre-policy slots
  (`event_loop.rs:84-85`), so it is negative when slots are consumed, and the
  registry applies it by addition, which lowers the counter.
- Registry reads. `get_available_executors_data` returns a plain `Vec`
  (`event_loop.rs:58-59`) and cannot fail, so the snapshot is a plain input.

Two more behaviours of the code are modelled as written:

- The change rewrite zips the change list with the post-policy snapshot
  (`event_loop.rs:80-86`), so it stops at the shorter of the two. A change
  past the end of the post-policy snapshot keeps its seed, the pre-policy slot
  count. The ids of the changes always come from the pre-policy snapshot.
  So if the policy hands back a shorter snapshot, a successful send to an
  executor past its end raises that executor's counter by its pre-policy free slots instead
  of lowering it (`SchedulerServer.OfferResourcesPastPolicyEnd`; in
  `Scenarios.ShrunkPolicySnapshotAddsSeed` B goes from 3 to 6).
- `executors[idx_executor]` and `.unwrap()` on the client lookup panic when
  out of range or missing. They become the precondition `LaunchSafe`
  (`OfferSafe` for a whole cycle). It constrains only the positions the walk
  actually sends from: positions before the first empty list, up to and
  including the first failed send (the client is looked up before the send,
  `event_loop.rs:125-133`).

## Model

| member | source | states |
|---|---|---|
| ExecutorManager.UpdateExecutorData | ballista/rust/scheduler/src/scheduler_server/event_loop.rs:134-136 | the executor's counter moves by exactly the change's delta; every other counter and the set of known executors stay as they were |
| ExecutorManager.UpdateAll | ballista/rust/scheduler/src/scheduler_server/event_loop.rs:134-136 | applying a sequence of changes in order, first to last, never adds or removes an executor from the registry; it is the reference fold behind every registry claim of the walk |
| ExecutorManager.UpdateAllAt | ballista/rust/scheduler/src/scheduler_server/event_loop.rs:134-136 | with distinct ids, applying a sequence of changes moves each named executor's counter by its own delta only |
| ExecutorManager.UpdateAllUntouched | ballista/rust/scheduler/src/scheduler_server/event_loop.rs:134-136 | an executor that no applied change names keeps its counter |
| TaskLauncher.StopIndex | ballista/rust/scheduler/src/scheduler_server/event_loop.rs:103-141 | the stop position is the first one that is past the end, holds an empty list, or has a failing send; every position before it has a non-empty list sent with Ok |
| TaskLauncher.Dispatched | ballista/rust/scheduler/src/scheduler_server/event_loop.rs:103-136 | reference trace of successful positions: a launch at every even entry and that position's update at the next odd entry |
| TaskLauncher.LaunchFrom | ballista/rust/scheduler/src/scheduler_server/event_loop.rs:103-144 | only non-empty lists at or after the start position are launched or applied; a failing walk ends with a launch whose own send returned the error |
| TaskLauncher.LaunchTasks | ballista/rust/scheduler/src/scheduler_server/event_loop.rs:98-145 | the walk performs only launches and registry updates and keeps the registry's set of executors |
| TaskLauncher.StopIndexSafe | ballista/rust/scheduler/src/scheduler_server/event_loop.rs:105-130 | under the no-panic precondition, every position the walk sends from, including a failing one, lies inside the change list and has a registered client |
| TaskLauncher.LaunchFromSpec | ballista/rust/scheduler/src/scheduler_server/event_loop.rs:103-141 | the walk equals the reference: registry = changes before the stop index applied in order; trace = their launch/update pairs, then a final launch only if the stop was a failed send; result = that send's error, else Ok |
| TaskLauncher.LaunchTasksTraceAt | ballista/rust/scheduler/src/scheduler_server/event_loop.rs:103-141 | entry t of the trace belongs to position t/2; launches are at even entries and updates at odd ones; a position before the stop index had its send succeed; the stop index shows up only as the final launch of a failed send |
| TaskLauncher.LaunchTasksRegistry | ballista/rust/scheduler/src/scheduler_server/event_loop.rs:133-136 | the registry after the walk is the start registry with exactly the changes of the positions sent successfully applied |
| TaskLauncher.LaunchTasksEarlyExit | ballista/rust/scheduler/src/scheduler_server/event_loop.rs:137-141 | if position k has an empty list, nothing at k or after it is launched or applied to the registry, whatever the later lists hold |
| TaskLauncher.LaunchTasksSendsWholeList | ballista/rust/scheduler/src/scheduler_server/event_loop.rs:125-133 | each launch carries the whole task list of its position, unchanged, to the client registered for the executor id recorded at that position |
| TaskLauncher.LaunchTasksUpdateAfterSend | ballista/rust/scheduler/src/scheduler_server/event_loop.rs:133-136 | every registry update comes right after the launch for the same position, that send returned Ok, and the update applies that position's change |
| TaskLauncher.LaunchTasksUpdateAfterSendAt | ballista/rust/scheduler/src/scheduler_server/event_loop.rs:133-136 | a registry update at trace entry t comes right after the launch of the same position, whose send returned Ok, and applies that position's change |
| TaskLauncher.LaunchTasksSendThenUpdateAt | ballista/rust/scheduler/src/scheduler_server/event_loop.rs:133-136 | a launch whose send returned Ok is immediately followed by its position's update |
| TaskLauncher.LaunchTasksSendThenUpdate | ballista/rust/scheduler/src/scheduler_server/event_loop.rs:133-136 | every launch whose send returned Ok is immediately followed by its position's update |
| TaskLauncher.LaunchTasksSendFailure | ballista/rust/scheduler/src/scheduler_server/event_loop.rs:133-136 | the walk fails if and only if it stopped at a failed send. On failure it returns that send's error. The failed position is launched but not applied, no later position is attempted, and the updates of the earlier positions stay applied |
| TaskLauncher.LaunchTasksAllSent | ballista/rust/scheduler/src/scheduler_server/event_loop.rs:103-144 | when every send before the first empty list (or the end) succeeds, the walk returns Ok, makes two trace entries per position and applies all those changes |
| SchedulerServer.Baseline | ballista/rust/scheduler/src/scheduler_server/event_loop.rs:68-74 | one seed change per snapshot executor, same id, same order, holding its pre-policy free slots |
| SchedulerServer.Reconcile | ballista/rust/scheduler/src/scheduler_server/event_loop.rs:80-86 | zip semantics: positions covered by both sequences become (slots after − seed); positions past the post-policy snapshot keep their seed; ids and length never change |
| SchedulerServer.DataChanges | ballista/rust/scheduler/src/scheduler_server/event_loop.rs:68-86 | the change list has the snapshot's length and id order; entry i holds executor i's post-policy slots minus its pre-policy slots (−2 when the policy consumed 2) where the post-policy snapshot covers i; past its end the entry keeps its seed (pre-policy slots) |
| SchedulerServer.OfferResources | ballista/rust/scheduler/src/scheduler_server/event_loop.rs:57-95 | empty snapshot: returns `Ok(Some(ReviveOffers(1)))` for every n, sleeps, and makes no policy call, launch or update. Otherwise the policy is called first with the snapshot and n, and the cycle never emits an event. A policy error is returned with the registry untouched and nothing launched. With a task count of 0 the cycle returns `Ok(None)` after the policy call alone, with the registry untouched. Nothing is launched or applied unless the task count is positive |
| SchedulerServer.OnReceive | ballista/rust/scheduler/src/scheduler_server/event_loop.rs:158-165 | the event is routed unchanged to the offer cycle with its own n: registry, trace and result are exactly those of `offer_resources(n)`, errors included; a follow-up event is emitted exactly when the snapshot is empty, and it is `ReviveOffers(1)`; otherwise the event's own n reaches the policy |
| SchedulerServer.OfferResourcesDispatch | ballista/rust/scheduler/src/scheduler_server/event_loop.rs:88-94 | a launching cycle is the policy call followed by the walk over the computed changes. Its registry holds the changes before the stop index. It returns `Ok(None)` unless the walk stopped at a failed send, in which case it returns that send's error |
| SchedulerServer.OfferResourcesConservation | ballista/rust/scheduler/src/scheduler_server/event_loop.rs:68-92 | distinct ids known to the registry and a post-policy snapshot at least as long as the snapshot: each executor sent to successfully (positions before the stop index) ends with counter + (post − pre slots); every other snapshot executor, the one whose send failed included, keeps its counter |
| SchedulerServer.OfferResourcesPastPolicyEnd | ballista/rust/scheduler/src/scheduler_server/event_loop.rs:80-92 | when the policy's snapshot is shorter, an executor past its end that the walk sends to successfully (a position before the stop index) ends with counter + its pre-policy free slots, because its change kept its seed |
| Scenarios.NoCapacityRetriesWithOne | ballista/rust/scheduler/src/scheduler_server/event_loop.rs:61-66 | `ReviveOffers(5)` with no available executor sleeps 100 ms and yields `ReviveOffers(1)` with nothing else done |
| Scenarios.EmptyListStopsTheWalk | ballista/rust/scheduler/src/scheduler_server/event_loop.rs:103-141 | slots {2,0,3}, lists {[t1,t2],[],[t3]}: only the first executor is launched and its counter drops by 2; the third is skipped |
| Scenarios.ShrunkPolicySnapshotAddsSeed | ballista/rust/scheduler/src/scheduler_server/event_loop.rs:80-86 | snapshot {A:2, B:3}, policy snapshot [A:1], both lists sent: A drops to 1, B rises from 3 to 6 because its change keeps its seed |
| Scenarios.FailedSendKeepsEarlierUpdates | ballista/rust/scheduler/src/scheduler_server/event_loop.rs:133-136 | A sent, B fails: B's error is returned, A's update is kept, B's is not applied, C is never attempted |

## Left out

- The 100 ms `tokio::time::sleep` on an empty snapshot is a `Slept(100)` trace entry. No time passes.
- The `warn!`/`debug!` logging and the task-id formatting (lines 63, 106-124) have no effect on behaviour.
- The `RwLock` around the client map, `Arc` sharing and async/await are left out. A cycle is sequential, and the clients are a plain map.
- `get_available_executors_data` is not part of this model. Its result is the snapshot input.
- `fetch_schedulable_tasks` is not part of this model. Its answer is an input value: the snapshot as the policy left it, the assignment and the task count, or an error.
- `update_executor_data` is not part of this model. It is modelled as adding the change's delta to the executor's counter, and as doing nothing for an executor the registry does not know.
- The `launch_task` RPC is replaced by an oracle that gives the outcome of the send at each assignment position.
- `LaunchTaskParams` and `TaskDefinition` are opaque values. The `T`/`U` plan-codec generics are left out.
- The model is the non-test build: `#[cfg(not(test))]` is taken as enabled, so the cycle launches when the task count is positive.
- The inert `on_start`, `on_stop` and `on_error` hooks are left out. So is the generic event-loop driver, which lives outside this file.
- A panic (out-of-range `executors[idx]`, missing client) is excluded by a precondition, not modelled as an outcome.
- SchedulerServer.DataChanges: slot counts are unbounded integers. It does not model the `u32 as i32` casts wrapping above 2^31 − 1, because real slot counts are far below that.
- ExecutorManager.UpdateExecutorData: the counter is an unbounded integer and may go negative. Whatever the registry does with an underflowing `u32` is not shown.
