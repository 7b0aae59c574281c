/** The executor registry's slot counters as seen from the offer cycle: the
    one mutation it performs is "apply this change to that executor". */
module ExecutorManager {
  import opened SchedulerTypes

  /** Adds the change's delta to the named executor's counter; an executor the
      registry does not know is left alone. */
  function UpdateExecutorData(registry: Registry, change: ExecutorDataChange): (r: Registry)
    ensures r.Keys == registry.Keys
    ensures change.executorId in registry ==>
      r[change.executorId] == registry[change.executorId] + change.taskSlots
    ensures forall id :: id in registry && id != change.executorId ==> r[id] == registry[id]
  {
    if change.executorId in registry then
      registry[change.executorId := registry[change.executorId] + change.taskSlots]
    else
      registry
  }

  /** Applies the changes one after the other, first to last. */
  function UpdateAll(registry: Registry, changes: seq<ExecutorDataChange>): (r: Registry)
    ensures r.Keys == registry.Keys
    decreases |changes|
  {
    if changes == [] then registry
    else UpdateAll(UpdateExecutorData(registry, changes[0]), changes[1..])
  }

  predicate DistinctIds(changes: seq<ExecutorDataChange>) {
    forall i, j :: 0 <= i < j < |changes| ==> changes[i].executorId != changes[j].executorId
  }

  /** An executor none of the changes names keeps its counter. */
  lemma {:induction false} UpdateAllUntouched(registry: Registry, changes: seq<ExecutorDataChange>, id: ExecutorId)
    requires id in registry
    requires forall j :: 0 <= j < |changes| ==> changes[j].executorId != id
    ensures UpdateAll(registry, changes)[id] == registry[id]
    decreases |changes|
  {
    if changes != [] {
      var next := UpdateExecutorData(registry, changes[0]);
      UpdateAllUntouched(next, changes[1..], id);
    }
  }

  /** With distinct executor ids, each named executor's counter moves by
      exactly its own change's delta. */
  lemma {:induction false} UpdateAllAt(registry: Registry, changes: seq<ExecutorDataChange>, j: nat)
    requires DistinctIds(changes)
    requires j < |changes|
    requires changes[j].executorId in registry
    ensures UpdateAll(registry, changes)[changes[j].executorId]
         == registry[changes[j].executorId] + changes[j].taskSlots
    decreases |changes|
  {
    var next := UpdateExecutorData(registry, changes[0]);
    if j == 0 {
      UpdateAllUntouched(next, changes[1..], changes[0].executorId);
    } else {
      assert changes[1..][j - 1] == changes[j];
      UpdateAllAt(next, changes[1..], j - 1);
    }
  }
}
