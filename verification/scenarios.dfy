/** Worked offer cycles on concrete executors, checked against the general
    model. */
module Scenarios {
  import opened SchedulerTypes
  import opened ExecutorManager
  import opened TaskLauncher
  import opened SchedulerServer

  const t1 := TaskDefinition("job", 1, 0)
  const t2 := TaskDefinition("job", 1, 1)
  const t3 := TaskDefinition("job", 1, 2)

  function ClientsFor(ids: set<ExecutorId>): map<ExecutorId, ExecutorClient> {
    map id | id in ids :: ExecutorClient(id)
  }

  /** No executor available: ReviveOffers(5) sleeps, asks for ReviveOffers(1)
      and touches nothing else. */
  lemma NoCapacityRetriesWithOne(registry: Registry, policy: Result<Fetched>,
                                 clients: map<ExecutorId, ExecutorClient>, sends: SendOracle)
    ensures var o := OnReceive(registry, ReviveOffers(5), [], policy, clients, sends);
      o == Outcome(registry, [Slept(100)], Ok(Some(ReviveOffers(1))))
  {
  }

  /** Three executors with 2, 0 and 3 free slots; the policy hands [t1, t2] to
      the first, nothing to the second and [t3] to the third. Only the first
      executor is launched and its counter drops by 2; the walk stops at the
      second, so the third gets nothing although it had free slots. */
  lemma EmptyListStopsTheWalk()
    ensures
      var snapshot := [ExecutorData("e1", 2), ExecutorData("e2", 0), ExecutorData("e3", 3)];
      var after := [ExecutorData("e1", 0), ExecutorData("e2", 0), ExecutorData("e3", 3)];
      var policy: Result<Fetched> := Ok(Fetched(after, [[t1, t2], [], [t3]], 3));
      var clients := ClientsFor({"e1", "e2", "e3"});
      var registry := map["e1" := 2, "e2" := 0, "e3" := 3];
      var o := OnReceive(registry, ReviveOffers(4), snapshot, policy, clients, (_: nat) => Ok(()));
      && o.result == Ok(None)
      && o.registry == map["e1" := 0, "e2" := 0, "e3" := 3]
      && o.trace == [PolicyCalled(snapshot, 4),
                     TasksLaunched(0, "e1", ExecutorClient("e1"), [t1, t2]),
                     DataUpdated(0, ExecutorDataChange("e1", -2))]
  {
    var snapshot := [ExecutorData("e1", 2), ExecutorData("e2", 0), ExecutorData("e3", 3)];
    var after := [ExecutorData("e1", 0), ExecutorData("e2", 0), ExecutorData("e3", 3)];
    var changes := DataChanges(snapshot, after);
    assert changes == [ExecutorDataChange("e1", -2), ExecutorDataChange("e2", 0), ExecutorDataChange("e3", 0)];
    var registry := map["e1" := 2, "e2" := 0, "e3" := 3];
    var registry1 := UpdateExecutorData(registry, changes[0]);
    assert registry1 == map["e1" := 0, "e2" := 0, "e3" := 3];
    var assignment := [[t1, t2], [], [t3]];
    var clients := ClientsFor({"e1", "e2", "e3"});
    var sends := (_: nat) => Ok(());
    assert LaunchFrom(registry1, changes, assignment, clients, sends, 1) == Outcome(registry1, [], Ok(()));
    assert LaunchFrom(registry, changes, assignment, clients, sends, 0)
        == Outcome(registry1, [TasksLaunched(0, "e1", ExecutorClient("e1"), [t1, t2]),
                               DataUpdated(0, ExecutorDataChange("e1", -2))], Ok(()));
  }

  /** The send to A succeeds and the send to B, next in line, fails: the
      cycle returns B's error, A's update stays applied, B's is not applied,
      and C is never attempted. */
  lemma FailedSendKeepsEarlierUpdates()
    ensures
      var err := BallistaError("connection refused");
      var snapshot := [ExecutorData("A", 2), ExecutorData("B", 2), ExecutorData("C", 1)];
      var after := [ExecutorData("A", 1), ExecutorData("B", 1), ExecutorData("C", 0)];
      var policy: Result<Fetched> := Ok(Fetched(after, [[t1], [t2], [t3]], 3));
      var clients := ClientsFor({"A", "B", "C"});
      var sends := (i: nat) => if i == 1 then Err(err) else Ok(());
      var registry := map["A" := 2, "B" := 2, "C" := 1];
      var o := OnReceive(registry, ReviveOffers(3), snapshot, policy, clients, sends);
      && o.result == Err(err)
      && o.registry == map["A" := 1, "B" := 2, "C" := 1]
      && o.trace == [PolicyCalled(snapshot, 3),
                     TasksLaunched(0, "A", ExecutorClient("A"), [t1]),
                     DataUpdated(0, ExecutorDataChange("A", -1)),
                     TasksLaunched(1, "B", ExecutorClient("B"), [t2])]
  {
    var snapshot := [ExecutorData("A", 2), ExecutorData("B", 2), ExecutorData("C", 1)];
    var after := [ExecutorData("A", 1), ExecutorData("B", 1), ExecutorData("C", 0)];
    var changes := DataChanges(snapshot, after);
    assert changes == [ExecutorDataChange("A", -1), ExecutorDataChange("B", -1), ExecutorDataChange("C", -1)];
    var registry := map["A" := 2, "B" := 2, "C" := 1];
    var registry1 := UpdateExecutorData(registry, changes[0]);
    assert registry1 == map["A" := 1, "B" := 2, "C" := 1];
    var err := BallistaError("connection refused");
    var assignment := [[t1], [t2], [t3]];
    var clients := ClientsFor({"A", "B", "C"});
    var sends := (i: nat) => if i == 1 then Err(err) else Ok(());
    assert LaunchFrom(registry1, changes, assignment, clients, sends, 1)
        == Outcome(registry1, [TasksLaunched(1, "B", ExecutorClient("B"), [t2])], Err(err));
    assert LaunchFrom(registry, changes, assignment, clients, sends, 0)
        == Outcome(registry1, [TasksLaunched(0, "A", ExecutorClient("A"), [t1]),
                               DataUpdated(0, ExecutorDataChange("A", -1)),
                               TasksLaunched(1, "B", ExecutorClient("B"), [t2])], Err(err));
  }

  /** The policy hands back a shorter snapshot than it was given: B, past its
      end, keeps its seed of 3 as its change, so sending to B raises B's
      counter from 3 to 6 instead of lowering it. */
  lemma ShrunkPolicySnapshotAddsSeed()
    ensures
      var snapshot := [ExecutorData("A", 2), ExecutorData("B", 3)];
      var policy: Result<Fetched> := Ok(Fetched([ExecutorData("A", 1)], [[t1], [t2]], 2));
      var clients := ClientsFor({"A", "B"});
      var registry := map["A" := 2, "B" := 3];
      var o := OnReceive(registry, ReviveOffers(2), snapshot, policy, clients, (_: nat) => Ok(()));
      && o.result == Ok(None)
      && o.registry == map["A" := 1, "B" := 6]
  {
    var snapshot := [ExecutorData("A", 2), ExecutorData("B", 3)];
    var after := [ExecutorData("A", 1)];
    var changes := DataChanges(snapshot, after);
    assert changes == [ExecutorDataChange("A", -1), ExecutorDataChange("B", 3)];
    var registry := map["A" := 2, "B" := 3];
    var registry1 := UpdateExecutorData(registry, changes[0]);
    assert registry1 == map["A" := 1, "B" := 3];
    var registry2 := UpdateExecutorData(registry1, changes[1]);
    assert registry2 == map["A" := 1, "B" := 6];
    var assignment := [[t1], [t2]];
    var clients := ClientsFor({"A", "B"});
    var sends := (_: nat) => Ok(());
    assert LaunchFrom(registry2, changes, assignment, clients, sends, 2) == Outcome(registry2, [], Ok(()));
    assert LaunchFrom(registry1, changes, assignment, clients, sends, 1).registry == registry2;
    assert LaunchFrom(registry, changes, assignment, clients, sends, 0).registry == registry2;
  }
}
