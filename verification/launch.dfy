/** The dispatch walk of the offer cycle: task lists are sent to executors in
    assignment order, each executor's slot change is applied after its send
    returns, the first empty list ends the walk, and a failed send aborts it. */
module TaskLauncher {
  import opened SchedulerTypes
  import opened ExecutorManager

  /** Outcome of the launch request sent at each assignment position. */
  type SendOracle = nat -> Result<()>

  /** Every position in [lo, i) held a non-empty list whose send succeeded, so
      the walk started at lo gets as far as position i. */
  predicate ReachedFrom(assignment: Assignment, sends: SendOracle, lo: nat, i: nat)
    requires lo <= i <= |assignment|
  {
    forall j :: lo <= j < i ==> assignment[j] != [] && sends(j).Ok?
  }

  /** Every position the walk started at lo would send from has a slot change
      at the same index and a client for that change's executor; otherwise
      the indexing or the client lookup would panic. */
  predicate LaunchSafe(executors: seq<ExecutorDataChange>, assignment: Assignment,
                       clients: map<ExecutorId, ExecutorClient>, sends: SendOracle, lo: nat)
    requires lo <= |assignment|
  {
    forall i :: lo <= i < |assignment| && assignment[i] != [] && ReachedFrom(assignment, sends, lo, i) ==>
      i < |executors| && executors[i].executorId in clients
  }

  /** Where the walk started at i stops: the first position that is past the
      end, holds an empty list, or whose send fails. */
  function StopIndex(assignment: Assignment, sends: SendOracle, i: nat): (k: nat)
    requires i <= |assignment|
    ensures i <= k <= |assignment|
    ensures ReachedFrom(assignment, sends, i, k)
    ensures k == |assignment| || assignment[k] == [] || sends(k).Err?
    decreases |assignment| - i
  {
    if i == |assignment| || assignment[i] == [] || sends(i).Err? then i
    else StopIndex(assignment, sends, i + 1)
  }

  /** Position k holds a non-empty list. Applied to k = StopIndex(...), it
      means the walk stopped at k because the send at k failed. */
  predicate FailsAt(assignment: Assignment, k: nat) {
    k < |assignment| && assignment[k] != []
  }

  /** The launch request for position j: the whole list at j, to the client of
      the executor at j. */
  function LaunchOf(executors: seq<ExecutorDataChange>, assignment: Assignment,
                    clients: map<ExecutorId, ExecutorClient>, j: nat): Effect
    requires j < |executors| && j < |assignment|
    requires executors[j].executorId in clients
  {
    TasksLaunched(j, executors[j].executorId, clients[executors[j].executorId], assignment[j])
  }

  /** Reference trace of a walk whose positions lo..hi-1 were all sent
      successfully: a launch then its registry update, position by position. */
  function Dispatched(executors: seq<ExecutorDataChange>, assignment: Assignment,
                      clients: map<ExecutorId, ExecutorClient>, lo: nat, hi: nat): (d: seq<Effect>)
    requires lo <= hi <= |executors| && hi <= |assignment|
    requires forall j :: lo <= j < hi ==> executors[j].executorId in clients
    ensures |d| == 2 * (hi - lo)
    ensures forall t :: 0 <= t < |d| && t % 2 == 0 ==> d[t] == LaunchOf(executors, assignment, clients, lo + t / 2)
    ensures forall t :: 0 <= t < |d| && t % 2 == 1 ==> d[t] == DataUpdated(lo + t / 2, executors[lo + t / 2])
    decreases hi - lo
  {
    if lo == hi then []
    else [LaunchOf(executors, assignment, clients, lo), DataUpdated(lo, executors[lo])]
         + Dispatched(executors, assignment, clients, lo + 1, hi)
  }

  /** Passing a position whose send succeeded keeps the walk safe. */
  lemma LaunchSafeNext(executors: seq<ExecutorDataChange>, assignment: Assignment,
                       clients: map<ExecutorId, ExecutorClient>, sends: SendOracle, i: nat)
    requires i < |assignment| && assignment[i] != [] && sends(i).Ok?
    requires LaunchSafe(executors, assignment, clients, sends, i)
    ensures LaunchSafe(executors, assignment, clients, sends, i + 1)
  {
  }

  /** The walk from position i on, with the registry as it stands when
      position i is reached. */
  function LaunchFrom(registry: Registry, executors: seq<ExecutorDataChange>, assignment: Assignment,
                      clients: map<ExecutorId, ExecutorClient>, sends: SendOracle, i: nat): (o: Outcome<()>)
    requires i <= |assignment|
    requires LaunchSafe(executors, assignment, clients, sends, i)
    ensures o.registry.Keys == registry.Keys
    ensures forall t :: 0 <= t < |o.trace| ==>
      (o.trace[t].TasksLaunched? || o.trace[t].DataUpdated?) &&
      i <= o.trace[t].position < |assignment| && assignment[o.trace[t].position] != []
    ensures o.result.Err? ==>
      |o.trace| > 0 && o.trace[|o.trace| - 1].TasksLaunched? &&
      sends(o.trace[|o.trace| - 1].position) == Err(o.result.error)
    decreases |assignment| - i
  {
    if i == |assignment| || assignment[i] == [] then
      Outcome(registry, [], Ok(()))
    else
      assert ReachedFrom(assignment, sends, i, i);
      var change := executors[i];
      var launch := TasksLaunched(i, change.executorId, clients[change.executorId], assignment[i]);
      match sends(i)
      case Err(e) => Outcome(registry, [launch], Err(e))
      case Ok(_) =>
        LaunchSafeNext(executors, assignment, clients, sends, i);
        var rest := LaunchFrom(UpdateExecutorData(registry, change), executors, assignment, clients, sends, i + 1);
        Outcome(rest.registry, [launch, DataUpdated(i, change)] + rest.trace, rest.result)
  }

  /** launch_tasks: the whole walk, from the first position. */
  function LaunchTasks(registry: Registry, executors: seq<ExecutorDataChange>, assignment: Assignment,
                       clients: map<ExecutorId, ExecutorClient>, sends: SendOracle): (o: Outcome<()>)
    requires LaunchSafe(executors, assignment, clients, sends, 0)
    ensures o.registry.Keys == registry.Keys
    ensures forall t :: 0 <= t < |o.trace| ==> o.trace[t].TasksLaunched? || o.trace[t].DataUpdated?
  {
    LaunchFrom(registry, executors, assignment, clients, sends, 0)
  }

  /** Every position the walk from i sends from lies inside the change list
      and has a client, which is what the reference trace needs. */
  lemma StopIndexSafe(executors: seq<ExecutorDataChange>, assignment: Assignment,
                      clients: map<ExecutorId, ExecutorClient>, sends: SendOracle, i: nat)
    requires i <= |assignment| && i <= |executors|
    requires LaunchSafe(executors, assignment, clients, sends, i)
    ensures var k := StopIndex(assignment, sends, i);
      && k <= |executors|
      && (forall j :: i <= j < k ==> executors[j].executorId in clients)
      && (FailsAt(assignment, k) ==> k < |executors| && executors[k].executorId in clients)
  {
    var k := StopIndex(assignment, sends, i);
    forall j | i <= j < k ensures j < |executors| && executors[j].executorId in clients {
      assert ReachedFrom(assignment, sends, i, j);
    }
    if k > i {
      assert assignment[k - 1] != [];
      assert ReachedFrom(assignment, sends, i, k - 1);
    }
  }

  /** The walk from i equals the reference: positions up to the stop index are
      launched and then updated, a failing send at the stop index is launched
      but not updated, and the registry holds exactly the updates of the
      positions sent successfully. */
  lemma {:induction false} LaunchFromSpec(registry: Registry, executors: seq<ExecutorDataChange>, assignment: Assignment,
                                          clients: map<ExecutorId, ExecutorClient>, sends: SendOracle, i: nat)
    requires i <= |assignment| && i <= |executors|
    requires LaunchSafe(executors, assignment, clients, sends, i)
    ensures var k := StopIndex(assignment, sends, i);
      && k <= |executors|
      && (forall j :: i <= j < k ==> executors[j].executorId in clients)
      && (FailsAt(assignment, k) ==> k < |executors| && executors[k].executorId in clients)
    ensures var k := StopIndex(assignment, sends, i);
            var o := LaunchFrom(registry, executors, assignment, clients, sends, i);
      && o.registry == UpdateAll(registry, executors[i..k])
      && o.trace == Dispatched(executors, assignment, clients, i, k)
                    + (if FailsAt(assignment, k) then [LaunchOf(executors, assignment, clients, k)] else [])
      && o.result == (if FailsAt(assignment, k) then Err(sends(k).error) else Ok(()))
    decreases |assignment| - i
  {
    StopIndexSafe(executors, assignment, clients, sends, i);
    var k := StopIndex(assignment, sends, i);
    var o := LaunchFrom(registry, executors, assignment, clients, sends, i);
    if i == |assignment| || assignment[i] == [] || sends(i).Err? {
      assert k == i;
    } else {
      assert ReachedFrom(assignment, sends, i, i);
      var change := executors[i];
      var next := UpdateExecutorData(registry, change);
      LaunchSafeNext(executors, assignment, clients, sends, i);
      var rest := LaunchFrom(next, executors, assignment, clients, sends, i + 1);
      var launch := LaunchOf(executors, assignment, clients, i);
      assert o == Outcome(rest.registry, [launch, DataUpdated(i, change)] + rest.trace, rest.result);
      assert k == StopIndex(assignment, sends, i + 1);
      LaunchFromSpec(next, executors, assignment, clients, sends, i + 1);
      var tail := if FailsAt(assignment, k) then [LaunchOf(executors, assignment, clients, k)] else [];
      assert Dispatched(executors, assignment, clients, i, k)
          == [launch, DataUpdated(i, change)] + Dispatched(executors, assignment, clients, i + 1, k);
      assert o.trace == Dispatched(executors, assignment, clients, i, k) + tail;
      assert executors[i..k][0] == change;
      assert executors[i..k][1..] == executors[i + 1..k];
      assert o.registry == UpdateAll(registry, executors[i..k]);
    }
  }

  /** Entry t of the walk's trace: launches sit at even entries and updates at
      odd ones, both for position t / 2; positions before the stop index were
      sent successfully; the stop index appears only as the final launch of a
      failing send. */
  lemma LaunchTasksTraceAt(registry: Registry, executors: seq<ExecutorDataChange>, assignment: Assignment,
                           clients: map<ExecutorId, ExecutorClient>, sends: SendOracle, t: nat)
    requires LaunchSafe(executors, assignment, clients, sends, 0)
    requires t < |LaunchTasks(registry, executors, assignment, clients, sends).trace|
    ensures var o := LaunchTasks(registry, executors, assignment, clients, sends);
            var k := StopIndex(assignment, sends, 0);
            var p := t / 2;
      && |o.trace| == 2 * k + (if FailsAt(assignment, k) then 1 else 0)
      && o.trace[t].position == p && p <= k
      && p < |executors| && p < |assignment| && executors[p].executorId in clients
      && (p < k ==> assignment[p] != [] && sends(p).Ok?)
      && (p == k ==> t % 2 == 0 && t == |o.trace| - 1 && FailsAt(assignment, k) && sends(k).Err?)
      && (t % 2 == 0 ==> o.trace[t] == LaunchOf(executors, assignment, clients, p))
      && (t % 2 == 1 ==> o.trace[t] == DataUpdated(p, executors[p]))
  {
    LaunchFromSpec(registry, executors, assignment, clients, sends, 0);
    var o := LaunchTasks(registry, executors, assignment, clients, sends);
    var k := StopIndex(assignment, sends, 0);
    var d := Dispatched(executors, assignment, clients, 0, k);
    if t < |d| {
      assert o.trace[t] == d[t];
      assert t / 2 < k;
      assert ReachedFrom(assignment, sends, 0, k);
    } else {
      assert o.trace[t] == LaunchOf(executors, assignment, clients, k);
      assert t == 2 * k;
    }
  }

  /** The registry after the walk holds exactly the changes of the positions
      before the stop index, applied in order. */
  lemma LaunchTasksRegistry(registry: Registry, executors: seq<ExecutorDataChange>, assignment: Assignment,
                            clients: map<ExecutorId, ExecutorClient>, sends: SendOracle)
    requires LaunchSafe(executors, assignment, clients, sends, 0)
    ensures StopIndex(assignment, sends, 0) <= |executors|
    ensures LaunchTasks(registry, executors, assignment, clients, sends).registry
         == UpdateAll(registry, executors[..StopIndex(assignment, sends, 0)])
  {
    LaunchFromSpec(registry, executors, assignment, clients, sends, 0);
    var m := StopIndex(assignment, sends, 0);
    assert executors[0..m] == executors[..m];
  }

  /** A list-empty position k ends the walk: nothing at k or after it is
      launched or applied to the registry, whatever those lists hold. */
  lemma LaunchTasksEarlyExit(registry: Registry, executors: seq<ExecutorDataChange>, assignment: Assignment,
                             clients: map<ExecutorId, ExecutorClient>, sends: SendOracle, k: nat)
    requires LaunchSafe(executors, assignment, clients, sends, 0)
    requires k < |assignment| && assignment[k] == []
    ensures var o := LaunchTasks(registry, executors, assignment, clients, sends);
      forall t :: 0 <= t < |o.trace| ==> o.trace[t].position < k
    ensures StopIndex(assignment, sends, 0) <= k
    ensures StopIndex(assignment, sends, 0) <= |executors|
    ensures LaunchTasks(registry, executors, assignment, clients, sends).registry
         == UpdateAll(registry, executors[..StopIndex(assignment, sends, 0)])
  {
    LaunchTasksRegistry(registry, executors, assignment, clients, sends);
    var o := LaunchTasks(registry, executors, assignment, clients, sends);
    forall t | 0 <= t < |o.trace| ensures o.trace[t].position < k {
      LaunchTasksTraceAt(registry, executors, assignment, clients, sends, t);
    }
  }

  /** Every launch carries the whole task list of its position, unchanged, to
      the client of the executor recorded at that same position. */
  lemma LaunchTasksSendsWholeList(registry: Registry, executors: seq<ExecutorDataChange>, assignment: Assignment,
                                  clients: map<ExecutorId, ExecutorClient>, sends: SendOracle)
    requires LaunchSafe(executors, assignment, clients, sends, 0)
    ensures var o := LaunchTasks(registry, executors, assignment, clients, sends);
      forall t :: 0 <= t < |o.trace| && o.trace[t].TasksLaunched? ==>
        var p := o.trace[t].position;
        && p < |executors| && p < |assignment|
        && o.trace[t].executorId == executors[p].executorId
        && executors[p].executorId in clients
        && o.trace[t].client == clients[executors[p].executorId]
        && o.trace[t].tasks == assignment[p]
  {
    var o := LaunchTasks(registry, executors, assignment, clients, sends);
    forall t | 0 <= t < |o.trace| && o.trace[t].TasksLaunched?
      ensures var p := o.trace[t].position;
        && p < |executors| && p < |assignment|
        && o.trace[t].executorId == executors[p].executorId
        && executors[p].executorId in clients
        && o.trace[t].client == clients[executors[p].executorId]
        && o.trace[t].tasks == assignment[p]
    {
      LaunchTasksTraceAt(registry, executors, assignment, clients, sends, t);
    }
  }

  /** Entry t of the trace, a registry update, comes right after the launch of
      the same position, whose send returned Ok, and applies that position's
      change. */
  lemma LaunchTasksUpdateAfterSendAt(registry: Registry, executors: seq<ExecutorDataChange>, assignment: Assignment,
                                     clients: map<ExecutorId, ExecutorClient>, sends: SendOracle, t: nat)
    requires LaunchSafe(executors, assignment, clients, sends, 0)
    requires var o := LaunchTasks(registry, executors, assignment, clients, sends);
      t < |o.trace| && o.trace[t].DataUpdated?
    ensures var o := LaunchTasks(registry, executors, assignment, clients, sends);
            var p := o.trace[t].position;
      && 0 < t && o.trace[t - 1].TasksLaunched? && o.trace[t - 1].position == p
      && sends(p).Ok?
      && p < |executors| && o.trace[t].change == executors[p]
  {
    LaunchTasksTraceAt(registry, executors, assignment, clients, sends, t);
    LaunchTasksTraceAt(registry, executors, assignment, clients, sends, t - 1);
  }

  /** An executor's registry update is applied only right after its own send
      returned Ok, and it applies the change recorded at that position. */
  lemma LaunchTasksUpdateAfterSend(registry: Registry, executors: seq<ExecutorDataChange>, assignment: Assignment,
                                   clients: map<ExecutorId, ExecutorClient>, sends: SendOracle)
    requires LaunchSafe(executors, assignment, clients, sends, 0)
    ensures var o := LaunchTasks(registry, executors, assignment, clients, sends);
      forall t :: 0 <= t < |o.trace| && o.trace[t].DataUpdated? ==>
        var p := o.trace[t].position;
        && 0 < t && o.trace[t - 1].TasksLaunched? && o.trace[t - 1].position == p
        && sends(p).Ok?
        && p < |executors| && o.trace[t].change == executors[p]
  {
    var o := LaunchTasks(registry, executors, assignment, clients, sends);
    forall t | 0 <= t < |o.trace| && o.trace[t].DataUpdated?
      ensures 0 < t && o.trace[t - 1].TasksLaunched? && o.trace[t - 1].position == o.trace[t].position
      ensures sends(o.trace[t].position).Ok?
      ensures o.trace[t].position < |executors| && o.trace[t].change == executors[o.trace[t].position]
    {
      LaunchTasksUpdateAfterSendAt(registry, executors, assignment, clients, sends, t);
    }
  }

  /** Entry t of the trace, a launch whose send returned Ok, is followed by
      the update of the same position. */
  lemma LaunchTasksSendThenUpdateAt(registry: Registry, executors: seq<ExecutorDataChange>, assignment: Assignment,
                                    clients: map<ExecutorId, ExecutorClient>, sends: SendOracle, t: nat)
    requires LaunchSafe(executors, assignment, clients, sends, 0)
    requires var o := LaunchTasks(registry, executors, assignment, clients, sends);
      t < |o.trace| && o.trace[t].TasksLaunched? && sends(o.trace[t].position).Ok?
    ensures var o := LaunchTasks(registry, executors, assignment, clients, sends);
            var p := o.trace[t].position;
      && t + 1 < |o.trace| && p < |executors|
      && o.trace[t + 1] == DataUpdated(p, executors[p])
  {
    var o := LaunchTasks(registry, executors, assignment, clients, sends);
    LaunchTasksTraceAt(registry, executors, assignment, clients, sends, t);
    var p := o.trace[t].position;
    assert p < StopIndex(assignment, sends, 0);
    LaunchTasksTraceAt(registry, executors, assignment, clients, sends, t + 1);
    assert (t + 1) / 2 == p;
  }

  /** Every send that returned Ok is immediately followed by the registry
      update of the same position. */
  lemma LaunchTasksSendThenUpdate(registry: Registry, executors: seq<ExecutorDataChange>, assignment: Assignment,
                                  clients: map<ExecutorId, ExecutorClient>, sends: SendOracle)
    requires LaunchSafe(executors, assignment, clients, sends, 0)
    ensures var o := LaunchTasks(registry, executors, assignment, clients, sends);
      forall t :: 0 <= t < |o.trace| && o.trace[t].TasksLaunched? && sends(o.trace[t].position).Ok? ==>
        var p := o.trace[t].position;
        && t + 1 < |o.trace| && p < |executors|
        && o.trace[t + 1] == DataUpdated(p, executors[p])
  {
    var o := LaunchTasks(registry, executors, assignment, clients, sends);
    forall t | 0 <= t < |o.trace| && o.trace[t].TasksLaunched? && sends(o.trace[t].position).Ok?
      ensures t + 1 < |o.trace| && o.trace[t].position < |executors|
      ensures o.trace[t + 1] == DataUpdated(o.trace[t].position, executors[o.trace[t].position])
    {
      LaunchTasksSendThenUpdateAt(registry, executors, assignment, clients, sends, t);
    }
  }

  /** The walk fails exactly when it stops at a send error. Then it returns
      that send's error, the failed position is launched but not applied,
      nothing after it is attempted, and the updates of the positions before
      it stay applied. */
  lemma LaunchTasksSendFailure(registry: Registry, executors: seq<ExecutorDataChange>, assignment: Assignment,
                               clients: map<ExecutorId, ExecutorClient>, sends: SendOracle)
    requires LaunchSafe(executors, assignment, clients, sends, 0)
    ensures var o := LaunchTasks(registry, executors, assignment, clients, sends);
            var k := StopIndex(assignment, sends, 0);
      o.result.Err? <==> FailsAt(assignment, k)
    ensures var o := LaunchTasks(registry, executors, assignment, clients, sends);
            var k := StopIndex(assignment, sends, 0);
      o.result.Err? ==>
        && sends(k) == Err(o.result.error)
        && k < |executors|
        && o.trace[|o.trace| - 1] == LaunchOf(executors, assignment, clients, k)
        && (forall t :: 0 <= t < |o.trace| ==> o.trace[t].position <= k)
        && (forall t :: 0 <= t < |o.trace| && o.trace[t].DataUpdated? ==> o.trace[t].position < k)
        && o.registry == UpdateAll(registry, executors[..k])
  {
    LaunchFromSpec(registry, executors, assignment, clients, sends, 0);
    var o := LaunchTasks(registry, executors, assignment, clients, sends);
    var k := StopIndex(assignment, sends, 0);
    assert executors[0..k] == executors[..k];
    if o.result.Err? {
      forall t | 0 <= t < |o.trace|
        ensures o.trace[t].position <= k
        ensures o.trace[t].DataUpdated? ==> o.trace[t].position < k
      {
        LaunchTasksTraceAt(registry, executors, assignment, clients, sends, t);
      }
    }
  }

  /** A walk that meets no failing send returns Ok after launching and
      applying every position before the first empty list (or the end). */
  lemma LaunchTasksAllSent(registry: Registry, executors: seq<ExecutorDataChange>, assignment: Assignment,
                           clients: map<ExecutorId, ExecutorClient>, sends: SendOracle, k: nat)
    requires LaunchSafe(executors, assignment, clients, sends, 0)
    requires k <= |assignment|
    requires k == |assignment| || assignment[k] == []
    requires forall j :: 0 <= j < k ==> assignment[j] != [] && sends(j).Ok?
    ensures k <= |executors|
    ensures var o := LaunchTasks(registry, executors, assignment, clients, sends);
      && o.result == Ok(())
      && |o.trace| == 2 * k
      && o.registry == UpdateAll(registry, executors[..k])
  {
    LaunchFromSpec(registry, executors, assignment, clients, sends, 0);
    assert executors[0..k] == executors[..k];
  }
}
