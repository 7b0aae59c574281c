/** The scheduler server's event action: one resource-offer cycle per
    ReviveOffers event. The executor snapshot, the scheduling policy's answer
    and the outcome of every launch request are inputs, so a cycle is a pure
    function of them and of the registry it starts from. */
module SchedulerServer {
  import opened SchedulerTypes
  import opened ExecutorManager
  import opened TaskLauncher

  /** Pause before asking again when no executor has free slots. */
  const BackoffMillis: nat := 100

  /** One change per executor, seeded with its free slots before the policy
      runs (not yet a delta). */
  function Baseline(executors: seq<ExecutorData>): (b: seq<ExecutorDataChange>)
    ensures |b| == |executors|
    ensures forall i :: 0 <= i < |b| ==>
      b[i].executorId == executors[i].executorId && b[i].taskSlots == executors[i].availableTaskSlots
  {
    seq(|executors|, i requires 0 <= i < |executors| =>
      ExecutorDataChange(executors[i].executorId, executors[i].availableTaskSlots))
  }

  /** Walks the seeded changes and the snapshot the policy left behind side by
      side, stopping at the shorter one, and turns each seed into (slots now -
      seed). Changes past the end of the shorter one keep their seed. */
  function Reconcile(changes: seq<ExecutorDataChange>, after: seq<ExecutorData>): (r: seq<ExecutorDataChange>)
    ensures |r| == |changes|
    ensures forall i :: 0 <= i < |r| ==> r[i].executorId == changes[i].executorId
    ensures forall i :: 0 <= i < |r| && i < |after| ==>
      r[i].taskSlots == after[i].availableTaskSlots - changes[i].taskSlots
    ensures forall i :: |after| <= i < |r| ==> r[i] == changes[i]
    decreases |changes|
  {
    if changes == [] || after == [] then changes
    else
      [ExecutorDataChange(changes[0].executorId, after[0].availableTaskSlots - changes[0].taskSlots)]
      + Reconcile(changes[1..], after[1..])
  }

  /** The change list the cycle dispatches with: same executors in the same
      order as the snapshot, each carrying the slots the policy left minus the
      slots it had before (negative when slots were consumed). */
  function DataChanges(before: seq<ExecutorData>, after: seq<ExecutorData>): (c: seq<ExecutorDataChange>)
    ensures |c| == |before|
    ensures forall i :: 0 <= i < |c| ==> c[i].executorId == before[i].executorId
    ensures forall i :: 0 <= i < |c| && i < |after| ==>
      c[i].taskSlots == after[i].availableTaskSlots - before[i].availableTaskSlots
    ensures forall i :: |after| <= i < |c| ==> c[i].taskSlots == before[i].availableTaskSlots
  {
    Reconcile(Baseline(before), after)
  }

  /** True when the cycle gets as far as launching tasks. */
  predicate Launches(snapshot: seq<ExecutorData>, policy: Result<Fetched>) {
    snapshot != [] && policy.Ok? && policy.value.numTasks > 0
  }

  /** The cycle would not panic: when it launches, every position it sends
      from has a change and a client. */
  predicate OfferSafe(snapshot: seq<ExecutorData>, policy: Result<Fetched>,
                      clients: map<ExecutorId, ExecutorClient>, sends: SendOracle)
  {
    snapshot != [] && policy.Ok? && policy.value.numTasks > 0 ==>
      LaunchSafe(DataChanges(snapshot, policy.value.executors), policy.value.assignment, clients, sends, 0)
  }

  /** offer_resources(n): retry later when no executor is available; otherwise
      ask the policy, compute the per-executor slot changes, and launch when
      the policy assigned at least one task. */
  function OfferResources(registry: Registry, snapshot: seq<ExecutorData>, policy: Result<Fetched>,
                          clients: map<ExecutorId, ExecutorClient>, sends: SendOracle, n: u32)
    : (o: Outcome<Option<SchedulerServerEvent>>)
    requires OfferSafe(snapshot, policy, clients, sends)
    ensures snapshot == [] ==>
      && o.result == Ok(Some(ReviveOffers(1)))
      && o.registry == registry
      && o.trace == [Slept(BackoffMillis)]
    ensures snapshot != [] ==>
      && (o.result.Ok? ==> o.result.value == None)
      && |o.trace| > 0 && o.trace[0] == PolicyCalled(snapshot, n)
    ensures snapshot != [] && policy.Err? ==>
      && o.result == Err(policy.error)
      && o.registry == registry
      && o.trace == [PolicyCalled(snapshot, n)]
    ensures snapshot != [] && policy.Ok? && policy.value.numTasks == 0 ==>
      o == Outcome(registry, [PolicyCalled(snapshot, n)], Ok(None))
    ensures !Launches(snapshot, policy) ==> o.registry == registry
    ensures forall t :: 0 <= t < |o.trace| && (o.trace[t].TasksLaunched? || o.trace[t].DataUpdated?) ==>
      Launches(snapshot, policy) && 0 < t
    ensures o.registry.Keys == registry.Keys
  {
    if |snapshot| == 0 then
      Outcome(registry, [Slept(BackoffMillis)], Ok(Some(ReviveOffers(1))))
    else
      var called := PolicyCalled(snapshot, n);
      match policy
      case Err(e) => Outcome(registry, [called], Err(e))
      case Ok(fetched) =>
        if fetched.numTasks > 0 then
          var changes := DataChanges(snapshot, fetched.executors);
          var launched := LaunchTasks(registry, changes, fetched.assignment, clients, sends);
          Outcome(launched.registry, [called] + launched.trace,
                  if launched.result.Err? then Err(launched.result.error) else Ok(None))
        else
          Outcome(registry, [called], Ok(None))
  }

  /** on_receive: a ReviveOffers(n) event runs one offer cycle with batch
      size n. */
  function OnReceive(registry: Registry, event: SchedulerServerEvent, snapshot: seq<ExecutorData>,
                     policy: Result<Fetched>, clients: map<ExecutorId, ExecutorClient>, sends: SendOracle)
    : (o: Outcome<Option<SchedulerServerEvent>>)
    requires OfferSafe(snapshot, policy, clients, sends)
    ensures (o.result.Ok? && o.result.value.Some?) <==> snapshot == []
    ensures o.result.Ok? && o.result.value.Some? ==> o.result.value.value == ReviveOffers(1)
    ensures snapshot != [] ==> |o.trace| > 0 && o.trace[0] == PolicyCalled(snapshot, event.n)
    ensures o == OfferResources(registry, snapshot, policy, clients, sends, event.n)
  {
    match event
    case ReviveOffers(n) => OfferResources(registry, snapshot, policy, clients, sends, n)
  }

  /** A cycle that launches is the policy call followed by the dispatch walk
      over the computed changes; its registry holds the changes of the
      positions sent before the stop index, and it fails exactly when the walk
      stops at a failed send, with that send's error. */
  lemma OfferResourcesDispatch(registry: Registry, snapshot: seq<ExecutorData>, policy: Result<Fetched>,
                               clients: map<ExecutorId, ExecutorClient>, sends: SendOracle, n: u32)
    requires OfferSafe(snapshot, policy, clients, sends)
    requires Launches(snapshot, policy)
    ensures var fetched := policy.value;
            var changes := DataChanges(snapshot, fetched.executors);
            var k := StopIndex(fetched.assignment, sends, 0);
            var o := OfferResources(registry, snapshot, policy, clients, sends, n);
      && k <= |snapshot|
      && o.trace == [PolicyCalled(snapshot, n)] + LaunchTasks(registry, changes, fetched.assignment, clients, sends).trace
      && o.registry == UpdateAll(registry, changes[..k])
      && o.result == (if FailsAt(fetched.assignment, k) then Err(sends(k).error) else Ok(None))
  {
    var fetched := policy.value;
    var changes := DataChanges(snapshot, fetched.executors);
    LaunchTasksRegistry(registry, changes, fetched.assignment, clients, sends);
    LaunchTasksSendFailure(registry, changes, fetched.assignment, clients, sends);
    var launched := LaunchTasks(registry, changes, fetched.assignment, clients, sends);
    var k := StopIndex(fetched.assignment, sends, 0);
    if FailsAt(fetched.assignment, k) {
      assert launched.result.error == sends(k).error;
    }
  }

  /** Slot accounting: with distinct executor ids all known to the registry
      and a policy whose snapshot covers every executor, every executor sent
      to successfully (a position before the stop index) ends with its
      counter moved by (slots after policy - slots before), and every other
      executor of the snapshot, the one whose send failed included, keeps its
      counter. */
  lemma OfferResourcesConservation(registry: Registry, snapshot: seq<ExecutorData>, policy: Result<Fetched>,
                                   clients: map<ExecutorId, ExecutorClient>, sends: SendOracle, n: u32)
    requires OfferSafe(snapshot, policy, clients, sends)
    requires Launches(snapshot, policy)
    requires |policy.value.executors| >= |snapshot|
    requires DistinctIds(Baseline(snapshot))
    requires forall i :: 0 <= i < |snapshot| ==> snapshot[i].executorId in registry
    ensures var o := OfferResources(registry, snapshot, policy, clients, sends, n);
            var k := StopIndex(policy.value.assignment, sends, 0);
      forall j :: 0 <= j < |snapshot| ==>
        snapshot[j].executorId in o.registry &&
        o.registry[snapshot[j].executorId] == registry[snapshot[j].executorId]
          + (if j < k then policy.value.executors[j].availableTaskSlots - snapshot[j].availableTaskSlots else 0)
  {
    var fetched := policy.value;
    var changes := DataChanges(snapshot, fetched.executors);
    var k := StopIndex(fetched.assignment, sends, 0);
    var o := OfferResources(registry, snapshot, policy, clients, sends, n);
    OfferResourcesDispatch(registry, snapshot, policy, clients, sends, n);
    var sent := changes[..k];
    assert DistinctIds(sent);
    forall j | 0 <= j < |snapshot|
      ensures snapshot[j].executorId in o.registry
      ensures o.registry[snapshot[j].executorId] == registry[snapshot[j].executorId]
          + (if j < k then fetched.executors[j].availableTaskSlots - snapshot[j].availableTaskSlots else 0)
    {
      if j < k {
        assert sent[j] == changes[j];
        UpdateAllAt(registry, sent, j);
      } else {
        UpdateAllUntouched(registry, sent, snapshot[j].executorId);
      }
    }
  }

  /** When the policy hands back a shorter snapshot, an executor past its end
      that the walk sends to successfully (a position before the stop index)
      keeps its seed as its change: its counter goes up by its pre-policy
      free slots instead of down by the slots consumed. */
  lemma OfferResourcesPastPolicyEnd(registry: Registry, snapshot: seq<ExecutorData>, policy: Result<Fetched>,
                                    clients: map<ExecutorId, ExecutorClient>, sends: SendOracle, n: u32, j: nat)
    requires OfferSafe(snapshot, policy, clients, sends)
    requires Launches(snapshot, policy)
    requires DistinctIds(Baseline(snapshot))
    requires |policy.value.executors| <= j < StopIndex(policy.value.assignment, sends, 0)
    requires j < |snapshot| && snapshot[j].executorId in registry
    ensures var o := OfferResources(registry, snapshot, policy, clients, sends, n);
      o.registry[snapshot[j].executorId] == registry[snapshot[j].executorId] + snapshot[j].availableTaskSlots
  {
    var changes := DataChanges(snapshot, policy.value.executors);
    var k := StopIndex(policy.value.assignment, sends, 0);
    OfferResourcesDispatch(registry, snapshot, policy, clients, sends, n);
    var sent := changes[..k];
    assert DistinctIds(sent);
    assert sent[j] == changes[j];
    UpdateAllAt(registry, sent, j);
  }
}
