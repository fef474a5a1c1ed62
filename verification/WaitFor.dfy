/** `wait_for` beside the concurrent controller: any number of waiters read the coalescing watch
    cell, without the lock, while any number of threads publish to it. */
module WaitFor {
  import opened Wrappers
  import opened Lifecycle
  import Threads = ControllerThreads

  datatype WaitError = Timeout | Cancelled | Closed

  /** Borrowing: about to read and mark the cell. Blocked: inside the select over cancellation and
      `changed`. */
  datatype WaiterPc = Borrowing | Blocked | Done(result: Result<Snapshot, WaitError>)

  /** `handle` is the controller handle that the call borrows; `expired` records that its timeout has
      elapsed. */
  datatype Waiter = Waiter(
    handle: nat, target: State, pc: WaiterPc, seen: nat, cancelled: bool, expired: bool, observed: seq<Snapshot>)

  /** `handles` are the live handles; the sending side of the cell is dropped with the last one.
      The clones the threads hold are not counted: they could only keep it alive longer. */
  datatype World = World(system: Threads.System, handles: set<nat>, waiters: map<nat, Waiter>)

  /** The waiter's own next step given the cell (value, version) and whether its sender is alive;
      None while the select has no ready arm. The select is biased towards cancellation, and a
      change not yet seen is reported before the loss of the sender. */
  function Advance(w: Waiter, watch: Snapshot, version: nat, alive: bool): Option<Waiter> {
    match w.pc
    case Borrowing =>
      Some(w.(seen := version, observed := w.observed + [watch],
              pc := if watch.state == w.target then Done(Success(watch)) else Blocked))
    case Blocked =>
      if w.cancelled then Some(w.(pc := Done(Failure(Cancelled))))
      else if w.seen != version then Some(w.(pc := Borrowing, seen := version))
      else if !alive then Some(w.(pc := Done(Failure(Closed))))
      else None
    case Done(_) => None
  }

  ghost predicate Init(world: World) {
    Threads.Init(world.system) && world.waiters == map[] && |world.handles| == 1
  }

  datatype Action =
    | Publish
    | Clone(handle: nat, copy: nat)
    | Drop(handle: nat)
    | Subscribe(id: nat, handle: nat, target: State)
    | Loop(id: nat)
    | Cancel(id: nat)
    | Expire(id: nat)

  predicate SenderAlive(world: World) {
    world.handles != {}
  }

  /** Some unfinished call borrows the handle. */
  predicate Borrowed(world: World, handle: nat) {
    exists id :: id in world.waiters && !world.waiters[id].pc.Done? && world.waiters[id].handle == handle
  }

  ghost predicate SetWaiter(a: World, b: World, id: nat, w: Waiter) {
    b == a.(waiters := a.waiters[id := w])
  }

  /** A step of the controller's threads, a handle cloned or dropped (which cannot happen while it
      is borrowed), a new `wait_for` call, a step of a waiter's own loop, a cancellation, or the
      timeout of a blocked waiter. */
  ghost predicate Act(capacity: nat, a: World, b: World, action: Action) {
    match action
    case Publish => Threads.Next(capacity, a.system, b.system) && b == a.(system := b.system)
    case Clone(handle, copy) =>
      handle in a.handles && copy !in a.handles && b == a.(handles := a.handles + {copy})
    case Drop(handle) =>
      handle in a.handles && !Borrowed(a, handle) && b == a.(handles := a.handles - {handle})
    case Subscribe(id, handle, target) =>
      && id !in a.waiters && handle in a.handles
      && SetWaiter(a, b, id, Waiter(handle, target, Borrowing, a.system.version, false, false, []))
    case Loop(id) =>
      && id in a.waiters
      && var w := Advance(a.waiters[id], a.system.watch, a.system.version, SenderAlive(a));
         w.Some? && SetWaiter(a, b, id, w.value)
    case Cancel(id) => id in a.waiters && SetWaiter(a, b, id, a.waiters[id].(cancelled := true))
    case Expire(id) =>
      && id in a.waiters && a.waiters[id].pc.Blocked?
      && SetWaiter(a, b, id, a.waiters[id].(pc := Done(Failure(Timeout)), expired := true))
  }

  ghost predicate Next(capacity: nat, a: World, b: World) {
    exists action :: Act(capacity, a, b, action)
  }

  // ---------------------------------------------------------------- invariant

  /** The value the cell held at a version: the initial snapshot, then what was published. */
  ghost predicate HeldAt(published: seq<Snapshot>, version: nat, value: Snapshot) {
    version <= |published| && value == if version == 0 then INITIAL else published[version - 1]
  }

  ghost predicate Observations(w: Waiter, published: seq<Snapshot>) {
    && (forall i :: 0 <= i < |w.observed| ==>
          w.observed[i].revision <= w.seen && HeldAt(published, w.observed[i].revision, w.observed[i]))
    && (forall i, j :: 0 <= i < j < |w.observed| ==> w.observed[i].revision < w.observed[j].revision)
  }

  ghost predicate WaiterInv(w: Waiter, published: seq<Snapshot>) {
    && w.seen <= |published|
    && Observations(w, published)
    && (forall i :: 0 <= i < |w.observed| && !(w.pc.Done? && w.pc.result.Success?) ==> w.observed[i].state != w.target)
    && match w.pc
       case Borrowing => w.observed == [] || w.observed[|w.observed| - 1].revision < w.seen
       case Blocked => w.observed != [] && HeldAt(published, w.seen, w.observed[|w.observed| - 1])
       case Done(result) =>
         result.Success? ==>
           && w.observed != [] && result.value == w.observed[|w.observed| - 1]
           && result.value.state == w.target
           && forall i :: 0 <= i < |w.observed| - 1 ==> w.observed[i].state != w.target
  }

  /** A wait fails only by its timeout or its own cancellation; and the timeout always ends it. */
  ghost predicate FailureInv(w: Waiter) {
    && (w.pc == Done(Failure(Timeout)) <==> w.expired)
    && (w.pc == Done(Failure(Cancelled)) ==> w.cancelled)
    && w.pc != Done(Failure(Closed))
  }

  /** The cell holds the value of its version, and the value of version v has revision v. */
  ghost predicate CellInv(system: Threads.System) {
    && |system.published| == system.version == system.watch.revision
    && HeldAt(system.published, system.version, system.watch)
    && forall k :: 0 <= k < |system.published| ==> system.published[k].revision == k + 1
  }

  ghost predicate Inv(capacity: nat, world: World) {
    && Threads.Inv(capacity, world.system)
    && WaitersInv(world.waiters, world.system.published)
    && HandlesInv(world.handles, world.waiters)
  }

  /** Every unfinished call keeps its handle, and so the sender, alive. */
  ghost predicate HandlesInv(handles: set<nat>, waiters: map<nat, Waiter>) {
    forall id :: id in waiters && !waiters[id].pc.Done? ==> waiters[id].handle in handles
  }

  ghost predicate WaitersInv(waiters: map<nat, Waiter>, published: seq<Snapshot>) {
    forall id :: id in waiters ==> WaiterInv(waiters[id], published) && FailureInv(waiters[id])
  }

  lemma SystemCell(capacity: nat, system: Threads.System)
    requires Threads.Inv(capacity, system)
    ensures CellInv(system)
  {
    Threads.PublishedRevisions(capacity, system);
    Threads.WatchIsLastPublished(system.log, system.version, system.published, system.watch);
  }

  lemma PublishingKeepsWaiter(w: Waiter, published: seq<Snapshot>, longer: seq<Snapshot>)
    requires WaiterInv(w, published) && published <= longer
    ensures WaiterInv(w, longer)
  {
    forall version, value | HeldAt(published, version, value) ensures HeldAt(longer, version, value) {}
  }

  lemma AdvanceKeepsWaiter(w: Waiter, system: Threads.System)
    requires CellInv(system) && WaiterInv(w, system.published)
    requires Advance(w, system.watch, system.version, true).Some?
    ensures WaiterInv(Advance(w, system.watch, system.version, true).value, system.published)
    ensures FailureInv(w) ==> FailureInv(Advance(w, system.watch, system.version, true).value)
  {
  }

  lemma PublishKeepsInv(capacity: nat, a: World, b: World)
    requires capacity > 0 && Inv(capacity, a) && Act(capacity, a, b, Publish)
    ensures Inv(capacity, b)
  {
    Threads.NextKeepsInv(capacity, a.system, b.system);
    Threads.PublishedGrows(capacity, a.system, b.system);
    forall id | id in b.waiters ensures WaiterInv(b.waiters[id], b.system.published) && FailureInv(b.waiters[id]) {
      PublishingKeepsWaiter(a.waiters[id], a.system.published, b.system.published);
    }
  }

  lemma OneWaiterChanges(capacity: nat, a: World, b: World, id: nat, w: Waiter)
    requires Inv(capacity, a) && SetWaiter(a, b, id, w)
    requires WaiterInv(w, a.system.published) && FailureInv(w) && (!w.pc.Done? ==> w.handle in a.handles)
    ensures Inv(capacity, b)
  {
    assert b.system == a.system && b.handles == a.handles;
    assert WaitersInv(b.waiters, b.system.published);
    assert HandlesInv(b.handles, b.waiters);
  }

  lemma SubscribeKeepsInv(capacity: nat, a: World, b: World, id: nat, handle: nat, target: State)
    requires Inv(capacity, a) && Act(capacity, a, b, Subscribe(id, handle, target))
    ensures Inv(capacity, b)
  {
    SystemCell(capacity, a.system);
    OneWaiterChanges(capacity, a, b, id, Waiter(handle, target, Borrowing, a.system.version, false, false, []));
  }

  lemma LoopKeepsInv(capacity: nat, a: World, b: World, id: nat)
    requires Inv(capacity, a) && Act(capacity, a, b, Loop(id))
    ensures Inv(capacity, b)
  {
    SystemCell(capacity, a.system);
    assert a.waiters[id].handle in a.handles;
    AdvanceKeepsWaiter(a.waiters[id], a.system);
    OneWaiterChanges(capacity, a, b, id, Advance(a.waiters[id], a.system.watch, a.system.version, true).value);
  }

  lemma InterruptedWaiter(w: Waiter, published: seq<Snapshot>)
    requires WaiterInv(w, published) && FailureInv(w)
    ensures WaiterInv(w.(cancelled := true), published) && FailureInv(w.(cancelled := true))
    ensures w.pc.Blocked? ==>
              var after := w.(pc := Done(Failure(Timeout)), expired := true);
              WaiterInv(after, published) && FailureInv(after)
  {
  }

  lemma InterruptKeepsInv(capacity: nat, a: World, b: World, action: Action)
    requires Inv(capacity, a) && Act(capacity, a, b, action) && (action.Cancel? || action.Expire?)
    ensures Inv(capacity, b)
  {
    var w := a.waiters[action.id];
    var after :=
      if action.Cancel? then w.(cancelled := true) else w.(pc := Done(Failure(Timeout)), expired := true);
    assert WaiterInv(w, a.system.published) && FailureInv(w);
    InterruptedWaiter(w, a.system.published);
    OneWaiterChanges(capacity, a, b, action.id, after);
  }

  lemma HandleStepKeepsInv(capacity: nat, a: World, b: World, action: Action)
    requires Inv(capacity, a) && Act(capacity, a, b, action) && (action.Clone? || action.Drop?)
    ensures Inv(capacity, b)
  {
    forall id | id in b.waiters && !b.waiters[id].pc.Done? ensures b.waiters[id].handle in b.handles {
      assert action.Drop? ==> !Borrowed(a, action.handle);
    }
  }

  lemma NextKeepsInv(capacity: nat, a: World, b: World)
    requires capacity > 0 && Inv(capacity, a) && Next(capacity, a, b)
    ensures Inv(capacity, b)
  {
    var action :| Act(capacity, a, b, action);
    match action
    case Publish => PublishKeepsInv(capacity, a, b);
    case Clone(_, _) => HandleStepKeepsInv(capacity, a, b, action);
    case Drop(_) => HandleStepKeepsInv(capacity, a, b, action);
    case Subscribe(id, handle, target) => SubscribeKeepsInv(capacity, a, b, id, handle, target);
    case Loop(id) => LoopKeepsInv(capacity, a, b, id);
    case Cancel(_) => InterruptKeepsInv(capacity, a, b, action);
    case Expire(_) => InterruptKeepsInv(capacity, a, b, action);
  }

  ghost predicate IsRun(capacity: nat, run: seq<World>) {
    && run != [] && Init(run[0])
    && forall i :: 0 < i < |run| ==> RunStep(capacity, run, i)
  }

  ghost predicate RunStep(capacity: nat, run: seq<World>, i: nat)
    requires 0 < i < |run|
  {
    Next(capacity, run[i - 1], run[i])
  }

  lemma InitInv(capacity: nat, world: World)
    requires Init(world)
    ensures Inv(capacity, world)
  {
    Threads.InitInv(capacity, world.system);
  }

  lemma {:induction false} RunKeepsInv(capacity: nat, run: seq<World>, i: nat)
    requires capacity > 0 && IsRun(capacity, run) && i < |run|
    ensures Inv(capacity, run[i])
    decreases i
  {
    if i == 0 {
      InitInv(capacity, run[0]);
    } else {
      RunKeepsInv(capacity, run, i - 1);
      assert RunStep(capacity, run, i);
      NextKeepsInv(capacity, run[i - 1], run[i]);
    }
  }

  // ---------------------------------------------------------------- what callers rely on

  /** What holds of one waiter and the cell, in every reachable world. */
  lemma RunWaiter(capacity: nat, run: seq<World>, i: nat, id: nat)
    requires capacity > 0 && IsRun(capacity, run) && i < |run| && id in run[i].waiters
    ensures CellInv(run[i].system) && WaiterInv(run[i].waiters[id], run[i].system.published)
    ensures FailureInv(run[i].waiters[id])
    ensures !run[i].waiters[id].pc.Done? ==> run[i].waiters[id].handle in run[i].handles
  {
    RunKeepsInv(capacity, run, i);
    SystemCell(capacity, run[i].system);
  }

  lemma BlockedHasRead(w: Waiter, system: Threads.System, alive: bool)
    requires CellInv(system) && WaiterInv(w, system.published) && w.pc.Blocked?
    requires Advance(w, system.watch, system.version, alive).None?
    ensures system.watch.state != w.target && w.observed != [] && w.observed[|w.observed| - 1] == system.watch
  {
    assert w.seen == system.version;
  }

  /** No wakeup is lost: a waiter with no ready arm has read the value now in the cell, and that
      value is not its target. */
  lemma NoLostWakeup(capacity: nat, run: seq<World>, i: nat, id: nat)
    requires capacity > 0 && IsRun(capacity, run) && i < |run| && id in run[i].waiters
    ensures var w, system := run[i].waiters[id], run[i].system;
            w.pc.Blocked? && Advance(w, system.watch, system.version, SenderAlive(run[i])).None? ==>
              && system.watch.state != w.target
              && w.observed != [] && w.observed[|w.observed| - 1] == system.watch
  {
    RunWaiter(capacity, run, i, id);
    var w, system := run[i].waiters[id], run[i].system;
    if w.pc.Blocked? && Advance(w, system.watch, system.version, SenderAlive(run[i])).None? {
      BlockedHasRead(w, system, SenderAlive(run[i]));
    }
  }

  /** Coalescing may skip revisions but never repeats or reverses them, and an Ok result is a
      snapshot the cell really held, in the target state, and the first such one observed. */
  lemma ObservationsAreMonotonic(capacity: nat, run: seq<World>, i: nat, id: nat)
    requires capacity > 0 && IsRun(capacity, run) && i < |run| && id in run[i].waiters
    ensures var w, published := run[i].waiters[id], run[i].system.published;
            && (forall j, k :: 0 <= j < k < |w.observed| ==> w.observed[j].revision < w.observed[k].revision)
            && (forall j :: 0 <= j < |w.observed| ==> w.observed[j] == INITIAL || w.observed[j] in published)
            && (w.pc.Done? && w.pc.result.Success? ==>
                  && w.pc.result.value.state == w.target
                  && w.observed != [] && w.pc.result.value == w.observed[|w.observed| - 1]
                  && forall j :: 0 <= j < |w.observed| - 1 ==> w.observed[j].state != w.target)
  {
    RunWaiter(capacity, run, i, id);
    var w, published := run[i].waiters[id], run[i].system.published;
    forall j | 0 <= j < |w.observed| ensures w.observed[j] == INITIAL || w.observed[j] in published {
      assert HeldAt(published, w.observed[j].revision, w.observed[j]);
    }
  }

  lemma StoppedPublishesNothing(capacity: nat, s: Threads.System, s': Threads.System)
    requires capacity > 0 && Threads.Inv(capacity, s) && Threads.Next(capacity, s, s') && s.watch.state == Stopped
    ensures s'.watch == s.watch && s'.version == s.version
  {
    if s.version < |s.log| {
      NothingFollowsStopped(s.log, s.version);
    }
    var action :| Threads.Act(capacity, s, s', action);
    if action.Run? && Threads.InCritical(s.threads[action.t]) {
      Threads.HolderIs(s, action.t);
    }
  }

  lemma OthersLeaveSystem(capacity: nat, a: World, b: World, action: Action)
    requires Act(capacity, a, b, action) && !action.Publish?
    ensures b.system == a.system
  {
  }

  lemma StoppedStep(capacity: nat, a: World, b: World)
    requires capacity > 0 && Threads.Inv(capacity, a.system) && Next(capacity, a, b) && a.system.watch.state == Stopped
    ensures b.system.watch == a.system.watch && b.system.version == a.system.version
  {
    var action :| Act(capacity, a, b, action);
    if action.Publish? {
      StoppedPublishesNothing(capacity, a.system, b.system);
    } else {
      OthersLeaveSystem(capacity, a, b, action);
    }
  }

  /** Once Stopped is published the cell never changes again. */
  lemma {:induction false} StoppedIsFinal(capacity: nat, run: seq<World>, i: nat, j: nat)
    requires capacity > 0 && IsRun(capacity, run) && i <= j < |run| && run[i].system.watch.state == Stopped
    ensures run[j].system.watch == run[i].system.watch && run[j].system.version == run[i].system.version
    decreases j
  {
    if i < j {
      StoppedIsFinal(capacity, run, i, j - 1);
      RunKeepsInv(capacity, run, j - 1);
      assert RunStep(capacity, run, j);
      StoppedStep(capacity, run[j - 1], run[j]);
    }
  }

  function Remaining(w: Waiter): nat {
    match w.pc
    case Blocked => 2
    case Borrowing => 1
    case Done(_) => 0
  }

  /** A waiter for Stopped cannot be left behind: from the moment Stopped is published, until it
      finishes, its own next step is always enabled and brings it closer; with no cancellation the
      loop itself then returns the published snapshot, in at most two steps. */
  lemma StoppedWaiterFinishes(capacity: nat, run: seq<World>, i: nat, j: nat, id: nat)
    requires capacity > 0 && IsRun(capacity, run) && i <= j < |run| && run[i].system.watch.state == Stopped
    requires id in run[j].waiters && run[j].waiters[id].target == Stopped && !run[j].waiters[id].pc.Done?
    ensures var w, watch, version := run[j].waiters[id], run[i].system.watch, run[i].system.version;
            var next := Advance(w, watch, version, SenderAlive(run[j]));
            && next.Some? && Remaining(next.value) < Remaining(w)
            && (!w.cancelled && w.pc.Borrowing? ==> next.value.pc == Done(Success(watch)))
            && (!w.cancelled && w.pc.Blocked? ==>
                  Advance(next.value, watch, version, SenderAlive(run[j])).Some?
                  && Advance(next.value, watch, version, SenderAlive(run[j])).value.pc == Done(Success(watch)))
  {
    StoppedIsFinal(capacity, run, i, j);
    RunWaiter(capacity, run, j, id);
  }

  /** Handles come and go freely: any live one can be cloned, and dropped unless a call borrows it. */
  lemma HandlesComeAndGo(capacity: nat, a: World, handle: nat, copy: nat)
    requires handle in a.handles
    ensures copy !in a.handles ==> exists b :: Act(capacity, a, b, Clone(handle, copy))
    ensures !Borrowed(a, handle) ==> exists b :: Act(capacity, a, b, Drop(handle))
  {
    if copy !in a.handles {
      assert Act(capacity, a, a.(handles := a.handles + {copy}), Clone(handle, copy));
    }
    if !Borrowed(a, handle) {
      assert Act(capacity, a, a.(handles := a.handles - {handle}), Drop(handle));
    }
  }

  /** Whatever handles are cloned and dropped, the sender outlives every call that waits. */
  lemma SenderOutlivesWaiters(capacity: nat, run: seq<World>, i: nat, id: nat)
    requires capacity > 0 && IsRun(capacity, run) && i < |run|
    requires id in run[i].waiters && !run[i].waiters[id].pc.Done?
    ensures SenderAlive(run[i])
  {
    RunWaiter(capacity, run, i, id);
  }

  /** Every error names its cause: a wait that failed had its timeout elapse or had been cancelled,
      and which of the two is what it says. The loss of the sender never ends one, because a call
      borrows a handle for as long as it waits. A call that was neither is still waiting, or Ok. */
  lemma FailuresNameTheirCause(capacity: nat, run: seq<World>, i: nat, id: nat)
    requires capacity > 0 && IsRun(capacity, run) && i < |run| && id in run[i].waiters
    ensures var w := run[i].waiters[id];
            && (w.pc == Done(Failure(Timeout)) <==> w.expired)
            && (w.pc == Done(Failure(Cancelled)) ==> w.cancelled)
            && w.pc != Done(Failure(Closed))
            && (!w.expired && !w.cancelled ==> !w.pc.Done? || w.pc.result.Success?)
  {
    RunWaiter(capacity, run, i, id);
    var w := run[i].waiters[id];
    if w.pc.Done? && w.pc.result.Failure? {
      assert w.pc.result.error.Timeout? ==> w.pc == Done(Failure(Timeout));
      assert w.pc.result.error.Cancelled? ==> w.pc == Done(Failure(Cancelled));
    }
  }

  ghost predicate TimedOut(world: World, id: nat) {
    id in world.waiters && world.waiters[id].pc == Done(Failure(Timeout))
  }

  /** The one step that makes a call time out is its own timeout, and that step ends it so. */
  lemma OnlyExpiryTimesOut(capacity: nat, a: World, b: World, action: Action, id: nat)
    requires Act(capacity, a, b, action) && id in a.waiters && !a.waiters[id].pc.Done?
    ensures TimedOut(b, id) <==> action == Expire(id)
    ensures id in b.waiters && (b.waiters[id].expired <==> a.waiters[id].expired || action == Expire(id))
    ensures b.waiters[id].cancelled <==> a.waiters[id].cancelled || action == Cancel(id)
    ensures b.waiters[id].target == a.waiters[id].target
  {
  }

  /** A call may be made at any time, through any live handle and for any state, and waits for that
      state. */
  lemma CallsWaitForTheirTarget(capacity: nat, a: World, b: World, id: nat, handle: nat, target: State)
    requires id !in a.waiters && handle in a.handles
    ensures exists after :: Act(capacity, a, after, Subscribe(id, handle, target))
    ensures Act(capacity, a, b, Subscribe(id, handle, target)) ==>
              && id in b.waiters && b.waiters[id].target == target && b.waiters[id].pc.Borrowing?
              && !b.waiters[id].cancelled && !b.waiters[id].expired && b.waiters[id].observed == []
  {
    var w := Waiter(handle, target, Borrowing, a.system.version, false, false, []);
    assert Act(capacity, a, a.(waiters := a.waiters[id := w]), Subscribe(id, handle, target));
  }

  /** A waiting call ends when it should: cancelled, its next step in the select is to say so; with a
      newer value in the cell, it is to look at that value; and its timeout may elapse at any time. */
  lemma WaitingCallsCanEnd(capacity: nat, run: seq<World>, i: nat, id: nat)
    requires capacity > 0 && IsRun(capacity, run) && i < |run|
    requires id in run[i].waiters && run[i].waiters[id].pc.Blocked?
    ensures var w, system := run[i].waiters[id], run[i].system;
            var next := Advance(w, system.watch, system.version, SenderAlive(run[i]));
            && (next.Some? <==> w.cancelled || w.seen != system.version)
            && (w.cancelled ==> next.value.pc == Done(Failure(Cancelled)))
            && (!w.cancelled && next.Some? ==> next.value.pc.Borrowing?)
    ensures exists after :: Act(capacity, run[i], after, Expire(id))
  {
    RunWaiter(capacity, run, i, id);
    var w := run[i].waiters[id];
    var after := run[i].(waiters := run[i].waiters[id := w.(pc := Done(Failure(Timeout)), expired := true)]);
    assert Act(capacity, run[i], after, Expire(id));
  }

  /** And a call that looks at the cell is Ok if it finds its target there, and else waits. */
  lemma LookingEndsOrWaits(w: Waiter, watch: Snapshot, version: nat, alive: bool)
    requires w.pc.Borrowing?
    ensures var next := Advance(w, watch, version, alive);
            && next.Some? && next.value.observed == w.observed + [watch] && next.value.seen == version
            && (watch.state == w.target <==> next.value.pc.Done?)
            && (watch.state == w.target ==> next.value.pc == Done(Success(watch)))
            && (watch.state != w.target ==> next.value.pc.Blocked?)
  {
  }
}
