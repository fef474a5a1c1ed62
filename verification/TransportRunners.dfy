/** Health marks, `finish_lifecycle` and the stdio, HTTP and WebSocket runners, as programs over
    one shared controller. `Interfere` stands for every other task: between any two steps of a
    program, any number of Degrade and Recover attempts may hit the controller. What the program
    records and what the others record are counted apart, so that each contract says both what the
    program may rely on and what it does itself. */
module TransportRunners {
  import opened Wrappers
  import opened Lifecycle
  import opened LifecycleControllers

  datatype RunError =
    | InvalidConfig
    | InvalidLifecycle
    | FactoryFailed
    | BindFailed
    | RouterFailed
    | ServeFailed
    | ShutdownTimedOut

  // ---------------------------------------------------------------- what interference can do

  ghost predicate HealthOnly(before: seq<Record>, after: seq<Record>) {
    before <= after && forall i :: |before| <= i < |after| ==> IsHealth(after[i].event)
  }

  /** A sequence of events, built at the end. */
  datatype Trail = Nothing | Then(before: Trail, event: Event)

  function Length(trail: Trail): nat {
    match trail
    case Nothing => 0
    case Then(before, _) => Length(before) + 1
  }

  function PhasesUpTo(history: seq<Record>, n: nat): Trail
    requires n <= |history|
  {
    if n == 0 then Nothing
    else if IsHealth(history[n - 1].event) then PhasesUpTo(history, n - 1)
    else Then(PhasesUpTo(history, n - 1), history[n - 1].event)
  }

  /** The events that are not health marks, in order. */
  function Phases(history: seq<Record>): Trail {
    PhasesUpTo(history, |history|)
  }

  lemma {:induction false} PhasesOfPrefix(history: seq<Record>, longer: seq<Record>, n: nat)
    requires n <= |history| && history <= longer
    ensures PhasesUpTo(longer, n) == PhasesUpTo(history, n)
  {
    if n > 0 {
      PhasesOfPrefix(history, longer, n - 1);
    }
  }

  lemma PhasesOfExtension(history: seq<Record>, entry: Record)
    ensures Phases(history + [entry]) == if IsHealth(entry.event) then Phases(history)
            else Then(Phases(history), entry.event)
  {
    PhasesOfPrefix(history, history + [entry], |history|);
  }

  predicate IsServing(state: State) {
    state == Ready || state == Degraded
  }

  /** Marks never change the phase: they move between Ready and Degraded, and anywhere else,
      Stopped included, they change nothing at all. */
  lemma {:induction false} MarksKeepPhase(before: seq<Record>, after: seq<Record>)
    requires ValidHistory(after) && HealthOnly(before, after)
    ensures Phases(after) == Phases(before)
    ensures if IsServing(SnapshotOf(before).state) then IsServing(SnapshotOf(after).state) else after == before
    decreases |after|
  {
    assert before == after[..|before|];
    if |after| > |before| {
      var shorter := after[..|after| - 1];
      LastLink(after);
      MarksKeepPhase(before, shorter);
      assert after == shorter + [after[|after| - 1]];
      PhasesOfExtension(shorter, after[|after| - 1]);
    } else {
      assert after == before;
    }
  }

  /** Each mark of a history is one of the two legal edges. */
  lemma MarksAreLegalEdges(history: seq<Record>, i: nat)
    requires ValidHistory(history) && i < |history| && IsHealth(history[i].event)
    ensures history[i].event == Degrade ==> history[i].source == Ready && history[i].target == Degraded
    ensures history[i].event == Recover ==> history[i].source == Degraded && history[i].target == Ready
  {
    assert Linked(history, i);
  }

  /** The whole effect that marks may have on a controller. */
  ghost predicate MarksOnly(before: seq<Record>, after: seq<Record>) {
    && before <= after && Phases(after) == Phases(before)
    && if IsServing(SnapshotOf(before).state) then IsServing(SnapshotOf(after).state) else after == before
  }

  lemma {:induction false} PhasesGrow(history: seq<Record>, m: nat, n: nat)
    requires m <= n <= |history|
    ensures Length(PhasesUpTo(history, m)) <= Length(PhasesUpTo(history, n))
    ensures PhasesUpTo(history, m) == PhasesUpTo(history, n) ==>
              forall i :: m <= i < n ==> IsHealth(history[i].event)
    decreases n - m
  {
    if m < n {
      PhasesGrow(history, m, n - 1);
    }
  }

  /** Records that add no phase are marks, every one of them. */
  lemma MarksOnlyAreHealth(before: seq<Record>, after: seq<Record>)
    requires MarksOnly(before, after)
    ensures HealthOnly(before, after)
  {
    PhasesOfPrefix(before, after, |before|);
    PhasesGrow(after, |before|, |after|);
  }

  // ---------------------------------------------------------------- the relation

  /** Where each event is accepted, and the one state it then enters. */
  predicate Fires(state: State, event: Event) {
    match event
    case Start => state == Created
    case Started => state == Starting
    case Degrade => state == Ready
    case Recover => state == Degraded
    case Drain => state == Starting || IsServing(state)
    case Stop => state == Created || state == Starting || state == Draining
  }

  function Entered(event: Event): State {
    match event
    case Start => Starting
    case Started => Ready
    case Drain => Draining
    case Stop => Stopped
    case Degrade => Degraded
    case Recover => Ready
  }

  lemma FiresIffTransition(state: State, event: Event)
    ensures TransitionTarget(state, event) == if Fires(state, event) then Some(Entered(event)) else None
  {
    match event
    case Start =>
    case Started =>
    case Degrade =>
    case Recover =>
    case Drain =>
    case Stop =>
  }

  // ---------------------------------------------------------------- who records what

  /** Health edges recorded by others. */
  datatype Marks = Marks(degrades: nat, recovers: nat) {
    function Total(): nat {
      degrades + recovers
    }
  }

  /** How many of the events are health marks. */
  function Marked(trail: Trail): nat {
    match trail
    case Nothing => 0
    case Then(before, event) => Marked(before) + if IsHealth(event) then 1 else 0
  }

  /** A program's clone of the controller. Since it was made, the program itself has recorded `own`,
      in that order, and everybody else `others`; together these are all the records there are. */
  class Handle {
    const controller: LifecycleController
    ghost const first: nat
    ghost var own: Trail
    ghost var others: Marks

    ghost predicate Valid()
      reads this, controller
    {
      controller.Valid() && controller.snapshot.revision == first + Length(own) + others.Total() <= U64_MAX
    }

    constructor (controller: LifecycleController)
      requires controller.Valid()
      ensures Valid() && this.controller == controller && first == controller.snapshot.revision
      ensures own == Nothing && others == Marks(0, 0)
    {
      RevisionIsLength(controller.history);
      this.controller, first := controller, controller.snapshot.revision;
      own, others := Nothing, Marks(0, 0);
    }

    function State(): State
      reads this, controller
    {
      controller.snapshot.state
    }

    function Revision(): nat
      reads this, controller
    {
      controller.snapshot.revision
    }

    ghost function History(): seq<Record>
      reads this, controller
    {
      controller.history
    }
  }

  function Impaired(state: State): nat {
    if state == Degraded then 1 else 0
  }

  /** Marks by others are only ever added. */
  ghost predicate MarksAdded(before: Marks, after: Marks) {
    before.degrades <= after.degrades && before.recovers <= after.recovers
  }

  lemma OneMarkIsHealthOnly(before: seq<Record>, after: seq<Record>)
    requires |after| == |before| + 1 && after[..|before|] == before && IsHealth(after[|before|].event)
    ensures HealthOnly(before, after)
  {
  }

  lemma HealthOnlyTwice(before: seq<Record>, between: seq<Record>, after: seq<Record>)
    requires HealthOnly(before, between) && HealthOnly(between, after)
    ensures HealthOnly(before, after)
  {
    forall i | |before| <= i < |after| ensures IsHealth(after[i].event) {
      if i < |between| {
        assert after[i] == between[i];
      }
    }
  }

  /** One attempt by somebody else. */
  method InterfereOnce(h: Handle)
    requires h.Valid()
    modifies h, h.controller
    ensures h.Valid() && HealthOnly(old(h.History()), h.History())
    ensures h.own == old(h.own) && MarksAdded(old(h.others), h.others)
    ensures h.Revision() - old(h.Revision()) == h.others.Total() - old(h.others.Total())
    ensures !IsServing(old(h.State())) ==> h.others == old(h.others) && h.State() == old(h.State())
    ensures IsServing(old(h.State())) ==> IsServing(h.State())
    ensures Impaired(h.State()) - Impaired(old(h.State())) ==
            (h.others.degrades - old(h.others.degrades)) - (h.others.recovers - old(h.others.recovers))
  {
    ghost var before := h.History();
    var degrade: bool := *;
    var ok := Answer(h, if degrade then Degrade else Recover);
    if ok {
      h.others := if degrade then h.others.(degrades := h.others.degrades + 1)
                  else h.others.(recovers := h.others.recovers + 1);
      OneMarkIsHealthOnly(before, h.History());
    } else {
      assert h.History() == before;
    }
  }

  /** Any number of marks by others. */
  method Interfere(h: Handle)
    requires h.Valid()
    modifies h, h.controller
    ensures h.Valid() && MarksOnly(old(h.History()), h.History())
    ensures h.own == old(h.own) && MarksAdded(old(h.others), h.others)
    ensures h.Revision() - old(h.Revision()) == h.others.Total() - old(h.others.Total())
    ensures if IsServing(old(h.State())) then IsServing(h.State())
            else h.others == old(h.others) && h.State() == old(h.State())
    ensures Impaired(h.State()) - Impaired(old(h.State())) ==
            (h.others.degrades - old(h.others.degrades)) - (h.others.recovers - old(h.others.recovers))
  {
    ghost var before := h.History();
    var rounds: nat := *;
    while rounds > 0
      invariant h.Valid() && HealthOnly(before, h.History())
      invariant h.own == old(h.own) && MarksAdded(old(h.others), h.others)
      invariant h.Revision() - old(h.Revision()) == h.others.Total() - old(h.others.Total())
      invariant !IsServing(old(h.State())) ==> h.others == old(h.others) && h.State() == old(h.State())
      invariant Impaired(h.State()) - Impaired(old(h.State())) ==
                (h.others.degrades - old(h.others.degrades)) - (h.others.recovers - old(h.others.recovers))
    {
      ghost var between := h.History();
      InterfereOnce(h);
      HealthOnlyTwice(before, between, h.History());
      rounds := rounds - 1;
    }
    MarksKeepPhase(before, h.History());
  }

  // ---------------------------------------------------------------- calls, marks and transitions

  /** One call on the controller, by whomever: it is for the caller to enter it in an account. */
  method Answer(h: Handle, event: Event) returns (ok: bool)
    requires h.controller.Valid()
    modifies h.controller
    ensures h.controller.Valid()
    ensures ok <==> Fires(old(h.State()), event) && old(h.Revision()) < U64_MAX
    ensures !ok ==> unchanged(h.controller)
    ensures ok ==>
      && h.State() == Entered(event) && h.Revision() == old(h.Revision()) + 1
      && h.History() == old(h.History()) + [Record(h.Revision(), old(h.State()), event, Entered(event))]
  {
    FiresIffTransition(h.State(), event);
    RevisionIsLength(h.History());
    ghost var before := h.History();
    var r := h.controller.Transition(event);
    ok := r.Success?;
    if ok {
      LastLink(h.History());
      assert h.History()[..|before|] == before;
    }
  }

  /** One call of the program itself. */
  method Call(h: Handle, event: Event) returns (ok: bool)
    requires h.Valid()
    modifies h, h.controller
    ensures h.Valid() && h.others == old(h.others)
    ensures ok <==> Fires(old(h.State()), event) && old(h.Revision()) < U64_MAX
    ensures !ok ==> unchanged(h) && unchanged(h.controller)
    ensures ok ==>
      && h.own == Then(old(h.own), event) && h.State() == Entered(event) && h.Revision() == old(h.Revision()) + 1
      && h.History() == old(h.History()) + [Record(h.Revision(), old(h.State()), event, Entered(event))]
      && Phases(h.History()) ==
         if IsHealth(event) then old(Phases(h.History())) else Then(old(Phases(h.History())), event)
  {
    ghost var before := h.History();
    ok := Answer(h, event);
    if ok {
      PhasesOfExtension(before, h.History()[|before|]);
      h.own := Then(h.own, event);
    }
  }

  lemma NothingIsMarksOnly(history: seq<Record>)
    ensures MarksOnly(history, history)
  {
  }

  /** A mark on top of marks is still marks only. */
  lemma MarkAfterMarks(before: seq<Record>, between: seq<Record>, after: seq<Record>)
    requires ValidHistory(after) && MarksOnly(before, between)
    requires |after| == |between| + 1 && between <= after && IsHealth(after[|between|].event)
    ensures MarksOnly(before, after)
  {
    MarksOnlyAreHealth(before, between);
    assert HealthOnly(before, after);
    MarksKeepPhase(before, after);
  }

  /** Check then act: by the time the mark fires its check may be stale. The program records at most
      one edge of its own, Ready to Degraded, and none unless the controller was ready at the check;
      it fails to only if others came between, and afterwards a serving controller is degraded. */
  method MarkDegraded(h: Handle) returns (fired: bool)
    requires h.Valid()
    modifies h, h.controller
    ensures h.Valid() && MarksOnly(old(h.History()), h.History())
    ensures h.own == (if fired then Then(old(h.own), Degrade) else old(h.own)) && MarksAdded(old(h.others), h.others)
    ensures fired ==> h.History() != [] && var last := h.History()[|h.History()| - 1];
                      last.source == Ready && last.event == Degrade && last.target == Degraded
    ensures old(h.State()) != Ready ==> unchanged(h) && unchanged(h.controller)
    ensures !fired && old(h.State()) == Ready ==> h.others != old(h.others) || h.Revision() == U64_MAX
    ensures IsServing(old(h.State())) ==> h.State() == Degraded || h.Revision() == U64_MAX
    ensures h.Revision() - old(h.Revision()) ==
            h.others.Total() - old(h.others.Total()) + if fired then 1 else 0
    ensures !fired ==>
      Impaired(h.State()) - Impaired(old(h.State())) ==
      (h.others.degrades - old(h.others.degrades)) - (h.others.recovers - old(h.others.recovers))
  {
    fired := false;
    var state := h.State();
    if state == Ready {
      Interfere(h);
      ghost var before := h.History();
      fired := Call(h, Degrade);
      if fired {
        MarkAfterMarks(old(h.History()), before, h.History());
      }
    } else {
      NothingIsMarksOnly(h.History());
    }
  }

  method MarkRecovered(h: Handle) returns (fired: bool)
    requires h.Valid()
    modifies h, h.controller
    ensures h.Valid() && MarksOnly(old(h.History()), h.History())
    ensures h.own == (if fired then Then(old(h.own), Recover) else old(h.own)) && MarksAdded(old(h.others), h.others)
    ensures fired ==> h.History() != [] && var last := h.History()[|h.History()| - 1];
                      last.source == Degraded && last.event == Recover && last.target == Ready
    ensures old(h.State()) != Degraded ==> unchanged(h) && unchanged(h.controller)
    ensures !fired && old(h.State()) == Degraded ==> h.others != old(h.others) || h.Revision() == U64_MAX
    ensures IsServing(old(h.State())) ==> h.State() == Ready || h.Revision() == U64_MAX
    ensures h.Revision() - old(h.Revision()) ==
            h.others.Total() - old(h.others.Total()) + if fired then 1 else 0
    ensures !fired ==>
      Impaired(h.State()) - Impaired(old(h.State())) ==
      (h.others.degrades - old(h.others.degrades)) - (h.others.recovers - old(h.others.recovers))
  {
    fired := false;
    var state := h.State();
    if state == Degraded {
      Interfere(h);
      ghost var before := h.History();
      fired := Call(h, Recover);
      if fired {
        MarkAfterMarks(old(h.History()), before, h.History());
      }
    } else {
      NothingIsMarksOnly(h.History());
    }
  }

  /** The runners' own transition, with the error collapsed to one kind. */
  method Transition(h: Handle, event: Event) returns (r: Result<(), RunError>)
    requires h.Valid()
    modifies h, h.controller
    ensures h.Valid() && h.others == old(h.others)
    ensures r.Success? <==> Fires(old(h.State()), event) && old(h.Revision()) < U64_MAX
    ensures r.Success? ==>
      && h.own == Then(old(h.own), event) && h.State() == Entered(event) && h.Revision() == old(h.Revision()) + 1
      && Phases(h.History()) ==
         if IsHealth(event) then old(Phases(h.History())) else Then(old(Phases(h.History())), event)
    ensures r.Failure? ==> r.error == InvalidLifecycle && unchanged(h) && unchanged(h.controller)
  {
    var ok := Call(h, event);
    r := if ok then Success(()) else Failure(InvalidLifecycle);
  }

  /** The trail after `finish_lifecycle`, from each state. */
  function Finished(state: State, trail: Trail): Trail {
    match state
    case Created => Then(trail, Stop)
    case Draining => Then(trail, Stop)
    case Starting => Then(Then(trail, Drain), Stop)
    case Ready => Then(Then(trail, Drain), Stop)
    case Degraded => Then(Then(trail, Drain), Stop)
    case Stopped => trail
  }

  /** The revisions that takes. */
  function Missing(state: State): nat {
    match state
    case Stopped => 0
    case Created => 1
    case Draining => 1
    case _ => 2
  }

  method JustStop(h: Handle) returns (r: Result<(), RunError>)
    requires h.Valid() && (h.State() == Created || h.State() == Draining)
    modifies h, h.controller
    ensures h.Valid() && h.others == old(h.others)
    ensures r.Success? <==> old(h.Revision()) < U64_MAX
    ensures r.Success? ==>
      && h.State() == Stopped && h.own == Then(old(h.own), Stop) && h.Revision() == old(h.Revision()) + 1
      && Phases(h.History()) == Then(old(Phases(h.History())), Stop)
    ensures r.Failure? ==> r.error == InvalidLifecycle && h.Revision() == U64_MAX && h.own == old(h.own)
    ensures Marked(h.own) == Marked(old(h.own))
  {
    r := Transition(h, Stop);
  }

  method DrainAndStop(h: Handle) returns (r: Result<(), RunError>)
    requires h.Valid() && Fires(h.State(), Drain)
    modifies h, h.controller
    ensures h.Valid() && h.others == old(h.others)
    ensures r.Success? <==> old(h.Revision()) + 2 <= U64_MAX
    ensures r.Success? ==>
      && h.State() == Stopped && h.own == Then(Then(old(h.own), Drain), Stop) && h.Revision() == old(h.Revision()) + 2
      && Phases(h.History()) == Then(Then(old(Phases(h.History())), Drain), Stop)
    ensures r.Failure? ==>
      && r.error == InvalidLifecycle && h.Revision() == U64_MAX
      && (h.own == old(h.own) || h.own == Then(old(h.own), Drain))
    ensures Marked(h.own) == Marked(old(h.own))
  {
    r := Transition(h, Drain);
    if r.Success? {
      Interfere(h);
      r := Transition(h, Stop);
    }
  }

  /** From any of the six states and under any interference this ends in Stopped, having recorded
      exactly the events that were missing and no mark. It succeeds exactly when the revisions left
      suffice for those events and for the marks that others record meanwhile; unless the
      controller is serving there are no such marks, so that the caller can tell beforehand. */
  method FinishLifecycle(h: Handle) returns (r: Result<(), RunError>)
    requires h.Valid()
    modifies h, h.controller
    ensures h.Valid() && MarksAdded(old(h.others), h.others)
    ensures !IsServing(old(h.State())) ==> h.others == old(h.others)
    ensures r.Success? <==>
            old(h.Revision()) + (h.others.Total() - old(h.others.Total())) + Missing(old(h.State())) <= U64_MAX
    ensures r.Success? ==>
      h.Revision() == old(h.Revision()) + (h.others.Total() - old(h.others.Total())) + Missing(old(h.State()))
    ensures r.Success? ==>
      && h.State() == Stopped && h.own == Finished(old(h.State()), old(h.own))
      && Phases(h.History()) == Finished(old(h.State()), old(Phases(h.History())))
    ensures r.Failure? ==>
      && r.error == InvalidLifecycle && h.Revision() == U64_MAX
      && (h.own == old(h.own) || h.own == Then(old(h.own), Drain))
      && h.Revision() - old(h.Revision()) <= h.others.Total() - old(h.others.Total()) + 1
    ensures Marked(h.own) == Marked(old(h.own))
  {
    var state := h.State();
    Interfere(h);
    match state
    case Created | Draining =>
      r := JustStop(h);
    case Starting | Ready | Degraded =>
      r := DrainAndStop(h);
    case Stopped =>
      r := Success(());
  }

  // ---------------------------------------------------------------- runners

  /** The events of a run that passes Start. */
  function RunTrail(trail: Trail, started: bool, degraded: bool): Trail {
    var begun := if started then Then(Then(trail, Start), Started) else Then(trail, Start);
    Then(Then(if degraded then Then(begun, Degrade) else begun, Drain), Stop)
  }

  function Abandoned(trail: Trail): Trail {
    RunTrail(trail, false, false)
  }

  function Completed(trail: Trail): Trail {
    RunTrail(trail, true, false)
  }

  /** A failed startup: `finish_lifecycle`, then the original error unless that failed too. */
  method Abandon(h: Handle, error: RunError) returns (r: Result<(), RunError>)
    requires h.Valid() && h.State() == Starting && error != InvalidLifecycle
    modifies h, h.controller
    ensures h.Valid() && h.others == old(h.others) && Marked(h.own) == Marked(old(h.own))
    ensures r == Failure(InvalidLifecycle) <==> old(h.Revision()) + 2 > U64_MAX
    ensures r == Failure(InvalidLifecycle) ==> h.Revision() == U64_MAX
    ensures r != Failure(InvalidLifecycle) ==>
      && r == Failure(error) && h.State() == Stopped && h.own == Then(Then(old(h.own), Drain), Stop)
      && Phases(h.History()) == Then(Then(old(Phases(h.History())), Drain), Stop)
  {
    var finished := FinishLifecycle(h);
    r := if finished.Failure? then finished else Failure(error);
  }

  /** A controller in Created has recorded nothing. */
  lemma CreatedIsNew(h: Handle)
    requires h.Valid() && h.State() == Created
    ensures h.Revision() == 0
  {
    RevisionIsLength(h.History());
    if h.History() != [] {
      LastLink(h.History());
    }
  }

  /** Start, which passes exactly from Created. */
  method Begin(h: Handle) returns (r: Result<(), RunError>)
    requires h.Valid()
    modifies h, h.controller
    ensures h.Valid() && MarksAdded(old(h.others), h.others)
    ensures r.Success? <==> old(h.State()) == Created
    ensures r.Success? ==>
      && h.State() == Starting && h.Revision() == 1 && h.others == old(h.others)
      && h.own == Then(old(h.own), Start) && Phases(h.History()) == Then(old(Phases(h.History())), Start)
    ensures r.Failure? ==> r.error == InvalidLifecycle && h.own == old(h.own)
  {
    if h.State() == Created { CreatedIsNew(h); }
    Interfere(h);
    r := Transition(h, Start);
  }

  /** From the start of a run to Started, or to the end when something fails on the way. Between
      Start and Started nobody else can record anything, so neither can fail from Created. */
  method Launch(h: Handle, problem: Option<RunError>) returns (r: Result<(), RunError>)
    requires h.Valid() && problem != Some(InvalidLifecycle)
    modifies h, h.controller
    ensures h.Valid() && MarksAdded(old(h.others), h.others) && Marked(h.own) == Marked(old(h.own))
    ensures old(h.State()) != Created ==> r == Failure(InvalidLifecycle) && h.own == old(h.own)
    ensures old(h.State()) == Created ==> h.others == old(h.others)
    ensures old(h.State()) == Created && problem.None? ==>
      && r.Success? && h.State() == Ready && h.Revision() == 2
      && h.own == Then(Then(old(h.own), Start), Started)
      && Phases(h.History()) == Then(Then(old(Phases(h.History())), Start), Started)
    ensures old(h.State()) == Created && problem.Some? ==>
      && r == Failure(problem.value) && h.State() == Stopped
      && h.own == Abandoned(old(h.own)) && Phases(h.History()) == Abandoned(old(Phases(h.History())))
  {
    r := Begin(h);
    if r.Failure? { return; }
    Interfere(h);
    assert Marked(h.own) == Marked(old(h.own));
    if problem.Some? {
      r := Abandon(h, problem.value);
      return;
    }
    r := Transition(h, Started);
  }

  /** `finish_lifecycle(...)?` and then the result of the run. */
  method Conclude(h: Handle, result: Result<(), RunError>) returns (r: Result<(), RunError>)
    requires h.Valid() && (IsServing(h.State()) || h.State() == Draining)
    requires result == Failure(InvalidLifecycle) ==> IsServing(h.State()) && h.Revision() == U64_MAX
    modifies h, h.controller
    ensures old(h.Revision()) == U64_MAX ==> r == Failure(InvalidLifecycle)
    ensures h.Valid() && MarksAdded(old(h.others), h.others) && Marked(h.own) == Marked(old(h.own))
    ensures r == Failure(InvalidLifecycle) ==>
      && h.Revision() == U64_MAX
      && h.Revision() - old(h.Revision()) <= h.others.Total() - old(h.others.Total()) + 1
    ensures r != Failure(InvalidLifecycle) ==>
      && r == result && h.State() == Stopped && h.own == Finished(old(h.State()), old(h.own))
      && Phases(h.History()) == Finished(old(h.State()), old(Phases(h.History())))
  {
    Interfere(h);
    r := FinishLifecycle(h);
    if r.Failure? { return; }
    Interfere(h);
    r := result;
  }

  /** `run_stdio`: whatever the factory and the service do, and whatever other clones mark, the run
      is refused at Start, or exhausts revisions (which takes 2^64 - 5 marks by others), or ends in
      Stopped after exactly these phases. The only mark of its own is for a failed service, and it
      makes that one unless somebody else degraded the controller before. */
  method RunStdio(h: Handle, factoryOk: bool, serveOk: bool) returns (r: Result<(), RunError>)
    requires h.Valid()
    modifies h, h.controller
    ensures h.Valid() && MarksAdded(old(h.others), h.others)
    ensures Marked(h.own) <= Marked(old(h.own)) + if factoryOk && !serveOk then 1 else 0
    ensures old(h.State()) != Created ==> r == Failure(InvalidLifecycle) && h.own == old(h.own)
    ensures r == Failure(InvalidLifecycle) && old(h.State()) == Created ==>
      h.Revision() == U64_MAX && h.others.Total() - old(h.others.Total()) >= U64_MAX - 4
    ensures r != Failure(InvalidLifecycle) ==>
      && h.State() == Stopped
      && Phases(h.History()) == RunTrail(old(Phases(h.History())), factoryOk, false)
      && (h.own == RunTrail(old(h.own), factoryOk, false)
          || (factoryOk && !serveOk && h.own == RunTrail(old(h.own), true, true)))
      && r == (if !factoryOk then Failure(FactoryFailed) else if !serveOk then Failure(ServeFailed) else Success(()))
    ensures r == Failure(ServeFailed) && h.own == RunTrail(old(h.own), true, false) ==>
      h.others.degrades > old(h.others.degrades)
  {
    r := Launch(h, if factoryOk then None else Some(FactoryFailed));
    if r.Failure? { return; }
    Interfere(h);
    if !serveOk {
      var _ := MarkDegraded(h);
    }
    r := Conclude(h, if serveOk then Success(()) else Failure(ServeFailed));
  }

  /** How the served future and the cancellation token race, and how the grace period ends. */
  datatype Drained = InTime(ok: bool) | GraceExpired
  datatype Serving = Served(ok: bool) | CancelledFirst(drained: Drained)

  function ServingResult(serving: Serving): (r: Result<(), RunError>)
    ensures r.Success? <==> serving == Served(true) || serving == CancelledFirst(InTime(true))
    ensures r == Failure(ShutdownTimedOut) <==> serving == CancelledFirst(GraceExpired)
    ensures r == Failure(ServeFailed) <==> serving == Served(false) || serving == CancelledFirst(InTime(false))
  {
    match serving
    case Served(ok) => if ok then Success(()) else Failure(ServeFailed)
    case CancelledFirst(InTime(ok)) => if ok then Success(()) else Failure(ServeFailed)
    case CancelledFirst(GraceExpired) => Failure(ShutdownTimedOut)
  }

  /** The select of the HTTP and WebSocket runners and the degraded mark after it. On cancellation
      the runner itself records Drain and, however the grace period ends, no mark; when serving
      ended well it records nothing; when serving failed, at most one Degrade. */
  method Serve(h: Handle, serving: Serving) returns (result: Result<(), RunError>)
    requires h.Valid() && IsServing(h.State())
    modifies h, h.controller
    ensures h.Valid() && MarksAdded(old(h.others), h.others)
    ensures if result == Failure(InvalidLifecycle) then h.Revision() == U64_MAX && IsServing(h.State())
            else result == ServingResult(serving)
    ensures result != Failure(InvalidLifecycle) ==>
      if serving.CancelledFirst? then h.State() == Draining
        && Phases(h.History()) == Then(old(Phases(h.History())), Drain)
      else IsServing(h.State()) && Phases(h.History()) == old(Phases(h.History()))
    ensures match serving
            case CancelledFirst(_) =>
              h.own == if result == Failure(InvalidLifecycle) then old(h.own) else Then(old(h.own), Drain)
            case Served(true) => h.own == old(h.own)
            case Served(false) => h.own == old(h.own) || h.own == Then(old(h.own), Degrade)
    ensures serving == Served(false) ==> h.State() == Degraded || h.Revision() == U64_MAX
    ensures serving == Served(false) && h.own == old(h.own) && old(h.State()) == Ready ==>
      h.others.degrades > old(h.others.degrades) || h.Revision() == U64_MAX
    ensures h.Revision() - old(h.Revision()) <= h.others.Total() - old(h.others.Total()) + 1
    ensures h.own == old(h.own) ==> h.Revision() - old(h.Revision()) == h.others.Total() - old(h.others.Total())
  {
    Interfere(h);
    result := ServingResult(serving);
    if serving.CancelledFirst? {
      var drained := Transition(h, Drain);
      if drained.Failure? { result := drained; }
    } else if result.Failure? {
      var _ := MarkDegraded(h);
    }
  }

  /** The runner from Started on. */
  method ServeToTheEnd(h: Handle, serving: Serving) returns (r: Result<(), RunError>)
    requires h.Valid() && h.State() == Ready
    modifies h, h.controller
    ensures h.Valid() && MarksAdded(old(h.others), h.others)
    ensures Marked(h.own) <= Marked(old(h.own)) + if serving == Served(false) then 1 else 0
    ensures r == Failure(InvalidLifecycle) ==>
      && h.Revision() == U64_MAX
      && h.Revision() - old(h.Revision()) <= h.others.Total() - old(h.others.Total()) + 2
    ensures r != Failure(InvalidLifecycle) ==>
      && r == ServingResult(serving) && h.State() == Stopped
      && Phases(h.History()) == Then(Then(old(Phases(h.History())), Drain), Stop)
      && (h.own == Then(Then(old(h.own), Drain), Stop)
          || (serving == Served(false) && h.own == Then(Then(Then(old(h.own), Degrade), Drain), Stop)))
    ensures r != Failure(InvalidLifecycle) && serving == Served(false) ==>
      h.own != Then(Then(old(h.own), Drain), Stop) || h.others.degrades > old(h.others.degrades)
  {
    var result := Serve(h, serving);
    r := Conclude(h, result);
  }

  /** `run_streamable_http`, whose lifecycle skeleton `run_websocket` shares. Marks of request and
      upgrade tasks may come at any time, also after the run has ended; the result, the phases and
      the run's own records are the same for all of them. Its own marks: none when it was cancelled,
      whatever the grace period did, nor when serving ended well, and when serving failed one,
      unless somebody else degraded the controller before. */
  method RunListener(h: Handle, configOk: bool, bindOk: bool, routerOk: bool, serving: Serving)
    returns (r: Result<(), RunError>)
    requires h.Valid()
    modifies h, h.controller
    ensures h.Valid() && MarksAdded(old(h.others), h.others)
    ensures Marked(h.own) <=
            Marked(old(h.own)) + if configOk && bindOk && routerOk && serving == Served(false) then 1 else 0
    ensures !configOk <==> r == Failure(InvalidConfig)
    ensures r == Failure(InvalidConfig) ==> unchanged(h) && unchanged(h.controller)
    ensures configOk && old(h.State()) != Created ==> r == Failure(InvalidLifecycle) && h.own == old(h.own)
    ensures r == Failure(InvalidLifecycle) && old(h.State()) == Created ==>
      h.Revision() == U64_MAX && h.others.Total() - old(h.others.Total()) >= U64_MAX - 4
    ensures configOk && r != Failure(InvalidLifecycle) ==>
      && h.State() == Stopped
      && Phases(h.History()) == RunTrail(old(Phases(h.History())), bindOk && routerOk, false)
      && (h.own == RunTrail(old(h.own), bindOk && routerOk, false)
          || (bindOk && routerOk && serving == Served(false) && h.own == RunTrail(old(h.own), true, true)))
      && r == (if !bindOk then Failure(BindFailed)
              else if !routerOk then Failure(RouterFailed) else ServingResult(serving))
    ensures r == Failure(ServeFailed) && serving == Served(false) && h.own == RunTrail(old(h.own), true, false) ==>
      h.others.degrades > old(h.others.degrades)
  {
    if !configOk { return Failure(InvalidConfig); }
    var problem := if !bindOk then Some(BindFailed) else if !routerOk then Some(RouterFailed) else None;
    r := Launch(h, problem);
    if r.Failure? { return; }
    r := ServeToTheEnd(h, serving);
  }
}
