/** `run_tcp_ndjson` as a concurrent program: the accept loop, its permits and task set, any
    number of connection tasks with their non-atomic health marks, and outside clones that mark at
    will. All of them share one controller, whose calls are atomic (see ControllerThreads). */
module TcpRunner {
  import opened Wrappers
  import opened Lifecycle
  import opened TransportRunners

  type TaskId = nat

  /** A connection task. Checking and Firing are the two halves of a mark; Finished tasks have
      returned their permit and wait to be joined. */
  datatype Task = Building | Checking(mark: Event) | Firing(mark: Event) | Serving | Finished(failed: bool)

  /** The controller as the runner sees it, with the phase events fired so far and the number of
      edges of each mark. */
  datatype Life = Life(snapshot: Snapshot, trail: Trail, degrades: nat, recovers: nat)

  /** What gave reason for marks: failures of factories, services, tasks and accepts, factories
      that succeeded, and the attempts of outside clones. No step reads it. */
  datatype Causes = Causes(faults: nat, factories: nat, outsideDegrades: nat, outsideRecovers: nat)

  datatype TcpError = RefusedLifecycle | BindError | AcceptError
  datatype AfterMark = BackToLoop | LeaveLoop

  datatype Pc =
    | Begin
    | Binding
    | Launching
    | Accepting
    | MarkCheck(next: AfterMark)
    | MarkFire(next: AfterMark)
    | StartDrain
    | Joining
    | Aborting
    | FinishRead
    | FinishDrain
    | FinishStop
    | Done(result: Result<(), TcpError>)

  datatype System = System(
    initial: State,
    life: Life,
    pc: Pc,
    tasks: map<TaskId, Task>,
    permits: nat,
    bindFailed: bool,
    acceptFailed: bool,
    cancelled: bool,
    causes: Causes)

  datatype Choice =
    | Proceed            // the only thing to do at this point, or the happy outcome
    | Fail               // bind or accept error
    | Connect(id: TaskId)
    | Join(id: TaskId)
    | Cancelled          // the cancellation arm of the accept loop
    | Deadline           // the grace period elapses

  /** Outcomes of a task's own step: Interrupted is a panic or an abort. */
  datatype TaskChoice = Good | Bad | Interrupted

  datatype Action = Runner(choice: Choice) | TaskStep(id: TaskId, outcome: TaskChoice) | Outside(mark: Event)

  // ---------------------------------------------------------------- the shared controller

  predicate Applies(life: Life, event: Event) {
    Fires(life.snapshot.state, event) && life.snapshot.revision < U64_MAX
  }

  /** One controller call: an edge taken, or nothing. */
  function Try(life: Life, event: Event): Life {
    if Applies(life, event)
    then Life(Snapshot(Entered(event), life.snapshot.revision + 1),
              if IsHealth(event) then life.trail else Then(life.trail, event),
              life.degrades + if event == Degrade then 1 else 0,
              life.recovers + if event == Recover then 1 else 0)
    else life
  }

  /** This is the controller's own decision: a call applies exactly when `Decide` accepts it, and
      then leads where `Decide` leads. */
  lemma TryIsDecide(life: Life, event: Event)
    requires life.snapshot.revision <= U64_MAX
    ensures Applies(life, event) <==> Decide(life.snapshot, event).Success?
    ensures Try(life, event).snapshot ==
            match Decide(life.snapshot, event)
            case Success(entry) => After(entry)
            case Failure(_) => life.snapshot
  {
    FiresIffTransition(life.snapshot.state, event);
  }

  // ---------------------------------------------------------------- steps

  function AfterTaskMark(mark: Event): Task {
    if mark.Recover? then Serving else Finished(false)
  }

  /** The task after its own step, given the state it may read. */
  function TaskNext(task: Task, outcome: TaskChoice, state: State): Task {
    match task
    case Building =>
      (match outcome
       case Good => Checking(Recover)
       case Bad => Checking(Degrade)
       case Interrupted => Finished(true))
    case Checking(mark) => if Fires(state, mark) then Firing(mark) else AfterTaskMark(mark)
    case Firing(mark) => AfterTaskMark(mark)
    case Serving =>
      (match outcome
       case Good => Finished(false)
       case Bad => Checking(Degrade)
       case Interrupted => Finished(true))
    case Finished(_) => task
  }

  function TaskCause(causes: Causes, task: Task, outcome: TaskChoice): Causes {
    if task.Building? && outcome.Good? then causes.(factories := causes.factories + 1)
    else if (task.Building? || task.Serving?) && outcome.Bad? then Fault(causes)
    else causes
  }

  function Fault(causes: Causes): Causes {
    causes.(faults := causes.faults + 1)
  }

  function OutsideCause(causes: Causes, mark: Event): Causes {
    if mark == Degrade then causes.(outsideDegrades := causes.outsideDegrades + 1)
    else causes.(outsideRecovers := causes.outsideRecovers + 1)
  }

  ghost predicate TaskAct(s: System, s': System, id: TaskId, outcome: TaskChoice) {
    && id in s.tasks && !s.tasks[id].Finished?
    && var next := TaskNext(s.tasks[id], outcome, s.life.snapshot.state);
       s' == s.(tasks := s.tasks[id := next],
                permits := if next.Finished? then s.permits + 1 else s.permits,
                life := if s.tasks[id].Firing? then Try(s.life, s.tasks[id].mark) else s.life,
                causes := TaskCause(s.causes, s.tasks[id], outcome))
  }

  /** The runner's own `transition(...)?`. */
  function Advance(s: System, event: Event, next: Pc): System {
    if Applies(s.life, event) then s.(life := Try(s.life, event), pc := next)
    else s.(pc := Done(Failure(RefusedLifecycle)))
  }

  function FinalResult(s: System): Result<(), TcpError> {
    if s.bindFailed then Failure(BindError) else if s.acceptFailed then Failure(AcceptError) else Success(())
  }

  function AfterMarkPc(next: AfterMark): Pc {
    if next.LeaveLoop? then StartDrain else Accepting
  }

  function Remove(tasks: map<TaskId, Task>, id: TaskId): map<TaskId, Task> {
    tasks - {id}
  }

  ghost predicate RunnerAct(s: System, s': System, choice: Choice) {
    match s.pc
    case Begin => choice.Proceed? && s' == Advance(s, Start, Binding)
    case Binding =>
      || (choice.Proceed? && s' == s.(pc := Launching))
      || (choice.Fail? && s' == s.(bindFailed := true, pc := FinishRead))
    case Launching => choice.Proceed? && s' == Advance(s, Started, Accepting)
    case Accepting =>
      || (choice.Cancelled? && s' == s.(cancelled := true, pc := StartDrain))
      || (choice.Fail? && s' == s.(acceptFailed := true, pc := MarkCheck(LeaveLoop), causes := Fault(s.causes)))
      || (choice.Connect? && choice.id !in s.tasks
          && s' == if s.permits > 0 then s.(tasks := s.tasks[choice.id := Building], permits := s.permits - 1) else s)
      || (choice.Join? && choice.id in s.tasks && s.tasks[choice.id].Finished?
          && s' == s.(tasks := Remove(s.tasks, choice.id),
                      pc := if s.tasks[choice.id].failed then MarkCheck(BackToLoop) else Accepting,
                      causes := if s.tasks[choice.id].failed then Fault(s.causes) else s.causes))
    case MarkCheck(next) =>
      choice.Proceed? && s' == s.(pc := if s.life.snapshot.state == Ready then MarkFire(next) else AfterMarkPc(next))
    case MarkFire(next) => choice.Proceed? && s' == s.(life := Try(s.life, Degrade), pc := AfterMarkPc(next))
    case StartDrain => choice.Proceed? && s' == Advance(s, Drain, Joining)
    case Joining =>
      || (choice.Proceed? && s.tasks == map[] && s' == s.(pc := FinishRead))
      || (choice.Deadline? && s.tasks != map[] && s' == s.(pc := Aborting))
      || (choice.Join? && choice.id in s.tasks && s.tasks[choice.id].Finished?
          && s' == s.(tasks := Remove(s.tasks, choice.id)))
    case Aborting =>
      || (choice.Proceed? && s.tasks == map[] && s' == s.(pc := FinishRead))
      || (choice.Join? && choice.id in s.tasks && s.tasks[choice.id].Finished?
          && s' == s.(tasks := Remove(s.tasks, choice.id)))
    case FinishRead =>
      && choice.Proceed?
      && s' == (match s.life.snapshot.state
                case Created => s.(pc := FinishStop)
                case Draining => s.(pc := FinishStop)
                case Stopped => s.(pc := Done(FinalResult(s)))
                case _ => s.(pc := FinishDrain))
    case FinishDrain => choice.Proceed? && s' == Advance(s, Drain, FinishStop)
    case FinishStop => choice.Proceed? && s' == Advance(s, Stop, Done(FinalResult(s)))
    case Done(_) => false
  }

  ghost predicate Act(s: System, s': System, action: Action) {
    match action
    case Runner(choice) => RunnerAct(s, s', choice)
    case TaskStep(id, outcome) => TaskAct(s, s', id, outcome)
    case Outside(mark) => IsHealth(mark) && s' == s.(life := Try(s.life, mark), causes := OutsideCause(s.causes, mark))
  }

  ghost predicate Next(s: System, s': System) {
    exists action :: Act(s, s', action)
  }

  /** The one event that a step may try on the controller. */
  function Tried(s: System, action: Action): Option<Event> {
    match action
    case Outside(mark) => Some(mark)
    case TaskStep(id, _) => if id in s.tasks && s.tasks[id].Firing? then Some(s.tasks[id].mark) else None
    case Runner(_) =>
      match s.pc
      case Begin => Some(Start)
      case Launching => Some(Started)
      case MarkFire(_) => Some(Degrade)
      case StartDrain => Some(Drain)
      case FinishDrain => Some(Drain)
      case FinishStop => Some(Stop)
      case _ => None
  }

  lemma AdvanceTries(s: System, event: Event, next: Pc)
    ensures var s' := Advance(s, event, next);
            s'.initial == s.initial && (s'.life == s.life || s'.life == Try(s.life, event))
  {
  }

  lemma RunnerTries(s: System, s': System, choice: Choice)
    requires RunnerAct(s, s', choice)
    ensures s'.initial == s.initial
    ensures s'.life == s.life
            || (Tried(s, Runner(choice)).Some? && s'.life == Try(s.life, Tried(s, Runner(choice)).value))
  {
    match s.pc
    case Begin => AdvanceTries(s, Start, Binding);
    case Launching => AdvanceTries(s, Started, Accepting);
    case StartDrain => AdvanceTries(s, Drain, Joining);
    case FinishDrain => AdvanceTries(s, Drain, FinishStop);
    case FinishStop => AdvanceTries(s, Stop, Done(FinalResult(s)));
    case _ =>
  }

  lemma StepTries(s: System, s': System, action: Action)
    requires Act(s, s', action)
    ensures s'.initial == s.initial
    ensures s'.life == s.life || (Tried(s, action).Some? && s'.life == Try(s.life, Tried(s, action).value))
  {
    match action
    case Outside(_) =>
    case TaskStep(_, _) =>
    case Runner(choice) => RunnerTries(s, s', choice);
  }

  ghost predicate Init(max: nat, s: System) {
    && s.pc == Begin && s.tasks == map[] && s.permits == max && !s.bindFailed && !s.acceptFailed && !s.cancelled
    && s.causes == Causes(0, 0, 0, 0) && s.life.degrades == 0 && s.life.recovers == 0
    && s.life.trail == Nothing && s.life.snapshot.state == s.initial && s.life.snapshot.revision <= U64_MAX
  }

  ghost predicate IsRun(max: nat, run: seq<System>) {
    && run != [] && Init(max, run[0])
    && forall i :: 0 < i < |run| ==> RunStep(run, i)
  }

  ghost predicate RunStep(run: seq<System>, i: nat)
    requires 0 < i < |run|
  {
    Next(run[i - 1], run[i])
  }

  // ---------------------------------------------------------------- permits

  /** The tasks that hold a permit. */
  function Holding(tasks: map<TaskId, Task>): set<TaskId> {
    set id | id in tasks && !tasks[id].Finished?
  }

  ghost predicate PermitInv(max: nat, permits: nat, tasks: map<TaskId, Task>) {
    && permits + |Holding(tasks)| == max
    && forall id :: id in tasks ==> (tasks[id].Checking? || tasks[id].Firing? ==> IsHealth(tasks[id].mark))
  }

  lemma TaskKeepsPermits(max: nat, permits: nat, tasks: map<TaskId, Task>, id: TaskId,
    outcome: TaskChoice, state: State)
    requires PermitInv(max, permits, tasks) && id in tasks && !tasks[id].Finished?
    ensures var next := TaskNext(tasks[id], outcome, state);
            PermitInv(max, if next.Finished? then permits + 1 else permits, tasks[id := next])
  {
    var next := TaskNext(tasks[id], outcome, state);
    assert Holding(tasks[id := next]) == if next.Finished? then Holding(tasks) - {id} else Holding(tasks);
  }

  lemma ConnectKeepsPermits(max: nat, permits: nat, tasks: map<TaskId, Task>, id: TaskId)
    requires PermitInv(max, permits, tasks) && permits > 0 && id !in tasks
    ensures PermitInv(max, permits - 1, tasks[id := Building])
  {
    assert Holding(tasks[id := Building]) == Holding(tasks) + {id};
  }

  lemma JoinKeepsPermits(max: nat, permits: nat, tasks: map<TaskId, Task>, id: TaskId)
    requires PermitInv(max, permits, tasks) && id in tasks && tasks[id].Finished?
    ensures PermitInv(max, permits, Remove(tasks, id))
  {
    assert Holding(Remove(tasks, id)) == Holding(tasks);
  }

  lemma RunnerKeepsPermits(max: nat, s: System, s': System, choice: Choice)
    requires PermitInv(max, s.permits, s.tasks) && RunnerAct(s, s', choice)
    ensures PermitInv(max, s'.permits, s'.tasks)
  {
    if choice.Connect? && s.permits > 0 {
      ConnectKeepsPermits(max, s.permits, s.tasks, choice.id);
    } else if choice.Join? {
      JoinKeepsPermits(max, s.permits, s.tasks, choice.id);
    }
  }

  lemma PermitStep(max: nat, s: System, s': System, action: Action)
    requires PermitInv(max, s.permits, s.tasks) && Act(s, s', action)
    ensures PermitInv(max, s'.permits, s'.tasks)
  {
    match action
    case Outside(_) =>
    case TaskStep(id, outcome) => TaskKeepsPermits(max, s.permits, s.tasks, id, outcome, s.life.snapshot.state);
    case Runner(choice) => RunnerKeepsPermits(max, s, s', choice);
  }

  // ---------------------------------------------------------------- phases

  const STARTED_TRAIL := Then(Then(Nothing, Start), Started)

  ghost predicate At(life: Life, state: State, trail: Trail) {
    life.snapshot.state == state && life.trail == trail
  }

  ghost predicate ServingPhase(life: Life) {
    IsServing(life.snapshot.state) && life.trail == STARTED_TRAIL
  }

  /** The trail once Drain has fired. */
  function DrainedTrail(bindFailed: bool): Trail {
    if bindFailed then Then(Then(Nothing, Start), Drain) else Then(STARTED_TRAIL, Drain)
  }

  /** What the controller can be at each point of the runner, whatever everybody else does. */
  ghost predicate PhaseInv(initial: State, pc: Pc, life: Life, bindFailed: bool, acceptFailed: bool) {
    && life.snapshot.revision <= U64_MAX
    && (bindFailed ==> !acceptFailed && (pc.FinishRead? || pc.FinishDrain? || pc.FinishStop? || pc.Done?))
    && (acceptFailed ==> pc == MarkCheck(LeaveLoop) || pc == MarkFire(LeaveLoop) || pc.StartDrain? || pc.Joining?
                         || pc.Aborting? || pc.FinishRead? || pc.FinishStop? || pc.Done?)
    && (pc != Begin && pc != Done(Failure(RefusedLifecycle)) ==> initial == Created)
    && match pc
       case Begin => (life.snapshot.state == Created <==> initial == Created) && life.trail == Nothing
       case Binding => At(life, Starting, Then(Nothing, Start))
       case Launching => At(life, Starting, Then(Nothing, Start))
       case Accepting => ServingPhase(life)
       case MarkCheck(_) => ServingPhase(life)
       case MarkFire(_) => ServingPhase(life)
       case StartDrain => ServingPhase(life)
       case Joining => At(life, Draining, DrainedTrail(false))
       case Aborting => At(life, Draining, DrainedTrail(false))
       case FinishRead => if bindFailed then At(life, Starting, Then(Nothing, Start))
         else At(life, Draining, DrainedTrail(false))
       case FinishDrain => bindFailed && At(life, Starting, Then(Nothing, Start))
       case FinishStop => At(life, Draining, DrainedTrail(bindFailed))
       case Done(result) =>
         if result == Failure(RefusedLifecycle)
         then (initial != Created || life.snapshot.revision == U64_MAX) && Length(life.trail) <= 3
         else At(life, Stopped, Then(DrainedTrail(bindFailed), Stop))
              && result == (if bindFailed then Failure(BindError)
              else if acceptFailed then Failure(AcceptError) else Success(()))
  }

  /** A mark, however stale, keeps the phase. */
  lemma MarkKeepsPhase(initial: State, pc: Pc, life: Life, bindFailed: bool, acceptFailed: bool, mark: Event)
    requires PhaseInv(initial, pc, life, bindFailed, acceptFailed) && IsHealth(mark)
    ensures PhaseInv(initial, pc, Try(life, mark), bindFailed, acceptFailed)
    ensures !IsServing(life.snapshot.state) ==> Try(life, mark) == life
  {
  }

  /** Start, bind, the accept loop and the Drain that ends it. */
  predicate Opening(pc: Pc) {
    pc.Begin? || pc.Binding? || pc.Launching? || pc.StartDrain?
  }

  predicate InLoop(pc: Pc) {
    pc.Accepting? || pc.MarkCheck? || pc.MarkFire?
  }

  lemma OpeningKeepsPhase(s: System, s': System, choice: Choice)
    requires PhaseInv(s.initial, s.pc, s.life, s.bindFailed, s.acceptFailed) && RunnerAct(s, s', choice)
    requires Opening(s.pc)
    ensures PhaseInv(s'.initial, s'.pc, s'.life, s'.bindFailed, s'.acceptFailed)
  {
  }

  lemma LoopKeepsPhase(s: System, s': System, choice: Choice)
    requires PhaseInv(s.initial, s.pc, s.life, s.bindFailed, s.acceptFailed) && RunnerAct(s, s', choice)
    requires InLoop(s.pc)
    ensures PhaseInv(s'.initial, s'.pc, s'.life, s'.bindFailed, s'.acceptFailed)
  {
    if s.pc.MarkFire? {
      MarkKeepsPhase(s.initial, s.pc, s.life, s.bindFailed, s.acceptFailed, Degrade);
    }
  }

  lemma ClosingKeepsPhase(s: System, s': System, choice: Choice)
    requires PhaseInv(s.initial, s.pc, s.life, s.bindFailed, s.acceptFailed) && RunnerAct(s, s', choice)
    requires !Opening(s.pc) && !InLoop(s.pc)
    ensures PhaseInv(s'.initial, s'.pc, s'.life, s'.bindFailed, s'.acceptFailed)
  {
  }

  lemma PhaseStep(max: nat, s: System, s': System, action: Action)
    requires PermitInv(max, s.permits, s.tasks)
    requires PhaseInv(s.initial, s.pc, s.life, s.bindFailed, s.acceptFailed) && Act(s, s', action)
    ensures PhaseInv(s'.initial, s'.pc, s'.life, s'.bindFailed, s'.acceptFailed)
  {
    match action
    case Outside(mark) => MarkKeepsPhase(s.initial, s.pc, s.life, s.bindFailed, s.acceptFailed, mark);
    case TaskStep(id, outcome) =>
      if s.tasks[id].Firing? {
        MarkKeepsPhase(s.initial, s.pc, s.life, s.bindFailed, s.acceptFailed, s.tasks[id].mark);
      }
    case Runner(choice) =>
      if Opening(s.pc) {
        OpeningKeepsPhase(s, s', choice);
      } else if InLoop(s.pc) {
        LoopKeepsPhase(s, s', choice);
      } else {
        ClosingKeepsPhase(s, s', choice);
      }
  }

  // ---------------------------------------------------------------- no mark without a cause

  predicate Marks(task: Task, mark: Event) {
    (task.Checking? || task.Firing?) && task.mark == mark
  }

  /** The tasks on their way to firing a mark. */
  function Marking(tasks: map<TaskId, Task>, mark: Event): set<TaskId> {
    set id | id in tasks && Marks(tasks[id], mark)
  }

  function Pending(tasks: map<TaskId, Task>, id: TaskId, mark: Event): nat {
    if id in tasks && Marks(tasks[id], mark) then 1 else 0
  }

  lemma MarkingWithout(tasks: map<TaskId, Task>, id: TaskId, mark: Event)
    ensures |Marking(tasks, mark)| == |Marking(tasks, mark) - {id}| + Pending(tasks, id, mark)
  {
    if Pending(tasks, id, mark) == 1 {
      assert Marking(tasks, mark) == (Marking(tasks, mark) - {id}) + {id};
    } else {
      assert Marking(tasks, mark) - {id} == Marking(tasks, mark);
    }
  }

  lemma OthersKeepMarking(tasks: map<TaskId, Task>, id: TaskId, task: Task, mark: Event)
    ensures Marking(tasks[id := task], mark) - {id} == Marking(tasks, mark) - {id}
  {
    var after := tasks[id := task];
    forall other ensures other in Marking(after, mark) - {id} <==> other in Marking(tasks, mark) - {id} {
      assert other != id ==> (other in after <==> other in tasks);
    }
  }

  lemma MarkingAfterUpdate(tasks: map<TaskId, Task>, id: TaskId, task: Task, mark: Event)
    ensures |Marking(tasks[id := task], mark)| ==
            |Marking(tasks, mark)| - Pending(tasks, id, mark) + if Marks(task, mark) then 1 else 0
  {
    MarkingWithout(tasks, id, mark);
    MarkingWithout(tasks[id := task], id, mark);
    OthersKeepMarking(tasks, id, task, mark);
  }

  lemma MarkingAfterJoin(tasks: map<TaskId, Task>, id: TaskId, mark: Event)
    requires id in tasks && tasks[id].Finished?
    ensures Marking(Remove(tasks, id), mark) == Marking(tasks, mark)
  {
  }

  function RunnerMarks(pc: Pc): nat {
    if pc.MarkCheck? || pc.MarkFire? then 1 else 0
  }

  /** Edges taken plus marks still under way never exceed the reasons given for them. */
  ghost predicate LedgerInv(pc: Pc, life: Life, tasks: map<TaskId, Task>, causes: Causes) {
    && life.degrades + |Marking(tasks, Degrade)| + RunnerMarks(pc) <= causes.faults + causes.outsideDegrades
    && life.recovers + |Marking(tasks, Recover)| <= causes.factories + causes.outsideRecovers
  }

  lemma TaskKeepsLedger(s: System, s': System, id: TaskId, outcome: TaskChoice)
    requires LedgerInv(s.pc, s.life, s.tasks, s.causes) && TaskAct(s, s', id, outcome)
    requires s.tasks[id].Checking? || s.tasks[id].Firing? ==> IsHealth(s.tasks[id].mark)
    ensures LedgerInv(s'.pc, s'.life, s'.tasks, s'.causes)
  {
    MarkingAfterUpdate(s.tasks, id, s'.tasks[id], Degrade);
    MarkingAfterUpdate(s.tasks, id, s'.tasks[id], Recover);
  }

  lemma LoopKeepsLedger(s: System, s': System, choice: Choice)
    requires LedgerInv(s.pc, s.life, s.tasks, s.causes) && RunnerAct(s, s', choice)
    requires !choice.Connect? && !choice.Join? && InLoop(s.pc)
    ensures LedgerInv(s'.pc, s'.life, s'.tasks, s'.causes)
  {
    assert s'.tasks == s.tasks;
  }

  lemma PhasesTouchNoTask(s: System, s': System, choice: Choice)
    requires RunnerAct(s, s', choice) && !choice.Join? && !InLoop(s.pc)
    ensures s'.tasks == s.tasks && s'.causes == s.causes
    ensures RunnerMarks(s'.pc) == 0
  {
  }

  /** Outside the accept loop the runner fires no mark. */
  lemma PhasesKeepLedger(s: System, s': System, choice: Choice)
    requires LedgerInv(s.pc, s.life, s.tasks, s.causes) && RunnerAct(s, s', choice)
    requires !choice.Connect? && !choice.Join? && !InLoop(s.pc)
    ensures LedgerInv(s'.pc, s'.life, s'.tasks, s'.causes)
  {
    StepTries(s, s', Runner(choice));
    PhasesTouchNoTask(s, s', choice);
  }

  lemma TaskSetKeepsLedger(s: System, s': System, choice: Choice)
    requires LedgerInv(s.pc, s.life, s.tasks, s.causes) && RunnerAct(s, s', choice)
    requires choice.Connect? || choice.Join?
    ensures LedgerInv(s'.pc, s'.life, s'.tasks, s'.causes)
  {
    if choice.Connect? {
      MarkingAfterUpdate(s.tasks, choice.id, Building, Degrade);
      MarkingAfterUpdate(s.tasks, choice.id, Building, Recover);
    } else {
      MarkingAfterJoin(s.tasks, choice.id, Degrade);
      MarkingAfterJoin(s.tasks, choice.id, Recover);
    }
  }

  lemma LedgerStep(max: nat, s: System, s': System, action: Action)
    requires PermitInv(max, s.permits, s.tasks)
    requires LedgerInv(s.pc, s.life, s.tasks, s.causes) && Act(s, s', action)
    ensures LedgerInv(s'.pc, s'.life, s'.tasks, s'.causes)
  {
    match action
    case Outside(_) =>
    case TaskStep(id, outcome) => TaskKeepsLedger(s, s', id, outcome);
    case Runner(choice) =>
      if choice.Connect? || choice.Join? {
        TaskSetKeepsLedger(s, s', choice);
      } else if InLoop(s.pc) {
        LoopKeepsLedger(s, s', choice);
      } else {
        PhasesKeepLedger(s, s', choice);
      }
  }

  // ---------------------------------------------------------------- whole runs

  predicate NoTasksYet(s: System) {
    s.pc.Begin? || s.pc.Binding? || s.pc.Launching? || s.pc.FinishRead? || s.pc.FinishDrain? || s.pc.FinishStop?
    || (s.pc.Done? && s.pc.result != Failure(RefusedLifecycle))
  }

  ghost predicate Inv(max: nat, s: System) {
    && PermitInv(max, s.permits, s.tasks)
    && PhaseInv(s.initial, s.pc, s.life, s.bindFailed, s.acceptFailed)
    && LedgerInv(s.pc, s.life, s.tasks, s.causes)
    && LeavingInv(s.pc, s.bindFailed, s.acceptFailed, s.cancelled)
    && (NoTasksYet(s) ==> s.tasks == map[])
  }

  /** Why the accept loop was left: nothing else than a cancellation or a failed accept leaves it. */
  ghost predicate LeavingInv(pc: Pc, bindFailed: bool, acceptFailed: bool, cancelled: bool) {
    match pc
    case Begin => !acceptFailed && !cancelled
    case Binding => !acceptFailed && !cancelled
    case Launching => !acceptFailed && !cancelled
    case Accepting => !acceptFailed && !cancelled
    case MarkCheck(next) => !cancelled && (next.LeaveLoop? <==> acceptFailed)
    case MarkFire(next) => !cancelled && (next.LeaveLoop? <==> acceptFailed)
    case Done(result) => result == Failure(RefusedLifecycle) || bindFailed || (acceptFailed <==> !cancelled)
    case _ => bindFailed || (acceptFailed <==> !cancelled)
  }

  lemma LeavingStep(s: System, s': System, action: Action)
    requires LeavingInv(s.pc, s.bindFailed, s.acceptFailed, s.cancelled) && Act(s, s', action)
    ensures LeavingInv(s'.pc, s'.bindFailed, s'.acceptFailed, s'.cancelled)
  {
    if action.Runner? {
      if InLoop(s.pc) {
        assert s'.bindFailed == s.bindFailed;
      } else {
        assert s'.acceptFailed == s.acceptFailed && s'.cancelled == s.cancelled;
      }
    }
  }

  /** The task set grows only in the accept loop and is empty when the drain ends. */
  lemma RunnerTasks(s: System, s': System, choice: Choice)
    requires RunnerAct(s, s', choice) && !InLoop(s.pc)
    ensures s.tasks == map[] ==> s'.tasks == map[]
    ensures InDrain(s) && !InDrain(s') ==> s'.tasks == map[]
    ensures NoTasksYet(s') ==> NoTasksYet(s) || InDrain(s)
  {
  }

  lemma NoTasksStep(s: System, s': System, action: Action)
    requires (NoTasksYet(s) ==> s.tasks == map[]) && Act(s, s', action)
    ensures NoTasksYet(s') ==> s'.tasks == map[]
  {
    match action
    case Outside(_) =>
    case TaskStep(id, _) => assert s.tasks != map[];
    case Runner(choice) =>
      if InLoop(s.pc) {
        assert !NoTasksYet(s');
      } else {
        RunnerTasks(s, s', choice);
      }
  }

  lemma StepKeepsInv(max: nat, s: System, s': System, action: Action)
    requires Inv(max, s) && Act(s, s', action)
    ensures Inv(max, s')
  {
    PermitStep(max, s, s', action);
    PhaseStep(max, s, s', action);
    LedgerStep(max, s, s', action);
    LeavingStep(s, s', action);
    NoTasksStep(s, s', action);
  }

  lemma {:induction false} RunKeepsInv(max: nat, run: seq<System>, i: nat)
    requires IsRun(max, run) && i < |run|
    ensures Inv(max, run[i])
    decreases i
  {
    if i == 0 {
      assert Holding(map[]) == {} && Marking(map[], Degrade) == {} && Marking(map[], Recover) == {};
    } else {
      RunKeepsInv(max, run, i - 1);
      assert RunStep(run, i);
      var action :| Act(run[i - 1], run[i], action);
      StepKeepsInv(max, run[i - 1], run[i], action);
    }
  }

  /** Once Start has passed from Created, no interleaving makes a later transition fail while
      revisions last; the runner returns only in Stopped, with every permit back and no task left,
      after exactly its own phases; its result is an error exactly when bind or accept failed, and
      success means it was cancelled. */
  lemma RunnerSafety(max: nat, run: seq<System>, i: nat)
    requires IsRun(max, run) && i < |run| && run[i].pc.Done?
    ensures var s := run[i];
            if s.pc.result == Failure(RefusedLifecycle) then s.initial != Created || s.life.snapshot.revision == U64_MAX
            else
              && s.initial == Created && s.life.snapshot.state == Stopped
              && s.tasks == map[] && s.permits == max
              && s.life.trail == (if s.bindFailed then Abandoned(Nothing) else Completed(Nothing))
              && (s.pc.result == Failure(BindError) <==> s.bindFailed)
              && (s.pc.result == Failure(AcceptError) <==> s.acceptFailed)
              && (s.pc.result == Success(()) <==> !s.bindFailed && s.cancelled)
  {
    RunKeepsInv(max, run, i);
    assert Holding(map[]) == {};
  }

  ghost predicate Offers(s: System, choice: Choice) {
    exists s' :: RunnerAct(s, s', choice)
  }

  /** A connection that gets a permit: its task joins the others, and nothing else happens. */
  ghost predicate Admits(s: System, s': System, id: TaskId) {
    && s'.tasks == s.tasks[id := Building] && Holding(s'.tasks) == Holding(s.tasks) + {id}
    && s'.permits + 1 == s.permits && s'.life == s.life && s'.pc == s.pc
  }

  lemma ConnectAdmitsOrDrops(s: System, s': System, id: TaskId)
    requires s.pc.Accepting? && id !in s.tasks && RunnerAct(s, s', Connect(id))
    ensures if s.permits > 0 then Admits(s, s', id) else s' == s
  {
    if s.permits > 0 {
      assert Holding(s'.tasks) == Holding(s.tasks) + {id};
    }
  }

  lemma ConnectIsOffered(s: System, id: TaskId)
    requires s.pc.Accepting? && id !in s.tasks
    ensures Offers(s, Connect(id))
  {
    var s' := if s.permits > 0 then s.(tasks := s.tasks[id := Building], permits := s.permits - 1) else s;
    assert RunnerAct(s, s', Connect(id));
  }

  /** Permits are conserved in every reachable state, even while finished tasks still sit in the
      set; so no more than `max` connections are ever live. Every connection can be accepted; it is
      served with a permit of its own if fewer than `max` are live, and otherwise dropped without a
      trace. */
  lemma PermitConservation(max: nat, run: seq<System>, i: nat, id: TaskId)
    requires IsRun(max, run) && i < |run|
    ensures run[i].permits + |Holding(run[i].tasks)| == max
    ensures run[i].pc.Accepting? && id !in run[i].tasks ==>
              && Offers(run[i], Connect(id))
              && forall s' :: RunnerAct(run[i], s', Connect(id)) ==>
                   if |Holding(run[i].tasks)| < max then Admits(run[i], s', id) else s' == run[i]
  {
    RunKeepsInv(max, run, i);
    if run[i].pc.Accepting? && id !in run[i].tasks {
      ConnectIsOffered(run[i], id);
      forall s' | RunnerAct(run[i], s', Connect(id))
        ensures if |Holding(run[i].tasks)| < max then Admits(run[i], s', id) else s' == run[i]
      {
        ConnectAdmitsOrDrops(run[i], s', id);
      }
    }
  }

  /** Health never moves without a reason: each Degrade edge answers a distinct failure of a
      factory, a service, a task or an accept, or an outside attempt, and each Recover edge a
      distinct factory success or an outside attempt. */
  lemma NoMarkWithoutCause(max: nat, run: seq<System>, i: nat)
    requires IsRun(max, run) && i < |run|
    ensures run[i].life.degrades <= run[i].causes.faults + run[i].causes.outsideDegrades
    ensures run[i].life.recovers <= run[i].causes.factories + run[i].causes.outsideRecovers
  {
    RunKeepsInv(max, run, i);
  }

  // ---------------------------------------------------------------- revisions

  /** Every revision is a phase or a mark. */
  lemma {:induction false} RevisionsAreRecords(max: nat, run: seq<System>, i: nat)
    requires IsRun(max, run) && i < |run|
    ensures run[i].life.snapshot.revision ==
            run[0].life.snapshot.revision + Length(run[i].life.trail) + run[i].life.degrades + run[i].life.recovers
    ensures run[i].initial == run[0].initial
    decreases i
  {
    if i > 0 {
      RevisionsAreRecords(max, run, i - 1);
      RunKeepsInv(max, run, i - 1);
      assert RunStep(run, i);
      var action :| Act(run[i - 1], run[i], action);
      StepRecords(max, run[i - 1], run[i], action);
    }
  }

  lemma TryRecords(life: Life, event: Event)
    ensures var after := Try(life, event);
            after.snapshot.revision - life.snapshot.revision ==
            (Length(after.trail) - Length(life.trail)) + (after.degrades - life.degrades)
            + (after.recovers - life.recovers)
  {
  }

  lemma StepRecords(max: nat, s: System, s': System, action: Action)
    requires Act(s, s', action)
    ensures s'.initial == s.initial
    ensures s'.life.snapshot.revision - s.life.snapshot.revision ==
            (Length(s'.life.trail) - Length(s.life.trail)) + (s'.life.degrades - s.life.degrades)
            + (s'.life.recovers - s.life.recovers)
  {
    StepTries(s, s', action);
    if s'.life != s.life {
      TryRecords(s.life, Tried(s, action).value);
    }
  }

  /** On a new controller a run is refused only by running out of revisions, and that takes at least
      2^64 - 4 failures, factory successes and outside attempts. */
  lemma RefusalTakesMarks(max: nat, run: seq<System>, i: nat)
    requires IsRun(max, run) && i < |run| && run[0].life.snapshot == INITIAL
    requires run[i].pc == Done(Failure(RefusedLifecycle))
    ensures var causes := run[i].causes;
            causes.faults + causes.factories + causes.outsideDegrades + causes.outsideRecovers >= U64_MAX - 3
  {
    RunKeepsInv(max, run, i);
    RevisionsAreRecords(max, run, i);
    NoMarkWithoutCause(max, run, i);
  }

  // ---------------------------------------------------------------- marks take hold

  predicate RunnerMarking(pc: Pc) {
    pc.MarkCheck? || pc.MarkFire?
  }

  predicate TaskMarking(task: Task) {
    task.Checking? || task.Firing?
  }

  /** A task completes its mark while the controller is serving. */
  predicate CompletesMark(s: System, s': System, id: TaskId) {
    && IsServing(s.life.snapshot.state) && id in s.tasks && id in s'.tasks
    && TaskMarking(s.tasks[id]) && !TaskMarking(s'.tasks[id])
  }

  ghost predicate Holds(life: Life, mark: Event) {
    life.snapshot.state == Entered(mark) || life.snapshot.revision == U64_MAX
  }

  lemma RunnerMarkTakesHold(max: nat, s: System, s': System, action: Action)
    requires Inv(max, s) && Act(s, s', action) && RunnerMarking(s.pc) && !RunnerMarking(s'.pc)
    ensures Holds(s'.life, Degrade)
  {
    assert action.Runner?;
  }

  lemma TaskMarkTakesHold(max: nat, s: System, s': System, action: Action, id: TaskId)
    requires Inv(max, s) && Act(s, s', action) && CompletesMark(s, s', id)
    ensures Holds(s'.life, s.tasks[id].mark)
  {
    assert action.TaskStep? && action.id == id;
    assert IsHealth(s.tasks[id].mark);
  }

  /** Stale checks lose no mark: whatever came between its two halves, the step by which the runner
      or a task completes a mark leaves a serving controller in the marked state, unless revisions
      are exhausted. */
  lemma CompletedMarksHold(max: nat, run: seq<System>, i: nat, id: TaskId)
    requires IsRun(max, run) && 0 < i < |run|
    ensures RunnerMarking(run[i - 1].pc) && !RunnerMarking(run[i].pc) ==> Holds(run[i].life, Degrade)
    ensures CompletesMark(run[i - 1], run[i], id) ==> Holds(run[i].life, run[i - 1].tasks[id].mark)
  {
    RunKeepsInv(max, run, i - 1);
    assert RunStep(run, i);
    var action :| Act(run[i - 1], run[i], action);
    if RunnerMarking(run[i - 1].pc) && !RunnerMarking(run[i].pc) {
      RunnerMarkTakesHold(max, run[i - 1], run[i], action);
    }
    if CompletesMark(run[i - 1], run[i], id) {
      TaskMarkTakesHold(max, run[i - 1], run[i], action, id);
    }
  }

  // ---------------------------------------------------------------- failures are marked

  /** The mark that an outcome of a task calls for, if any. */
  function CalledFor(task: Task, outcome: TaskChoice): Option<Event> {
    if task.Building? && outcome.Good? then Some(Recover)
    else if (task.Building? || task.Serving?) && outcome.Bad? then Some(Degrade)
    else None
  }

  /** The step at `k` completes the task's mark: a serving controller is then in the marked state,
      and the task goes on to serve, or ends. */
  ghost predicate MarkCompletedAt(run: seq<System>, k: nat, id: TaskId, mark: Event)
    requires 0 < k < |run|
  {
    && id in run[k].tasks && run[k].tasks[id] == (if mark == Recover then Serving else Finished(false))
    && (IsServing(run[k - 1].life.snapshot.state) ==> Holds(run[k].life, mark))
  }

  lemma OutcomeCallsForMark(s: System, s': System, id: TaskId, outcome: TaskChoice)
    requires TaskAct(s, s', id, outcome)
    ensures CalledFor(s.tasks[id], outcome).Some? ==> s'.tasks[id] == Checking(CalledFor(s.tasks[id], outcome).value)
    ensures s'.tasks[id] == Finished(true) <==> (s.tasks[id].Building? || s.tasks[id].Serving?) && outcome.Interrupted?
    ensures s.tasks[id].Serving? && outcome.Good? ==> s'.tasks[id] == Finished(false)
  {
  }

  /** A task on its way to a mark stays on it, or completes it. */
  lemma MarkingGoesOn(max: nat, run: seq<System>, k: nat, id: TaskId, mark: Event)
    requires IsRun(max, run) && 0 < k < |run|
    requires id in run[k - 1].tasks && Marks(run[k - 1].tasks[id], mark)
    ensures id in run[k].tasks && (Marks(run[k].tasks[id], mark) || MarkCompletedAt(run, k, id, mark))
  {
    CompletedMarksHold(max, run, k, id);
    RunKeepsInv(max, run, k - 1);
    assert RunStep(run, k);
    var action :| Act(run[k - 1], run[k], action);
    TaskMoves(run[k - 1], run[k], action, id, mark);
  }

  lemma TaskMoves(s: System, s': System, action: Action, id: TaskId, mark: Event)
    requires Act(s, s', action) && id in s.tasks && Marks(s.tasks[id], mark) && IsHealth(mark)
    ensures id in s'.tasks
    ensures Marks(s'.tasks[id], mark) || s'.tasks[id] == if mark == Recover then Serving else Finished(false)
  {
    match action
    case Outside(_) =>
    case TaskStep(_, _) =>
    case Runner(choice) => OthersTouchOthers(s, s', choice, id);
  }

  lemma OthersTouchOthers(s: System, s': System, choice: Choice, id: TaskId)
    requires RunnerAct(s, s', choice) && id in s.tasks && !s.tasks[id].Finished?
    ensures id in s'.tasks && s'.tasks[id] == s.tasks[id]
  {
    if !choice.Join? && !choice.Connect? {
      assert s'.tasks == s.tasks;
    }
  }

  lemma {:induction false} MarkIsCompleted(max: nat, run: seq<System>, i: nat, j: nat, id: TaskId, mark: Event)
    requires IsRun(max, run) && i <= j < |run| && id in run[i].tasks && Marks(run[i].tasks[id], mark)
    ensures (id in run[j].tasks && Marks(run[j].tasks[id], mark))
            || exists k :: i < k <= j && MarkCompletedAt(run, k, id, mark)
    decreases j
  {
    if i < j {
      MarkIsCompleted(max, run, i, j - 1, id, mark);
      if id in run[j - 1].tasks && Marks(run[j - 1].tasks[id], mark) {
        MarkingGoesOn(max, run, j, id, mark);
      }
    }
  }

  /** Every failure of a factory or of a service is answered by a degrade mark, and every factory
      that succeeds by a recover mark: the task is on its way to it until some step completes it,
      and a connection whose factory succeeded is then served. */
  lemma OutcomesAreMarked(max: nat, run: seq<System>, i: nat, j: nat, id: TaskId, outcome: TaskChoice)
    requires IsRun(max, run) && i < j < |run| && TaskAct(run[i], run[i + 1], id, outcome)
    requires CalledFor(run[i].tasks[id], outcome).Some?
    ensures var mark := CalledFor(run[i].tasks[id], outcome).value;
            || (id in run[j].tasks && Marks(run[j].tasks[id], mark))
            || exists k :: i + 1 < k <= j && MarkCompletedAt(run, k, id, mark)
  {
    OutcomeCallsForMark(run[i], run[i + 1], id, outcome);
    MarkIsCompleted(max, run, i + 1, j, id, CalledFor(run[i].tasks[id], outcome).value);
  }

  /** What the runner notes: a failed bind, a failed accept and a cancellation, each when it happens
      and at no other time; where each leads; and that a failed accept, like the join of a task that
      panicked, is marked next. */
  lemma RunnerNotes(s: System, s': System, choice: Choice)
    requires RunnerAct(s, s', choice)
    ensures s'.bindFailed <==> s.bindFailed || (s.pc.Binding? && choice.Fail?)
    ensures s'.acceptFailed <==> s.acceptFailed || (s.pc.Accepting? && choice.Fail?)
    ensures s'.cancelled <==> s.cancelled || (s.pc.Accepting? && choice.Cancelled?)
    ensures s.pc.Binding? && choice.Fail? ==> s'.pc.FinishRead?
    ensures s.pc.Accepting? && choice.Cancelled? ==> s'.pc.StartDrain?
    ensures s.pc.Accepting? && choice.Fail? ==> s'.pc == MarkCheck(LeaveLoop)
    ensures s.pc.Accepting? && choice.Join? ==>
              && choice.id in s.tasks && s'.tasks == s.tasks - {choice.id}
              && s'.pc == if s.tasks[choice.id] == Finished(true) then MarkCheck(BackToLoop) else Accepting
    ensures s.pc.Joining? && choice.Deadline? ==> s'.pc.Aborting? && s'.tasks == s.tasks
    ensures InDrain(s) && choice.Join? ==>
              choice.id in s.tasks && s' == s.(tasks := s.tasks - {choice.id})
    ensures InDrain(s) && choice.Proceed? ==> s' == s.(pc := FinishRead)
  {
  }

  ghost predicate TaskOffers(s: System, id: TaskId, outcome: TaskChoice) {
    exists s' :: TaskAct(s, s', id, outcome)
  }

  /** Nothing that may happen is ruled out: bind and accept can fail, cancellation and the deadline
      get through, finished tasks can be joined, every other task can take every outcome, and at
      every other point the runner can go on. */
  lemma NothingIsRuledOut(s: System, id: TaskId, outcome: TaskChoice)
    ensures s.pc.Binding? ==> Offers(s, Proceed) && Offers(s, Fail)
    ensures s.pc.Accepting? ==> Offers(s, Cancelled) && Offers(s, Fail)
    ensures s.pc.Joining? && s.tasks != map[] ==> Offers(s, Deadline)
    ensures InDrain(s) && s.tasks == map[] ==> Offers(s, Proceed)
    ensures (s.pc.Accepting? || InDrain(s)) && id in s.tasks && s.tasks[id].Finished? ==> Offers(s, Join(id))
    ensures s.pc.MarkCheck? || s.pc.MarkFire? || s.pc.FinishRead? ==> Offers(s, Proceed)
    ensures s.pc.Begin? || s.pc.Launching? || s.pc.StartDrain? || s.pc.FinishDrain? || s.pc.FinishStop? ==>
              Offers(s, Proceed)
    ensures id in s.tasks && !s.tasks[id].Finished? ==> TaskOffers(s, id, outcome)
    ensures exists s' :: Act(s, s', Outside(Degrade))
    ensures exists s' :: Act(s, s', Outside(Recover))
  {
    assert Act(s, s.(life := Try(s.life, Degrade), causes := OutsideCause(s.causes, Degrade)), Outside(Degrade));
    assert Act(s, s.(life := Try(s.life, Recover), causes := OutsideCause(s.causes, Recover)), Outside(Recover));
    AcceptingOffers(s, id);
    DrainingOffers(s, id);
    GoingOn(s);
    if id in s.tasks && !s.tasks[id].Finished? {
      var next := TaskNext(s.tasks[id], outcome, s.life.snapshot.state);
      var s' := s.(tasks := s.tasks[id := next],
                   permits := if next.Finished? then s.permits + 1 else s.permits,
                   life := if s.tasks[id].Firing? then Try(s.life, s.tasks[id].mark) else s.life,
                   causes := TaskCause(s.causes, s.tasks[id], outcome));
      assert TaskAct(s, s', id, outcome);
    }
  }

  lemma AcceptingOffers(s: System, id: TaskId)
    ensures s.pc.Accepting? ==> Offers(s, Cancelled) && Offers(s, Fail)
    ensures s.pc.Accepting? && id in s.tasks && s.tasks[id].Finished? ==> Offers(s, Join(id))
  {
    if s.pc.Accepting? {
      assert RunnerAct(s, s.(cancelled := true, pc := StartDrain), Cancelled);
      assert RunnerAct(s, s.(acceptFailed := true, pc := MarkCheck(LeaveLoop), causes := Fault(s.causes)), Fail);
      if id in s.tasks && s.tasks[id].Finished? {
        var failed := s.tasks[id].failed;
        assert RunnerAct(s, s.(tasks := Remove(s.tasks, id),
                               pc := if failed then MarkCheck(BackToLoop) else Accepting,
                               causes := if failed then Fault(s.causes) else s.causes), Join(id));
      }
    }
  }

  lemma DrainingOffers(s: System, id: TaskId)
    ensures s.pc.Joining? && s.tasks != map[] ==> Offers(s, Deadline)
    ensures InDrain(s) && s.tasks == map[] ==> Offers(s, Proceed)
    ensures InDrain(s) && id in s.tasks && s.tasks[id].Finished? ==> Offers(s, Join(id))
  {
    if s.pc.Joining? && s.tasks != map[] {
      assert RunnerAct(s, s.(pc := Aborting), Deadline);
    }
    if InDrain(s) && s.tasks == map[] {
      assert RunnerAct(s, s.(pc := FinishRead), Proceed);
    }
    if InDrain(s) && id in s.tasks && s.tasks[id].Finished? {
      assert RunnerAct(s, s.(tasks := Remove(s.tasks, id)), Join(id));
    }
  }

  lemma GoingOn(s: System)
    ensures s.pc.Binding? ==> Offers(s, Proceed) && Offers(s, Fail)
    ensures s.pc.MarkCheck? || s.pc.MarkFire? || s.pc.FinishRead? ==> Offers(s, Proceed)
    ensures s.pc.Begin? || s.pc.Launching? || s.pc.StartDrain? || s.pc.FinishDrain? || s.pc.FinishStop? ==>
              Offers(s, Proceed)
  {
    match s.pc
    case Begin => assert RunnerAct(s, Advance(s, Start, Binding), Proceed);
    case Binding =>
      assert RunnerAct(s, s.(pc := Launching), Proceed);
      assert RunnerAct(s, s.(bindFailed := true, pc := FinishRead), Fail);
    case Launching => assert RunnerAct(s, Advance(s, Started, Accepting), Proceed);
    case MarkCheck(next) =>
      var after := if s.life.snapshot.state == Ready then MarkFire(next) else AfterMarkPc(next);
      assert RunnerAct(s, s.(pc := after), Proceed);
    case MarkFire(next) => assert RunnerAct(s, s.(life := Try(s.life, Degrade), pc := AfterMarkPc(next)), Proceed);
    case StartDrain => assert RunnerAct(s, Advance(s, Drain, Joining), Proceed);
    case FinishRead =>
      var state := s.life.snapshot.state;
      var after := if state == Created || state == Draining then FinishStop
                   else if state == Stopped then Done(FinalResult(s)) else FinishDrain;
      assert RunnerAct(s, s.(pc := after), Proceed);
    case FinishDrain => assert RunnerAct(s, Advance(s, Drain, FinishStop), Proceed);
    case FinishStop => assert RunnerAct(s, Advance(s, Stop, Done(FinalResult(s))), Proceed);
    case _ =>
  }

  // ---------------------------------------------------------------- draining terminates

  function Left(task: Task): nat {
    match task
    case Building => 8
    case Checking(mark) => if mark.Recover? then 7 else 4
    case Firing(mark) => if mark.Recover? then 6 else 3
    case Serving => 5
    case Finished(_) => 1
  }

  /** Steps the tasks can still take, plus one for the join of each. */
  ghost function Work(tasks: map<TaskId, Task>): nat
    decreases |tasks|
  {
    if tasks == map[] then 0
    else
      var id :| id in tasks;
      assert |tasks - {id}| < |tasks| by { assert id !in tasks - {id} && tasks == (tasks - {id})[id := tasks[id]]; }
      Left(tasks[id]) + Work(tasks - {id})
  }

  lemma {:induction false} WorkSplits(tasks: map<TaskId, Task>, id: TaskId)
    requires id in tasks
    ensures Work(tasks) == Left(tasks[id]) + Work(tasks - {id})
    decreases |tasks|
  {
    var first :| first in tasks && Work(tasks) == Left(tasks[first]) + Work(tasks - {first});
    if first != id {
      var others := tasks - {first};
      assert |others| < |tasks| by { assert first !in others && tasks == others[first := tasks[first]]; }
      WorkSplits(others, id);
      assert |tasks - {id}| < |tasks| by { assert tasks == (tasks - {id})[id := tasks[id]]; }
      WorkSplits(tasks - {id}, first);
      assert others - {id} == (tasks - {id}) - {first};
    }
  }

  ghost function DrainMeasure(s: System): nat {
    Work(s.tasks) + if s.pc.Joining? then 2 else if s.pc.Aborting? then 1 else 0
  }

  predicate InDrain(s: System) {
    s.pc.Joining? || s.pc.Aborting?
  }

  lemma TaskLowersWork(tasks: map<TaskId, Task>, id: TaskId, outcome: TaskChoice, state: State)
    requires id in tasks && !tasks[id].Finished?
    requires tasks[id].Checking? || tasks[id].Firing? ==> IsHealth(tasks[id].mark)
    ensures Work(tasks[id := TaskNext(tasks[id], outcome, state)]) < Work(tasks)
  {
    var after := tasks[id := TaskNext(tasks[id], outcome, state)];
    WorkSplits(tasks, id);
    WorkSplits(after, id);
    assert after - {id} == tasks - {id};
  }

  /** While draining, every step of the runner or of a task lowers the measure, outside marks
      leave it alone, and the phase ends only with the task set empty. */
  lemma DrainDecreases(max: nat, s: System, s': System, action: Action)
    requires Inv(max, s) && InDrain(s) && Act(s, s', action)
    ensures if action.Outside? then s' == s.(causes := s'.causes) else DrainMeasure(s') < DrainMeasure(s)
    ensures InDrain(s') || (s'.pc.FinishRead? && s'.tasks == map[] && s'.permits == max)
  {
    match action
    case Outside(_) =>
    case TaskStep(id, outcome) => TaskLowersWork(s.tasks, id, outcome, s.life.snapshot.state);
    case Runner(choice) =>
      if choice.Join? {
        WorkSplits(s.tasks, choice.id);
      }
      assert Holding(map[]) == {};
  }

  /** And draining never gets stuck: the runner can move on, or join a task, or every task left
      has a step of its own. */
  lemma DrainCanStep(s: System)
    requires InDrain(s)
    ensures || (s.tasks == map[] && RunnerAct(s, s.(pc := FinishRead), Proceed))
            || (exists id :: id in s.tasks && s.tasks[id].Finished?
                             && RunnerAct(s, s.(tasks := Remove(s.tasks, id)), Join(id)))
            || (s.tasks != map[] && forall id :: id in s.tasks ==> exists s' :: TaskAct(s, s', id, Interrupted))
  {
    if id :| id in s.tasks && s.tasks[id].Finished? {
      assert RunnerAct(s, s.(tasks := Remove(s.tasks, id)), Join(id));
    } else {
      forall id | id in s.tasks ensures exists s' :: TaskAct(s, s', id, Interrupted) {
        var next := TaskNext(s.tasks[id], Interrupted, s.life.snapshot.state);
        var s' := s.(tasks := s.tasks[id := next],
                     permits := if next.Finished? then s.permits + 1 else s.permits,
                     life := if s.tasks[id].Firing? then Try(s.life, s.tasks[id].mark) else s.life,
                     causes := TaskCause(s.causes, s.tasks[id], Interrupted));
        assert TaskAct(s, s', id, Interrupted);
      }
    }
  }

  // ---------------------------------------------------------------- drain_tasks as a loop

  /** One event of a drain: a task moves, reading the given controller state; a finished one is
      joined; or the rest is aborted, after which a task that moves at an await is interrupted. */
  datatype DrainStep = Moved(id: TaskId, outcome: TaskChoice, state: State) | Joined(id: TaskId) | AbortedAll

  datatype Drainage = Drainage(tasks: map<TaskId, Task>, permits: nat, aborted: bool)

  function DrainOne(d: Drainage, step: DrainStep): Option<Drainage> {
    match step
    case Moved(id, outcome, state) =>
      if id !in d.tasks || d.tasks[id].Finished? || (d.aborted && !outcome.Interrupted?) then None
      else
        var next := TaskNext(d.tasks[id], outcome, state);
        Some(Drainage(d.tasks[id := next], if next.Finished? then d.permits + 1 else d.permits, d.aborted))
    case Joined(id) =>
      if id in d.tasks && d.tasks[id].Finished? then Some(d.(tasks := Remove(d.tasks, id))) else None
    case AbortedAll => if d.aborted then None else Some(d.(aborted := true))
  }

  /** The drainage after a sequence of events, if each of them can happen in its turn. */
  function DrainAll(d: Drainage, steps: seq<DrainStep>): Option<Drainage> {
    if steps == [] then Some(d)
    else
      var before := DrainAll(d, steps[..|steps| - 1]);
      if before.None? then None else DrainOne(before.value, steps[|steps| - 1])
  }

  lemma DrainOneMore(d: Drainage, steps: seq<DrainStep>, step: DrainStep)
    requires DrainAll(d, steps).Some?
    ensures DrainAll(d, steps + [step]) == DrainOne(DrainAll(d, steps).value, step)
  {
    assert (steps + [step])[..|steps + [step]| - 1] == steps;
  }

  /** A task that moves and a join both lower the work left, and keep the permits right. */
  lemma DrainOneGoesOn(max: nat, d: Drainage, step: DrainStep)
    requires PermitInv(max, d.permits, d.tasks) && DrainOne(d, step).Some?
    ensures var after := DrainOne(d, step).value;
            && PermitInv(max, after.permits, after.tasks)
            && (if step.AbortedAll? then after.tasks == d.tasks else Work(after.tasks) < Work(d.tasks))
  {
    match step
    case Moved(id, outcome, state) =>
      TaskKeepsPermits(max, d.permits, d.tasks, id, outcome, state);
      TaskLowersWork(d.tasks, id, outcome, state);
    case Joined(id) =>
      WorkSplits(d.tasks, id);
      JoinKeepsPermits(max, d.permits, d.tasks, id);
    case AbortedAll =>
  }

  predicate CanFollow(d: Drainage, step: DrainStep) {
    match step
    case Moved(id, outcome, _) => id in d.tasks && !d.tasks[id].Finished? && (d.aborted ==> outcome.Interrupted?)
    case Joined(id) => id in d.tasks && d.tasks[id].Finished?
    case AbortedAll => !d.aborted
  }

  method WaitOnce(max: nat, now: Drainage, step: DrainStep, ghost first: Drainage, ghost steps: seq<DrainStep>)
    returns (after: Drainage)
    requires PermitInv(max, now.permits, now.tasks) && DrainAll(first, steps) == Some(now)
    requires CanFollow(now, step) && !step.AbortedAll?
    ensures PermitInv(max, after.permits, after.tasks) && DrainAll(first, steps + [step]) == Some(after)
    ensures after.aborted == now.aborted && Work(after.tasks) < Work(now.tasks)
  {
    after := DrainOne(now, step).value;
    DrainOneGoesOn(max, now, step);
    DrainOneMore(first, steps, step);
  }

  /** `steps` records what has happened since the set was as `first`. */
  class JoinSet {
    var tasks: map<TaskId, Task>
    var permits: nat
    var aborted: bool
    ghost const first: Drainage
    ghost var steps: seq<DrainStep>

    ghost predicate Valid(max: nat)
      reads this
    {
      PermitInv(max, permits, tasks) && DrainAll(first, steps) == Some(Drainage(tasks, permits, aborted))
    }

    constructor (max: nat, tasks: map<TaskId, Task>, permits: nat)
      requires PermitInv(max, permits, tasks)
      ensures Valid(max) && this.tasks == tasks && this.permits == permits && !aborted
      ensures first == Drainage(tasks, permits, false)
    {
      this.tasks, this.permits, aborted := tasks, permits, false;
      first, steps := Drainage(tasks, permits, false), [];
    }

    method AbortAll(max: nat)
      requires Valid(max) && !aborted
      modifies this
      ensures Valid(max) && aborted && tasks == old(tasks) && permits == old(permits)
      ensures steps == old(steps) + [AbortedAll]
    {
      DrainOneMore(first, steps, AbortedAll);
      aborted := true;
      steps := steps + [AbortedAll];
    }

    /** One wait on the set: some task moves on, or a finished one is joined. What its marks read of
        the controller is arbitrary here. */
    method Wait(max: nat)
      requires Valid(max) && tasks != map[]
      modifies this
      ensures Valid(max) && Work(tasks) < old(Work(tasks)) && aborted == old(aborted)
      ensures |steps| == |old(steps)| + 1 && old(steps) < steps
    {
      var id :| id in tasks;
      var step := Joined(id);
      if !tasks[id].Finished? {
        var state: State := *;
        var outcome: TaskChoice := *;
        step := Moved(id, if aborted then Interrupted else outcome, state);
      }
      var after := WaitOnce(max, Drainage(tasks, permits, aborted), step, first, steps);
      tasks, permits := after.tasks, after.permits;
      steps := steps + [step];
    }
  }

  /** `drain_tasks`, for every timing of the deadline: it ends with the set empty and every permit
      back, after events that could all happen in their turn; so each task has finished by its own
      steps, interrupted only by a panic or after the deadline, and has been joined. */
  method DrainTasks(joinSet: JoinSet, max: nat)
    requires joinSet.Valid(max) && !joinSet.aborted
    modifies joinSet
    ensures joinSet.Valid(max) && joinSet.tasks == map[] && joinSet.permits == max
    ensures old(joinSet.steps) <= joinSet.steps
  {
    while joinSet.tasks != map[]
      invariant joinSet.Valid(max) && !joinSet.aborted && old(joinSet.steps) <= joinSet.steps
      decreases Work(joinSet.tasks)
    {
      var deadline: bool := *;
      if deadline {
        joinSet.AbortAll(max);
        while joinSet.tasks != map[]
          invariant joinSet.Valid(max) && old(joinSet.steps) <= joinSet.steps
          decreases Work(joinSet.tasks)
        {
          joinSet.Wait(max);
        }
        assert Holding(joinSet.tasks) == {};
        return;
      }
      joinSet.Wait(max);
    }
    assert Holding(joinSet.tasks) == {};
  }
}
