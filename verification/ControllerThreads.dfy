/** The controller under true concurrency: any number of threads, each holding a clone, whose
    calls interleave at the granularity of lock, read, write, pop, push, publish and unlock. */
module ControllerThreads {
  import opened Wrappers
  import opened Lifecycle
  import opened AuditRing
  import McpLifecycle

  type Tid = nat

  datatype Call = TransitionCall(event: Event) | ViewCall
  datatype Outcome =
    | Applied(snapshot: Snapshot)
    | Refused(error: TransitionError)
    | Viewed(snapshot: Snapshot, audit: seq<Record>)

  /** Where a thread stands; every state from Reading on holds the lock. */
  datatype Pc =
    | Idle
    | Locking(call: Call)
    | Reading(event: Event)
    | Copying
    | Writing(entry: Record)
    | Popping(entry: Record)
    | Pushing(entry: Record)
    | Publishing(entry: Record)
    | Releasing(call: Call, outcome: Outcome)

  /** A completed call, with the number of transitions that precede it in the linear order. */
  datatype Answer = Answer(tid: Tid, call: Call, outcome: Outcome, index: nat)

  /** `log`, `published` and `answers` only record what happened; no step reads them. */
  datatype System = System(
    lock: Option<Tid>,
    snapshot: Snapshot,
    audit: seq<Record>,
    watch: Snapshot,
    version: nat,
    threads: map<Tid, Pc>,
    log: seq<Record>,
    published: seq<Snapshot>,
    answers: seq<Answer>)

  ghost predicate Init(s: System) {
    s == System(None, INITIAL, [], INITIAL, 0, map[], [], [], [])
  }

  function SetPc(s: System, t: Tid, pc: Pc): System {
    s.(threads := s.threads[t := pc])
  }

  /** The next step of thread `t`; None when it is idle or waits for the lock. */
  function Advance(capacity: nat, s: System, t: Tid): Option<System>
    requires t in s.threads
  {
    match s.threads[t]
    case Idle => None
    case Locking(call) =>
      if s.lock.Some? then None
      else Some(SetPc(s.(lock := Some(t)), t, if call.ViewCall? then Copying else Reading(call.event)))
    case Reading(event) =>
      var decision := Decide(s.snapshot, event);
      Some(SetPc(s, t, if decision.Success? then Writing(decision.value)
                       else Releasing(TransitionCall(event), Refused(decision.error))))
    case Copying =>
      Some(SetPc(s, t, Releasing(ViewCall, Viewed(s.snapshot, s.audit))))
    case Writing(entry) =>
      Some(SetPc(s.(snapshot := After(entry), log := s.log + [entry]), t, Popping(entry)))
    case Popping(entry) =>
      Some(SetPc(if |s.audit| == capacity && s.audit != [] then s.(audit := s.audit[1..]) else s, t, Pushing(entry)))
    case Pushing(entry) =>
      Some(SetPc(s.(audit := s.audit + [entry]), t, Publishing(entry)))
    case Publishing(entry) =>
      Some(SetPc(s.(watch := After(entry), version := s.version + 1, published := s.published + [After(entry)]),
                 t, Releasing(TransitionCall(entry.event), Applied(After(entry)))))
    case Releasing(call, outcome) =>
      Some(SetPc(s.(lock := None, answers := s.answers + [Answer(t, call, outcome, |s.log|)]), t, Idle))
  }

  datatype Action = Spawn(t: Tid) | Invoke(t: Tid, call: Call) | Run(t: Tid)

  /** A new clone appears, an idle thread makes a call, or a thread takes its next step. */
  ghost predicate Act(capacity: nat, s: System, s': System, action: Action) {
    match action
    case Spawn(t) => t !in s.threads && s' == SetPc(s, t, Idle)
    case Invoke(t, call) => t in s.threads && s.threads[t].Idle? && s' == SetPc(s, t, Locking(call))
    case Run(t) => ThreadStep(capacity, s, s', t)
  }

  ghost predicate ThreadStep(capacity: nat, s: System, s': System, t: Tid) {
    t in s.threads && Advance(capacity, s, t) == Some(s')
  }

  ghost predicate Next(capacity: nat, s: System, s': System) {
    exists action :: Act(capacity, s, s', action)
  }

  // ---------------------------------------------------------------- invariant

  predicate InCritical(pc: Pc) {
    !pc.Idle? && !pc.Locking?
  }

  function HolderPc(s: System): Pc {
    if s.lock.Some? && s.lock.value in s.threads then s.threads[s.lock.value] else Idle
  }

  /** Exactly the lock holder is inside the critical section. */
  ghost predicate MutualExclusion(lock: Option<Tid>, threads: map<Tid, Pc>) {
    && (lock.Some? ==> lock.value in threads)
    && forall t :: t in threads ==> (InCritical(threads[t]) <==> lock == Some(t))
  }

  /** The snapshots entered by the logged transitions, in order. */
  function Snapshots(log: seq<Record>): (r: seq<Snapshot>)
    ensures |r| == |log| && forall i :: 0 <= i < |r| ==> r[i] == After(log[i])
  {
    seq(|log|, i requires 0 <= i < |log| => After(log[i]))
  }

  /** What the atomic object answers to `call` after exactly `k` transitions. */
  ghost predicate Justified(capacity: nat, log: seq<Record>, call: Call, outcome: Outcome, k: nat) {
    && k <= |log|
    && match (call, outcome)
       case (TransitionCall(event), Applied(snapshot)) =>
         k > 0 && log[k - 1].event == event && snapshot == SnapshotOf(log[..k])
       case (TransitionCall(event), Refused(error)) =>
         Decide(SnapshotOf(log[..k]), event) == Failure(error)
       case (ViewCall, Viewed(snapshot, audit)) =>
         snapshot == SnapshotOf(log[..k]) && audit == LastN(log[..k], capacity)
       case _ => false
  }

  function AppliedOnly(answers: seq<Answer>): seq<Snapshot> {
    if answers == [] then []
    else
      var last := answers[|answers| - 1].outcome;
      AppliedOnly(answers[..|answers| - 1]) + if last.Applied? then [last.snapshot] else []
  }

  /** Transitions already written whose call has not returned yet. */
  function InFlight(pc: Pc): nat {
    if pc.Popping? || pc.Pushing? || pc.Publishing? || (pc.Releasing? && pc.outcome.Applied?) then 1 else 0
  }

  ghost predicate Settled(capacity: nat, log: seq<Record>, audit: seq<Record>, version: nat) {
    audit == LastN(log, capacity) && version == |log|
  }

  /** The last transition is written but not yet published. */
  ghost predicate Unpublished(entry: Record, log: seq<Record>, version: nat) {
    log != [] && log[|log| - 1] == entry && version == |log| - 1
  }

  /** How far the shared data has come, at each point of the holder's critical section. */
  ghost predicate CriticalSection(capacity: nat, pc: Pc, log: seq<Record>, audit: seq<Record>, version: nat) {
    match pc
    case Writing(entry) => Settled(capacity, log, audit, version)
        && Decide(SnapshotOf(log), entry.event) == Success(entry)
    case Popping(entry) => Unpublished(entry, log, version) && audit == LastN(log[..|log| - 1], capacity)
    case Pushing(entry) => Unpublished(entry, log, version) && audit + [entry] == LastN(log, capacity)
    case Publishing(entry) => Unpublished(entry, log, version) && audit == LastN(log, capacity)
    case Releasing(call, outcome) =>
      Settled(capacity, log, audit, version) && Justified(capacity, log, call, outcome, |log|)
    case _ => Settled(capacity, log, audit, version)
  }

  ghost predicate PublishedInOrder(log: seq<Record>, version: nat, published: seq<Snapshot>, watch: Snapshot) {
    && version <= |log|
    && published == Snapshots(log)[..version]
    && watch == SnapshotOf(log[..version])
  }

  /** Each answer, in the order of return, is the atomic answer after as many transitions as have
      been answered up to it, itself included; and in the end those are `n`. */
  ghost predicate InOrder(capacity: nat, log: seq<Record>, answers: seq<Answer>, n: int)
    decreases |answers|
  {
    && n <= |log|
    && if answers == [] then n == 0
       else
         var last := answers[|answers| - 1];
         && 0 <= n == last.index && Justified(capacity, log, last.call, last.outcome, n)
         && InOrder(capacity, log, answers[..|answers| - 1], if last.outcome.Applied? then n - 1 else n)
  }

  /** The shared data, while the lock holder stands at `pc`. */
  ghost predicate DataInv(capacity: nat, s: System, pc: Pc) {
    && ValidHistory(s.log) && s.snapshot == SnapshotOf(s.log)
    && CriticalSection(capacity, pc, s.log, s.audit, s.version)
    && PublishedInOrder(s.log, s.version, s.published, s.watch)
  }

  ghost predicate AnswersInv(capacity: nat, s: System, pc: Pc) {
    InOrder(capacity, s.log, s.answers, |s.log| - InFlight(pc))
  }

  ghost predicate Inv(capacity: nat, s: System) {
    && MutualExclusion(s.lock, s.threads)
    && DataInv(capacity, s, HolderPc(s))
    && AnswersInv(capacity, s, HolderPc(s))
  }

  lemma WholeLog(log: seq<Record>)
    ensures log[..|log|] == log && Snapshots(log)[..|log|] == Snapshots(log)
  {
  }

  lemma JustifiedStays(capacity: nat, log: seq<Record>, entry: Record, call: Call, outcome: Outcome, k: nat)
    requires Justified(capacity, log, call, outcome, k)
    ensures Justified(capacity, log + [entry], call, outcome, k)
  {
    assert (log + [entry])[..k] == log[..k];
  }

  /** One more transition changes nothing about the answers given before. */
  lemma {:induction false} LogGrowth(capacity: nat, log: seq<Record>, entry: Record, answers: seq<Answer>, n: int)
    requires InOrder(capacity, log, answers, n)
    ensures InOrder(capacity, log + [entry], answers, n)
    decreases |answers|
  {
    if answers != [] {
      var last := answers[|answers| - 1];
      JustifiedStays(capacity, log, entry, last.call, last.outcome, n);
      LogGrowth(capacity, log, entry, answers[..|answers| - 1], if last.outcome.Applied? then n - 1 else n);
    }
  }

  lemma PublishedLags(log: seq<Record>, entry: Record, version: nat, published: seq<Snapshot>, watch: Snapshot)
    requires PublishedInOrder(log, version, published, watch)
    ensures PublishedInOrder(log + [entry], version, published, watch)
  {
    assert (log + [entry])[..version] == log[..version];
    assert Snapshots(log + [entry])[..version] == Snapshots(log)[..version];
  }

  lemma PublishingCatchesUp(log: seq<Record>, entry: Record, version: nat, published: seq<Snapshot>, watch: Snapshot)
    requires PublishedInOrder(log, version, published, watch) && Unpublished(entry, log, version)
    ensures PublishedInOrder(log, version + 1, published + [After(entry)], After(entry))
  {
    WholeLog(log);
    assert Snapshots(log) == Snapshots(log)[..version] + [After(entry)];
  }

  lemma PublishedIsJustified(capacity: nat, log: seq<Record>, entry: Record)
    requires log != [] && log[|log| - 1] == entry
    ensures Justified(capacity, log, TransitionCall(entry.event), Applied(After(entry)), |log|)
  {
    WholeLog(log);
  }

  lemma {:induction false} AnswerLogged(
    capacity: nat, log: seq<Record>, answers: seq<Answer>, t: Tid, call: Call, outcome: Outcome)
    requires InOrder(capacity, log, answers, |log| - if outcome.Applied? then 1 else 0)
    requires Justified(capacity, log, call, outcome, |log|)
    ensures InOrder(capacity, log, answers + [Answer(t, call, outcome, |log|)], |log|)
  {
    var longer := answers + [Answer(t, call, outcome, |log|)];
    assert longer[..|longer| - 1] == answers;
  }

  lemma InitInv(capacity: nat, s: System)
    requires Init(s)
    ensures Inv(capacity, s)
  {
  }

  lemma HolderIs(s: System, t: Tid)
    requires MutualExclusion(s.lock, s.threads) && t in s.threads && InCritical(s.threads[t])
    ensures s.lock == Some(t) && HolderPc(s) == s.threads[t]
  {
  }

  /** What a thread at `pc` contributes to the shared data: nothing, outside the critical section. */
  function AsHolder(pc: Pc): Pc {
    if InCritical(pc) then pc else Idle
  }

  lemma LockMoves(capacity: nat, s: System, s': System, t: Tid)
    requires ThreadStep(capacity, s, s', t)
    ensures s'.threads == s.threads[t := s'.threads[t]]
    ensures !InCritical(s.threads[t]) ==> s.lock == None && InCritical(s'.threads[t])
    ensures s'.lock == if !InCritical(s.threads[t]) then Some(t) else if InCritical(s'.threads[t]) then s.lock else None
  {
  }

  /** A thread that steps is the holder before, or takes the free lock, and is the holder after, or
      has let go of it. */
  lemma HolderStep(capacity: nat, s: System, s': System, t: Tid)
    requires MutualExclusion(s.lock, s.threads) && ThreadStep(capacity, s, s', t)
    ensures MutualExclusion(s'.lock, s'.threads)
    ensures HolderPc(s) == AsHolder(s.threads[t]) && HolderPc(s') == AsHolder(s'.threads[t])
  {
    LockMoves(capacity, s, s', t);
    if InCritical(s.threads[t]) {
      HolderIs(s, t);
    }
  }

  lemma WriteStep(capacity: nat, s: System, s': System, t: Tid)
    requires t in s.threads && DataInv(capacity, s, s.threads[t]) && s.threads[t].Writing?
    requires ThreadStep(capacity, s, s', t)
    ensures DataInv(capacity, s', s'.threads[t])
  {
    var entry := s.threads[t].entry;
    ExtendHistory(s.log, entry.event);
    PublishedLags(s.log, entry, s.version, s.published, s.watch);
    assert (s.log + [entry])[..|s.log|] == s.log;
  }

  lemma PoppedRing(capacity: nat, entry: Record, log: seq<Record>, audit: seq<Record>)
    requires capacity > 0 && log != [] && log[|log| - 1] == entry && audit == LastN(log[..|log| - 1], capacity)
    ensures PushBounded(audit, capacity, entry) == LastN(log, capacity)
  {
    PushKeepsSuffix(log[..|log| - 1], capacity, entry);
    assert log[..|log| - 1] + [entry] == log;
  }

  lemma PopStep(capacity: nat, s: System, s': System, t: Tid)
    requires t in s.threads && DataInv(capacity, s, s.threads[t]) && s.threads[t].Popping?
    requires capacity > 0 && ThreadStep(capacity, s, s', t)
    ensures DataInv(capacity, s', s'.threads[t])
  {
    PoppedRing(capacity, s.threads[t].entry, s.log, s.audit);
  }

  lemma PublishStep(capacity: nat, s: System, s': System, t: Tid)
    requires t in s.threads && DataInv(capacity, s, s.threads[t]) && s.threads[t].Publishing?
    requires ThreadStep(capacity, s, s', t)
    ensures DataInv(capacity, s', s'.threads[t])
  {
    PublishedIsJustified(capacity, s.log, s.threads[t].entry);
    PublishingCatchesUp(s.log, s.threads[t].entry, s.version, s.published, s.watch);
  }

  /** The steps that only read, push or move the lock leave all else as it is. */
  lemma QuietFrame(capacity: nat, s: System, s': System, t: Tid)
    requires ThreadStep(capacity, s, s', t)
    requires !s.threads[t].Writing? && !s.threads[t].Popping? && !s.threads[t].Publishing?
    ensures s'.log == s.log && s'.snapshot == s.snapshot
    ensures s'.version == s.version && s'.published == s.published && s'.watch == s.watch
  {
  }

  lemma QuietStep(capacity: nat, s: System, s': System, t: Tid)
    requires ThreadStep(capacity, s, s', t) && DataInv(capacity, s, AsHolder(s.threads[t]))
    requires !s.threads[t].Writing? && !s.threads[t].Popping? && !s.threads[t].Publishing?
    ensures DataInv(capacity, s', AsHolder(s'.threads[t]))
  {
    QuietFrame(capacity, s, s', t);
    QuietSection(capacity, s, s', t);
  }

  lemma QuietSection(capacity: nat, s: System, s': System, t: Tid)
    requires ThreadStep(capacity, s, s', t) && s.snapshot == SnapshotOf(s.log)
    requires CriticalSection(capacity, AsHolder(s.threads[t]), s.log, s.audit, s.version)
    requires !s.threads[t].Writing? && !s.threads[t].Popping? && !s.threads[t].Publishing?
    ensures CriticalSection(capacity, AsHolder(s'.threads[t]), s'.log, s'.audit, s'.version)
  {
    WholeLog(s.log);
  }

  lemma DataStep(capacity: nat, s: System, s': System, t: Tid)
    requires t in s.threads && DataInv(capacity, s, AsHolder(s.threads[t]))
    requires capacity > 0 && ThreadStep(capacity, s, s', t)
    ensures DataInv(capacity, s', AsHolder(s'.threads[t]))
  {
    match s.threads[t]
    case Writing(_) => WriteStep(capacity, s, s', t);
    case Popping(_) => PopStep(capacity, s, s', t);
    case Publishing(_) => PublishStep(capacity, s, s', t);
    case _ => QuietStep(capacity, s, s', t);
  }

  /** Only writing and releasing concern the answers. */
  lemma AnswersStand(capacity: nat, s: System, s': System, t: Tid)
    requires ThreadStep(capacity, s, s', t) && !s.threads[t].Writing? && !s.threads[t].Releasing?
    ensures s'.log == s.log && s'.answers == s.answers
    ensures InFlight(AsHolder(s'.threads[t])) == InFlight(AsHolder(s.threads[t]))
  {
  }

  lemma {:induction false} WriteAnswers(capacity: nat, s: System, s': System, t: Tid)
    requires ThreadStep(capacity, s, s', t) && s.threads[t].Writing?
    requires InOrder(capacity, s.log, s.answers, |s.log|)
    ensures AnswersInv(capacity, s', AsHolder(s'.threads[t]))
  {
    var entry := s.threads[t].entry;
    assert s'.log == s.log + [entry] && s'.answers == s.answers && s'.threads[t] == Popping(entry);
    LogGrowth(capacity, s.log, entry, s.answers, |s.log|);
  }

  lemma {:induction false} ReleaseAnswers(capacity: nat, s: System, s': System, t: Tid)
    requires ThreadStep(capacity, s, s', t) && s.threads[t].Releasing?
    requires Justified(capacity, s.log, s.threads[t].call, s.threads[t].outcome, |s.log|)
    requires InOrder(capacity, s.log, s.answers, |s.log| - if s.threads[t].outcome.Applied? then 1 else 0)
    ensures AnswersInv(capacity, s', AsHolder(s'.threads[t]))
  {
    var call, outcome := s.threads[t].call, s.threads[t].outcome;
    ReleaseRecords(capacity, s, s', t);
    AnswerLogged(capacity, s.log, s.answers, t, call, outcome);
    assert s'.threads[t] == Idle;
  }

  lemma OtherAnswers(capacity: nat, s: System, s': System, t: Tid)
    requires ThreadStep(capacity, s, s', t) && !s.threads[t].Writing? && !s.threads[t].Releasing?
    requires AnswersInv(capacity, s, AsHolder(s.threads[t]))
    ensures AnswersInv(capacity, s', AsHolder(s'.threads[t]))
  {
    AnswersStand(capacity, s, s', t);
  }

  lemma AnswersStep(capacity: nat, s: System, s': System, t: Tid)
    requires ThreadStep(capacity, s, s', t)
    requires AnswersInv(capacity, s, AsHolder(s.threads[t]))
    requires s.threads[t].Releasing? ==>
               Justified(capacity, s.log, s.threads[t].call, s.threads[t].outcome, |s.log|)
    ensures AnswersInv(capacity, s', AsHolder(s'.threads[t]))
  {
    match s.threads[t]
    case Writing(_) => WriteAnswers(capacity, s, s', t);
    case Releasing(_, _) => ReleaseAnswers(capacity, s, s', t);
    case _ => OtherAnswers(capacity, s, s', t);
  }

  lemma ReleasingIsJustified(capacity: nat, s: System, pc: Pc)
    requires DataInv(capacity, s, pc) && pc.Releasing?
    ensures Justified(capacity, s.log, pc.call, pc.outcome, |s.log|)
  {
  }

  lemma ThreadStepKeepsInv(capacity: nat, s: System, s': System, t: Tid)
    requires capacity > 0 && Inv(capacity, s) && ThreadStep(capacity, s, s', t)
    ensures Inv(capacity, s')
  {
    HolderStep(capacity, s, s', t);
    DataStep(capacity, s, s', t);
    if s.threads[t].Releasing? {
      ReleasingIsJustified(capacity, s, s.threads[t]);
    }
    AnswersStep(capacity, s, s', t);
  }

  lemma OutsideStep(capacity: nat, s: System, s': System, action: Action)
    requires MutualExclusion(s.lock, s.threads) && Act(capacity, s, s', action) && !action.Run?
    ensures MutualExclusion(s'.lock, s'.threads) && HolderPc(s') == HolderPc(s)
    ensures s' == s.(threads := s'.threads)
  {
    assert s.lock != Some(action.t);
  }

  lemma OutsideStepKeepsInv(capacity: nat, s: System, s': System, action: Action)
    requires Inv(capacity, s) && Act(capacity, s, s', action) && !action.Run?
    ensures Inv(capacity, s') && HolderPc(s') == HolderPc(s)
  {
    OutsideStep(capacity, s, s', action);
    assert DataInv(capacity, s', HolderPc(s)) && AnswersInv(capacity, s', HolderPc(s));
  }

  lemma NextKeepsInv(capacity: nat, s: System, s': System)
    requires capacity > 0 && Inv(capacity, s) && Next(capacity, s, s')
    ensures Inv(capacity, s')
  {
    var action :| Act(capacity, s, s', action);
    if action.Run? {
      ThreadStepKeepsInv(capacity, s, s', action.t);
    } else {
      OutsideStepKeepsInv(capacity, s, s', action);
    }
  }

  // ---------------------------------------------------------------- refinement

  /** The abstract state: the shared data with the lock holder's pending ring update completed. */
  function Abstract(capacity: nat, s: System): McpLifecycle.Vars {
    McpLifecycle.Vars(s.snapshot.state, s.snapshot.revision, CompletedRing(capacity, HolderPc(s), s.audit))
  }

  function CompletedRing(capacity: nat, pc: Pc, audit: seq<Record>): seq<Record> {
    match pc
    case Popping(entry) => PushBounded(audit, capacity, entry)
    case Pushing(entry) => audit + [entry]
    case _ => audit
  }

  lemma WriteRefines(capacity: nat, s: System, s': System, t: Tid)
    requires capacity > 0 && Inv(capacity, s) && ThreadStep(capacity, s, s', t) && s.threads[t].Writing?
    ensures |s'.log| == |s.log| + 1
    ensures McpLifecycle.Next(capacity, Abstract(capacity, s), Abstract(capacity, s'))
  {
    var entry := s.threads[t].entry;
    HolderStep(capacity, s, s', t);
    PushBoundedIsBoundedAppend(s.audit, capacity, entry);
    McpLifecycle.DecideIsNext(capacity, Abstract(capacity, s), Abstract(capacity, s'), entry.event);
  }

  lemma StepCompletesRing(capacity: nat, s: System, s': System, t: Tid)
    requires ThreadStep(capacity, s, s', t) && !s.threads[t].Writing?
    ensures s'.log == s.log && s'.snapshot == s.snapshot
    ensures CompletedRing(capacity, s'.threads[t], s'.audit) == CompletedRing(capacity, s.threads[t], s.audit)
  {
  }

  lemma OtherStepIsInvisible(capacity: nat, s: System, s': System, t: Tid)
    requires MutualExclusion(s.lock, s.threads) && ThreadStep(capacity, s, s', t) && !s.threads[t].Writing?
    ensures s'.log == s.log && Abstract(capacity, s') == Abstract(capacity, s)
  {
    StepCompletesRing(capacity, s, s', t);
    HolderStep(capacity, s, s', t);
  }

  /** Writing the snapshot is one action of the specification; every other step, of any thread,
      is invisible to it. */
  lemma StepRefines(capacity: nat, s: System, s': System)
    requires capacity > 0 && Inv(capacity, s) && Next(capacity, s, s')
    ensures if |s'.log| > |s.log| then McpLifecycle.Next(capacity, Abstract(capacity, s), Abstract(capacity, s'))
            else s'.log == s.log && Abstract(capacity, s') == Abstract(capacity, s)
  {
    var action :| Act(capacity, s, s', action);
    if !action.Run? {
      OutsideStepKeepsInv(capacity, s, s', action);
    } else if s.threads[action.t].Writing? {
      WriteRefines(capacity, s, s', action.t);
    } else {
      OtherStepIsInvisible(capacity, s, s', action.t);
    }
  }

  ghost predicate IsRun(capacity: nat, run: seq<System>) {
    && run != [] && Init(run[0])
    && forall i :: 0 < i < |run| ==> RunStep(capacity, run, i)
  }

  ghost predicate RunStep(capacity: nat, run: seq<System>, i: nat)
    requires 0 < i < |run|
  {
    Next(capacity, run[i - 1], run[i])
  }

  lemma {:induction false} RunKeepsInv(capacity: nat, run: seq<System>, i: nat)
    requires capacity > 0 && IsRun(capacity, run) && i < |run|
    ensures Inv(capacity, run[i])
    decreases i
  {
    if i == 0 {
      InitInv(capacity, run[0]);
    } else {
      RunKeepsInv(capacity, run, i - 1);
      assert RunStep(capacity, run, i);
      NextKeepsInv(capacity, run[i - 1], run[i]);
    }
  }

  function AbstractRun(capacity: nat, run: seq<System>): (b: seq<McpLifecycle.Vars>)
    ensures |b| == |run| && forall i :: 0 <= i < |b| ==> b[i] == Abstract(capacity, run[i])
  {
    seq(|run|, i requires 0 <= i < |run| => Abstract(capacity, run[i]))
  }

  lemma RunStepRefines(capacity: nat, run: seq<System>, i: nat)
    requires capacity > 0 && IsRun(capacity, run) && 0 < i < |run|
    ensures Abstract(capacity, run[i]) == Abstract(capacity, run[i - 1])
            || McpLifecycle.Next(capacity, Abstract(capacity, run[i - 1]), Abstract(capacity, run[i]))
  {
    RunKeepsInv(capacity, run, i - 1);
    assert RunStep(capacity, run, i);
    StepRefines(capacity, run[i - 1], run[i]);
  }

  /** Every interleaving of any number of threads is a behaviour of the TLA+ specification. */
  lemma RunRefinesSpec(capacity: nat, run: seq<System>)
    requires capacity > 0 && IsRun(capacity, run)
    ensures McpLifecycle.Spec(capacity, AbstractRun(capacity, run))
  {
    var b := AbstractRun(capacity, run);
    assert McpLifecycle.Init(b[0]);
    forall i | 0 < i < |b| ensures McpLifecycle.NextOrStutter(capacity, b, i) {
      RunStepRefines(capacity, run, i);
    }
  }

  lemma WatchIsLastPublished(log: seq<Record>, version: nat, published: seq<Snapshot>, watch: Snapshot)
    requires PublishedInOrder(log, version, published, watch)
    ensures |published| == version && watch == if version == 0 then INITIAL else published[version - 1]
  {
    if version > 0 {
      assert log[..version][version - 1] == log[version - 1];
      assert published[version - 1] == Snapshots(log)[version - 1];
    }
  }

  lemma PublishedRevisions(capacity: nat, s: System)
    requires Inv(capacity, s)
    ensures s.lock.None? ==> s.watch == s.snapshot && s.audit == LastN(s.log, capacity)
    ensures forall k :: 0 <= k < |s.published| ==> s.published[k].revision == k + 1
    ensures |s.published| == s.version == s.watch.revision
  {
    forall k | 0 <= k < |s.published| ensures s.published[k].revision == k + 1 {
      assert Linked(s.log, k);
    }
    PrefixOfHistory(s.log, s.version);
    assert s.log[..|s.log|] == s.log;
  }

  lemma PublishedGrows(capacity: nat, s: System, s': System)
    requires Next(capacity, s, s')
    ensures s.published <= s'.published
  {
  }

  /** While nobody holds the lock the watch value is the snapshot and the ring is settled; at all
      times the published revisions are 1, 2, 3, ... without gap or regression. */
  lemma PublicationOrder(capacity: nat, run: seq<System>, i: nat)
    requires capacity > 0 && IsRun(capacity, run) && i < |run|
    ensures run[i].lock.None? ==> run[i].watch == run[i].snapshot && run[i].audit == LastN(run[i].log, capacity)
    ensures forall k :: 0 <= k < |run[i].published| ==> run[i].published[k].revision == k + 1
    ensures |run[i].published| == run[i].version == run[i].watch.revision
    ensures i > 0 ==> run[i - 1].published <= run[i].published
  {
    RunKeepsInv(capacity, run, i);
    PublishedRevisions(capacity, run[i]);
    if i > 0 {
      assert RunStep(capacity, run, i);
      PublishedGrows(capacity, run[i - 1], run[i]);
    }
  }

  /** Every answer is the atomic answer at its index, indices never go back, and the Ok answers
      are the snapshots of the logged transitions, each exactly once and in order. */
  ghost predicate Linearized(capacity: nat, log: seq<Record>, answers: seq<Answer>, inFlight: nat) {
    && inFlight <= |log|
    && AllPlaced(capacity, log, answers, |log| - inFlight)
    && (forall i, j :: 0 <= i < j < |answers| ==> Before(answers, i, j))
    && AppliedOnly(answers) == Snapshots(log)[..|log| - inFlight]
  }

  ghost predicate AllPlaced(capacity: nat, log: seq<Record>, answers: seq<Answer>, n: int) {
    forall j :: 0 <= j < |answers| ==> Placed(capacity, log, answers, j, n)
  }

  ghost predicate Placed(capacity: nat, log: seq<Record>, answers: seq<Answer>, j: nat, n: int)
    requires j < |answers|
  {
    && answers[j].index <= n
    && Justified(capacity, log, answers[j].call, answers[j].outcome, answers[j].index)
  }

  predicate Before(answers: seq<Answer>, i: nat, j: nat)
    requires i < j < |answers|
  {
    answers[i].index <= answers[j].index && (answers[j].outcome.Applied? ==> answers[i].index < answers[j].index)
  }

  /** The atomic object, started afresh and given the calls of `answers` one after another, answers
      each of them just so and ends with `history`. */
  ghost predicate Sequential(capacity: nat, answers: seq<Answer>, history: seq<Record>)
    decreases |answers|
  {
    if answers == [] then history == []
    else
      var earlier, last := answers[..|answers| - 1], answers[|answers| - 1];
      match (last.call, last.outcome)
      case (TransitionCall(event), Applied(snapshot)) =>
        && history != [] && Sequential(capacity, earlier, history[..|history| - 1])
        && Decide(SnapshotOf(history[..|history| - 1]), event) == Success(history[|history| - 1])
        && snapshot == SnapshotOf(history)
      case (TransitionCall(event), Refused(error)) =>
        Sequential(capacity, earlier, history) && Decide(SnapshotOf(history), event) == Failure(error)
      case (ViewCall, Viewed(snapshot, audit)) =>
        && Sequential(capacity, earlier, history)
        && snapshot == SnapshotOf(history) && audit == LastN(history, capacity)
      case _ => false
  }

  lemma {:induction false} InOrderIndices(capacity: nat, log: seq<Record>, answers: seq<Answer>, n: int)
    requires InOrder(capacity, log, answers, n)
    ensures n >= 0
    ensures forall j :: 0 <= j < |answers| ==> Placed(capacity, log, answers, j, n)
    ensures forall i, j :: 0 <= i < j < |answers| ==> Before(answers, i, j)
    decreases |answers|
  {
    if answers != [] {
      var earlier, last := answers[..|answers| - 1], answers[|answers| - 1];
      var m := if last.outcome.Applied? then n - 1 else n;
      InOrderIndices(capacity, log, earlier, m);
      forall j | 0 <= j < |answers|
        ensures Placed(capacity, log, answers, j, n) && (j < |earlier| ==> Before(answers, j, |earlier|))
      {
        if j < |earlier| {
          assert answers[j] == earlier[j];
          assert Placed(capacity, log, earlier, j, m);
        }
      }
      forall i, j | 0 <= i < j < |answers| ensures Before(answers, i, j) {
        if j < |earlier| {
          assert Before(earlier, i, j);
        }
      }
    }
  }

  lemma {:induction false} InOrderSnapshots(capacity: nat, log: seq<Record>, answers: seq<Answer>, n: nat)
    requires InOrder(capacity, log, answers, n)
    ensures AppliedOnly(answers) == Snapshots(log)[..n]
    decreases |answers|
  {
    if answers != [] {
      var earlier, last := answers[..|answers| - 1], answers[|answers| - 1];
      if last.outcome.Applied? {
        InOrderSnapshots(capacity, log, earlier, n - 1);
        assert last.outcome.snapshot == Snapshots(log)[n - 1];
        assert Snapshots(log)[..n] == Snapshots(log)[..n - 1] + [last.outcome.snapshot];
      } else {
        InOrderSnapshots(capacity, log, earlier, n);
      }
    }
  }

  /** One more answer at the end of a sequential execution. */
  lemma {:induction false} SequentialStep(
    capacity: nat, log: seq<Record>, earlier: seq<Answer>, last: Answer, n: nat, m: nat)
    requires ValidHistory(log) && n <= |log| && Justified(capacity, log, last.call, last.outcome, n)
    requires if last.outcome.Applied? then n == m + 1 else n == m
    requires Sequential(capacity, earlier, log[..m])
    ensures Sequential(capacity, earlier + [last], log[..n])
  {
    var answers := earlier + [last];
    assert answers[..|answers| - 1] == earlier;
    if last.outcome.Applied? {
      assert Linked(log, m);
      assert log[..n][..n - 1] == log[..m];
    }
  }

  lemma {:induction false} InOrderIsSequential(capacity: nat, log: seq<Record>, answers: seq<Answer>, n: nat)
    requires ValidHistory(log) && InOrder(capacity, log, answers, n)
    ensures Sequential(capacity, answers, log[..n])
    decreases |answers|
  {
    if answers != [] {
      var earlier, last := answers[..|answers| - 1], answers[|answers| - 1];
      var m := if last.outcome.Applied? then n - 1 else n;
      InOrderIsSequential(capacity, log, earlier, m);
      SequentialStep(capacity, log, earlier, last, n, m);
      assert answers == earlier + [last];
    }
  }

  lemma {:induction false} InOrderIsLinearized(capacity: nat, log: seq<Record>, answers: seq<Answer>, inFlight: nat)
    requires InOrder(capacity, log, answers, |log| - inFlight)
    ensures Linearized(capacity, log, answers, inFlight)
  {
    InOrderIndices(capacity, log, answers, |log| - inFlight);
    InOrderSnapshots(capacity, log, answers, |log| - inFlight);
  }

  lemma InvParts(capacity: nat, s: System)
    requires Inv(capacity, s)
    ensures ValidHistory(s.log) && AnswersInv(capacity, s, HolderPc(s))
    ensures s.lock.None? ==> InFlight(HolderPc(s)) == 0 && s.published == Snapshots(s.log)
  {
    WholeLog(s.log);
  }

  lemma RunParts(capacity: nat, run: seq<System>, i: nat)
    requires capacity > 0 && IsRun(capacity, run) && i < |run|
    ensures ValidHistory(run[i].log) && AnswersInv(capacity, run[i], HolderPc(run[i]))
    ensures run[i].lock.None? ==> InFlight(HolderPc(run[i])) == 0 && run[i].published == Snapshots(run[i].log)
  {
    RunKeepsInv(capacity, run, i);
    InvParts(capacity, run[i]);
  }

  /** The transitions whose calls have returned. */
  function Answered(s: System): seq<Record> {
    if InFlight(HolderPc(s)) <= |s.log| then s.log[..|s.log| - InFlight(HolderPc(s))] else []
  }

  /** Linearizability, the sequential half: in the order in which the calls return, the answers are
      those of the atomic object, called once by one thread after another. They account for every
      transition that is not in flight, and with the lock free the Ok answers are all the
      publications, without omission or repetition. */
  lemma {:induction false} Linearizability(capacity: nat, run: seq<System>, i: nat)
    requires capacity > 0 && IsRun(capacity, run) && i < |run|
    ensures Sequential(capacity, run[i].answers, Answered(run[i]))
    ensures run[i].lock.None? ==>
              && Sequential(capacity, run[i].answers, run[i].log)
              && AppliedOnly(run[i].answers) == run[i].published
  {
    RunParts(capacity, run, i);
    StateIsSequential(capacity, run[i]);
    if run[i].lock.None? {
      RestIsSequential(capacity, run[i]);
    }
  }

  lemma {:induction false} StateIsSequential(capacity: nat, s: System)
    requires ValidHistory(s.log) && AnswersInv(capacity, s, HolderPc(s))
    ensures Sequential(capacity, s.answers, Answered(s))
  {
    InOrderIndices(capacity, s.log, s.answers, |s.log| - InFlight(HolderPc(s)));
    InOrderIsSequential(capacity, s.log, s.answers, |s.log| - InFlight(HolderPc(s)));
  }

  lemma {:induction false} RestIsSequential(capacity: nat, s: System)
    requires ValidHistory(s.log) && AnswersInv(capacity, s, HolderPc(s))
    requires InFlight(HolderPc(s)) == 0 && s.published == Snapshots(s.log)
    ensures Sequential(capacity, s.answers, s.log) && AppliedOnly(s.answers) == s.published
  {
    InOrderIsSequential(capacity, s.log, s.answers, |s.log|);
    InOrderSnapshots(capacity, s.log, s.answers, |s.log|);
    WholeLog(s.log);
  }

  /** Each answer has its point in the one order of all transitions. */
  lemma LinearizationPoints(capacity: nat, run: seq<System>, i: nat)
    requires capacity > 0 && IsRun(capacity, run) && i < |run|
    ensures ValidHistory(run[i].log)
    ensures Linearized(capacity, run[i].log, run[i].answers, InFlight(HolderPc(run[i])))
  {
    RunParts(capacity, run, i);
    InOrderIsLinearized(capacity, run[i].log, run[i].answers, InFlight(HolderPc(run[i])));
  }

  lemma RefusalHasCause(capacity: nat, log: seq<Record>, call: Call, outcome: Outcome, k: nat)
    requires ValidHistory(log) && Justified(capacity, log, call, outcome, k) && outcome.Refused?
    ensures RefusedFor(log, call, outcome.error, k)
  {
    PrefixOfHistory(log, k);
    CallIsAnsweredByTheGrammar(log[..k], call.event);
  }

  /** The reason for a refusal after `k` transitions: the event continues no lifecycle word, or else
      the revisions are exhausted. */
  ghost predicate RefusedFor(log: seq<Record>, call: Call, error: TransitionError, k: nat) {
    && call.TransitionCall? && k <= |log|
    && var word := LifecycleWord(Events(log[..k]) + [call.event]);
       && (error == InvalidTransition(SnapshotOf(log[..k]).state, call.event) <==> !word)
       && (error == RevisionExhausted <==> word) && (word ==> k == 18446744073709551615)
  }

  /** Every refusal names its reason, as the grammar has it. */
  lemma RefusalsNameTheirReason(capacity: nat, run: seq<System>, i: nat, j: nat)
    requires capacity > 0 && IsRun(capacity, run) && i < |run| && j < |run[i].answers|
    requires run[i].answers[j].outcome.Refused?
    ensures var answer := run[i].answers[j];
            RefusedFor(run[i].log, answer.call, answer.outcome.error, answer.index)
  {
    LinearizationPoints(capacity, run, i);
    assert Placed(capacity, run[i].log, run[i].answers, j, |run[i].log| - InFlight(HolderPc(run[i])));
    var answer := run[i].answers[j];
    RefusalHasCause(capacity, run[i].log, answer.call, answer.outcome, answer.index);
  }

  // ---------------------------------------------------------------- progress

  /** Steps a call may still need. */
  function StepsLeft(pc: Pc): nat {
    match pc
    case Idle => 0
    case Locking(_) => 7
    case Reading(_) => 6
    case Copying => 2
    case Writing(_) => 5
    case Popping(_) => 4
    case Pushing(_) => 3
    case Publishing(_) => 2
    case Releasing(_, _) => 1
  }

  /** A thread in a call has a next step unless it waits for a lock that is held, and every step
      brings the call closer to its answer. */
  lemma StepsLeadOn(capacity: nat, s: System, t: Tid)
    requires t in s.threads
    ensures Advance(capacity, s, t).Some? <==>
            InCritical(s.threads[t]) || (s.threads[t].Locking? && s.lock.None?)
    ensures Advance(capacity, s, t).Some? ==>
              var s' := Advance(capacity, s, t).value;
              t in s'.threads && StepsLeft(s'.threads[t]) < StepsLeft(s.threads[t])
  {
  }

  /** No call is ever stuck: while some thread is in a call, one has a next step; with the lock free
      every such thread has, and otherwise the holder has. An idle thread may make any call, and
      threads may be added. */
  lemma SomeCallAdvances(capacity: nat, run: seq<System>, i: nat, t: Tid, call: Call, newcomer: Tid)
    requires capacity > 0 && IsRun(capacity, run) && i < |run| && t in run[i].threads && newcomer !in run[i].threads
    ensures !run[i].threads[t].Idle? && run[i].lock.None? ==> Advance(capacity, run[i], t).Some?
    ensures run[i].lock.Some? ==>
              run[i].lock.value in run[i].threads && Advance(capacity, run[i], run[i].lock.value).Some?
    ensures run[i].threads[t].Idle? ==> Next(capacity, run[i], SetPc(run[i], t, Locking(call)))
    ensures Next(capacity, run[i], SetPc(run[i], newcomer, Idle))
  {
    RunKeepsInv(capacity, run, i);
    StepsLeadOn(capacity, run[i], t);
    if run[i].lock.Some? {
      StepsLeadOn(capacity, run[i], run[i].lock.value);
    }
    assert Act(capacity, run[i], SetPc(run[i], newcomer, Idle), Spawn(newcomer));
    assert run[i].threads[t].Idle? ==> Act(capacity, run[i], SetPc(run[i], t, Locking(call)), Invoke(t, call));
  }

  // ---------------------------------------------------------------- refused calls

  predicate Committed(pc: Pc) {
    pc.Writing? || InFlight(pc) == 1
  }

  ghost predicate BusyThroughout(run: seq<System>, t: Tid, i: nat, j: nat) {
    i <= j < |run| && forall k :: i <= k <= j ==> t in run[k].threads && !run[k].threads[t].Idle?
  }

  /** The call a busy thread is working on. */
  function CallOf(pc: Pc): Option<Call> {
    match pc
    case Idle => None
    case Locking(call) => Some(call)
    case Reading(event) => Some(TransitionCall(event))
    case Copying => Some(ViewCall)
    case Writing(entry) => Some(TransitionCall(entry.event))
    case Popping(entry) => Some(TransitionCall(entry.event))
    case Pushing(entry) => Some(TransitionCall(entry.event))
    case Publishing(entry) => Some(TransitionCall(entry.event))
    case Releasing(call, _) => Some(call)
  }

  /** Whatever the others do, the answer a thread releases is to the call it made. */
  lemma {:induction false} AnswerIsToTheCallMade(capacity: nat, run: seq<System>, t: Tid, i: nat, j: nat)
    requires IsRun(capacity, run) && BusyThroughout(run, t, i, j)
    ensures CallOf(run[j].threads[t]) == CallOf(run[i].threads[t])
    decreases j - i
  {
    if i < j {
      assert RunStep(capacity, run, i + 1);
      var action :| Act(capacity, run[i], run[i + 1], action);
      AnswerIsToTheCallMade(capacity, run, t, i + 1, j);
    }
  }

  lemma {:induction false} RecordsOnlyGrow(capacity: nat, run: seq<System>, i: nat, j: nat)
    requires IsRun(capacity, run) && i <= j < |run|
    ensures run[i].log <= run[j].log && run[i].answers <= run[j].answers
    decreases j
  {
    if i < j {
      RecordsOnlyGrow(capacity, run, i, j - 1);
      assert RunStep(capacity, run, j);
    }
  }

  /** A call that has written has written since it was made. */
  lemma {:induction false} WrittenSinceInvoked(capacity: nat, run: seq<System>, t: Tid, i: nat, j: nat)
    requires IsRun(capacity, run) && BusyThroughout(run, t, i, j) && run[i].threads[t].Locking?
    ensures InFlight(run[j].threads[t]) == 1 ==> |run[i].log| < |run[j].log|
    decreases j
  {
    if i < j {
      WrittenSinceInvoked(capacity, run, t, i, j - 1);
      RecordsOnlyGrow(capacity, run, i, j - 1);
      assert RunStep(capacity, run, j);
      var action :| Act(capacity, run[j - 1], run[j], action);
      if action == Run(t) {
        assert InFlight(run[j].threads[t]) == 1 ==>
            InFlight(run[j - 1].threads[t]) == 1 || run[j - 1].threads[t].Writing?;
      }
    }
  }

  lemma {:induction false} AnswersStayBelow(capacity: nat, log: seq<Record>, answers: seq<Answer>, n: int)
    requires InOrder(capacity, log, answers, n)
    ensures forall k :: 0 <= k < |answers| ==> answers[k].index <= |log|
  {
    InOrderIndices(capacity, log, answers, n);
    forall k | 0 <= k < |answers| ensures answers[k].index <= |log| {
      assert Placed(capacity, log, answers, k, n);
    }
  }

  lemma ReleaseRecords(capacity: nat, s: System, s': System, t: Tid)
    requires ThreadStep(capacity, s, s', t) && s.threads[t].Releasing?
    ensures s'.log == s.log
    ensures s'.answers == s.answers + [Answer(t, s.threads[t].call, s.threads[t].outcome, |s.log|)]
  {
  }

  /** Linearizability, the real-time half: a call made at `i` and answered at `j` takes its place
      after every call answered before `i`, at a point of the order of transitions that lies between
      its invocation and its return; a transition's own record is written in between. */
  lemma RealTimeOrder(capacity: nat, run: seq<System>, t: Tid, i: nat, j: nat)
    requires capacity > 0 && IsRun(capacity, run) && BusyThroughout(run, t, i, j) && j + 1 < |run|
    requires run[i].threads[t].Locking? && run[j].threads[t].Releasing? && ThreadStep(capacity, run[j], run[j + 1], t)
    ensures run[i].answers <= run[j].answers < run[j + 1].answers && |run[j + 1].answers| == |run[j].answers| + 1
    ensures var answer := run[j + 1].answers[|run[j].answers|];
            && answer.tid == t && CallOf(run[i].threads[t]) == Some(answer.call)
            && |run[i].log| <= answer.index <= |run[j + 1].log|
            && (answer.outcome.Applied? ==> |run[i].log| < answer.index)
    ensures forall k :: 0 <= k < |run[i].answers| ==> run[i].answers[k].index <= |run[i].log|
  {
    RunParts(capacity, run, i);
    AnswersStayBelow(capacity, run[i].log, run[i].answers, |run[i].log| - InFlight(HolderPc(run[i])));
    ReleaseRecords(capacity, run[j], run[j + 1], t);
    RecordsOnlyGrow(capacity, run, i, j);
    WrittenSinceInvoked(capacity, run, t, i, j);
    AnswerIsToTheCallMade(capacity, run, t, i, j);
  }

  lemma {:induction false} CommitmentLasts(capacity: nat, run: seq<System>, t: Tid, i: nat, j: nat)
    requires IsRun(capacity, run) && BusyThroughout(run, t, i, j) && Committed(run[i].threads[t])
    ensures Committed(run[j].threads[t])
    decreases j - i
  {
    if i < j {
      assert RunStep(capacity, run, i + 1);
      var action :| Act(capacity, run[i], run[i + 1], action);
      CommitmentLasts(capacity, run, t, i + 1, j);
    }
  }

  /** A call that is refused has touched neither snapshot, nor ring, nor watch cell: each of its
      own steps, up to the one that settles the answer, leaves all of them as they were. */
  lemma RefusedCallIsStutter(capacity: nat, run: seq<System>, t: Tid, i: nat, j: nat)
    requires IsRun(capacity, run) && BusyThroughout(run, t, i, j)
    requires run[j].threads[t].Releasing? && run[j].threads[t].outcome.Refused?
    ensures forall k :: i <= k < j && ThreadStep(capacity, run[k], run[k + 1], t) ==>
              && run[k + 1].snapshot == run[k].snapshot && run[k + 1].audit == run[k].audit
              && run[k + 1].watch == run[k].watch && run[k + 1].version == run[k].version
              && run[k + 1].log == run[k].log
  {
    forall k | i <= k < j && ThreadStep(capacity, run[k], run[k + 1], t)
      ensures !Committed(run[k].threads[t])
    {
      if Committed(run[k].threads[t]) {
        CommitmentLasts(capacity, run, t, k, j);
      }
    }
  }
}
