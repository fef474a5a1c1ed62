/** The abstract specification: the TLA+ module McpLifecycle, action by action, with its
    invariants proved for behaviours of every length and for every audit capacity. */
module McpLifecycle {
  import opened Lifecycle

  datatype Vars = Vars(state: State, revision: nat, audit: seq<Record>)

  ghost predicate Init(v: Vars) {
    v == Vars(Created, 0, [])
  }

  function BoundedAppend(capacity: nat, audit: seq<Record>, entry: Record): seq<Record> {
    var extended := audit + [entry];
    if |extended| <= capacity then extended else extended[|extended| - capacity..]
  }

  ghost predicate Step(capacity: nat, v: Vars, v': Vars, event: Event, target: State) {
    v' == Vars(target, v.revision + 1,
               BoundedAppend(capacity, v.audit, Record(v.revision + 1, v.state, event, target)))
  }

  ghost predicate StartAction(capacity: nat, v: Vars, v': Vars) {
    v.state == Created && Step(capacity, v, v', Start, Starting)
  }

  ghost predicate StopBeforeReady(capacity: nat, v: Vars, v': Vars) {
    v.state in {Created, Starting} && Step(capacity, v, v', Stop, Stopped)
  }

  ghost predicate StartedAction(capacity: nat, v: Vars, v': Vars) {
    v.state == Starting && Step(capacity, v, v', Started, Ready)
  }

  ghost predicate DegradeAction(capacity: nat, v: Vars, v': Vars) {
    v.state == Ready && Step(capacity, v, v', Degrade, Degraded)
  }

  ghost predicate RecoverAction(capacity: nat, v: Vars, v': Vars) {
    v.state == Degraded && Step(capacity, v, v', Recover, Ready)
  }

  ghost predicate DrainAction(capacity: nat, v: Vars, v': Vars) {
    v.state in {Starting, Ready, Degraded} && Step(capacity, v, v', Drain, Draining)
  }

  ghost predicate StopAfterDrain(capacity: nat, v: Vars, v': Vars) {
    v.state == Draining && Step(capacity, v, v', Stop, Stopped)
  }

  ghost predicate Next(capacity: nat, v: Vars, v': Vars) {
    || StartAction(capacity, v, v')
    || StopBeforeReady(capacity, v, v')
    || StartedAction(capacity, v, v')
    || DegradeAction(capacity, v, v')
    || RecoverAction(capacity, v, v')
    || DrainAction(capacity, v, v')
    || StopAfterDrain(capacity, v, v')
  }

  /** A finite prefix of a behaviour of Init /\ [][Next]_vars. */
  ghost predicate Spec(capacity: nat, b: seq<Vars>) {
    && b != [] && Init(b[0])
    && forall i :: 0 < i < |b| ==> NextOrStutter(capacity, b, i)
  }

  ghost predicate NextOrStutter(capacity: nat, b: seq<Vars>, i: nat)
    requires 0 < i < |b|
  {
    b[i] == b[i - 1] || Next(capacity, b[i - 1], b[i])
  }

  // ---------------------------------------------------------------- the relation it mirrors

  /** `Next` takes the edges of `transition_target`, all of them and no others. */
  lemma NextIffTransition(capacity: nat, v: Vars, v': Vars)
    ensures Next(capacity, v, v') <==>
            exists event :: TransitionTarget(v.state, event).Some?
                            && Step(capacity, v, v', event, TransitionTarget(v.state, event).value)
  {
    if StartAction(capacity, v, v') { assert TransitionTarget(v.state, Start).Some?; }
    if StopBeforeReady(capacity, v, v') || StopAfterDrain(capacity, v, v') {
      assert TransitionTarget(v.state, Stop).Some?; }
    if StartedAction(capacity, v, v') { assert TransitionTarget(v.state, Started).Some?; }
    if DegradeAction(capacity, v, v') { assert TransitionTarget(v.state, Degrade).Some?; }
    if RecoverAction(capacity, v, v') { assert TransitionTarget(v.state, Recover).Some?; }
    if DrainAction(capacity, v, v') { assert TransitionTarget(v.state, Drain).Some?; }
  }

  /** A step decided by the controller is a Next action, whatever the capacity. */
  lemma DecideIsNext(capacity: nat, v: Vars, v': Vars, event: Event)
    requires Decide(Snapshot(v.state, v.revision), event).Success?
    requires var entry := Decide(Snapshot(v.state, v.revision), event).value;
             v' == Vars(entry.target, entry.revision, BoundedAppend(capacity, v.audit, entry))
    ensures Next(capacity, v, v')
  {
    assert Step(capacity, v, v', event, TransitionTarget(v.state, event).value);
    NextIffTransition(capacity, v, v');
  }

  // ---------------------------------------------------------------- invariants

  ghost predicate AuditBounded(capacity: nat, v: Vars) {
    |v.audit| <= capacity
  }

  ghost predicate AuditStrictlyOrdered(v: Vars) {
    forall i, j :: 0 <= i < j < |v.audit| ==> v.audit[i].revision < v.audit[j].revision
  }

  ghost predicate AuditLatestMatchesRevision(v: Vars) {
    if |v.audit| == 0 then v.revision == 0 else v.audit[|v.audit| - 1].revision == v.revision
  }

  /** Stopped is the one state in which no action is enabled. */
  lemma EnabledIffNotStopped(capacity: nat, v: Vars)
    ensures (exists v' :: Next(capacity, v, v')) <==> v.state != Stopped
  {
    if v.state != Stopped {
      var event := match v.state
        case Created => Start
        case Starting => Started
        case Ready => Degrade
        case Degraded => Recover
        case Draining => Stop;
      var target := TransitionTarget(v.state, event).value;
      var v' := Vars(target, v.revision + 1,
                     BoundedAppend(capacity, v.audit, Record(v.revision + 1, v.state, event, target)));
      assert Step(capacity, v, v', event, target);
      NextIffTransition(capacity, v, v');
      assert Next(capacity, v, v');
    }
  }

  /** Revisions in the ring are the contiguous block that ends at the current revision. */
  ghost predicate Contiguous(capacity: nat, v: Vars) {
    && |v.audit| == (if v.revision <= capacity then v.revision else capacity)
    && forall i :: 0 <= i < |v.audit| ==> v.audit[i].revision == v.revision - |v.audit| + 1 + i
  }

  lemma StepKeepsContiguous(capacity: nat, v: Vars, v': Vars, event: Event, target: State)
    requires Contiguous(capacity, v) && Step(capacity, v, v', event, target)
    ensures Contiguous(capacity, v')
  {
  }

  lemma NextKeepsContiguous(capacity: nat, v: Vars, v': Vars)
    requires Contiguous(capacity, v) && Next(capacity, v, v')
    ensures Contiguous(capacity, v')
  {
    NextIffTransition(capacity, v, v');
    var event :| TransitionTarget(v.state, event).Some?
      && Step(capacity, v, v', event, TransitionTarget(v.state, event).value);
    StepKeepsContiguous(capacity, v, v', event, TransitionTarget(v.state, event).value);
  }

  lemma {:induction false} SpecKeepsContiguous(capacity: nat, b: seq<Vars>, i: nat)
    requires Spec(capacity, b) && i < |b|
    ensures Contiguous(capacity, b[i])
    decreases i
  {
    if i > 0 {
      SpecKeepsContiguous(capacity, b, i - 1);
      assert NextOrStutter(capacity, b, i);
      if b[i] != b[i - 1] {
        NextKeepsContiguous(capacity, b[i - 1], b[i]);
      }
    }
  }

  /** The three audit invariants hold in every state of every behaviour. */
  lemma SpecInvariants(capacity: nat, b: seq<Vars>, i: nat)
    requires capacity > 0 && Spec(capacity, b) && i < |b|
    ensures AuditBounded(capacity, b[i]) && AuditStrictlyOrdered(b[i]) && AuditLatestMatchesRevision(b[i])
  {
    SpecKeepsContiguous(capacity, b, i);
  }

  /** A positive capacity is needed and enough for the latest record to match the revision. */
  lemma LatestMatchesIffCapacityPositive(capacity: nat)
    ensures capacity > 0 <==>
            forall b, i :: Spec(capacity, b) && 0 <= i < |b| ==> AuditLatestMatchesRevision(b[i])
  {
    if capacity > 0 {
      forall b, i | Spec(capacity, b) && 0 <= i < |b| ensures AuditLatestMatchesRevision(b[i]) {
        SpecInvariants(capacity, b, i);
      }
    } else {
      var b := [Vars(Created, 0, []), Vars(Starting, 1, [])];
      assert BoundedAppend(0, [], Record(1, Created, Start, Starting)) == [];
      assert NextOrStutter(capacity, b, 1);
      assert Spec(capacity, b) && !AuditLatestMatchesRevision(b[1]);
    }
  }
}
