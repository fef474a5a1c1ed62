/** The controller object: a snapshot, the audit ring and the watch cell, changed in place. */
module LifecycleControllers {
  import opened Wrappers
  import opened Lifecycle
  import opened AuditRing
  import McpLifecycle

  class LifecycleController {
    const auditCapacity: nat
    var snapshot: Snapshot
    var audit: seq<Record>
    var published: Snapshot
    ghost var history: seq<Record>

    ghost predicate Valid()
      reads this
    {
      && 1 <= auditCapacity <= MAX_AUDIT_CAPACITY
      && ValidHistory(history)
      && snapshot == SnapshotOf(history)
      && audit == LastN(history, auditCapacity)
      && published == snapshot
    }

    ghost function View(): McpLifecycle.Vars
      reads this
    {
      McpLifecycle.Vars(snapshot.state, snapshot.revision, audit)
    }

    constructor (capacity: nat)
      requires 1 <= capacity <= MAX_AUDIT_CAPACITY
      ensures Valid() && auditCapacity == capacity && history == []
      ensures McpLifecycle.Init(View())
    {
      auditCapacity := capacity;
      snapshot := INITIAL;
      audit := [];
      published := INITIAL;
      history := [];
    }

    static method New(capacity: nat) returns (r: Result<LifecycleController, TransitionError>)
      ensures r.Success? <==> 1 <= capacity <= 4096
      ensures r.Success? ==>
        && fresh(r.value) && r.value.Valid()
        && r.value.auditCapacity == capacity && r.value.history == []
      ensures r.Failure? ==> r.error == InvalidAuditCapacity
    {
      if capacity == 0 || capacity > MAX_AUDIT_CAPACITY {
        return Failure(InvalidAuditCapacity);
      }
      var controller := new LifecycleController(capacity);
      return Success(controller);
    }

    /** Ok is exactly one action of the specification and one more record of history; an error
        names its cause and changes nothing. */
    method Transition(event: Event) returns (r: Result<Snapshot, TransitionError>)
      requires Valid()
      modifies this
      ensures Valid()
      ensures r.Success? ==>
        && history == old(history) + [Record(old(snapshot.revision) + 1, old(snapshot.state), event, r.value.state)]
        && r.value == snapshot
        && McpLifecycle.Next(auditCapacity, old(View()), View())
      ensures r.Failure? ==> unchanged(this)
      ensures r == Failure(InvalidTransition(snapshot.state, event)) <==>
              TransitionTarget(old(snapshot.state), event).None?
      ensures r == Failure(RevisionExhausted) <==>
              TransitionTarget(old(snapshot.state), event).Some? && old(snapshot.revision) == U64_MAX
      ensures r.Failure? ==> r.error == InvalidTransition(snapshot.state, event) || r.error == RevisionExhausted
    {
      var source := snapshot.state;
      var target := TransitionTarget(source, event);
      if target.None? {
        return Failure(InvalidTransition(source, event));
      }
      if snapshot.revision == U64_MAX {
        return Failure(RevisionExhausted);
      }
      var revision := snapshot.revision + 1;
      ghost var entry := Record(revision, source, event, target.value);
      RevisionIsLength(history);
      RecordStep(history, auditCapacity, event, entry);

      snapshot := Snapshot(target.value, revision);
      if |audit| == auditCapacity {
        audit := audit[1..];
      }
      audit := audit + [Record(revision, source, event, target.value)];
      published := snapshot;
      history := history + [entry];
      return Success(snapshot);
    }

    /** One atomic view: the records are the last ones of the history that ends at the snapshot. */
    method SnapshotAndAudit() returns (s: Snapshot, records: seq<Record>)
      requires Valid()
      ensures s == SnapshotOf(history) && records == LastN(history, auditCapacity)
      ensures McpLifecycle.AuditLatestMatchesRevision(McpLifecycle.Vars(s.state, s.revision, records))
      ensures records != [] ==> Replay(records[0].source, Events(records)) == Some(s.state)
    {
      RingView(history, auditCapacity);
      s, records := snapshot, audit;
    }
  }
}
