/** The bounded audit ring: pop the front when full, then push, as a suffix of the history. */
module AuditRing {
  import opened Wrappers
  import opened Lifecycle
  import McpLifecycle

  function PushBounded(ring: seq<Record>, capacity: nat, entry: Record): seq<Record> {
    (if |ring| == capacity && ring != [] then ring[1..] else ring) + [entry]
  }

  function LastN(history: seq<Record>, n: nat): seq<Record> {
    if |history| <= n then history else history[|history| - n..]
  }

  /** The in-place discipline and the append-then-truncate of the specification agree exactly for
      the capacities the constructor admits. */
  lemma PushBoundedIsBoundedAppend(ring: seq<Record>, capacity: nat, entry: Record)
    requires |ring| <= capacity
    ensures PushBounded(ring, capacity, entry) == McpLifecycle.BoundedAppend(capacity, ring, entry) <==> capacity > 0
  {
    var extended := ring + [entry];
    if capacity > 0 && |ring| == capacity {
      assert extended[1..] == ring[1..] + [entry];
    }
  }

  lemma PushKeepsSuffix(history: seq<Record>, capacity: nat, entry: Record)
    requires capacity > 0
    ensures PushBounded(LastN(history, capacity), capacity, entry) == LastN(history + [entry], capacity)
  {
  }

  function ViewOf(history: seq<Record>, capacity: nat): McpLifecycle.Vars {
    McpLifecycle.Vars(SnapshotOf(history).state, SnapshotOf(history).revision, LastN(history, capacity))
  }

  /** One more record is one action of the specification on the view of the history. */
  lemma RecordStep(history: seq<Record>, capacity: nat, event: Event, entry: Record)
    requires ValidHistory(history) && capacity > 0 && Decide(SnapshotOf(history), event) == Success(entry)
    ensures ValidHistory(history + [entry]) && SnapshotOf(history + [entry]) == After(entry)
    ensures PushBounded(LastN(history, capacity), capacity, entry) == LastN(history + [entry], capacity)
    ensures McpLifecycle.Next(capacity, ViewOf(history, capacity), ViewOf(history + [entry], capacity))
  {
    ExtendHistory(history, event);
    PushKeepsSuffix(history, capacity, entry);
    PushBoundedIsBoundedAppend(LastN(history, capacity), capacity, entry);
    McpLifecycle.DecideIsNext(capacity, ViewOf(history, capacity), ViewOf(history + [entry], capacity), event);
  }

  /** What a reader of the ring may rely on: the retained records are the contiguous block of
      revisions that ends at the snapshot, each begins where its predecessor ended, and replaying
      them from the first source reproduces the snapshot state. */
  lemma RingView(history: seq<Record>, capacity: nat)
    requires ValidHistory(history) && capacity > 0
    ensures var ring, snapshot := LastN(history, capacity), SnapshotOf(history);
            && |ring| == (if snapshot.revision <= capacity then snapshot.revision else capacity)
            && (forall i :: 0 <= i < |ring| ==> ring[i].revision == snapshot.revision - |ring| + 1 + i)
            && (forall i :: 0 < i < |ring| ==> ring[i].source == ring[i - 1].target)
            && (ring != [] ==> Replay(ring[0].source, Events(ring)) == Some(snapshot.state))
  {
    RevisionIsLength(history);
    var ring := LastN(history, capacity);
    var first := |history| - |ring|;
    forall i | 0 <= i < |ring|
      ensures ring[i].revision == first + 1 + i && (i > 0 ==> ring[i].source == ring[i - 1].target)
    {
      assert Linked(history, first + i);
      assert i > 0 ==> ring[i - 1] == history[first + i - 1];
    }
    if ring != [] {
      HistoryReplays(history, first);
      assert Linked(history, first);
      assert history[first..] == ring;
    }
  }
}
