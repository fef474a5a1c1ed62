/** The pure transition relation, the histories it admits, and the exact language of
    event sequences it accepts. */
module Lifecycle {
  import opened Wrappers

  const U64_MAX: nat := 0xFFFF_FFFF_FFFF_FFFF
  const MAX_AUDIT_CAPACITY: nat := 4096

  datatype State = Created | Starting | Ready | Degraded | Draining | Stopped
  datatype Event = Start | Started | Degrade | Recover | Drain | Stop

  const ALL_STATES: seq<State> := [Created, Starting, Ready, Degraded, Draining, Stopped]
  const ALL_EVENTS: seq<Event> := [Start, Started, Degrade, Recover, Drain, Stop]

  predicate IsTerminal(state: State) {
    state.Stopped?
  }

  predicate IsHealth(event: Event) {
    event.Degrade? || event.Recover?
  }

  function TransitionTarget(state: State, event: Event): Option<State> {
    match (state, event)
    case (Created, Start) => Some(Starting)
    case (Created, Stop) => Some(Stopped)
    case (Starting, Stop) => Some(Stopped)
    case (Draining, Stop) => Some(Stopped)
    case (Starting, Started) => Some(Ready)
    case (Degraded, Recover) => Some(Ready)
    case (Starting, Drain) => Some(Draining)
    case (Ready, Drain) => Some(Draining)
    case (Degraded, Drain) => Some(Draining)
    case (Ready, Degrade) => Some(Degraded)
    case _ => None
  }

  datatype Snapshot = Snapshot(state: State, revision: nat)
  datatype Record = Record(revision: nat, source: State, event: Event, target: State)
  datatype TransitionError =
    | InvalidAuditCapacity
    | InvalidTransition(source: State, event: Event)
    | RevisionExhausted

  const INITIAL := Snapshot(Created, 0)

  /** What `transition` computes from the locked snapshot before it writes anything: the edge
      must exist, and the u64 revision must be able to advance. */
  function Decide(snapshot: Snapshot, event: Event): Result<Record, TransitionError> {
    var target := TransitionTarget(snapshot.state, event);
    if target.None? then Failure(InvalidTransition(snapshot.state, event))
    else if snapshot.revision >= U64_MAX then Failure(RevisionExhausted)
    else Success(Record(snapshot.revision + 1, snapshot.state, event, target.value))
  }

  function After(entry: Record): Snapshot {
    Snapshot(entry.target, entry.revision)
  }

  // ---------------------------------------------------------------- histories

  function SnapshotOf(history: seq<Record>): Snapshot {
    if history == [] then INITIAL else After(history[|history| - 1])
  }

  /** A full (unbounded) history from Created: revisions 1, 2, 3, ... and every record an edge
      that leaves the state its predecessor entered. */
  ghost predicate ValidHistory(history: seq<Record>) {
    && |history| <= U64_MAX
    && forall i :: 0 <= i < |history| ==> Linked(history, i)
  }

  ghost predicate Linked(history: seq<Record>, i: nat)
    requires i < |history|
  {
    && Decide(SnapshotOf(history[..i]), history[i].event) == Success(history[i])
    && history[i].revision == i + 1
  }

  lemma RevisionIsLength(history: seq<Record>)
    requires ValidHistory(history)
    ensures SnapshotOf(history).revision == |history|
  {
    if history != [] {
      assert Linked(history, |history| - 1);
    }
  }

  lemma ExtendHistory(history: seq<Record>, event: Event)
    requires ValidHistory(history)
    requires Decide(SnapshotOf(history), event).Success?
    ensures ValidHistory(history + [Decide(SnapshotOf(history), event).value])
    ensures SnapshotOf(history + [Decide(SnapshotOf(history), event).value])
            == After(Decide(SnapshotOf(history), event).value)
  {
    RevisionIsLength(history);
    var longer := history + [Decide(SnapshotOf(history), event).value];
    forall i | 0 <= i < |longer| ensures Linked(longer, i) {
      assert longer[..i] == history[..i];
      if i < |history| {
        assert Linked(history, i);
      } else {
        assert history[..i] == history;
      }
    }
  }

  lemma PrefixOfHistory(history: seq<Record>, n: nat)
    requires ValidHistory(history) && n <= |history|
    ensures ValidHistory(history[..n]) && SnapshotOf(history[..n]).revision == n
  {
    forall i | 0 <= i < n ensures Linked(history[..n], i) {
      assert history[..n][..i] == history[..i] && Linked(history, i);
    }
    RevisionIsLength(history[..n]);
  }

  /** The last record is the edge taken from the state of the history without it. */
  lemma LastLink(history: seq<Record>)
    requires ValidHistory(history) && history != []
    ensures var before, last := history[..|history| - 1], history[|history| - 1];
            && ValidHistory(before)
            && TransitionTarget(SnapshotOf(before).state, last.event) == Some(last.target)
            && last.source == SnapshotOf(before).state
            && SnapshotOf(history) == Snapshot(last.target, |history|)
  {
    PrefixOfHistory(history, |history| - 1);
    assert Linked(history, |history| - 1);
  }

  lemma NothingFollowsStopped(history: seq<Record>, k: nat)
    requires ValidHistory(history) && k < |history|
    ensures SnapshotOf(history[..k]).state != Stopped
  {
    assert Linked(history, k);
  }

  function Events(history: seq<Record>): (events: seq<Event>)
    ensures |events| == |history| && forall i :: 0 <= i < |events| ==> events[i] == history[i].event
  {
    seq(|history|, i requires 0 <= i < |history| => history[i].event)
  }

  // ---------------------------------------------------------------- accepted event sequences

  /** Applies events one after another; None as soon as one is refused. */
  function Replay(state: State, events: seq<Event>): Option<State>
    decreases |events|
  {
    if events == [] then Some(state)
    else
      var next := TransitionTarget(state, events[0]);
      if next.None? then None else Replay(next.value, events[1..])
  }

  /** Strict alternation of health marks, beginning with Degrade when `healthy`. */
  ghost predicate Alternates(marks: seq<Event>, healthy: bool) {
    forall i :: 0 <= i < |marks| ==> marks[i] == if (i % 2 == 0) == healthy then Degrade else Recover
  }

  ghost predicate ServingTail(events: seq<Event>, healthy: bool) {
    exists n :: 0 <= n <= |events| && Alternates(events[..n], healthy) && events[n..] <= [Drain, Stop]
  }

  /** The lifecycle language, written as a grammar and without reference to any state. */
  ghost predicate LifecycleWord(events: seq<Event>) {
    || events <= [Stop]
    || events <= [Start, Stop]
    || events <= [Start, Drain, Stop]
    || (|events| >= 2 && events[..2] == [Start, Started] && ServingTail(events[2..], true))
  }

  lemma AlternatesCons(mark: Event, marks: seq<Event>, healthy: bool)
    ensures Alternates([mark] + marks, healthy) <==>
            mark == (if healthy then Degrade else Recover) && Alternates(marks, !healthy)
  {
    var all := [mark] + marks;
    if Alternates(all, healthy) {
      assert all[0] == mark;
      forall i | 0 <= i < |marks| ensures marks[i] == if (i % 2 == 0) == !healthy then Degrade else Recover {
        assert marks[i] == all[i + 1];
      }
    }
    if mark == (if healthy then Degrade else Recover) && Alternates(marks, !healthy) {
      forall i | 0 <= i < |all| ensures all[i] == if (i % 2 == 0) == healthy then Degrade else Recover {
        assert i > 0 ==> all[i] == marks[i - 1];
      }
    }
  }

  /** One more mark in front of a serving tail. */
  lemma ServingTailWithMark(mark: Event, rest: seq<Event>, healthy: bool)
    requires mark == (if healthy then Degrade else Recover) && ServingTail(rest, !healthy)
    ensures ServingTail([mark] + rest, healthy)
  {
    var events := [mark] + rest;
    var n :| 0 <= n <= |rest| && Alternates(rest[..n], !healthy) && rest[n..] <= [Drain, Stop];
    AlternatesCons(mark, rest[..n], healthy);
    assert events[..n + 1] == [mark] + rest[..n] && events[n + 1..] == rest[n..];
  }

  /** One mark fewer. */
  lemma ServingTailAfterMark(mark: Event, rest: seq<Event>, healthy: bool)
    requires mark == (if healthy then Degrade else Recover) && ServingTail([mark] + rest, healthy)
    ensures ServingTail(rest, !healthy)
  {
    var events := [mark] + rest;
    var n :| 0 <= n <= |events| && Alternates(events[..n], healthy) && events[n..] <= [Drain, Stop];
    assert n != 0 by {
      assert events[0] == mark && events[0..] == events;
    }
    assert events[..n] == [mark] + rest[..n - 1] && events[n..] == rest[n - 1..];
    AlternatesCons(mark, rest[..n - 1], healthy);
  }

  lemma ServingTailStep(mark: Event, rest: seq<Event>, healthy: bool)
    requires mark == if healthy then Degrade else Recover
    ensures ServingTail([mark] + rest, healthy) <==> ServingTail(rest, !healthy)
  {
    if ServingTail(rest, !healthy) {
      ServingTailWithMark(mark, rest, healthy);
    }
    if ServingTail([mark] + rest, healthy) {
      ServingTailAfterMark(mark, rest, healthy);
    }
  }

  lemma ServingTailWithoutMark(events: seq<Event>, healthy: bool)
    requires events != [] && events[0] != if healthy then Degrade else Recover
    ensures ServingTail(events, healthy) <==> events <= [Drain, Stop]
  {
    assert events[..0] == [] && events[0..] == events;
    if ServingTail(events, healthy) {
      var n :| 0 <= n <= |events| && Alternates(events[..n], healthy) && events[n..] <= [Drain, Stop];
      assert n == 0;
    }
    if events <= [Drain, Stop] {
      assert Alternates(events[..0], healthy) && events[0..] <= [Drain, Stop];
    }
  }

  lemma {:induction false} ServingTailIff(events: seq<Event>, healthy: bool)
    ensures Replay(if healthy then Ready else Degraded, events).Some? <==> ServingTail(events, healthy)
    decreases |events|
  {
    if events == [] {
      assert Alternates(events[..0], healthy) && events[0..] <= [Drain, Stop];
    } else if events[0] == (if healthy then Degrade else Recover) {
      ServingTailIff(events[1..], !healthy);
      ServingTailStep(events[0], events[1..], healthy);
      assert [events[0]] + events[1..] == events;
    } else {
      ServingTailWithoutMark(events, healthy);
      ShutdownTailIff(events);
    }
  }

  /** After the serving phase ends, only Drain and then Stop are accepted. */
  lemma ShutdownTailIff(events: seq<Event>)
    requires events != []
    ensures events <= [Drain, Stop] <==> events[0] == Drain && Replay(Draining, events[1..]).Some?
  {
    if events[0] == Drain && |events| > 1 {
      assert events[1..][0] == events[1];
      StoppedAcceptsNothing(events[1..][1..]);
      assert events[1..][1..] == [] <==> |events| == 2;
    }
  }

  lemma {:induction false} StoppedAcceptsNothing(events: seq<Event>)
    ensures Replay(Stopped, events).Some? <==> events == []
  {
  }

  lemma StartedWord(events: seq<Event>)
    requires |events| >= 2 && events[0] == Start
    ensures LifecycleWord(events) <==>
            (events[1] == Stop && |events| == 2)
            || (events[1] == Drain && events[1..] <= [Drain, Stop])
            || (events[1] == Started && ServingTail(events[2..], true))
  {
  }

  lemma {:induction false} StartingIff(rest: seq<Event>)
    requires rest != []
    ensures Replay(Starting, rest).Some? <==>
            (rest[0] == Stop && |rest| == 1)
            || (rest[0] == Drain && rest <= [Drain, Stop])
            || (rest[0] == Started && ServingTail(rest[1..], true))
  {
    StoppedAcceptsNothing(rest[1..]);
    ShutdownTailIff(rest);
    ServingTailIff(rest[1..], true);
  }

  /** The relation accepts exactly the words of the grammar: Start, Started, Drain and Stop occur
      in that order and at most once each, health marks strictly alternate and only between
      Started and Drain, and nothing follows Stop. */
  lemma {:induction false} AcceptedIffLifecycleWord(events: seq<Event>)
    ensures Replay(Created, events).Some? <==> LifecycleWord(events)
  {
    if |events| >= 1 {
      var rest := events[1..];
      StoppedAcceptsNothing(rest);
      if events[0] == Start && |events| >= 2 {
        StartedWord(events);
        StartingIff(rest);
        assert rest[1..] == events[2..] && rest[0] == events[1];
      }
    }
  }

  lemma {:induction false} HistoryReplays(history: seq<Record>, first: nat)
    requires ValidHistory(history) && first <= |history|
    ensures Replay(SnapshotOf(history[..first]).state, Events(history[first..])) == Some(SnapshotOf(history).state)
    decreases |history| - first
  {
    if first == |history| {
      assert history[..first] == history;
    } else {
      HistoryReplays(history, first + 1);
      assert Linked(history, first);
      assert history[..first + 1] == history[..first] + [history[first]];
      assert Events(history[first..])[1..] == Events(history[first + 1..]);
    }
  }

  /** The event sequence of every history is a lifecycle word. */
  lemma HistoryIsLifecycleWord(history: seq<Record>)
    requires ValidHistory(history)
    ensures LifecycleWord(Events(history))
  {
    HistoryReplays(history, 0);
    assert history[0..] == history && history[..0] == [];
    AcceptedIffLifecycleWord(Events(history));
  }

  lemma {:induction false} ReplayLast(state: State, events: seq<Event>, event: Event)
    ensures Replay(state, events + [event]) ==
            if Replay(state, events).None? then None else TransitionTarget(Replay(state, events).value, event)
    decreases |events|
  {
    var longer := events + [event];
    if events == [] {
      assert longer[1..] == [];
    } else if TransitionTarget(state, events[0]).Some? {
      assert longer[1..] == events[1..] + [event];
      ReplayLast(TransitionTarget(state, events[0]).value, events[1..], event);
    }
  }

  lemma RecordOne(before: seq<Record>, event: Event) returns (history: seq<Record>)
    requires ValidHistory(before) && |before| < U64_MAX
    requires TransitionTarget(SnapshotOf(before).state, event).Some?
    ensures ValidHistory(history) && Events(history) == Events(before) + [event]
    ensures SnapshotOf(history).state == TransitionTarget(SnapshotOf(before).state, event).value
  {
    RevisionIsLength(before);
    ExtendHistory(before, event);
    history := before + [Decide(SnapshotOf(before), event).value];
  }

  /** A history that records the given events, if the relation accepts them. */
  lemma {:induction false} RecordWord(events: seq<Event>) returns (history: seq<Record>)
    requires |events| <= U64_MAX && Replay(Created, events).Some?
    ensures ValidHistory(history) && Events(history) == events
    ensures Some(SnapshotOf(history).state) == Replay(Created, events)
    decreases |events|
  {
    if events == [] {
      history := [];
    } else {
      var earlier, event := events[..|events| - 1], events[|events| - 1];
      assert events == earlier + [event];
      ReplayLast(Created, earlier, event);
      var before := RecordWord(earlier);
      assert |before| == |Events(before)|;
      history := RecordOne(before, event);
    }
  }

  ghost predicate Records(history: seq<Record>, events: seq<Event>) {
    ValidHistory(history) && Events(history) == events
  }

  /** What the controller can record is exactly the lifecycle words that the revision counter has
      room for. */
  lemma RecordableIffLifecycleWord(events: seq<Event>)
    ensures (exists history :: Records(history, events)) <==> LifecycleWord(events) && |events| <= U64_MAX
  {
    if history :| Records(history, events) {
      HistoryIsLifecycleWord(history);
    }
    if LifecycleWord(events) && |events| <= U64_MAX {
      AcceptedIffLifecycleWord(events);
      var history := RecordWord(events);
      assert Records(history, events);
    }
  }

  /** What a call on a controller with this history is answered, in terms of the grammar: it is
      recorded iff it continues a lifecycle word and a revision is left; else it is an invalid
      transition if it continues none, and only otherwise a matter of exhausted revisions. */
  lemma CallIsAnsweredByTheGrammar(history: seq<Record>, event: Event)
    requires ValidHistory(history)
    ensures var word, state := LifecycleWord(Events(history) + [event]), SnapshotOf(history).state;
            && (Decide(SnapshotOf(history), event) == Failure(InvalidTransition(state, event)) <==> !word)
            && (Decide(SnapshotOf(history), event) == Failure(RevisionExhausted) <==>
                word && |history| == 18446744073709551615)
            && (Decide(SnapshotOf(history), event).Success? <==> word && |history| < 18446744073709551615)
  {
    RevisionIsLength(history);
    HistoryReplays(history, 0);
    assert history[0..] == history && history[..0] == [];
    ReplayLast(Created, Events(history), event);
    AcceptedIffLifecycleWord(Events(history) + [event]);
  }

  // ---------------------------------------------------------------- counting and phase laws

  /** How many times each event occurs. */
  datatype Tally = Tally(start: nat, started: nat, degrade: nat, recover: nat, drain: nat, stop: nat) {
    function Bump(event: Event): Tally {
      match event
      case Start => this.(start := start + 1)
      case Started => this.(started := started + 1)
      case Degrade => this.(degrade := degrade + 1)
      case Recover => this.(recover := recover + 1)
      case Drain => this.(drain := drain + 1)
      case Stop => this.(stop := stop + 1)
    }

    function Total(): nat {
      start + started + degrade + recover + drain + stop
    }
  }

  function TallyOf(history: seq<Record>): Tally {
    if history == [] then Tally(0, 0, 0, 0, 0, 0)
    else TallyOf(history[..|history| - 1]).Bump(history[|history| - 1].event)
  }

  function PhaseRank(state: State): nat {
    match state
    case Created => 0
    case Starting => 1
    case Ready => 2
    case Degraded => 2
    case Draining => 3
    case Stopped => 4
  }

  /** The tallies possible in each state. */
  ghost predicate TallyFits(state: State, t: Tally) {
    match state
    case Created => t == Tally(0, 0, 0, 0, 0, 0)
    case Starting => t == Tally(1, 0, 0, 0, 0, 0)
    case Ready => t == Tally(1, 1, t.degrade, t.degrade, 0, 0)
    case Degraded => t == Tally(1, 1, t.recover + 1, t.recover, 0, 0)
    case Draining => DrainedTally(t) && t.stop == 0
    case Stopped => t.stop == 1 && (DrainedTally(t) || (t == Tally(t.start, 0, 0, 0, 0, 1) && t.start <= 1))
  }

  ghost predicate DrainedTally(t: Tally) {
    && t.start == 1 && t.drain == 1
    && (t.started == 0 ==> t.degrade == 0 && t.recover == 0)
    && t.started <= 1
    && t.recover <= t.degrade <= t.recover + 1
  }

  lemma TallyStep(state: State, t: Tally, event: Event)
    requires TallyFits(state, t) && TransitionTarget(state, event).Some?
    ensures TallyFits(TransitionTarget(state, event).value, t.Bump(event))
  {
    match event
    case Start =>
    case Started =>
    case Degrade =>
    case Recover =>
    case Drain =>
    case Stop =>
  }

  lemma {:induction false} HistoryTallyFits(history: seq<Record>)
    requires ValidHistory(history)
    ensures TallyFits(SnapshotOf(history).state, TallyOf(history))
  {
    if history != [] {
      var n := |history| - 1;
      var before, last := history[..n], history[n];
      LastLink(history);
      HistoryTallyFits(before);
      TallyStep(SnapshotOf(before).state, TallyOf(before), last.event);
      assert TallyOf(history) == TallyOf(before).Bump(last.event);
    }
  }

  lemma {:induction false} TallyTotal(history: seq<Record>)
    ensures TallyOf(history).Total() == |history|
  {
    if history != [] {
      TallyTotal(history[..|history| - 1]);
    }
  }

  lemma TallyBounds(state: State, t: Tally)
    requires TallyFits(state, t)
    ensures t.start <= 1 && t.started <= 1 && t.drain <= 1 && t.stop <= 1
    ensures t.started == 1 && t.stop == 1 ==> t.drain == 1
    ensures t.drain == 0 ==> t.degrade - t.recover == if state == Degraded then 1 else 0
    ensures 0 <= t.degrade - t.recover <= 1
  {
  }

  /** Start, Started, Drain and Stop happen at most once each; a Stop after Started comes with a
      Drain; Degrade leads Recover by at most one, and by exactly the current impairment until
      Drain; and the revision is bounded by the number of health marks. */
  lemma {:induction false} CountingLaw(history: seq<Record>)
    requires ValidHistory(history)
    ensures var t, state := TallyOf(history), SnapshotOf(history).state;
            && t.start <= 1 && t.started <= 1 && t.drain <= 1 && t.stop <= 1
            && (t.started == 1 && t.stop == 1 ==> t.drain == 1)
            && (t.drain == 0 ==> t.degrade - t.recover == if state == Degraded then 1 else 0)
            && 0 <= t.degrade - t.recover <= 1
            && SnapshotOf(history).revision == |history| <= 4 + t.degrade + t.recover
  {
    HistoryTallyFits(history);
    TallyBounds(SnapshotOf(history).state, TallyOf(history));
    TallyTotal(history);
    RevisionIsLength(history);
  }

  lemma {:induction false} PhaseNeverDecreases(history: seq<Record>, i: nat, j: nat)
    requires ValidHistory(history) && i <= j <= |history|
    ensures PhaseRank(SnapshotOf(history[..i]).state) <= PhaseRank(SnapshotOf(history[..j]).state)
    decreases j - i
  {
    if i < j {
      PhaseNeverDecreases(history, i, j - 1);
      PrefixOfHistory(history, j);
      LastLink(history[..j]);
      assert history[..j][..j - 1] == history[..j - 1];
    }
  }

  /** Once serving has begun, the record just before Stop is Drain: nothing comes between them. */
  lemma DrainRightBeforeStop(history: seq<Record>, i: nat, j: nat)
    requires ValidHistory(history) && i < j < |history|
    requires history[i].event == Started && history[j].event == Stop
    ensures history[j - 1].event == Drain && history[j].source == Draining
  {
    PhaseNeverDecreases(history, i + 1, j);
    PrefixOfHistory(history, i + 1);
    LastLink(history[..i + 1]);
    PrefixOfHistory(history, j + 1);
    LastLink(history[..j + 1]);
    assert history[..j + 1][..j] == history[..j];
    PrefixOfHistory(history, j);
    LastLink(history[..j]);
  }
}
