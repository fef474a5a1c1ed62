/** The exhaustive checker over an arbitrary finite transition relation: the fixed-point closure
    is exactly path reachability, and validation is sound and complete. */
module ModelCheck {
  import opened Wrappers
  import Lifecycle

  datatype Model<!S(==), !E(==)> = Model(
    states: seq<S>,
    events: seq<E>,
    target: (S, E) -> Option<S>,
    terminal: S -> bool,
    initial: S)
  {
    function Declared(): set<S> {
      set s | s in states
    }
  }

  datatype Report<S> = Report(reachable: set<S>, transitionCount: nat)
  datatype Violation = UndeclaredTarget | TerminalHasOutgoingTransition | UnreachableState | NonTerminalDeadlock

  /** Targets of the enabled events, in declaration order. */
  function SuccessorsBy<S, E>(m: Model<S, E>, state: S, events: seq<E>): seq<S> {
    if events == [] then []
    else
      var n := |events| - 1;
      var next := m.target(state, events[n]);
      SuccessorsBy(m, state, events[..n]) + if next.Some? then [next.value] else []
  }

  function Successors<S, E>(m: Model<S, E>, state: S): seq<S> {
    SuccessorsBy(m, state, m.events)
  }

  function Edges<S, E>(m: Model<S, E>, states: seq<S>): seq<(S, S)> {
    if states == [] then []
    else
      var n := |states| - 1;
      var targets := Successors(m, states[n]);
      Edges(m, states[..n]) + From(states[n], targets)
  }

  function From<S>(state: S, targets: seq<S>): (edges: seq<(S, S)>)
    ensures |edges| == |targets| && forall i :: 0 <= i < |edges| ==> edges[i] == (state, targets[i])
  {
    seq(|targets|, i requires 0 <= i < |targets| => (state, targets[i]))
  }

  function FirstBadEdge<S, E>(m: Model<S, E>, edges: seq<(S, S)>): Option<Violation>
    decreases |edges|
  {
    if edges == [] then None
    else if edges[0].1 !in m.Declared() then Some(UndeclaredTarget)
    else if m.terminal(edges[0].0) then Some(TerminalHasOutgoingTransition)
    else FirstBadEdge(m, edges[1..])
  }

  function Expand<S, E>(m: Model<S, E>, reachable: set<S>): set<S> {
    reachable + (set s, t | s in reachable && t in Successors(m, s) :: t)
  }

  ghost predicate ClosedSet<S, E>(m: Model<S, E>, states: set<S>) {
    Expand(m, states) <= states
  }

  lemma SameSizeSubset<S>(a: set<S>, b: set<S>)
    requires a <= b
    ensures |a| <= |b|
    ensures |a| == |b| ==> a == b
  {
    assert b == a + (b - a);
  }

  /** Expand until a step adds nothing; the stop test compares sizes only. */
  function Closure<S, E>(m: Model<S, E>, reachable: set<S>, ghost universe: set<S>): set<S>
    requires reachable <= universe && ClosedSet(m, universe)
    decreases |universe| - |reachable|
  {
    var expanded := Expand(m, reachable);
    assert expanded <= Expand(m, universe);
    SameSizeSubset(reachable, expanded);
    SameSizeSubset(expanded, universe);
    if |expanded| == |reachable| then expanded else Closure(m, expanded, universe)
  }

  /** The number of calls `Closure` makes. */
  ghost function ClosureCalls<S, E>(m: Model<S, E>, reachable: set<S>, universe: set<S>): nat
    requires reachable <= universe && ClosedSet(m, universe)
    decreases |universe| - |reachable|
  {
    var expanded := Expand(m, reachable);
    assert expanded <= Expand(m, universe);
    SameSizeSubset(reachable, expanded);
    SameSizeSubset(expanded, universe);
    1 + if |expanded| == |reachable| then 0 else ClosureCalls(m, expanded, universe)
  }

  function Validate<S, E>(m: Model<S, E>): Result<Report<S>, Violation>
    requires m.initial in m.states
  {
    var edges := Edges(m, m.states);
    var bad := FirstBadEdge(m, edges);
    if bad.Some? then Failure(bad.value)
    else
      assert ClosedSet(m, m.Declared()) by { NoBadEdgeMeansClosed(m); }
      var reachable := Closure(m, {m.initial}, m.Declared());
      if reachable != m.Declared() then Failure(UnreachableState)
      else if exists s :: s in reachable && !m.terminal(s) && forall e :: e in m.events ==> m.target(s, e).None?
      then Failure(NonTerminalDeadlock)
      else Success(Report(reachable, |edges|))
  }

  // ---------------------------------------------------------------- edges

  ghost predicate EdgeBy<S, E>(m: Model<S, E>, s: S, e: E, t: S) {
    e in m.events && m.target(s, e) == Some(t)
  }

  lemma {:induction false} SuccessorsAreTargets<S, E>(m: Model<S, E>, s: S, t: S, events: seq<E>)
    ensures t in SuccessorsBy(m, s, events) <==> exists k :: 0 <= k < |events| && m.target(s, events[k]) == Some(t)
  {
    if events != [] {
      var n := |events| - 1;
      SuccessorsAreTargets(m, s, t, events[..n]);
      if k :| 0 <= k < n && m.target(s, events[..n][k]) == Some(t) {
        assert m.target(s, events[k]) == Some(t);
      }
      if k :| 0 <= k < |events| && m.target(s, events[k]) == Some(t) {
        assert k < n ==> m.target(s, events[..n][k]) == Some(t);
      }
    }
  }

  lemma SuccessorIffEdge<S, E(!new)>(m: Model<S, E>, s: S, t: S)
    ensures t in Successors(m, s) <==> exists e :: EdgeBy(m, s, e, t)
  {
    SuccessorsAreTargets(m, s, t, m.events);
    if e :| EdgeBy(m, s, e, t) {
      var k :| 0 <= k < |m.events| && m.events[k] == e;
      assert m.target(s, m.events[k]) == Some(t);
    }
    if k :| 0 <= k < |m.events| && m.target(s, m.events[k]) == Some(t) {
      assert EdgeBy(m, s, m.events[k], t);
    }
  }

  lemma {:induction false} EdgesArePairs<S, E>(m: Model<S, E>, states: seq<S>, s: S, t: S)
    ensures (s, t) in Edges(m, states) <==> s in states && t in Successors(m, s)
  {
    if states != [] {
      var n := |states| - 1;
      EdgesArePairs(m, states[..n], s, t);
      var targets := Successors(m, states[n]);
      var pairs := seq(|targets|, i requires 0 <= i < |targets| => (states[n], targets[i]));
      assert s in states <==> s in states[..n] || s == states[n];
      if s == states[n] && t in targets {
        var i :| 0 <= i < |targets| && targets[i] == t;
        assert pairs[i] == (s, t);
      }
    }
  }

  ghost predicate GoodEdge<S, E>(m: Model<S, E>, edge: (S, S)) {
    edge.1 in m.Declared() && !m.terminal(edge.0)
  }

  /** Index `i` holds the first bad edge, and `v` is the fault checked first on it. */
  ghost predicate FirstFault<S, E>(m: Model<S, E>, edges: seq<(S, S)>, i: nat, v: Violation) {
    && i < |edges| && !GoodEdge(m, edges[i])
    && (forall j :: 0 <= j < i ==> GoodEdge(m, edges[j]))
    && v == if edges[i].1 !in m.Declared() then UndeclaredTarget else TerminalHasOutgoingTransition
  }

  lemma {:induction false} FirstBadEdgeFinds<S, E>(m: Model<S, E>, edges: seq<(S, S)>)
    ensures FirstBadEdge(m, edges).None? ==> forall i :: 0 <= i < |edges| ==> GoodEdge(m, edges[i])
    ensures FirstBadEdge(m, edges).Some? ==> exists i: nat :: FirstFault(m, edges, i, FirstBadEdge(m, edges).value)
    decreases |edges|
  {
    if edges != [] {
      if GoodEdge(m, edges[0]) {
        var rest := edges[1..];
        FirstBadEdgeFinds(m, rest);
        if FirstBadEdge(m, rest).Some? {
          var i: nat :| FirstFault(m, rest, i, FirstBadEdge(m, rest).value);
          forall j | 0 <= j < i + 1 ensures GoodEdge(m, edges[j]) {
            assert j > 0 ==> edges[j] == rest[j - 1];
          }
          assert FirstFault(m, edges, i + 1, FirstBadEdge(m, rest).value);
        } else {
          forall j | 0 <= j < |edges| ensures GoodEdge(m, edges[j]) {
            assert j > 0 ==> edges[j] == rest[j - 1];
          }
        }
      } else {
        assert FirstFault(m, edges, 0, FirstBadEdge(m, edges).value);
      }
    }
  }

  // ---------------------------------------------------------------- the first fault in declaration order

  /** The fault of one state with one event, if it has one. */
  ghost predicate PairFault<S, E>(m: Model<S, E>, s: S, e: E, v: Violation) {
    && m.target(s, e).Some?
    && (v == UndeclaredTarget <==> m.target(s, e).value !in m.states)
    && (v == TerminalHasOutgoingTransition <==> m.target(s, e).value in m.states && m.terminal(s))
    && (v == UndeclaredTarget || v == TerminalHasOutgoingTransition)
  }

  ghost predicate PairGood<S, E>(m: Model<S, E>, s: S, e: E) {
    m.target(s, e).Some? ==> m.target(s, e).value in m.states && !m.terminal(s)
  }

  /** Event `k` is the first one that is at fault with the state. */
  ghost predicate RowFault<S, E>(m: Model<S, E>, s: S, k: nat, v: Violation) {
    k < |m.events| && PairFault(m, s, m.events[k], v) && forall j :: 0 <= j < k ==> PairGood(m, s, m.events[j])
  }

  ghost predicate RowGood<S, E>(m: Model<S, E>, s: S, n: nat) {
    n <= |m.events| && forall j :: 0 <= j < n ==> PairGood(m, s, m.events[j])
  }

  /** State `i` with event `k` is the first pair at fault: states in declaration order, and events in
      declaration order within a state. */
  ghost predicate TableFault<S, E>(m: Model<S, E>, i: nat, k: nat, v: Violation) {
    && i < |m.states| && RowFault(m, m.states[i], k, v)
    && forall h :: 0 <= h < i ==> RowGood(m, m.states[h], |m.events|)
  }

  lemma {:induction false} FirstBadOfAppend<S, E>(m: Model<S, E>, a: seq<(S, S)>, b: seq<(S, S)>)
    ensures FirstBadEdge(m, a + b) == if FirstBadEdge(m, a).Some? then FirstBadEdge(m, a) else FirstBadEdge(m, b)
    decreases |a|
  {
    if a == [] {
      assert a + b == b;
    } else {
      assert (a + b)[1..] == a[1..] + b;
      FirstBadOfAppend(m, a[1..], b);
    }
  }

  lemma FromOfAppend<S>(s: S, a: seq<S>, b: seq<S>)
    ensures From(s, a + b) == From(s, a) + From(s, b)
  {
  }

  lemma {:induction false} OneEdge<S, E>(m: Model<S, E>, s: S, e: E)
    requires m.target(s, e).Some?
    ensures FirstBadEdge(m, From(s, [m.target(s, e).value])).None? ==> PairGood(m, s, e)
    ensures FirstBadEdge(m, From(s, [m.target(s, e).value])).Some? ==>
              PairFault(m, s, e, FirstBadEdge(m, From(s, [m.target(s, e).value])).value)
  {
    var edge := (s, m.target(s, e).value);
    assert From(s, [m.target(s, e).value]) == [edge];
    assert FirstBadEdge(m, [edge][1..]).None?;
  }

  /** The first fault of a state, over its first `n` events. */
  lemma {:induction false} RowFinds<S, E>(m: Model<S, E>, s: S, n: nat)
    requires n <= |m.events|
    ensures var bad := FirstBadEdge(m, From(s, SuccessorsBy(m, s, m.events[..n])));
            && (bad.None? ==> RowGood(m, s, n))
            && (bad.Some? ==> exists k: nat :: k < n && RowFault(m, s, k, bad.value))
    decreases n
  {
    if n == 0 {
      assert From(s, SuccessorsBy(m, s, m.events[..0])) == [];
    } else {
      RowFinds(m, s, n - 1);
      assert m.events[..n][..n - 1] == m.events[..n - 1];
      var e, before := m.events[n - 1], SuccessorsBy(m, s, m.events[..n - 1]);
      if m.target(s, e).Some? {
        var last := [m.target(s, e).value];
        assert SuccessorsBy(m, s, m.events[..n]) == before + last;
        FromOfAppend(s, before, last);
        FirstBadOfAppend(m, From(s, before), From(s, last));
        OneEdge(m, s, e);
        if FirstBadEdge(m, From(s, before)).None? && FirstBadEdge(m, From(s, last)).Some? {
          assert RowFault(m, s, n - 1, FirstBadEdge(m, From(s, last)).value);
        }
      } else {
        assert SuccessorsBy(m, s, m.events[..n]) == before;
      }
    }
  }

  lemma {:induction false} TableFinds<S, E>(m: Model<S, E>, n: nat)
    requires n <= |m.states|
    ensures var bad := FirstBadEdge(m, Edges(m, m.states[..n]));
            && (bad.None? ==> forall h :: 0 <= h < n ==> RowGood(m, m.states[h], |m.events|))
            && (bad.Some? ==> exists i: nat, k: nat :: i < n && TableFault(m, i, k, bad.value))
    decreases n
  {
    if n > 0 {
      TableFinds(m, n - 1);
      var s := m.states[n - 1];
      var before, row := Edges(m, m.states[..n - 1]), From(s, Successors(m, s));
      assert m.states[..n][..n - 1] == m.states[..n - 1];
      assert Edges(m, m.states[..n]) == before + row;
      FirstBadOfAppend(m, before, row);
      RowFinds(m, s, |m.events|);
      assert m.events[..|m.events|] == m.events;
      if FirstBadEdge(m, before).None? && FirstBadEdge(m, row).Some? {
        var k: nat :| k < |m.events| && RowFault(m, s, k, FirstBadEdge(m, row).value);
        assert TableFault(m, n - 1, k, FirstBadEdge(m, row).value);
      }
    }
  }

  /** No two faults can both come first. */
  lemma FirstFaultIsOne<S, E>(m: Model<S, E>, i: nat, k: nat, v: Violation, i': nat, k': nat, v': Violation)
    requires TableFault(m, i, k, v) && TableFault(m, i', k', v')
    ensures i == i' && k == k' && v == v'
  {
    FaultyRowIsNotGood(m, m.states[i], k, v);
    FaultyRowIsNotGood(m, m.states[i'], k', v');
    assert i == i';
    assert !PairGood(m, m.states[i], m.events[k]) && !PairGood(m, m.states[i], m.events[k']);
  }

  lemma FaultyRowIsNotGood<S, E>(m: Model<S, E>, s: S, k: nat, v: Violation)
    requires RowFault(m, s, k, v)
    ensures !PairGood(m, s, m.events[k]) && !RowGood(m, s, |m.events|)
  {
  }

  /** An edge fault is reported exactly when it is that of the first pair at fault. */
  lemma EdgeFaultIsFirst<S, E>(m: Model<S, E>, v: Violation)
    requires m.initial in m.states && (v == UndeclaredTarget || v == TerminalHasOutgoingTransition)
    ensures Validate(m) == Failure(v) <==> exists i: nat, k: nat :: TableFault(m, i, k, v)
  {
    TableFinds(m, |m.states|);
    assert m.states[..|m.states|] == m.states;
    var bad := FirstBadEdge(m, Edges(m, m.states));
    if i: nat, k: nat :| TableFault(m, i, k, v) {
      FaultyRowIsNotGood(m, m.states[i], k, v);
      if bad.Some? {
        var i': nat, k': nat :| i' < |m.states| && TableFault(m, i', k', bad.value);
        FirstFaultIsOne(m, i, k, v, i', k', bad.value);
      }
    }
  }

  lemma {:induction false} NoBadEdgeMeansClosed<S, E>(m: Model<S, E>)
    requires FirstBadEdge(m, Edges(m, m.states)).None?
    ensures ClosedSet(m, m.Declared())
  {
    var edges := Edges(m, m.states);
    FirstBadEdgeFinds(m, edges);
    forall t | t in Expand(m, m.Declared()) ensures t in m.Declared() {
      if t !in m.Declared() {
        var s :| s in m.Declared() && t in Successors(m, s);
        EdgesArePairs(m, m.states, s, t);
      }
    }
  }

  // ---------------------------------------------------------------- reachability

  /** The state at the end of a finite event path; None when some event on it is not enabled. */
  function Follow<S, E>(m: Model<S, E>, state: S, path: seq<E>): Option<S> {
    if path == [] then Some(state)
    else
      var n := |path| - 1;
      var before := Follow(m, state, path[..n]);
      if before.None? || path[n] !in m.events then None else m.target(before.value, path[n])
  }

  ghost predicate PathReaches<S, E(!new)>(m: Model<S, E>, from: S, t: S) {
    exists path: seq<E> :: Follow(m, from, path) == Some(t)
  }

  lemma ExtendPath<S, E(!new)>(m: Model<S, E>, from: S, s: S, t: S)
    requires PathReaches(m, from, s) && t in Successors(m, s)
    ensures PathReaches(m, from, t)
  {
    var path: seq<E> :| Follow(m, from, path) == Some(s);
    SuccessorIffEdge(m, s, t);
    var e :| EdgeBy(m, s, e, t);
    assert (path + [e])[..|path|] == path;
    assert Follow(m, from, path + [e]) == Some(t);
  }

  lemma {:induction false} ClosureIsSound<S, E(!new)>(m: Model<S, E>, from: S, reachable: set<S>, universe: set<S>)
    requires reachable <= universe && ClosedSet(m, universe)
    requires forall s :: s in reachable ==> PathReaches(m, from, s)
    ensures forall t :: t in Closure(m, reachable, universe) ==> PathReaches(m, from, t)
    decreases |universe| - |reachable|
  {
    var expanded := Expand(m, reachable);
    assert expanded <= Expand(m, universe);
    SameSizeSubset(reachable, expanded);
    SameSizeSubset(expanded, universe);
    forall t | t in expanded ensures PathReaches(m, from, t) {
      if t !in reachable {
        var s :| s in reachable && t in Successors(m, s);
        ExtendPath(m, from, s, t);
      }
    }
    if |expanded| != |reachable| {
      ClosureIsSound(m, from, expanded, universe);
    }
  }

  /** The closure contains the seed, is closed, is contained in every closed set around the seed,
      and is reached within one call per state missing from the seed, plus one. */
  lemma {:induction false} ClosureIsLeastFixedPoint<S, E>(m: Model<S, E>, seed: set<S>, universe: set<S>)
    requires seed <= universe && ClosedSet(m, universe)
    ensures var r := Closure(m, seed, universe);
            && seed <= r <= universe && Expand(m, r) == r
            && (forall closed: set<S> :: seed <= closed && ClosedSet(m, closed) ==> r <= closed)
    ensures ClosureCalls(m, seed, universe) <= |universe| - |seed| + 1
    decreases |universe| - |seed|
  {
    var expanded := Expand(m, seed);
    assert expanded <= Expand(m, universe);
    SameSizeSubset(seed, expanded);
    SameSizeSubset(expanded, universe);
    if |expanded| != |seed| {
      ClosureIsLeastFixedPoint(m, expanded, universe);
      forall closed: set<S> | seed <= closed && ClosedSet(m, closed)
        ensures Closure(m, seed, universe) <= closed
      {
        assert expanded <= Expand(m, closed);
      }
    }
  }

  lemma {:induction false} PathsStayInside<S, E(!new)>(m: Model<S, E>, from: S, path: seq<E>, closed: set<S>)
    requires from in closed && ClosedSet(m, closed)
    ensures Follow(m, from, path).Some? ==> Follow(m, from, path).value in closed
  {
    if path != [] && Follow(m, from, path).Some? {
      var n := |path| - 1;
      PathsStayInside(m, from, path[..n], closed);
      var s, t := Follow(m, from, path[..n]).value, Follow(m, from, path).value;
      assert EdgeBy(m, s, path[n], t);
      SuccessorIffEdge(m, s, t);
      assert t in Expand(m, closed);
    }
  }

  /** The fixed point is exactly the set of states some finite event path reaches. */
  lemma {:induction false} ClosureIffPath<S, E(!new)>(m: Model<S, E>, from: S, universe: set<S>, t: S)
    requires from in universe && ClosedSet(m, universe)
    ensures t in Closure(m, {from}, universe) <==> PathReaches(m, from, t)
  {
    assert Follow(m, from, []) == Some(from);
    ClosureIsSound(m, from, {from}, universe);
    ClosureIsLeastFixedPoint(m, {from}, universe);
    var r := Closure(m, {from}, universe);
    if path: seq<E> :| Follow(m, from, path) == Some(t) {
      PathsStayInside(m, from, path, r);
    }
  }

  // ---------------------------------------------------------------- validation

  ghost predicate TargetsDeclared<S(!new), E(!new)>(m: Model<S, E>) {
    forall s, e, t :: s in m.states && EdgeBy(m, s, e, t) ==> t in m.states
  }

  ghost predicate TerminalsAreFinal<S(!new), E(!new)>(m: Model<S, E>) {
    forall s, e, t :: s in m.states && EdgeBy(m, s, e, t) ==> !m.terminal(s)
  }

  ghost predicate AllReachable<S(!new), E(!new)>(m: Model<S, E>) {
    forall s :: s in m.states ==> PathReaches(m, m.initial, s)
  }

  ghost predicate DeadlockFree<S(!new), E(!new)>(m: Model<S, E>) {
    forall s :: s in m.states && !m.terminal(s) ==> exists e, t :: EdgeBy(m, s, e, t)
  }

  lemma {:induction false} BadEdgeIff<S(!new), E(!new)>(m: Model<S, E>)
    ensures FirstBadEdge(m, Edges(m, m.states)).None? <==> TargetsDeclared(m) && TerminalsAreFinal(m)
  {
    var edges := Edges(m, m.states);
    FirstBadEdgeFinds(m, edges);
    if FirstBadEdge(m, edges).None? {
      forall s, e, t | s in m.states && EdgeBy(m, s, e, t) ensures t in m.states && !m.terminal(s) {
        SuccessorIffEdge(m, s, t);
        EdgesArePairs(m, m.states, s, t);
        var i :| 0 <= i < |edges| && edges[i] == (s, t);
        assert GoodEdge(m, edges[i]);
      }
    } else {
      var i: nat :| FirstFault(m, edges, i, FirstBadEdge(m, edges).value);
      var (s, t) := edges[i];
      EdgesArePairs(m, m.states, s, t);
      SuccessorIffEdge(m, s, t);
      var e :| EdgeBy(m, s, e, t);
    }
  }

  lemma {:induction false} ReachableIff<S(!new), E(!new)>(m: Model<S, E>)
    requires m.initial in m.states && ClosedSet(m, m.Declared())
    ensures Closure(m, {m.initial}, m.Declared()) == m.Declared() <==> AllReachable(m)
  {
    ClosureIsLeastFixedPoint(m, {m.initial}, m.Declared());
    var r := Closure(m, {m.initial}, m.Declared());
    forall t ensures t in r <==> PathReaches(m, m.initial, t) {
      ClosureIffPath(m, m.initial, m.Declared(), t);
    }
    if AllReachable(m) {
      assert m.Declared() <= r;
    }
  }

  lemma DeadlockIff<S(!new), E(!new)>(m: Model<S, E>)
    ensures DeadlockFree(m) <==>
            !exists s :: s in m.Declared() && !m.terminal(s) && forall e :: e in m.events ==> m.target(s, e).None?
  {
    if DeadlockFree(m) {
      forall s | s in m.Declared() && !m.terminal(s) ensures exists e :: e in m.events && m.target(s, e).Some? {
        var e, t :| EdgeBy(m, s, e, t);
        assert e in m.events && m.target(s, e).Some?;
      }
    } else {
      var s :| s in m.states && !m.terminal(s) && !exists e, t :: EdgeBy(m, s, e, t);
      forall e | e in m.events ensures m.target(s, e).None? {
        if m.target(s, e).Some? {
          assert EdgeBy(m, s, e, m.target(s, e).value);
        }
      }
      assert s in m.Declared();
    }
  }

  /** Validation accepts exactly the relations with the four properties, and each refusal names
      the first property, in checking order, that fails. */
  lemma ValidateIff<S(!new), E(!new)>(m: Model<S, E>)
    requires m.initial in m.states
    ensures Validate(m).Success? <==>
            TargetsDeclared(m) && TerminalsAreFinal(m) && AllReachable(m) && DeadlockFree(m)
    ensures Validate(m) == Failure(UndeclaredTarget) ==> !TargetsDeclared(m)
    ensures Validate(m) == Failure(TerminalHasOutgoingTransition) ==> !TerminalsAreFinal(m)
    ensures Validate(m) == Failure(UnreachableState) <==>
            TargetsDeclared(m) && TerminalsAreFinal(m) && !AllReachable(m)
    ensures Validate(m) == Failure(NonTerminalDeadlock) <==>
            TargetsDeclared(m) && TerminalsAreFinal(m) && AllReachable(m) && !DeadlockFree(m)
    ensures Validate(m).Success? ==> Validate(m).value.reachable == m.Declared()
  {
    var edges := Edges(m, m.states);
    BadEdgeIff(m);
    FirstBadEdgeFinds(m, edges);
    if FirstBadEdge(m, edges).Some? {
      var i: nat :| FirstFault(m, edges, i, FirstBadEdge(m, edges).value);
      var (s, t) := edges[i];
      EdgesArePairs(m, m.states, s, t);
      SuccessorIffEdge(m, s, t);
      var e :| EdgeBy(m, s, e, t);
    } else {
      NoBadEdgeMeansClosed(m);
      ReachableIff(m);
      DeadlockIff(m);
    }
  }

  // ---------------------------------------------------------------- counting

  function EnabledIn<S, E>(m: Model<S, E>, s: S, n: nat): set<int>
    requires n <= |m.events|
  {
    set k | 0 <= k < n && m.target(s, m.events[k]).Some?
  }

  lemma EnabledStep<S, E>(m: Model<S, E>, s: S, n: nat)
    requires 0 < n <= |m.events|
    ensures |EnabledIn(m, s, n)| == |EnabledIn(m, s, n - 1)| + if m.target(s, m.events[n - 1]).Some? then 1 else 0
  {
    assert EnabledIn(m, s, n) == EnabledIn(m, s, n - 1) + if m.target(s, m.events[n - 1]).Some? then {n - 1} else {};
  }

  lemma {:induction false} SuccessorCount<S, E>(m: Model<S, E>, s: S, n: nat)
    requires n <= |m.events|
    ensures |SuccessorsBy(m, s, m.events[..n])| == |EnabledIn(m, s, n)|
  {
    if n > 0 {
      SuccessorCount(m, s, n - 1);
      assert m.events[..n][..n - 1] == m.events[..n - 1];
      EnabledStep(m, s, n);
    }
  }

  /** The number of enabled (state, event) pairs among the first `n` states. */
  ghost function EnabledPairs<S, E>(m: Model<S, E>, n: nat): nat
    requires n <= |m.states|
  {
    if n == 0 then 0 else EnabledPairs(m, n - 1) + |EnabledIn(m, m.states[n - 1], |m.events|)|
  }

  /** The edge list has one entry per enabled pair. */
  lemma {:induction false} EdgeCount<S, E>(m: Model<S, E>, n: nat)
    requires n <= |m.states|
    ensures |Edges(m, m.states[..n])| == EnabledPairs(m, n)
  {
    if n > 0 {
      EdgeCount(m, n - 1);
      assert m.states[..n][..n - 1] == m.states[..n - 1];
      SuccessorCount(m, m.states[n - 1], |m.events|);
      assert m.events[..|m.events|] == m.events;
    }
  }

  lemma {:induction false} ReportedCount<S(!new), E(!new)>(m: Model<S, E>)
    requires m.initial in m.states && Validate(m).Success?
    ensures Validate(m).value.transitionCount == EnabledPairs(m, |m.states|)
  {
    EdgeCount(m, |m.states|);
    assert m.states[..|m.states|] == m.states;
  }

  // ---------------------------------------------------------------- the lifecycle instance

  const LIFECYCLE: Model<Lifecycle.State, Lifecycle.Event> :=
    Model(Lifecycle.ALL_STATES, Lifecycle.ALL_EVENTS, (s, e) => Lifecycle.TransitionTarget(s, e),
          s => Lifecycle.IsTerminal(s), Lifecycle.Created)

  lemma LifecycleStateDeclared(s: Lifecycle.State)
    ensures s in Lifecycle.ALL_STATES
  {
    var k := match s case Created => 0 case Starting => 1 case Ready => 2
      case Degraded => 3 case Draining => 4 case Stopped => 5;
    assert Lifecycle.ALL_STATES[k] == s;
  }

  lemma LifecycleEventDeclared(e: Lifecycle.Event)
    ensures e in Lifecycle.ALL_EVENTS
  {
    var k := match e case Start => 0 case Started => 1 case Degrade => 2
      case Recover => 3 case Drain => 4 case Stop => 5;
    assert Lifecycle.ALL_EVENTS[k] == e;
  }

  lemma LifecycleStep(s: Lifecycle.State, e: Lifecycle.Event, t: Lifecycle.State)
    requires PathReaches(LIFECYCLE, Lifecycle.Created, s) && Lifecycle.TransitionTarget(s, e) == Some(t)
    ensures PathReaches(LIFECYCLE, Lifecycle.Created, t)
  {
    LifecycleEventDeclared(e);
    assert EdgeBy(LIFECYCLE, s, e, t);
    SuccessorIffEdge(LIFECYCLE, s, t);
    ExtendPath(LIFECYCLE, Lifecycle.Created, s, t);
  }

  lemma LifecycleReachable()
    ensures AllReachable(LIFECYCLE)
  {
    assert Follow(LIFECYCLE, Lifecycle.Created, []) == Some(Lifecycle.Created);
    LifecycleStep(Lifecycle.Created, Lifecycle.Start, Lifecycle.Starting);
    LifecycleStep(Lifecycle.Created, Lifecycle.Stop, Lifecycle.Stopped);
    LifecycleStep(Lifecycle.Starting, Lifecycle.Started, Lifecycle.Ready);
    LifecycleStep(Lifecycle.Starting, Lifecycle.Drain, Lifecycle.Draining);
    LifecycleStep(Lifecycle.Ready, Lifecycle.Degrade, Lifecycle.Degraded);
  }

  function One<S, E>(m: Model<S, E>, s: S, e: E): nat {
    if m.target(s, e).Some? then 1 else 0
  }

  lemma SixEvents<S, E>(m: Model<S, E>, s: S)
    requires |m.events| == 6
    ensures |EnabledIn(m, s, 6)| == One(m, s, m.events[0]) + One(m, s, m.events[1]) + One(m, s, m.events[2])
                                    + One(m, s, m.events[3]) + One(m, s, m.events[4]) + One(m, s, m.events[5])
  {
    assert EnabledIn(m, s, 0) == {};
    EnabledStep(m, s, 1);
    EnabledStep(m, s, 2);
    EnabledStep(m, s, 3);
    EnabledStep(m, s, 4);
    EnabledStep(m, s, 5);
    EnabledStep(m, s, 6);
  }

  lemma LifecycleRow(s: Lifecycle.State)
    ensures |EnabledIn(LIFECYCLE, s, 6)| ==
            match s case Created => 2 case Starting => 3 case Ready => 2
            case Degraded => 2 case Draining => 1 case Stopped => 0
  {
    SixEvents(LIFECYCLE, s);
  }

  lemma LifecyclePairs()
    ensures EnabledPairs(LIFECYCLE, 6) == 10
  {
    LifecycleRow(Lifecycle.Created);
    LifecycleRow(Lifecycle.Starting);
    LifecycleRow(Lifecycle.Ready);
    LifecycleRow(Lifecycle.Degraded);
    LifecycleRow(Lifecycle.Draining);
    LifecycleRow(Lifecycle.Stopped);
    assert EnabledPairs(LIFECYCLE, 2) == 5;
    assert EnabledPairs(LIFECYCLE, 4) == 9;
  }

  lemma LifecycleEdges()
    ensures TargetsDeclared(LIFECYCLE) && TerminalsAreFinal(LIFECYCLE)
  {
    forall t ensures t in LIFECYCLE.states {
      LifecycleStateDeclared(t);
    }
  }

  lemma LifecycleDeadlockFree()
    ensures DeadlockFree(LIFECYCLE)
  {
    forall s | s in LIFECYCLE.states && !LIFECYCLE.terminal(s) ensures exists e, t :: EdgeBy(LIFECYCLE, s, e, t) {
      var e := match s
        case Created => Lifecycle.Start
        case Starting => Lifecycle.Started
        case Ready => Lifecycle.Degrade
        case Degraded => Lifecycle.Recover
        case _ => Lifecycle.Stop;
      LifecycleEventDeclared(e);
      assert EdgeBy(LIFECYCLE, s, e, Lifecycle.TransitionTarget(s, e).value);
    }
  }

  /** The lifecycle relation passes: all six states reachable, ten edges. */
  lemma LifecycleIsValid()
    ensures LIFECYCLE.initial in LIFECYCLE.states
    ensures Validate(LIFECYCLE) == Success(Report(set s | s in Lifecycle.ALL_STATES, 10))
  {
    LifecycleStateDeclared(Lifecycle.Created);
    LifecycleEdges();
    LifecycleReachable();
    LifecycleDeadlockFree();
    ValidateIff(LIFECYCLE);
    ReportedCount(LIFECYCLE);
    LifecyclePairs();
  }
}
