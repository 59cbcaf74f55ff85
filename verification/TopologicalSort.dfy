/** The sort itself: building the dependency graph and taking systems off it. */
module TopologicalSort {
  import opened Scheduler

  datatype Graph = Graph(dependents: map<string, seq<string>>, inDegree: map<string, nat>)

  function Deg(g: Graph, v: string): nat
  {
    if v in g.inDegree then g.inDegree[v] else 0
  }

  function Deps(g: Graph, u: string): seq<string>
  {
    if u in g.dependents then g.dependents[u] else []
  }

  /** The dependencies of the system with that id. */
  ghost function AfterOf(ss: seq<System>, v: string): seq<string>
  {
    if ss == [] then []
    else if ss[|ss| - 1].id == v then ss[|ss| - 1].after
    else AfterOf(ss[..|ss| - 1], v)
  }

  lemma {:induction false} AfterOfAt(ss: seq<System>, i: nat)
    requires DistinctIds(ss) && i < |ss|
    ensures AfterOf(ss, ss[i].id) == ss[i].after
  {
    if i < |ss| - 1 {
      AfterOfAt(ss[..|ss| - 1], i);
    }
  }

  lemma {:induction false} AfterOfAbsent(ss: seq<System>, v: string)
    requires v !in IdsOf(ss)
    ensures AfterOf(ss, v) == []
  {
    if ss != [] {
      var n := |ss| - 1;
      assert ss[n].id in IdsOf(ss);
      forall i | 0 <= i < n
        ensures ss[..n][i].id in IdsOf(ss)
      {
        assert ss[i].id in IdsOf(ss);
      }
      AfterOfAbsent(ss[..n], v);
    }
  }

  /** The graph counts every entry of every `after` list, repeats included. */
  ghost predicate IsGraph(ss: seq<System>, g: Graph)
  {
    && (forall v :: Deg(g, v) == |AfterOf(ss, v)|)
    && (forall u, v :: Occ(Deps(g, u), v) == Occ(AfterOf(ss, v), u))
  }

  // ---------- Building the graph ----------

  function AddEdge(g: Graph, v: string, u: string): Graph
  {
    Graph(g.dependents[u := Deps(g, u) + [v]], g.inDegree[v := Deg(g, v) + 1])
  }

  lemma AddEdgeKeeps(ss: seq<System>, id: string, phase: nat, after: seq<string>, u: string, g: Graph)
    requires IsGraph(ss + [System(id, phase, after)], g)
    ensures IsGraph(ss + [System(id, phase, after + [u])], AddEdge(g, id, u))
  {
    var a, b := ss + [System(id, phase, after)], ss + [System(id, phase, after + [u])];
    assert a[..|a| - 1] == ss && b[..|b| - 1] == ss;
    forall v
      ensures AfterOf(b, v) == if v == id then AfterOf(a, v) + [u] else AfterOf(a, v)
    {
    }
    forall x, v
      ensures Occ(Deps(AddEdge(g, id, u), x), v) == Occ(AfterOf(b, v), x)
    {
      OccAppend(Deps(g, u), id, v);
      OccAppend(after, u, x);
      assert Occ(Deps(g, x), v) == Occ(AfterOf(a, v), x);
    }
  }

  lemma NoEdgesYet(ss: seq<System>, id: string, phase: nat, g: Graph)
    requires IsGraph(ss, g) && id !in IdsOf(ss)
    ensures IsGraph(ss + [System(id, phase, [])], g)
  {
    var b := ss + [System(id, phase, [])];
    assert b[..|b| - 1] == ss;
    AfterOfAbsent(ss, id);
    forall v
      ensures AfterOf(b, v) == AfterOf(ss, v)
    {
    }
  }

  /** The dependency is a system of the list, and of the phase. */
  ghost predicate Present(ss: seq<System>, phase: nat, u: string)
  {
    exists j :: 0 <= j < |ss| && ss[j].id == u && ss[j].phase == phase
  }

  /** The reported error names a dependency of a listed system that is missing from the list,
      or listed under another phase. */
  ghost predicate Explains(ss: seq<System>, phase: nat, e: SortError)
  {
    match e
    case MissingDependency(v, u) => DependsOn(ss, v, u) && u !in IdsOf(ss)
    case CrossPhase(v, u) => DependsOn(ss, v, u) && u in IdsOf(ss) && !Present(ss, phase, u)
    case _ => false
  }

  ghost predicate IsIndex(inPhase: map<string, System>, ss: seq<System>)
  {
    && inPhase.Keys == IdsOf(ss)
    && forall i :: 0 <= i < |ss| ==> ss[i].id in inPhase && inPhase[ss[i].id] == ss[i]
  }

  method Index(ss: seq<System>) returns (inPhase: map<string, System>)
    requires DistinctIds(ss)
    ensures IsIndex(inPhase, ss)
  {
    inPhase := map[];
    var i := 0;
    while i < |ss|
      invariant i <= |ss| && (forall id :: id in inPhase ==> id in IdsOf(ss))
      invariant forall j :: 0 <= j < i ==> ss[j].id in inPhase && inPhase[ss[j].id] == ss[j]
    {
      assert ss[i].id in IdsOf(ss);
      inPhase := inPhase[ss[i].id := ss[i]];
      i := i + 1;
    }
    forall id | id in IdsOf(ss)
      ensures id in inPhase
    {
      var j :| 0 <= j < |ss| && ss[j].id == id;
    }
  }

  lemma LookupPresent(inPhase: map<string, System>, ss: seq<System>, phase: nat, u: string)
    requires IsIndex(inPhase, ss) && DistinctIds(ss)
    ensures Present(ss, phase, u) <==> u in inPhase && inPhase[u].phase == phase
  {
    if u in inPhase {
      var j :| 0 <= j < |ss| && ss[j].id == u;
      assert inPhase[ss[j].id] == ss[j];
    }
  }

  /** Adds the edges of one system. */
  method AddSystem(ss: seq<System>, phase: nat, inPhase: map<string, System>, i: nat, g0: Graph)
    returns (failed: bool, e: SortError, g: Graph)
    requires DistinctIds(ss) && IsIndex(inPhase, ss) && i < |ss| && IsGraph(ss[..i], g0)
    ensures failed ==> Explains(ss, phase, e)
    ensures !failed ==> IsGraph(ss[..i + 1], g) && forall u :: u in ss[i].after ==> Present(ss, phase, u)
  {
    var sys := ss[i];
    failed, e, g := false, Cyclic, g0;
    assert sys.id !in IdsOf(ss[..i]);
    NoEdgesYet(ss[..i], sys.id, sys.phase, g);
    var j := 0;
    assert sys.after[..0] == [];
    while j < |sys.after|
      invariant j <= |sys.after|
      invariant IsGraph(ss[..i] + [System(sys.id, sys.phase, sys.after[..j])], g)
      invariant forall u :: u in sys.after[..j] ==> Present(ss, phase, u)
    {
      var dep := sys.after[j];
      LookupPresent(inPhase, ss, phase, dep);
      assert DependsOn(ss, sys.id, dep);
      if dep !in inPhase {
        return true, MissingDependency(sys.id, dep), g;
      }
      if inPhase[dep].phase != phase {
        return true, CrossPhase(sys.id, dep), g;
      }
      AddEdgeKeeps(ss[..i], sys.id, sys.phase, sys.after[..j], dep, g);
      assert sys.after[..j + 1] == sys.after[..j] + [dep];
      g := AddEdge(g, sys.id, dep);
      j := j + 1;
    }
    assert sys.after[..j] == sys.after;
    assert ss[..i] + [sys] == ss[..i + 1];
  }

  /** Builds the graph, or reports the first dependency that is not in the phase. */
  method BuildGraph(ss: seq<System>, phase: nat, inPhase: map<string, System>) returns (failed: bool, e: SortError, g: Graph)
    requires DistinctIds(ss) && IsIndex(inPhase, ss)
    ensures failed ==> Explains(ss, phase, e)
    ensures !failed ==> IsGraph(ss, g) && Closed(ss, phase)
  {
    failed, e, g := false, Cyclic, Graph(map[], map[]);
    var i := 0;
    while i < |ss|
      invariant i <= |ss| && !failed && IsGraph(ss[..i], g)
      invariant forall k, u :: 0 <= k < i && u in ss[k].after ==> Present(ss, phase, u)
    {
      failed, e, g := AddSystem(ss, phase, inPhase, i, g);
      if failed {
        return;
      }
      i := i + 1;
    }
    assert ss[..i] == ss;
    forall k, u | 0 <= k < |ss| && u in ss[k].after
      ensures exists j :: 0 <= j < |ss| && ss[j].id == u && ss[j].phase == phase
    {
      assert Present(ss, phase, u);
    }
  }

  // ---------- Taking systems off the graph ----------

  /** What is sorted so far: systems of the list, each once, each behind its dependencies. */
  ghost predicate SortedWell(ss: seq<System>, sorted: seq<System>)
  {
    DistinctIds(sorted) && Respects(sorted) && forall s :: s in sorted ==> s in ss
  }

  /** The queue holds, once each, systems with no open dependency that are not sorted. */
  ghost predicate QueueWell(ss: seq<System>, done: set<string>, queue: seq<string>, g: Graph)
  {
    && NoRepeats(queue)
    && (forall v :: v in queue ==> v in IdsOf(ss) && v !in done && Deg(g, v) == 0)
    && (forall v :: v in IdsOf(ss) && v !in done && Deg(g, v) == 0 ==> v in queue)
    && (forall v :: v in done ==> Deg(g, v) == 0)
  }

  /** Degrees count the open dependencies; `rest` are decrements still to be made. */
  ghost predicate DegreesWell(ss: seq<System>, done: set<string>, rest: seq<string>, g: Graph)
  {
    forall v :: Deg(g, v) == Pending(AfterOf(ss, v), done) + Occ(rest, v)
  }

  ghost predicate SameEdges(ss: seq<System>, g: Graph)
  {
    forall u, v :: Occ(Deps(g, u), v) == Occ(AfterOf(ss, v), u)
  }

  lemma AppendIds(sorted: seq<System>, s: System)
    ensures IdsOf(sorted + [s]) == IdsOf(sorted) + {s.id}
  {
    var more := sorted + [s];
    assert more[|sorted|] == s;
    forall i | 0 <= i < |sorted|
      ensures sorted[i].id in IdsOf(more)
    {
      assert more[i] == sorted[i];
    }
  }

  lemma AppendSorted(ss: seq<System>, sorted: seq<System>, s: System)
    requires SortedWell(ss, sorted) && s in ss && s.id !in IdsOf(sorted)
    requires forall u :: u in s.after ==> u in IdsOf(sorted)
    ensures SortedWell(ss, sorted + [s])
  {
    var more := sorted + [s];
    forall i, u | 0 <= i < |more| && u in more[i].after
      ensures u in IdsOf(more[..i])
    {
      assert more[..i] == sorted[..i];
      assert i == |sorted| ==> sorted[..i] == sorted;
    }
    forall i | 0 <= i < |sorted|
      ensures sorted[i].id != s.id
    {
      assert sorted[i].id in IdsOf(sorted);
    }
  }

  /** Sorting `current` opens the decrements of its dependents. */
  lemma DegreesOpen(ss: seq<System>, done: set<string>, current: string, g: Graph)
    requires DegreesWell(ss, done, [], g) && SameEdges(ss, g) && current !in done
    ensures DegreesWell(ss, done + {current}, Deps(g, current), g)
  {
    forall v
      ensures Deg(g, v) == Pending(AfterOf(ss, v), done + {current}) + Occ(Deps(g, current), v)
    {
      PendingStep(AfterOf(ss, v), done, current);
      assert Occ(Deps(g, current), v) == Occ(AfterOf(ss, v), current);
    }
  }

  function Decrement(g: Graph, v: string): Graph
    requires Deg(g, v) > 0
  {
    g.(inDegree := g.inDegree[v := Deg(g, v) - 1])
  }

  lemma DecrementKeeps(ss: seq<System>, done: set<string>, rest: seq<string>, queue: seq<string>, g: Graph)
    requires rest != [] && DegreesWell(ss, done, rest, g) && QueueWell(ss, done, queue, g)
    ensures Deg(g, rest[0]) > 0
    ensures var h := Decrement(g, rest[0]);
            && DegreesWell(ss, done, rest[1..], h)
            && (rest[0] in IdsOf(ss) ==> QueueWell(ss, done, if Deg(h, rest[0]) == 0 then queue + [rest[0]] else queue, h))
  {
    var v := rest[0];
    assert Deg(g, v) == Pending(AfterOf(ss, v), done) + Occ(rest, v);
    var h := Decrement(g, v);
    forall x
      ensures Deg(h, x) == Pending(AfterOf(ss, x), done) + Occ(rest[1..], x)
    {
      assert Deg(g, x) == Pending(AfterOf(ss, x), done) + Occ(rest, x);
    }
    assert v !in queue && v !in done;
  }

  lemma {:induction false} OccursIn(xs: seq<string>, x: string)
    ensures Occ(xs, x) > 0 <==> x in xs
  {
    if xs != [] {
      OccursIn(xs[1..], x);
      assert xs == [xs[0]] + xs[1..];
    }
  }

  /** Dependents of a system are systems of the list. */
  lemma DependentIsListed(ss: seq<System>, u: string, v: string, g: Graph)
    requires SameEdges(ss, g) && v in Deps(g, u)
    ensures v in IdsOf(ss)
  {
    OccursIn(Deps(g, u), v);
    assert Occ(Deps(g, u), v) == Occ(AfterOf(ss, v), u);
    if v !in IdsOf(ss) {
      AfterOfAbsent(ss, v);
    }
  }

  /** Makes the decrements for the dependents of a sorted system. */
  method Release(ss: seq<System>, current: string, ghost done: set<string>, queue0: seq<string>, g0: Graph)
    returns (queue: seq<string>, g: Graph)
    requires SameEdges(ss, g0) && DegreesWell(ss, done, Deps(g0, current), g0) && QueueWell(ss, done, queue0, g0)
    ensures SameEdges(ss, g) && DegreesWell(ss, done, [], g) && QueueWell(ss, done, queue, g)
  {
    queue, g := queue0, g0;
    var ds := Deps(g0, current);
    assert ds[0..] == ds;
    var j := 0;
    while j < |ds|
      invariant j <= |ds| && g.dependents == g0.dependents
      invariant DegreesWell(ss, done, ds[j..], g) && QueueWell(ss, done, queue, g)
    {
      assert ds[j..][0] == ds[j] && ds[j..][1..] == ds[j + 1..];
      DependentIsListed(ss, current, ds[j], g0);
      DecrementKeeps(ss, done, ds[j..], queue, g);
      g := Decrement(g, ds[j]);
      if Deg(g, ds[j]) == 0 {
        queue := queue + [ds[j]];
      }
      j := j + 1;
    }
    assert ds[j..] == [];
    assert forall u :: Deps(g, u) == Deps(g0, u);
  }

  /** Taking the head of the queue: it has no open dependency, and is then done. */
  lemma TakeHead(ss: seq<System>, sorted: seq<System>, queue: seq<string>, g: Graph, i: nat)
    requires DistinctIds(ss) && SortedWell(ss, sorted) && queue != [] && i < |ss| && ss[i].id == queue[0]
    requires DegreesWell(ss, IdsOf(sorted), [], g) && QueueWell(ss, IdsOf(sorted), queue, g) && SameEdges(ss, g)
    ensures SortedWell(ss, sorted + [ss[i]])
    ensures var done := IdsOf(sorted + [ss[i]]);
            DegreesWell(ss, done, Deps(g, queue[0]), g) && QueueWell(ss, done, queue[1..], g)
  {
    var v := queue[0];
    assert v in queue;
    AfterOfAt(ss, i);
    assert Deg(g, v) == Pending(ss[i].after, IdsOf(sorted)) + Occ([], v);
    PendingZero(ss[i].after, IdsOf(sorted));
    AppendSorted(ss, sorted, ss[i]);
    AppendIds(sorted, ss[i]);
    DegreesOpen(ss, IdsOf(sorted), v, g);
    assert queue == [v] + queue[1..];
  }

  /** All degrees as built, nothing sorted. */
  lemma BeginDegrees(ss: seq<System>, g: Graph)
    requires IsGraph(ss, g)
    ensures DegreesWell(ss, {}, [], g) && SameEdges(ss, g)
  {
    forall v
      ensures Deg(g, v) == Pending(AfterOf(ss, v), {}) + Occ([], v)
    {
      PendingAll(AfterOf(ss, v));
      assert Deg(g, v) == |AfterOf(ss, v)|;
    }
  }

  /** The systems without dependencies, in the given order. */
  method InitialQueue(ss: seq<System>, g: Graph) returns (queue: seq<string>)
    requires DistinctIds(ss)
    ensures QueueWell(ss, {}, queue, g)
  {
    queue := [];
    var i := 0;
    while i < |ss|
      invariant i <= |ss| && NoRepeats(queue)
      invariant forall v :: v in queue ==> exists j :: 0 <= j < i && ss[j].id == v
      invariant forall v :: v in queue ==> Deg(g, v) == 0
      invariant forall j :: 0 <= j < i && Deg(g, ss[j].id) == 0 ==> ss[j].id in queue
    {
      if Deg(g, ss[i].id) == 0 {
        assert ss[i].id !in queue;
        queue := queue + [ss[i].id];
      }
      i := i + 1;
    }
  }

  // ---------- The result ----------

  lemma {:induction false} IdCount(ss: seq<System>)
    requires DistinctIds(ss)
    ensures |IdsOf(ss)| == |ss|
  {
    if ss != [] {
      var n := |ss| - 1;
      IdCount(ss[..n]);
      assert ss == ss[..n] + [ss[n]];
      AppendIds(ss[..n], ss[n]);
      assert ss[n].id !in IdsOf(ss[..n]);
    }
  }

  lemma SortedIds(ss: seq<System>, sorted: seq<System>)
    requires SortedWell(ss, sorted)
    ensures IdsOf(sorted) <= IdsOf(ss)
  {
    forall i | 0 <= i < |sorted|
      ensures sorted[i].id in IdsOf(ss)
    {
      assert sorted[i] in sorted;
      var j :| 0 <= j < |ss| && ss[j] == sorted[i];
      assert ss[j].id in IdsOf(ss);
    }
  }

  lemma Subset(a: set<string>, b: set<string>)
    requires a <= b && |a| == |b|
    ensures a == b
  {
    assert b == a + (b - a) && |b - a| == |b| - |a|;
    assert b - a == {};
  }

  /** All systems are sorted when as many are. */
  lemma AllSorted(ss: seq<System>, sorted: seq<System>)
    requires DistinctIds(ss) && SortedWell(ss, sorted) && |sorted| == |ss|
    ensures forall s :: s in ss ==> s in sorted
  {
    IdCount(ss);
    IdCount(sorted);
    SortedIds(ss, sorted);
    Subset(IdsOf(sorted), IdsOf(ss));
    forall s | s in ss
      ensures s in sorted
    {
      var i :| 0 <= i < |ss| && ss[i] == s;
      assert s.id in IdsOf(sorted);
      var k :| 0 <= k < |sorted| && sorted[k].id == s.id;
      assert sorted[k] in sorted;
      var j :| 0 <= j < |ss| && ss[j] == sorted[k];
      assert i == j;
    }
  }

  lemma {:induction false} SystemMultiset(ss: seq<System>)
    requires DistinctIds(ss)
    ensures forall s :: multiset(ss)[s] == if s in ss then 1 else 0
  {
    if ss != [] {
      var n := |ss| - 1;
      SystemMultiset(ss[..n]);
      assert ss == ss[..n] + [ss[n]];
    }
  }

  /** When the queue runs dry too early, the unsorted systems wait for each other. */
  lemma DryQueueMeansCycle(ss: seq<System>, phase: nat, sorted: seq<System>, g: Graph)
    requires DistinctIds(ss) && Closed(ss, phase) && SortedWell(ss, sorted) && |sorted| != |ss|
    requires DegreesWell(ss, IdsOf(sorted), [], g) && QueueWell(ss, IdsOf(sorted), [], g)
    ensures HasCycle(ss)
  {
    var left := IdsOf(ss) - IdsOf(sorted);
    SomeLeft(ss, sorted);
    UnsortedAllWait(ss, phase, IdsOf(sorted), g);
    var v :| v in left;
    FindCycle(ss, left, [v]);
  }

  lemma UnsortedAllWait(ss: seq<System>, phase: nat, done: set<string>, g: Graph)
    requires DistinctIds(ss) && Closed(ss, phase) && DegreesWell(ss, done, [], g) && QueueWell(ss, done, [], g)
    ensures AllWait(ss, IdsOf(ss) - done)
  {
    forall v {:trigger WaitsIn(ss, IdsOf(ss) - done, v)} | v in IdsOf(ss) - done
      ensures WaitsIn(ss, IdsOf(ss) - done, v)
    {
      UnsortedWaits(ss, phase, done, g, v);
    }
  }

  lemma SomeLeft(ss: seq<System>, sorted: seq<System>)
    requires DistinctIds(ss) && SortedWell(ss, sorted) && |sorted| != |ss|
    ensures IdsOf(ss) - IdsOf(sorted) != {}
  {
    SortedIds(ss, sorted);
    IdCount(ss);
    IdCount(sorted);
    assert IdsOf(ss) == IdsOf(sorted) + (IdsOf(ss) - IdsOf(sorted));
  }

  lemma UnsortedWaits(ss: seq<System>, phase: nat, done: set<string>, g: Graph, v: string)
    requires DistinctIds(ss) && Closed(ss, phase) && DegreesWell(ss, done, [], g) && QueueWell(ss, done, [], g)
    requires v in IdsOf(ss) && v !in done
    ensures WaitsIn(ss, IdsOf(ss) - done, v)
  {
    var i :| 0 <= i < |ss| && ss[i].id == v;
    AfterOfAt(ss, i);
    assert Deg(g, v) == Pending(ss[i].after, done) + Occ([], v);
    PendingZero(ss[i].after, done);
    var u :| u in ss[i].after && u !in done;
    var j :| 0 <= j < |ss| && ss[j].id == u && ss[j].phase == phase;
    assert ss[j].id in IdsOf(ss) && DependsOn(ss, v, u);
  }

  /** Between two rounds: what is sorted, queued and still counted fits together. */
  ghost predicate RoundWell(ss: seq<System>, sorted: seq<System>, queue: seq<string>, g: Graph)
  {
    && SortedWell(ss, sorted) && SameEdges(ss, g)
    && DegreesWell(ss, IdsOf(sorted), [], g) && QueueWell(ss, IdsOf(sorted), queue, g)
  }

  /** One round: the head of the queue is sorted and its dependents are released. */
  method Round(ss: seq<System>, inPhase: map<string, System>, sorted0: seq<System>, queue0: seq<string>, g0: Graph)
    returns (sorted: seq<System>, queue: seq<string>, g: Graph)
    requires DistinctIds(ss) && IsIndex(inPhase, ss) && queue0 != [] && RoundWell(ss, sorted0, queue0, g0)
    ensures RoundWell(ss, sorted, queue, g)
    ensures IdsOf(sorted) == IdsOf(sorted0) + {queue0[0]} && queue0[0] in IdsOf(ss) - IdsOf(sorted0)
  {
    var current := queue0[0];
    assert current in queue0;
    ghost var i :| 0 <= i < |ss| && ss[i].id == current;
    TakeHead(ss, sorted0, queue0, g0, i);
    AppendIds(sorted0, ss[i]);
    assert inPhase[ss[i].id] == ss[i];
    sorted := sorted0 + [inPhase[current]];
    queue, g := Release(ss, current, IdsOf(sorted), queue0[1..], g0);
  }

  method Kahn(ss: seq<System>, phase: nat, inPhase: map<string, System>, g0: Graph) returns (sorted: seq<System>)
    requires DistinctIds(ss) && IsIndex(inPhase, ss) && Closed(ss, phase) && IsGraph(ss, g0)
    ensures SortedWell(ss, sorted)
    ensures |sorted| != |ss| ==> HasCycle(ss)
  {
    sorted := [];
    var g := g0;
    BeginDegrees(ss, g);
    var queue := InitialQueue(ss, g);
    assert IdsOf(sorted) == {};
    while queue != []
      invariant RoundWell(ss, sorted, queue, g)
      decreases IdsOf(ss) - IdsOf(sorted)
    {
      sorted, queue, g := Round(ss, inPhase, sorted, queue, g);
    }
    if |sorted| != |ss| {
      DryQueueMeansCycle(ss, phase, sorted, g);
    }
  }

  /** Sorts the systems of a phase.  A result is a permutation that respects every
      dependency; a cycle is reported if and only if there is one. */
  method Sort(phase: nat, ss: seq<System>) returns (r: Sorted)
    requires DistinctIds(ss)
    ensures r.Ok? ==> multiset(r.order) == multiset(ss) && Respects(r.order) && Closed(ss, phase) && !HasCycle(ss)
    ensures r == Err(Cyclic) <==> Closed(ss, phase) && HasCycle(ss)
    ensures r.Err? && r.error != Cyclic ==> Explains(ss, phase, r.error)
    ensures !Closed(ss, phase) <==> r.Err? && r.error != Cyclic
  {
    var inPhase := Index(ss);
    var failed, e, g := BuildGraph(ss, phase, inPhase);
    if failed {
      ExplainedIsOpen(ss, phase, e);
      return Err(e);
    }
    var sorted := Kahn(ss, phase, inPhase, g);
    if |sorted| != |ss| {
      return Err(Cyclic);
    }
    AllSorted(ss, sorted);
    SystemMultiset(ss);
    SystemMultiset(sorted);
    OrderedHasNoCycle(ss, sorted);
    return Ok(sorted);
  }

  lemma ExplainedIsOpen(ss: seq<System>, phase: nat, e: SortError)
    requires Explains(ss, phase, e)
    ensures !Closed(ss, phase) && e != Cyclic
  {
    var v, u := e.systemId, e.dependencyId;
    assert DependsOn(ss, v, u);
    var i :| 0 <= i < |ss| && ss[i].id == v && u in ss[i].after;
    forall j | 0 <= j < |ss|
      ensures ss[j].id in IdsOf(ss)
    {
    }
    assert !Present(ss, phase, u);
    assert Closed(ss, phase) ==> Present(ss, phase, u);
  }
}
