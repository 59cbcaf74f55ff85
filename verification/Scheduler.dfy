/** The system scheduler (`schedular.go`): Kahn's algorithm per phase. */
module Scheduler {

  datatype System = System(id: string, phase: nat, after: seq<string>)

  datatype SortError =
    | EmptyId
    | DuplicateId(systemId: string)
    | MissingDependency(systemId: string, dependencyId: string)
    | CrossPhase(systemId: string, dependencyId: string)
    | Cyclic

  datatype Sorted = Ok(order: seq<System>) | Err(error: SortError)

  ghost predicate DistinctIds(ss: seq<System>)
  {
    forall i, j :: 0 <= i < j < |ss| ==> ss[i].id != ss[j].id
  }

  ghost function IdsOf(ss: seq<System>): set<string>
  {
    set i | 0 <= i < |ss| :: ss[i].id
  }

  // ---------- What is to be computed ----------

  /** `v` is to run after `u`. */
  ghost predicate DependsOn(ss: seq<System>, v: string, u: string)
  {
    exists i :: 0 <= i < |ss| && ss[i].id == v && u in ss[i].after
  }

  /** Each system depends on the next. */
  ghost predicate Chain(ss: seq<System>, p: seq<string>)
  {
    forall i :: 0 <= i < |p| - 1 ==> DependsOn(ss, p[i], p[i + 1])
  }

  /** A round of systems each of which depends on the next, and the last on the first. */
  ghost predicate IsCycle(ss: seq<System>, p: seq<string>)
  {
    p != [] && Chain(ss, p) && DependsOn(ss, p[|p| - 1], p[0])
  }

  ghost predicate HasCycle(ss: seq<System>)
  {
    exists p :: IsCycle(ss, p)
  }

  /** Every dependency of a system stands before it. */
  ghost predicate Respects(order: seq<System>)
  {
    forall i, u :: 0 <= i < |order| && u in order[i].after ==> u in IdsOf(order[..i])
  }

  /** Every dependency is a system of the list, and of the phase. */
  ghost predicate Closed(ss: seq<System>, phase: nat)
  {
    forall i, u :: 0 <= i < |ss| && u in ss[i].after ==> exists j :: 0 <= j < |ss| && ss[j].id == u && ss[j].phase == phase
  }

  // ---------- Counting dependencies ----------

  /** How many of the entries, repeats included, are not yet done. */
  function Pending(after: seq<string>, done: set<string>): nat
  {
    if after == [] then 0 else (if after[0] in done then 0 else 1) + Pending(after[1..], done)
  }

  function Occ(xs: seq<string>, x: string): nat
  {
    if xs == [] then 0 else (if xs[0] == x then 1 else 0) + Occ(xs[1..], x)
  }

  lemma {:induction false} PendingStep(after: seq<string>, done: set<string>, u: string)
    requires u !in done
    ensures Pending(after, done) == Pending(after, done + {u}) + Occ(after, u)
  {
    if after != [] {
      PendingStep(after[1..], done, u);
    }
  }

  lemma {:induction false} PendingZero(after: seq<string>, done: set<string>)
    ensures Pending(after, done) == 0 <==> forall u :: u in after ==> u in done
  {
    if after != [] {
      PendingZero(after[1..], done);
      assert after == [after[0]] + after[1..];
    }
  }

  lemma {:induction false} PendingAll(after: seq<string>)
    ensures Pending(after, {}) == |after|
  {
    if after != [] {
      PendingAll(after[1..]);
    }
  }

  lemma {:induction false} OccAppend(xs: seq<string>, y: string, x: string)
    ensures Occ(xs + [y], x) == Occ(xs, x) + if y == x then 1 else 0
  {
    if xs == [] {
      assert xs + [y] == [y];
    } else {
      assert (xs + [y])[0] == xs[0] && (xs + [y])[1..] == xs[1..] + [y];
      OccAppend(xs[1..], y, x);
    }
  }

  // ---------- Cycles ----------

  ghost predicate NoRepeats(p: seq<string>)
  {
    forall i, j :: 0 <= i < j < |p| ==> p[i] != p[j]
  }

  lemma ChainFrom(ss: seq<System>, p: seq<string>, i: nat)
    requires Chain(ss, p) && i <= |p|
    ensures Chain(ss, p[i..])
  {
    forall k | 0 <= k < |p[i..]| - 1
      ensures DependsOn(ss, p[i..][k], p[i..][k + 1])
    {
      assert DependsOn(ss, p[i + k], p[i + k + 1]);
    }
  }

  lemma ChainOn(ss: seq<System>, p: seq<string>, u: string)
    requires p != [] && Chain(ss, p) && DependsOn(ss, p[|p| - 1], u)
    ensures Chain(ss, p + [u])
  {
    var q := p + [u];
    forall k | 0 <= k < |q| - 1
      ensures DependsOn(ss, q[k], q[k + 1])
    {
      if k < |p| - 1 {
        assert DependsOn(ss, p[k], p[k + 1]);
      }
    }
  }

  ghost predicate WaitsIn(ss: seq<System>, left: set<string>, v: string)
  {
    exists u :: u in left && DependsOn(ss, v, u)
  }

  ghost predicate AllWait(ss: seq<System>, left: set<string>)
  {
    forall v {:trigger WaitsIn(ss, left, v)} :: v in left ==> WaitsIn(ss, left, v)
  }

  /** Among systems each of which depends on another of them, there is a cycle. */
  lemma {:induction false} FindCycle(ss: seq<System>, left: set<string>, path: seq<string>)
    requires path != [] && (forall v :: v in path ==> v in left) && NoRepeats(path) && Chain(ss, path)
    requires AllWait(ss, left)
    ensures HasCycle(ss)
    decreases |left| - |path|
  {
    var v := path[|path| - 1];
    assert v in path && WaitsIn(ss, left, v);
    var u :| u in left && DependsOn(ss, v, u);
    if u in path {
      CloseCycle(ss, path, u);
    } else {
      ChainOn(ss, path, u);
      PathBound(left, path + [u]);
      FindCycle(ss, left, path + [u]);
    }
  }

  lemma CloseCycle(ss: seq<System>, path: seq<string>, u: string)
    requires path != [] && Chain(ss, path) && DependsOn(ss, path[|path| - 1], u) && u in path
    ensures HasCycle(ss)
  {
    var i :| 0 <= i < |path| && path[i] == u;
    ChainFrom(ss, path, i);
    assert IsCycle(ss, path[i..]);
  }

  lemma {:induction false} PathBound(left: set<string>, path: seq<string>)
    requires (forall v :: v in path ==> v in left) && NoRepeats(path)
    ensures |path| <= |left|
    decreases |path|
  {
    if path != [] {
      var n := |path| - 1;
      assert path[n] in path;
      forall v | v in path[..n]
        ensures v in left - {path[n]}
      {
        var i :| 0 <= i < n && path[i] == v;
        assert path[i] in path;
      }
      PathBound(left - {path[n]}, path[..n]);
    }
  }

  /** Where an id stands in an order. */
  ghost function Position(order: seq<System>, id: string): nat
    ensures Position(order, id) <= |order|
    ensures Position(order, id) < |order| ==> order[Position(order, id)].id == id
    ensures forall i :: 0 <= i < Position(order, id) ==> order[i].id != id
  {
    if order == [] then 0 else if order[0].id == id then 0
    else
      var k := Position(order[1..], id);
      assert forall i :: 0 < i < k + 1 ==> order[i] == order[1..][i - 1];
      1 + k
  }

  lemma DependencyStandsBefore(ss: seq<System>, order: seq<System>, v: string, u: string)
    requires DistinctIds(order) && Respects(order) && (forall s :: s in ss ==> s in order)
    requires DependsOn(ss, v, u)
    ensures Position(order, u) < Position(order, v) < |order|
  {
    var i :| 0 <= i < |ss| && ss[i].id == v && u in ss[i].after;
    assert ss[i] in ss;
    var k :| 0 <= k < |order| && order[k] == ss[i];
    assert Position(order, v) == k;
    assert u in IdsOf(order[..k]);
    var j :| 0 <= j < k && order[..k][j].id == u;
    assert order[j].id == u;
  }

  /** Along a chain of dependencies positions only fall. */
  lemma {:induction false} ChainDescends(ss: seq<System>, order: seq<System>, p: seq<string>)
    requires DistinctIds(order) && Respects(order) && (forall s :: s in ss ==> s in order)
    requires p != [] && Chain(ss, p)
    ensures Position(order, p[|p| - 1]) <= Position(order, p[0])
    decreases |p|
  {
    if |p| > 1 {
      DependencyStandsBefore(ss, order, p[0], p[1]);
      ChainFrom(ss, p, 1);
      ChainDescends(ss, order, p[1..]);
    }
  }

  /** An order that respects the dependencies leaves no cycle. */
  lemma OrderedHasNoCycle(ss: seq<System>, order: seq<System>)
    requires DistinctIds(order) && Respects(order) && (forall s :: s in ss ==> s in order)
    ensures !HasCycle(ss)
  {
    forall p | IsCycle(ss, p)
      ensures false
    {
      ChainDescends(ss, order, p);
      DependencyStandsBefore(ss, order, p[|p| - 1], p[0]);
    }
  }
}
