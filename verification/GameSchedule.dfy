/** Building a scheduler, and the order it finds for the game's own systems. */
module GameSchedule {
  import opened Scheduler
  import opened TopologicalSort

  datatype Built = Built(order: map<nat, seq<System>>) | Failed(error: SortError)

  /** The systems of a phase, in the given order. */
  function OfPhase(ss: seq<System>, phase: nat): seq<System>
  {
    if ss == [] then []
    else
      var rest := OfPhase(ss[..|ss| - 1], phase);
      if ss[|ss| - 1].phase == phase then rest + [ss[|ss| - 1]] else rest
  }

  lemma {:induction false} OfPhaseDistinct(ss: seq<System>, phase: nat)
    requires DistinctIds(ss)
    ensures DistinctIds(OfPhase(ss, phase)) && forall s :: s in OfPhase(ss, phase) <==> s in ss && s.phase == phase
  {
    if ss != [] {
      var n := |ss| - 1;
      OfPhaseDistinct(ss[..n], phase);
      var rest := OfPhase(ss[..n], phase);
      forall i | 0 <= i < |rest|
        ensures rest[i].id != ss[n].id
      {
        assert rest[i] in rest;
        var j :| 0 <= j < n && ss[..n][j] == rest[i];
      }
    }
  }

  /** A phase has an order: its systems, each behind its dependencies. */
  ghost predicate PhaseOrdered(systems: seq<System>, order: map<nat, seq<System>>, phase: nat)
  {
    phase in order && multiset(order[phase]) == multiset(OfPhase(systems, phase)) && Respects(order[phase])
  }

  ghost predicate OrderedWell(systems: seq<System>, phases: seq<nat>, order: map<nat, seq<System>>)
  {
    forall p :: p in phases ==> PhaseOrdered(systems, order, p)
  }

  /** Two of the systems carry the id. */
  ghost predicate Repeated(systems: seq<System>, id: string)
  {
    exists i, j :: 0 <= i < j < |systems| && systems[i].id == id && systems[j].id == id
  }

  /** Why a scheduler cannot be built. */
  ghost predicate Justifies(systems: seq<System>, phases: seq<nat>, e: SortError)
  {
    match e
    case EmptyId => "" in IdsOf(systems)
    case DuplicateId(id) => Repeated(systems, id)
    case Cyclic => exists p :: p in phases && HasCycle(OfPhase(systems, p))
    case _ => exists p :: p in phases && Explains(OfPhase(systems, p), p, e)
  }

  /** Refuses an empty or repeated id. */
  method CheckIds(systems: seq<System>) returns (failed: bool, e: SortError)
    ensures !failed ==> DistinctIds(systems) && "" !in IdsOf(systems)
    ensures failed ==> (e == EmptyId && "" in IdsOf(systems)) || (e.DuplicateId? && Repeated(systems, e.systemId))
  {
    var seen: set<string> := {};
    var i := 0;
    while i < |systems|
      invariant i <= |systems| && DistinctIds(systems[..i]) && seen == IdsOf(systems[..i]) && "" !in seen
    {
      var id := systems[i].id;
      assert id in IdsOf(systems);
      if id == "" {
        return true, EmptyId;
      }
      if id in seen {
        var j :| 0 <= j < i && systems[..i][j].id == id;
        assert systems[j].id == systems[i].id;
        return true, DuplicateId(id);
      }
      assert systems[..i + 1] == systems[..i] + [systems[i]];
      AppendIds(systems[..i], systems[i]);
      forall k | 0 <= k < i
        ensures systems[k].id != id
      {
        assert systems[..i][k].id in IdsOf(systems[..i]);
      }
      seen := seen + {id};
      i := i + 1;
    }
    assert systems[..i] == systems;
    return false, Cyclic;
  }

  /** Groups the systems of a phase. */
  method Group(systems: seq<System>, phase: nat) returns (list: seq<System>)
    ensures list == OfPhase(systems, phase)
  {
    list := [];
    var i := 0;
    while i < |systems|
      invariant i <= |systems| && list == OfPhase(systems[..i], phase)
    {
      assert systems[..i + 1][..i] == systems[..i];
      if systems[i].phase == phase {
        list := list + [systems[i]];
      }
      i := i + 1;
    }
    assert systems[..i] == systems;
  }

  lemma NoEmptyIds(systems: seq<System>)
    ensures "" !in IdsOf(systems) <==> forall s :: s in systems ==> s.id != ""
  {
    forall s | s in systems
      ensures s.id in IdsOf(systems)
    {
      var i :| 0 <= i < |systems| && systems[i] == s;
    }
  }

  /** No system of a phase is left out of its order. */
  lemma SystemIsOrdered(systems: seq<System>, order: map<nat, seq<System>>, p: nat, s: System)
    requires DistinctIds(systems) && PhaseOrdered(systems, order, p) && s in systems && s.phase == p
    ensures s in order[p]
  {
    OfPhaseDistinct(systems, p);
    assert s in multiset(OfPhase(systems, p));
    assert s in multiset(order[p]);
  }

  // ---------- Either an order or a reason ----------

  lemma {:induction false} DistinctCount(ss: seq<System>, x: System)
    requires DistinctIds(ss)
    ensures multiset(ss)[x] <= 1
    decreases |ss|
  {
    if ss != [] {
      var n := |ss| - 1;
      assert ss == ss[..n] + [ss[n]];
      DistinctCount(ss[..n], x);
      if x == ss[n] {
        assert x !in ss[..n];
      }
    }
  }

  lemma TwiceCounts(order: seq<System>, i: nat, j: nat)
    requires i < j < |order| && order[i] == order[j]
    ensures multiset(order)[order[i]] >= 2
  {
    var a, b := order[..i + 1], order[i + 1..];
    assert order == a + b;
    assert a[i] == order[i] && b[j - i - 1] == order[i];
    assert order[i] in multiset(a) && order[i] in multiset(b);
  }

  lemma ReorderedIsDistinct(ss: seq<System>, order: seq<System>)
    requires DistinctIds(ss) && multiset(order) == multiset(ss)
    ensures DistinctIds(order) && forall s :: s in ss <==> s in order
  {
    forall s: System
      ensures s in ss <==> s in order
    {
      assert s in ss <==> s in multiset(ss);
      assert s in order <==> s in multiset(order);
    }
    forall i, j | 0 <= i < j < |order|
      ensures order[i].id != order[j].id
    {
      if order[i].id == order[j].id {
        assert order[i] in ss && order[j] in ss;
        TwiceCounts(order, i, j);
        DistinctCount(ss, order[i]);
      }
    }
  }

  lemma DependencyIsPresent(ss: seq<System>, order: seq<System>, p: nat, v: string, u: string)
    requires (forall s :: s in ss <==> s in order) && (forall s :: s in ss ==> s.phase == p) && Respects(order) && DependsOn(ss, v, u)
    ensures Present(ss, p, u)
  {
    var i :| 0 <= i < |ss| && ss[i].id == v && u in ss[i].after;
    assert ss[i] in order;
    var k :| 0 <= k < |order| && order[k] == ss[i];
    var m :| 0 <= m < k && order[..k][m].id == u;
    assert order[m] in ss;
    var j :| 0 <= j < |ss| && ss[j] == order[m];
  }

  /** In an order that respects them, every dependency is there. */
  lemma OrderedIsExplained(systems: seq<System>, order: map<nat, seq<System>>, p: nat, e: SortError)
    requires DistinctIds(systems) && PhaseOrdered(systems, order, p)
    ensures !Explains(OfPhase(systems, p), p, e) && !HasCycle(OfPhase(systems, p))
  {
    var ss := OfPhase(systems, p);
    OfPhaseDistinct(systems, p);
    ReorderedIsDistinct(ss, order[p]);
    OrderedHasNoCycle(ss, order[p]);
    forall v, u | DependsOn(ss, v, u)
      ensures Present(ss, p, u)
    {
      DependencyIsPresent(ss, order[p], p, v, u);
    }
  }

  /** Where there is an order, there is no reason to refuse one. */
  lemma OrderedIsNotRefused(systems: seq<System>, phases: seq<nat>, order: map<nat, seq<System>>, e: SortError)
    requires DistinctIds(systems) && "" !in IdsOf(systems) && OrderedWell(systems, phases, order)
    ensures !Justifies(systems, phases, e)
  {
    forall p | p in phases
      ensures !Explains(OfPhase(systems, p), p, e) && !HasCycle(OfPhase(systems, p))
    {
      OrderedIsExplained(systems, order, p, e);
    }
  }

  /** A dependency in another phase is reported as missing, never as one across phases. */
  lemma NeverAcrossPhases(systems: seq<System>, phases: seq<nat>, v: string, u: string)
    requires DistinctIds(systems)
    ensures !Justifies(systems, phases, CrossPhase(v, u))
  {
    forall p | p in phases
      ensures !Explains(OfPhase(systems, p), p, CrossPhase(v, u))
    {
      OfPhaseDistinct(systems, p);
      var ss := OfPhase(systems, p);
      if u in IdsOf(ss) {
        var j :| 0 <= j < |ss| && ss[j].id == u;
        assert ss[j] in ss;
        assert Present(ss, p, u);
      }
    }
  }

  lemma RefusedForItsPhase(systems: seq<System>, phases: seq<nat>, e: SortError)
    requires DistinctIds(systems) && Justifies(systems, phases, e)
    ensures !e.CrossPhase?
  {
    if e.CrossPhase? {
      NeverAcrossPhases(systems, phases, e.systemId, e.dependencyId);
    }
  }

  /** Builds the scheduler: an order per phase, or the reason there is none. */
  method NewScheduler(phases: seq<nat>, systems: seq<System>) returns (r: Built)
    ensures r.Built? ==> DistinctIds(systems) && (forall s :: s in systems ==> s.id != "") && OrderedWell(systems, phases, r.order)
    ensures r.Built? ==> forall p, s :: p in phases && s in systems && s.phase == p ==> p in r.order && s in r.order[p]
    ensures r.Failed? ==> Justifies(systems, phases, r.error) && !r.error.CrossPhase?
    ensures r.Built? <==> forall e :: !Justifies(systems, phases, e)
  {
    var failed, e := CheckIds(systems);
    if failed {
      assert Justifies(systems, phases, e);
      return Failed(e);
    }
    var order: map<nat, seq<System>> := map[];
    var k := 0;
    while k < |phases|
      invariant k <= |phases| && OrderedWell(systems, phases[..k], order)
    {
      var phase := phases[k];
      var list := Group(systems, phase);
      OfPhaseDistinct(systems, phase);
      var sorted := Sort(phase, list);
      if sorted.Err? {
        assert phase in phases && Justifies(systems, phases, sorted.error);
        RefusedForItsPhase(systems, phases, sorted.error);
        return Failed(sorted.error);
      }
      ghost var before := order;
      order := order[phase := sorted.order];
      forall p | p in phases[..k + 1]
        ensures PhaseOrdered(systems, order, p)
      {
        assert p != phase ==> p in phases[..k] && PhaseOrdered(systems, before, p);
      }
      k := k + 1;
    }
    assert phases[..k] == phases;
    NoEmptyIds(systems);
    forall p, s | p in phases && s in systems && s.phase == p
      ensures p in order && s in order[p]
    {
      SystemIsOrdered(systems, order, p, s);
    }
    forall e
      ensures !Justifies(systems, phases, e)
    {
      OrderedIsNotRefused(systems, phases, order, e);
    }
    return Built(order);
  }

  // ---------- The game's systems ----------

  const PHASE_SIMULATION: nat := 0

  /** The simulation systems in the order the application registers them. */
  const SIMULATION: seq<System> := [
    System("respawn", PHASE_SIMULATION, []),
    System("input_move", PHASE_SIMULATION, ["respawn"]),
    System("auto_shoot", PHASE_SIMULATION, ["input_move"]),
    System("bullet_move", PHASE_SIMULATION, ["auto_shoot"]),
    System("collision_damage", PHASE_SIMULATION, ["bullet_move"]),
    System("bullet_cleanup", PHASE_SIMULATION, ["collision_damage"])]

  /** Each system runs after the one before it. */
  ghost predicate IsLine(ss: seq<System>)
  {
    && DistinctIds(ss)
    && forall i :: 0 < i < |ss| ==> ss[i - 1].id in ss[i].after
  }

  /** The next in any respecting order of a line is not from beyond the next of the line. */
  lemma NotBeyond(ss: seq<System>, r: seq<System>, k: nat, j: nat)
    requires IsLine(ss) && Respects(r) && k < |r| && k < |ss| && r[..k] == ss[..k] && j < |ss| && ss[j] == r[k]
    ensures j <= k
  {
    if j > 0 {
      assert ss[j - 1].id in r[k].after;
      assert ss[j - 1].id in IdsOf(r[..k]);
      var i :| 0 <= i < k && r[..k][i].id == ss[j - 1].id;
      assert ss[..k][i] == ss[i];
    }
  }

  /** Nor is it one that has already come. */
  lemma NotBefore(ss: seq<System>, r: seq<System>, k: nat, j: nat)
    requires DistinctIds(ss) && multiset(r) == multiset(ss) && k < |r| && j < |r| && r[j] == r[k]
    ensures j >= k
  {
    SystemMultiset(ss);
    assert r == r[..k] + [r[k]] + r[k + 1..];
    assert multiset(r) == multiset(r[..k]) + multiset{r[k]} + multiset(r[k + 1..]);
    assert multiset(r)[r[k]] <= 1;
    assert multiset(r[..k])[r[k]] == 0;
    assert r[k] !in r[..k];
  }

  lemma NextInLine(ss: seq<System>, r: seq<System>, k: nat)
    requires IsLine(ss) && multiset(r) == multiset(ss) && Respects(r) && k < |r| && k < |ss| && r[..k] == ss[..k]
    ensures r[k] == ss[k]
  {
    assert r[k] in multiset(r);
    assert r[k] in ss;
    var j :| 0 <= j < |ss| && ss[j] == r[k];
    NotBeyond(ss, r, k, j);
    assert j < k ==> ss[..k][j] == r[..k][j] == r[j];
    NotBefore(ss, r, k, j);
  }

  lemma {:induction false} LinePrefix(ss: seq<System>, r: seq<System>, k: nat)
    requires IsLine(ss) && multiset(r) == multiset(ss) && Respects(r) && k <= |r| && k <= |ss|
    ensures r[..k] == ss[..k]
  {
    if k > 0 {
      LinePrefix(ss, r, k - 1);
      NextInLine(ss, r, k - 1);
      assert r[..k] == r[..k - 1] + [r[k - 1]] && ss[..k] == ss[..k - 1] + [ss[k - 1]];
    }
  }

  /** Whatever the sort returns for the game's systems is the registered order. */
  lemma GameOrderIsForced(r: seq<System>)
    requires multiset(r) == multiset(SIMULATION) && Respects(r)
    ensures r == SIMULATION
  {
    assert |r| == |multiset(r)| == |multiset(SIMULATION)| == |SIMULATION|;
    assert IsLine(SIMULATION);
    LinePrefix(SIMULATION, r, |r|);
    assert r[..|r|] == r && SIMULATION[..|r|] == SIMULATION;
  }
}
