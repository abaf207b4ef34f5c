/**
 When starting a module ends at all (internal/module/manager.go).  Dependencies are stored unchecked,
 so they may run in circles; a module counts as Running only after its dependencies, so a circle of
 modules that are not Running has the recursion go on for ever.

 `StartAll` is the recursion with nothing refused and every container found, cut off at a depth.
 */
module ModuleRecursion {
  import opened Common
  import opened ModuleStarter

  /** StartModule, or None when more than `depth` calls are nested in one another. */
  ghost function StartAll(store: Store, id: Id, depth: nat): Option<Store>
    decreases depth, 0
  {
    if depth == 0 || id !in store then None
    else
      // without a container the module is created first, and is Stopped after that
      match StartDeps(Begun(store, id, store[id].containerId != ""), store[id].deps, |store[id].deps|, depth - 1)
      case None => None
      case Some(s) => Some(s[id := store[id].(status := Running)])
  }

  /** The loop over the first `n` dependencies. */
  ghost function StartDeps(store: Store, deps: seq<Option<Dep>>, n: nat, depth: nat): Option<Store>
    requires n <= |deps|
    decreases depth, 1, n
  {
    if n == 0 then Some(store)
    else match StartDeps(store, deps, n - 1, depth)
      case None => None
      case Some(s) =>
        var dep := deps[n - 1];
        if dep.None? || dep.value.target == "" || IsRunning(s, dep.value.target) then Some(s)
        else StartAll(s, dep.value.target, depth)
  }

  ghost predicate Ends(store: Store, id: Id) {
    exists depth :: StartAll(store, id, depth).Some?
  }

  /** What `id` sees of the store when it turns to its dependencies. */
  function Seen(store: Store, id: Id): Store
    requires id in store
  {
    Begun(store, id, store[id].containerId != "")
  }

  ghost predicate AllStored(store: Store) {
    forall m, d :: Edge(Deps(store), m, d) ==> d in store
  }

  // ---------- what the recursion keeps ----------

  /** `after` comes from `before` by modules becoming Running. */
  ghost predicate Grows(before: Store, after: Store) {
    Deps(after) == Deps(before) && forall m :: IsRunning(before, m) ==> IsRunning(after, m)
  }

  lemma {:induction false} SeenFacts(store: Store, id: Id)
    requires id in store
    ensures Deps(Seen(store, id)) == Deps(store)
    ensures forall m :: IsRunning(Seen(store, id), m) ==> IsRunning(store, m)
    ensures !IsRunning(store, id) ==> forall m :: IsRunning(Seen(store, id), m) <==> IsRunning(store, m)
    ensures forall m :: m != id && IsRunning(store, m) ==> IsRunning(Seen(store, id), m)
  {
    BegunDeps(store, id, store[id].containerId != "");
  }

  lemma {:induction false} RunLast(store: Store, s: Store, id: Id)
    requires id in store && Grows(Seen(store, id), s)
    ensures var after := s[id := store[id].(status := Running)];
            Grows(s, after) && Grows(store, after) && IsRunning(after, id)
            && forall m :: IsRunning(after, m) <==> m == id || IsRunning(s, m)
  {
    SeenFacts(store, id);
    var after := s[id := store[id].(status := Running)];
    assert id in Deps(s) && Deps(s)[id] == store[id].deps;
    assert Deps(after) == Deps(s);
  }

  lemma {:induction false} StartAllGrows(store: Store, id: Id, depth: nat)
    ensures StartAll(store, id, depth).Some? ==>
              Grows(store, StartAll(store, id, depth).value) && IsRunning(StartAll(store, id, depth).value, id)
    decreases depth, 0
  {
    hide Begun, IsRunning, Deps, Grows;
    if StartAll(store, id, depth).Some? {
      StartDepsGrows(Seen(store, id), store[id].deps, |store[id].deps|, depth - 1);
      RunLast(store, StartDeps(Seen(store, id), store[id].deps, |store[id].deps|, depth - 1).value, id);
    }
  }

  lemma {:induction false} StartDepsGrows(store: Store, deps: seq<Option<Dep>>, n: nat, depth: nat)
    requires n <= |deps|
    ensures StartDeps(store, deps, n, depth).Some? ==> Grows(store, StartDeps(store, deps, n, depth).value)
    decreases depth, 1, n
  {
    hide StartAll, Deps, IsRunning;
    if n > 0 {
      StartDepsGrows(store, deps, n - 1, depth);
      var before := StartDeps(store, deps, n - 1, depth);
      if before.Some? && deps[n - 1].Some? {
        StartAllGrows(before.value, deps[n - 1].value.target, depth);
      }
    }
  }

  // ---------- a circle has no end ----------

  ghost predicate Needs(store: Store, m: Id, all: set<Id>) {
    exists d :: d in all && Edge(Deps(store), m, d)
  }

  /** Nobody in the set is Running, and everybody needs another one of it. */
  ghost predicate Stuck(store: Store, all: set<Id>) {
    forall m :: m in all ==> !IsRunning(store, m) && Needs(store, m, all)
  }

  ghost predicate NamesNone(deps: seq<Option<Dep>>, n: nat, all: set<Id>)
    requires n <= |deps|
  {
    forall k, d :: 0 <= k < n && d in all ==> !Names(deps[k], d)
  }

  lemma {:induction false} NeedsSame(a: Store, b: Store, all: set<Id>)
    requires Deps(a) == Deps(b)
    ensures forall m :: Needs(a, m, all) <==> Needs(b, m, all)
  {
  }

  lemma {:induction false} NeedsNone(store: Store, id: Id, all: set<Id>)
    requires id in store
    ensures NamesNone(store[id].deps, |store[id].deps|, all) <==> !Needs(store, id, all)
  {
    if !NamesNone(store[id].deps, |store[id].deps|, all) {
      var k, d :| 0 <= k < |store[id].deps| && d in all && Names(store[id].deps[k], d);
      assert Names(Deps(store)[id][k], d);
      assert Edge(Deps(store), id, d);
    }
  }

  lemma {:induction false} SeenStuck(store: Store, id: Id, all: set<Id>)
    requires id in store && Stuck(store, all)
    ensures Stuck(Seen(store, id), all)
  {
    SeenFacts(store, id);
    NeedsSame(store, Seen(store, id), all);
    hide Seen, Needs, IsRunning;
  }

  lemma {:induction false} RunStuck(store: Store, s: Store, id: Id, all: set<Id>)
    requires id in store && Grows(Seen(store, id), s) && Stuck(s, all) && id !in all
    ensures Stuck(s[id := store[id].(status := Running)], all)
  {
    var after := s[id := store[id].(status := Running)];
    RunLast(store, s, id);
    NeedsSame(s, after, all);
    hide Needs, Seen;
  }

  lemma {:induction false} MembersNeed(store: Store, m: Id, all: set<Id>)
    requires Stuck(store, all) && !Needs(store, m, all)
    ensures m !in all
  {
    hide Needs;
  }

  /** A call that ends leaves the set stuck, so the module it started needs nobody in it. */
  lemma {:induction false} StartAllStuck(store: Store, id: Id, depth: nat, all: set<Id>)
    requires Stuck(store, all)
    ensures StartAll(store, id, depth).Some? ==> Stuck(StartAll(store, id, depth).value, all) && !Needs(store, id, all)
    decreases depth, 0
  {
    hide Stuck, Needs, NamesNone, Begun, IsRunning, Grows, StartDeps, Edge, Names;
    if StartAll(store, id, depth).Some? {
      var seen, deps := Seen(store, id), store[id].deps;
      SeenStuck(store, id, all);
      StartDepsStuck(seen, deps, |deps|, depth - 1, all);
      StartDepsGrows(seen, deps, |deps|, depth - 1);
      NeedsNone(store, id, all);
      MembersNeed(store, id, all);
      RunStuck(store, StartDeps(seen, deps, |deps|, depth - 1).value, id, all);
    }
  }

  lemma {:induction false} StartDepsStuck(store: Store, deps: seq<Option<Dep>>, n: nat, depth: nat, all: set<Id>)
    requires Stuck(store, all) && n <= |deps|
    ensures StartDeps(store, deps, n, depth).Some? ==> Stuck(StartDeps(store, deps, n, depth).value, all) && NamesNone(deps, n, all)
    decreases depth, 1, n
  {
    hide StartAll, Needs, IsRunning;
    if n > 0 {
      StartDepsStuck(store, deps, n - 1, depth, all);
      var before := StartDeps(store, deps, n - 1, depth);
      if before.Some? && deps[n - 1].Some? {
        StartAllStuck(before.value, deps[n - 1].value.target, depth, all);
      }
    }
  }

  function Tail(w: seq<Id>, j: nat): set<Id>
    requires j < |w|
  {
    set k | 1 <= k <= j :: w[k]
  }

  /** The modules of a circle after the first are such a set. */
  lemma {:induction false} CircleIsStuck(store: Store, id: Id, w: seq<Id>, i: nat, j: nat)
    requires WaitingFrom(store, w, id) && i < j < |w| && w[i] == w[j]
    ensures Stuck(store, Tail(w, j)) && Needs(store, id, Tail(w, j))
  {
    hide Needs;
    forall m | m in Tail(w, j) ensures !IsRunning(store, m) && Needs(store, m, Tail(w, j)) {
      var k :| 1 <= k <= j && w[k] == m;
      NextNeeded(store, id, w, if k == j then i else k, j);
    }
    NextNeeded(store, id, w, 0, j);
  }

  lemma {:induction false} NextNeeded(store: Store, id: Id, w: seq<Id>, k: nat, j: nat)
    requires WaitingFrom(store, w, id) && k < j < |w|
    ensures Needs(store, w[k], Tail(w, j))
  {
    hide Edge, IsRunning;
    assert Edge(Deps(store), w[k], w[k + 1]);
    assert w[k + 1] in Tail(w, j);
  }

  lemma {:induction false} CircleNeverEnds(store: Store, id: Id)
    requires id in store && RunsInCircle(Seen(store, id), id)
    ensures !Ends(store, id)
  {
    hide Needs, Stuck, IsRunning, Begun, WaitingFrom, Seen;
    var w, i, j :| WaitingFrom(Seen(store, id), w, id) && 0 <= i < j < |w| && w[i] == w[j];
    CircleIsStuck(Seen(store, id), id, w, i, j);
    SeenFacts(store, id);
    NeedsSame(store, Seen(store, id), Tail(w, j));
    forall depth ensures StartAll(store, id, depth).None? {
      StuckBelow(store, id, depth, Tail(w, j));
    }
  }

  lemma {:induction false} StuckBelow(store: Store, id: Id, depth: nat, all: set<Id>)
    requires id in store && Stuck(Seen(store, id), all) && Needs(store, id, all)
    ensures StartAll(store, id, depth).None?
  {
    hide Stuck, Needs, NamesNone, Begun, IsRunning, StartDeps;
    if depth > 0 {
      StartDepsStuck(Seen(store, id), store[id].deps, |store[id].deps|, depth - 1, all);
      NeedsNone(store, id, all);
    }
  }

  // ---------- without one there is an end ----------

  lemma {:induction false} RankedEnds(store: Store, id: Id, rank: map<Id, nat>, depth: nat)
    requires id in store && AllStored(store) && id in rank && rank[id] < depth
    requires WaitRanked(Seen(store, id), rank)
    ensures StartAll(store, id, depth).Some?
    decreases depth, 0
  {
    hide Begun, IsRunning, StartDeps;
    var seen, deps := Seen(store, id), store[id].deps;
    SeenFacts(store, id);
    forall k, d | 0 <= k < |deps| && Names(deps[k], d) ensures d in seen && (IsRunning(seen, d) || (d in rank && rank[d] < depth - 1)) {
      assert Edge(Deps(store), id, d);
      assert d in Deps(seen);
    }
    hide Edge, Names, WaitRanked;
    assert AllStored(seen) by { StoredSame(store, seen); }
    RankedDepsEnd(seen, deps, |deps|, rank, depth - 1);
  }

  lemma {:induction false} StoredSame(a: Store, b: Store)
    requires Deps(a) == Deps(b) && AllStored(a)
    ensures AllStored(b)
  {
    assert forall d :: d in a <==> d in Deps(a);
    assert forall d :: d in b <==> d in Deps(b);
    hide Edge;
  }

  lemma {:induction false} RankedDepsEnd(store: Store, deps: seq<Option<Dep>>, n: nat, rank: map<Id, nat>, depth: nat)
    requires n <= |deps| && AllStored(store) && WaitRanked(store, rank)
    requires forall k, d :: 0 <= k < |deps| && Names(deps[k], d) ==>
                              d in store && (IsRunning(store, d) || (d in rank && rank[d] < depth))
    ensures StartDeps(store, deps, n, depth).Some?
    decreases depth, 1, n
  {
    hide StartAll, Edge;
    if n > 0 {
      RankedDepsEnd(store, deps, n - 1, rank, depth);
      StartDepsGrows(store, deps, n - 1, depth);
      var s := StartDeps(store, deps, n - 1, depth).value;
      var dep := deps[n - 1];
      if dep.Some? && dep.value.target != "" && !IsRunning(s, dep.value.target) {
        assert Names(dep, dep.value.target);
        RankedLater(store, s, dep.value.target, rank);
        RankedEnds(s, dep.value.target, rank, depth);
      }
    }
  }

  lemma {:induction false} RankedLater(store: Store, s: Store, d: Id, rank: map<Id, nat>)
    requires Grows(store, s) && AllStored(store) && WaitRanked(store, rank) && d in store && d in rank && !IsRunning(s, d)
    ensures d in s && AllStored(s) && WaitRanked(Seen(s, d), rank)
  {
    assert d in Deps(store) && d in Deps(s);
    StoredSame(store, s);
    SeenFacts(s, d);
    hide Edge, Seen, IsRunning;
  }

  /**
   With nothing refused and every container found, starting a module ends exactly when no chain of
   dependencies from it, all modules after the first not Running, returns to where it has been.
   */
  lemma {:induction false} EndsIffNoCircle(store: Store, id: Id)
    requires id in store && AllStored(store)
    ensures Ends(store, id) <==> !RunsInCircle(Seen(store, id), id)
  {
    hide Edge, IsRunning, Begun, Seen, RunsInCircle, WaitingRank, StartAll;
    if RunsInCircle(Seen(store, id), id) {
      CircleNeverEnds(store, id);
    } else {
      var rank := WaitingRank(Seen(store, id), id);
      WaitingRankFalls(Seen(store, id), id);
      RankedEnds(store, id, rank, rank[id] + 1);
    }
  }

  /** Where nothing is Running yet every start ends exactly when the stored dependencies form no cycle. */
  lemma {:induction false} AllEndIffAcyclic(store: Store)
    requires AllStored(store) && forall m :: !IsRunning(store, m)
    ensures Acyclic(Deps(store)) <==> forall id :: id in store ==> Ends(store, id)
  {
    hide Edge, IsRunning, Seen, Ends, RunsInCircle;
    forall id | id in store ensures Ends(store, id) <==> !RunsInCircle(Seen(store, id), id) {
      EndsIffNoCircle(store, id);
    }
    if Acyclic(Deps(store)) {
      forall id | id in store ensures !RunsInCircle(Seen(store, id), id) {
        AcyclicHasNoCircle(store, id);
      }
    } else {
      var p, id :| Walk(Deps(store), p, id, id) && |p| != 1;
      CycleIsCircle(store, p, id);
    }
  }

  lemma {:induction false} AcyclicHasNoCircle(store: Store, id: Id)
    requires id in store && Acyclic(Deps(store))
    ensures !RunsInCircle(Seen(store, id), id)
  {
    SeenFacts(store, id);
    hide Edge, IsRunning, Seen;
    if w, i, j :| WaitingFrom(Seen(store, id), w, id) && 0 <= i < j < |w| && w[i] == w[j] {
      var p := w[i..j + 1];
      forall k | 0 <= k < |p| - 1 ensures Edge(Deps(store), p[k], p[k + 1]) {
        assert Edge(Deps(store), w[i + k], w[i + k + 1]);
      }
      assert Walk(Deps(store), p, w[i], w[i]);
    }
  }

  lemma {:induction false} CycleIsCircle(store: Store, p: seq<Id>, id: Id)
    requires Walk(Deps(store), p, id, id) && |p| != 1 && forall m :: !IsRunning(store, m)
    ensures id in store && RunsInCircle(Seen(store, id), id)
  {
    assert Edge(Deps(store), p[0], p[1]);
    SeenFacts(store, id);
    hide Edge, Seen;
    assert WaitingFrom(Seen(store, id), p, id);
    assert p[0] == p[|p| - 1];
  }

  // ---------- what it leaves ----------

  ghost predicate AllDepsRunning(store: Store, m: Id) {
    forall d :: Edge(Deps(store), m, d) ==> IsRunning(store, d)
  }

  /** What became Running was waited for by `id`, and all it depends on is Running. */
  ghost predicate Fills(before: Store, after: Store, id: Id) {
    forall m :: IsRunning(after, m) && !IsRunning(before, m) ==> Waits(before, id, m) && AllDepsRunning(after, m)
  }

  lemma {:induction false} DepsStayRunning(a: Store, b: Store, m: Id)
    requires Grows(a, b) && AllDepsRunning(a, m)
    ensures AllDepsRunning(b, m)
  {
    hide Edge, IsRunning;
  }

  /** One more dependency, seen from the module that needs it. */
  lemma {:induction false} FillsMore(seen: Store, s: Store, after: Store, id: Id, d: Id)
    requires Grows(seen, s) && Fills(seen, s, id) && Edge(Deps(seen), id, d) && d in s && !IsRunning(s, d)
    requires Grows(s, after) && Fills(Seen(s, d), after, d)
    ensures Fills(seen, after, id)
  {
    SeenFacts(s, d);
    hide Edge, IsRunning, Seen, Waits;
    forall m | IsRunning(after, m) && !IsRunning(seen, m) ensures Waits(seen, id, m) && AllDepsRunning(after, m) {
      if IsRunning(s, m) {
        DepsStayRunning(s, after, m);
      } else {
        SameRunning(seen, s, d);
        WaitsAllBefore(seen, Seen(s, d), d, m);
        WaitsThrough(seen, id, d, m);
      }
    }
  }

  lemma {:induction false} SameRunning(seen: Store, s: Store, d: Id)
    requires Grows(seen, s) && d in s && !IsRunning(s, d)
    ensures forall y :: IsRunning(seen, y) ==> IsRunning(Seen(s, d), y)
    ensures Deps(seen) == Deps(Seen(s, d))
  {
    SeenFacts(s, d);
    hide Seen, IsRunning;
  }

  ghost predicate NamedRunning(store: Store, deps: seq<Option<Dep>>, n: nat)
    requires n <= |deps|
  {
    forall k, d :: 0 <= k < n && Names(deps[k], d) ==> IsRunning(store, d)
  }

  lemma {:induction false} StartDepsFills(seen: Store, id: Id, deps: seq<Option<Dep>>, n: nat, depth: nat)
    requires id in seen && deps == seen[id].deps && n <= |deps|
    ensures StartDeps(seen, deps, n, depth).Some? ==>
              Fills(seen, StartDeps(seen, deps, n, depth).value, id) && NamedRunning(StartDeps(seen, deps, n, depth).value, deps, n)
    decreases depth, 1, n
  {
    hide StartAll, Edge, IsRunning, Fills;
    if n == 0 {
      FillsNothing(seen, id);
    } else {
      StartDepsFills(seen, id, deps, n - 1, depth);
      StartDepsGrows(seen, deps, n - 1, depth);
      var before, dep := StartDeps(seen, deps, n - 1, depth), deps[n - 1];
      if before.Some? && dep.Some? && dep.value.target != "" && !IsRunning(before.value, dep.value.target) {
        EdgeOf(seen, id, n - 1, dep.value.target);
        var result := StartAll(before.value, dep.value.target, depth);
        if result.Some? {
          StartAllFills(before.value, dep.value.target, depth);
          StartAllGrows(before.value, dep.value.target, depth);
          FillsMore(seen, before.value, result.value, id, dep.value.target);
        }
      }
    }
  }

  lemma {:induction false} FillsNothing(seen: Store, id: Id)
    ensures Fills(seen, seen, id)
  {
  }

  lemma {:induction false} StartAllFills(store: Store, id: Id, depth: nat)
    ensures StartAll(store, id, depth).Some? ==>
              id in store && Fills(Seen(store, id), StartAll(store, id, depth).value, id)
              && AllDepsRunning(StartAll(store, id, depth).value, id)
    decreases depth, 0
  {
    if StartAll(store, id, depth).Some? {
      SeenFacts(store, id);
      var seen := Seen(store, id);
      assert id in Deps(seen) && Deps(seen)[id] == Deps(store)[id];
      hide Edge, IsRunning, Begun, StartDeps, Names, Waits;
      var deps := store[id].deps;
      StartDepsFills(seen, id, deps, |deps|, depth - 1);
      StartDepsGrows(seen, deps, |deps|, depth - 1);
      var s := StartDeps(seen, deps, |deps|, depth - 1).value;
      RunLast(store, s, id);
      FillsLast(seen, s, s[id := store[id].(status := Running)], id);
    }
  }

  lemma {:induction false} FillsLast(seen: Store, s: Store, after: Store, id: Id)
    requires id in seen && Grows(seen, s) && Fills(seen, s, id) && NamedRunning(s, seen[id].deps, |seen[id].deps|)
    requires Grows(s, after) && forall m :: IsRunning(after, m) <==> m == id || IsRunning(s, m)
    ensures Fills(seen, after, id) && AllDepsRunning(after, id)
  {
    forall d | Edge(Deps(after), id, d) ensures IsRunning(after, d) {
      var i :| 0 <= i < |Deps(after)[id]| && Names(Deps(after)[id][i], d);
      assert Names(seen[id].deps[i], d);
    }
    hide Edge, IsRunning, Waits;
    WaitsSelf(seen, id);
    forall m | IsRunning(after, m) && !IsRunning(seen, m) ensures Waits(seen, id, m) && AllDepsRunning(after, m) {
      if m != id {
        DepsStayRunning(s, after, m);
      }
    }
  }

  lemma {:induction false} ChainRuns(seen: Store, after: Store, id: Id, w: seq<Id>, i: nat)
    requires Grows(seen, after) && Fills(seen, after, id) && IsRunning(after, id) && AllDepsRunning(after, id)
    requires WaitingFrom(seen, w, id) && i < |w|
    ensures IsRunning(after, w[i]) && AllDepsRunning(after, w[i])
    decreases i
  {
    hide Edge, Waits, IsRunning;
    if i > 0 {
      ChainRuns(seen, after, id, w, i - 1);
      assert Edge(Deps(seen), w[i - 1], w[i - 1 + 1]);
    }
  }

  /** Where the recursion ends it leaves Running exactly what was Running or waited for, as the methods do. */
  lemma {:induction false} LeavesWaitedForRunning(store: Store, id: Id, depth: nat, m: Id)
    requires id in store && StartAll(store, id, depth).Some?
    ensures IsRunning(StartAll(store, id, depth).value, m) <==> IsRunning(store, m) || Waits(store, id, m)
  {
    var seen, after := Seen(store, id), StartAll(store, id, depth).value;
    StartAllFills(store, id, depth);
    StartAllGrows(store, id, depth);
    SeenFacts(store, id);
    hide Edge, IsRunning, StartAll, Seen, Begun;
    WaitsSelf(store, id);
    if Waits(store, id, m) {
      var w :| WaitingFrom(store, w, id) && w[|w| - 1] == m;
      assert WaitingFrom(seen, w, id);
      ChainRuns(seen, after, id, w, |w| - 1);
    }
    if IsRunning(after, m) && !IsRunning(store, m) {
      WaitsBefore(store, seen, id, m);
    }
  }

  // ---------- two modules that depend on each other ----------

  function Pair(a: Status, b: Status): Store {
    map["a" := Record("ca", a, [Some(Dep("b", false))]), "b" := Record("cb", b, [Some(Dep("a", false))])]
  }

  lemma {:induction false} PairEdges(a: Status, b: Status)
    ensures forall m, d :: Edge(Deps(Pair(a, b)), m, d) <==> (m == "a" && d == "b") || (m == "b" && d == "a")
  {
    var g := Deps(Pair(a, b));
    assert g["a"][0] == Some(Dep("b", false)) && g["b"][0] == Some(Dep("a", false));
    assert Names(g["a"][0], "b") && Names(g["b"][0], "a");
  }

  /** Starting one of a pair ends exactly when one of the two is Running already. */
  lemma {:induction false} PairEndsIff(a: Status, b: Status)
    ensures Ends(Pair(a, b), "a") <==> a == Running || b == Running
  {
    var store := Pair(a, b);
    PairEdges(a, b);
    hide Edge;
    assert Seen(store, "a") == store;
    EndsIffNoCircle(store, "a");
    hide Ends, Seen;
    if a != Running && b != Running {
      PairCircle(a, b);
    } else {
      PairRanked(a, b);
      NoCircleIffRanked(store, "a");
    }
  }

  lemma {:induction false} PairCircle(a: Status, b: Status)
    requires a != Running && b != Running
    ensures RunsInCircle(Pair(a, b), "a")
  {
    PairEdges(a, b);
    hide Edge;
    var w := ["a", "b", "a"];
    assert WaitingFrom(Pair(a, b), w, "a") && w[0] == w[2];
  }

  lemma {:induction false} PairRanked(a: Status, b: Status)
    requires a == Running || b == Running
    ensures exists rank :: WaitRanked(Pair(a, b), rank) && "a" in rank
  {
    PairEdges(a, b);
    hide Edge;
    var rank: map<Id, nat> := if b == Running then map["a" := 0] else map["a" := 1, "b" := 0];
    assert WaitRanked(Pair(a, b), rank);
  }
}
