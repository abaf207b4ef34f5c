/**
 Starting a module with its dependencies (internal/module/manager.go): `StartModule`,
 `CreateAndStartModule` and `StartDependencies` call each other over one mutable store.

 Docker, the database and the health checks are oracles: every one of them may fail at any call.
 The one thing assumed of them is that a container created during the call is found by the status
 check.  `log` records every request to start a container with the set of modules that the store
 called Running at that moment, `answers` what the oracles said before.
 */
module ModuleStarter {
  import opened Common

  type Id = string

  datatype Status = Stopped | Starting | Running | Stopping | Error | Creating

  datatype Dep = Dep(target: Id, waitForHealthy: bool)

  /** A stored module; `containerId` is empty when it has none, `deps` may hold nil entries. */
  datatype Record = Record(containerId: string, status: Status, deps: seq<Option<Dep>>)

  type Store = map<Id, Record>

  /** A request to start a container: what was Running by then, and how many answers had been given. */
  datatype Start = Start(id: Id, container: string, running: set<Id>, asked: nat)

  /** What others were asked and said; for a wait for health also what was Running at that moment. */
  datatype Answer =
    | Health(id: Id, ok: bool, running: set<Id>)
    | Presence(container: string, there: bool)
    | Template(id: Id, ok: bool)
    | Server(id: Id, ok: bool)
    | Creation(id: Id, made: Option<string>)

  /** Done; no container could be created, or it would not start; or anything else went wrong. */
  datatype Outcome = Started | Uncreated | Refused | Failed

  // ---------- the dependency graph ----------

  type Graph = map<Id, seq<Option<Dep>>>

  function Deps(store: Store): Graph {
    map m | m in store :: store[m].deps
  }

  predicate Names(dep: Option<Dep>, d: Id) {
    dep.Some? && dep.value.target == d && d != ""
  }

  ghost predicate Edge(g: Graph, m: Id, d: Id) {
    m in g && exists i :: 0 <= i < |g[m]| && Names(g[m][i], d)
  }

  /** `p` is a walk along dependency edges from `a` to `b`. */
  ghost predicate Walk(g: Graph, p: seq<Id>, a: Id, b: Id) {
    p != [] && p[0] == a && p[|p| - 1] == b && forall i :: 0 <= i < |p| - 1 ==> Edge(g, p[i], p[i + 1])
  }

  ghost predicate Reaches(g: Graph, a: Id, b: Id) {
    exists p :: Walk(g, p, a, b)
  }

  ghost predicate Acyclic(g: Graph) {
    forall p, m :: Walk(g, p, m, m) ==> |p| == 1
  }

  ghost predicate Ranked(g: Graph, rank: Id -> nat) {
    forall m, d :: Edge(g, m, d) ==> rank(d) < rank(m)
  }

  lemma {:induction false} ReachesSelf(g: Graph, a: Id)
    ensures Reaches(g, a, a)
  {
    assert Walk(g, [a], a, a);
  }

  lemma {:induction false} ReachesThrough(g: Graph, a: Id, d: Id, b: Id)
    requires Edge(g, a, d) && Reaches(g, d, b)
    ensures Reaches(g, a, b)
  {
    var p :| Walk(g, p, d, b);
    var q := [a] + p;
    forall i | 0 <= i < |q| - 1 ensures Edge(g, q[i], q[i + 1]) {
      if i > 0 {
        assert q[i] == p[i - 1] && q[i + 1] == p[i];
      }
    }
    assert Walk(g, q, a, b);
  }

  lemma {:induction false} RankFalls(g: Graph, rank: Id -> nat, p: seq<Id>, a: Id, b: Id)
    requires Ranked(g, rank) && Walk(g, p, a, b)
    ensures rank(b) <= rank(a)
    ensures |p| > 1 ==> rank(b) < rank(a)
    decreases |p|
  {
    if |p| > 1 {
      var q := p[1..];
      assert Edge(g, p[0], p[1]);
      forall i | 0 <= i < |q| - 1 ensures Edge(g, q[i], q[i + 1]) {
        assert Edge(g, p[i + 1], p[i + 2]);
      }
      RankFalls(g, rank, q, p[1], b);
    }
  }

  // ---------- acyclic graphs have ranks ----------

  ghost function Targets(g: Graph): set<Id> {
    set m, i | m in g && 0 <= i < |g[m]| && g[m][i].Some? :: g[m][i].value.target
  }

  /** Everything strictly below `m`. */
  ghost function Below(g: Graph, m: Id): set<Id> {
    set d | d in Targets(g) && exists c :: Edge(g, m, c) && Reaches(g, c, d)
  }

  lemma {:induction false} BelowShrinks(g: Graph, m: Id, d: Id)
    requires Acyclic(g) && Edge(g, m, d)
    ensures Below(g, d) < Below(g, m)
  {
    EdgeTarget(g, m, d);
    ReachesSelf(g, d);
    assert d in Below(g, m);
    forall x | x in Below(g, d) ensures x in Below(g, m) {
      var c :| Edge(g, d, c) && Reaches(g, c, x);
      ReachesThrough(g, d, c, x);
    }
    if d in Below(g, d) {
      var c :| Edge(g, d, c) && Reaches(g, c, d);
      NoWayBack(g, d, c);
    }
  }

  lemma {:induction false} EdgeTarget(g: Graph, m: Id, d: Id)
    requires Edge(g, m, d)
    ensures d in Targets(g)
  {
  }

  lemma {:induction false} NoWayBack(g: Graph, d: Id, c: Id)
    requires Acyclic(g) && Edge(g, d, c)
    ensures !Reaches(g, c, d)
  {
    if Reaches(g, c, d) {
      var p :| Walk(g, p, c, d);
      var q := [d] + p;
      forall i | 0 <= i < |q| - 1 ensures Edge(g, q[i], q[i + 1]) {
        if i > 0 {
          assert q[i] == p[i - 1] && q[i + 1] == p[i];
        }
      }
      assert Walk(g, q, d, d);
    }
  }

  ghost function Depth(g: Graph): Id -> nat {
    (m: Id) => |Below(g, m)|
  }

  /** A dependency graph is acyclic exactly when some rank falls along every edge. */
  lemma {:induction false} AcyclicIffRanked(g: Graph)
    ensures Acyclic(g) <==> exists rank :: Ranked(g, rank)
    ensures Acyclic(g) ==> Ranked(g, Depth(g))
  {
    if Acyclic(g) {
      forall m, d | Edge(g, m, d) ensures Depth(g)(d) < Depth(g)(m) {
        BelowShrinks(g, m, d);
        SubsetSize(Below(g, d), Below(g, m));
      }
      assert Ranked(g, Depth(g));
    }
    if exists rank :: Ranked(g, rank) {
      var rank :| Ranked(g, rank);
      forall p, m | Walk(g, p, m, m) ensures |p| == 1 {
        RankFalls(g, rank, p, m, m);
      }
    }
  }

  // ---------- who waits for whom ----------

  predicate IsRunning(store: Store, m: Id) {
    m in store && store[m].status == Running
  }

  function RunningSet(store: Store): set<Id> {
    set m | m in store && store[m].status == Running
  }

  /** A chain of dependency edges from `id`, all modules after the first not Running. */
  ghost predicate WaitingFrom(store: Store, w: seq<Id>, id: Id) {
    && w != [] && w[0] == id
    && (forall i :: 0 <= i < |w| - 1 ==> Edge(Deps(store), w[i], w[i + 1]))
    && (forall i :: 1 <= i < |w| ==> !IsRunning(store, w[i]))
  }

  /** Such a chain leads from `id` to `m`; starting `id` has to start `m` first. */
  ghost predicate Waits(store: Store, id: Id, m: Id) {
    exists w :: WaitingFrom(store, w, id) && w[|w| - 1] == m
  }

  /** Some chain returns to where it has been. */
  ghost predicate RunsInCircle(store: Store, id: Id) {
    exists w, i, j :: WaitingFrom(store, w, id) && 0 <= i < j < |w| && w[i] == w[j]
  }

  /** The rank falls along every edge into a module that is not Running. */
  ghost predicate WaitRanked(store: Store, rank: map<Id, nat>) {
    forall m, d :: m in rank && Edge(Deps(store), m, d) && !IsRunning(store, d) ==> d in rank && rank[d] < rank[m]
  }

  /** It also falls along every edge into `id`, so `id` may stop. */
  ghost predicate Guarded(store: Store, rank: map<Id, nat>, id: Id)
    requires id in rank
  {
    forall m :: m in rank && Edge(Deps(store), m, id) ==> rank[id] < rank[m]
  }

  lemma {:induction false} WaitsSelf(store: Store, id: Id)
    ensures Waits(store, id, id)
  {
    assert WaitingFrom(store, [id], id);
  }

  lemma {:induction false} WaitsThrough(store: Store, id: Id, d: Id, m: Id)
    requires Edge(Deps(store), id, d) && !IsRunning(store, d) && Waits(store, d, m)
    ensures Waits(store, id, m)
  {
    hide Edge;
    var w :| WaitingFrom(store, w, d) && w[|w| - 1] == m;
    var v := [id] + w;
    forall i | 0 <= i < |v| - 1 ensures Edge(Deps(store), v[i], v[i + 1]) {
      if i > 0 {
        assert v[i] == w[i - 1] && v[i + 1] == w[i];
      }
    }
    forall i | 1 <= i < |v| ensures !IsRunning(store, v[i]) {
      assert v[i] == w[i - 1];
    }
    assert WaitingFrom(store, v, id);
  }

  lemma {:induction false} WaitsFurther(store: Store, id: Id, m: Id, d: Id)
    requires Waits(store, id, m) && Edge(Deps(store), m, d) && !IsRunning(store, d)
    ensures Waits(store, id, d)
  {
    hide Edge;
    var w :| WaitingFrom(store, w, id) && w[|w| - 1] == m;
    var v := w + [d];
    forall i | 0 <= i < |v| - 1 ensures Edge(Deps(store), v[i], v[i + 1]) {
      if i < |w| - 1 {
        assert v[i] == w[i] && v[i + 1] == w[i + 1];
      }
    }
    assert WaitingFrom(store, v, id);
  }

  lemma {:induction false} WaitsReaches(store: Store, id: Id, m: Id)
    requires Waits(store, id, m)
    ensures Reaches(Deps(store), id, m)
  {
    hide Edge;
    var w :| WaitingFrom(store, w, id) && w[|w| - 1] == m;
    assert Walk(Deps(store), w, id, m);
  }

  lemma {:induction false} ChainFalls(store: Store, rank: map<Id, nat>, id: Id, w: seq<Id>, i: nat, j: nat)
    requires WaitRanked(store, rank) && id in rank && WaitingFrom(store, w, id) && i <= j < |w|
    ensures w[i] in rank && w[j] in rank
    ensures rank[w[j]] <= rank[w[i]] && (i < j ==> rank[w[j]] < rank[w[i]])
    decreases j
  {
    hide Edge, IsRunning;
    if j > 0 {
      ChainFalls(store, rank, id, w, if i < j then i else j - 1, j - 1);
      assert Edge(Deps(store), w[j - 1], w[j - 1 + 1]);
    }
  }

  lemma {:induction false} WaitsRank(store: Store, rank: map<Id, nat>, id: Id, m: Id)
    requires WaitRanked(store, rank) && id in rank && Waits(store, id, m)
    ensures m in rank && rank[m] <= rank[id]
  {
    var w :| WaitingFrom(store, w, id) && w[|w| - 1] == m;
    ChainFalls(store, rank, id, w, 0, |w| - 1);
  }

  /** What did not stop in between waits no more than before; of `id` itself that need not hold. */
  lemma {:induction false} WaitsBefore(a: Store, b: Store, id: Id, m: Id)
    requires Deps(a) == Deps(b) && Waits(b, id, m)
    requires forall y :: y != id && IsRunning(a, y) ==> IsRunning(b, y)
    ensures Waits(a, id, m)
  {
    var w :| WaitingFrom(b, w, id) && w[|w| - 1] == m;
    ChainBefore(a, b, id, w);
  }

  lemma {:induction false} ChainBefore(a: Store, b: Store, id: Id, w: seq<Id>)
    requires Deps(a) == Deps(b) && WaitingFrom(b, w, id)
    requires forall y :: y != id && IsRunning(a, y) ==> IsRunning(b, y)
    ensures Waits(a, id, w[|w| - 1])
    decreases |w|
  {
    hide Edge, IsRunning;
    if i :| 1 <= i < |w| && w[i] == id {
      var v := w[i..];
      forall k | 0 <= k < |v| - 1 ensures Edge(Deps(b), v[k], v[k + 1]) {
        assert v[k] == w[i + k] && v[k + 1] == w[i + k + 1];
      }
      assert WaitingFrom(b, v, id);
      ChainBefore(a, b, id, v);
    } else {
      assert WaitingFrom(a, w, id);
    }
  }

  /** The same for a module whose chains do not start at one that stopped. */
  lemma {:induction false} WaitsAllBefore(a: Store, b: Store, d: Id, m: Id)
    requires Deps(a) == Deps(b) && Waits(b, d, m) && forall y :: IsRunning(a, y) ==> IsRunning(b, y)
    ensures Waits(a, d, m)
  {
    hide IsRunning, Edge;
    var w :| WaitingFrom(b, w, d) && w[|w| - 1] == m;
    assert WaitingFrom(a, w, d);
  }

  lemma {:induction false} StillRanked(a: Store, b: Store, rank: map<Id, nat>, id: Id)
    requires Deps(a) == Deps(b) && WaitRanked(a, rank) && id in rank
    requires forall y :: y != id && IsRunning(a, y) ==> IsRunning(b, y)
    requires Guarded(a, rank, id) || (IsRunning(a, id) ==> IsRunning(b, id))
    ensures WaitRanked(b, rank)
    ensures Guarded(a, rank, id) ==> Guarded(b, rank, id)
  {
    hide Edge, IsRunning;
  }

  lemma {:induction false} NotRunningIsGuarded(a: Store, rank: map<Id, nat>, id: Id)
    requires WaitRanked(a, rank) && id in rank && !IsRunning(a, id)
    ensures Guarded(a, rank, id)
  {
    hide Edge;
  }

  // ---------- no circle, and a rank ----------

  /** The dependencies of `m` that are not Running. */
  function WaitingDeps(store: Store, m: Id): seq<Option<Dep>> {
    if m !in store then []
    else seq(|store[m].deps|, i requires 0 <= i < |store[m].deps| =>
               var dep := store[m].deps[i];
               if dep.Some? && IsRunning(store, dep.value.target) then None else dep)
  }

  /** Everything `id` waits for, with what each waits for. */
  ghost function WaitingGraph(store: Store, id: Id): Graph {
    map m | m in {id} + Targets(Deps(store)) && Waits(store, id, m) :: WaitingDeps(store, m)
  }

  lemma {:induction false} WaitingEdges(store: Store, m: Id, d: Id)
    ensures (exists i :: 0 <= i < |WaitingDeps(store, m)| && Names(WaitingDeps(store, m)[i], d))
            <==> Edge(Deps(store), m, d) && !IsRunning(store, d)
  {
    var deps := WaitingDeps(store, m);
    if Edge(Deps(store), m, d) && !IsRunning(store, d) {
      var i :| 0 <= i < |Deps(store)[m]| && Names(Deps(store)[m][i], d);
      assert Names(deps[i], d);
    }
    if i :| 0 <= i < |deps| && Names(deps[i], d) {
      assert Names(Deps(store)[m][i], d);
    }
  }

  lemma {:induction false} EdgeInWaitingGraph(store: Store, id: Id, m: Id, d: Id)
    ensures Edge(WaitingGraph(store, id), m, d)
            <==> m in WaitingGraph(store, id) && Edge(Deps(store), m, d) && !IsRunning(store, d)
  {
    WaitingEdges(store, m, d);
    hide WaitingDeps, IsRunning, Waits;
  }

  /** A walk in the waiting graph continues a chain. */
  lemma {:induction false} ChainThenWalk(store: Store, id: Id, w: seq<Id>, q: seq<Id>, m: Id)
    requires WaitingFrom(store, w, id) && w[|w| - 1] == m && Walk(WaitingGraph(store, id), q, m, m)
    ensures WaitingFrom(store, w + q[1..], id)
  {
    hide Edge, IsRunning, WaitingGraph;
    var v := w + q[1..];
    forall i | 0 <= i < |v| - 1 ensures Edge(Deps(store), v[i], v[i + 1]) {
      if i >= |w| - 1 {
        var k := i - |w| + 1;
        assert v[i] == q[k] && v[i + 1] == q[k + 1];
        EdgeInWaitingGraph(store, id, q[k], q[k + 1]);
      }
    }
    forall i | 1 <= i < |v| ensures !IsRunning(store, v[i]) {
      if i >= |w| {
        var k := i - |w|;
        assert v[i] == q[k + 1] && Edge(WaitingGraph(store, id), q[k], q[k + 1]);
        EdgeInWaitingGraph(store, id, q[k], q[k + 1]);
      }
    }
  }

  lemma {:induction false} WalkMakesCircle(store: Store, id: Id, q: seq<Id>, m: Id)
    requires Walk(WaitingGraph(store, id), q, m, m) && |q| > 1
    ensures RunsInCircle(store, id)
  {
    assert Edge(WaitingGraph(store, id), q[0], q[0 + 1]);
    assert Waits(store, id, m);
    var w :| WaitingFrom(store, w, id) && w[|w| - 1] == m;
    hide WaitingGraph, Edge, WaitingFrom;
    ChainThenWalk(store, id, w, q, m);
    var v := w + q[1..];
    assert v[|w| - 1] == v[|v| - 1];
  }

  lemma {:induction false} NoCircleIsAcyclic(store: Store, id: Id)
    requires !RunsInCircle(store, id)
    ensures Acyclic(WaitingGraph(store, id))
  {
    forall q, m | Walk(WaitingGraph(store, id), q, m, m) ensures |q| == 1 {
      if |q| > 1 {
        WalkMakesCircle(store, id, q, m);
      }
    }
  }

  ghost function WaitingRank(store: Store, id: Id): map<Id, nat> {
    map m | m in WaitingGraph(store, id) :: |Below(WaitingGraph(store, id), m)|
  }

  lemma {:induction false} WaitingRankFalls(store: Store, id: Id)
    requires !RunsInCircle(store, id)
    ensures id in WaitingRank(store, id) && WaitRanked(store, WaitingRank(store, id))
  {
    var g, rank := WaitingGraph(store, id), WaitingRank(store, id);
    WaitsSelf(store, id);
    NoCircleIsAcyclic(store, id);
    forall m, d | m in rank && Edge(Deps(store), m, d) && !IsRunning(store, d) ensures d in rank && rank[d] < rank[m] {
      EdgeTarget(Deps(store), m, d);
      WaitsFurther(store, id, m, d);
      EdgeInWaitingGraph(store, id, m, d);
      hide Edge, WaitingDeps, Below, Acyclic;
      BelowShrinks(g, m, d);
      SubsetSize(Below(g, d), Below(g, m));
    }
  }

  /** No chain from `id` runs in a circle exactly when some rank falls along all of them. */
  lemma {:induction false} NoCircleIffRanked(store: Store, id: Id)
    ensures !RunsInCircle(store, id) <==> exists rank :: WaitRanked(store, rank) && id in rank
  {
    hide WaitRanked, WaitingRank;
    if !RunsInCircle(store, id) {
      WaitingRankFalls(store, id);
    }
    if rank :| WaitRanked(store, rank) && id in rank {
      if w, i, j :| WaitingFrom(store, w, id) && 0 <= i < j < |w| && w[i] == w[j] {
        ChainFalls(store, rank, id, w, i, j);
      }
    }
  }

  // ---------- closure ----------

  /** Every dependency of a Running module is Running, or one of the exceptions `x`. */
  ghost predicate ClosedExcept(store: Store, x: set<Id>) {
    forall m, d :: IsRunning(store, m) && Edge(Deps(store), m, d) ==> d in x || IsRunning(store, d)
  }

  ghost predicate Closed(store: Store) {
    ClosedExcept(store, {})
  }

  /** Another module that is Running depends on `id`. */
  ghost predicate HasRunningDependent(store: Store, id: Id) {
    exists m :: m != id && IsRunning(store, m) && Edge(Deps(store), m, id)
  }

  /** From `before` to `after` only `id` and what it waits for changed, and no Running one but `id`. */
  ghost predicate Framed(before: Store, after: Store, id: Id) {
    && Deps(after) == Deps(before)
    && (forall m :: m != id && IsRunning(before, m) ==> m in after && after[m] == before[m])
    && (forall m :: m in before && m in after && after[m] != before[m] ==> Waits(before, id, m))
  }

  /** What one call may have logged while starting `id`. */
  ghost predicate Logged(before: Store, after: Store, starts: seq<Start>, id: Id, ok: bool) {
    && (forall k :: 0 <= k < |starts| ==> Waits(before, id, starts[k].id))
    && (forall k :: 0 <= k < |starts| && starts[k].id != id ==> !IsRunning(before, starts[k].id))
    && (forall k, d :: 0 <= k < |starts| && Edge(Deps(before), starts[k].id, d) ==> d in starts[k].running || d == starts[k].id)
    && (forall k :: 0 <= k < |starts| ==> starts[k].id !in starts[k].running)
    && (forall j, k :: 0 <= j < k < |starts| ==> starts[j].id != starts[k].id)
    && (ok ==> forall k :: 0 <= k < |starts| ==>
                 IsRunning(after, starts[k].id) && after[starts[k].id].containerId == starts[k].container)
  }

  lemma {:induction false} ClosedReaches(store: Store, p: seq<Id>, a: Id, b: Id)
    requires Closed(store) && IsRunning(store, a) && Walk(Deps(store), p, a, b)
    ensures IsRunning(store, b)
    decreases |p|
  {
    if |p| > 1 {
      var q := p[1..];
      assert Edge(Deps(store), p[0], p[1]);
      forall i | 0 <= i < |q| - 1 ensures Edge(Deps(store), q[i], q[i + 1]) {
        assert Edge(Deps(store), p[i + 1], p[i + 2]);
      }
      ClosedReaches(store, q, p[1], b);
    }
  }

  /** In a closed store everything a Running module transitively depends on is Running. */
  lemma {:induction false} ClosedMeansTransitive(store: Store, a: Id)
    requires Closed(store) && IsRunning(store, a)
    ensures forall b :: Reaches(Deps(store), a, b) ==> IsRunning(store, b)
  {
    forall b | Reaches(Deps(store), a, b) ensures IsRunning(store, b) {
      var p :| Walk(Deps(store), p, a, b);
      ClosedReaches(store, p, a, b);
    }
  }

  /** Starting a module that was not Running cannot break the closure around it: nobody it waits for needs it. */
  lemma {:induction false} ClosureSurvives(before: Store, after: Store, id: Id, x: set<Id>, rank: map<Id, nat>)
    requires WaitRanked(before, rank) && id in rank && !IsRunning(before, id) && Framed(before, after, id)
    requires ClosedExcept(after, x + {id})
    requires IsRunning(after, id) || !HasRunningDependent(before, id)
    ensures ClosedExcept(after, x)
  {
    forall m, d | IsRunning(after, m) && Edge(Deps(after), m, d)
      ensures d in x || IsRunning(after, d)
    {
      if d == id && !IsRunning(after, id) {
        assert !IsRunning(before, m);
        assert m in Deps(after);
        WaitsRank(before, rank, id, m);
      }
    }
  }

  lemma {:induction false} FirstWaited(store: Store, id: Id, m: Id)
    requires Waits(store, id, m) && m != id
    ensures exists d :: Edge(Deps(store), id, d) && !IsRunning(store, d)
  {
    hide Edge, IsRunning;
    var w :| WaitingFrom(store, w, id) && w[|w| - 1] == m;
    assert Edge(Deps(store), w[0], w[0 + 1]) && !IsRunning(store, w[1]);
  }

  lemma {:induction false} RunningWaitsForNothing(store: Store, id: Id, m: Id)
    requires ClosedExcept(store, {id}) && IsRunning(store, id) && Waits(store, id, m)
    ensures m == id
  {
    if m != id {
      FirstWaited(store, id, m);
    }
  }

  /** The closure after a call, decided by facts known before it and by how the call left `id`. */
  lemma {:induction false} ClosureExactly(before: Store, after: Store, id: Id, rank: map<Id, nat>)
    requires WaitRanked(before, rank) && id in rank && Framed(before, after, id)
    requires ClosedExcept(before, {id}) && ClosedExcept(after, {id})
    ensures Closed(after) <==> IsRunning(after, id) || !HasRunningDependent(before, id)
  {
    if IsRunning(after, id) || !HasRunningDependent(before, id) {
      assert {} + {id} == {id};
      if IsRunning(before, id) {
        RunningCannotBreak(before, after, id);
      } else {
        ClosureSurvives(before, after, id, {}, rank);
      }
    } else {
      var m :| m != id && IsRunning(before, m) && Edge(Deps(before), m, id);
      assert IsRunning(after, m) && Edge(Deps(after), m, id);
    }
  }

  lemma {:induction false} RunningCannotBreak(before: Store, after: Store, id: Id)
    requires IsRunning(before, id) && Framed(before, after, id) && ClosedExcept(before, {id}) && ClosedExcept(after, {id})
    requires IsRunning(after, id) || !HasRunningDependent(before, id)
    ensures Closed(after)
  {
    forall m, d | IsRunning(after, m) && Edge(Deps(after), m, d) ensures IsRunning(after, d) {
      if d == id && !IsRunning(after, id) {
        assert m != id;
        if !IsRunning(before, m) {
          assert m in Deps(after);
          RunningWaitsForNothing(before, id, m);
        }
      }
    }
  }

  // ---------- putting steps together ----------

  /** What every call for `id` guarantees about the store and the log; `x` is being started further up. */
  ghost predicate Sound(before: Store, after: Store, starts: seq<Start>, id: Id, x: set<Id>, ok: bool) {
    && Framed(before, after, id)
    && ClosedExcept(after, x + {id})
    && Logged(before, after, starts, id, ok)
  }

  /** What starting the dependencies of `id` guarantees: nothing Running is touched, nor is `id`. */
  ghost predicate SoundBelow(before: Store, after: Store, starts: seq<Start>, id: Id, x: set<Id>, ok: bool) {
    && Sound(before, after, starts, id, x, ok)
    && (forall m :: IsRunning(before, m) || m == id ==> (m in before <==> m in after) && (m in before ==> after[m] == before[m]))
    && (forall k :: 0 <= k < |starts| ==> starts[k].id != id)
  }

  lemma {:induction false} SoundNothing(a: Store, id: Id, x: set<Id>, ok: bool)
    requires ClosedExcept(a, x + {id})
    ensures SoundBelow(a, a, [], id, x, ok)
  {
  }

  /** A Running module whose dependencies cannot be exceptions has them all Running. */
  lemma {:induction false} RunningHasDependencies(a: Store, id: Id, x: set<Id>, rank: map<Id, nat>)
    requires WaitRanked(a, rank) && id in rank && ClosedExcept(a, x + {id})
    requires forall y :: y in x ==> y in rank && rank[id] < rank[y]
    requires IsRunning(a, id)
    ensures forall d :: Edge(Deps(a), id, d) ==> IsRunning(a, d)
  {
  }

  lemma {:induction false} SaveKeepsDeps(b: Store, c: Store, id: Id, r: Record)
    requires id in b && r.deps == b[id].deps && (c == b || c == b[id := r])
    ensures Deps(c) == Deps(b)
    ensures forall m :: m != id ==> (m in b <==> m in c) && (m in b ==> c[m] == b[m])
  {
  }

  lemma {:induction false} FrameSave(a: Store, b: Store, c: Store, id: Id, r: Record)
    requires Framed(a, b, id) && id in b && r.deps == b[id].deps && (c == b || c == b[id := r])
    ensures Framed(a, c, id)
  {
    SaveKeepsDeps(b, c, id, r);
    WaitsSelf(a, id);
    hide Waits;
    forall m | m in a && m in c && c[m] != a[m] ensures Waits(a, id, m) {
      assert m in Deps(b);
    }
  }

  lemma {:induction false} ClosedSave(b: Store, c: Store, id: Id, x: set<Id>, r: Record)
    requires ClosedExcept(b, x + {id}) && id in b && r.deps == b[id].deps && (c == b || c == b[id := r])
    requires r.status == Running ==> forall d :: Edge(Deps(b), id, d) ==> IsRunning(b, d) || d == id
    ensures ClosedExcept(c, x + {id})
  {
    SaveKeepsDeps(b, c, id, r);
    hide Edge, Deps;
    forall m, d | IsRunning(c, m) && Edge(Deps(c), m, d) ensures d in x + {id} || IsRunning(c, d) {
      assert m != id ==> IsRunning(b, m);
    }
  }

  /** Saving the record of `id` after some sound steps, keeping its dependencies. */
  lemma {:induction false} SoundSave(a: Store, b: Store, c: Store, starts: seq<Start>, id: Id, x: set<Id>, r: Record)
    requires Sound(a, b, starts, id, x, true) || Sound(a, b, starts, id, x, false)
    requires id in b && r.deps == b[id].deps && (c == b || c == b[id := r])
    requires r.status == Running ==> forall d :: Edge(Deps(b), id, d) ==> IsRunning(b, d) || d == id
    ensures Sound(a, c, starts, id, x, false)
    ensures Deps(c) == Deps(a)
  {
    FrameSave(a, b, c, id, r);
    ClosedSave(b, c, id, x, r);
    LogSave(a, b, c, starts, id);
    hide ClosedExcept, Logged, Edge, Waits;
  }

  lemma {:induction false} LogSave(a: Store, b: Store, c: Store, starts: seq<Start>, id: Id)
    ensures Logged(a, b, starts, id, true) || Logged(a, b, starts, id, false) ==> Logged(a, c, starts, id, false)
  {
    hide Edge, Waits;
  }

  /** Steps that only saved records of `id`, followed by a whole call for `id`. */
  lemma {:induction false} SoundThen(a: Store, b: Store, c: Store, starts: seq<Start>, id: Id, x: set<Id>, ok: bool)
    requires Sound(a, b, [], id, x, false) && Sound(b, c, starts, id, x, ok)
    ensures Sound(a, c, starts, id, x, ok)
  {
    assert Deps(b) == Deps(a);
    hide Edge, Waits;
    assert forall m :: m != id && IsRunning(a, m) ==> IsRunning(b, m);
    FrameThen(a, b, c, id);
    forall k | 0 <= k < |starts| ensures Waits(a, id, starts[k].id) {
      WaitsBefore(a, b, id, starts[k].id);
    }
  }

  /** Some dependencies were started; then comes the call for one more, `d`, that was not Running. */
  lemma {:induction false} SoundDependency(a: Store, b: Store, c: Store, s: seq<Start>, t: seq<Start>, id: Id, d: Id,
                                           x: set<Id>, ok: bool, rank: map<Id, nat>)
    requires WaitRanked(b, rank) && id in rank && Edge(Deps(a), id, d)
    requires forall y :: y in x ==> y in rank && rank[id] < rank[y]
    requires SoundBelow(a, b, s, id, x, true) && !IsRunning(b, d) && Sound(b, c, t, d, x + {id}, ok)
    ensures SoundBelow(a, c, s + t, id, x, ok)
    ensures forall m :: IsRunning(b, m) ==> IsRunning(c, m)
  {
    FrameOfDependency(b, c, id, d);
    assert d in rank && rank[d] < rank[id];
    ClosureBelow(b, c, id, d, x, rank);
    assert id in c <==> id in b by { assert id in Deps(b) <==> id in Deps(c); }
    if id in b && c[id] != b[id] {
      WaitsRank(b, rank, d, id);
    }
    forall k | 0 <= k < |t| ensures t[k].id != id {
      WaitsRank(b, rank, d, t[k].id);
    }
    hide Edge, WaitRanked, Waits;
    FrameThen(a, b, c, id);
    LogThen(a, b, c, s, t, id, d, ok);
  }

  /** A dependency started while `id` waits leaves the closure as it was. */
  lemma {:induction false} ClosureBelow(b: Store, c: Store, id: Id, d: Id, x: set<Id>, rank: map<Id, nat>)
    requires WaitRanked(b, rank) && id in rank && Edge(Deps(b), id, d) && !IsRunning(b, d) && Framed(b, c, d)
    requires ClosedExcept(b, x + {id}) && forall y :: y in x ==> y in rank && rank[id] < rank[y]
    requires ClosedExcept(c, x + {id} + {d})
    ensures ClosedExcept(c, x + {id})
  {
    assert rank[d] < rank[id] && d !in x + {id};
    ClosureSurvives(b, c, d, x + {id}, rank);
  }

  lemma {:induction false} FrameThen(a: Store, b: Store, c: Store, id: Id)
    requires Framed(a, b, id) && Framed(b, c, id)
    ensures Framed(a, c, id)
  {
    hide Waits;
    forall m | m in a && m in c && c[m] != a[m] ensures Waits(a, id, m) {
      assert m in Deps(a) && m in Deps(b);
      if c[m] != b[m] {
        WaitsBefore(a, b, id, m);
      }
    }
  }

  /** A call for a dependency that was not Running, seen from the module that needs it. */
  lemma {:induction false} FrameOfDependency(a: Store, b: Store, id: Id, d: Id)
    requires Framed(a, b, d) && !IsRunning(a, d) && Edge(Deps(a), id, d)
    ensures Framed(a, b, id)
    ensures forall m :: IsRunning(a, m) ==> IsRunning(b, m) && b[m] == a[m]
  {
    hide Waits;
    forall m | m in a && m in b && b[m] != a[m] ensures Waits(a, id, m) {
      WaitsThrough(a, id, d, m);
    }
  }

  /** The starts of one more dependency come after those of the earlier ones. */
  lemma {:induction false} LogThen(a: Store, b: Store, c: Store, s: seq<Start>, t: seq<Start>, id: Id, d: Id, ok: bool)
    requires Edge(Deps(a), id, d) && Deps(b) == Deps(a)
    requires Logged(a, b, s, id, true) && forall k :: 0 <= k < |s| ==> s[k].id != id
    requires forall m :: IsRunning(a, m) ==> IsRunning(b, m)
    requires !IsRunning(b, d) && Logged(b, c, t, d, ok) && forall m :: IsRunning(b, m) ==> IsRunning(c, m) && c[m] == b[m]
    requires forall k :: 0 <= k < |t| ==> t[k].id != id
    ensures Logged(a, c, s + t, id, ok) && forall k :: 0 <= k < |s + t| ==> (s + t)[k].id != id
  {
    hide Waits;
    var u := s + t;
    forall k | 0 <= k < |u|
      ensures Waits(a, id, u[k].id) && u[k].id != id && !IsRunning(a, u[k].id)
    {
      if k >= |s| {
        WaitsAllBefore(a, b, d, t[k - |s|].id);
        WaitsThrough(a, id, d, t[k - |s|].id);
        assert !IsRunning(b, t[k - |s|].id);
      }
    }
    forall j, k | 0 <= j < k < |u| ensures u[j].id != u[k].id {
      if j < |s| <= k {
        assert IsRunning(b, s[j].id) && !IsRunning(b, t[k - |s|].id);
      }
    }
  }

  /** The start of `id` itself, after all its dependencies. */
  lemma {:induction false} SoundOwnStart(a: Store, b: Store, c: Store, s: seq<Start>, own: Start, id: Id, x: set<Id>, r: Record)
    requires id in a && SoundBelow(a, b, s, id, x, true)
    requires r.deps == b[id].deps && r.status != Running && c == b[id := r]
    requires own.id == id && id !in own.running && forall d :: Edge(Deps(b), id, d) ==> d in own.running || d == id
    ensures Sound(a, c, s + [own], id, x, false)
    ensures forall d :: IsRunning(b, d) && d != id ==> IsRunning(c, d)
    ensures forall k :: 0 <= k < |s| ==> IsRunning(c, s[k].id) && c[s[k].id].containerId == s[k].container
  {
    SoundSave(a, b, c, s, id, x, r);
    WaitsSelf(a, id);
    assert Deps(b) == Deps(a);
    hide Waits, Edge, Deps;
    var u := s + [own];
    forall k | 0 <= k < |u| ensures Waits(a, id, u[k].id) && (u[k].id != id ==> !IsRunning(a, u[k].id)) {
    }
    forall k, d | 0 <= k < |u| && Edge(Deps(a), u[k].id, d) ensures d in u[k].running || d == u[k].id {
    }
  }

  /** The last step: `id` becomes Running on top of its dependencies. */
  lemma {:induction false} SoundSuccess(a: Store, c: Store, e: Store, starts: seq<Start>, id: Id, x: set<Id>, r: Record)
    requires Sound(a, c, starts, id, x, false) && id in c && r.deps == c[id].deps && r.status == Running && e == c[id := r]
    requires forall d :: Edge(Deps(c), id, d) ==> IsRunning(c, d) || d == id
    requires starts != [] && starts[|starts| - 1].id == id && starts[|starts| - 1].container == r.containerId
    requires forall k :: 0 <= k < |starts| - 1 ==> IsRunning(c, starts[k].id) && c[starts[k].id].containerId == starts[k].container
    ensures Sound(a, e, starts, id, x, true)
  {
    SoundSave(a, c, e, starts, id, x, r);
    forall k | 0 <= k < |starts| ensures IsRunning(e, starts[k].id) && e[starts[k].id].containerId == starts[k].container {
    }
  }

  // ---------- what was asked before a container is started ----------

  /** From answer `from` on and before answer `upto`, `d` was found healthy while it was Running. */
  ghost predicate WasHealthy(answers: seq<Answer>, from: nat, upto: nat, d: Id) {
    exists j :: from <= j < upto && j < |answers| && HealthyAnswer(answers[j], d)
  }

  predicate HealthyAnswer(a: Answer, d: Id) {
    a.Health? && a.id == d && a.ok && d in a.running
  }

  /** The container was found to be there. */
  ghost predicate WasThere(answers: seq<Answer>, from: nat, upto: nat, container: string) {
    exists j :: from <= j < upto && j < |answers| && answers[j] == Presence(container, true)
  }

  predicate AsksHealth(dep: Option<Dep>) {
    dep.Some? && dep.value.target != "" && dep.value.waitForHealthy
  }

  /** Of the first `n` dependencies all that are to be waited for were found healthy. */
  ghost predicate Waited(deps: seq<Option<Dep>>, n: nat, answers: seq<Answer>, from: nat, upto: nat) {
    forall i :: 0 <= i < n && i < |deps| && AsksHealth(deps[i]) ==> WasHealthy(answers, from, upto, deps[i].value.target)
  }

  /** A container was started only after it and its module's dependencies had been checked, since answer `from`. */
  ghost predicate CheckedStart(g: Graph, answers: seq<Answer>, from: nat, s: Start) {
    && s.asked <= |answers| && s.id in g
    && WasThere(answers, from, s.asked, s.container)
    && Waited(g[s.id], |g[s.id]|, answers, from, s.asked)
  }

  ghost predicate Checked(g: Graph, answers: seq<Answer>, from: nat, starts: seq<Start>) {
    forall k :: 0 <= k < |starts| ==> CheckedStart(g, answers, from, starts[k])
  }

  /** The template and the server were found and then the container was created. */
  predicate Prepared(answers: seq<Answer>, from: nat, id: Id, container: string) {
    from + 3 <= |answers| && answers[from..from + 3] == [Template(id, true), Server(id, true), Creation(id, Some(container))]
  }

  lemma {:induction false} HealthyMore(a: seq<Answer>, b: seq<Answer>, from: nat, lower: nat, upto: nat, more: nat, d: Id)
    requires a <= b && lower <= from && upto <= more && WasHealthy(a, from, upto, d)
    ensures WasHealthy(b, lower, more, d)
  {
    var j :| from <= j < upto && j < |a| && HealthyAnswer(a[j], d);
    assert b[j] == a[j];
  }

  lemma {:induction false} FoundHealthy(answers: seq<Answer>, from: nat, d: Id)
    requires from < |answers| && HealthyAnswer(answers[|answers| - 1], d)
    ensures WasHealthy(answers, from, |answers|, d)
  {
  }

  lemma {:induction false} WaitedForNone(deps: seq<Option<Dep>>, answers: seq<Answer>, from: nat, upto: nat)
    ensures Waited(deps, 0, answers, from, upto)
  {
  }

  lemma {:induction false} WaitedForOneMore(deps: seq<Option<Dep>>, n: nat, answers: seq<Answer>, from: nat)
    requires n < |deps| && Waited(deps, n, answers, from, |answers|)
    requires AsksHealth(deps[n]) ==> WasHealthy(answers, from, |answers|, deps[n].value.target)
    ensures Waited(deps, n + 1, answers, from, |answers|)
  {
    hide WasHealthy;
  }

  lemma {:induction false} WaitedMore(deps: seq<Option<Dep>>, n: nat, a: seq<Answer>, b: seq<Answer>, from: nat, lower: nat, upto: nat, more: nat)
    requires a <= b && lower <= from && upto <= more && Waited(deps, n, a, from, upto)
    ensures Waited(deps, n, b, lower, more)
  {
    hide WasHealthy;
    forall i | 0 <= i < n && i < |deps| && AsksHealth(deps[i]) ensures WasHealthy(b, lower, more, deps[i].value.target) {
      HealthyMore(a, b, from, lower, upto, more, deps[i].value.target);
    }
  }

  lemma {:induction false} FoundThere(answers: seq<Answer>, from: nat, container: string)
    requires from < |answers| && answers[|answers| - 1] == Presence(container, true)
    ensures WasThere(answers, from, |answers|, container)
  {
  }

  lemma {:induction false} ThereMore(a: seq<Answer>, b: seq<Answer>, from: nat, lower: nat, upto: nat, more: nat, container: string)
    requires a <= b && lower <= from && upto <= more && WasThere(a, from, upto, container)
    ensures WasThere(b, lower, more, container)
  {
    var j :| from <= j < upto && j < |a| && a[j] == Presence(container, true);
    assert b[j] == a[j];
  }

  /** What was checked stays so when more answers come in. */
  lemma {:induction false} CheckedMore(g: Graph, a: seq<Answer>, b: seq<Answer>, from: nat, lower: nat, starts: seq<Start>)
    requires a <= b && lower <= from && Checked(g, a, from, starts)
    ensures Checked(g, b, lower, starts)
  {
    hide Waited, WasThere;
    forall k | 0 <= k < |starts| ensures CheckedStart(g, b, lower, starts[k]) {
      var s := starts[k];
      WaitedMore(g[s.id], |g[s.id]|, a, b, from, lower, s.asked, s.asked);
      ThereMore(a, b, from, lower, s.asked, s.asked, s.container);
    }
  }

  lemma {:induction false} CheckedAppend(g: Graph, a: seq<Answer>, b: seq<Answer>, lower: nat, from: nat, s: seq<Start>, t: seq<Start>)
    requires a <= b && lower <= from && Checked(g, a, lower, s) && Checked(g, b, from, t)
    ensures Checked(g, b, lower, s + t)
  {
    CheckedMore(g, a, b, lower, lower, s);
    CheckedMore(g, b, b, from, lower, t);
    hide CheckedStart;
  }

  lemma {:induction false} CheckedNothing(g: Graph, answers: seq<Answer>, from: nat)
    ensures Checked(g, answers, from, [])
  {
  }

  lemma {:induction false} PreparedNow(a: seq<Answer>, b: seq<Answer>, id: Id, container: string)
    requires b == a + [Template(id, true)] + [Server(id, true)] + [Creation(id, Some(container))]
    ensures Prepared(b, |a|, id, container)
  {
  }

  lemma {:induction false} PreparedMore(a: seq<Answer>, b: seq<Answer>, from: nat, id: Id, container: string)
    requires a <= b && Prepared(a, from, id, container)
    ensures Prepared(b, from, id, container)
  {
    assert b[from..from + 3] == a[from..from + 3];
  }

  class Manager {
    var store: Store
    var created: set<string>
    ghost var log: seq<Start>
    ghost var answers: seq<Answer>
    // how many requests and questions below were refused
    ghost var refusals: nat

    // ---------- oracles ----------

    /** GetModule */
    method Get(id: Id) returns (r: Option<Record>)
      modifies this`refusals
      ensures r.Some? ==> id in store && r.value == store[id]
      ensures refusals == old(refusals) + if r.None? then 1 else 0
    {
      var found := *;
      r := if found && id in store then Some(store[id]) else None;
      refusals := refusals + if r.None? then 1 else 0;
    }

    /** UpdateModule */
    method Save(id: Id, r: Record) returns (ok: bool)
      modifies this`store, this`refusals
      ensures store == if ok then old(store)[id := r] else old(store)
      ensures refusals == old(refusals) + if ok then 0 else 1
    {
      ok := *;
      refusals := refusals + if ok then 0 else 1;
      if ok {
        store := store[id := r];
      }
    }

    /** GetModuleTemplate for a module's template */
    method GetTemplate(id: Id) returns (ok: bool)
      modifies this`answers, this`refusals
      ensures answers == old(answers) + [Template(id, ok)]
      ensures refusals == old(refusals) + if ok then 0 else 1
    {
      ok := *;
      answers := answers + [Template(id, ok)];
      refusals := refusals + if ok then 0 else 1;
    }

    /** GetServer for a module's server */
    method GetServer(id: Id) returns (ok: bool)
      modifies this`answers, this`refusals
      ensures answers == old(answers) + [Server(id, ok)]
      ensures refusals == old(refusals) + if ok then 0 else 1
    {
      ok := *;
      answers := answers + [Server(id, ok)];
      refusals := refusals + if ok then 0 else 1;
    }

    /** WaitForHealthy */
    method WaitForHealthy(id: Id) returns (ok: bool)
      modifies this`answers, this`refusals
      ensures answers == old(answers) + [Health(id, ok, RunningSet(store))]
      ensures refusals == old(refusals) + if ok then 0 else 1
    {
      ok := *;
      answers := answers + [Health(id, ok, RunningSet(store))];
      refusals := refusals + if ok then 0 else 1;
    }

    /** GetContainerStatus */
    method ContainerExists(container: string) returns (ok: bool)
      modifies this`answers
      ensures container in created ==> ok
      ensures answers == old(answers) + [Presence(container, ok)]
    {
      var there := *;
      ok := there || container in created;
      answers := answers + [Presence(container, ok)];
    }

    /** CreateModuleContainer */
    method CreateContainer(id: Id) returns (container: Option<string>)
      modifies this`created, this`answers, this`refusals
      ensures answers == old(answers) + [Creation(id, container)]
      ensures refusals == old(refusals) + if container.None? then 1 else 0
      ensures container.Some? ==> container.value != "" && created == old(created) + {container.value}
      ensures container.None? ==> created == old(created)
    {
      var c: string := *;
      container := if c == "" then None else Some(c);
      answers := answers + [Creation(id, container)];
      if c == "" {
        refusals := refusals + 1;
      } else {
        created := created + {c};
      }
    }

    /** StartContainer */
    method StartContainer(id: Id, container: string) returns (ok: bool)
      modifies this`log, this`refusals
      ensures log == old(log) + [Start(id, container, RunningSet(store), |answers|)]
      ensures refusals == old(refusals) + if ok then 0 else 1
    {
      log := log + [Start(id, container, RunningSet(store), |answers|)];
      ok := *;
      refusals := refusals + if ok then 0 else 1;
    }

    // ---------- the three operations ----------

    ghost predicate Ready(id: Id, x: set<Id>, rank: map<Id, nat>)
      reads this
    {
      && id in rank && WaitRanked(store, rank)
      && "" !in created
      && ClosedExcept(store, x + {id})
      && forall y :: y in x ==> y in rank && rank[id] < rank[y]
    }

    predicate Fresh(id: Id)
      reads this
    {
      id in store && store[id].containerId in created
    }

    /** How a refusal leaves the module: in Error, or as it was saved before when that cannot be saved either. */
    ghost predicate LeftIn(id: Id, outcome: Outcome, refused: int)
      reads this
    {
      && id in store
      && store[id].status == if refused == 1 then Error else if outcome.Refused? then Starting else Creating
    }

    method StartModule(id: Id, ghost x: set<Id>, ghost rank: map<Id, nat>) returns (outcome: Outcome, ghost starts: seq<Start>)
      requires Ready(id, x, rank) && (Fresh(id) || Guarded(store, rank, id))
      modifies this
      decreases rank[id], if Fresh(id) then 1 else 3
      ensures "" !in created && old(created) <= created
      ensures old(refusals) <= refusals && (outcome.Started? <==> refusals == old(refusals))
      ensures Sound(old(store), store, starts, id, x, outcome.Started?) && log == old(log) + starts
      ensures old(answers) <= answers && Checked(Deps(old(store)), answers, |old(answers)|, starts)
      ensures outcome.Started? ==> IsRunning(store, id)
      ensures outcome.Started? && old(Fresh(id)) ==> store[id].containerId == old(store[id].containerId)
      ensures outcome.Refused? || outcome.Uncreated? ==> LeftIn(id, outcome, refusals - old(refusals))
      ensures outcome.Uncreated? ==> !old(Fresh(id))
      ensures outcome.Started? || outcome.Refused? ==> starts != [] && starts[|starts| - 1].id == id
    {
      hide Framed, ClosedExcept, Logged, Edge, Reaches, SoundBelow, Sound, WaitRanked, Guarded, Waits, Checked, LeftIn, Waited, WasThere;
      starts := [];
      CheckedNothing(Deps(store), answers, |answers|);
      ghost var a := store;
      SoundNothingYet(a, id, x);
      var found := Get(id);
      if found.None? {
        return Failed, [];
      }
      var m := found.value;
      if m.containerId == "" {
        outcome, starts := CreateAndStartModule(id, true, x, rank);
        return;
      }
      var there := ContainerExists(m.containerId);
      ghost var asked := answers;
      if !there {
        m := m.(containerId := "");
        var ok := Save(id, m);
        if IsRunning(a, id) {
          RunningHasDependencies(a, id, x, rank);
        }
        SoundSave(a, a, store, [], id, x, m);
        CheckedNothing(Deps(a), asked, |old(answers)|);
        if !ok {
          return Failed, [];
        }
        StillReady(a, store, id, x, rank);
        ghost var b := store;
        outcome, starts := CreateAndStartModule(id, true, x, rank);
        SoundThen(a, b, store, starts, id, x, outcome.Started?);
        CheckedMore(Deps(a), answers, answers, |asked|, |old(answers)|, starts);
        return;
      }
      FoundThere(asked, |old(answers)|, m.containerId);
      var ok;
      ok, starts := StartDependencies(id, m, x, rank);
      BelowIsSound(a, store, starts, id, x, ok);
      CheckedMore(Deps(a), answers, answers, |asked|, |old(answers)|, starts);
      if !ok {
        return Failed, starts;
      }
      WaitedMore(m.deps, |m.deps|, answers, answers, |asked|, |old(answers)|, |answers|, |answers|);
      ThereMore(asked, answers, |old(answers)|, |old(answers)|, |asked|, |answers|, m.containerId);
      ghost var own;
      outcome, own := StartContainerOf(id, m, a, starts, x, |old(answers)|);
      CheckedAppend(Deps(a), answers, answers, |old(answers)|, |old(answers)|, starts, own);
      starts := starts + own;
    }

    /** The rest of StartModule, once the dependencies are Running: `s` is what they started since `a`. */
    method StartContainerOf(id: Id, found: Record, ghost a: Store, ghost s: seq<Start>, ghost x: set<Id>, ghost from: nat)
      returns (outcome: Outcome, ghost own: seq<Start>)
      requires id in a && id in store && store[id] == found && SoundBelow(a, store, s, id, x, true)
      requires (forall d :: Edge(Deps(store), id, d) ==> IsRunning(store, d)) && Deps(store) == Deps(a)
      requires WasThere(answers, from, |answers|, found.containerId)
      requires Waited(found.deps, |found.deps|, answers, from, |answers|)
      modifies this`store, this`log, this`refusals
      ensures old(refusals) <= refusals && (outcome.Started? <==> refusals == old(refusals))
      ensures Sound(a, store, s + own, id, x, outcome.Started?) && log == old(log) + own
      ensures Checked(Deps(a), answers, from, own)
      ensures outcome.Started? ==> IsRunning(store, id) && store[id].containerId == found.containerId
      ensures !outcome.Uncreated? && (outcome.Refused? ==> LeftIn(id, outcome, refusals - old(refusals)))
      ensures outcome.Started? || outcome.Refused? ==> own != [] && own[|own| - 1].id == id
    {
      hide Framed, ClosedExcept, Logged, Edge, Reaches, SoundBelow, Sound, WaitRanked, Guarded, Waits, Waited, WasThere;
      var m := found;
      own := [];
      assert s + [] == s;
      ghost var b := store;
      BelowIsSound(a, b, s, id, x, true);
      m := m.(status := Starting);
      var ok := Save(id, m);
      SoundSave(a, b, store, s, id, x, m);
      if !ok {
        return Failed, [];
      }
      ghost var c := store;
      ok := StartContainer(id, m.containerId);
      own := [Start(id, m.containerId, RunningSet(c), |answers|)];
      OwnSnapshot(b, c, id, m);
      SoundOwnStart(a, b, c, s, own[0], id, x, m);
      if !ok {
        m := m.(status := Error);
        var _ := Save(id, m);
        SoundSave(a, c, store, s + own, id, x, m);
        return Refused, own;
      }
      m := m.(status := Running);
      ok := Save(id, m);
      if !ok {
        return Failed, own;
      }
      SoundSuccess(a, c, store, s + own, id, x, m);
      return Started, own;
    }

    method CreateAndStartModule(id: Id, startImmediately: bool, ghost x: set<Id>, ghost rank: map<Id, nat>)
      returns (outcome: Outcome, ghost starts: seq<Start>)
      requires Ready(id, x, rank) && Guarded(store, rank, id)
      modifies this
      decreases rank[id], 2
      ensures "" !in created && old(created) <= created
      ensures old(refusals) <= refusals && (outcome.Started? <==> refusals == old(refusals))
      ensures Sound(old(store), store, starts, id, x, outcome.Started?) && log == old(log) + starts
      ensures old(answers) <= answers && Checked(Deps(old(store)), answers, |old(answers)|, starts)
      ensures outcome.Started? ==> id in store && Prepared(answers, |old(answers)|, id, store[id].containerId)
      ensures startImmediately && outcome.Started? ==> IsRunning(store, id)
      ensures outcome.Refused? || outcome.Uncreated? ==> LeftIn(id, outcome, refusals - old(refusals))
      ensures startImmediately && (outcome.Started? || outcome.Refused?) ==> starts != [] && starts[|starts| - 1].id == id
      ensures !startImmediately ==> starts == [] && !outcome.Refused?
      ensures !startImmediately && outcome.Started? ==> store[id].status == Stopped && store[id].containerId in created
    {
      hide Framed, ClosedExcept, Logged, Edge, Reaches, SoundBelow, Sound, WaitRanked, Guarded, Waits, Checked, Waited, WasThere, Prepared;
      starts := [];
      CheckedNothing(Deps(store), answers, |answers|);
      ghost var a := store;
      SoundNothingYet(a, id, x);
      var found := Get(id);
      if found.None? {
        return Failed, [];
      }
      var m := found.value;
      var ok := GetTemplate(id);
      if !ok {
        CheckedNothing(Deps(a), answers, |old(answers)|);
        return Failed, [];
      }
      ok := GetServer(id);
      CheckedNothing(Deps(a), answers, |old(answers)|);
      if !ok {
        return Failed, [];
      }
      outcome := CreateContainerOf(id, m, x);
      CheckedNothing(Deps(a), answers, |old(answers)|);
      if !outcome.Started? {
        return outcome, [];
      }
      ghost var prepared := answers;
      PreparedNow(old(answers), prepared, id, store[id].containerId);
      if startImmediately {
        ghost var c := store;
        StillReady(a, c, id, x, rank);
        outcome, starts := StartModule(id, x, rank);
        SoundThen(a, c, store, starts, id, x, outcome.Started?);
        CheckedMore(Deps(a), answers, answers, |prepared|, |old(answers)|, starts);
        PreparedMore(prepared, answers, |old(answers)|, id, c[id].containerId);
        return;
      }
      SoundEmptyLog(a, store, id, x);
      return Started, [];
    }

    /** The middle of it: the container is created, and the module is Stopped with it. */
    method CreateContainerOf(id: Id, found: Record, ghost x: set<Id>) returns (outcome: Outcome)
      requires id in store && store[id] == found && ClosedExcept(store, x + {id}) && "" !in created
      modifies this`store, this`created, this`answers, this`refusals
      ensures "" !in created && old(created) <= created && old(answers) <= answers
      ensures old(refusals) <= refusals && (outcome.Started? <==> refusals == old(refusals))
      ensures Sound(old(store), store, [], id, x, false) && !outcome.Refused?
      ensures outcome.Started? ==>
                && id in store && store[id] == found.(containerId := store[id].containerId, status := Stopped)
                && store[id].containerId in created && answers == old(answers) + [Creation(id, Some(store[id].containerId))]
      ensures outcome.Uncreated? ==> LeftIn(id, outcome, refusals - old(refusals))
    {
      hide Framed, ClosedExcept, Logged, Edge, Sound;
      ghost var a := store;
      SoundNothingYet(a, id, x);
      var m := found.(status := Creating);
      var ok := Save(id, m);
      SoundSave(a, a, store, [], id, x, m);
      if !ok {
        return Failed;
      }
      ghost var b := store;
      var container := CreateContainer(id);
      if container.None? {
        m := m.(status := Error);
        var _ := Save(id, m);
        SoundSave(a, b, store, [], id, x, m);
        return Uncreated;
      }
      m := m.(containerId := container.value, status := Stopped);
      ok := Save(id, m);
      SoundSave(a, b, store, [], id, x, m);
      return if ok then Started else Failed;
    }

    method StartDependencies(id: Id, m: Record, ghost x: set<Id>, ghost rank: map<Id, nat>)
      returns (ok: bool, ghost starts: seq<Start>)
      requires Ready(id, x, rank) && id in store && m == store[id]
      modifies this
      decreases rank[id], 0, 1
      ensures "" !in created && old(created) <= created
      ensures old(refusals) <= refusals && (ok <==> refusals == old(refusals))
      ensures SoundBelow(old(store), store, starts, id, x, ok) && log == old(log) + starts
      ensures id in store && store[id] == m && Deps(store) == Deps(old(store))
      ensures ok ==> forall d :: Edge(Deps(store), id, d) ==> IsRunning(store, d)
      ensures old(answers) <= answers && Checked(Deps(old(store)), answers, |old(answers)|, starts)
      ensures ok ==> Waited(m.deps, |m.deps|, answers, |old(answers)|, |answers|)
    {
      hide Framed, ClosedExcept, Logged, Edge, Reaches, SoundBelow, Sound, WaitRanked, Waits, AllRunning, Checked, Waited, WasHealthy;
      ghost var a := store;
      starts := [];
      NoneYet(a, m.deps);
      SoundNothing(a, id, x, true);
      CheckedNothing(Deps(a), answers, |answers|);
      WaitedForNone(m.deps, answers, |answers|, |answers|);
      for i := 0 to |m.deps|
        invariant "" !in created && old(created) <= created && refusals == old(refusals)
        invariant SoundBelow(a, store, starts, id, x, true) && log == old(log) + starts
        invariant AllRunning(store, m.deps, i)
        invariant old(answers) <= answers && Checked(Deps(a), answers, |old(answers)|, starts)
        invariant Waited(m.deps, i, answers, |old(answers)|, |answers|)
      {
        ghost var b, asked := store, answers;
        var dep := m.deps[i];
        OneMoreRunning(m.deps, i);
        if dep.None? || dep.value.target == "" {
          WaitedForOneMore(m.deps, i, answers, |old(answers)|);
          continue;
        }
        EdgeOf(a, id, i, dep.value.target);
        ghost var t;
        ok, t := StartDependency(id, dep.value, a, starts, x, rank);
        CheckedAppend(Deps(a), asked, answers, |old(answers)|, |asked|, starts, t);
        WaitedMore(m.deps, i, asked, answers, |old(answers)|, |old(answers)|, |asked|, |answers|);
        starts := starts + t;
        BelowDeps(a, store, starts, id, x, ok);
        if !ok {
          return false, starts;
        }
        StillRunning(b, store, m.deps, i);
        if dep.value.waitForHealthy {
          HealthyMore(answers, answers, |asked|, |old(answers)|, |answers|, |answers|, dep.value.target);
        }
        WaitedForOneMore(m.deps, i, answers, |old(answers)|);
      }
      ok := true;
      BelowDeps(a, store, starts, id, x, true);
      EdgesAreDeps(store, id);
    }

    /** One round of that loop: `a` is the store before the loop, `s` what the earlier rounds started. */
    method StartDependency(id: Id, dep: Dep, ghost a: Store, ghost s: seq<Start>, ghost x: set<Id>, ghost rank: map<Id, nat>)
      returns (ok: bool, ghost t: seq<Start>)
      requires WaitRanked(a, rank) && id in rank && "" !in created
      requires forall y :: y in x ==> y in rank && rank[id] < rank[y]
      requires id in a && Edge(Deps(a), id, dep.target) && SoundBelow(a, store, s, id, x, true)
      modifies this
      decreases rank[id], 0, 0
      ensures "" !in created && old(created) <= created
      ensures old(refusals) <= refusals && (ok <==> refusals == old(refusals))
      ensures SoundBelow(a, store, s + t, id, x, ok) && log == old(log) + t
      ensures ok ==> IsRunning(store, dep.target)
      ensures forall m :: IsRunning(old(store), m) ==> IsRunning(store, m)
      ensures old(answers) <= answers && Checked(Deps(a), answers, |old(answers)|, t)
      ensures ok && dep.waitForHealthy ==> WasHealthy(answers, |old(answers)|, |answers|, dep.target)
    {
      hide Framed, ClosedExcept, Logged, Edge, Reaches, SoundBelow, Sound, WaitRanked, Guarded, Waits, Checked, WasHealthy;
      ghost var b := store;
      var d := dep.target;
      t := [];
      CheckedNothing(Deps(a), answers, |answers|);
      assert s + [] == s;
      BelowKeeps(a, b, s, id, x);
      BelowFails(a, b, s, id, x);
      var found := Get(d);
      if found.None? {
        return false, [];
      }
      if found.value.status != Running {
        var outcome;
        StillReadyBelow(a, b, s, id, d, x, rank);
        if found.value.containerId == "" {
          outcome, t := CreateAndStartModule(d, true, x + {id}, rank);
        } else {
          outcome, t := StartModule(d, x + {id}, rank);
        }
        SoundDependency(a, b, store, s, t, id, d, x, outcome.Started?, rank);
        if !outcome.Started? {
          return false, t;
        }
      }
      ok := true;
      if dep.waitForHealthy {
        ghost var asked := answers;
        ok := WaitForHealthy(d);
        BelowFails(a, store, s + t, id, x);
        CheckedMore(Deps(a), asked, answers, |old(answers)|, |old(answers)|, t);
        if ok {
          FoundHealthy(answers, |old(answers)|, d);
        }
      }
    }
  }

  // ---------- small steps of the three operations ----------

  lemma {:induction false} SoundNothingYet(a: Store, id: Id, x: set<Id>)
    requires ClosedExcept(a, x + {id})
    ensures Sound(a, a, [], id, x, true) && Sound(a, a, [], id, x, false)
  {
  }

  lemma {:induction false} SoundEmptyLog(a: Store, b: Store, id: Id, x: set<Id>)
    requires Sound(a, b, [], id, x, false)
    ensures Sound(a, b, [], id, x, true)
  {
  }

  lemma {:induction false} StillReady(a: Store, b: Store, id: Id, x: set<Id>, rank: map<Id, nat>)
    requires Sound(a, b, [], id, x, false) && WaitRanked(a, rank) && id in rank && Guarded(a, rank, id)
    ensures Deps(b) == Deps(a) && ClosedExcept(b, x + {id})
    ensures WaitRanked(b, rank) && Guarded(b, rank, id)
  {
    hide Waits, Edge;
    StillRanked(a, b, rank, id);
  }

  lemma {:induction false} StillReadyBelow(a: Store, b: Store, starts: seq<Start>, id: Id, d: Id, x: set<Id>, rank: map<Id, nat>)
    requires SoundBelow(a, b, starts, id, x, true) && WaitRanked(a, rank) && id in rank
    requires Edge(Deps(a), id, d) && !IsRunning(b, d)
    ensures Deps(b) == Deps(a) && ClosedExcept(b, x + {id} + {d})
    ensures WaitRanked(b, rank) && d in rank && rank[d] < rank[id] && Guarded(b, rank, d)
  {
    hide Waits;
    assert forall y :: IsRunning(a, y) ==> IsRunning(b, y);
    StillRanked(a, b, rank, id);
    NotRunningIsGuarded(b, rank, d);
  }

  lemma {:induction false} BelowIsSound(a: Store, b: Store, starts: seq<Start>, id: Id, x: set<Id>, ok: bool)
    requires SoundBelow(a, b, starts, id, x, ok)
    ensures Sound(a, b, starts, id, x, ok) && Sound(a, b, starts, id, x, false)
  {
  }

  lemma {:induction false} BelowKeeps(a: Store, b: Store, starts: seq<Start>, id: Id, x: set<Id>)
    requires SoundBelow(a, b, starts, id, x, true) && id in a
    ensures id in b && b[id] == a[id] && Deps(b) == Deps(a)
  {
  }

  lemma {:induction false} BelowDeps(a: Store, b: Store, starts: seq<Start>, id: Id, x: set<Id>, ok: bool)
    requires SoundBelow(a, b, starts, id, x, ok) && id in a
    ensures id in b && b[id] == a[id] && Deps(b) == Deps(a)
  {
  }

  lemma {:induction false} BelowFails(a: Store, b: Store, starts: seq<Start>, id: Id, x: set<Id>)
    requires SoundBelow(a, b, starts, id, x, true)
    ensures SoundBelow(a, b, starts, id, x, false) && Deps(b) == Deps(a)
    ensures id in a ==> id in b && b[id] == a[id]
  {
  }

  lemma {:induction false} EdgeOf(a: Store, id: Id, i: nat, d: Id)
    requires id in a && i < |a[id].deps| && Names(a[id].deps[i], d)
    ensures Edge(Deps(a), id, d)
  {
  }

  lemma {:induction false} EdgesAreDeps(a: Store, id: Id)
    requires id in a
    ensures AllRunning(a, a[id].deps, |a[id].deps|) ==> forall d :: Edge(Deps(a), id, d) ==> IsRunning(a, d)
  {
  }

  /** The modules named by the first `n` entries are Running. */
  ghost predicate AllRunning(a: Store, deps: seq<Option<Dep>>, n: nat)
    requires n <= |deps|
  {
    forall k, d :: 0 <= k < n && Names(deps[k], d) ==> IsRunning(a, d)
  }

  lemma {:induction false} NoneYet(a: Store, deps: seq<Option<Dep>>)
    ensures AllRunning(a, deps, 0)
  {
  }

  lemma {:induction false} OneMoreRunning(deps: seq<Option<Dep>>, n: nat)
    requires n < |deps|
    ensures forall a :: AllRunning(a, deps, n) && (deps[n].Some? && deps[n].value.target != "" ==> IsRunning(a, deps[n].value.target))
                        ==> AllRunning(a, deps, n + 1)
  {
  }

  lemma {:induction false} StillRunning(a: Store, b: Store, deps: seq<Option<Dep>>, n: nat)
    requires n <= |deps| && AllRunning(a, deps, n) && forall m :: IsRunning(a, m) ==> IsRunning(b, m)
    ensures AllRunning(b, deps, n)
  {
  }

  lemma {:induction false} OwnSnapshot(b: Store, c: Store, id: Id, r: Record)
    requires id in b && c == b[id := r]
    requires forall d :: Edge(Deps(b), id, d) ==> IsRunning(b, d)
    ensures forall d :: Edge(Deps(b), id, d) ==> d in RunningSet(c) || d == id
  {
  }

  // ---------- starting a module from outside ----------

  /** The store as the dependencies of `id` see it: a module whose container may be gone has stopped by then. */
  function Begun(store: Store, id: Id, stays: bool): Store {
    if id in store && !stays then store[id := store[id].(status := Stopped)] else store
  }

  lemma {:induction false} BegunDeps(store: Store, id: Id, stays: bool)
    ensures Deps(Begun(store, id, stays)) == Deps(store)
    ensures forall m :: IsRunning(Begun(store, id, stays), m) <==> IsRunning(store, m) && (m != id || stays)
  {
  }

  lemma {:induction false} RankForStart(store: Store, id: Id, stays: bool)
    requires !RunsInCircle(Begun(store, id, stays), id)
    ensures var rank := WaitingRank(Begun(store, id, stays), id);
            id in rank && WaitRanked(store, rank) && (stays || Guarded(store, rank, id))
  {
    var begun := Begun(store, id, stays);
    WaitingRankFalls(begun, id);
    BegunDeps(store, id, stays);
    hide RunsInCircle, WaitingRank, Edge, Begun, IsRunning;
  }

  /** After a start that succeeded exactly what was Running or had been waited for is Running. */
  lemma {:induction false} StartedExactly(before: Store, after: Store, id: Id)
    requires Framed(before, after, id) && Closed(after) && IsRunning(after, id)
    ensures forall m :: IsRunning(after, m) <==> IsRunning(before, m) || Waits(before, id, m)
  {
    ClosedMeansTransitive(after, id);
    hide Edge, Waits, Reaches, Closed;
    forall m ensures IsRunning(after, m) <==> IsRunning(before, m) || Waits(before, id, m) {
      assert m in Deps(before) <==> m in Deps(after);
      WaitsSelf(before, id);
      if Waits(before, id, m) {
        WaitsReaches(before, id, m);
      }
    }
  }

  /**
   The StartModule request: no module is being started further up.  Whatever is answered, the recursion
   ends when no chain of modules that wait for each other runs in a circle.
   */
  method StartRequest(m: Manager, id: Id) returns (outcome: Outcome, ghost starts: seq<Start>)
    requires Closed(m.store) && "" !in m.created
    requires !RunsInCircle(Begun(m.store, id, m.Fresh(id)), id)
    modifies m
    ensures outcome.Started? <==> m.refusals == old(m.refusals)
    ensures old(m.refusals) <= m.refusals
    ensures outcome.Started? ==> forall d :: Reaches(Deps(m.store), id, d) ==> IsRunning(m.store, d)
    ensures outcome.Started? ==>
              forall d :: IsRunning(m.store, d) <==> old(IsRunning(m.store, d)) || old(Waits(m.store, id, d))
    // whatever happens, the closure is kept unless a module was pulled from under a Running dependent
    ensures outcome.Started? || !old(HasRunningDependent(m.store, id)) ==> Closed(m.store)
    ensures outcome.Refused? || outcome.Uncreated? ==> (Closed(m.store) <==> !old(HasRunningDependent(m.store, id)))
    ensures outcome.Refused? || outcome.Uncreated? ==> m.LeftIn(id, outcome, m.refusals - old(m.refusals))
    ensures Checked(Deps(old(m.store)), m.answers, |old(m.answers)|, starts)
    ensures outcome.Started? ==> starts != [] && starts[|starts| - 1].id == id
    ensures Framed(old(m.store), m.store, id)
    ensures m.log == old(m.log) + starts && Logged(old(m.store), m.store, starts, id, outcome.Started?)
  {
    hide Framed, ClosedExcept, Logged, Edge, Reaches, Waits, WaitRanked, Guarded, RunsInCircle, WaitingRank, HasRunningDependent,
      Checked, Prepared;
    ghost var a := m.store;
    CheckedNothing(Deps(a), m.answers, |m.answers|);
    ghost var rank := WaitingRank(Begun(a, id, m.Fresh(id)), id);
    RankForStart(a, id, m.Fresh(id));
    ClosedExceptMore(a, id);
    assert {} + {id} == {id};
    var found := m.Get(id);
    if found.None? {
      SoundNothingYet(a, id, {});
      return Failed, [];
    }
    if found.value.containerId == "" {
      outcome, starts := m.CreateAndStartModule(id, true, {}, rank);
    } else {
      outcome, starts := m.StartModule(id, {}, rank);
    }
    ClosureExactly(a, m.store, id, rank);
    if outcome.Started? {
      ClosedMeansTransitive(m.store, id);
      StartedExactly(a, m.store, id);
    }
  }

  lemma {:induction false} ClosedExceptMore(a: Store, id: Id)
    requires Closed(a)
    ensures ClosedExcept(a, {} + {id})
  {
  }
}
