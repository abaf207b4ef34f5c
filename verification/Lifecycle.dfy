/**
 Lifecycle events derived from samples (internal/metrics/collector.go): every poll compares each
 server's health and roster with the stored baseline and emits SERVER_HEALTHY, PLAYER_JOIN and
 PLAYER_LEAVE.  The guarantees are about whole runs between two resets of a baseline.
 */
module Lifecycle {
  import opened Common

  type ServerId = string
  type Player = string

  /** The docker status of a server's container, as far as the detector distinguishes it. */
  datatype Status = StatusRunning | StatusUnhealthy | StatusStarting | StatusDown

  /** Cached metrics: the sampled names and the reported number of players. */
  datatype Metrics = Metrics(playerSample: seq<Player>, playersOnline: int)

  /** What one poll sees of a server; no container and a failing status check are `None`. */
  datatype Sample = Sample(status: Option<Status>, metrics: Option<Metrics>)

  /** lifecycleState: `players` is None until a roster was sampled. */
  datatype State = State(healthy: bool, players: Option<set<Player>>)

  datatype Event = ServerHealthy | Join(player: Player) | Leave(player: Player)

  // ---------- one sample ----------

  predicate Alive(s: Sample) {
    s.status.Some? && s.status.value != StatusDown
  }

  predicate Healthy(s: Sample) {
    s.status == Some(StatusRunning)
  }

  /** The sampled roster, unknown when fewer names than players were reported. */
  function Roster(metrics: Option<Metrics>): (r: Option<set<Player>>)
    ensures r.Some? ==> metrics.Some? && r.value == (set p | p in metrics.value.playerSample && p != "")
    ensures r.Some? <==> metrics.Some? && |metrics.value.playerSample| >= metrics.value.playersOnline
  {
    if metrics.None? || |metrics.value.playerSample| < metrics.value.playersOnline then None
    else Some(set p | p in metrics.value.playerSample && p != "")
  }

  /** The roster a sample records over a baseline: only a healthy sample with a known roster does. */
  function Recorded(s: Sample): Option<set<Player>> {
    if Healthy(s) then Roster(s.metrics) else None
  }

  /** The baseline after a sample. */
  function Next(prev: Option<State>, s: Sample): Option<State> {
    if !Alive(s) then None
    else if prev.None? then Some(State(Healthy(s), Roster(s.metrics)))
    else Some(State(Healthy(s), if Recorded(s).Some? then Recorded(s) else prev.value.players))
  }

  /** `events` lists the players of `joined`, each once, as joins. */
  ghost predicate Joins(events: seq<Event>, joined: set<Player>) {
    && (forall k :: 0 <= k < |events| ==> events[k].Join? && events[k].player in joined)
    && (forall p :: p in joined ==> Join(p) in events)
    && (forall j, k :: 0 <= j < k < |events| ==> events[j] != events[k])
  }

  ghost predicate Leaves(events: seq<Event>, gone: set<Player>) {
    && (forall k :: 0 <= k < |events| ==> events[k].Leave? && events[k].player in gone)
    && (forall p :: p in gone ==> Leave(p) in events)
    && (forall j, k :: 0 <= j < k < |events| ==> events[j] != events[k])
  }

  /**
   The events one sample may emit.  Players come out of Go maps, so their order inside the joins
   and inside the leaves is not determined.
   */
  ghost predicate Emits(prev: Option<State>, s: Sample, events: seq<Event>) {
    if !Alive(s) || prev.None? then events == []
    else
      var health := if Healthy(s) && !prev.value.healthy then [ServerHealthy] else [];
      if Recorded(s).None? || prev.value.players.None? then events == health
      else
        var before, now := prev.value.players.value, Recorded(s).value;
        exists joins, leaves :: events == health + joins + leaves && Joins(joins, now - before) && Leaves(leaves, before - now)
  }

  /** A player's name stands in the cached sample, and as many names as players were reported. */
  predicate SeenOnline(s: Sample, p: Player) {
    p != "" && s.metrics.Some? && p in s.metrics.value.playerSample
  }

  predicate NamesKnown(s: Sample) {
    s.metrics.Some? && |s.metrics.value.playerSample| >= s.metrics.value.playersOnline
  }

  /** What docker's answer does to the baseline. */
  lemma {:induction false} BaselineByStatus(prev: Option<State>, s: Sample)
    ensures Next(prev, s).None? <==> s.status == None || s.status == Some(StatusDown)
    ensures Next(prev, s).Some? ==>
              && (Next(prev, s).value.healthy <==> s.status == Some(StatusRunning))
              && (NamesKnown(s) && (prev.None? || s.status == Some(StatusRunning)) ==>
                    Next(prev, s).value.players.Some?
                    && forall p :: p in Next(prev, s).value.players.value <==> SeenOnline(s, p))
              && (prev.Some? && !(NamesKnown(s) && s.status == Some(StatusRunning)) ==>
                    Next(prev, s).value.players == prev.value.players)
              && (prev.None? && !NamesKnown(s) ==> Next(prev, s).value.players.None?)
  {
  }

  /** Which events a sample emits, each once: nothing on a first sighting or while not healthy. */
  lemma {:induction false} EventsByStatus(prev: Option<State>, s: Sample, events: seq<Event>)
    requires Emits(prev, s, events)
    ensures ServerHealthy in events <==> prev.Some? && !prev.value.healthy && s.status == Some(StatusRunning)
    ensures forall p :: Join(p) in events
              <==> prev.Some? && prev.value.players.Some? && s.status == Some(StatusRunning) && NamesKnown(s)
                   && SeenOnline(s, p) && p !in prev.value.players.value
    ensures forall p :: Leave(p) in events
              <==> prev.Some? && prev.value.players.Some? && s.status == Some(StatusRunning) && NamesKnown(s)
                   && !SeenOnline(s, p) && p in prev.value.players.value
    ensures forall j, k :: 0 <= j < k < |events| ==> events[j] != events[k]
  {
    if Alive(s) && prev.Some? && Recorded(s).Some? && prev.value.players.Some? {
      var health := if Healthy(s) && !prev.value.healthy then [ServerHealthy] else [];
      var before, now := prev.value.players.value, Recorded(s).value;
      var joins, leaves :| events == health + joins + leaves && Joins(joins, now - before) && Leaves(leaves, before - now);
      EventsInParts(health, joins, leaves, now - before, before - now);
    }
  }

  lemma {:induction false} EventsInParts(health: seq<Event>, joins: seq<Event>, leaves: seq<Event>, joined: set<Player>, gone: set<Player>)
    requires health == [] || health == [ServerHealthy]
    requires Joins(joins, joined) && Leaves(leaves, gone)
    ensures var events := health + joins + leaves;
            && (ServerHealthy in events <==> health != [])
            && (forall p :: Join(p) in events <==> p in joined) && (forall p :: Leave(p) in events <==> p in gone)
            && forall j, k :: 0 <= j < k < |events| ==> events[j] != events[k]
  {
    var events := health + joins + leaves;
    forall e ensures e in events <==> e in health || e in joins || e in leaves {
    }
    forall j, k | 0 <= j < k < |events| ensures events[j] != events[k] {
    }
  }

  // ---------- the poll ----------

  datatype Emitted = Emitted(server: ServerId, event: Event)

  function Tagged(server: ServerId, events: seq<Event>): (r: seq<Emitted>)
    ensures |r| == |events|
    ensures forall k :: 0 <= k < |r| ==> r[k] == Emitted(server, events[k])
  {
    seq(|events|, k requires 0 <= k < |events| => Emitted(server, events[k]))
  }

  function MetricsOf(metrics: map<ServerId, Metrics>, server: ServerId): Option<Metrics> {
    if server in metrics then Some(metrics[server]) else None
  }

  class Collector {
    var lifecycle: map<ServerId, State>
    var metrics: map<ServerId, Metrics>
    ghost var bus: seq<Emitted>

    function GetLifecycle(server: ServerId): Option<State>
      reads this`lifecycle
    {
      if server in lifecycle then Some(lifecycle[server]) else None
    }

    function CurrentRoster(server: ServerId): Option<set<Player>>
      reads this`metrics
    {
      Roster(MetricsOf(metrics, server))
    }

    /** What the collecting loops cache for a server. */
    method UpdateMetrics(server: ServerId, m: Metrics)
      modifies this`metrics
      ensures metrics == old(metrics)[server := m]
    {
      metrics := metrics[server := m];
    }

    method SetLifecycle(server: ServerId, state: State)
      modifies this`lifecycle
      ensures lifecycle == old(lifecycle)[server := state]
    {
      lifecycle := lifecycle[server := state];
    }

    method ClearLifecycle(server: ServerId)
      modifies this`lifecycle
      ensures lifecycle == old(lifecycle) - {server}
    {
      lifecycle := lifecycle - {server};
    }

    method Emit(server: ServerId, event: Event)
      modifies this`bus
      ensures bus == old(bus) + [Emitted(server, event)]
    {
      bus := bus + [Emitted(server, event)];
    }

    /** Emits one event per player, in any order. */
    method EmitJoins(server: ServerId, joined: set<Player>) returns (ghost events: seq<Event>)
      modifies this`bus
      ensures Joins(events, joined) && bus == old(bus) + Tagged(server, events)
    {
      var todo := joined;
      events := [];
      while todo != {}
        invariant todo <= joined
        invariant Joins(events, joined - todo) && bus == old(bus) + Tagged(server, events)
        decreases todo
      {
        var name :| name in todo;
        Emit(server, Join(name));
        ghost var longer := events + [Join(name)];
        assert Tagged(server, longer) == Tagged(server, events) + [Emitted(server, Join(name))];
        OneMoreJoin(events, joined - todo, name);
        assert joined - todo + {name} == joined - (todo - {name});
        todo, events := todo - {name}, longer;
      }
      assert joined - todo == joined;
    }

    method EmitLeaves(server: ServerId, gone: set<Player>) returns (ghost events: seq<Event>)
      modifies this`bus
      ensures Leaves(events, gone) && bus == old(bus) + Tagged(server, events)
    {
      var todo := gone;
      events := [];
      while todo != {}
        invariant todo <= gone
        invariant Leaves(events, gone - todo) && bus == old(bus) + Tagged(server, events)
        decreases todo
      {
        var name :| name in todo;
        Emit(server, Leave(name));
        ghost var longer := events + [Leave(name)];
        assert Tagged(server, longer) == Tagged(server, events) + [Emitted(server, Leave(name))];
        OneMoreLeave(events, gone - todo, name);
        assert gone - todo + {name} == gone - (todo - {name});
        todo, events := todo - {name}, longer;
      }
      assert gone - todo == gone;
    }

    /** The sample a poll takes of a server, given what docker answered. */
    function SampleOf(server: ServerId, status: Option<Status>): Sample
      reads this`metrics
    {
      Sample(status, MetricsOf(metrics, server))
    }

    /** The body of the poll for one server. */
    method Detect(server: ServerId, status: Option<Status>) returns (ghost events: seq<Event>)
      modifies this`lifecycle, this`bus
      ensures Emits(old(GetLifecycle(server)), SampleOf(server, status), events)
      ensures GetLifecycle(server) == Next(old(GetLifecycle(server)), SampleOf(server, status))
      ensures forall other :: other != server ==> GetLifecycle(other) == old(GetLifecycle(other))
      ensures bus == old(bus) + Tagged(server, events)
    {
      hide Joins, Leaves, Roster, Tagged;
      events := [];
      NothingTagged(server, bus);
      if status.None? {
        ClearLifecycle(server);
        return;
      }
      var alive := status.value == StatusRunning || status.value == StatusUnhealthy || status.value == StatusStarting;
      if !alive {
        ClearLifecycle(server);
        return;
      }
      var healthy := status.value == StatusRunning;
      var seen := GetLifecycle(server);
      if seen.None? {
        SetLifecycle(server, State(healthy, CurrentRoster(server)));
        return;
      }
      var prev := seen.value;
      var next := prev;
      if healthy && !prev.healthy {
        Emit(server, ServerHealthy);
        events := [ServerHealthy];
      }
      next := next.(healthy := healthy);
      if healthy {
        var roster := CurrentRoster(server);
        if roster.Some? {
          if prev.players.Some? {
            ghost var joins := EmitJoins(server, roster.value - prev.players.value);
            ghost var leaves := EmitLeaves(server, prev.players.value - roster.value);
            TaggedTwice(server, old(bus), events, joins, leaves);
            events := events + joins + leaves;
          }
          next := next.(players := roster);
        }
      }
      SetLifecycle(server, next);
    }
  }

  lemma {:induction false} TaggedAppend(server: ServerId, a: seq<Event>, b: seq<Event>)
    ensures Tagged(server, a + b) == Tagged(server, a) + Tagged(server, b)
  {
  }

  lemma {:induction false} NothingTagged(server: ServerId, bus: seq<Emitted>)
    ensures bus + Tagged(server, []) == bus
    ensures Tagged(server, [ServerHealthy]) == [Emitted(server, ServerHealthy)]
  {
  }

  lemma {:induction false} TaggedTwice(server: ServerId, bus: seq<Emitted>, a: seq<Event>, b: seq<Event>, c: seq<Event>)
    ensures bus + Tagged(server, a) + Tagged(server, b) + Tagged(server, c) == bus + Tagged(server, a + b + c)
  {
    TaggedAppend(server, a, b);
    TaggedAppend(server, a + b, c);
  }

  lemma {:induction false} OneMoreJoin(events: seq<Event>, done: set<Player>, name: Player)
    requires Joins(events, done) && name !in done
    ensures Joins(events + [Join(name)], done + {name})
  {
  }

  lemma {:induction false} OneMoreLeave(events: seq<Event>, done: set<Player>, name: Player)
    requires Leaves(events, done) && name !in done
    ensures Leaves(events + [Leave(name)], done + {name})
  {
  }

  // ---------- runs ----------

  /** A sample and the events it emitted. */
  datatype Step = Step(sample: Sample, events: seq<Event>)

  function StateAfter(start: Option<State>, steps: seq<Step>): Option<State> {
    if steps == [] then start else Next(StateAfter(start, steps[..|steps| - 1]), steps[|steps| - 1].sample)
  }

  /** Every step emitted what its sample asks for over the state the earlier steps left. */
  ghost predicate ValidRun(start: Option<State>, steps: seq<Step>) {
    forall k :: 0 <= k < |steps| ==> Emits(StateAfter(start, steps[..k]), steps[k].sample, steps[k].events)
  }

  function AllEvents(steps: seq<Step>): seq<Event> {
    if steps == [] then [] else AllEvents(steps[..|steps| - 1]) + steps[|steps| - 1].events
  }

  /** No sample of the run resets the baseline. */
  predicate NoReset(steps: seq<Step>) {
    forall k :: 0 <= k < |steps| ==> Alive(steps[k].sample)
  }

  /** The rosters a run without resets records: the baseline's if known, then those of healthy samples. */
  function Rosters(steps: seq<Step>): seq<set<Player>> {
    if steps == [] then []
    else
      var last := steps[|steps| - 1].sample;
      var r := if |steps| == 1 then Roster(last.metrics) else Recorded(last);
      Rosters(steps[..|steps| - 1]) + if r.Some? then [r.value] else []
  }

  /** The joins (true) and leaves (false) of one player, in order. */
  function Moves(p: Player, events: seq<Event>): seq<bool> {
    if events == [] then []
    else
      var e := events[|events| - 1];
      Moves(p, events[..|events| - 1]) + Move(p, e)
  }

  /** Where the membership of `p` changes along a sequence of rosters, with its new value. */
  function Flips(p: Player, rosters: seq<set<Player>>): seq<bool> {
    if |rosters| <= 1 then []
    else
      var before, now := rosters[|rosters| - 2], rosters[|rosters| - 1];
      Flips(p, rosters[..|rosters| - 1]) + if (p in now) != (p in before) then [p in now] else []
  }

  // ---------- what one step contributes ----------

  lemma {:induction false} MovesAppend(p: Player, a: seq<Event>, b: seq<Event>)
    ensures Moves(p, a + b) == Moves(p, a) + Moves(p, b)
    decreases |b|
  {
    MovesOneMore(p, [], ServerHealthy);
    hide Moves;
    if b == [] {
      assert a + b == a;
    } else {
      var front, last := b[..|b| - 1], b[|b| - 1];
      MovesAppend(p, a, front);
      MovesOneMore(p, a + front, last);
      MovesOneMore(p, front, last);
      assert a + b == (a + front) + [last] && b == front + [last];
    }
  }

  function Move(p: Player, e: Event): seq<bool> {
    if e == Join(p) then [true] else if e == Leave(p) then [false] else []
  }

  lemma {:induction false} MovesOneMore(p: Player, events: seq<Event>, e: Event)
    ensures Moves(p, events + [e]) == Moves(p, events) + Move(p, e)
    ensures Moves(p, []) == []
  {
    assert (events + [e])[..|events|] == events;
  }

  lemma {:induction false} NoMoves(p: Player, events: seq<Event>)
    requires Join(p) !in events && Leave(p) !in events
    ensures Moves(p, events) == []
    decreases |events|
  {
    if events != [] {
      NoMoves(p, events[..|events| - 1]);
    }
  }

  /** In a list without repetitions that holds exactly one of a player's two events, that is the only move. */
  lemma {:induction false} OneMove(p: Player, events: seq<Event>, e: Event, join: bool)
    requires e == if join then Join(p) else Leave(p)
    requires e in events && (if join then Leave(p) else Join(p)) !in events
    requires forall j, k :: 0 <= j < k < |events| ==> events[j] != events[k]
    ensures Moves(p, events) == [join]
    decreases |events|
  {
    var front, last := events[..|events| - 1], events[|events| - 1];
    assert events == front + [last];
    if last == e {
      assert e !in front;
      NoMoves(p, front);
    } else {
      assert e in front;
      OneMove(p, front, e, join);
    }
  }

  lemma {:induction false} MovesOfJoins(p: Player, events: seq<Event>, joined: set<Player>)
    requires Joins(events, joined)
    ensures Moves(p, events) == if p in joined then [true] else []
  {
    assert Leave(p) !in events;
    if p in joined {
      OneMove(p, events, Join(p), true);
    } else {
      NoMoves(p, events);
    }
  }

  lemma {:induction false} MovesOfLeaves(p: Player, events: seq<Event>, gone: set<Player>)
    requires Leaves(events, gone)
    ensures Moves(p, events) == if p in gone then [false] else []
  {
    assert Join(p) !in events;
    if p in gone {
      OneMove(p, events, Leave(p), false);
    } else {
      NoMoves(p, events);
    }
  }

  lemma {:induction false} MovesOfStep(p: Player, prev: Option<State>, s: Sample, events: seq<Event>)
    requires Emits(prev, s, events) && Alive(s)
    ensures prev.None? || prev.value.players.None? || Recorded(s).None? ==> Moves(p, events) == []
    ensures prev.Some? && prev.value.players.Some? && Recorded(s).Some? ==>
              var before, now := prev.value.players.value, Recorded(s).value;
              Moves(p, events) == if (p in now) != (p in before) then [p in now] else []
  {
    hide Moves, Joins, Leaves;
    if prev.None? || prev.value.players.None? || Recorded(s).None? {
      NoMoves(p, events);
    } else {
      var health := if Healthy(s) && !prev.value.healthy then [ServerHealthy] else [];
      var before, now := prev.value.players.value, Recorded(s).value;
      var joins, leaves :| events == health + joins + leaves && Joins(joins, now - before) && Leaves(leaves, before - now);
      MovesOfParts(p, health, joins, leaves, before, now);
    }
  }

  lemma {:induction false} MovesOfParts(p: Player, health: seq<Event>, joins: seq<Event>, leaves: seq<Event>,
                                        before: set<Player>, now: set<Player>)
    requires (health == [] || health == [ServerHealthy]) && Joins(joins, now - before) && Leaves(leaves, before - now)
    ensures Moves(p, health + joins + leaves) == if (p in now) != (p in before) then [p in now] else []
  {
    hide Moves, Joins, Leaves;
    NoMoves(p, health);
    MovesAppend(p, health + joins, leaves);
    MovesAppend(p, health, joins);
    MovesOfJoins(p, joins, now - before);
    MovesOfLeaves(p, leaves, before - now);
  }

  // ---------- whole runs ----------

  lemma {:induction false} ValidPrefix(start: Option<State>, steps: seq<Step>, n: nat)
    requires ValidRun(start, steps) && n <= |steps|
    ensures ValidRun(start, steps[..n])
    ensures NoReset(steps) ==> NoReset(steps[..n])
  {
    forall k | 0 <= k < n
      ensures Emits(StateAfter(start, steps[..n][..k]), steps[..n][k].sample, steps[..n][k].events)
    {
      assert steps[..n][..k] == steps[..k];
    }
  }

  /** The stored roster is the last recorded one, unknown while none was recorded. */
  lemma {:induction false} StoredRoster(steps: seq<Step>)
    requires NoReset(steps) && steps != []
    ensures StateAfter(None, steps).Some?
    ensures StateAfter(None, steps).value.players
            == if Rosters(steps) == [] then None else Some(Rosters(steps)[|Rosters(steps)| - 1])
    decreases |steps|
  {
    var front := steps[..|steps| - 1];
    if front == [] {
      assert StateAfter(None, front) == None;
    } else {
      StoredRoster(front);
    }
  }

  /**
   Between resets the joins and leaves of every player are exactly the changes of its membership
   along the recorded rosters.
   */
  lemma {:induction false} EventsAreRosterDifferences(p: Player, steps: seq<Step>)
    requires ValidRun(None, steps) && NoReset(steps)
    ensures Moves(p, AllEvents(steps)) == Flips(p, Rosters(steps))
    decreases |steps|
  {
    if steps != [] {
      var n := |steps| - 1;
      var front, last := steps[..n], steps[n];
      ValidPrefix(None, steps, n);
      assert Emits(StateAfter(None, front), last.sample, last.events);
      hide Moves, Flips, Emits, Recorded, ValidRun;
      EventsAreRosterDifferences(p, front);
      MovesAppend(p, AllEvents(front), last.events);
      MovesOfStep(p, StateAfter(None, front), last.sample, last.events);
      if front != [] {
        StoredRoster(front);
        FlipsOneMore(p, Rosters(front), Recorded(last.sample));
      }
    }
  }

  lemma {:induction false} FlipsOneMore(p: Player, rosters: seq<set<Player>>, r: Option<set<Player>>)
    ensures Flips(p, rosters + if r.Some? then [r.value] else [])
            == Flips(p, rosters)
               + if r.Some? && rosters != [] && (p in r.value) != (p in rosters[|rosters| - 1]) then [p in r.value] else []
  {
    if r.Some? {
      assert (rosters + [r.value])[..|rosters|] == rosters;
    } else {
      assert rosters + [] == rosters;
    }
  }

  /** Along rosters a membership can only alternate, and it ends as in the last roster. */
  lemma {:induction false} FlipsAlternate(p: Player, rosters: seq<set<Player>>)
    requires rosters != []
    ensures var f := Flips(p, rosters);
            (forall k :: 0 <= k < |f| - 1 ==> f[k] != f[k + 1])
            && (f != [] ==> f[0] == (p !in rosters[0]))
            && (p in rosters[|rosters| - 1]) == if f == [] then p in rosters[0] else f[|f| - 1]
    decreases |rosters|
  {
    if |rosters| > 1 {
      FlipsAlternate(p, rosters[..|rosters| - 1]);
    }
  }

  /** A player's events strictly alternate, starting with the move away from the first recorded roster. */
  lemma {:induction false} PlayerEventsAlternate(p: Player, steps: seq<Step>)
    requires ValidRun(None, steps) && NoReset(steps)
    ensures var moves := Moves(p, AllEvents(steps));
            (forall k :: 0 <= k < |moves| - 1 ==> moves[k] != moves[k + 1])
            && (moves != [] ==> Rosters(steps) != [] && moves[0] == (p !in Rosters(steps)[0]))
  {
    EventsAreRosterDifferences(p, steps);
    if Rosters(steps) != [] {
      FlipsAlternate(p, Rosters(steps));
    }
  }

  /** Applying joins and leaves to a roster. */
  function Replay(roster: set<Player>, events: seq<Event>): set<Player> {
    if events == [] then roster
    else
      var r := Replay(roster, events[..|events| - 1]);
      match events[|events| - 1]
      case ServerHealthy => r
      case Join(p) => r + {p}
      case Leave(p) => r - {p}
  }

  lemma {:induction false} ReplayByMoves(p: Player, roster: set<Player>, events: seq<Event>)
    ensures (p in Replay(roster, events))
            == if Moves(p, events) == [] then p in roster else Moves(p, events)[|Moves(p, events)| - 1]
    decreases |events|
  {
    if events != [] {
      ReplayByMoves(p, roster, events[..|events| - 1]);
    }
  }

  /** Replaying a run's events on its first recorded roster gives the roster that is stored. */
  lemma {:induction false} ReplayGivesStoredRoster(steps: seq<Step>)
    requires ValidRun(None, steps) && NoReset(steps) && Rosters(steps) != []
    ensures StateAfter(None, steps).Some?
    ensures StateAfter(None, steps).value.players == Some(Replay(Rosters(steps)[0], AllEvents(steps)))
  {
    StoredRoster(steps);
    var rosters := Rosters(steps);
    var replayed := Replay(rosters[0], AllEvents(steps));
    forall p ensures p in replayed <==> p in rosters[|rosters| - 1] {
      EventsAreRosterDifferences(p, steps);
      FlipsAlternate(p, rosters);
      ReplayByMoves(p, rosters[0], AllEvents(steps));
    }
    assert replayed == rosters[|rosters| - 1];
  }

  /** A sample after the first that records nothing leaves no trace in the recorded rosters. */
  lemma {:induction false} SilentRosters(u: seq<Step>, silent: Step, v: seq<Step>)
    requires u != [] && Recorded(silent.sample).None?
    ensures Rosters(u + [silent] + v) == Rosters(u + v)
    decreases |v|
  {
    var a, b := u + [silent] + v, u + v;
    if v == [] {
      assert a[..|a| - 1] == u && b == u;
    } else {
      SilentRosters(u, silent, v[..|v| - 1]);
      assert a[..|a| - 1] == u + [silent] + v[..|v| - 1];
      assert b[..|b| - 1] == u + v[..|v| - 1];
    }
  }

  /** The samples of a run. */
  function Samples(steps: seq<Step>): (r: seq<Sample>)
    ensures |r| == |steps| && forall k :: 0 <= k < |r| ==> r[k] == steps[k].sample
  {
    seq(|steps|, k requires 0 <= k < |steps| => steps[k].sample)
  }

  lemma {:induction false} SamplesMeaning(a: seq<Step>, b: seq<Step>)
    requires Samples(a) == Samples(b)
    ensures |a| == |b| && forall k :: 0 <= k < |a| ==> a[k].sample == b[k].sample
    ensures a != [] ==> Samples(a[..|a| - 1]) == Samples(b[..|a| - 1])
  {
    assert |Samples(a)| == |Samples(b)|;
    forall k | 0 <= k < |a| ensures a[k].sample == b[k].sample {
      assert Samples(a)[k] == Samples(b)[k];
    }
  }

  lemma {:induction false} RostersOfSamples(a: seq<Step>, b: seq<Step>)
    requires Samples(a) == Samples(b)
    ensures Rosters(a) == Rosters(b)
    decreases |a|
  {
    SamplesMeaning(a, b);
    if a != [] {
      hide Samples, Recorded, Roster;
      RostersOfSamples(a[..|a| - 1], b[..|a| - 1]);
    }
  }

  /**
   Unhealthy samples and samples with an unknown roster are transparent: a run with such a sample
   and any run over the same samples without it give every player the same joins and leaves.
   */
  lemma {:induction false} SilentSamplesAreTransparent(p: Player, u: seq<Step>, silent: Step, v: seq<Step>, without: seq<Step>)
    requires u != [] && Recorded(silent.sample).None?
    requires ValidRun(None, u + [silent] + v) && NoReset(u + [silent] + v)
    requires ValidRun(None, without) && NoReset(without) && Samples(without) == Samples(u + v)
    ensures Moves(p, AllEvents(u + [silent] + v)) == Moves(p, AllEvents(without))
  {
    EventsAreRosterDifferences(p, u + [silent] + v);
    EventsAreRosterDifferences(p, without);
    SilentRosters(u, silent, v);
    RostersOfSamples(without, u + v);
  }

  // ---------- health ----------

  function HealthEvents(events: seq<Event>): nat {
    if events == [] then 0
    else HealthEvents(events[..|events| - 1]) + if events[|events| - 1] == ServerHealthy then 1 else 0
  }

  /** How often a run without resets goes from an observed not-healthy sample to a healthy one. */
  function RisingEdges(steps: seq<Step>): nat {
    if |steps| <= 1 then 0
    else
      RisingEdges(steps[..|steps| - 1])
      + if Healthy(steps[|steps| - 1].sample) && !Healthy(steps[|steps| - 2].sample) then 1 else 0
  }

  lemma {:induction false} HealthAppend(a: seq<Event>, b: seq<Event>)
    ensures HealthEvents(a + b) == HealthEvents(a) + HealthEvents(b)
    decreases |b|
  {
    if b == [] {
      assert a + b == a;
    } else {
      HealthAppend(a, b[..|b| - 1]);
      assert (a + b)[..|a + b| - 1] == a + b[..|b| - 1];
    }
  }

  lemma {:induction false} NoHealth(events: seq<Event>)
    requires ServerHealthy !in events
    ensures HealthEvents(events) == 0
    decreases |events|
  {
    if events != [] {
      NoHealth(events[..|events| - 1]);
    }
  }

  lemma {:induction false} HealthOfStep(prev: Option<State>, s: Sample, events: seq<Event>)
    requires Emits(prev, s, events) && Alive(s)
    ensures HealthEvents(events) == if prev.Some? && Healthy(s) && !prev.value.healthy then 1 else 0
  {
    if prev.Some? {
      var health := if Healthy(s) && !prev.value.healthy then [ServerHealthy] else [];
      assert HealthEvents([ServerHealthy]) == 1 by { assert [ServerHealthy][..0] == []; }
      if Recorded(s).Some? && prev.value.players.Some? {
        var before, now := prev.value.players.value, Recorded(s).value;
        var joins, leaves :| events == health + joins + leaves && Joins(joins, now - before) && Leaves(leaves, before - now);
        NoHealth(joins);
        NoHealth(leaves);
        HealthAppend(health + joins, leaves);
        HealthAppend(health, joins);
      }
    }
  }

  lemma {:induction false} StoredHealth(steps: seq<Step>)
    requires NoReset(steps) && steps != []
    ensures StateAfter(None, steps).Some? && StateAfter(None, steps).value.healthy == Healthy(steps[|steps| - 1].sample)
    decreases |steps|
  {
  }

  /** SERVER_HEALTHY fires once per observed edge from not healthy to healthy and never on a baseline. */
  lemma {:induction false} HealthyOncePerEdge(steps: seq<Step>)
    requires ValidRun(None, steps) && NoReset(steps)
    ensures HealthEvents(AllEvents(steps)) == RisingEdges(steps)
    ensures steps != [] ==> steps[0].events == []
    decreases |steps|
  {
    if steps != [] {
      var n := |steps| - 1;
      ValidPrefix(None, steps, n);
      HealthyOncePerEdge(steps[..n]);
      HealthAppend(AllEvents(steps[..n]), steps[n].events);
      HealthOfStep(StateAfter(None, steps[..n]), steps[n].sample, steps[n].events);
      assert steps[..0] == [];
      if n > 0 {
        StoredHealth(steps[..n]);
      }
    }
  }

  lemma {:induction false} StateAfterAppend(start: Option<State>, u: seq<Step>, v: seq<Step>)
    ensures StateAfter(start, u + v) == StateAfter(StateAfter(start, u), v)
    decreases |v|
  {
    hide Next;
    if v == [] {
      assert u + v == u;
    } else {
      StateAfterAppend(start, u, v[..|v| - 1]);
      assert (u + v)[..|u + v| - 1] == u + v[..|v| - 1];
    }
  }

  lemma {:induction false} AllEventsOneMore(u: seq<Step>, step: Step)
    ensures AllEvents(u + [step]) == AllEvents(u) + step.events
    ensures AllEvents([]) == []
  {
  }

  lemma {:induction false} AllEventsAppend(u: seq<Step>, v: seq<Step>)
    ensures AllEvents(u + v) == AllEvents(u) + AllEvents(v)
    decreases |v|
  {
    hide AllEvents;
    if v == [] {
      assert u + v == u;
      AllEventsOneMore(u, Step(Sample(None, None), []));
    } else {
      var front, last := v[..|v| - 1], v[|v| - 1];
      AllEventsAppend(u, front);
      AllEventsOneMore(u + front, last);
      AllEventsOneMore(front, last);
      assert u + v == (u + front) + [last] && v == front + [last];
    }
  }

  /** After a reset a run starts over: the theorems above apply to what follows. */
  lemma {:induction false} ResetStartsOver(u: seq<Step>, v: seq<Step>)
    requires ValidRun(None, u + v) && StateAfter(None, u) == None
    ensures ValidRun(None, v)
    ensures StateAfter(None, u + v) == StateAfter(None, v)
    ensures AllEvents(u + v) == AllEvents(u) + AllEvents(v)
  {
    StateAfterAppend(None, u, v);
    AllEventsAppend(u, v);
    hide StateAfter, Emits;
    forall k | 0 <= k < |v| ensures Emits(StateAfter(None, v[..k]), v[k].sample, v[k].events) {
      StateAfterAppend(None, u, v[..k]);
      assert (u + v)[..|u| + k] == u + v[..k] && (u + v)[|u| + k] == v[k];
    }
  }

  // ---------- every poll extends the run of every server ----------

  function EventsOf(server: ServerId, bus: seq<Emitted>): seq<Event> {
    if bus == [] then []
    else EventsOf(server, bus[..|bus| - 1]) + if bus[|bus| - 1].server == server then [bus[|bus| - 1].event] else []
  }

  lemma {:induction false} EventsOfTagged(server: ServerId, bus: seq<Emitted>, tag: ServerId, events: seq<Event>)
    ensures EventsOf(server, bus + Tagged(tag, events)) == EventsOf(server, bus) + if server == tag then events else []
    decreases |events|
  {
    hide EventsOf;
    if events == [] {
      assert bus + Tagged(tag, events) == bus;
    } else {
      var front, last := events[..|events| - 1], events[|events| - 1];
      EventsOfTagged(server, bus, tag, front);
      assert bus + Tagged(tag, events) == (bus + Tagged(tag, front)) + [Emitted(tag, last)];
      EventsOfOneMore(server, bus + Tagged(tag, front), Emitted(tag, last));
      assert events == front + [last];
    }
  }

  lemma {:induction false} EventsOfOneMore(server: ServerId, bus: seq<Emitted>, e: Emitted)
    ensures EventsOf(server, bus + [e]) == EventsOf(server, bus) + if e.server == server then [e.event] else []
  {
  }

  function HistoryOf(histories: map<ServerId, seq<Step>>, server: ServerId): seq<Step> {
    if server in histories then histories[server] else []
  }

  /** `histories` explains the collector: each server's baseline and its events on the bus come from a valid run. */
  ghost predicate Explains(histories: map<ServerId, seq<Step>>, c: Collector)
    reads c
  {
    forall server ::
      && ValidRun(None, HistoryOf(histories, server))
      && c.GetLifecycle(server) == StateAfter(None, HistoryOf(histories, server))
      && EventsOf(server, c.bus) == AllEvents(HistoryOf(histories, server))
  }

  lemma {:induction false} ValidRunOneMore(start: Option<State>, steps: seq<Step>, step: Step)
    requires ValidRun(start, steps) && Emits(StateAfter(start, steps), step.sample, step.events)
    ensures ValidRun(start, steps + [step])
    ensures StateAfter(start, steps + [step]) == Next(StateAfter(start, steps), step.sample)
    ensures AllEvents(steps + [step]) == AllEvents(steps) + step.events
  {
    var longer := steps + [step];
    assert longer[..|steps|] == steps;
    forall k | 0 <= k < |longer| ensures Emits(StateAfter(start, longer[..k]), longer[k].sample, longer[k].events) {
      assert k < |steps| ==> longer[..k] == steps[..k];
    }
  }

  /** The sample counts for `server` when it was taken of it. */
  function OneSample(server: ServerId, of: ServerId, sample: Sample): seq<Sample> {
    if server == of then [sample] else []
  }

  /** The history of `server` goes on by steps over these samples. */
  ghost predicate Continues(before: map<ServerId, seq<Step>>, after: map<ServerId, seq<Step>>, server: ServerId, samples: seq<Sample>) {
    && HistoryOf(before, server) <= HistoryOf(after, server)
    && Samples(HistoryOf(after, server)) == Samples(HistoryOf(before, server)) + samples
  }

  lemma {:induction false} ContinuesNot(h: map<ServerId, seq<Step>>, server: ServerId)
    ensures Continues(h, h, server, [])
  {
  }

  lemma {:induction false} ContinuesThen(a: map<ServerId, seq<Step>>, b: map<ServerId, seq<Step>>, c: map<ServerId, seq<Step>>,
                                         server: ServerId, u: seq<Sample>, v: seq<Sample>)
    requires Continues(a, b, server, u) && Continues(b, c, server, v)
    ensures Continues(a, c, server, u + v)
  {
    hide HistoryOf, Samples;
    var x, y, z := HistoryOf(a, server), HistoryOf(b, server), HistoryOf(c, server);
    assert x <= z;
    assert Samples(x) + (u + v) == (Samples(x) + u) + v;
  }

  lemma {:induction false} ContinuesOne(h: map<ServerId, seq<Step>>, tag: ServerId, step: Step, server: ServerId)
    ensures Continues(h, h[tag := HistoryOf(h, tag) + [step]], server, OneSample(server, tag, step.sample))
  {
  }

  /** One more valid step of one server, with its events on the bus. */
  lemma {:induction false} ExplainsOneMore(h: map<ServerId, seq<Step>>, server: ServerId, step: Step, before: seq<Emitted>, c: Collector)
    requires forall other :: ValidRun(None, HistoryOf(h, other)) && EventsOf(other, before) == AllEvents(HistoryOf(h, other))
    requires forall other :: other != server ==> c.GetLifecycle(other) == StateAfter(None, HistoryOf(h, other))
    requires Emits(StateAfter(None, HistoryOf(h, server)), step.sample, step.events)
    requires c.GetLifecycle(server) == Next(StateAfter(None, HistoryOf(h, server)), step.sample)
    requires c.bus == before + Tagged(server, step.events)
    ensures Explains(h[server := HistoryOf(h, server) + [step]], c)
  {
    hide ValidRun, StateAfter, AllEvents, EventsOf, Emits, Next;
    ValidRunOneMore(None, HistoryOf(h, server), step);
    forall other ensures EventsOf(other, c.bus) == EventsOf(other, before) + if other == server then step.events else [] {
      EventsOfTagged(other, before, server, step.events);
    }
  }

  /** The samples that one poll takes of a server. */
  function PollSamples(server: ServerId, servers: seq<(ServerId, Option<Status>)>, metrics: map<ServerId, Metrics>): seq<Sample> {
    if servers == [] then []
    else
      var last := servers[|servers| - 1];
      PollSamples(server, servers[..|servers| - 1], metrics)
      + OneSample(server, last.0, Sample(last.1, MetricsOf(metrics, server)))
  }

  lemma {:induction false} PollOneMore(server: ServerId, servers: seq<(ServerId, Option<Status>)>, i: nat, metrics: map<ServerId, Metrics>)
    requires i < |servers|
    ensures PollSamples(server, servers[..i + 1], metrics)
            == PollSamples(server, servers[..i], metrics)
               + OneSample(server, servers[i].0, Sample(servers[i].1, MetricsOf(metrics, server)))
    ensures PollSamples(server, [], metrics) == []
  {
    assert servers[..i + 1][..i] == servers[..i];
  }

  /**
   One poll over all listed servers, with the status docker reports for each: every server's history
   goes on by exactly the samples this poll takes of it.
   */
  method DetectLifecycleEvents(c: Collector, servers: seq<(ServerId, Option<Status>)>, ghost histories: map<ServerId, seq<Step>>)
    returns (ghost extended: map<ServerId, seq<Step>>)
    requires Explains(histories, c)
    modifies c`lifecycle, c`bus
    ensures Explains(extended, c)
    ensures forall server :: Continues(histories, extended, server, PollSamples(server, servers, c.metrics))
  {
    hide ValidRun, StateAfter, AllEvents, EventsOf, Emits, Next, PollSamples, Continues;
    extended := histories;
    forall server ensures Continues(histories, extended, server, PollSamples(server, servers[..0], c.metrics)) {
      ContinuesNot(histories, server);
      NoPoll(server, servers, c.metrics);
    }
    for i := 0 to |servers|
      invariant Explains(extended, c)
      invariant forall server :: Continues(histories, extended, server, PollSamples(server, servers[..i], c.metrics))
    {
      var server := servers[i].0;
      ghost var busBefore, before := c.bus, extended;
      ghost var sample := c.SampleOf(server, servers[i].1);
      ghost var events := c.Detect(server, servers[i].1);
      ExplainsOneMore(before, server, Step(sample, events), busBefore, c);
      extended := before[server := HistoryOf(before, server) + [Step(sample, events)]];
      ghost var upToHere := servers[..i + 1];
      forall other ensures Continues(histories, extended, other, PollSamples(other, upToHere, c.metrics)) {
        PollOneMore(other, servers, i, c.metrics);
        ContinuesOne(before, server, Step(sample, events), other);
        ContinuesThen(histories, before, extended, other, PollSamples(other, servers[..i], c.metrics),
                      OneSample(other, server, sample));
      }
    }
    assert servers[..|servers|] == servers;
  }

  lemma {:induction false} NoPoll(server: ServerId, servers: seq<(ServerId, Option<Status>)>, metrics: map<ServerId, Metrics>)
    ensures PollSamples(server, servers[..0], metrics) == []
  {
  }

  /** A deleted server: its metrics and its baseline go, as if it had been seen down. */
  method RemoveMetrics(c: Collector, server: ServerId, ghost histories: map<ServerId, seq<Step>>)
    returns (ghost extended: map<ServerId, seq<Step>>)
    requires Explains(histories, c)
    modifies c`metrics, c`lifecycle
    ensures c.metrics == old(c.metrics) - {server} && c.lifecycle == old(c.lifecycle) - {server}
    ensures Explains(extended, c)
    ensures forall other :: Continues(histories, extended, other, OneSample(other, server, Sample(None, None)))
  {
    hide ValidRun, StateAfter, AllEvents, EventsOf, Continues;
    c.metrics := c.metrics - {server};
    c.ClearLifecycle(server);
    ghost var step := Step(Sample(None, None), []);
    assert c.bus == c.bus + Tagged(server, step.events);
    ExplainsOneMore(histories, server, step, c.bus, c);
    extended := histories[server := HistoryOf(histories, server) + [step]];
    forall other ensures Continues(histories, extended, other, OneSample(other, server, Sample(None, None))) {
      ContinuesOne(histories, server, step, other);
    }
  }

  // ---------- many polls ----------

  /** What happens to the collector: a poll, fresh metrics of a server, a deleted server. */
  datatype Action =
    | Poll(servers: seq<(ServerId, Option<Status>)>)
    | Update(server: ServerId, metrics: Metrics)
    | Remove(server: ServerId)

  function MetricsThen(metrics: map<ServerId, Metrics>, a: Action): map<ServerId, Metrics> {
    match a
    case Poll(_) => metrics
    case Update(server, m) => metrics[server := m]
    case Remove(server) => metrics - {server}
  }

  function MetricsAfter(metrics: map<ServerId, Metrics>, actions: seq<Action>): map<ServerId, Metrics> {
    if actions == [] then metrics
    else MetricsThen(MetricsAfter(metrics, actions[..|actions| - 1]), actions[|actions| - 1])
  }

  /** What one action lets the collector see of a server. */
  function Seen(server: ServerId, a: Action, metrics: map<ServerId, Metrics>): seq<Sample> {
    match a
    case Poll(servers) => PollSamples(server, servers, metrics)
    case Update(_, _) => []
    case Remove(removed) => OneSample(server, removed, Sample(None, None))
  }

  /** Everything the collector sees of a server, in order: the statuses as polled, the metrics as cached then. */
  function Observed(server: ServerId, actions: seq<Action>, metrics: map<ServerId, Metrics>): seq<Sample> {
    if actions == [] then []
    else
      var front, last := actions[..|actions| - 1], actions[|actions| - 1];
      Observed(server, front, metrics) + Seen(server, last, MetricsAfter(metrics, front))
  }

  lemma {:induction false} ObservedOneMore(server: ServerId, actions: seq<Action>, n: nat, metrics: map<ServerId, Metrics>)
    requires n < |actions|
    ensures Observed(server, actions[..n + 1], metrics)
            == Observed(server, actions[..n], metrics) + Seen(server, actions[n], MetricsAfter(metrics, actions[..n]))
    ensures MetricsAfter(metrics, actions[..n + 1]) == MetricsThen(MetricsAfter(metrics, actions[..n]), actions[n])
  {
    assert actions[..n + 1][..n] == actions[..n];
  }

  lemma {:induction false} NothingObserved(server: ServerId, actions: seq<Action>, metrics: map<ServerId, Metrics>)
    ensures Observed(server, actions[..0], metrics) == []
    ensures MetricsAfter(metrics, actions[..0]) == metrics
  {
  }

  method Act(c: Collector, a: Action, ghost histories: map<ServerId, seq<Step>>)
    returns (ghost extended: map<ServerId, seq<Step>>)
    requires Explains(histories, c)
    modifies c
    ensures c.metrics == MetricsThen(old(c.metrics), a)
    ensures Explains(extended, c)
    ensures forall server :: Continues(histories, extended, server, Seen(server, a, old(c.metrics)))
  {
    hide ValidRun, StateAfter, AllEvents, EventsOf, Continues, PollSamples, OneSample;
    match a {
      case Poll(servers) =>
        extended := DetectLifecycleEvents(c, servers, histories);
      case Update(server, m) =>
        c.UpdateMetrics(server, m);
        extended := histories;
        forall other ensures Continues(histories, extended, other, Seen(other, a, old(c.metrics))) {
          ContinuesNot(histories, other);
        }
      case Remove(server) =>
        extended := RemoveMetrics(c, server, histories);
    }
  }

  /** Any run of polls, metric updates and removals: every history is what was observed of its server. */
  method Run(c: Collector, actions: seq<Action>, ghost histories: map<ServerId, seq<Step>>)
    returns (ghost extended: map<ServerId, seq<Step>>)
    requires Explains(histories, c)
    modifies c
    ensures Explains(extended, c)
    ensures forall server :: Continues(histories, extended, server, Observed(server, actions, old(c.metrics)))
  {
    hide ValidRun, StateAfter, AllEvents, EventsOf, Continues, Observed, Seen, MetricsThen, MetricsAfter;
    extended := histories;
    ghost var start := c.metrics;
    ghost var none := actions[..0];
    forall server ensures Continues(histories, extended, server, Observed(server, none, start)) {
      NothingObserved(server, actions, start);
      ContinuesNot(histories, server);
    }
    NothingObserved("", actions, start);
    for n := 0 to |actions|
      invariant Explains(extended, c)
      invariant c.metrics == MetricsAfter(start, actions[..n])
      invariant forall server :: Continues(histories, extended, server, Observed(server, actions[..n], start))
    {
      ghost var before, metrics := extended, c.metrics;
      extended := Act(c, actions[n], before);
      ghost var upToHere := actions[..n + 1];
      ObservedOneMore("", actions, n, start);
      forall server ensures Continues(histories, extended, server, Observed(server, upToHere, start)) {
        ObservedOneMore(server, actions, n, start);
        ContinuesThen(histories, before, extended, server, Observed(server, actions[..n], start), Seen(server, actions[n], metrics));
      }
    }
    assert actions[..|actions|] == actions;
  }

  // ---------- the bus ----------

  /** Samples as steps whose events do not matter. */
  function Bare(samples: seq<Sample>): (steps: seq<Step>)
    ensures Samples(steps) == samples
  {
    seq(|samples|, k requires 0 <= k < |samples| => Step(samples[k], []))
  }

  lemma {:induction false} EdgesOfSamples(a: seq<Step>, b: seq<Step>)
    requires Samples(a) == Samples(b)
    ensures RisingEdges(a) == RisingEdges(b)
    decreases |a|
  {
    SamplesMeaning(a, b);
    if |a| > 1 {
      hide Samples, Healthy;
      EdgesOfSamples(a[..|a| - 1], b[..|a| - 1]);
    }
  }

  /** How many samples there are up to and with the last that resets the baseline. */
  function LastReset(samples: seq<Sample>): (r: nat)
    ensures r <= |samples|
    ensures r > 0 ==> !Alive(samples[r - 1])
    ensures forall k :: r <= k < |samples| ==> Alive(samples[k])
  {
    if samples == [] then 0
    else if !Alive(samples[|samples| - 1]) then |samples|
    else LastReset(samples[..|samples| - 1])
  }

  /** The moves of a player that samples call for: from reset to reset, the differences of the rosters since the one before. */
  function CalledMoves(p: Player, samples: seq<Sample>): seq<bool>
    decreases |samples|
  {
    var r := LastReset(samples);
    (if r == 0 then [] else CalledMoves(p, samples[..r - 1])) + Flips(p, Rosters(Bare(samples[r..])))
  }

  /** How often samples call for SERVER_HEALTHY: once per edge between two resets. */
  function CalledEdges(samples: seq<Sample>): nat
    decreases |samples|
  {
    var r := LastReset(samples);
    (if r == 0 then 0 else CalledEdges(samples[..r - 1])) + RisingEdges(Bare(samples[r..]))
  }

  /** What the bus holds of a server is what its samples call for. */
  ghost predicate BusTells(bus: seq<Emitted>, server: ServerId, samples: seq<Sample>) {
    && (forall p :: Moves(p, EventsOf(server, bus)) == CalledMoves(p, samples))
    && HealthEvents(EventsOf(server, bus)) == CalledEdges(samples)
  }

  lemma {:induction false} SamplesOfPart(steps: seq<Step>, r: nat)
    requires r <= |steps|
    ensures Samples(steps[r..]) == Samples(steps)[r..] && Samples(steps[..r]) == Samples(steps)[..r]
  {
  }

  lemma {:induction false} AliveSinceReset(steps: seq<Step>)
    ensures var r := LastReset(Samples(steps));
            && r <= |steps| && NoReset(steps[r..]) && (r > 0 ==> !Alive(steps[r - 1].sample))
  {
    hide Alive;
    var r := LastReset(Samples(steps));
    forall k | r <= k < |steps| ensures Alive(steps[k].sample) {
      assert Samples(steps)[k] == steps[k].sample;
    }
  }

  /** The reset itself emits nothing and forgets the baseline. */
  lemma {:induction false} ResetStep(steps: seq<Step>, r: nat)
    requires ValidRun(None, steps) && 0 < r <= |steps| && !Alive(steps[r - 1].sample)
    ensures StateAfter(None, steps[..r]) == None && AllEvents(steps[..r]) == AllEvents(steps[..r - 1])
  {
    hide Alive;
    assert steps[..r][..r - 1] == steps[..r - 1] && steps[..r][r - 1] == steps[r - 1];
    assert Emits(StateAfter(None, steps[..r - 1]), steps[r - 1].sample, steps[r - 1].events);
    assert AllEvents(steps[..r]) == AllEvents(steps[..r - 1]) + [];
  }

  /** A run cut before and after a reset. */
  lemma {:induction false} CutAtReset(steps: seq<Step>, r: nat)
    requires ValidRun(None, steps) && 0 < r <= |steps| && !Alive(steps[r - 1].sample)
    ensures ValidRun(None, steps[..r - 1]) && ValidRun(None, steps[r..])
    ensures AllEvents(steps) == AllEvents(steps[..r - 1]) + AllEvents(steps[r..])
  {
    hide StateAfter, ValidRun, AllEvents, Alive, NoReset;
    ResetStep(steps, r);
    ValidPrefix(None, steps, r - 1);
    assert steps == steps[..r] + steps[r..];
    CutAfter(steps, steps[..r], steps[r..]);
  }

  lemma {:induction false} CutAfter(steps: seq<Step>, u: seq<Step>, v: seq<Step>)
    requires ValidRun(None, steps) && steps == u + v && StateAfter(None, u) == None
    ensures ValidRun(None, v) && AllEvents(steps) == AllEvents(u) + AllEvents(v)
  {
    hide StateAfter, ValidRun, AllEvents, Alive, NoReset;
    ResetStartsOver(u, v);
  }

  lemma {:induction false} CalledRule(p: Player, samples: seq<Sample>)
    ensures var r := LastReset(samples);
            if r == 0 then
              CalledMoves(p, samples) == Flips(p, Rosters(Bare(samples))) && CalledEdges(samples) == RisingEdges(Bare(samples))
            else
              && CalledMoves(p, samples) == CalledMoves(p, samples[..r - 1]) + Flips(p, Rosters(Bare(samples[r..])))
              && CalledEdges(samples) == CalledEdges(samples[..r - 1]) + RisingEdges(Bare(samples[r..]))
  {
    hide LastReset, Flips, Rosters, RisingEdges, Bare;
    assert samples[0..] == samples;
  }

  /** Without resets a valid run emits what its samples call for. */
  lemma {:induction false} AliveEmitsCalled(p: Player, steps: seq<Step>)
    requires ValidRun(None, steps) && NoReset(steps)
    ensures Moves(p, AllEvents(steps)) == Flips(p, Rosters(Bare(Samples(steps))))
    ensures HealthEvents(AllEvents(steps)) == RisingEdges(Bare(Samples(steps)))
  {
    hide ValidRun, NoReset, Moves, Flips, Rosters, AllEvents, HealthEvents, RisingEdges, Bare, Samples;
    EventsAreRosterDifferences(p, steps);
    HealthyOncePerEdge(steps);
    RostersOfSamples(Bare(Samples(steps)), steps);
    EdgesOfSamples(Bare(Samples(steps)), steps);
  }

  /** Any valid run emits what its samples call for. */
  lemma {:induction false} RunEmitsCalled(p: Player, steps: seq<Step>)
    requires ValidRun(None, steps)
    ensures Moves(p, AllEvents(steps)) == CalledMoves(p, Samples(steps))
    ensures HealthEvents(AllEvents(steps)) == CalledEdges(Samples(steps))
    decreases |steps|
  {
    hide ValidRun, NoReset, Moves, Flips, Rosters, AllEvents, HealthEvents, RisingEdges, LastReset, Alive, CalledMoves,
      CalledEdges, Bare;
    var r := LastReset(Samples(steps));
    AliveSinceReset(steps);
    CalledRule(p, Samples(steps));
    if r == 0 {
      assert steps[0..] == steps;
      AliveEmitsCalled(p, steps);
    } else {
      CutAtReset(steps, r);
      SamplesOfPart(steps, r);
      SamplesOfPart(steps, r - 1);
      AliveEmitsCalled(p, steps[r..]);
      RunEmitsCalled(p, steps[..r - 1]);
      MovesAppend(p, AllEvents(steps[..r - 1]), AllEvents(steps[r..]));
      HealthAppend(AllEvents(steps[..r - 1]), AllEvents(steps[r..]));
    }
  }

  lemma {:induction false} BusOfRun(bus: seq<Emitted>, server: ServerId, steps: seq<Step>)
    requires ValidRun(None, steps) && EventsOf(server, bus) == AllEvents(steps)
    ensures BusTells(bus, server, Samples(steps))
  {
    hide ValidRun, Moves, EventsOf, AllEvents, HealthEvents, CalledMoves, CalledEdges, Samples;
    RunEmitsCalled("", steps);
    forall p ensures Moves(p, EventsOf(server, bus)) == CalledMoves(p, Samples(steps)) {
      RunEmitsCalled(p, steps);
    }
  }

  /**
   From an empty collector, after any run, for every server: the joins and leaves on the bus are the
   differences of the rosters that were polled between two sightings of it down, and SERVER_HEALTHY
   stands on it once per polled edge from not healthy to healthy between them.
   */
  method RunFromStart(c: Collector, actions: seq<Action>)
    requires c.lifecycle == map[] && c.bus == []
    modifies c
    ensures forall server :: BusTells(c.bus, server, Observed(server, actions, old(c.metrics)))
  {
    hide ValidRun, StateAfter, AllEvents, EventsOf, Observed, BusTells, Samples;
    ghost var nothing: map<ServerId, seq<Step>> := map[];
    NothingYet(c, nothing);
    ghost var metrics := c.metrics;
    ghost var histories := Run(c, actions, nothing);
    forall server ensures BusTells(c.bus, server, Observed(server, actions, metrics)) {
      FromNothing(nothing, histories, server, Observed(server, actions, metrics));
      BusOfRun(c.bus, server, HistoryOf(histories, server));
    }
  }

  lemma {:induction false} NothingYet(c: Collector, h: map<ServerId, seq<Step>>)
    requires c.lifecycle == map[] && c.bus == [] && h == map[]
    ensures Explains(h, c)
  {
  }

  lemma {:induction false} FromNothing(a: map<ServerId, seq<Step>>, b: map<ServerId, seq<Step>>, server: ServerId, samples: seq<Sample>)
    requires a == map[] && Continues(a, b, server, samples)
    ensures Samples(HistoryOf(b, server)) == samples
  {
  }

  /** Since a server was last seen down: its later events follow the same laws. */
  lemma {:induction false} BusSinceReset(bus: seq<Emitted>, server: ServerId, u: seq<Step>, v: seq<Step>)
    requires ValidRun(None, u + v) && EventsOf(server, bus) == AllEvents(u + v)
    requires StateAfter(None, u) == None && NoReset(v)
    ensures EventsOf(server, bus) == AllEvents(u) + AllEvents(v)
    ensures forall p :: Moves(p, AllEvents(v)) == Flips(p, Rosters(v))
    ensures HealthEvents(AllEvents(v)) == RisingEdges(v)
  {
    hide ValidRun, NoReset, Moves, Flips, Rosters, EventsOf, AllEvents, HealthEvents, RisingEdges, StateAfter;
    ResetStartsOver(u, v);
    HealthyOncePerEdge(v);
    forall p ensures Moves(p, AllEvents(v)) == Flips(p, Rosters(v)) {
      EventsAreRosterDifferences(p, v);
    }
  }
}
