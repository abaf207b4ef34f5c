/**
 Host ports of modules (internal/db/store.go, internal/module/manager.go,
 internal/rpc/services/module.go): the conflict check, the allocator, and the create, update and
 delete requests that have to keep every two modules from claiming one port.
 */
module Ports {
  import opened Common

  datatype Port = Port(containerPort: int, hostPort: int, protocol: string, proxyEnabled: bool)

  /** The port entries of a module may be nil. */
  type PortList = seq<Option<Port>>

  datatype Module = Module(id: string, server: string, ports: PortList)

  /** Empty means tcp. */
  function Protocol(p: Port): string {
    if p.protocol == "" then "tcp" else p.protocol
  }

  // ---------- conflicts ----------

  /** Two entries of different modules that cannot both be bound. */
  predicate Clash(a: Port, b: Port) {
    a.hostPort == b.hostPort && Protocol(a) == Protocol(b)
    && (!a.proxyEnabled || !b.proxyEnabled || Protocol(a) == "udp")
  }

  predicate Has(ports: PortList, p: Port) {
    Some(p) in ports
  }

  /** No entry of `ports` clashes with a module other than `exclude`. */
  ghost predicate Available(modules: seq<Module>, ports: PortList, exclude: string) {
    forall m :: m in modules && m.id != exclude ==> Apart(ports, m.ports)
  }

  /** No entry of one list with a host port clashes with an entry of the other. */
  ghost predicate Apart(ports: PortList, others: PortList) {
    forall a, b :: Has(ports, a) && a.hostPort != 0 && Has(others, b) ==> !Clash(a, b)
  }

  /** What every reachable store satisfies: no two different modules clash on a host port. */
  ghost predicate Consistent(modules: seq<Module>) {
    && (forall i :: 0 <= i < |modules| ==> modules[i].id != "")
    && (forall i, j :: 0 <= i < j < |modules| ==> modules[i].id != modules[j].id)
    && (forall i, j :: 0 <= i < |modules| && 0 <= j < |modules| && i != j ==> Apart(modules[i].ports, modules[j].ports))
  }

  lemma {:induction false} ClashSymmetric(a: Port, b: Port)
    ensures Clash(a, b) <==> Clash(b, a)
  {
  }

  /** Two different modules that share a host port and a protocol are both proxied, and not over UDP. */
  lemma {:induction false} SharedPortsAreProxied(modules: seq<Module>, i: int, j: int, a: Port, b: Port)
    requires Consistent(modules) && 0 <= i < |modules| && 0 <= j < |modules| && i != j
    requires Has(modules[i].ports, a) && Has(modules[j].ports, b)
    requires a.hostPort == b.hostPort != 0 && Protocol(a) == Protocol(b)
    ensures a.proxyEnabled && b.proxyEnabled && Protocol(a) != "udp"
  {
  }

  datatype Conflict = Conflict(holder: Module, port: int, protocol: string, direct: bool)

  function ConflictWith(m: Module, asked: Port, b: Port): Conflict {
    Conflict(m, asked.hostPort, Protocol(asked), !asked.proxyEnabled || !b.proxyEnabled)
  }

  /** The first entry of `m` from `from` on that clashes. */
  function ConflictIn(m: Module, asked: Port, from: nat): Option<Conflict>
    requires from <= |m.ports|
    decreases |m.ports| - from
  {
    if from == |m.ports| then None
    else if m.ports[from].Some? && Clash(asked, m.ports[from].value) then Some(ConflictWith(m, asked, m.ports[from].value))
    else ConflictIn(m, asked, from + 1)
  }

  /** The first conflict with a module other than `exclude`; hostnames play no part in it. */
  function FindConflict(modules: seq<Module>, asked: Port, exclude: string, from: nat): Option<Conflict>
    requires from <= |modules|
    decreases |modules| - from
  {
    if from == |modules| then None
    else if modules[from].id != exclude && ConflictIn(modules[from], asked, 0).Some? then ConflictIn(modules[from], asked, 0)
    else FindConflict(modules, asked, exclude, from + 1)
  }

  lemma {:induction false} ConflictInMeaning(m: Module, asked: Port, from: nat)
    requires from <= |m.ports|
    ensures ConflictIn(m, asked, from).None? <==> forall k :: from <= k < |m.ports| && m.ports[k].Some? ==> !Clash(asked, m.ports[k].value)
    ensures ConflictIn(m, asked, from).Some? ==>
              exists b :: Has(m.ports, b) && Clash(asked, b) && ConflictIn(m, asked, from).value == ConflictWith(m, asked, b)
    decreases |m.ports| - from
  {
    if from < |m.ports| {
      ConflictInMeaning(m, asked, from + 1);
      if m.ports[from].Some? && Clash(asked, m.ports[from].value) {
        assert Has(m.ports, m.ports[from].value);
      }
    }
  }

  lemma {:induction false} FindConflictFrom(modules: seq<Module>, asked: Port, exclude: string, from: nat)
    requires from <= |modules|
    ensures FindConflict(modules, asked, exclude, from).None?
            <==> forall k :: from <= k < |modules| && modules[k].id != exclude ==> ConflictIn(modules[k], asked, 0).None?
    ensures FindConflict(modules, asked, exclude, from).Some? ==>
              exists k :: from <= k < |modules| && modules[k].id != exclude
                          && FindConflict(modules, asked, exclude, from) == ConflictIn(modules[k], asked, 0)
    decreases |modules| - from
  {
    hide ConflictIn;
    if from < |modules| {
      FindConflictFrom(modules, asked, exclude, from + 1);
    }
  }

  /** Nothing is reported exactly when no entry of another module clashes; what is reported is such an entry. */
  lemma {:induction false} FindConflictMeaning(modules: seq<Module>, asked: Port, exclude: string)
    ensures FindConflict(modules, asked, exclude, 0).None?
            <==> forall m, b :: m in modules && m.id != exclude && Has(m.ports, b) ==> !Clash(asked, b)
    ensures FindConflict(modules, asked, exclude, 0).Some? ==>
              exists m, b :: m in modules && m.id != exclude && Has(m.ports, b) && Clash(asked, b)
                             && FindConflict(modules, asked, exclude, 0).value == ConflictWith(m, asked, b)
  {
    FindConflictFrom(modules, asked, exclude, 0);
    hide Clash, ConflictWith, ConflictIn, FindConflict;
    forall k | 0 <= k < |modules|
      ensures ConflictIn(modules[k], asked, 0).None? <==> forall b :: Has(modules[k].ports, b) ==> !Clash(asked, b)
    {
      ConflictInMeaning(modules[k], asked, 0);
      HasMeaning(modules[k].ports);
    }
    if FindConflict(modules, asked, exclude, 0).Some? {
      var k :| 0 <= k < |modules| && modules[k].id != exclude
               && FindConflict(modules, asked, exclude, 0) == ConflictIn(modules[k], asked, 0);
      ConflictInMeaning(modules[k], asked, 0);
      assert modules[k] in modules;
    }
  }

  /** No entry of the module before its `n`-th clashes. */
  ghost predicate NoneBefore(m: Module, asked: Port, n: int) {
    forall j :: 0 <= j < n && j < |m.ports| && m.ports[j].Some? ==> !Clash(asked, m.ports[j].value)
  }

  lemma {:induction false} ConflictInFirst(m: Module, asked: Port, from: nat) returns (j: nat)
    requires from <= |m.ports| && NoneBefore(m, asked, from)
    ensures from <= j <= |m.ports| && NoneBefore(m, asked, j)
    ensures j == |m.ports| <==> ConflictIn(m, asked, from).None?
    ensures j < |m.ports| ==> m.ports[j].Some? && Clash(asked, m.ports[j].value)
                              && ConflictIn(m, asked, from) == Some(ConflictWith(m, asked, m.ports[j].value))
    decreases |m.ports| - from
  {
    hide Clash, ConflictWith;
    j := from;
    if from < |m.ports| && !(m.ports[from].Some? && Clash(asked, m.ports[from].value)) {
      j := ConflictInFirst(m, asked, from + 1);
    }
  }

  /**
   What is reported is the first clash: no earlier module and no earlier entry of that module has one.
   The port is bound directly when one of the two entries is not proxied, and is UDP otherwise.
   */
  lemma {:induction false} FindConflictFirst(modules: seq<Module>, asked: Port, exclude: string, from: nat)
    returns (k: nat, j: nat)
    requires from <= |modules| && FindConflict(modules, asked, exclude, from).Some?
    ensures from <= k < |modules| && modules[k].id != exclude && j < |modules[k].ports| && modules[k].ports[j].Some?
    ensures forall i :: from <= i < k && modules[i].id != exclude ==> NoneBefore(modules[i], asked, |modules[i].ports|)
    ensures NoneBefore(modules[k], asked, j) && Clash(asked, modules[k].ports[j].value)
    ensures var c := FindConflict(modules, asked, exclude, from).value;
            && c.holder == modules[k] && c.port == asked.hostPort == modules[k].ports[j].value.hostPort
            && c.protocol == (if asked.protocol == "" then "tcp" else asked.protocol)
            && (c.direct <==> !asked.proxyEnabled || !modules[k].ports[j].value.proxyEnabled)
            && (!c.direct ==> c.protocol == "udp")
    decreases |modules| - from
  {
    hide ConflictIn, NoneBefore;
    NothingBefore(modules[from], asked);
    j := ConflictInFirst(modules[from], asked, 0);
    k := from;
    if modules[from].id == exclude || ConflictIn(modules[from], asked, 0).None? {
      hide Clash, ConflictWith;
      k, j := FindConflictFirst(modules, asked, exclude, from + 1);
    }
  }

  lemma {:induction false} NothingBefore(m: Module, asked: Port)
    ensures NoneBefore(m, asked, 0)
  {
  }

  lemma {:induction false} HasMeaning(ports: PortList)
    ensures forall b :: Has(ports, b) <==> exists k :: 0 <= k < |ports| && ports[k].Some? && ports[k].value == b
  {
  }

  /**
   Scans all modules and stops at the first conflict.  The hostname is an argument that is not looked
   at: the answer is one that is found without it.
   */
  method CheckPortAvailability(modules: seq<Module>, hostPort: int, protocol: string, proxyEnabled: bool, hostname: string,
                               exclude: string)
    returns (conflict: Option<Conflict>)
    requires protocol != ""
    ensures conflict == FindConflict(modules, Port(0, hostPort, protocol, proxyEnabled), exclude, 0)
  {
    ghost var asked := Port(0, hostPort, protocol, proxyEnabled);
    for i := 0 to |modules|
      invariant FindConflict(modules, asked, exclude, i) == FindConflict(modules, asked, exclude, 0)
    {
      var m := modules[i];
      if m.id == exclude {
        continue;
      }
      for j := 0 to |m.ports|
        invariant ConflictIn(m, asked, j) == ConflictIn(m, asked, 0)
      {
        var entry := m.ports[j];
        if entry.None? || entry.value.hostPort != hostPort {
          continue;
        }
        var p := entry.value;
        var existingProtocol := p.protocol;
        if existingProtocol == "" {
          existingProtocol := "tcp";
        }
        if existingProtocol != protocol {
          continue;
        }
        if !proxyEnabled || !p.proxyEnabled {
          return Some(Conflict(m, hostPort, protocol, true));
        }
        if protocol == "udp" {
          return Some(Conflict(m, hostPort, protocol, false));
        }
      }
    }
    return None;
  }

  // ---------- the documented rule ----------

  /** What the comment on the check promises: proxied TCP ports can be shared under different hostnames. */
  predicate DocumentedClash(a: Port, hostname: string, b: Port, other: string) {
    a.hostPort == b.hostPort && Protocol(a) == Protocol(b)
    && (!a.proxyEnabled || !b.proxyEnabled || Protocol(a) == "udp" || hostname == other)
  }

  /** An entry that the check lets `asked` share although both hostnames are the same. */
  predicate SharedHostname(asked: Port, hostname: string, b: Port, other: string) {
    SamePort(asked, b) && asked.proxyEnabled && b.proxyEnabled && Protocol(asked) != "udp" && hostname == other
  }

  predicate SamePort(a: Port, b: Port) {
    a.hostPort == b.hostPort && Protocol(a) == Protocol(b)
  }

  /** The hostname of a module is its server's. */
  function HostnameOf(servers: map<string, string>, m: Module): string {
    ServerHostname(servers, m.server)
  }

  function ServerHostname(servers: map<string, string>, server: string): string {
    if server in servers then servers[server] else ""
  }

  ghost predicate DocumentedFree(modules: seq<Module>, asked: Port, hostname: string, exclude: string, servers: map<string, string>) {
    forall m, b :: m in modules && m.id != exclude && Has(m.ports, b) ==> !DocumentedClash(asked, hostname, b, HostnameOf(servers, m))
  }

  /**
   The check agrees with its comment exactly when some other entry clashes anyway or no module of the same
   hostname already has the port proxied, over another protocol than UDP.
   */
  lemma {:induction false} MeetsCommentIff(modules: seq<Module>, asked: Port, hostname: string, exclude: string, servers: map<string, string>)
    ensures (FindConflict(modules, asked, exclude, 0).None? <==> DocumentedFree(modules, asked, hostname, exclude, servers))
            <==> (exists m, b :: m in modules && m.id != exclude && Has(m.ports, b) && Clash(asked, b))
                 || forall m, b :: m in modules && m.id != exclude && Has(m.ports, b) ==>
                                     !SharedHostname(asked, hostname, b, HostnameOf(servers, m))
  {
    FindConflictMeaning(modules, asked, exclude);
    hide FindConflict, Has, HostnameOf, Protocol;
    forall b, other
      ensures DocumentedClash(asked, hostname, b, other) <==> Clash(asked, b) || SharedHostname(asked, hostname, b, other)
    {
    }
  }

  // ---------- allocation ----------

  /** The host ports the allocator takes for used: the positive ones. */
  ghost function UsedPorts(modules: seq<Module>): set<int> {
    set i, j | 0 <= i < |modules| && 0 <= j < |modules[i].ports|
               && modules[i].ports[j].Some? && modules[i].ports[j].value.hostPort > 0
             :: modules[i].ports[j].value.hostPort
  }

  /** `free` lists the ports of lo..hi that are not used, ascending. */
  ghost predicate IsFreeList(free: seq<int>, used: set<int>, lo: int, hi: int) {
    && (forall k :: 0 <= k < |free| ==> lo <= free[k] <= hi && free[k] !in used)
    && (forall p :: lo <= p <= hi && p !in used ==> p in free)
    && (forall j, k :: 0 <= j < k < |free| ==> free[j] < free[k])
  }

  function FreePorts(used: set<int>, lo: int, hi: int): (free: seq<int>)
    ensures IsFreeList(free, used, lo, hi)
    decreases hi - lo
  {
    if lo > hi then []
    else
      var rest := FreePorts(used, lo + 1, hi);
      OneMoreFree(rest, used, lo, hi);
      if lo in used then rest else [lo] + rest
  }

  lemma {:induction false} OneMoreFree(rest: seq<int>, used: set<int>, lo: int, hi: int)
    requires lo <= hi && IsFreeList(rest, used, lo + 1, hi)
    ensures IsFreeList(if lo in used then rest else [lo] + rest, used, lo, hi)
  {
  }

  function First(s: seq<int>, n: nat): set<int>
    requires n <= |s|
  {
    set k | 0 <= k < n :: s[k]
  }

  datatype Range = Range(min: int, max: int)

  /** The least port in the range that no module uses and that is not excluded. */
  method AllocateModulePortExcluding(modules: seq<Module>, range: Range, exclude: set<int>) returns (port: Option<int>)
    ensures port.Some? ==> range.min <= port.value <= range.max && port.value !in UsedPorts(modules) + exclude
                           && forall p :: range.min <= p < port.value ==> p in UsedPorts(modules) + exclude
    ensures port.None? ==> forall p :: range.min <= p <= range.max ==> p in UsedPorts(modules) + exclude
  {
    var usedPorts: set<int> := {};
    for i := 0 to |modules|
      invariant usedPorts == UsedPorts(modules[..i])
    {
      var m := modules[i];
      ghost var before := usedPorts;
      for j := 0 to |m.ports|
        invariant usedPorts == before + UsedPorts([Module("", "", m.ports[..j])])
      {
        UsedOnePort(m.ports[..j], m.ports[j]);
        assert m.ports[..j + 1] == m.ports[..j] + [m.ports[j]];
        if m.ports[j].Some? && m.ports[j].value.hostPort > 0 {
          usedPorts := usedPorts + {m.ports[j].value.hostPort};
        }
      }
      assert m.ports[..|m.ports|] == m.ports;
      UsedOneModule(modules[..i], m);
      assert modules[..i + 1] == modules[..i] + [m];
    }
    assert modules[..|modules|] == modules;
    usedPorts := usedPorts + exclude;
    var candidate := range.min;
    while candidate <= range.max
      invariant forall p :: range.min <= p < candidate ==> p in usedPorts
      decreases range.max - candidate
    {
      if candidate !in usedPorts {
        return Some(candidate);
      }
      candidate := candidate + 1;
    }
    return None;
  }

  lemma {:induction false} UsedOnePort(ports: PortList, entry: Option<Port>)
    ensures UsedPorts([Module("", "", ports + [entry])])
            == UsedPorts([Module("", "", ports)]) + if entry.Some? && entry.value.hostPort > 0 then {entry.value.hostPort} else {}
  {
    var a, b := [Module("", "", ports)], [Module("", "", ports + [entry])];
    forall x | x in UsedPorts(a) ensures x in UsedPorts(b) {
      var j :| 0 <= j < |ports| && ports[j].Some? && ports[j].value.hostPort == x;
      assert b[0].ports[j] == ports[j];
    }
    assert b[0].ports[|ports|] == entry;
  }

  lemma {:induction false} UsedOneModule(modules: seq<Module>, m: Module)
    ensures UsedPorts(modules + [m]) == UsedPorts(modules) + UsedPorts([Module("", "", m.ports)])
  {
    var all, one := modules + [m], [Module("", "", m.ports)];
    forall x | x in UsedPorts(modules) ensures x in UsedPorts(all) {
      var i, j :| 0 <= i < |modules| && 0 <= j < |modules[i].ports| && modules[i].ports[j].Some?
                  && modules[i].ports[j].value.hostPort > 0 && modules[i].ports[j].value.hostPort == x;
      assert all[i] == modules[i];
    }
    forall x | x in UsedPorts(one) ensures x in UsedPorts(all) {
      var j :| 0 <= j < |m.ports| && m.ports[j].Some? && m.ports[j].value.hostPort > 0 && m.ports[j].value.hostPort == x;
      assert all[|modules|] == m;
    }
  }

  predicate NeedsPort(entry: Option<Port>) {
    entry.Some? && entry.value.containerPort != 0 && entry.value.hostPort == 0
  }

  function Needed(ports: PortList): nat {
    if ports == [] then 0 else Needed(ports[..|ports| - 1]) + if NeedsPort(ports[|ports| - 1]) then 1 else 0
  }

  lemma {:induction false} NeededPrefix(ports: PortList, n: nat)
    requires n <= |ports|
    ensures Needed(ports[..n]) <= Needed(ports)
    decreases |ports|
  {
    if n < |ports| {
      NeededPrefix(ports[..|ports| - 1], n);
      assert ports[..|ports| - 1][..n] == ports[..n];
    } else {
      assert ports[..n] == ports;
    }
  }

  lemma {:induction false} NeededOneMore(ports: PortList, n: nat)
    requires n < |ports|
    ensures Needed(ports[..n + 1]) == Needed(ports[..n]) + if NeedsPort(ports[n]) then 1 else 0
  {
    assert ports[..n + 1][..n] == ports[..n];
  }

  /** The first n entries of `filled` are those of `ports`, the k-th that needs a port given the k-th free one. */
  ghost predicate FilledUpTo(ports: PortList, filled: PortList, free: seq<int>, n: nat) {
    && n <= |ports| == |filled|
    && Needed(ports[..n]) <= |free|
    && forall i :: 0 <= i < n ==>
         if NeedsPort(ports[i]) then
           Needed(ports[..i]) < |free| && filled[i] == Some(ports[i].value.(hostPort := free[Needed(ports[..i])]))
         else filled[i] == ports[i]
  }

  ghost predicate FilledFrom(ports: PortList, filled: PortList, free: seq<int>) {
    FilledUpTo(ports, filled, free, |ports|)
  }

  /** The entries that ask for a host port. */
  function Askers(ports: PortList): set<nat> {
    set i | 0 <= i < |ports| && ports[i].Some? && ports[i].value.containerPort != 0 && ports[i].value.hostPort == 0
  }

  lemma {:induction false} NeededCountsAskers(ports: PortList)
    ensures Needed(ports) == |Askers(ports)|
    decreases |ports|
  {
    if ports != [] {
      var n := |ports| - 1;
      NeededCountsAskers(ports[..n]);
      assert Askers(ports) == Askers(ports[..n]) + if NeedsPort(ports[n]) then {n} else {};
    }
  }

  /**
   Filling gives a free port to exactly those entries that name a container port and no host port, and
   changes nothing else of them; there are enough free ports for all.
   */
  lemma {:induction false} FilledEntries(ports: PortList, filled: PortList, free: seq<int>)
    requires FilledFrom(ports, filled, free)
    ensures |filled| == |ports| && |Askers(ports)| <= |free|
    ensures forall i :: 0 <= i < |ports| && i in Askers(ports) ==>
              filled[i].Some? && filled[i].value.hostPort in free && ports[i].value == filled[i].value.(hostPort := 0)
    ensures forall i :: 0 <= i < |ports| && i !in Askers(ports) ==> filled[i] == ports[i]
  {
    NeededCountsAskers(ports);
    assert ports[..|ports|] == ports;
    hide Needed;
  }

  lemma {:induction false} FillOneMore(ports: PortList, filled: PortList, free: seq<int>, n: nat, entry: Option<Port>)
    requires FilledUpTo(ports, filled, free, n) && n < |ports|
    requires if NeedsPort(ports[n]) then
               Needed(ports[..n]) < |free| && entry == Some(ports[n].value.(hostPort := free[Needed(ports[..n])]))
             else entry == ports[n]
    ensures FilledUpTo(ports, filled[n := entry], free, n + 1)
  {
    hide Needed;
    NeededOneMore(ports, n);
  }

  /** The least port outside `used` and the first n free ones is the next free one. */
  lemma {:induction false} LeastIsNext(used: set<int>, lo: int, hi: int, n: nat, p: int)
    requires n <= |FreePorts(used, lo, hi)|
    requires lo <= p <= hi && p !in used + First(FreePorts(used, lo, hi), n)
    requires forall q :: lo <= q < p ==> q in used + First(FreePorts(used, lo, hi), n)
    ensures n < |FreePorts(used, lo, hi)| && FreePorts(used, lo, hi)[n] == p
  {
  }

  lemma {:induction false} NextIsOutside(used: set<int>, lo: int, hi: int, n: nat)
    requires n < |FreePorts(used, lo, hi)|
    ensures FreePorts(used, lo, hi)[n] !in used + First(FreePorts(used, lo, hi), n)
  {
  }

  /** When nothing is left outside, all free ports have been given out. */
  lemma {:induction false} NoneLeft(used: set<int>, lo: int, hi: int, n: nat)
    requires n <= |FreePorts(used, lo, hi)|
    requires forall q :: lo <= q <= hi ==> q in used + First(FreePorts(used, lo, hi), n)
    ensures n == |FreePorts(used, lo, hi)|
  {
    hide FreePorts;
    if n < |FreePorts(used, lo, hi)| {
      NextIsOutside(used, lo, hi, n);
    }
  }

  /**
   The allocation loop of a create request: it succeeds exactly when no more ports are needed than
   are free in the range, and then gives them out in ascending order.
   */
  method AllocateHostPorts(modules: seq<Module>, range: Range, ports: PortList) returns (filled: Option<PortList>)
    ensures filled.Some? <==> Needed(ports) <= |FreePorts(UsedPorts(modules), range.min, range.max)|
    ensures filled.Some? ==> FilledFrom(ports, filled.value, FreePorts(UsedPorts(modules), range.min, range.max))
  {
    hide FreePorts, UsedPorts, Needed, FilledUpTo;
    ghost var free := FreePorts(UsedPorts(modules), range.min, range.max);
    var allocatedInRequest: set<int> := {};
    var result := ports;
    NothingFilled(ports, free);
    for i := 0 to |ports|
      invariant |result| == |ports| && forall k :: i <= k < |ports| ==> result[k] == ports[k]
      invariant FilledUpTo(ports, result, free, i)
      invariant Needed(ports[..i]) <= |free| && allocatedInRequest == First(free, Needed(ports[..i]))
    {
      NeededOneMore(ports, i);
      var entry := ports[i];
      if entry.None? || entry.value.containerPort == 0 {
        FillOneMore(ports, result, free, i, entry);
        assert result[i := entry] == result;
        continue;
      }
      if entry.value.hostPort == 0 {
        var port := AllocateModulePortExcluding(modules, range, allocatedInRequest);
        if port.None? {
          NoneLeft(UsedPorts(modules), range.min, range.max, Needed(ports[..i]));
          NeededPrefix(ports, i + 1);
          return None;
        }
        LeastIsNext(UsedPorts(modules), range.min, range.max, Needed(ports[..i]), port.value);
        FirstOneMore(free, Needed(ports[..i]));
        entry := Some(entry.value.(hostPort := port.value));
        allocatedInRequest := allocatedInRequest + {port.value};
      }
      FillOneMore(ports, result, free, i, entry);
      result := result[i := entry];
    }
    assert ports[..|ports|] == ports;
    return Some(result);
  }

  lemma {:induction false} NothingFilled(ports: PortList, free: seq<int>)
    ensures FilledUpTo(ports, ports, free, 0) && Needed(ports[..0]) == 0 && First(free, 0) == {}
  {
  }

  lemma {:induction false} FirstOneMore(s: seq<int>, n: nat)
    requires n < |s|
    ensures First(s, n + 1) == First(s, n) + {s[n]}
  {
  }

  // ---------- requests ----------

  datatype Code = Ok | NotFound | ResourceExhausted | AlreadyExists | Internal

  /** The check loop of the create and update requests. */
  method CheckAll(modules: seq<Module>, ports: PortList, hostname: string, exclude: string) returns (ok: bool)
    ensures ok <==> Available(modules, ports, exclude)
  {
    hide FindConflict, Clash, Apart;
    AvailableNone(modules, ports, exclude);
    for i := 0 to |ports|
      invariant Available(modules, ports[..i], exclude)
    {
      assert ports[..i + 1] == ports[..i] + [ports[i]];
      if ports[i].None? || ports[i].value.hostPort == 0 {
        AvailableSkip(modules, ports[..i], ports[i], exclude);
        continue;
      }
      var port := ports[i].value;
      var protocol := port.protocol;
      if protocol == "" {
        protocol := "tcp";
      }
      var conflict := CheckPortAvailability(modules, port.hostPort, protocol, port.proxyEnabled, hostname, exclude);
      FindConflictMeaning(modules, Port(0, port.hostPort, protocol, port.proxyEnabled), exclude);
      AvailableOneMore(modules, ports[..i], port, protocol, exclude);
      AvailablePrefix(modules, ports, i + 1, exclude);
      if conflict.Some? {
        return false;
      }
    }
    assert ports[..|ports|] == ports;
    return true;
  }

  lemma {:induction false} AvailableNone(modules: seq<Module>, ports: PortList, exclude: string)
    ensures Available(modules, ports[..0], exclude)
  {
  }

  lemma {:induction false} AvailableSkip(modules: seq<Module>, ports: PortList, entry: Option<Port>, exclude: string)
    requires Available(modules, ports, exclude) && (entry.None? || entry.value.hostPort == 0)
    ensures Available(modules, ports + [entry], exclude)
  {
  }

  lemma {:induction false} AvailableOneMore(modules: seq<Module>, ports: PortList, port: Port, protocol: string, exclude: string)
    requires Available(modules, ports, exclude) && port.hostPort != 0 && protocol == Protocol(port)
    ensures var asked := Port(0, port.hostPort, protocol, port.proxyEnabled);
            Available(modules, ports + [Some(port)], exclude)
            <==> forall m, b :: m in modules && m.id != exclude && Has(m.ports, b) ==> !Clash(asked, b)
  {
    var asked := Port(0, port.hostPort, protocol, port.proxyEnabled);
    var longer := ports + [Some(port)];
    assert protocol != "" && Protocol(asked) == protocol;
    assert longer[|ports|] == Some(port);
    assert Has(longer, port);
    if Available(modules, longer, exclude) {
      forall m, b | m in modules && m.id != exclude && Has(m.ports, b) ensures !Clash(asked, b) {
        assert Apart(longer, m.ports);
        assert !Clash(port, b);
      }
    }
    if forall m, b :: m in modules && m.id != exclude && Has(m.ports, b) ==> !Clash(asked, b) {
      forall m | m in modules && m.id != exclude ensures Apart(longer, m.ports) {
        assert Apart(ports, m.ports);
        forall a, b | Has(longer, a) && a.hostPort != 0 && Has(m.ports, b) ensures !Clash(a, b) {
          assert a == port || Has(ports, a);
          assert !Clash(asked, b);
        }
      }
    }
  }

  lemma {:induction false} AvailablePrefix(modules: seq<Module>, ports: PortList, n: nat, exclude: string)
    requires n <= |ports|
    ensures Available(modules, ports, exclude) ==> Available(modules, ports[..n], exclude)
  {
  }

  class Store {
    var modules: seq<Module>
    // the hostname under which each server is proxied
    var servers: map<string, string>

    /** Creates a module under a fresh ID; a request without ports takes the template's. */
    method CreateModule(id: string, server: string, requested: PortList, template: PortList, range: Range) returns (code: Code)
      requires Consistent(modules)
      modifies this`modules
      ensures Consistent(modules)
      ensures code.NotFound? <==> server !in servers
      ensures var ports := if |requested| == 0 then template else requested;
              var free := FreePorts(UsedPorts(old(modules)), range.min, range.max);
              (code.ResourceExhausted? <==> server in servers && Needed(ports) > |free|)
              && (code.Ok? ==> exists filled :: FilledFrom(ports, filled, free) && Available(old(modules), filled, "")
                                                && modules == old(modules) + [Module(id, server, filled)])
              && (code.AlreadyExists? ==> exists filled :: FilledFrom(ports, filled, free) && !Available(old(modules), filled, ""))
      ensures code != Ok ==> modules == old(modules)
      ensures code.Internal? ==> id == "" || exists m :: m in modules && m.id == id
      ensures Step(old(modules), Create(id, server, requested, template, range), modules)
    {
      hide FreePorts, UsedPorts, Available, Apart, FilledFrom, Needed;
      if server !in servers {
        return NotFound;
      }
      var ports := requested;
      if |ports| == 0 {
        ports := template;
      }
      var filled := AllocateHostPorts(modules, range, ports);
      if filled.None? {
        return ResourceExhausted;
      }
      var ok := CheckAll(modules, filled.value, servers[server], "");
      if !ok {
        return AlreadyExists;
      }
      // the primary key of the table
      if id == "" || exists m :: m in modules && m.id == id {
        return Internal;
      }
      CreateKeepsConsistent(modules, Module(id, server, filled.value));
      modules := modules + [Module(id, server, filled.value)];
      return Ok;
    }

    /** Replaces the ports of a module; an empty list leaves them as they are. */
    method UpdateModule(id: string, ports: PortList) returns (code: Code)
      requires Consistent(modules)
      modifies this`modules
      ensures Consistent(modules)
      ensures code.NotFound? <==> id == "" || forall k :: 0 <= k < |old(modules)| ==> old(modules)[k].id != id
      ensures code == AlreadyExists ==> !Available(old(modules), ports, id)
      ensures code == Ok || code == NotFound || code == AlreadyExists || code == Internal
      ensures code == Internal ==> |ports| > 0 && exists m :: m in modules && m.id == id && m.server !in servers
      ensures code == Ok ==>
                (exists k :: 0 <= k < |old(modules)| && old(modules)[k].id == id
                             && modules == if |ports| == 0 then old(modules) else old(modules)[k := old(modules)[k].(ports := ports)])
      ensures code != Ok ==> modules == old(modules)
      ensures Step(old(modules), Update(id, ports), modules)
    {
      hide Available, Apart;
      for k := 0 to |modules|
        invariant modules == old(modules) && forall j :: 0 <= j < k ==> modules[j].id != id
      {
        if modules[k].id == id {
          if |ports| > 0 {
            if modules[k].server !in servers {
              return Internal;
            }
            var ok := CheckAll(modules, ports, servers[modules[k].server], id);
            if !ok {
              return AlreadyExists;
            }
            UpdateKeepsConsistent(modules, k, modules[k].(ports := ports));
            modules := modules[k := modules[k].(ports := ports)];
          }
          return Ok;
        }
      }
      return NotFound;
    }

    method DeleteModule(id: string) returns (code: Code)
      requires Consistent(modules)
      modifies this`modules
      ensures Consistent(modules)
      ensures code.Ok? <==> exists k :: 0 <= k < |old(modules)| && old(modules)[k].id == id
      ensures code.Ok? ==>
                (exists k :: 0 <= k < |old(modules)| && old(modules)[k].id == id
                             && modules == old(modules)[..k] + old(modules)[k + 1..])
      ensures code != Ok ==> modules == old(modules)
      ensures Step(old(modules), Delete(id), modules)
    {
      hide Apart;
      for k := 0 to |modules|
        invariant modules == old(modules) && forall j :: 0 <= j < k ==> modules[j].id != id
      {
        if modules[k].id == id {
          DeleteKeepsConsistent(modules, k);
          modules := modules[..k] + modules[k + 1..];
          return Ok;
        }
      }
      return NotFound;
    }
  }

  lemma {:induction false} ApartSymmetric(ports: PortList, others: PortList)
    requires Apart(ports, others)
    ensures Apart(others, ports)
  {
  }

  /** Checking the incoming module alone is enough: the conflict relation is symmetric. */
  lemma {:induction false} CreateKeepsConsistent(modules: seq<Module>, m: Module)
    requires Consistent(modules) && Available(modules, m.ports, "")
    requires m.id != "" && forall k :: 0 <= k < |modules| ==> modules[k].id != m.id
    ensures Consistent(modules + [m])
  {
    hide Apart;
    var all := modules + [m];
    forall i, j | 0 <= i < |all| && 0 <= j < |all| && i != j ensures Apart(all[i].ports, all[j].ports) {
      if j == |modules| {
        assert modules[i] in modules;
        ApartSymmetric(m.ports, modules[i].ports);
      } else if i == |modules| {
        assert modules[j] in modules;
      }
    }
  }

  lemma {:induction false} UpdateKeepsConsistent(modules: seq<Module>, k: nat, m: Module)
    requires Consistent(modules) && k < |modules| && modules[k].id == m.id && Available(modules, m.ports, m.id)
    ensures Consistent(modules[k := m])
  {
  }

  lemma {:induction false} DeleteKeepsConsistent(modules: seq<Module>, k: nat)
    requires Consistent(modules) && k < |modules|
    ensures Consistent(modules[..k] + modules[k + 1..])
  {
  }

  // ---------- what the allocator gives out ----------

  /** Given-out ports are distinct, in the range, not used by a stored module, and ascending. */
  lemma {:induction false} GivenOutPorts(modules: seq<Module>, range: Range, ports: PortList, filled: PortList, i: int, j: int)
    requires FilledFrom(ports, filled, FreePorts(UsedPorts(modules), range.min, range.max))
    requires 0 <= i < j < |ports| && NeedsPort(ports[i]) && NeedsPort(ports[j])
    ensures range.min <= filled[i].value.hostPort < filled[j].value.hostPort <= range.max
    ensures filled[i].value.hostPort !in UsedPorts(modules) && filled[j].value.hostPort !in UsedPorts(modules)
  {
    hide FreePorts, UsedPorts;
    assert ports[..|ports|] == ports;
    NeededOneMore(ports, i);
    NeededPrefix(ports[..j], i + 1);
    assert ports[..j][..i + 1] == ports[..i + 1];
  }

  /** A request that leaves every host port to the allocator always passes the conflict check. */
  lemma {:induction false} AutoAssignedIsAvailable(modules: seq<Module>, range: Range, ports: PortList, filled: PortList)
    requires 0 < range.min
    requires forall i :: 0 <= i < |ports| && ports[i].Some? ==> ports[i].value.hostPort == 0
    requires FilledFrom(ports, filled, FreePorts(UsedPorts(modules), range.min, range.max))
    ensures Available(modules, filled, "")
  {
  }

  // ---------- entries of one request ----------

  /** Two entries of one list clash on a host port. */
  ghost predicate SelfClash(ports: PortList) {
    exists i, j :: 0 <= i < |ports| && 0 <= j < |ports| && i != j && ports[i].Some? && ports[j].Some?
                   && ports[i].value.hostPort != 0 && Clash(ports[i].value, ports[j].value)
  }

  predicate Fixed(entry: Option<Port>) {
    entry.Some? && !NeedsPort(entry)
  }

  /** Two entries with host ports of their own clash as requested. */
  ghost predicate FixedClash(ports: PortList) {
    exists i, j :: 0 <= i < |ports| && 0 <= j < |ports| && i != j && Fixed(ports[i]) && Fixed(ports[j])
                   && ports[i].value.hostPort != 0 && Clash(ports[i].value, ports[j].value)
  }

  /** Some entry names the very port that the allocator has next for another, and they cannot share it. */
  ghost predicate FixedTakesGiven(ports: PortList, free: seq<int>) {
    exists i, j :: 0 <= i < |ports| && 0 <= j < |ports| && NeedsPort(ports[i]) && Fixed(ports[j])
                   && Needed(ports[..i]) < |free| && free[Needed(ports[..i])] != 0
                   && Clash(ports[i].value.(hostPort := free[Needed(ports[..i])]), ports[j].value)
  }

  /** Two given-out ports differ, so their entries do not clash. */
  lemma {:induction false} GivenApart(ports: PortList, filled: PortList, free: seq<int>, i: nat, j: nat)
    requires FilledFrom(ports, filled, free) && forall m, n :: 0 <= m < n < |free| ==> free[m] < free[n]
    requires i < j < |ports| && NeedsPort(ports[i]) && NeedsPort(ports[j])
    ensures !Clash(filled[i].value, filled[j].value) && !Clash(filled[j].value, filled[i].value)
  {
    hide Needed;
    NeededOneMore(ports, i);
    NeededPrefix(ports[..j], i + 1);
    assert ports[..j][..i + 1] == ports[..i + 1];
  }

  /**
   A filled request clashes with itself exactly when it did so as requested or a fixed entry takes a
   port that the allocator gives out; the request and the free ports decide that beforehand.
   */
  lemma {:induction false} SelfClashIff(ports: PortList, filled: PortList, free: seq<int>)
    requires FilledFrom(ports, filled, free) && forall m, n :: 0 <= m < n < |free| ==> free[m] < free[n]
    ensures SelfClash(filled) <==> FixedClash(ports) || FixedTakesGiven(ports, free)
  {
    hide Needed, Clash;
    if SelfClash(filled) {
      var i, j :| 0 <= i < |filled| && 0 <= j < |filled| && i != j && filled[i].Some? && filled[j].Some?
                  && filled[i].value.hostPort != 0 && Clash(filled[i].value, filled[j].value);
      ClashSymmetric(filled[i].value, filled[j].value);
      SamePortOfClash(filled[i].value, filled[j].value);
      if NeedsPort(ports[i]) && NeedsPort(ports[j]) {
        GivenApart(ports, filled, free, if i < j then i else j, if i < j then j else i);
      }
    }
    if FixedTakesGiven(ports, free) {
      var i, j :| 0 <= i < |ports| && 0 <= j < |ports| && NeedsPort(ports[i]) && Fixed(ports[j])
                  && Needed(ports[..i]) < |free| && free[Needed(ports[..i])] != 0
                  && Clash(ports[i].value.(hostPort := free[Needed(ports[..i])]), ports[j].value);
      assert filled[i].Some? && filled[j] == ports[j];
    }
    if FixedClash(ports) {
      var i, j :| 0 <= i < |ports| && 0 <= j < |ports| && i != j && Fixed(ports[i]) && Fixed(ports[j])
                  && ports[i].value.hostPort != 0 && Clash(ports[i].value, ports[j].value);
      assert filled[i] == ports[i] && filled[j] == ports[j];
    }
  }

  lemma {:induction false} SamePortOfClash(a: Port, b: Port)
    ensures Clash(a, b) ==> a.hostPort == b.hostPort
  {
  }

  /**
   What the free ports of a create request are is known before the call, so this decides whether it
   stores a module whose entries clash.
   */
  lemma {:induction false} RequestClashesWithItselfIff(modules: seq<Module>, range: Range, ports: PortList, filled: PortList)
    requires FilledFrom(ports, filled, FreePorts(UsedPorts(modules), range.min, range.max))
    ensures SelfClash(filled)
            <==> FixedClash(ports) || FixedTakesGiven(ports, FreePorts(UsedPorts(modules), range.min, range.max))
  {
    hide UsedPorts, FixedClash, FixedTakesGiven, SelfClash, FilledFrom, FreePorts;
    SelfClashIff(ports, filled, FreePorts(UsedPorts(modules), range.min, range.max));
  }

  /** The smallest such request: an entry names the port that is given to the one before it, and the check passes. */
  lemma {:induction false} OneRequestMayClashWithItself(modules: seq<Module>, range: Range, auto: Port, fixed: Port)
    requires 0 < range.min && FreePorts(UsedPorts(modules), range.min, range.max) != []
    requires NeedsPort(Some(auto)) && !auto.proxyEnabled && Protocol(auto) == Protocol(fixed)
    requires fixed.hostPort == FreePorts(UsedPorts(modules), range.min, range.max)[0]
    ensures var given := auto.(hostPort := fixed.hostPort);
            FilledFrom([Some(auto), Some(fixed)], [Some(given), Some(fixed)], FreePorts(UsedPorts(modules), range.min, range.max))
            && Clash(given, fixed) && Available(modules, [Some(given), Some(fixed)], "")
  {
    hide FreePorts;
    var free := FreePorts(UsedPorts(modules), range.min, range.max);
    var given := auto.(hostPort := fixed.hostPort);
    var ports, filled := [Some(auto), Some(fixed)], [Some(given), Some(fixed)];
    assert free[0] in free && free[0] != 0;
    assert ports[..0] == [] && ports[..1] == [Some(auto)] && ports[..2] == ports[..|ports|] == ports;
    NothingFilled(ports, free);
    NeededOneMore(ports, 0);
    NeededOneMore(ports, 1);
    forall m, a, b | m in modules && Has(filled, a) && a.hostPort != 0 && Has(m.ports, b) ensures !Clash(a, b) {
      var j :| 0 <= j < |modules| && modules[j] == m;
      var k :| 0 <= k < |m.ports| && m.ports[k] == Some(b);
      assert modules[j].ports[k].value.hostPort == b.hostPort;
    }
  }

  // ---------- runs ----------

  datatype Request =
    | Create(id: string, server: string, requested: PortList, template: PortList, range: Range)
    | Update(id: string, ports: PortList)
    | Delete(id: string)

  /** One request, as the methods of `Store` serve it. */
  ghost predicate Step(before: seq<Module>, request: Request, after: seq<Module>) {
    || after == before
    || match request
       case Create(id, server, requested, template, range) =>
         (exists filled :: FilledFrom(if |requested| == 0 then template else requested, filled,
                                      FreePorts(UsedPorts(before), range.min, range.max))
                           && Available(before, filled, "") && after == before + [Module(id, server, filled)])
         && id != "" && forall k :: 0 <= k < |before| ==> before[k].id != id
       case Update(id, ports) =>
         Available(before, ports, id)
         && exists k :: 0 <= k < |before| && before[k].id == id && after == before[k := before[k].(ports := ports)]
       case Delete(id) =>
         exists k :: 0 <= k < |before| && before[k].id == id && after == before[..k] + before[k + 1..]
  }

  lemma {:induction false} StepKeepsConsistent(before: seq<Module>, request: Request, after: seq<Module>)
    requires Consistent(before) && Step(before, request, after)
    ensures Consistent(after)
  {
    hide Apart, Consistent, Available, FilledFrom, FreePorts, UsedPorts;
    if after != before {
      match request {
        case Create(id, server, requested, template, range) =>
          var filled :| Available(before, filled, "") && after == before + [Module(id, server, filled)];
          CreateKeepsConsistent(before, Module(id, server, filled));
        case Update(id, ports) =>
          var k :| 0 <= k < |before| && before[k].id == id && after == before[k := before[k].(ports := ports)];
          UpdateKeepsConsistent(before, k, before[k].(ports := ports));
        case Delete(id) =>
          var k :| 0 <= k < |before| && before[k].id == id && after == before[..k] + before[k + 1..];
          DeleteKeepsConsistent(before, k);
      }
    }
  }

  /** A history of the store, starting empty, one request per step. */
  ghost predicate Run(states: seq<seq<Module>>, requests: seq<Request>) {
    |states| == |requests| + 1 && states[0] == []
    && forall k :: 0 <= k < |requests| ==> Step(states[k], requests[k], states[k + 1])
  }

  /** In every state any run of requests reaches, shared ports are proxied and not UDP. */
  lemma {:induction false} EveryReachableStoreIsConsistent(states: seq<seq<Module>>, requests: seq<Request>, n: nat)
    requires Run(states, requests) && n < |states|
    ensures Consistent(states[n])
  {
    hide Consistent, Step;
    if n == 0 {
      EmptyIsConsistent();
    } else {
      EveryReachableStoreIsConsistent(states, requests, n - 1);
      assert Step(states[n - 1], requests[n - 1], states[n]);
      StepKeepsConsistent(states[n - 1], requests[n - 1], states[n]);
    }
  }

  lemma {:induction false} EmptyIsConsistent()
    ensures Consistent([])
  {
  }

  // ---------- one hostname, one port ----------

  /**
   A module already has a host port.  A request for another module, on a server of the same hostname, is
   accepted on that port and protocol exactly when it is not UDP and everybody there, the new entry
   included, is proxied.
   */
  lemma {:induction false} SameHostnameAcceptedIff(modules: seq<Module>, servers: map<string, string>, m: Module, b: Port, a: Port,
                                                   server: string)
    requires Consistent(modules) && m in modules && Has(m.ports, b) && HostnameOf(servers, m) == ServerHostname(servers, server)
    requires SamePort(a, b) && a.hostPort != 0
    ensures Available(modules, [Some(a)], "")
            <==> a.proxyEnabled && Protocol(a) != "udp"
                 && forall n, c :: n in modules && Has(n.ports, c) && SamePort(a, c) ==> c.proxyEnabled
    ensures Available(modules, [Some(a)], "") ==> SharedHostname(a, ServerHostname(servers, server), b, HostnameOf(servers, m))
  {
    hide ServerHostname, Protocol;
    var ports := [Some(a)];
    assert ports[0] == Some(a);
    assert Has(ports, a);
    forall n | n in modules ensures n.id != "" {
      var k :| 0 <= k < |modules| && modules[k] == n;
    }
    if Available(modules, ports, "") {
      forall n, c | n in modules && Has(n.ports, c) && SamePort(a, c) ensures c.proxyEnabled && a.proxyEnabled && Protocol(a) != "udp" {
        assert Apart(ports, n.ports);
        assert !Clash(a, c);
      }
    } else {
      var n :| n in modules && n.id != "" && !Apart(ports, n.ports);
      var x, c :| Has(ports, x) && Has(n.ports, c) && Clash(x, c);
      assert x == a && SamePort(a, c);
    }
  }

  /** Such a run: two modules of one server, both on one proxied TCP port. */
  lemma {:induction false} TwoModulesOneHostname(server: string, port: int, id1: string, id2: string, range: Range)
    requires port != 0 && id1 != "" && id2 != "" && id1 != id2
    ensures var ports := [Some(Port(80, port, "tcp", true))];
            var first, second := Module(id1, server, ports), Module(id2, server, ports);
            Run([[], [first], [first, second]], [Create(id1, server, ports, [], range), Create(id2, server, ports, [], range)])
  {
    hide FreePorts, UsedPorts;
    var entry := Port(80, port, "tcp", true);
    var ports := [Some(entry)];
    var first, second := Module(id1, server, ports), Module(id2, server, ports);
    forall free: seq<int> ensures FilledFrom(ports, ports, free) {
      FixedAsRequested(entry, free);
    }
    assert Available([], ports, "");
    assert Available([first], ports, "") by {
      assert forall b :: Has(ports, b) <==> b == entry;
    }
    assert [] + [first] == [first] && [first] + [second] == [first, second];
    assert Step([], Create(id1, server, ports, [], range), [first]);
    assert Step([first], Create(id2, server, ports, [], range), [first, second]);
  }

  lemma {:induction false} FixedAsRequested(entry: Port, free: seq<int>)
    requires entry.hostPort != 0
    ensures FilledFrom([Some(entry)], [Some(entry)], free)
  {
    var ports := [Some(entry)];
    assert ports[..0] == [] && ports[..1] == ports;
    NothingFilled(ports, free);
    NeededOneMore(ports, 0);
  }

  // ---------- proxy listeners ----------

  datatype Server = Server(proxyHostname: string, port: int)

  /** A port a new proxy listener must not take. */
  ghost predicate Taken(listeners: seq<int>, servers: seq<Server>, modules: seq<Module>, port: int) {
    || port in listeners
    || (exists k :: 0 <= k < |servers| && servers[k].proxyHostname == "" && servers[k].port == port)
    || (exists m, b :: m in modules && m.id != "" && Has(m.ports, b) && b.hostPort == port && Protocol(b) == "tcp")
  }

  /** The least port from 25565 on that no listener, directly bound server or TCP port of a module takes. */
  method FindAvailableListenerPort(listeners: seq<int>, servers: seq<Server>, modules: seq<Module>) returns (port: Option<int>)
    ensures port.Some? ==> 25565 <= port.value <= 65535 && !Taken(listeners, servers, modules, port.value)
                           && forall p :: 25565 <= p < port.value ==> Taken(listeners, servers, modules, p)
    ensures port.None? ==> forall p :: 25565 <= p <= 65535 ==> Taken(listeners, servers, modules, p)
  {
    hide FindConflict;
    var usedPorts := set p | p in listeners;
    for k := 0 to |servers|
      invariant forall p :: p in usedPorts <==>
                  p in listeners || exists j :: 0 <= j < k && servers[j].proxyHostname == "" && servers[j].port > 0 && servers[j].port == p
    {
      if servers[k].proxyHostname == "" && servers[k].port > 0 {
        usedPorts := usedPorts + {servers[k].port};
      }
    }
    var candidate := 25565;
    while candidate <= 65535
      invariant 25565 <= candidate
      invariant forall p :: 25565 <= p < candidate ==> Taken(listeners, servers, modules, p)
      decreases 65535 - candidate
    {
      if candidate !in usedPorts {
        var conflict := CheckPortAvailability(modules, candidate, "tcp", false, "", "");
        FindConflictMeaning(modules, Port(0, candidate, "tcp", false), "");
        if conflict.None? {
          ghost var asked := Port(0, candidate, "tcp", false);
          assert forall m, b :: m in modules && m.id != "" && Has(m.ports, b) && b.hostPort == candidate && Protocol(b) == "tcp" ==> Clash(asked, b);
          return Some(candidate);
        }
      }
      candidate := candidate + 1;
    }
    return None;
  }
}
