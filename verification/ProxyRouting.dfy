/**
 Hostname routing in the Minecraft proxy (internal/proxy/minecraft.go): the route table, the
 hostname taken out of a handshake, the address rewrite that keeps the data a modded client
 appends after the first NUL byte, and the forwarded handshake.

 Lower-casing is a function of the proxy; all that is assumed of it is that it works piece by
 piece around a NUL byte.
 */
module ProxyRouting {
  import opened VarInt
  import opened GoStrings
  import opened Handshake
  import opened WireFormat

  const COLON: bv8 := 0x3A
  const NUL: bv8 := 0x00

  function Localhost(): Bytes {
    [0x6C, 0x6F, 0x63, 0x61, 0x6C, 0x68, 0x6F, 0x73, 0x74]
  }

  ghost predicate LowersAroundNul(lower: Bytes -> Bytes) {
    && (forall a :: NUL !in a ==> NUL !in lower(a))
    && (forall a, b :: NUL !in a ==> lower(a + [NUL] + b) == lower(a) + [NUL] + lower(b))
  }

  /** The key under which a configured hostname is stored. */
  function Key(lower: Bytes -> Bytes, hostname: Bytes): Bytes {
    lower(Split(hostname, COLON)[0])
  }

  /** The hostname a handshake address asks for. */
  function Hostname(lower: Bytes -> Bytes, address: Bytes): Bytes {
    var hostname := lower(Split(address, COLON)[0]);
    hostname[..FirstOf(hostname, NUL)]
  }

  /** Splits at NUL, replaces the first part, joins again. */
  function RewriteAddress(address: Bytes): Bytes {
    var parts := Split(address, NUL);
    if |parts| > 1 then Join(parts[0 := Localhost()], NUL) else Localhost()
  }

  /** The rewrite changes the host part only: every byte from the first NUL onward is kept. */
  lemma {:induction false} RewriteKeepsTail(address: Bytes)
    ensures RewriteAddress(address) == Localhost() + address[FirstOf(address, NUL)..]
  {
    hide FirstOf, Localhost, Split, Join;
    var i := FirstOf(address, NUL);
    if i == |address| {
      assert address[..i] == address && Localhost() + address[i..] == Localhost();
      SplitRule(address, NUL, []);
    } else {
      var rest := address[i + 1..];
      assert address == address[..i] + [NUL] + rest;
      SplitRule(address[..i], NUL, rest);
      JoinSplit(rest, NUL);
      ReplaceFirstPart(address[..i], Split(rest, NUL));
      assert Localhost() + address[i..] == Localhost() + [NUL] + rest;
    }
  }

  lemma {:induction false} ReplaceFirstPart(first: Bytes, parts: seq<Bytes>)
    requires |parts| >= 1
    ensures Join(([first] + parts)[0 := Localhost()], NUL) == Localhost() + [NUL] + Join(parts, NUL)
  {
  }

  /** A host followed by nothing, by a port or by appended data asks for the lower-cased host. */
  lemma {:induction false} HostnameOfAddress(lower: Bytes -> Bytes, host: Bytes, suffix: Bytes)
    requires LowersAroundNul(lower) && COLON !in host && NUL !in host
    requires suffix == [] || suffix[0] == COLON || suffix[0] == NUL
    ensures Hostname(lower, host + suffix) == lower(host)
  {
    hide FirstOf, Split;
    FirstOfAppend(lower(host), NUL, []);
    if suffix == [] {
      assert host + suffix == host;
      SplitRule(host, COLON, []);
    } else if suffix[0] == COLON {
      assert host + suffix == host + [COLON] + suffix[1..];
      SplitRule(host, COLON, suffix[1..]);
    } else {
      var tail := suffix[1..];
      var first := tail[..FirstOf(tail, COLON)];
      FirstPart(host, tail);
      assert host + suffix == host + [NUL] + tail;
      FirstOfAppend(lower(host), NUL, lower(first));
    }
  }

  lemma {:induction false} FirstPart(host: Bytes, tail: Bytes)
    requires COLON !in host
    ensures Split(host + [NUL] + tail, COLON)[0] == host + [NUL] + tail[..FirstOf(tail, COLON)]
  {
    hide FirstOf, Split;
    var j := FirstOf(tail, COLON);
    var first := host + [NUL] + tail[..j];
    assert COLON !in first;
    if j == |tail| {
      assert first == host + [NUL] + tail;
      SplitRule(first, COLON, []);
    } else {
      assert host + [NUL] + tail == first + [COLON] + tail[j + 1..];
      SplitRule(first, COLON, tail[j + 1..]);
    }
  }

  /** A configured hostname is stored under its lower-cased host part, whatever port follows. */
  lemma {:induction false} KeyOfHostname(lower: Bytes -> Bytes, host: Bytes, suffix: Bytes)
    requires COLON !in host && (suffix == [] || suffix[0] == COLON)
    ensures Key(lower, host + suffix) == lower(host)
  {
    hide FirstOf, Split;
    if suffix == [] {
      assert host + suffix == host;
      SplitRule(host, COLON, []);
    } else {
      assert host + suffix == host + [COLON] + suffix[1..];
      SplitRule(host, COLON, suffix[1..]);
    }
  }

  // ---------- the route table ----------

  datatype Route = Route(serverId: string, hostname: Bytes, backendHost: Bytes, backendPort: int, active: bool)

  /**
   What happens to a client: dropped, or forwarded to a backend.  Or the whole process ends: nothing catches
   a panic in the reader, and the printer of a negative number fills the memory (`UnwritableFillsMemory`).
   */
  datatype Forwarding =
    | Dropped
    | Forwarded(backendHost: Bytes, backendPort: int, toBackend: Bytes, rest: Bytes)
    | Panics
    | FillsMemory

  predicate EndsProcess(f: Forwarding) {
    f.Panics? || f.FillsMemory?
  }

  /** uint16(port) */
  function PortOf(port: int): bv16 {
    Numbered(port % 0x1_0000)
  }

  /** The handshake the backend gets. */
  function Rewritten(p: Packet, route: Route): Packet {
    p.(address := RewriteAddress(p.address), port := PortOf(route.backendPort))
  }

  /** What a client's bytes lead to; `dialed` says whether the backend accepts the connection. */
  function Forward(lower: Bytes -> Bytes, routes: map<Bytes, Route>, client: Bytes, dialed: bool): Forwarding {
    match ReadHandshake(client)
    case Err(e) => if e == Crash then Panics else Dropped
    case Ok(p, rest) =>
      var host := Hostname(lower, p.address);
      if host !in routes || !routes[host].active || !dialed then Dropped
      else if !Writable(p) then FillsMemory
      else
        var route := routes[host];
        Forwarded(route.backendHost, route.backendPort, Frame(Payload(Rewritten(p, route))), rest)
  }

  class MinecraftProxy {
    const lower: Bytes -> Bytes
    var routes: map<Bytes, Route>

    /** Every route is stored under its own hostname. */
    ghost predicate Valid()
      reads this
    {
      forall k :: k in routes ==> routes[k].hostname == k
    }

    constructor (lower: Bytes -> Bytes)
      ensures this.lower == lower && routes == map[] && Valid()
    {
      this.lower := lower;
      routes := map[];
    }

    method AddRoute(serverId: string, hostname: Bytes, backendHost: Bytes, backendPort: int)
      requires Valid()
      modifies this
      ensures Valid()
      ensures routes == old(routes)[Key(lower, hostname) := Route(serverId, Key(lower, hostname), backendHost, backendPort, true)]
    {
      var key := Key(lower, hostname);
      routes := routes[key := Route(serverId, key, backendHost, backendPort, true)];
    }

    method RemoveRoute(hostname: Bytes)
      requires Valid()
      modifies this
      ensures Valid() && routes == old(routes) - {Key(lower, hostname)}
    {
      routes := routes - {Key(lower, hostname)};
    }

    method UpdateRoute(hostname: Bytes, backendHost: Bytes, backendPort: int)
      requires Valid()
      modifies this
      ensures Valid() && routes.Keys == old(routes).Keys
      ensures forall k :: k in routes ==>
                routes[k] == if k == Key(lower, hostname) then old(routes)[k].(backendHost := backendHost, backendPort := backendPort)
                             else old(routes)[k]
    {
      var key := Key(lower, hostname);
      if key in routes {
        routes := routes[key := routes[key].(backendHost := backendHost, backendPort := backendPort)];
      }
    }

    method SetRouteActive(hostname: Bytes, active: bool)
      requires Valid()
      modifies this
      ensures Valid() && routes.Keys == old(routes).Keys
      ensures forall k :: k in routes ==>
                routes[k] == if k == Key(lower, hostname) then old(routes)[k].(active := active) else old(routes)[k]
    {
      var key := Key(lower, hostname);
      if key in routes {
        routes := routes[key := routes[key].(active := active)];
      }
    }

    method HandleConnection(client: Bytes, dialed: bool) returns (f: Forwarding)
      ensures f == Forward(lower, routes, client, dialed)
    {
      hide Payload, Hostname, ReadHandshake, NonNegative, RewriteAddress;
      var read := ReadHandshakePacket(client);
      if read.Err? {
        return if read.error == Crash then Panics else Dropped;
      }
      var handshake := read.value;
      var hostname := Hostname(lower, handshake.address);
      if hostname !in routes || !routes[hostname].active || !dialed {
        return Dropped;
      }
      var route := routes[hostname];
      handshake := handshake.(address := RewriteAddress(handshake.address));
      handshake := handshake.(port := PortOf(route.backendPort));
      if !NonNegative(handshake.version) || !NonNegative(handshake.nextState) {
        return FillsMemory;
      }
      ReadIsSmall(client);
      RewrittenIsSmall(read.value, route);
      var backend := WriteHandshakePacket([], handshake);
      assert [] + Frame(Payload(handshake)) == Frame(Payload(handshake));
      return Forwarded(route.backendHost, route.backendPort, backend, read.rest);
    }
  }

  // ---------- sizes ----------

  lemma {:induction false} ReadIsSmall(s: Bytes)
    requires ReadHandshake(s).Ok?
    ensures |ReadHandshake(s).value.address| <= 255
  {
    hide ReadVarInt, ToNat;
    var length := ReadVarInt(s);
    SmallValue(length.value);
    AddressInside(length.rest[..ToNat(length.value)]);
  }

  lemma {:induction false} AddressInside(data: Bytes)
    requires ParsePayload(data).Ok?
    ensures |ParsePayload(data).value.address| <= |data|
  {
    hide ToNat, NonNegative, Continued, Decode;
    ReaderVerdict(data, 0, P0);
    var id := ReadVarInt(data);
    ReaderVerdict(id.rest, 0, P0);
    var version := ReadVarInt(id.rest);
    ReaderVerdict(version.rest, 0, P0);
  }

  lemma {:induction false} RewrittenIsSmall(p: Packet, route: Route)
    requires |p.address| <= 255
    ensures |Payload(Rewritten(p, route))| < 0x8000_0000
  {
    hide Encode, FromNat;
    RewriteKeepsTail(p.address);
    var q := Rewritten(p, route);
    OneToFiveBytes(0);
    OneToFiveBytes(q.version);
    OneToFiveBytes(FromNat(|q.address|));
    OneToFiveBytes(q.nextState);
  }

  /** What the backend of a route is sent for a packet. */
  ghost predicate SentFor(q: Packet, p: Packet, route: Route) {
    && q.version == p.version && q.nextState == p.nextState
    && q.address == Localhost() + p.address[FirstOf(p.address, NUL)..]
    && Number(q.port) == route.backendPort % 0x1_0000
  }

  /** `client` starts with a handshake for a host whose route is active. */
  predicate AsksForActiveRoute(lower: Bytes -> Bytes, routes: map<Bytes, Route>, client: Bytes) {
    var read := ReadHandshake(client);
    && read.Ok? && Hostname(lower, read.value.address) in routes && routes[Hostname(lower, read.value.address)].active
  }

  /**
   Whatever bytes a client sends: it is forwarded exactly when they start with a handshake for an active
   route that can be dialed and version and next state are not negative, and then to that route's backend;
   it is dropped exactly when the process does not end and there is no such route or it cannot be dialed.
   */
  lemma {:induction false} ForwardedIff(lower: Bytes -> Bytes, routes: map<Bytes, Route>, client: Bytes, dialed: bool)
    ensures var f, read := Forward(lower, routes, client, dialed), ReadHandshake(client);
            && (f.Forwarded? <==> AsksForActiveRoute(lower, routes, client) && dialed
                                  && NonNegative(read.value.version) && NonNegative(read.value.nextState))
            && (f.Dropped? <==> !AnnouncesNegativeLength(client) && !(AsksForActiveRoute(lower, routes, client) && dialed))
            && (f.Forwarded? ==>
                  var route := routes[Hostname(lower, read.value.address)];
                  && f.backendHost == route.backendHost && f.backendPort == route.backendPort && f.rest == read.rest
                  && exists q :: SentFor(q, read.value, route) && f.toBackend == Frame(Payload(q)))
  {
    PanicsIffNegativeLength(lower, routes, client, dialed);
    var read := ReadHandshake(client);
    hide ReadHandshake, AnnouncesNegativeLength, Hostname, Payload, Frame, NonNegative;
    if read.Ok? && Hostname(lower, read.value.address) in routes {
      RewrittenIsSent(read.value, routes[Hostname(lower, read.value.address)]);
    }
  }

  lemma {:induction false} RewrittenIsSent(p: Packet, route: Route)
    ensures SentFor(Rewritten(p, route), p, route)
  {
    RewriteKeepsTail(p.address);
    NumberOfNumbered(route.backendPort % 0x1_0000);
    hide RewriteAddress, FirstOf, Localhost, Number, Numbered;
  }

  /**
   From a client to its backend: a handshake for a routed host is forwarded with the host part
   replaced by "localhost", the data after the first NUL kept, the backend's port and everything
   else unchanged, and the backend reads exactly that as long as it is at most 255 bytes.
   */
  lemma {:induction false} ClientReachesBackend(lower: Bytes -> Bytes, routes: map<Bytes, Route>, p: Packet, rest: Bytes,
                                                host: Bytes, suffix: Bytes) returns (q: Packet)
    requires LowersAroundNul(lower) && COLON !in host && NUL !in host
    requires p.address == host + suffix && (suffix == [] || suffix[0] == COLON || suffix[0] == NUL)
    requires lower(host) in routes && routes[lower(host)].active
    requires Writable(p) && |Payload(p)| <= 255
    ensures SentFor(q, p, routes[lower(host)])
    ensures Forward(lower, routes, Frame(Payload(p)) + rest, true)
            == Forwarded(routes[lower(host)].backendHost, routes[lower(host)].backendPort, Frame(Payload(q)), rest)
    ensures |Payload(q)| <= 255 ==> ReadHandshake(Frame(Payload(q)) + rest) == Ok(q, rest)
  {
    hide Payload, Hostname, ReadHandshake, Frame, RewriteAddress, PortOf, SentFor;
    HandshakeRoundTrip(p, rest);
    HostnameOfAddress(lower, host, suffix);
    q := Rewritten(p, routes[lower(host)]);
    RewrittenIsSent(p, routes[lower(host)]);
    if |Payload(q)| <= 255 {
      HandshakeRoundTrip(q, rest);
    }
  }

  /** `client` starts with a complete frame of 1 to 255 bytes with packet ID 0, a version and a negative address length. */
  ghost predicate AnnouncesNegativeLength(client: Bytes) {
    exists length, id, version, address, more, tail ::
      FramedFields(client, length, id, version, address, more, tail) && NegativeLength(address)
  }

  /** `client` starts with a readable handshake for an active route whose version or next state is negative. */
  predicate AsksUnwritable(lower: Bytes -> Bytes, routes: map<Bytes, Route>, client: Bytes) {
    AsksForActiveRoute(lower, routes, client) && !Writable(ReadHandshake(client).value)
  }

  /** Whatever is routed, the reader panics exactly on a negative address length. */
  lemma {:induction false} PanicsIffNegativeLength(lower: Bytes -> Bytes, routes: map<Bytes, Route>, client: Bytes, dialed: bool)
    ensures Forward(lower, routes, client, dialed) == Panics <==> AnnouncesNegativeLength(client)
  {
    hide ReadHandshake, FramedFields, NegativeLength, Hostname, Payload;
    CrashesIffNegativeLength(client);
  }

  /** When a client's bytes, however encoded, end the process. */
  lemma {:induction false} ProcessEndsIff(lower: Bytes -> Bytes, routes: map<Bytes, Route>, client: Bytes, dialed: bool)
    ensures Forward(lower, routes, client, dialed) == FillsMemory <==> dialed && AsksUnwritable(lower, routes, client)
    ensures EndsProcess(Forward(lower, routes, client, dialed))
            <==> AnnouncesNegativeLength(client) || (dialed && AsksUnwritable(lower, routes, client))
  {
    PanicsIffNegativeLength(lower, routes, client, dialed);
    hide ReadHandshake, AnnouncesNegativeLength, Hostname, Payload;
  }

  /** For a printed handshake: its host is routed and dialed, and its version or next state is negative. */
  lemma {:induction false} FillsMemoryIffUnwritable(lower: Bytes -> Bytes, routes: map<Bytes, Route>, p: Packet, rest: Bytes, dialed: bool)
    requires |Payload(p)| <= 255
    ensures var client, host := Frame(Payload(p)) + rest, Hostname(lower, p.address);
            EndsProcess(Forward(lower, routes, client, dialed))
            <==> dialed && host in routes && routes[host].active && (!NonNegative(p.version) || !NonNegative(p.nextState))
  {
    hide ReadHandshake, Hostname, Payload, NonNegative, Frame;
    HandshakeRoundTrip(p, rest);
  }
}
