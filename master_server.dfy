/**
 * The ENet master server class (MasterServerLogic.h): lobbies keyed by the
 * text "ip:port" of the peer that registered them. Registering overwrites the
 * entry at the key, a heartbeat refreshes an existing entry only, Update
 * drops entries silent for more than 15 s, and a list request is answered
 * with a fixed-layout array of entries numbered 0, 1, ... in key order.
 * ENet itself is not modelled: a peer's address comes with the text
 * enet_address_get_host_ip gives for it, packets come with their length and
 * the views of their bytes as the packet structs, and clock readings are
 * parameters.
 */
module MasterServerLogic {

  import opened IntTypes
  import opened Wrappers
  import opened Ordering
  import opened CStrings
  import opened DecimalText

  /** Text as std::string holds it here: read from a C string, so without NUL. */
  type CText = s: string | '\0' !in s

  /** An ENet address: the host as enet_address_get_host_ip writes it, and the port. */
  datatype Address = Address(ip: CText, port: uint16)

  datatype ActiveLobby = ActiveLobby(
    address: Address,
    gamePort: uint16,
    name: CText,
    mapName: CText,
    players: int,
    maxPlayers: int,
    lastHeartbeat: real)

  /** The bytes of a packet read through the MasterRegisterPacket struct. */
  datatype RegisterView = RegisterView(gamePort: uint16, serverName: CText, mapName: CText, maxPlayers: uint8)

  /** The bytes of a packet read through the MasterHeartbeatPacket struct. */
  datatype HeartbeatView = HeartbeatView(currentPlayers: uint8)

  /** A received packet: its length, its header's type byte, and its bytes seen
      through each packet struct OnPacket may cast them to. */
  datatype Packet = Packet(length: nat, kind: uint8, asRegister: RegisterView, asHeartbeat: HeartbeatView)

  /** One LobbyInfo of a list response; the char arrays are given in full. */
  datatype Entry = Entry(
    id: uint32,
    name: seq<char>,
    ip: seq<char>,
    port: uint16,
    players: uint8,
    maxPlayers: uint8,
    mapName: seq<char>)

  /** A MasterListResponsePacket and the LobbyInfo array after it. */
  datatype Response = Response(kind: uint8, count: uint16, entries: seq<Entry>)

  datatype Event =
    | Receive(peer: Address, packet: Packet, time: real)
    | Disconnect(peer: Address)

  datatype Sent = Sent(to: Address, response: Response)

  type Lobbies = map<string, ActiveLobby>

  /** PacketType values, in the order the enum declares them. */
  const MasterRegister: uint8 := 8
  const MasterHeartbeat: uint8 := 9
  const MasterListReq: uint8 := 10
  const MasterListRes: uint8 := 11

  /** sizeof(PacketHeader): the one-byte type. */
  const HeaderSize: nat := 1
  const Timeout: real := 15.0
  const NameSize: nat := 32
  const IpSize: nat := 16

  // ---------------------------------------------------------------------------
  // The lobby key

  function Key(ip: string, port: uint16): string
  {
    ip + ":" + Decimal(port)
  }

  /** The index of the last ':' in s, or -1. */
  function LastColon(s: string): (r: int)
    ensures -1 <= r < |s| && (r >= 0 ==> s[r] == ':')
  {
    if s == [] then -1 else if s[|s| - 1] == ':' then |s| - 1 else LastColon(s[..|s| - 1])
  }

  lemma {:induction false} LastColonAfter(ip: string, d: string)
    requires forall i :: 0 <= i < |d| ==> d[i] != ':'
    ensures LastColon(ip + [':'] + d) == |ip|
    decreases |d|
  {
    var s := ip + [':'] + d;
    if d != [] {
      assert s[..|s| - 1] == ip + [':'] + d[..|d| - 1];
      LastColonAfter(ip, d[..|d| - 1]);
    }
  }

  /** The port text after the last colon has no colon, so different addresses
      always give different keys, whatever colons the host text holds. */
  lemma KeyInjective(ip1: string, p1: uint16, ip2: string, p2: uint16)
    requires Key(ip1, p1) == Key(ip2, p2)
    ensures ip1 == ip2 && p1 == p2
  {
    var d1, d2 := Decimal(p1), Decimal(p2);
    var s := Key(ip1, p1);
    assert s == ip1 + [':'] + d1 == ip2 + [':'] + d2;
    LastColonAfter(ip1, d1);
    LastColonAfter(ip2, d2);
    assert ip1 == s[..|ip1|] == ip2;
    assert d1 == s[|ip1| + 1..] == d2;
    DecimalInjective(p1, p2);
  }

  function KeyOf(a: Address): string
  {
    Key(a.ip, a.port)
  }

  // ---------------------------------------------------------------------------
  // Handlers as functions of the map

  /** The entry a MASTER_REGISTER packet from peer creates: no players yet. */
  function NewLobby(peer: Address, v: RegisterView, now: real): ActiveLobby
  {
    ActiveLobby(peer, v.gamePort, v.serverName, v.mapName, 0, v.maxPlayers, now)
  }

  function Registered(m: Lobbies, peer: Address, v: RegisterView, now: real): Lobbies
  {
    m[KeyOf(peer) := NewLobby(peer, v, now)]
  }

  /** Registering keeps one entry per address: the new one replaces the peer's
      old entry, and no other peer's entry is touched. */
  lemma RegisterSpec(m: Lobbies, peer: Address, v: RegisterView, now: real, other: Address)
    requires other != peer
    ensures KeyOf(peer) in Registered(m, peer, v, now)
    ensures Registered(m, peer, v, now)[KeyOf(peer)].players == 0
    ensures Registered(m, peer, v, now)[KeyOf(peer)].lastHeartbeat == now
    ensures |Registered(m, peer, v, now)| == if KeyOf(peer) in m then |m| else |m| + 1
    ensures KeyOf(other) in m ==>
              (KeyOf(other) in Registered(m, peer, v, now) && Registered(m, peer, v, now)[KeyOf(other)] == m[KeyOf(other)])
  {
    if KeyOf(other) == KeyOf(peer) {
      KeyInjective(other.ip, other.port, peer.ip, peer.port);
    }
    var r := Registered(m, peer, v, now);
    if KeyOf(peer) !in m {
      assert r.Keys == m.Keys + {KeyOf(peer)};
    } else {
      assert r.Keys == m.Keys;
    }
  }

  function Heartbeated(m: Lobbies, peer: Address, v: HeartbeatView, now: real): Lobbies
  {
    var key := KeyOf(peer);
    if key in m then m[key := m[key].(lastHeartbeat := now, players := v.currentPlayers)] else m
  }

  /** A heartbeat never adds an entry; it refreshes the sender's entry if there
      is one and nothing else. */
  lemma HeartbeatSpec(m: Lobbies, peer: Address, v: HeartbeatView, now: real)
    ensures Heartbeated(m, peer, v, now).Keys == m.Keys
    ensures KeyOf(peer) !in m ==> Heartbeated(m, peer, v, now) == m
    ensures forall k :: k in m && k != KeyOf(peer) ==> Heartbeated(m, peer, v, now)[k] == m[k]
    ensures KeyOf(peer) in m ==>
              Heartbeated(m, peer, v, now)[KeyOf(peer)]
              == m[KeyOf(peer)].(lastHeartbeat := now, players := v.currentPlayers)
  {
  }

  predicate Expired(l: ActiveLobby, now: real)
  {
    now - l.lastHeartbeat > Timeout
  }

  function Swept(m: Lobbies, now: real): Lobbies
  {
    map k | k in m && !Expired(m[k], now) :: m[k]
  }

  /** The sweep keeps an entry exactly 15 s old, drops an older one, and keeps
      an entry registered at the same clock reading. */
  lemma SweepBoundary(m: Lobbies, k: string, now: real, peer: Address, v: RegisterView)
    requires k in m
    ensures m[k].lastHeartbeat == now - 15.0 ==> k in Swept(m, now) && Swept(m, now)[k] == m[k]
    ensures m[k].lastHeartbeat < now - 15.0 ==> k !in Swept(m, now)
    ensures KeyOf(peer) in Swept(Registered(m, peer, v, now), now)
  {
  }

  // ---------------------------------------------------------------------------
  // The list response

  function Min(a: nat, b: nat): nat
  {
    if a < b then a else b
  }

  /** strncpy(dst, src, n) into a zero-filled char[size]: the first n characters
      of src, or all of it and then NULs. */
  function StrNCopy(src: CText, n: nat, size: nat): (r: seq<char>)
    requires n <= size
    ensures |r| == size
  {
    seq(size, j requires 0 <= j < size => if j < n && j < |src| then src[j] else '\0')
  }

  /** With room to spare the field is a C string holding the first n characters of src. */
  lemma StrNCopyText(src: CText, n: nat, size: nat)
    requires n < size
    ensures '\0' in StrNCopy(src, n, size)
    ensures Text(StrNCopy(src, n, size)) == src[..Min(|src|, n)]
  {
    var r := StrNCopy(src, n, size);
    var len := Min(|src|, n);
    assert r[len] == '\0';
    forall i | 0 <= i < len ensures r[i] != '\0' {
      assert r[i] == src[i];
    }
    StrLenAt(r, len);
    assert Text(r) == src[..len];
  }

  /** an IpSize-byte ip copied with strncpy(dst, src, IpSize), as SendList does. */
  function IpFieldAsWritten(ip: CText): (r: seq<char>)
    ensures |r| == IpSize
  {
    StrNCopy(ip, IpSize, IpSize)
  }

  /** A host text of 16 characters or more fills the ip field with no
      terminator, as any longer IPv6 text does. */
  lemma IpFieldUnterminated()
    ensures '\0' !in IpFieldAsWritten("fe80::1ff:fe23:4567:890a")
  {
    var ip: CText := "fe80::1ff:fe23:4567:890a";
    var r := IpFieldAsWritten(ip);
    assert forall j :: 0 <= j < IpSize ==> r[j] == ip[j];
    assert forall j :: 0 <= j < IpSize ==> ip[j] != '\0';
  }

  /** The field SendList sends holds the host text's first 16 characters; it is a
      C string, holding the whole host text, exactly when that text is shorter than 16. */
  lemma IpFieldAsWrittenSpec(ip: CText)
    ensures ('\0' in IpFieldAsWritten(ip)) <==> |ip| < IpSize
    ensures IpFieldAsWritten(ip)[..Min(|ip|, IpSize)] == ip[..Min(|ip|, IpSize)]
    ensures |ip| < IpSize ==> Text(IpFieldAsWritten(ip)) == ip
  {
    var r := IpFieldAsWritten(ip);
    var len := Min(|ip|, IpSize);
    forall j | 0 <= j < len ensures r[j] == ip[j] && r[j] != '\0' {
      assert ip[j] in ip;
    }
    if |ip| < IpSize {
      assert r[len] == '\0';
      StrLenAt(r, len);
      assert Text(r) == r[..len];
    } else {
      assert forall j :: 0 <= j < |r| ==> r[j] != '\0';
    }
  }

  /** The ip field with room kept for its terminator, as the name fields do. */
  function IpField(ip: CText): (r: seq<char>)
    ensures |r| == IpSize
  {
    StrNCopy(ip, IpSize - 1, IpSize)
  }

  /** The corrected ip field is always a C string: the host text cut to 15 characters. */
  lemma IpFieldTerminated(ip: CText)
    ensures '\0' in IpField(ip) && Text(IpField(ip)) == ip[..Min(|ip|, IpSize - 1)]
  {
    StrNCopyText(ip, IpSize - 1, IpSize);
  }

  /** Entry i of a list response, for lobby l. */
  function EntryOf(i: nat, l: ActiveLobby): Entry
  {
    Entry(i % 0x1_0000_0000, StrNCopy(l.name, NameSize - 1, NameSize), IpFieldAsWritten(l.address.ip),
          l.gamePort, l.players % 0x100, l.maxPlayers % 0x100, StrNCopy(l.mapName, NameSize - 1, NameSize))
  }

  /** Entries start, start + 1, ... for the lobbies at keys ks. */
  function EntriesOf(m: Lobbies, ks: seq<string>, start: nat): (r: seq<Entry>)
    requires forall i :: 0 <= i < |ks| ==> ks[i] in m
    ensures |r| == |ks|
  {
    seq(|ks|, i requires 0 <= i < |ks| => EntryOf(start + i, m[ks[i]]))
  }

  /** The keys in std::string order. */
  ghost function Keys(m: Lobbies): (ks: seq<string>)
    ensures forall i :: 0 <= i < |ks| ==> ks[i] in m
  {
    LexLessTotal();
    SortedKeysSpec(LexLess, m.Keys);
    SortedKeys(LexLess, m.Keys)
  }

  ghost function ListResponse(m: Lobbies): Response
  {
    Response(MasterListRes, |m| % 0x1_0000, EntriesOf(m, Keys(m), 0))
  }

  /** Player counts fit the uint8 fields of the response. */
  predicate InRange(m: Lobbies)
  {
    forall k :: k in m ==> 0 <= m[k].players < 0x100 && 0 <= m[k].maxPlayers < 0x100
  }

  /** Entry e, at index i, describes lobby l: fields copied, name and map cut to fit
      their arrays with a terminator, and the ip field the host text's first 16
      characters, terminated (and then the whole host text) only when it is shorter. */
  ghost predicate Describes(e: Entry, i: nat, l: ActiveLobby)
  {
    e.id == i % 0x1_0000_0000 && e.port == l.gamePort
    && e.players == l.players && e.maxPlayers == l.maxPlayers
    && '\0' in e.name && Text(e.name) == l.name[..Min(|l.name|, NameSize - 1)]
    && '\0' in e.mapName && Text(e.mapName) == l.mapName[..Min(|l.mapName|, NameSize - 1)]
    && |e.ip| == IpSize
    && e.ip[..Min(|l.address.ip|, IpSize)] == l.address.ip[..Min(|l.address.ip|, IpSize)]
    && ('\0' in e.ip <==> |l.address.ip| < IpSize)
    && (|l.address.ip| < IpSize ==> Text(e.ip) == l.address.ip)
  }

  lemma EntryOfSpec(i: nat, l: ActiveLobby)
    requires 0 <= l.players < 0x100 && 0 <= l.maxPlayers < 0x100
    ensures Describes(EntryOf(i, l), i, l)
  {
    StrNCopyText(l.name, NameSize - 1, NameSize);
    StrNCopyText(l.mapName, NameSize - 1, NameSize);
    IpFieldAsWrittenSpec(l.address.ip);
  }

  /** The response has a 16-bit count of the lobbies and one entry per lobby,
      numbered from 0 in ascending key order. */
  lemma ListResponseSpec(m: Lobbies)
    requires InRange(m)
    ensures ListResponse(m).kind == MasterListRes && ListResponse(m).count == |m| % 0x1_0000
    ensures |ListResponse(m).entries| == |m| && |Keys(m)| == |m|
    ensures Ascending(LexLess, Keys(m)) && forall k :: k in m <==> k in Keys(m)
    ensures forall i :: 0 <= i < |m| ==> Describes(ListResponse(m).entries[i], i, m[Keys(m)[i]])
  {
    LexLessTotal();
    SortedKeysSpec(LexLess, m.Keys);
    var ks := Keys(m);
    forall i | 0 <= i < |m| ensures Describes(ListResponse(m).entries[i], i, m[ks[i]]) {
      EntryOfSpec(i, m[ks[i]]);
    }
  }

  lemma EntriesOfCons(m: Lobbies, k: string, rest: seq<string>, start: nat)
    requires k in m && forall i :: 0 <= i < |rest| ==> rest[i] in m
    ensures EntriesOf(m, [k] + rest, start) == [EntryOf(start, m[k])] + EntriesOf(m, rest, start + 1)
  {
    var ks := [k] + rest;
    var a, b := EntriesOf(m, ks, start), [EntryOf(start, m[k])] + EntriesOf(m, rest, start + 1);
    forall i | 0 <= i < |a| ensures a[i] == b[i] {
      if i > 0 { assert ks[i] == rest[i - 1]; }
    }
  }

  /** The entries for the keys of s, in key order, numbered from start: what
      is left to fill while the map is walked. */
  ghost function Pending(m: Lobbies, s: set<string>, start: nat): seq<Entry>
    requires s <= m.Keys
  {
    LexLessTotal();
    SortedKeysSpec(LexLess, s);
    EntriesOf(m, SortedKeys(LexLess, s), start)
  }

  /** The walk starts with every key, from entry 0, and ends with none. */
  lemma PendingBounds(m: Lobbies, start: nat)
    ensures Pending(m, m.Keys, 0) == ListResponse(m).entries
    ensures Pending(m, {}, start) == []
  {
    LexLessTotal();
    SortedKeysSpec(LexLess, {});
  }

  /** The entries of the remaining keys start with the least of them. */
  lemma PendingUnfold(m: Lobbies, s: set<string>, k: string, start: nat)
    requires s <= m.Keys && k in s && forall j :: j in s && j != k ==> LexLess(k, j)
    ensures Pending(m, s, start) == [EntryOf(start, m[k])] + Pending(m, s - {k}, start + 1)
  {
    LexLessTotal();
    SortedKeysSpec(LexLess, s);
    SortedKeysSpec(LexLess, s - {k});
    assert IsLeast(LexLess, s, k);
    SortedKeysUnfold(LexLess, s, k);
    EntriesOfCons(m, k, SortedKeys(LexLess, s - {k}), start);
  }

  /** Part way through SendList's walk: infos holds the entries of the keys
      visited, and the keys in remaining give the rest. */
  ghost predicate Progress(m: Lobbies, remaining: set<string>, infos: seq<Entry>)
  {
    remaining <= m.Keys && infos + Pending(m, remaining, |infos|) == ListResponse(m).entries
  }

  lemma ProgressStep(m: Lobbies, remaining: set<string>, infos: seq<Entry>, k: string)
    requires Progress(m, remaining, infos)
    requires k in remaining && forall j :: j in remaining && j != k ==> LexLess(k, j)
    ensures Progress(m, remaining - {k}, infos + [EntryOf(|infos|, m[k])])
  {
    PendingUnfold(m, remaining, k, |infos|);
  }

  lemma ProgressBounds(m: Lobbies, infos: seq<Entry>)
    ensures Progress(m, m.Keys, [])
    ensures Progress(m, {}, infos) ==> infos == ListResponse(m).entries
  {
    PendingBounds(m, 0);
    PendingBounds(m, |infos|);
    assert [] + Pending(m, m.Keys, 0) == Pending(m, m.Keys, 0);
    assert infos + [] == infos;
  }

  /** The least key of a set in std::string order: the next key of a map walk. */
  method LeastKey(s: set<string>) returns (k: string)
    requires s != {}
    ensures k in s && forall j :: j in s && j != k ==> LexLess(k, j)
  {
    LexLessTotal();
    LeastExists(LexLess, s);
    k :| k in s && forall j :: j in s && j != k ==> LexLess(k, j);
  }

  // ---------------------------------------------------------------------------
  // Events

  /** OnPacket as a function of the map: the new map and the response sent back. */
  ghost function OnPacketSpec(m: Lobbies, peer: Address, p: Packet, now: real): (Lobbies, Option<Response>)
  {
    if p.length < HeaderSize then (m, None)
    else if p.kind == MasterRegister then (Registered(m, peer, p.asRegister, now), None)
    else if p.kind == MasterHeartbeat then (Heartbeated(m, peer, p.asHeartbeat, now), None)
    else if p.kind == MasterListReq then (m, Some(ListResponse(m)))
    else (m, None)
  }

  /** A packet shorter than its header, or of any other type, changes nothing,
      and only a list request is answered. */
  lemma OnPacketSpecGate(m: Lobbies, peer: Address, p: Packet, now: real)
    ensures p.length < HeaderSize ==> OnPacketSpec(m, peer, p, now) == (m, None)
    ensures p.kind !in {MasterRegister, MasterHeartbeat, MasterListReq} ==> OnPacketSpec(m, peer, p, now) == (m, None)
    ensures OnPacketSpec(m, peer, p, now).1.Some? <==> p.length >= HeaderSize && p.kind == MasterListReq
    ensures OnPacketSpec(m, peer, p, now).1.Some? ==> OnPacketSpec(m, peer, p, now).0 == m
  {
  }

  /** Every handler keeps the player counts in range of the response fields. */
  lemma OnPacketInRange(m: Lobbies, peer: Address, p: Packet, now: real)
    requires InRange(m)
    ensures InRange(OnPacketSpec(m, peer, p, now).0) && InRange(Swept(m, now))
  {
  }

  /** The events of one Update in order, then the sweep; a disconnect does nothing. */
  ghost function Serve(m: Lobbies, events: seq<Event>, now: real): (Lobbies, seq<Sent>)
    decreases |events|
  {
    if events == [] then (Swept(m, now), [])
    else
      var (m1, out1) :=
        match events[0]
        case Disconnect(_) => (m, [])
        case Receive(peer, p, t) =>
          var (m', resp) := OnPacketSpec(m, peer, p, t);
          (m', if resp.Some? then [Sent(peer, resp.value)] else []);
      var (m2, out2) := Serve(m1, events[1..], now);
      (m2, out1 + out2)
  }

  /** After an Update no entry is older than the timeout, counts stay in range,
      and a disconnect event has no effect. */
  lemma {:induction false} ServeSpec(m: Lobbies, events: seq<Event>, now: real)
    requires InRange(m)
    ensures forall k :: k in Serve(m, events, now).0 ==> !Expired(Serve(m, events, now).0[k], now)
    ensures InRange(Serve(m, events, now).0)
    ensures forall a :: Serve(m, [Disconnect(a)] + events, now) == Serve(m, events, now)
    decreases |events|
  {
    forall a ensures Serve(m, [Disconnect(a)] + events, now) == Serve(m, events, now) {
      var es := [Disconnect(a)] + events;
      assert es[0] == Disconnect(a) && es[1..] == events;
      assert Serve(m, es, now) == (Serve(m, events, now).0, [] + Serve(m, events, now).1);
      assert [] + Serve(m, events, now).1 == Serve(m, events, now).1;
    }
    if events != [] {
      match events[0]
      case Disconnect(_) =>
        ServeSpec(m, events[1..], now);
      case Receive(peer, p, t) =>
        OnPacketInRange(m, peer, p, t);
        ServeSpec(OnPacketSpec(m, peer, p, t).0, events[1..], now);
    }
  }

  // ---------------------------------------------------------------------------
  // The server object

  class MasterServer {
    var hasHost: bool
    var lobbies: Lobbies

    constructor ()
      ensures !hasHost && lobbies == map[]
    {
      hasHost := false;
      lobbies := map[];
    }

    /** Start: whether enet_host_create returned a host is the input here. */
    method Start(created: bool) returns (ok: bool)
      modifies this`hasHost
      ensures hasHost == created && ok == created
    {
      hasHost := created;
      ok := hasHost;
    }

    method OnPacket(peer: Address, p: Packet, now: real) returns (resp: Option<Response>)
      modifies this`lobbies
      ensures (lobbies, resp) == OnPacketSpec(old(lobbies), peer, p, now)
    {
      resp := None;
      if p.length < HeaderSize { return; }
      var key := peer.ip + ":" + Decimal(peer.port);
      assert key == KeyOf(peer);
      if p.kind == MasterRegister {
        var v := p.asRegister;
        var lobby := ActiveLobby(peer, v.gamePort, v.serverName, v.mapName, 0, v.maxPlayers, now);
        lobbies := lobbies[key := lobby];
        assert lobbies == Registered(old(lobbies), peer, v, now);
      } else if p.kind == MasterHeartbeat {
        if key in lobbies {
          lobbies := lobbies[key := lobbies[key].(lastHeartbeat := now)];
          lobbies := lobbies[key := lobbies[key].(players := p.asHeartbeat.currentPlayers)];
        }
        assert lobbies == Heartbeated(old(lobbies), peer, p.asHeartbeat, now);
      } else if p.kind == MasterListReq {
        var r := SendList();
        resp := Some(r);
      }
    }

    /** SendList: walk the map in key order, filling entry i for the i-th lobby. */
    method SendList() returns (r: Response)
      ensures r == ListResponse(lobbies)
    {
      ProgressBounds(lobbies, []);
      var count := |lobbies| % 0x1_0000;
      var infos: seq<Entry> := [];
      var i := 0;
      var remaining := lobbies.Keys;
      while remaining != {}
        invariant i == |infos| && Progress(lobbies, remaining, infos)
        decreases |remaining|
      {
        var k := LeastKey(remaining);
        ProgressStep(lobbies, remaining, infos, k);
        infos := infos + [EntryOf(i, lobbies[k])];
        i := i + 1;
        remaining := remaining - {k};
      }
      ProgressBounds(lobbies, infos);
      r := Response(MasterListRes, count, infos);
    }

    /** The timeout loop of Update: erase every entry silent for more than 15 s. */
    method Sweep(now: real)
      modifies this`lobbies
      ensures lobbies == Swept(old(lobbies), now)
    {
      ghost var m := lobbies;
      var remaining := lobbies.Keys;
      assert lobbies == SweptBut(m, now, remaining);
      while remaining != {}
        invariant remaining <= m.Keys
        invariant lobbies == SweptBut(m, now, remaining)
        decreases |remaining|
      {
        var k := LeastKey(remaining);
        SweepStep(m, now, remaining, k);
        if now - lobbies[k].lastHeartbeat > 15.0 {
          lobbies := lobbies - {k};
        }
        remaining := remaining - {k};
      }
      assert SweptBut(m, now, {}) == Swept(m, now);
    }

    /** Update: without a host nothing happens; otherwise every pending event,
        then the sweep at the clock reading now. */
    method Update(events: seq<Event>, now: real) returns (sent: seq<Sent>)
      modifies this`lobbies
      ensures !hasHost ==> lobbies == old(lobbies) && sent == []
      ensures hasHost ==> (lobbies, sent) == Serve(old(lobbies), events, now)
    {
      sent := [];
      if !hasHost { return; }
      var i := 0;
      while i < |events|
        invariant 0 <= i <= |events|
        invariant Serve(old(lobbies), events, now).0 == Serve(lobbies, events[i..], now).0
        invariant Serve(old(lobbies), events, now).1 == sent + Serve(lobbies, events[i..], now).1
      {
        assert events[i..][0] == events[i] && events[i..][1..] == events[i + 1..];
        match events[i] {
          case Disconnect(_) =>
          case Receive(peer, p, t) =>
            var resp := OnPacket(peer, p, t);
            if resp.Some? {
              sent := sent + [Sent(peer, resp.value)];
            }
        }
        i := i + 1;
      }
      assert events[i..] == [];
      assert sent + [] == sent;
      Sweep(now);
    }
  }

  /** The sweep part way through the walk: the keys in pending are not visited yet. */
  function SweptBut(m: Lobbies, now: real, pending: set<string>): Lobbies
  {
    map k | k in m && (k in pending || !Expired(m[k], now)) :: m[k]
  }

  lemma SweepStep(m: Lobbies, now: real, pending: set<string>, k: string)
    requires k in pending && pending <= m.Keys
    ensures k in SweptBut(m, now, pending) && SweptBut(m, now, pending)[k] == m[k]
    ensures SweptBut(m, now, pending - {k})
         == if Expired(m[k], now) then SweptBut(m, now, pending) - {k} else SweptBut(m, now, pending)
  {
  }
}
