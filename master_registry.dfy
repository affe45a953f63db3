/**
 * The lobby registry of the stand-alone master server (main_master.cpp): a map
 * from lobby id to lobby, filled by MASTER_REGISTER with ids from a counter,
 * refreshed by MASTER_HEARTBEAT, listed by MASTER_LIST_REQ, emptied of a
 * peer's lobbies on DISCONNECT and swept of lobbies silent for over 30 s after
 * every batch of messages. The handlers run one at a time (the mutex only
 * serialises them); packet bytes are abstracted to what bitsery decodes.
 */
module MasterRegistry {

  import opened IntTypes
  import opened Wrappers
  import opened Ordering

  datatype Lobby = Lobby(
    id: uint32,
    ip: string,
    port: uint16,
    name: string,
    currentPlayers: uint8,
    maxPlayers: uint8,
    wave: uint8,
    lastHeartbeat: real,
    peerId: uint32)

  /** The decoded fields of a MASTER_REGISTER packet the registry uses. */
  datatype RegisterPacket = RegisterPacket(gamePort: uint16, serverName: string, maxPlayers: uint8)

  /** The decoded fields of a MASTER_HEARTBEAT packet. */
  datatype HeartbeatPacket = HeartbeatPacket(currentPlayers: uint8, wave: uint8)

  /** One entry of a MASTER_LIST_RES response. */
  datatype LobbyInfo = LobbyInfo(
    id: uint32,
    name: string,
    ip: string,
    port: uint16,
    currentPlayers: uint8,
    maxPlayers: uint8,
    wave: uint8)

  /** What the bytes after the stream offset decode to: the packet type, and for
      register and heartbeat the packet, None when bitsery reports an error. */
  datatype Body =
    | RegisterBody(reg: Option<RegisterPacket>)
    | HeartbeatBody(hb: Option<HeartbeatPacket>)
    | ListRequestBody
    | OtherBody

  /** A message from the network layer; size is the buffer length and offset its read position. */
  datatype Message =
    | Disconnect(peer: uint32)
    | Data(peer: uint32, size: nat, offset: nat, body: Body)
    | OtherMessage(peer: uint32)

  /** A list response addressed to a peer. */
  datatype Reply = Reply(peer: uint32, lobbies: seq<LobbyInfo>)

  type Registry = map<uint32, Lobby>

  const Timeout: real := 30.0
  const FirstLobbyId: uint32 := 1

  /** Every lobby is stored under its own id. */
  predicate Keyed(m: Registry)
  {
    forall k :: k in m ==> m[k].id == k
  }

  /** Every id in use is below the counter. */
  predicate Below(m: Registry, next: uint32)
  {
    forall k :: k in m ==> k < next
  }

  // ---------------------------------------------------------------------------
  // Register

  function NewLobby(id: uint32, peer: uint32, pkt: RegisterPacket, now: real): Lobby
  {
    Lobby(id, "Unknown", pkt.gamePort, pkt.serverName, 0, pkt.maxPlayers, 1, now, peer)
  }

  /** The registry and counter after a registration: the new lobby takes the
      counter's id (replacing a lobby already there, which only a wrapped
      counter can reach) and the counter advances modulo 2^32. */
  function Registered(m: Registry, next: uint32, peer: uint32, pkt: RegisterPacket, now: real)
    : (r: (Registry, uint32))
    ensures r.0.Keys == m.Keys + {next}
    ensures forall k :: k in m && k != next ==> r.0[k] == m[k]
    ensures r.0[next].id == next && r.0[next].peerId == peer
    ensures r.1 == (next + 1) % 0x1_0000_0000
  {
    (m[next := NewLobby(next, peer, pkt, now)], (next + 1) % 0x1_0000_0000)
  }

  /** Until the counter wraps, a registration adds a lobby under a fresh id,
      replaces nothing, and the counter grows strictly. */
  lemma RegisterFresh(m: Registry, next: uint32, peer: uint32, pkt: RegisterPacket, now: real)
    requires Below(m, next) && next < 0xFFFF_FFFF
    ensures next !in m
    ensures |Registered(m, next, peer, pkt, now).0| == |m| + 1
    ensures Registered(m, next, peer, pkt, now).1 == next + 1
    ensures Below(Registered(m, next, peer, pkt, now).0, next + 1)
  {
    var r := Registered(m, next, peer, pkt, now).0;
    assert r.Keys == m.Keys + {next};
    assert |m.Keys + {next}| == |m.Keys| + 1;
  }

  /** A peer that registers twice in a row owns two different lobbies. */
  lemma RegisterTwice(m: Registry, next: uint32, peer: uint32, p1: RegisterPacket, p2: RegisterPacket, now: real)
    requires Below(m, next) && next < 0xFFFF_FFFE
    ensures var (m1, n1) := Registered(m, next, peer, p1, now);
            var (m2, n2) := Registered(m1, n1, peer, p2, now);
            next in m2 && next + 1 in m2 && m2[next].peerId == peer && m2[next + 1].peerId == peer
            && |m2| == |m| + 2
  {
    RegisterFresh(m, next, peer, p1, now);
    var (m1, n1) := Registered(m, next, peer, p1, now);
    RegisterFresh(m1, n1, peer, p2, now);
  }

  lemma RegisterKeyed(m: Registry, next: uint32, peer: uint32, pkt: RegisterPacket, now: real)
    requires Keyed(m)
    ensures Keyed(Registered(m, next, peer, pkt, now).0)
  {
  }

  // ---------------------------------------------------------------------------
  // Heartbeat

  /** k is the lowest id among the lobbies the peer owns: the first one an
      ascending walk of the map meets. */
  predicate LowestOwned(m: Registry, peer: uint32, k: uint32)
  {
    k in m && m[k].peerId == peer && forall j :: j in m && m[j].peerId == peer ==> k <= j
  }

  function Beat(l: Lobby, hb: HeartbeatPacket, now: real): Lobby
  {
    l.(currentPlayers := hb.currentPlayers, wave := hb.wave, lastHeartbeat := now)
  }

  /** A heartbeat refreshes the sender's lowest-id lobby and no other. */
  ghost function Heartbeated(m: Registry, peer: uint32, hb: HeartbeatPacket, now: real): (r: Registry)
    ensures r.Keys == m.Keys
    ensures forall k :: k in m ==> r[k] == if LowestOwned(m, peer, k) then Beat(m[k], hb, now) else m[k]
  {
    if exists k :: k in m && m[k].peerId == peer then
      LowestOwnedExists(m, peer);
      var k :| LowestOwned(m, peer, k);
      m[k := Beat(m[k], hb, now)]
    else
      m
  }

  lemma LowestOwnedExists(m: Registry, peer: uint32)
    requires exists k :: k in m && m[k].peerId == peer
    ensures exists k :: LowestOwned(m, peer, k)
  {
    var owned := set k | k in m && m[k].peerId == peer;
    var k0 :| k0 in m && m[k0].peerId == peer;
    assert k0 in owned;
    LeastIdExists(owned);
    var k :| k in owned && forall j :: j in owned ==> k <= j;
    assert forall j :: j in m && m[j].peerId == peer ==> j in owned;
    assert LowestOwned(m, peer, k);
  }

  /** The lobby a heartbeat refreshes is unique. */
  lemma LowestOwnedUnique(m: Registry, peer: uint32, j: uint32, k: uint32)
    requires LowestOwned(m, peer, j) && LowestOwned(m, peer, k)
    ensures j == k
  {
  }

  /** At most one lobby changes, and from a peer that owns none nothing changes. */
  lemma HeartbeatTouchesOne(m: Registry, peer: uint32, hb: HeartbeatPacket, now: real)
    ensures forall j, k ::
              (j in m && k in m && Heartbeated(m, peer, hb, now)[j] != m[j] && Heartbeated(m, peer, hb, now)[k] != m[k])
              ==> j == k
    ensures (forall k :: k in m ==> m[k].peerId != peer) ==> Heartbeated(m, peer, hb, now) == m
  {
    var r := Heartbeated(m, peer, hb, now);
    forall j, k | j in m && k in m && r[j] != m[j] && r[k] != m[k] ensures j == k {
      LowestOwnedUnique(m, peer, j, k);
    }
    if forall k :: k in m ==> m[k].peerId != peer {
      assert r == m;
    }
  }

  /** Once the lowest owned lobby is known, the heartbeat is one map update. */
  lemma HeartbeatedAt(m: Registry, peer: uint32, hb: HeartbeatPacket, now: real, k: uint32)
    requires LowestOwned(m, peer, k)
    ensures Heartbeated(m, peer, hb, now) == m[k := Beat(m[k], hb, now)]
  {
    var r := Heartbeated(m, peer, hb, now);
    forall j | j in m ensures r[j] == m[k := Beat(m[k], hb, now)][j] {
      if LowestOwned(m, peer, j) {
        LowestOwnedUnique(m, peer, j, k);
      }
    }
  }

  lemma HeartbeatKeyed(m: Registry, peer: uint32, hb: HeartbeatPacket, now: real)
    requires Keyed(m)
    ensures Keyed(Heartbeated(m, peer, hb, now))
  {
  }

  // ---------------------------------------------------------------------------
  // Disconnect and timeout

  /** The registry without the lobbies the peer owns. */
  function Disconnected(m: Registry, peer: uint32): Registry
  {
    map k | k in m && m[k].peerId != peer :: m[k]
  }

  /** Disconnect leaves the peer with no lobby, keeps every lobby of every other
      peer, and a later heartbeat from the same peer is ignored. */
  lemma DisconnectEffect(m: Registry, peer: uint32, hb: HeartbeatPacket, now: real)
    ensures forall k :: k in Disconnected(m, peer) ==> Disconnected(m, peer)[k].peerId != peer
    ensures forall k :: k in m && m[k].peerId != peer ==> k in Disconnected(m, peer) && Disconnected(m, peer)[k] == m[k]
    ensures Disconnected(Disconnected(m, peer), peer) == Disconnected(m, peer)
    ensures Heartbeated(Disconnected(m, peer), peer, hb, now) == Disconnected(m, peer)
  {
    HeartbeatTouchesOne(Disconnected(m, peer), peer, hb, now);
  }

  /** Disconnect part way through the walk: the ids in pending are not visited yet. */
  function DisconnectedBut(m: Registry, peer: uint32, pending: set<uint32>): Registry
  {
    map k | k in m && (k in pending || m[k].peerId != peer) :: m[k]
  }

  lemma DisconnectStep(m: Registry, peer: uint32, pending: set<uint32>, k: uint32)
    requires k in pending && pending <= m.Keys
    ensures k in DisconnectedBut(m, peer, pending) && DisconnectedBut(m, peer, pending)[k] == m[k]
    ensures DisconnectedBut(m, peer, pending - {k})
         == if m[k].peerId == peer then DisconnectedBut(m, peer, pending) - {k} else DisconnectedBut(m, peer, pending)
  {
  }

  predicate Expired(l: Lobby, now: real)
  {
    now - l.lastHeartbeat > Timeout
  }

  /** The registry without the lobbies silent for more than the timeout. */
  function Swept(m: Registry, now: real): Registry
  {
    map k | k in m && !Expired(m[k], now) :: m[k]
  }

  /** The sweep part way through the walk: the ids in pending are not visited yet. */
  function SweptBut(m: Registry, now: real, pending: set<uint32>): Registry
  {
    map k | k in m && (k in pending || !Expired(m[k], now)) :: m[k]
  }

  lemma SweepStep(m: Registry, now: real, pending: set<uint32>, k: uint32)
    requires k in pending && pending <= m.Keys
    ensures k in SweptBut(m, now, pending) && SweptBut(m, now, pending)[k] == m[k]
    ensures SweptBut(m, now, pending - {k})
         == if Expired(m[k], now) then SweptBut(m, now, pending) - {k} else SweptBut(m, now, pending)
  {
  }

  /** The sweep keeps a lobby exactly 30 s old and drops one a moment older;
      a sweep right after registering keeps the new lobby. */
  lemma SweepBoundary(m: Registry, k: uint32, now: real, next: uint32, peer: uint32, pkt: RegisterPacket)
    requires k in m
    ensures m[k].lastHeartbeat == now - 30.0 ==> k in Swept(m, now) && Swept(m, now)[k] == m[k]
    ensures m[k].lastHeartbeat < now - 30.0 ==> k !in Swept(m, now)
    ensures next in Swept(Registered(m, next, peer, pkt, now).0, now)
    ensures Swept(Swept(m, now), now) == Swept(m, now)
  {
  }

  lemma DisconnectSweepKeyed(m: Registry, peer: uint32, now: real)
    requires Keyed(m)
    ensures Keyed(Disconnected(m, peer)) && Keyed(Swept(m, now))
  {
  }

  // ---------------------------------------------------------------------------
  // Listing in id order

  function IdLess(a: uint32, b: uint32): bool
  {
    a < b
  }

  lemma IdLessTotal()
    ensures StrictTotalOrder(IdLess)
  {
  }

  /** A non-empty set of ids has a smallest element. */
  lemma LeastIdExists(s: set<uint32>)
    requires s != {}
    ensures exists k :: k in s && forall j :: j in s ==> k <= j
  {
    IdLessTotal();
    LeastExists(IdLess, s);
    var k :| IsLeast(IdLess, s, k);
    assert forall j :: j in s ==> k <= j;
  }

  /** The smallest id of a set: the next entry of an ascending walk. */
  method LeastId(s: set<uint32>) returns (k: uint32)
    requires s != {}
    ensures k in s && forall j :: j in s ==> k <= j
  {
    LeastIdExists(s);
    k :| k in s && forall j :: j in s ==> k <= j;
  }

  function Info(l: Lobby): LobbyInfo
  {
    LobbyInfo(l.id, l.name, l.ip, l.port, l.currentPlayers, l.maxPlayers, l.wave)
  }

  /** The list entries of the lobbies at the ids ks, in that order. */
  function InfoOf(m: Registry, ks: seq<uint32>): (r: seq<LobbyInfo>)
    requires forall i :: 0 <= i < |ks| ==> ks[i] in m
    ensures |r| == |ks|
  {
    seq(|ks|, i requires 0 <= i < |ks| => Info(m[ks[i]]))
  }

  /** The ids of m in ascending order, the order std::map iterates them in. */
  ghost function Ids(m: Registry): (ks: seq<uint32>)
    ensures forall i :: 0 <= i < |ks| ==> ks[i] in m
  {
    IdLessTotal();
    SortedKeysSpec(IdLess, m.Keys);
    SortedKeys(IdLess, m.Keys)
  }

  /** The list response for registry m. */
  ghost function Listing(m: Registry): seq<LobbyInfo>
  {
    InfoOf(m, Ids(m))
  }

  /** The i-th entry of the listing is the info of the i-th smallest id. */
  lemma ListingEntries(m: Registry)
    requires Keyed(m)
    ensures |Listing(m)| == |Ids(m)|
    ensures forall i :: 0 <= i < |Listing(m)| ==> Listing(m)[i] == Info(m[Ids(m)[i]]) && Listing(m)[i].id == Ids(m)[i]
  {
  }

  /** The response lists every lobby once, in ascending id order, with its
      fields copied. */
  lemma ListingSpec(m: Registry)
    requires Keyed(m)
    ensures |Listing(m)| == |m|
    ensures forall i, j :: 0 <= i < j < |Listing(m)| ==> Listing(m)[i].id < Listing(m)[j].id
    ensures forall i :: 0 <= i < |Listing(m)| ==> Listing(m)[i].id in m && Listing(m)[i] == Info(m[Listing(m)[i].id])
    ensures forall k :: k in m ==> exists i :: 0 <= i < |Listing(m)| && Listing(m)[i] == Info(m[k])
  {
    IdLessTotal();
    SortedKeysSpec(IdLess, m.Keys);
    ListingEntries(m);
    var ks := Ids(m);
    var r := Listing(m);
    forall k | k in m ensures exists i :: 0 <= i < |r| && r[i] == Info(m[k]) {
      assert k in ks;
      var i :| 0 <= i < |ks| && ks[i] == k;
      assert r[i] == Info(m[k]);
    }
  }

  lemma InfoOfCons(m: Registry, k: uint32, rest: seq<uint32>)
    requires k in m && forall i :: 0 <= i < |rest| ==> rest[i] in m
    ensures InfoOf(m, [k] + rest) == [Info(m[k])] + InfoOf(m, rest)
  {
    var ks := [k] + rest;
    var a, b := InfoOf(m, ks), [Info(m[k])] + InfoOf(m, rest);
    forall i | 0 <= i < |a| ensures a[i] == b[i] {
      if i > 0 { assert ks[i] == rest[i - 1]; }
    }
  }

  /** Listing the remaining ids starting from the smallest one. */
  lemma InfoOfUnfold(m: Registry, s: set<uint32>, k: uint32)
    requires s <= m.Keys && k in s && forall j :: j in s ==> k <= j
    ensures StrictTotalOrder(IdLess)
    ensures forall i :: 0 <= i < |SortedKeys(IdLess, s)| ==> SortedKeys(IdLess, s)[i] in m
    ensures forall i :: 0 <= i < |SortedKeys(IdLess, s - {k})| ==> SortedKeys(IdLess, s - {k})[i] in m
    ensures InfoOf(m, SortedKeys(IdLess, s)) == [Info(m[k])] + InfoOf(m, SortedKeys(IdLess, s - {k}))
  {
    IdLessTotal();
    SortedKeysSpec(IdLess, s);
    SortedKeysSpec(IdLess, s - {k});
    assert IsLeast(IdLess, s, k);
    SortedKeysUnfold(IdLess, s, k);
    InfoOfCons(m, k, SortedKeys(IdLess, s - {k}));
  }

  /** One turn of the listing loop: emitting the least remaining id keeps the
      emitted prefix plus the rest equal to the whole listing. */
  lemma ListStep(m: Registry, remaining: set<uint32>, res: seq<LobbyInfo>, k: uint32)
    requires remaining <= m.Keys && k in remaining && forall j :: j in remaining ==> k <= j
    requires forall i :: 0 <= i < |SortedKeys(IdLess, remaining)| ==> SortedKeys(IdLess, remaining)[i] in m
    requires res + InfoOf(m, SortedKeys(IdLess, remaining)) == Listing(m)
    ensures forall i :: 0 <= i < |SortedKeys(IdLess, remaining - {k})| ==> SortedKeys(IdLess, remaining - {k})[i] in m
    ensures (res + [Info(m[k])]) + InfoOf(m, SortedKeys(IdLess, remaining - {k})) == Listing(m)
  {
    InfoOfUnfold(m, remaining, k);
    var rest := InfoOf(m, SortedKeys(IdLess, remaining - {k}));
    assert res + ([Info(m[k])] + rest) == (res + [Info(m[k])]) + rest;
  }

  // ---------------------------------------------------------------------------
  // One message, and one poll round

  /** The effect of one message: the new registry and counter, and a list
      response when one is sent. A DATA message whose buffer is empty or whose
      offset is at or past its end is ignored, and so is a packet bitsery could
      not decode. */
  ghost function Step(m: Registry, next: uint32, msg: Message, now: real): (Registry, uint32, Option<Reply>)
  {
    match msg
    case Disconnect(peer) => (Disconnected(m, peer), next, None)
    case OtherMessage(_) => (m, next, None)
    case Data(peer, size, offset, body) =>
      if size == 0 || offset >= size then (m, next, None)
      else
        match body
        case RegisterBody(Some(pkt)) =>
          var (m', next') := Registered(m, next, peer, pkt, now);
          (m', next', None)
        case HeartbeatBody(Some(hb)) => (Heartbeated(m, peer, hb, now), next, None)
        case ListRequestBody => (m, next, Some(Reply(peer, Listing(m))))
        case _ => (m, next, None)
  }

  /** Only a list request is answered, it is answered with the full listing,
      and it changes nothing; the gate and a failed decode leave all unchanged. */
  lemma StepSpec(m: Registry, next: uint32, msg: Message, now: real)
    ensures Step(m, next, msg, now).2.Some? <==> msg.Data? && 0 < msg.size && msg.offset < msg.size && msg.body.ListRequestBody?
    ensures Step(m, next, msg, now).2.Some? ==>
              Step(m, next, msg, now) == (m, next, Some(Reply(msg.peer, Listing(m))))
    ensures msg.Data? && (msg.size == 0 || msg.offset >= msg.size) ==> Step(m, next, msg, now) == (m, next, None)
    ensures msg.Data? && (msg.body == RegisterBody(None) || msg.body == HeartbeatBody(None)) ==>
              Step(m, next, msg, now) == (m, next, None)
    ensures Step(m, next, msg, now).1 != next ==> msg.Data? && msg.body.RegisterBody?
  {
  }

  /** Every message keeps each lobby under its own id. */
  lemma StepKeyed(m: Registry, next: uint32, msg: Message, now: real)
    requires Keyed(m)
    ensures Keyed(Step(m, next, msg, now).0)
  {
    match msg
    case Disconnect(peer) => DisconnectSweepKeyed(m, peer, now);
    case OtherMessage(_) =>
    case Data(peer, size, offset, body) =>
      if size != 0 && offset < size {
        match body
        case RegisterBody(Some(pkt)) => RegisterKeyed(m, next, peer, pkt, now);
        case HeartbeatBody(Some(hb)) => HeartbeatKeyed(m, peer, hb, now);
        case _ =>
      }
  }

  /** A poll round: the messages in order, then the timeout sweep. */
  ghost function Round(m: Registry, next: uint32, msgs: seq<Message>, now: real): (r: (Registry, uint32, seq<Reply>))
    decreases |msgs|
  {
    if msgs == [] then (Swept(m, now), next, [])
    else
      var (m1, n1, reply) := Step(m, next, msgs[0], now);
      var (m2, n2, replies) := Round(m1, n1, msgs[1..], now);
      (m2, n2, (if reply.Some? then [reply.value] else []) + replies)
  }

  /** No round leaves a lobby that has been silent for over 30 s, and all
      lobbies stay stored under their ids. */
  lemma {:induction false} RoundSpec(m: Registry, next: uint32, msgs: seq<Message>, now: real)
    requires Keyed(m)
    ensures Keyed(Round(m, next, msgs, now).0)
    ensures forall k :: k in Round(m, next, msgs, now).0 ==> !Expired(Round(m, next, msgs, now).0[k], now)
    decreases |msgs|
  {
    if msgs == [] {
      DisconnectSweepKeyed(m, 0, now);
    } else {
      StepKeyed(m, next, msgs[0], now);
      var (m1, n1, reply) := Step(m, next, msgs[0], now);
      RoundSpec(m1, n1, msgs[1..], now);
    }
  }

  // ---------------------------------------------------------------------------
  // The server state

  class Master {
    var lobbies: Registry
    var nextLobbyId: uint32

    constructor ()
      ensures lobbies == map[] && nextLobbyId == FirstLobbyId
      ensures Keyed(lobbies) && Below(lobbies, nextLobbyId)
    {
      lobbies := map[];
      nextLobbyId := FirstLobbyId;
    }

    /** MASTER_REGISTER with a decoded packet. */
    method Register(peer: uint32, pkt: RegisterPacket, now: real)
      modifies this
      ensures (lobbies, nextLobbyId) == Registered(old(lobbies), old(nextLobbyId), peer, pkt, now)
    {
      var id := nextLobbyId;
      nextLobbyId := (nextLobbyId + 1) % 0x1_0000_0000;
      var lobby := Lobby(id, "Unknown", pkt.gamePort, pkt.serverName, 0, pkt.maxPlayers, 1, now, peer);
      lobbies := lobbies[id := lobby];
    }

    /** MASTER_HEARTBEAT with a decoded packet: walk the map in id order and
        refresh the first lobby the sender owns. */
    method Heartbeat(peer: uint32, hb: HeartbeatPacket, now: real)
      modifies this`lobbies
      ensures lobbies == Heartbeated(old(lobbies), peer, hb, now)
    {
      var remaining := lobbies.Keys;
      while remaining != {}
        invariant remaining <= lobbies.Keys && lobbies == old(lobbies)
        invariant forall j :: j in lobbies && j !in remaining ==> lobbies[j].peerId != peer
        invariant forall j, i :: j in lobbies && j !in remaining && i in remaining ==> j < i
        decreases |remaining|
      {
        var k := LeastId(remaining);
        if lobbies[k].peerId == peer {
          assert LowestOwned(lobbies, peer, k);
          HeartbeatedAt(lobbies, peer, hb, now, k);
          lobbies := lobbies[k := Beat(lobbies[k], hb, now)];
          return;
        }
        remaining := remaining - {k};
      }
      HeartbeatTouchesOne(lobbies, peer, hb, now);
    }

    /** DISCONNECT: erase, while walking the map, every lobby the peer owns. */
    method Disconnect(peer: uint32)
      modifies this`lobbies
      ensures lobbies == Disconnected(old(lobbies), peer)
    {
      ghost var m := lobbies;
      var remaining := lobbies.Keys;
      assert lobbies == DisconnectedBut(m, peer, remaining);
      while remaining != {}
        invariant remaining <= m.Keys
        invariant lobbies == DisconnectedBut(m, peer, remaining)
        decreases |remaining|
      {
        var k := LeastId(remaining);
        DisconnectStep(m, peer, remaining, k);
        if lobbies[k].peerId == peer {
          lobbies := lobbies - {k};
        }
        remaining := remaining - {k};
      }
      assert DisconnectedBut(m, peer, {}) == Disconnected(m, peer);
    }

    /** The end-of-round sweep: erase every lobby silent for more than 30 s. */
    method Sweep(now: real)
      modifies this`lobbies
      ensures lobbies == Swept(old(lobbies), now)
    {
      ghost var m := lobbies;
      var remaining := lobbies.Keys;
      assert lobbies == SweptBut(m, now, remaining);
      while remaining != {}
        invariant remaining <= m.Keys
        invariant lobbies == SweptBut(m, now, remaining)
        decreases |remaining|
      {
        var k := LeastId(remaining);
        SweepStep(m, now, remaining, k);
        if now - lobbies[k].lastHeartbeat > 30.0 {
          lobbies := lobbies - {k};
        }
        remaining := remaining - {k};
      }
      assert SweptBut(m, now, {}) == Swept(m, now);
    }

    /** MASTER_LIST_REQ: one entry per lobby, walking the map in id order. */
    method List() returns (res: seq<LobbyInfo>)
      ensures res == Listing(lobbies)
    {
      IdLessTotal();
      SortedKeysSpec(IdLess, lobbies.Keys);
      res := [];
      var remaining := lobbies.Keys;
      while remaining != {}
        invariant remaining <= lobbies.Keys
        invariant forall i :: 0 <= i < |SortedKeys(IdLess, remaining)| ==> SortedKeys(IdLess, remaining)[i] in lobbies
        invariant res + InfoOf(lobbies, SortedKeys(IdLess, remaining)) == Listing(lobbies)
        decreases |remaining|
      {
        var k := LeastId(remaining);
        ListStep(lobbies, remaining, res, k);
        res := res + [Info(lobbies[k])];
        remaining := remaining - {k};
      }
      SortedKeysSpec(IdLess, remaining);
    }

    /** One message of a poll round. */
    method HandleMessage(msg: Message, now: real) returns (reply: Option<Reply>)
      modifies this
      ensures (lobbies, nextLobbyId, reply) == Step(old(lobbies), old(nextLobbyId), msg, now)
    {
      reply := None;
      match msg
      case Disconnect(peer) =>
        Disconnect(peer);
      case OtherMessage(_) =>
      case Data(peer, size, offset, body) =>
        if size != 0 && offset < size {
          match body
          case RegisterBody(Some(pkt)) =>
            Register(peer, pkt, now);
          case HeartbeatBody(Some(hb)) =>
            Heartbeat(peer, hb, now);
          case ListRequestBody =>
            var infos := List();
            reply := Some(Reply(peer, infos));
          case _ =>
        }
    }

    /** One iteration of the server loop: every polled message, then the sweep. */
    method PollRound(msgs: seq<Message>, now: real) returns (replies: seq<Reply>)
      modifies this
      ensures (lobbies, nextLobbyId, replies) == Round(old(lobbies), old(nextLobbyId), msgs, now)
    {
      replies := [];
      var i := 0;
      while i < |msgs|
        invariant 0 <= i <= |msgs|
        invariant Round(old(lobbies), old(nextLobbyId), msgs, now).0 == Round(lobbies, nextLobbyId, msgs[i..], now).0
        invariant Round(old(lobbies), old(nextLobbyId), msgs, now).1 == Round(lobbies, nextLobbyId, msgs[i..], now).1
        invariant Round(old(lobbies), old(nextLobbyId), msgs, now).2
               == replies + Round(lobbies, nextLobbyId, msgs[i..], now).2
      {
        assert msgs[i..][0] == msgs[i] && msgs[i..][1..] == msgs[i + 1..];
        var reply := HandleMessage(msgs[i], now);
        if reply.Some? {
          replies := replies + [reply.value];
        }
        i := i + 1;
      }
      assert msgs[i..] == [];
      assert replies + [] == replies;
      Sweep(now);
    }
  }
}
