/**
 * ConfigManager (ConfigManager.cpp): the static game configuration, loaded
 * field by field from a parsed JSON document with a default for each missing
 * field, and the localised string table with its en/ru language cycle.
 * The file system, the JSON parser and raylib's LoadFileText are not
 * modelled: the caller gives what they produced.
 */
module Config {

  import opened Wrappers
  import opened DecimalText

  /** A parsed nlohmann::json value; an object lists its members in key order. */
  datatype Json =
    | JNull
    | JBool(b: bool)
    | JInt(n: int)
    | JReal(r: real)
    | JString(s: string)
    | JArray(items: seq<Json>)
    | JObject(members: seq<(string, Json)>)

  datatype SavedServer = SavedServer(name: string, ip: string, port: int)

  datatype ClientConfig = ClientConfig(
    playerName: string,
    lastIp: string,
    language: string,
    fullscreen: bool,
    targetFps: int,
    lastPort: int,
    resolutionWidth: int,
    resolutionHeight: int,
    masterServerIp: string,
    masterServerPort: int,
    favoriteServers: seq<SavedServer>)

  datatype ServerConfig = ServerConfig(
    port: int,
    pvpDamageFactor: real,
    maxPlayers: int,
    tickRate: int,
    serverName: string)

  datatype GameConfig = GameConfig(client: ClientConfig, server: ServerConfig)

  /** config.json as Load finds it. */
  datatype ConfigFile =
    | Missing             // std::filesystem::exists is false
    | Unopened            // it exists but the ifstream does not open
    | Read(parsed: Option<Json>)   // None: json::parse throws

  /** A language file as LoadFileText and json::parse leave it. */
  datatype LangFile = NoFile | Unparsable | Parsed(j: Json)

  // ---------------------------------------------------------------------------
  // nlohmann::json accessors

  /** The value at key in an object's members. */
  function Lookup(members: seq<(string, Json)>, key: string): (r: Option<Json>)
    ensures r.None? <==> forall i :: 0 <= i < |members| ==> members[i].0 != key
    ensures r.Some? ==> exists i :: 0 <= i < |members| && members[i] == (key, r.value)
  {
    if members == [] then None
    else if members[0].0 == key then Some(members[0].1)
    else Lookup(members[1..], key)
  }

  /** json::contains: false on anything but an object. */
  predicate Contains(j: Json, key: string)
  {
    j.JObject? && Lookup(j.members, key).Some?
  }

  function Member(j: Json, key: string): Json
    requires Contains(j, key)
  {
    Lookup(j.members, key).value
  }

  /** get<std::string>: only a string converts. */
  function AsString(v: Json): Option<string>
  {
    if v.JString? then Some(v.s) else None
  }

  /** A C++ cast of a double to int: toward zero. */
  function Truncate(r: real): int
  {
    if r >= 0.0 then r.Floor else -((-r).Floor)
  }

  /** get<int>: numbers and booleans convert, floating values toward zero. */
  function AsInt(v: Json): Option<int>
  {
    match v
    case JInt(n) => Some(n)
    case JReal(r) => Some(Truncate(r))
    case JBool(b) => Some(if b then 1 else 0)
    case _ => None
  }

  /** get<float>: numbers and booleans convert. */
  function AsReal(v: Json): Option<real>
  {
    match v
    case JInt(n) => Some(n as real)
    case JReal(r) => Some(r)
    case JBool(b) => Some(if b then 1.0 else 0.0)
    case _ => None
  }

  /** A configuration value: the type of the default decides the conversion. */
  datatype Value = VStr(s: string) | VInt(n: int) | VReal(r: real)

  predicate SameKind(v: Value, w: Value)
  {
    (v.VStr? && w.VStr?) || (v.VInt? && w.VInt?) || (v.VReal? && w.VReal?)
  }

  /** get<T> for the T of like; None where it throws. */
  function Convert(v: Json, like: Value): (r: Option<Value>)
    ensures r.Some? ==> SameKind(r.value, like)
  {
    match like
    case VStr(_) => (match AsString(v) case Some(x) => Some(VStr(x)) case None => None)
    case VInt(_) => (match AsInt(v) case Some(x) => Some(VInt(x)) case None => None)
    case VReal(_) => (match AsReal(v) case Some(x) => Some(VReal(x)) case None => None)
  }

  /** json::value(key, default): None where it throws, which is on a value
      that is not an object, or on a member that does not convert. */
  function ValueAt(c: Json, key: string, default: Value): (r: Option<Value>)
    ensures r.Some? ==> SameKind(r.value, default)
  {
    if !c.JObject? then None
    else match Lookup(c.members, key)
      case None => Some(default)
      case Some(v) => Convert(v, default)
  }

  /** What a range-for over a json visits: an array's items, an object's
      values, nothing for null, and a scalar itself. */
  function Elements(j: Json): (r: seq<Json>)
  {
    match j
    case JArray(xs) => xs
    case JObject(ms) => seq(|ms|, i requires 0 <= i < |ms| => ms[i].1)
    case JNull => []
    case _ => [j]
  }

  /** json::items(): an object's members, an array's items under their index,
      nothing for null, and a scalar under the empty key. */
  function Items(j: Json): (r: seq<(string, Json)>)
  {
    match j
    case JObject(ms) => ms
    case JArray(xs) => seq(|xs|, i requires 0 <= i < |xs| => (Decimal(i), xs[i]))
    case JNull => []
    case _ => [("", j)]
  }

  // ---------------------------------------------------------------------------
  // Load, as a function of the configuration

  /** The fields Load reads with json::value, each with its key and default. */
  datatype Field =
    | PlayerName | LastIp | LastPort | TargetFps | ResW | ResH | MasterIp | MasterPort
    | Port | PvpDamageFactor | MaxPlayers | TickRate | ServerName

  function FieldKey(f: Field): string
  {
    match f
    case PlayerName => "playerName"
    case LastIp => "lastIp"
    case LastPort => "lastPort"
    case TargetFps => "targetFPS"
    case ResW => "resW"
    case ResH => "resH"
    case MasterIp => "masterIp"
    case MasterPort => "masterPort"
    case Port => "port"
    case PvpDamageFactor => "pvpDamageFactor"
    case MaxPlayers => "maxPlayers"
    case TickRate => "tickRate"
    case ServerName => "serverName"
  }

  function FieldDefault(f: Field): Value
  {
    match f
    case PlayerName => VStr("Player")
    case LastIp => VStr("127.0.0.1")
    case LastPort => VInt(7777)
    case TargetFps => VInt(60)
    case ResW => VInt(1280)
    case ResH => VInt(720)
    case MasterIp => VStr("127.0.0.1")
    case MasterPort => VInt(8080)
    case Port => VInt(7777)
    case PvpDamageFactor => VReal(1.0)
    case MaxPlayers => VInt(8)
    case TickRate => VInt(60)
    case ServerName => VStr("Void Server")
  }

  /** The client fields in the order Load reads them, then the server fields. */
  const ClientFields: seq<Field> := [PlayerName, LastIp, LastPort, TargetFps, ResW, ResH, MasterIp, MasterPort]
  const ServerFields: seq<Field> := [Port, PvpDamageFactor, MaxPlayers, TickRate, ServerName]

  function Get(cfg: GameConfig, f: Field): (v: Value)
    ensures SameKind(v, FieldDefault(f))
  {
    match f
    case PlayerName => VStr(cfg.client.playerName)
    case LastIp => VStr(cfg.client.lastIp)
    case LastPort => VInt(cfg.client.lastPort)
    case TargetFps => VInt(cfg.client.targetFps)
    case ResW => VInt(cfg.client.resolutionWidth)
    case ResH => VInt(cfg.client.resolutionHeight)
    case MasterIp => VStr(cfg.client.masterServerIp)
    case MasterPort => VInt(cfg.client.masterServerPort)
    case Port => VInt(cfg.server.port)
    case PvpDamageFactor => VReal(cfg.server.pvpDamageFactor)
    case MaxPlayers => VInt(cfg.server.maxPlayers)
    case TickRate => VInt(cfg.server.tickRate)
    case ServerName => VStr(cfg.server.serverName)
  }

  /** The assignment of v to field f. */
  function Set(cfg: GameConfig, f: Field, v: Value): (r: GameConfig)
    requires SameKind(v, FieldDefault(f))
  {
    match f
    case PlayerName => cfg.(client := cfg.client.(playerName := v.s))
    case LastIp => cfg.(client := cfg.client.(lastIp := v.s))
    case LastPort => cfg.(client := cfg.client.(lastPort := v.n))
    case TargetFps => cfg.(client := cfg.client.(targetFps := v.n))
    case ResW => cfg.(client := cfg.client.(resolutionWidth := v.n))
    case ResH => cfg.(client := cfg.client.(resolutionHeight := v.n))
    case MasterIp => cfg.(client := cfg.client.(masterServerIp := v.s))
    case MasterPort => cfg.(client := cfg.client.(masterServerPort := v.n))
    case Port => cfg.(server := cfg.server.(port := v.n))
    case PvpDamageFactor => cfg.(server := cfg.server.(pvpDamageFactor := v.r))
    case MaxPlayers => cfg.(server := cfg.server.(maxPlayers := v.n))
    case TickRate => cfg.(server := cfg.server.(tickRate := v.n))
    case ServerName => cfg.(server := cfg.server.(serverName := v.s))
  }

  /** Setting a field changes that field and no other, nor anything Load does
      not read. */
  lemma GetSet(cfg: GameConfig, f: Field, v: Value, g: Field)
    requires SameKind(v, FieldDefault(f))
    ensures Get(Set(cfg, f, v), g) == if f == g then v else Get(cfg, g)
    ensures Set(cfg, f, v).client.language == cfg.client.language
    ensures Set(cfg, f, v).client.fullscreen == cfg.client.fullscreen
    ensures Set(cfg, f, v).client.favoriteServers == cfg.client.favoriteServers
  {
  }

  /** The favourites are not a field read with json::value. */
  lemma GetIgnoresFavorites(cfg: GameConfig, fs: seq<SavedServer>, f: Field)
    ensures Get(cfg.(client := cfg.client.(favoriteServers := fs)), f) == Get(cfg, f)
  {
  }

  /** The fields fs read in order from object c; false once a read throws,
      with the fields read before it kept. */
  function ReadFields(cfg: GameConfig, c: Json, fs: seq<Field>): (GameConfig, bool)
    decreases |fs|
  {
    if fs == [] then (cfg, true)
    else match ValueAt(c, FieldKey(fs[0]), FieldDefault(fs[0]))
      case None => (cfg, false)
      case Some(v) => ReadFields(Set(cfg, fs[0], v), c, fs[1..])
  }

  /** One favourites entry; each field has its own default. */
  function Saved(elem: Json): Option<SavedServer>
  {
    var name := ValueAt(elem, "name", VStr("Server"));
    var ip := ValueAt(elem, "ip", VStr("127.0.0.1"));
    var port := ValueAt(elem, "port", VInt(7777));
    if name.Some? && ip.Some? && port.Some? then Some(SavedServer(name.value.s, ip.value.s, port.value.n)) else None
  }

  /** The entries pushed for elems; false when one of them throws, leaving
      those before it. */
  function ReadFavorites(elems: seq<Json>): (seq<SavedServer>, bool)
  {
    if elems == [] then ([], true)
    else
      var (fs, ok) := ReadFavorites(elems[..|elems| - 1]);
      if !ok then (fs, false)
      else match Saved(elems[|elems| - 1])
        case None => (fs, false)
        case Some(s) => (fs + [s], true)
  }

  /** The "client" section: its fields, then the favourites when present. */
  function ReadClientSection(cfg: GameConfig, c: Json): (GameConfig, bool)
  {
    var (cfg1, ok) := ReadFields(cfg, c, ClientFields);
    if !ok || !Contains(c, "favorites") then (cfg1, ok)
    else
      var (fs, ok2) := ReadFavorites(Elements(Member(c, "favorites")));
      (cfg1.(client := cfg1.client.(favoriteServers := fs)), ok2)
  }

  /** CreateDefaultConfig: fixed values for some fields, and one more favourite. */
  function Defaulted(cfg: GameConfig, masterIp: string): GameConfig
  {
    cfg.(client := cfg.client.(
           playerName := "Player", lastIp := "127.0.0.1",
           favoriteServers := cfg.client.favoriteServers + [SavedServer("Localhost", "127.0.0.1", 7777)],
           resolutionWidth := 1280, resolutionHeight := 720,
           masterServerIp := masterIp, masterServerPort := 8080),
         server := cfg.server.(port := 7777, serverName := "My Void Server"))
  }

  /** Load: a missing file, a parse error or any throwing read ends in
      CreateDefaultConfig over what was loaded so far; a file that does not
      open changes nothing. */
  function Loaded(cfg: GameConfig, file: ConfigFile, masterIp: string): GameConfig
  {
    match file
    case Missing => Defaulted(cfg, masterIp)
    case Unopened => cfg
    case Read(None) => Defaulted(cfg, masterIp)
    case Read(Some(j)) =>
      var (cfg1, ok1) := if Contains(j, "client") then ReadClientSection(cfg, Member(j, "client")) else (cfg, true);
      if !ok1 then Defaulted(cfg1, masterIp)
      else
        var (cfg2, ok2) := if Contains(j, "server") then ReadFields(cfg1, Member(j, "server"), ServerFields) else (cfg1, true);
        if !ok2 then Defaulted(cfg2, masterIp) else cfg2
  }

  // ---------------------------------------------------------------------------
  // Properties of Load

  /** Field f of object ms is absent or converts to its type. */
  predicate Converts(ms: seq<(string, Json)>, f: Field)
  {
    Lookup(ms, FieldKey(f)).None? || Convert(Lookup(ms, FieldKey(f)).value, FieldDefault(f)).Some?
  }

  /** The member's value when present, the field's default otherwise. */
  function ValueOr(ms: seq<(string, Json)>, f: Field): Value
    requires Converts(ms, f)
  {
    if Lookup(ms, FieldKey(f)).None? then FieldDefault(f) else Convert(Lookup(ms, FieldKey(f)).value, FieldDefault(f)).value
  }

  predicate Distinct(fs: seq<Field>)
  {
    forall i, j :: 0 <= i < j < |fs| ==> fs[i] != fs[j]
  }

  /** When every field converts, each one read takes its member or its
      default, and every other field and the favourites keep their values. */
  lemma {:induction false} ReadFieldsAll(cfg: GameConfig, ms: seq<(string, Json)>, fs: seq<Field>)
    requires Distinct(fs) && forall f :: f in fs ==> Converts(ms, f)
    ensures ReadFields(cfg, JObject(ms), fs).1
    ensures forall f :: f in fs ==> Get(ReadFields(cfg, JObject(ms), fs).0, f) == ValueOr(ms, f)
    ensures forall g :: g !in fs ==> Get(ReadFields(cfg, JObject(ms), fs).0, g) == Get(cfg, g)
    ensures ReadFields(cfg, JObject(ms), fs).0.client.favoriteServers == cfg.client.favoriteServers
    decreases |fs|
  {
    if fs != [] {
      var f, rest := fs[0], fs[1..];
      var v := ValueOr(ms, f);
      var cfg1 := Set(cfg, f, v);
      assert ValueAt(JObject(ms), FieldKey(f), FieldDefault(f)) == Some(v);
      assert forall g :: g in rest ==> g in fs;
      assert Distinct(rest) by {
        forall i, j | 0 <= i < j < |rest| ensures rest[i] != rest[j] {
          assert rest[i] == fs[i + 1] && rest[j] == fs[j + 1];
        }
      }
      ReadFieldsAll(cfg1, ms, rest);
      forall g ensures Get(cfg1, g) == if f == g then v else Get(cfg, g) {
        GetSet(cfg, f, v, g);
      }
      assert forall g :: g in fs ==> g == f || g in rest;
    }
  }

  /** Reading fields never touches the language, fullscreen or the favourites. */
  lemma {:induction false} ReadFieldsKeeps(cfg: GameConfig, c: Json, fs: seq<Field>)
    ensures ReadFields(cfg, c, fs).0.client.language == cfg.client.language
    ensures ReadFields(cfg, c, fs).0.client.fullscreen == cfg.client.fullscreen
    ensures ReadFields(cfg, c, fs).0.client.favoriteServers == cfg.client.favoriteServers
    decreases |fs|
  {
    if fs != [] {
      var v := ValueAt(c, FieldKey(fs[0]), FieldDefault(fs[0]));
      if v.Some? {
        GetSet(cfg, fs[0], v.value, fs[0]);
        ReadFieldsKeeps(Set(cfg, fs[0], v.value), c, fs[1..]);
      }
    }
  }

  predicate FavoriteOk(e: Json)
  {
    e.JObject? && ValueAt(e, "name", VStr("Server")).Some? && ValueAt(e, "ip", VStr("127.0.0.1")).Some?
    && ValueAt(e, "port", VInt(7777)).Some?
  }

  /** Well-formed entries are all read, in order. */
  lemma {:induction false} ReadFavoritesAll(elems: seq<Json>)
    requires forall i :: 0 <= i < |elems| ==> FavoriteOk(elems[i])
    ensures ReadFavorites(elems).1
    ensures |ReadFavorites(elems).0| == |elems|
    ensures forall i :: 0 <= i < |elems| ==> Some(ReadFavorites(elems).0[i]) == Saved(elems[i])
  {
    if elems != [] {
      var init, last := elems[..|elems| - 1], elems[|elems| - 1];
      assert forall i :: 0 <= i < |init| ==> init[i] == elems[i];
      ReadFavoritesAll(init);
      var fs := ReadFavorites(init).0;
      assert FavoriteOk(last);
      var x := Saved(last).value;
      assert ReadFavorites(elems) == (fs + [x], true);
      forall i | 0 <= i < |elems| ensures Some((fs + [x])[i]) == Saved(elems[i]) {
        if i < |init| {
          assert elems[i] == init[i];
        }
      }
    }
  }

  /** Each favourite field takes its member or its own default. */
  lemma SavedFields(ms: seq<(string, Json)>)
    ensures Lookup(ms, "name").None? && Lookup(ms, "ip").None? && Lookup(ms, "port").None? ==>
              Saved(JObject(ms)) == Some(SavedServer("Server", "127.0.0.1", 7777))
    ensures Lookup(ms, "name") == Some(JString("a")) && Lookup(ms, "ip").None? && Lookup(ms, "port") == Some(JBool(true)) ==>
              Saved(JObject(ms)).Some? && Saved(JObject(ms)).value.name == "a" && Saved(JObject(ms)).value.port == 1
    ensures Lookup(ms, "ip").Some? && !Lookup(ms, "ip").value.JString? ==> Saved(JObject(ms)).None?
  {
  }

  /** An entry that is not an object stops the list there. */
  lemma ReadFavoritesStops(elems: seq<Json>, k: nat)
    requires k < |elems| && !elems[k].JObject?
    requires forall i :: 0 <= i < k ==> FavoriteOk(elems[i])
    ensures !ReadFavorites(elems[..k + 1]).1 && |ReadFavorites(elems[..k + 1]).0| == k
  {
    var es := elems[..k + 1];
    assert es[..|es| - 1] == elems[..k];
    ReadFavoritesAll(elems[..k]);
  }

  lemma ClientFieldsDistinct()
    ensures Distinct(ClientFields)
  {
  }

  lemma ServerFieldsDistinct()
    ensures Distinct(ServerFields)
  {
  }

  /** No field is read from both sections. */
  lemma SectionsDisjoint()
    ensures forall f :: f in ClientFields ==> f !in ServerFields
  {
  }

  /** The client section of an object whose members convert: every field
      present is taken and every other field gets its default. */
  lemma ReadClientSectionFields(cfg: GameConfig, ms: seq<(string, Json)>)
    requires forall f :: f in ClientFields ==> Converts(ms, f)
    requires Lookup(ms, "favorites").Some? ==>
               forall i :: 0 <= i < |Elements(Lookup(ms, "favorites").value)| ==> FavoriteOk(Elements(Lookup(ms, "favorites").value)[i])
    ensures ReadClientSection(cfg, JObject(ms)).1
    ensures forall f :: f in ClientFields ==> Get(ReadClientSection(cfg, JObject(ms)).0, f) == ValueOr(ms, f)
    ensures forall f :: f !in ClientFields ==> Get(ReadClientSection(cfg, JObject(ms)).0, f) == Get(cfg, f)
  {
    ClientFieldsDistinct();
    ReadFieldsAll(cfg, ms, ClientFields);
    var r := ReadFields(cfg, JObject(ms), ClientFields).0;
    var out := ReadClientSection(cfg, JObject(ms)).0;
    if Lookup(ms, "favorites").Some? {
      var es := Elements(Lookup(ms, "favorites").value);
      ReadFavoritesAll(es);
      assert out == r.(client := r.client.(favoriteServers := ReadFavorites(es).0));
      forall f ensures Get(out, f) == Get(r, f) {
        GetIgnoresFavorites(r, ReadFavorites(es).0, f);
      }
    } else {
      assert out == r;
    }
  }

  /** The favourites are replaced only when "favorites" is present, by one
      entry per element. */
  lemma ReadClientSectionFavorites(cfg: GameConfig, ms: seq<(string, Json)>)
    requires forall f :: f in ClientFields ==> Converts(ms, f)
    requires Lookup(ms, "favorites").Some? ==>
               forall i :: 0 <= i < |Elements(Lookup(ms, "favorites").value)| ==> FavoriteOk(Elements(Lookup(ms, "favorites").value)[i])
    ensures Lookup(ms, "favorites").None? ==> ReadClientSection(cfg, JObject(ms)).0.client.favoriteServers == cfg.client.favoriteServers
    ensures Lookup(ms, "favorites").Some? ==>
              var es := Elements(Lookup(ms, "favorites").value);
              var fs := ReadClientSection(cfg, JObject(ms)).0.client.favoriteServers;
              |fs| == |es| && forall i :: 0 <= i < |es| ==> Some(fs[i]) == Saved(es[i])
  {
    ClientFieldsDistinct();
    ReadFieldsAll(cfg, ms, ClientFields);
    if Lookup(ms, "favorites").Some? {
      ReadFavoritesAll(Elements(Lookup(ms, "favorites").value));
    }
  }

  /** With such a "client" object and no "server" section, Load's result is
      the client section read. */
  lemma LoadClientOnly(cfg: GameConfig, ms: seq<(string, Json)>, top: seq<(string, Json)>, masterIp: string)
    requires Lookup(top, "client") == Some(JObject(ms)) && Lookup(top, "server").None?
    requires forall f :: f in ClientFields ==> Converts(ms, f)
    requires Lookup(ms, "favorites").Some? ==>
               forall i :: 0 <= i < |Elements(Lookup(ms, "favorites").value)| ==> FavoriteOk(Elements(Lookup(ms, "favorites").value)[i])
    ensures Loaded(cfg, Read(Some(JObject(top))), masterIp) == ReadClientSection(cfg, JObject(ms)).0
  {
    ReadClientSectionFields(cfg, ms);
  }

  /** With both sections present and well typed, Load takes every client field
      from "client" and every server field from "server", each member or its
      default, and the favourites as the client section read them. */
  lemma LoadBoth(cfg: GameConfig, ms: seq<(string, Json)>, ss: seq<(string, Json)>, top: seq<(string, Json)>, masterIp: string)
    requires Lookup(top, "client") == Some(JObject(ms)) && Lookup(top, "server") == Some(JObject(ss))
    requires forall f :: f in ClientFields ==> Converts(ms, f)
    requires forall f :: f in ServerFields ==> Converts(ss, f)
    requires Lookup(ms, "favorites").Some? ==>
               forall i :: 0 <= i < |Elements(Lookup(ms, "favorites").value)| ==> FavoriteOk(Elements(Lookup(ms, "favorites").value)[i])
    ensures forall f :: f in ClientFields ==> Get(Loaded(cfg, Read(Some(JObject(top))), masterIp), f) == ValueOr(ms, f)
    ensures forall f :: f in ServerFields ==> Get(Loaded(cfg, Read(Some(JObject(top))), masterIp), f) == ValueOr(ss, f)
    ensures Loaded(cfg, Read(Some(JObject(top))), masterIp).client.favoriteServers
         == ReadClientSection(cfg, JObject(ms)).0.client.favoriteServers
  {
    ReadClientSectionFields(cfg, ms);
    var c1 := ReadClientSection(cfg, JObject(ms)).0;
    ServerFieldsDistinct();
    ReadFieldsAll(c1, ss, ServerFields);
    var r := ReadFields(c1, JObject(ss), ServerFields).0;
    assert Loaded(cfg, Read(Some(JObject(top))), masterIp) == r;
    SectionsDisjoint();
  }

  /** A member of the wrong type ends in CreateDefaultConfig: a number as
      "playerName" resets the name and appends the Localhost favourite. */
  lemma LoadTypeError(cfg: GameConfig, ms: seq<(string, Json)>, n: int, masterIp: string)
    ensures Loaded(cfg, Read(Some(JObject([("client", JObject([("playerName", JInt(n))] + ms))]))), masterIp)
         == Defaulted(cfg, masterIp)
  {
  }

  /** A "client" value that is not an object throws at its first field. */
  lemma LoadClientNotObject(cfg: GameConfig, c: Json, masterIp: string)
    requires !c.JObject?
    ensures Loaded(cfg, Read(Some(JObject([("client", c)]))), masterIp) == Defaulted(cfg, masterIp)
  {
  }

  /** CreateDefaultConfig's fields, which are what a missing file yields. */
  lemma LoadMissing(cfg: GameConfig, masterIp: string)
    ensures var r := Loaded(cfg, Missing, masterIp);
            r.client.playerName == "Player" && r.client.lastIp == "127.0.0.1"
            && r.client.resolutionWidth == 1280 && r.client.resolutionHeight == 720
            && r.client.masterServerIp == masterIp && r.client.masterServerPort == 8080
            && r.client.favoriteServers == cfg.client.favoriteServers + [SavedServer("Localhost", "127.0.0.1", 7777)]
            && r.server.port == 7777 && r.server.serverName == "My Void Server"
            && r.client.lastPort == cfg.client.lastPort && r.client.targetFps == cfg.client.targetFps
            && r.server.maxPlayers == cfg.server.maxPlayers && r.server.tickRate == cfg.server.tickRate
    ensures Loaded(cfg, Unopened, masterIp) == cfg
  {
  }

  /** Load never reads "language" or "fullscreen", though Save writes both:
      whatever the file holds, they keep their values. */
  lemma LoadKeepsLanguage(cfg: GameConfig, file: ConfigFile, masterIp: string)
    ensures Loaded(cfg, file, masterIp).client.language == cfg.client.language
    ensures Loaded(cfg, file, masterIp).client.fullscreen == cfg.client.fullscreen
  {
    if file.Read? && file.parsed.Some? {
      var j := file.parsed.value;
      var cfg1 := cfg;
      if Contains(j, "client") {
        ReadFieldsKeeps(cfg, Member(j, "client"), ClientFields);
        cfg1 := ReadClientSection(cfg, Member(j, "client")).0;
      }
      if Contains(j, "server") {
        ReadFieldsKeeps(cfg1, Member(j, "server"), ServerFields);
      }
    }
  }

  /** A document that is not an object, or has neither section, changes nothing. */
  lemma LoadNoSections(cfg: GameConfig, j: Json, masterIp: string)
    requires !Contains(j, "client") && !Contains(j, "server")
    ensures Loaded(cfg, Read(Some(j)), masterIp) == cfg
  {
  }

  // ---------------------------------------------------------------------------
  // The string table

  /** The pairs of items entered in order; false at the first value that is
      not a string, which get<std::string> throws on. */
  function Fill(table: map<string, string>, items: seq<(string, Json)>): (map<string, string>, bool)
    decreases |items|
  {
    if items == [] then (table, true)
    else if !items[0].1.JString? then (table, false)
    else Fill(table[items[0].0 := items[0].1.s], items[1..])
  }

  /** The table LoadLanguage leaves: empty, then filled from the file. */
  function LanguageTable(file: LangFile): map<string, string>
  {
    if file.Parsed? then Fill(map[], Items(file.j)).0 else map[]
  }

  /** Every key in a filled table was in the table before or among the items. */
  lemma {:induction false} FillKeys(table: map<string, string>, items: seq<(string, Json)>)
    ensures forall k :: k in Fill(table, items).0 ==> k in table || exists i :: 0 <= i < |items| && items[i].0 == k
    decreases |items|
  {
    if items != [] && items[0].1.JString? {
      var rest := items[1..];
      FillKeys(table[items[0].0 := items[0].1.s], rest);
      assert Fill(table, items).0 == Fill(table[items[0].0 := items[0].1.s], rest).0;
      forall k | k in Fill(table, items).0
        ensures k in table || exists i :: 0 <= i < |items| && items[i].0 == k
      {
        if k !in table && k != items[0].0 {
          var i :| 0 <= i < |rest| && rest[i].0 == k;
          assert items[i + 1].0 == k;
        }
      }
    }
  }

  /** When every value is a string and no key repeats, each item's value is in the table. */
  lemma {:induction false} FillValues(table: map<string, string>, items: seq<(string, Json)>)
    requires forall i :: 0 <= i < |items| ==> items[i].1.JString?
    requires forall i, j :: 0 <= i < j < |items| ==> items[i].0 != items[j].0
    ensures Fill(table, items).1
    ensures forall i :: 0 <= i < |items| ==> items[i].0 in Fill(table, items).0 && Fill(table, items).0[items[i].0] == items[i].1.s
    decreases |items|
  {
    if items != [] {
      var rest := items[1..];
      var t := table[items[0].0 := items[0].1.s];
      FillValues(t, rest);
      FillKeeps(t, rest, items[0].0);
      forall i | 1 <= i < |items| ensures items[i].0 in Fill(table, items).0 && Fill(table, items).0[items[i].0] == items[i].1.s {
        assert items[i] == rest[i - 1];
      }
    }
  }

  /** A key no item names keeps its value. */
  lemma {:induction false} FillKeeps(table: map<string, string>, items: seq<(string, Json)>, k: string)
    requires k in table && forall i :: 0 <= i < |items| ==> items[i].0 != k
    ensures k in Fill(table, items).0 && Fill(table, items).0[k] == table[k]
    decreases |items|
  {
    if items != [] && items[0].1.JString? {
      FillKeeps(table[items[0].0 := items[0].1.s], items[1..], k);
    }
  }

  /** Nothing of the previous table survives: every key comes from the new file. */
  lemma LanguageTableFresh(file: LangFile)
    ensures !file.Parsed? ==> LanguageTable(file) == map[]
    ensures file.Parsed? ==> forall k :: k in LanguageTable(file) ==> exists i :: 0 <= i < |Items(file.j)| && Items(file.j)[i].0 == k
  {
    if file.Parsed? {
      FillKeys(map[], Items(file.j));
    }
  }

  /** Text: the localised string when the key has one, otherwise the key itself. */
  function Text(table: map<string, string>, key: string): (r: string)
    ensures key in table ==> r == table[key]
    ensures key !in table ==> r == key
  {
    if key in table then table[key] else key
  }

  /** After loading a file of string members with distinct keys, Text gives
      each member's value, and any other key unchanged. */
  lemma TextAfterLoad(ms: seq<(string, Json)>, key: string)
    requires forall i :: 0 <= i < |ms| ==> ms[i].1.JString?
    requires forall i, j :: 0 <= i < j < |ms| ==> ms[i].0 != ms[j].0
    ensures forall i :: 0 <= i < |ms| ==> Text(LanguageTable(Parsed(JObject(ms))), ms[i].0) == ms[i].1.s
    ensures (forall i :: 0 <= i < |ms| ==> ms[i].0 != key) ==> Text(LanguageTable(Parsed(JObject(ms))), key) == key
  {
    FillValues(map[], ms);
    LanguageTableFresh(Parsed(JObject(ms)));
  }

  /** The language CycleLanguage moves to. */
  function NextLanguage(code: string): (r: string)
    ensures r == "en" || r == "ru"
    ensures r == "ru" <==> code == "en"
  {
    if code == "en" then "ru" else "en"
  }

  /** Two cycles from en or ru come back; any other code goes to en, then ru. */
  lemma CycleTwice(code: string)
    ensures code == "en" || code == "ru" ==> NextLanguage(NextLanguage(code)) == code
    ensures code != "en" && code != "ru" ==> NextLanguage(code) == "en" && NextLanguage(NextLanguage(code)) == "ru"
  {
  }

  function LangPath(code: string): string
  {
    "assets/lang/lang_" + code + ".json"
  }

  function LangFileAt(files: map<string, LangFile>, path: string): LangFile
  {
    if path in files then files[path] else NoFile
  }

  // ---------------------------------------------------------------------------
  // The static state

  /** ConfigManager's static members: the configuration and the string table.
      The build's MASTER_IP macro is a constant given at construction. */
  class ConfigManager {
    var config: GameConfig
    var strings: map<string, string>
    const masterIp: string

    constructor (initial: GameConfig, masterIp: string)
      ensures config == initial && strings == map[] && this.masterIp == masterIp
    {
      config := initial;
      strings := map[];
      this.masterIp := masterIp;
    }

    /** CreateDefaultConfig; its Save is file output and is not modelled. */
    method CreateDefaultConfig()
      modifies this`config
      ensures config == Defaulted(old(config), masterIp)
    {
      config := config.(client := config.client.(playerName := "Player", lastIp := "127.0.0.1"));
      config := config.(server := config.server.(port := 7777));
      config := config.(client := config.client.(favoriteServers := config.client.favoriteServers + [SavedServer("Localhost", "127.0.0.1", 7777)]));
      config := config.(client := config.client.(resolutionWidth := 1280, resolutionHeight := 720));
      config := config.(client := config.client.(masterServerIp := masterIp, masterServerPort := 8080));
      config := config.(server := config.server.(serverName := "My Void Server"));
    }

    /** The favourites loop: clear, then push one entry per element; false
        when an element throws. */
    method LoadFavorites(elems: seq<Json>) returns (ok: bool)
      modifies this`config
      ensures (config.client.favoriteServers, ok) == ReadFavorites(elems)
      ensures config == old(config).(client := old(config).client.(favoriteServers := config.client.favoriteServers))
    {
      config := config.(client := config.client.(favoriteServers := []));
      var i := 0;
      while i < |elems|
        invariant 0 <= i <= |elems|
        invariant ReadFavorites(elems[..i]) == (config.client.favoriteServers, true)
        invariant config == old(config).(client := old(config).client.(favoriteServers := config.client.favoriteServers))
      {
        assert elems[..i + 1][..i] == elems[..i];
        var s := Saved(elems[i]);
        if s.None? {
          assert elems[..i + 1][i] == elems[i];
          LoadFavoritesStop(elems, i);
          return false;
        }
        config := config.(client := config.client.(favoriteServers := config.client.favoriteServers + [s.value]));
        i := i + 1;
      }
      assert elems[..i] == elems;
      ok := true;
    }

    /** Load: read config.json's fields into the configuration. */
    method Load(file: ConfigFile)
      modifies this`config
      ensures config == Loaded(old(config), file, masterIp)
    {
      match file {
        case Missing =>
          CreateDefaultConfig();
        case Unopened =>
        case Read(parsed) =>
          if parsed.None? {
            CreateDefaultConfig();
            return;
          }
          var j := parsed.value;
          if Contains(j, "client") {
            var c := Member(j, "client");
            var r := ReadFields(config, c, ClientFields);
            config := r.0;
            if !r.1 {
              CreateDefaultConfig();
              return;
            }
            if Contains(c, "favorites") {
              var ok := LoadFavorites(Elements(Member(c, "favorites")));
              if !ok {
                CreateDefaultConfig();
                return;
              }
            }
          }
          if Contains(j, "server") {
            var r := ReadFields(config, Member(j, "server"), ServerFields);
            config := r.0;
            if !r.1 {
              CreateDefaultConfig();
              return;
            }
          }
      }
    }

    /** LoadLanguage: clear the table, then enter the file's items in order
        until one does not hold a string. */
    method LoadLanguage(code: string, files: map<string, LangFile>)
      modifies this`strings
      ensures strings == LanguageTable(LangFileAt(files, LangPath(code)))
    {
      strings := map[];
      var file := LangFileAt(files, LangPath(code));
      if file.Parsed? {
        var items := Items(file.j);
        var i := 0;
        while i < |items|
          invariant 0 <= i <= |items|
          invariant Fill(strings, items[i..]) == Fill(map[], items)
        {
          assert items[i..][0] == items[i] && items[i..][1..] == items[i + 1..];
          if !items[i].1.JString? {
            return;
          }
          strings := strings[items[i].0 := items[i].1.s];
          i := i + 1;
        }
        assert items[i..] == [];
      }
    }

    function GetCurrentLangName(): (r: string)
      reads this
      ensures "lang_name" in strings ==> r == strings["lang_name"]
      ensures "lang_name" !in strings ==> r == config.client.language
    {
      if "lang_name" in strings then strings["lang_name"] else config.client.language
    }

    /** CycleLanguage: en goes to ru and anything else to en, and the new
        language's table is loaded; its Save is not modelled. */
    method CycleLanguage(files: map<string, LangFile>)
      modifies this`config, this`strings
      ensures config == old(config).(client := old(config).client.(language := NextLanguage(old(config).client.language)))
      ensures strings == LanguageTable(LangFileAt(files, LangPath(config.client.language)))
    {
      if config.client.language == "en" {
        config := config.(client := config.client.(language := "ru"));
      } else {
        config := config.(client := config.client.(language := "en"));
      }
      LoadLanguage(config.client.language, files);
    }
  }

  lemma LoadFavoritesStop(elems: seq<Json>, i: nat)
    requires i < |elems| && ReadFavorites(elems[..i]).1 && Saved(elems[i]).None?
    ensures ReadFavorites(elems) == (ReadFavorites(elems[..i]).0, false)
  {
    var es := elems[..i + 1];
    assert es[..|es| - 1] == elems[..i] && es[|es| - 1] == elems[i];
    ReadFavoritesPrefixFails(elems, i + 1);
  }

  /** Once a prefix throws, so does every longer one, with the same entries. */
  lemma {:induction false} ReadFavoritesPrefixFails(elems: seq<Json>, n: nat)
    requires 0 < n <= |elems| && !ReadFavorites(elems[..n]).1
    ensures ReadFavorites(elems) == ReadFavorites(elems[..n])
    decreases |elems| - n
  {
    if n == |elems| {
      assert elems[..n] == elems;
    } else {
      var es := elems[..n + 1];
      assert es[..|es| - 1] == elems[..n];
      ReadFavoritesPrefixFails(elems, n + 1);
    }
  }
}
