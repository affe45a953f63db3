/**
 * The build, selection, inventory and leaderboard rules of the client's
 * gameplay scene (GameplayScene.cpp). Rendering, camera, prediction and the
 * particle effects are not modelled; raygui's buttons and raylib's input
 * state are inputs, and a packet body bitsery decodes comes as Some(record)
 * or None when decoding fails.
 */
module Gameplay {

  import opened IntTypes
  import opened Wrappers

  /** The entity types the scene tells apart. */
  datatype EntityType = Player | Turret | OtherEntity

  /** The fields of an entity state the rules read. */
  datatype Entity = Entity(id: uint32, kind: EntityType, ownerId: uint32, kills: int, name: string)

  /** A decoded PlayerStatsPacket. */
  datatype Stats = Stats(
    level: int, currentXp: real, maxXp: real, maxHealth: real, damage: real, speed: real,
    scrap: int, kills: int, inventory: seq<uint8>, isAdmin: bool)

  /** A game packet after its type byte, decoded as the type says. */
  datatype Body =
    | InitBody(playerId: Option<uint32>)
    | StatsBody(stats: Option<Stats>)
    | SnapshotBody(wave: Option<int>)
    | OtherBody

  /** A received message: the stream's size, its read position, and the body. */
  datatype Message = Message(size: nat, offset: nat, body: Body)

  /** An ActionPacket's type: a build type, or UPGRADE_BUILDING. */
  datatype Action = Build(buildType: int) | UpgradeBuilding

  /** An inventory slot holding this value is empty. */
  const EmptySlot: uint8 := 255
  const InventorySize: nat := 6
  const TurretLimit: nat := 5
  /** ActionType::BUILD_WALL, BUILD_TURRET and BUILD_MINE: button i builds type i + 1. */
  const BuildWall: int := 1
  const BuildTurret: int := 2
  const BuildMine: int := 3

  // ---------------------------------------------------------------------------
  // Build buttons

  /** The costs array: wall 10, turret 50, mine 25. */
  function Cost(i: nat): int
    requires i < 3
  {
    [10, 50, 25][i]
  }

  predicate IsMyTurret(e: Entity, me: uint32)
  {
    e.kind == Turret && e.ownerId == me
  }

  /** The number of the player's turrets among es. */
  function TurretCount(es: seq<Entity>, me: uint32): nat
  {
    if es == [] then 0
    else TurretCount(es[..|es| - 1], me) + (if IsMyTurret(es[|es| - 1], me) then 1 else 0)
  }

  /** The count is bounded by the entities seen and adds up over a split. */
  lemma {:induction false} TurretCountSpec(es: seq<Entity>, more: seq<Entity>, me: uint32)
    ensures TurretCount(es, me) <= |es|
    ensures TurretCount(es + more, me) == TurretCount(es, me) + TurretCount(more, me)
    decreases |es| + |more|
  {
    if es != [] {
      TurretCountSpec(es[..|es| - 1], [], me);
    }
    if more != [] {
      var init := more[..|more| - 1];
      assert (es + more)[..|es + more| - 1] == es + init;
      TurretCountSpec(es, init, me);
    } else {
      assert es + more == es;
    }
  }

  /** Another player's turret and a non-turret never count. */
  lemma TurretCountOthers(es: seq<Entity>, e: Entity, me: uint32)
    requires !IsMyTurret(e, me)
    ensures TurretCount(es + [e], me) == TurretCount(es, me)
  {
    assert (es + [e])[..|es|] == es;
  }

  /** Button i is enabled when the player can afford it and, for the turret,
      owns fewer than five turrets. */
  predicate Enabled(i: nat, scrap: int, turrets: nat)
    requires i < 3
  {
    scrap >= Cost(i) && !(i + 1 == BuildTurret && turrets >= TurretLimit)
  }

  lemma EnabledSpec(scrap: int, turrets: nat)
    ensures Enabled(0, scrap, turrets) <==> scrap >= 10
    ensures Enabled(1, scrap, turrets) <==> scrap >= 50 && turrets < 5
    ensures Enabled(2, scrap, turrets) <==> scrap >= 25
  {
  }

  /** Clicking an enabled button selects its type, or clears the selection
      when that type was selected. */
  function Press(selected: int, buildType: int): int
  {
    if selected == buildType then 0 else buildType
  }

  /** The selection after the first n buttons are drawn. */
  function AfterButtons(selected: int, scrap: int, turrets: nat, clicked: seq<bool>, n: nat): int
    requires n <= 3 && |clicked| == 3
  {
    if n == 0 then selected
    else
      var s := AfterButtons(selected, scrap, turrets, clicked, n - 1);
      if clicked[n - 1] && Enabled(n - 1, scrap, turrets) then Press(s, n) else s
  }

  /** One click: an enabled button toggles its type, a disabled one does nothing. */
  lemma {:induction false} OneClick(selected: int, scrap: int, turrets: nat, clicked: seq<bool>, i: nat)
    requires i < 3 && |clicked| == 3 && forall j :: 0 <= j < 3 && j != i ==> !clicked[j]
    ensures clicked[i] && Enabled(i, scrap, turrets) ==> AfterButtons(selected, scrap, turrets, clicked, 3) == Press(selected, i + 1)
    ensures !(clicked[i] && Enabled(i, scrap, turrets)) ==> AfterButtons(selected, scrap, turrets, clicked, 3) == selected
  {
    assert AfterButtons(selected, scrap, turrets, clicked, 0) == selected;
    var s1 := AfterButtons(selected, scrap, turrets, clicked, 1);
    var s2 := AfterButtons(selected, scrap, turrets, clicked, 2);
    assert s1 == if i == 0 && clicked[0] && Enabled(0, scrap, turrets) then Press(selected, 1) else selected;
    assert s2 == if i == 1 && clicked[1] && Enabled(1, scrap, turrets) then Press(selected, 2) else s1;
  }

  /** A selection stays a build type or none. */
  lemma {:induction false} AfterButtonsRange(selected: int, scrap: int, turrets: nat, clicked: seq<bool>, n: nat)
    requires n <= 3 && |clicked| == 3 && 0 <= selected <= 3
    ensures 0 <= AfterButtons(selected, scrap, turrets, clicked, n) <= 3
  {
    if n > 0 {
      AfterButtonsRange(selected, scrap, turrets, clicked, n - 1);
    }
  }

  /** With five turrets the turret button cannot select anything. */
  lemma TurretCap(selected: int, scrap: int, turrets: nat)
    requires turrets >= TurretLimit
    ensures AfterButtons(selected, scrap, turrets, [false, true, false], 3) == selected
  {
    OneClick(selected, scrap, turrets, [false, true, false], 1);
  }

  // ---------------------------------------------------------------------------
  // The leaderboard

  /** The player entities of es, in order. */
  function Players(es: seq<Entity>): (ps: seq<Entity>)
  {
    if es == [] then []
    else Players(es[..|es| - 1]) + (if es[|es| - 1].kind == Player then [es[|es| - 1]] else [])
  }

  /** Exactly the player entities, each as often as in es. */
  lemma {:induction false} PlayersSpec(es: seq<Entity>)
    ensures forall e :: e in Players(es) ==> e.kind == Player
    ensures forall e: Entity :: e.kind == Player ==> multiset(Players(es))[e] == multiset(es)[e]
  {
    if es != [] {
      var init, last := es[..|es| - 1], es[|es| - 1];
      PlayersSpec(init);
      assert es == init + [last];
      assert multiset(es) == multiset(init) + multiset{last};
    }
  }

  ghost predicate ByKills(xs: seq<Entity>)
  {
    forall i, j :: 0 <= i < j < |xs| ==> xs[i].kills >= xs[j].kills
  }

  /** x placed after the entries with at least as many kills. */
  function InsertByKills(x: Entity, ys: seq<Entity>): (r: seq<Entity>)
    ensures multiset(r) == multiset(ys) + multiset{x} && |r| == |ys| + 1
  {
    if ys == [] then [x]
    else if ys[0].kills >= x.kills then
      assert ys == [ys[0]] + ys[1..];
      [ys[0]] + InsertByKills(x, ys[1..])
    else [x] + ys
  }

  lemma {:induction false} InsertByKillsSorted(x: Entity, ys: seq<Entity>)
    requires ByKills(ys)
    ensures ByKills(InsertByKills(x, ys))
  {
    if ys != [] && ys[0].kills >= x.kills {
      var rest := ys[1..];
      InsertByKillsSorted(x, rest);
      InsertByKillsBelow(x, ys);
    }
  }

  /** The entries after the head of a sorted list, with x inserted among
      them, have no more kills than the head. */
  lemma InsertByKillsBelow(x: Entity, ys: seq<Entity>)
    requires ByKills(ys) && ys != [] && ys[0].kills >= x.kills
    ensures forall e :: e in InsertByKills(x, ys[1..]) ==> e.kills <= ys[0].kills
  {
    var rest := ys[1..];
    forall e | e in InsertByKills(x, rest) ensures e.kills <= ys[0].kills {
      assert e in multiset(InsertByKills(x, rest));
      if e != x {
        assert e in multiset(rest);
        var k :| 0 <= k < |rest| && rest[k] == e;
        assert ys[k + 1] == e;
      }
    }
  }

  // ---------------------------------------------------------------------------
  // The scene

  class GameplayScene {
    var myPlayerId: uint32
    var selectedBuildType: int
    var myInventory: seq<uint8>
    var myLevel: int
    var myCurrentXp: real
    var myMaxXp: real
    var myMaxHealth: real
    var myDamage: real
    var mySpeed: real
    var myScrap: int
    var myKills: int
    var isAdmin: bool
    var currentWave: int
    var showAdminPanel: bool
    var showLeaderboard: bool

    /** Six inventory slots, and a selection that is a build type or none. */
    predicate Valid()
      reads this
    {
      |myInventory| == InventorySize && 0 <= selectedBuildType <= 3
    }

    constructor ()
      ensures Valid() && myInventory == [EmptySlot, EmptySlot, EmptySlot, EmptySlot, EmptySlot, EmptySlot]
      ensures myPlayerId == 0 && selectedBuildType == 0
    {
      myPlayerId := 0;
      selectedBuildType := 0;
      myInventory := seq(6, _ => EmptySlot);
      myLevel, myCurrentXp, myMaxXp, myMaxHealth := 1, 0.0, 100.0, 100.0;
      myDamage, mySpeed := 0.0, 0.0;
      myScrap, myKills, isAdmin, currentWave := 0, 0, false, 1;
      showAdminPanel, showLeaderboard := false, false;
    }

    /** Enter: a new game starts with no player id, no scrap, wave 1, no
        selection and every inventory slot empty. */
    method Enter()
      requires Valid()
      modifies this`myPlayerId, this`myLevel, this`myCurrentXp, this`myMaxXp, this`myMaxHealth,
               this`myScrap, this`currentWave, this`selectedBuildType, this`myInventory
      ensures Valid()
      ensures myPlayerId == 0 && myScrap == 0 && currentWave == 1 && selectedBuildType == 0 && myLevel == 1
      ensures myCurrentXp == 0.0 && myMaxXp == 100.0 && myMaxHealth == 100.0
      ensures forall i :: 0 <= i < |myInventory| ==> myInventory[i] == EmptySlot
    {
      myPlayerId := 0;
      myLevel, myCurrentXp, myMaxXp := 1, 0.0, 100.0;
      myMaxHealth, myScrap := 100.0, 0;
      currentWave, selectedBuildType := 1, 0;
      myInventory := seq(|myInventory|, _ => EmptySlot);
    }

    /** OnMessage for the packets whose effect the model keeps. */
    method OnMessage(msg: Message)
      requires Valid()
      modifies this`myPlayerId, this`myLevel, this`myCurrentXp, this`myMaxXp, this`myMaxHealth,
               this`myDamage, this`mySpeed, this`myScrap, this`myKills, this`myInventory, this`isAdmin,
               this`currentWave
      ensures Valid()
      ensures msg.size == 0 || msg.offset >= msg.size ==> unchanged(this)
      ensures myPlayerId == (if msg.offset < msg.size && msg.body.InitBody? && msg.body.playerId.Some?
                             then msg.body.playerId.value else old(myPlayerId))
      ensures currentWave == (if msg.offset < msg.size && msg.body.SnapshotBody? && msg.body.wave.Some?
                              then msg.body.wave.value else old(currentWave))
      ensures myInventory == (if msg.offset < msg.size && msg.body.StatsBody? && msg.body.stats.Some?
                                 && |msg.body.stats.value.inventory| == InventorySize
                              then msg.body.stats.value.inventory else old(myInventory))
      ensures msg.offset < msg.size && msg.body.StatsBody? && msg.body.stats.Some? ==>
                var st := msg.body.stats.value;
                myLevel == st.level && myScrap == st.scrap && myKills == st.kills && isAdmin == st.isAdmin
                && myCurrentXp == st.currentXp && myMaxXp == st.maxXp && myMaxHealth == st.maxHealth
                && myDamage == st.damage && mySpeed == st.speed
      ensures !(msg.offset < msg.size && msg.body.StatsBody? && msg.body.stats.Some?) ==>
                myLevel == old(myLevel) && myScrap == old(myScrap) && myKills == old(myKills) && isAdmin == old(isAdmin)
                && myCurrentXp == old(myCurrentXp) && myMaxXp == old(myMaxXp) && myMaxHealth == old(myMaxHealth)
                && myDamage == old(myDamage) && mySpeed == old(mySpeed)
    {
      if msg.size == 0 || msg.offset >= msg.size {
        return;
      }
      match msg.body {
        case InitBody(id) =>
          if id.Some? {
            myPlayerId := id.value;
          }
        case SnapshotBody(wave) =>
          if wave.Some? {
            currentWave := wave.value;
          }
        case StatsBody(stats) =>
          if stats.Some? {
            var st := stats.value;
            myLevel, myCurrentXp, myMaxXp := st.level, st.currentXp, st.maxXp;
            myMaxHealth, myDamage, mySpeed := st.maxHealth, st.damage, st.speed;
            myScrap, myKills := st.scrap, st.kills;
            if |st.inventory| == InventorySize {
              myInventory := st.inventory;
            }
            isAdmin := st.isAdmin;
          }
        case OtherBody =>
      }
    }

    /** The build buttons of DrawGUI: clicked[i] is what raygui's button i
        would report; a disabled button is drawn but not acted on. */
    method BuildButtons(latest: Option<seq<Entity>>, clicked: seq<bool>)
      requires Valid() && |clicked| == 3
      modifies this`selectedBuildType
      ensures Valid()
      ensures selectedBuildType
           == AfterButtons(old(selectedBuildType), myScrap, if latest.Some? then TurretCount(latest.value, myPlayerId) else 0, clicked, 3)
    {
      var myTurretCount := 0;
      if latest.Some? {
        myTurretCount := CountTurrets(latest.value, myPlayerId);
      }
      ghost var sel0 := selectedBuildType;
      var i := 0;
      while i < 3
        invariant 0 <= i <= 3
        invariant selectedBuildType == AfterButtons(sel0, myScrap, myTurretCount, clicked, i)
        invariant 0 <= selectedBuildType <= 3
      {
        var buildType := i + 1;
        var canAfford := myScrap >= Cost(i);
        var limitReached := buildType == BuildTurret && myTurretCount >= TurretLimit;
        if canAfford && !limitReached {
          if clicked[i] {
            selectedBuildType := if selectedBuildType == buildType then 0 else buildType;
          }
        }
        AfterButtonsRange(sel0, myScrap, myTurretCount, clicked, i + 1);
        i := i + 1;
      }
    }

    /** The mouse and key handling of Update (desktop branch). It returns the
        action sent, if any, and whether the input packet shoots. */
    method HandleInput(leftPressed: bool, leftDown: bool, rightPressed: bool, shiftDown: bool,
                       f1Pressed: bool, tabPressed: bool, connected: bool,
                       mouseX: int, mouseY: int, screenHeight: int)
      returns (sent: Option<Action>, shooting: bool)
      requires Valid()
      modifies this`selectedBuildType, this`showAdminPanel, this`showLeaderboard
      ensures Valid()
      ensures (sent, shooting, selectedBuildType)
           == InputStep(old(selectedBuildType), leftPressed, leftDown, rightPressed, shiftDown, connected, mouseX, mouseY, screenHeight)
      ensures showAdminPanel == (if f1Pressed && isAdmin then !old(showAdminPanel) else old(showAdminPanel))
      ensures showLeaderboard == (if tabPressed then !old(showLeaderboard) else old(showLeaderboard))
    {
      sent, shooting := None, false;
      if leftPressed {
        if selectedBuildType != 0 {
          sent := SendAction(Build(selectedBuildType), connected);
          if !shiftDown {
            selectedBuildType := 0;
          }
        } else {
          sent := SendAction(UpgradeBuilding, connected);
        }
      }
      if f1Pressed && isAdmin {
        showAdminPanel := !showAdminPanel;
      }
      if tabPressed {
        showLeaderboard := !showLeaderboard;
      }
      if leftDown && selectedBuildType == 0 {
        if mouseX > 300 || mouseY < screenHeight - 200 {
          shooting := true;
        }
      }
      if rightPressed {
        selectedBuildType := 0;
      }
    }

    /** The turret counting loop of DrawGUI. */
    static method CountTurrets(es: seq<Entity>, me: uint32) returns (count: nat)
      ensures count == TurretCount(es, me)
    {
      count := 0;
      for i := 0 to |es|
        invariant count == TurretCount(es[..i], me)
      {
        assert es[..i + 1][..i] == es[..i];
        if es[i].kind == Turret && es[i].ownerId == me {
          count := count + 1;
        }
      }
      assert es[..|es|] == es;
    }

    /** The list DrawLeaderboard shows: the players, most kills first. */
    static method Leaderboard(entities: seq<Entity>) returns (players: seq<Entity>)
      ensures multiset(players) == multiset(Players(entities)) && ByKills(players)
    {
      var found: seq<Entity> := [];
      for i := 0 to |entities|
        invariant found == Players(entities[..i])
      {
        assert entities[..i + 1][..i] == entities[..i];
        if entities[i].kind == Player {
          found := found + [entities[i]];
        }
      }
      assert entities[..|entities|] == entities;
      players := [];
      for i := 0 to |found|
        invariant multiset(players) == multiset(found[..i]) && ByKills(players)
      {
        InsertByKillsSorted(found[i], players);
        assert found[..i + 1] == found[..i] + [found[i]];
        players := InsertByKills(found[i], players);
      }
      assert found[..|found|] == found;
    }
  }

  /** SendAction: the packet goes out only over a connected client. */
  method SendAction(act: Action, connected: bool) returns (sent: Option<Action>)
    ensures sent == if connected then Some(act) else None
  {
    sent := if connected then Some(act) else None;
  }

  /** The effect of one frame's mouse input on the selection, the action sent
      and the shooting flag. The shooting check sees the selection already
      cleared by a left click in the same frame. */
  function InputStep(selected: int, leftPressed: bool, leftDown: bool, rightPressed: bool, shiftDown: bool,
                     connected: bool, mouseX: int, mouseY: int, screenHeight: int): (Option<Action>, bool, int)
  {
    var action := if selected != 0 then Build(selected) else UpgradeBuilding;
    var sent := if leftPressed && connected then Some(action) else None;
    var sel1 := if leftPressed && selected != 0 && !shiftDown then 0 else selected;
    var shooting := leftDown && sel1 == 0 && (mouseX > 300 || mouseY < screenHeight - 200);
    (sent, shooting, if rightPressed then 0 else sel1)
  }

  /** A left click with a selection builds it and clears it unless shift is
      held; without one it asks for an upgrade; a right click clears. */
  lemma InputStepSpec(selected: int, leftDown: bool, rightPressed: bool, shiftDown: bool, x: int, y: int, h: int)
    ensures selected != 0 ==> InputStep(selected, true, leftDown, rightPressed, shiftDown, true, x, y, h).0 == Some(Build(selected))
    ensures selected == 0 ==> InputStep(selected, true, leftDown, rightPressed, shiftDown, true, x, y, h).0 == Some(UpgradeBuilding)
    ensures InputStep(selected, true, leftDown, rightPressed, shiftDown, false, x, y, h).0 == None
    ensures InputStep(selected, false, leftDown, rightPressed, shiftDown, true, x, y, h).0 == None
    ensures InputStep(selected, true, leftDown, false, shiftDown, true, x, y, h).2 == (if shiftDown then selected else 0)
    ensures InputStep(selected, true, leftDown, true, shiftDown, true, x, y, h).2 == 0
    ensures InputStep(selected, false, leftDown, false, shiftDown, true, x, y, h).2 == selected
  {
  }

  /** Placing a building without shift also shoots in that frame when the
      button is still down away from the build panel. */
  lemma PlaceAlsoShoots(selected: int, y: int, h: int)
    requires selected != 0
    ensures InputStep(selected, true, true, false, false, true, 301, y, h) == (Some(Build(selected)), true, 0)
    ensures !InputStep(selected, true, true, false, true, true, 301, y, h).1
  {
  }

  /** The leaderboard holds each player entity as often as the snapshot does,
      nothing else, most kills first. */
  lemma LeaderboardSpec(entities: seq<Entity>, board: seq<Entity>)
    requires multiset(board) == multiset(Players(entities)) && ByKills(board)
    ensures forall e :: e in board ==> e.kind == Player && e in entities
    ensures forall e: Entity :: e.kind == Player ==> multiset(board)[e] == multiset(entities)[e]
    ensures |board| == |Players(entities)|
  {
    PlayersSpec(entities);
    forall e | e in board ensures e.kind == Player && e in entities {
      assert e in multiset(board);
      assert e in Players(entities);
      assert multiset(entities)[e] == multiset(Players(entities))[e];
    }
    assert |multiset(board)| == |multiset(Players(entities))|;
  }
}
