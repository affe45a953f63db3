/**
 * The client's snapshot history (SnapshotManager.h): world snapshots from the
 * server kept in strictly increasing server time, pruned to a one-second
 * window that never drops below two entries, and the lookup that picks the
 * snapshot or pair of snapshots around a render time. Server times are reals;
 * positions and rotations (float lerping) are not modelled: a bracketed
 * result names the two states the client interpolates between.
 */
module Snapshots {

  import opened Wrappers

  /** The entity kinds a snapshot carries. */
  datatype EntityType = Player | Bullet | Enemy | Wall | Turret | Mine | Artifact

  /** The parts of an entity's replicated state the modelled logic looks at. */
  datatype EntityState = EntityState(id: nat, kind: EntityType, ownerId: nat, kills: int, name: string)

  datatype Snapshot = Snapshot(serverTime: real, wave: int, entities: seq<EntityState>)

  /** What GetInterpolatedState hands back for one entity. */
  datatype Lookup =
    | NotFound
      /** outState is exactly this state */
    | Found(state: EntityState)
      /** outState is `to` with the position (and, unless lerpRotation is false,
          the rotation) interpolated from `from` */
    | Blend(from: EntityState, to: EntityState, lerpRotation: bool)

  const Window: real := 1.0

  ghost predicate Increasing(h: seq<Snapshot>)
  {
    forall i, j :: 0 <= i < j < |h| ==> h[i].serverTime < h[j].serverTime
  }

  function Last(h: seq<Snapshot>): Snapshot
    requires h != []
  {
    h[|h| - 1]
  }

  // ---------------------------------------------------------------------------
  // PushSnapshot

  /** The pop_front loop: drop the front while more than two entries remain and
      the front is more than one second older than the back. */
  function Prune(h: seq<Snapshot>): (r: seq<Snapshot>)
    decreases |h|
  {
    if |h| > 2 && h[0].serverTime < Last(h).serverTime - Window then Prune(h[1..]) else h
  }

  /** The history after PushSnapshot(snap). */
  function Pushed(h: seq<Snapshot>, snap: Snapshot): (r: seq<Snapshot>)
  {
    if h != [] && snap.serverTime <= Last(h).serverTime then h else Prune(h + [snap])
  }

  /** Pruning drops a prefix of entries, each more than a second older than the
      back; it never goes below two entries, keeps the back, and stops inside the
      window. */
  lemma {:induction false} PruneDropsOldPrefix(h: seq<Snapshot>)
    ensures |Prune(h)| <= |h|
    ensures Prune(h) == h[|h| - |Prune(h)|..]
    ensures |h| >= 2 ==> |Prune(h)| >= 2
    ensures |h| < 2 ==> Prune(h) == h
    ensures h != [] ==> Prune(h) != [] && Last(Prune(h)) == Last(h)
    ensures forall i :: 0 <= i < |h| - |Prune(h)| ==> h[i].serverTime < Last(h).serverTime - Window
    ensures |Prune(h)| <= 2 || Prune(h)[0].serverTime >= Last(h).serverTime - Window
    decreases |h|
  {
    if |h| > 2 && h[0].serverTime < Last(h).serverTime - Window {
      var t := h[1..];
      assert Last(t) == Last(h);
      PruneDropsOldPrefix(t);
      var d := |t| - |Prune(t)|;
      assert h[|h| - |Prune(h)|..] == t[d..];
      forall i | 0 <= i < |h| - |Prune(h)|
        ensures h[i].serverTime < Last(h).serverTime - Window
      {
        if i > 0 {
          assert h[i] == t[i - 1];
        }
      }
    }
  }

  /** An older or equal snapshot is ignored; a newer one becomes the back, and
      the new history is a suffix of the old one plus it, of at least two
      entries when the old one was not empty. */
  lemma PushedEffect(h: seq<Snapshot>, snap: Snapshot)
    ensures h != [] && snap.serverTime <= Last(h).serverTime ==> Pushed(h, snap) == h
    ensures (h == [] || snap.serverTime > Last(h).serverTime) ==>
              var r := Pushed(h, snap);
              |r| <= |h| + 1 && r == (h + [snap])[|h| + 1 - |r|..]
              && r != [] && Last(r) == snap && (|h| >= 1 ==> |r| >= 2)
  {
    if h == [] || snap.serverTime > Last(h).serverTime {
      var g := h + [snap];
      assert Pushed(h, snap) == Prune(g);
      PruneDropsOldPrefix(g);
      assert Last(g) == snap;
    }
  }

  /** A suffix of an increasing history is increasing. */
  lemma IncreasingSuffix(h: seq<Snapshot>, k: nat)
    requires Increasing(h) && k <= |h|
    ensures Increasing(h[k..])
  {
    forall i, j | 0 <= i < j < |h[k..]|
      ensures h[k..][i].serverTime < h[k..][j].serverTime
    {
      assert h[k..][i] == h[k + i] && h[k..][j] == h[k + j];
    }
  }

  /** Appending a snapshot newer than the back keeps a history increasing. */
  lemma IncreasingSnoc(h: seq<Snapshot>, snap: Snapshot)
    requires Increasing(h) && (h == [] || snap.serverTime > Last(h).serverTime)
    ensures Increasing(h + [snap])
  {
    var g := h + [snap];
    forall i, j | 0 <= i < j < |g| ensures g[i].serverTime < g[j].serverTime {
      if j < |h| {
        assert g[i] == h[i] && g[j] == h[j];
      } else {
        assert g[i] == h[i] && g[j] == snap;
        assert h[i].serverTime <= Last(h).serverTime;
      }
    }
  }

  /** Pushing keeps the history strictly increasing in server time. */
  lemma PushedIncreasing(h: seq<Snapshot>, snap: Snapshot)
    requires Increasing(h)
    ensures Increasing(Pushed(h, snap))
  {
    if h == [] || snap.serverTime > Last(h).serverTime {
      var g := h + [snap];
      IncreasingSnoc(h, snap);
      assert Pushed(h, snap) == Prune(g);
      PruneIncreasing(g);
    }
  }

  /** Pruning an increasing history leaves it increasing. */
  lemma {:induction false} PruneIncreasing(h: seq<Snapshot>)
    requires Increasing(h)
    ensures Increasing(Prune(h))
    decreases |h|
  {
    if |h| > 2 && h[0].serverTime < Last(h).serverTime - Window {
      IncreasingSuffix(h, 1);
      PruneIncreasing(h[1..]);
    }
  }

  /** After any push the history spans at most the window, unless it holds at
      most two entries. */
  lemma PushedWindow(h: seq<Snapshot>, snap: Snapshot)
    ensures var r := Pushed(h, snap);
      (h == [] || snap.serverTime > Last(h).serverTime) ==>
        |r| <= 2 || r[0].serverTime >= Last(r).serverTime - Window
  {
    if h == [] || snap.serverTime > Last(h).serverTime {
      PruneDropsOldPrefix(h + [snap]);
    }
  }

  class SnapshotManager {
    var history: seq<Snapshot>

    /** The history is kept strictly increasing in server time, which is what
        the lower-bound search in GetInterpolatedState relies on. */
    ghost predicate Valid()
      reads this
    {
      Increasing(history)
    }

    constructor ()
      ensures Valid() && history == []
    {
      history := [];
    }

    method PushSnapshot(snap: Snapshot)
      requires Valid()
      modifies this
      ensures Valid() && history == Pushed(old(history), snap)
    {
      PushedIncreasing(history, snap);
      if history != [] && snap.serverTime <= Last(history).serverTime {
        return;
      }
      history := history + [snap];
      while |history| > 2 && history[0].serverTime < Last(history).serverTime - Window
        invariant Prune(history) == Prune(old(history) + [snap])
        decreases |history|
      {
        history := history[1..];
      }
    }

    method GetInterpolatedState(entityId: nat, clientRenderTime: real) returns (r: Lookup)
      requires Valid()
      ensures r == Interpolated(history, entityId, clientRenderTime)
    {
      if history == [] {
        return NotFound;
      }
      var it := LowerBound(history, clientRenderTime);
      if it == 0 {
        var e := FindEntityInSnapshot(history[0], entityId);
        return FromOption(e);
      }
      if it == |history| {
        var e := FindEntityInSnapshot(history[|history| - 1], entityId);
        return FromOption(e);
      }
      var entA := FindEntityInSnapshot(history[it - 1], entityId);
      var entB := FindEntityInSnapshot(history[it], entityId);
      if entA.Some? && entB.Some? {
        return Blend(entA.value, entB.value, entB.value.kind != Bullet);
      }
      if entB.Some? {
        return Found(entB.value);
      }
      return NotFound;
    }
  }

  // ---------------------------------------------------------------------------
  // Lookups

  /** The first entity of the snapshot with the id. */
  function FindEntity(snap: Snapshot, id: nat): (r: Option<EntityState>)
    ensures r.Some? ==> r.value in snap.entities && r.value.id == id
    ensures r.None? <==> forall e :: e in snap.entities ==> e.id != id
    decreases |snap.entities|
  {
    if snap.entities == [] then None
    else if snap.entities[0].id == id then Some(snap.entities[0])
    else FindEntity(snap.(entities := snap.entities[1..]), id)
  }

  /** The found entity is the first with the id: none before it matches. */
  lemma {:induction false} FindEntityFirst(snap: Snapshot, id: nat)
    requires FindEntity(snap, id).Some?
    ensures exists k :: 0 <= k < |snap.entities| && snap.entities[k] == FindEntity(snap, id).value
              && forall j :: 0 <= j < k ==> snap.entities[j].id != id
    decreases |snap.entities|
  {
    if snap.entities[0].id != id {
      var rest := snap.(entities := snap.entities[1..]);
      FindEntityFirst(rest, id);
      var k :| 0 <= k < |rest.entities| && rest.entities[k] == FindEntity(rest, id).value
               && forall j :: 0 <= j < k ==> rest.entities[j].id != id;
      assert snap.entities[k + 1] == rest.entities[k];
      forall j | 0 <= j < k + 1 ensures snap.entities[j].id != id {
        if j > 0 { assert snap.entities[j] == rest.entities[j - 1]; }
      }
    }
  }

  /** FindEntityInSnapshot: scan the entities in order, stop at the first match. */
  method FindEntityInSnapshot(snap: Snapshot, id: nat) returns (r: Option<EntityState>)
    ensures r == FindEntity(snap, id)
  {
    var i := 0;
    while i < |snap.entities|
      invariant 0 <= i <= |snap.entities|
      invariant FindEntity(snap, id) == FindEntity(snap.(entities := snap.entities[i..]), id)
    {
      if snap.entities[i].id == id {
        return Some(snap.entities[i]);
      }
      assert snap.entities[i..][1..] == snap.entities[i + 1..];
      i := i + 1;
    }
    return None;
  }

  function FromOption(o: Option<EntityState>): (r: Lookup)
    ensures r.NotFound? <==> o.None?
    ensures o.Some? ==> r == Found(o.value)
  {
    if o.Some? then Found(o.value) else NotFound
  }

  /** std::lower_bound over serverTime: the first index whose time is not below t. */
  function LowerBound(h: seq<Snapshot>, t: real): (k: nat)
    ensures k <= |h|
    ensures forall i :: 0 <= i < k ==> h[i].serverTime < t
    ensures k < |h| ==> h[k].serverTime >= t
  {
    if h == [] || h[0].serverTime >= t then 0 else LowerBound(h[1..], t) + 1
  }

  /** On an increasing history the lower bound splits it: everything from it on
      is at or after t. */
  lemma LowerBoundPartition(h: seq<Snapshot>, t: real)
    requires Increasing(h)
    ensures forall i :: LowerBound(h, t) <= i < |h| ==> h[i].serverTime >= t
  {
    var k := LowerBound(h, t);
    forall i | k <= i < |h| ensures h[i].serverTime >= t {
      if i > k { assert h[k].serverTime < h[i].serverTime; }
    }
  }

  /** GetInterpolatedState as a function of the history. */
  function Interpolated(h: seq<Snapshot>, id: nat, t: real): (r: Lookup)
  {
    if h == [] then NotFound
    else
      var k := LowerBound(h, t);
      if k == 0 then FromOption(FindEntity(h[0], id))
      else if k == |h| then FromOption(FindEntity(Last(h), id))
      else
        var a, b := FindEntity(h[k - 1], id), FindEntity(h[k], id);
        if a.Some? && b.Some? then Blend(a.value, b.value, b.value.kind != Bullet)
        else if b.Some? then Found(b.value)
        else NotFound
  }

  /** An empty history gives nothing. */
  lemma InterpolatedEmpty(id: nat, t: real)
    ensures Interpolated([], id, t) == NotFound
  {
  }

  /** A render time at or before the first snapshot resolves against the front. */
  lemma InterpolatedBeforeFront(h: seq<Snapshot>, id: nat, t: real)
    requires h != [] && t <= h[0].serverTime
    ensures Interpolated(h, id, t) == FromOption(FindEntity(h[0], id))
  {
  }

  /** A render time after the last snapshot resolves against the back. */
  lemma InterpolatedAfterBack(h: seq<Snapshot>, id: nat, t: real)
    requires Increasing(h) && h != [] && t > Last(h).serverTime && t > h[0].serverTime
    ensures Interpolated(h, id, t) == FromOption(FindEntity(Last(h), id))
  {
    var k := LowerBound(h, t);
    if k < |h| {
      assert false;
    }
  }

  /** In between, the two snapshots around t decide: both present blends A into
      B (B's state, rotation lerped unless a bullet), only B gives B's state, and
      without B there is nothing, even when A has the entity. */
  lemma InterpolatedBracket(h: seq<Snapshot>, id: nat, t: real, k: nat)
    requires Increasing(h) && 0 < k < |h|
    requires h[k - 1].serverTime < t <= h[k].serverTime
    ensures var a, b := FindEntity(h[k - 1], id), FindEntity(h[k], id);
      Interpolated(h, id, t) ==
        if b.None? then NotFound
        else if a.Some? then Blend(a.value, b.value, b.value.kind != Bullet)
        else Found(b.value)
  {
    LowerBoundPartition(h, t);
    var m := LowerBound(h, t);
    assert h[k - 1].serverTime < t;
    assert m > k - 1;
    assert m <= k;
  }

  /** Whatever was found, the state handed back (the target of a blend) is an
      entity with the requested id from one of the history's snapshots. */
  lemma InterpolatedSound(h: seq<Snapshot>, id: nat, t: real)
    ensures match Interpolated(h, id, t)
      case NotFound => true
      case Found(e) => e.id == id && exists i :: 0 <= i < |h| && e in h[i].entities
      case Blend(a, b, rot) =>
        a.id == id && b.id == id && rot == (b.kind != Bullet)
        && exists i :: 0 < i < |h| && a in h[i - 1].entities && b in h[i].entities
  {
    if h != [] {
      var k := LowerBound(h, t);
      if k == 0 {
        assert FindEntity(h[0], id).Some? ==> FindEntity(h[0], id).value in h[0].entities;
      } else if k == |h| {
        assert FindEntity(h[|h| - 1], id).Some? ==> FindEntity(h[|h| - 1], id).value in h[|h| - 1].entities;
      } else {
        assert FindEntity(h[k], id).Some? ==> FindEntity(h[k], id).value in h[k].entities;
      }
    }
  }
}
