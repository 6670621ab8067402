/** The interpolator for other players' avatars
    (apps/client/src/features/world/RemotePlayerManager.ts): a map from
    player id to a sprite position, a name-label position and the target
    the sprite glides towards. Textures and drawing are not modelled. */
module RemotePlayers {
  import JsMap

  /** Fraction of the remaining distance covered per frame. */
  const LerpFactor: real := 0.15

  /** How far above its sprite a name label sits. */
  const LabelOffset: real := 20.0

  /** One remote player: its sprite at (x, y), its name label at
      (labelX, labelY), and the last position the network reported. */
  datatype RemotePlayer = RemotePlayer(
    name: string,
    x: real, y: real,
    labelX: real, labelY: real,
    targetX: real, targetY: real)

  /** A freshly added player: sprite and target at the given position, the
      label above it. */
  function Spawned(name: string, x: real, y: real): (rp: RemotePlayer)
    ensures rp.x == rp.targetX == x && rp.y == rp.targetY == y
    ensures rp.labelX == x && rp.labelY == y - LabelOffset
    ensures rp.name == name
  {
    RemotePlayer(name, x, y, x, y - LabelOffset, x, y)
  }

  /** The map after `addPlayer`: a known id keeps its entry. */
  function Added(m: JsMap.Map<RemotePlayer>, id: string, name: string, x: real, y: real): JsMap.Map<RemotePlayer> {
    if id in m.entries then m else JsMap.Set(m, id, Spawned(name, x, y))
  }

  /** One frame of `update` for one player. */
  function Step(rp: RemotePlayer): (r: RemotePlayer)
    // the remaining distance shrinks to 85 % on each axis
    ensures r.targetX - r.x == 0.85 * (rp.targetX - rp.x)
    ensures r.targetY - r.y == 0.85 * (rp.targetY - rp.y)
    // the target and the name are kept
    ensures r.targetX == rp.targetX && r.targetY == rp.targetY && r.name == rp.name
    // the label follows the sprite
    ensures r.labelX == r.x && r.labelY == r.y - LabelOffset
  {
    var x := rp.x + (rp.targetX - rp.x) * LerpFactor;
    var y := rp.y + (rp.targetY - rp.y) * LerpFactor;
    rp.(x := x, y := y, labelX := x, labelY := y - LabelOffset)
  }

  /** A sprite already at its target does not move. */
  lemma AtTargetStays(rp: RemotePlayer)
    requires rp.x == rp.targetX && rp.y == rp.targetY
    ensures Step(rp).x == rp.x && Step(rp).y == rp.y
  {
  }

  /** A sprite between its position and target never overshoots: it lands
      strictly closer on every axis that was not already there. */
  lemma StepApproaches(rp: RemotePlayer)
    ensures Step(rp).x == rp.targetX <==> rp.x == rp.targetX
    ensures rp.x < rp.targetX ==> rp.x < Step(rp).x < rp.targetX
    ensures rp.x > rp.targetX ==> rp.targetX < Step(rp).x < rp.x
    ensures Step(rp).y == rp.targetY <==> rp.y == rp.targetY
    ensures rp.y < rp.targetY ==> rp.y < Step(rp).y < rp.targetY
    ensures rp.y > rp.targetY ==> rp.targetY < Step(rp).y < rp.y
  {
  }

  /** `update` on a detached copy of the entries: every id listed in `keys`
      takes one step, in list order. */
  method StepAll(entries0: map<string, RemotePlayer>, keys: seq<string>)
      returns (entries: map<string, RemotePlayer>)
    requires JsMap.Distinct(keys) && forall k :: k in keys <==> k in entries0
    ensures forall id :: id in entries <==> id in entries0
    ensures forall id :: id in entries0 ==> entries[id] == Step(entries0[id])
  {
    entries := entries0;
    var i := 0;
    while i < |keys|
      invariant 0 <= i <= |keys|
      invariant forall id :: id in entries <==> id in entries0
      invariant forall j :: 0 <= j < i ==> entries[keys[j]] == Step(entries0[keys[j]])
      invariant forall j :: i <= j < |keys| ==> entries[keys[j]] == entries0[keys[j]]
    {
      var id := keys[i];
      entries := entries[id := Step(entries[id])];
      i := i + 1;
    }
    forall id | id in entries0 ensures entries[id] == Step(entries0[id]) {
      var j :| 0 <= j < |keys| && keys[j] == id;
    }
  }

  class RemotePlayerManager {
    var players: JsMap.Map<RemotePlayer>

    ghost predicate Valid()
      reads this
    {
      JsMap.Valid(players)
    }

    constructor ()
      ensures Valid() && players.entries == map[] && players.keys == []
    {
      players := JsMap.Empty();
    }

    /** `addPlayer`: a known id is left alone; a new one is spawned at the
        given position with its target there too. */
    method AddPlayer(id: string, name: string, x: real, y: real)
      requires Valid()
      modifies this`players
      ensures Valid()
      ensures players == Added(old(players), id, name, x, y)
      ensures id in old(players.entries) ==> players == old(players)
      ensures id !in old(players.entries) ==>
        players == JsMap.Set(old(players), id, Spawned(name, x, y))
    {
      if id in players.entries {
        return;
      }
      players := JsMap.Set(players, id, Spawned(name, x, y));
    }

    /** `movePlayer`: only the target of a known player changes. */
    method MovePlayer(id: string, x: real, y: real)
      requires Valid()
      modifies this`players
      ensures Valid()
      ensures players.keys == old(players.keys)
      ensures id !in old(players.entries) ==> players == old(players)
      ensures id in old(players.entries) ==>
        players.entries == old(players.entries)[id := old(players.entries)[id].(targetX := x, targetY := y)]
    {
      if id !in players.entries {
        return;
      }
      var rp := players.entries[id];
      players := players.(entries := players.entries[id := rp.(targetX := x, targetY := y)]);
    }

    /** `removePlayer`: drop a known player; an unknown id changes nothing. */
    method RemovePlayer(id: string)
      requires Valid()
      modifies this`players
      ensures Valid()
      ensures id !in old(players.entries) ==> players == old(players)
      ensures id in old(players.entries) ==> players == JsMap.Delete(old(players), id)
      ensures players.entries == old(players.entries) - {id}
    {
      if id !in players.entries {
        return;
      }
      players := JsMap.Delete(players, id);
    }

    /** `update`: every player takes one interpolation step; no player is
        added or removed and the order is kept. */
    method Update()
      requires Valid()
      modifies this`players
      ensures Valid()
      ensures players.keys == old(players.keys)
      ensures forall id :: id in players.entries <==> id in old(players.entries)
      ensures forall id :: id in old(players.entries) ==>
        players.entries[id] == Step(old(players.entries)[id])
    {
      var entries := StepAll(players.entries, players.keys);
      players := players.(entries := entries);
    }

    /** `destroyAll`: remove every player, visiting the ids in map order. */
    method DestroyAll()
      requires Valid()
      modifies this`players
      ensures Valid()
      ensures players.entries == map[] && players.keys == []
    {
      var ids := players.keys;
      var i := 0;
      while i < |ids|
        invariant 0 <= i <= |ids|
        invariant Valid()
        invariant players.keys == ids[i..]
      {
        JsMap.WithoutFirst(ids[i..]);
        RemovePlayer(ids[i]);
        assert ids[i..][1..] == ids[i + 1..];
        i := i + 1;
      }
      assert players.entries == map[] by {
        assert forall k :: k !in players.entries;
      }
    }
  }
}
