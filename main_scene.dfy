/** The world scene (apps/client/src/features/world/MainScene.ts): the tile
    grid `buildMap` lays out, the stamping of solid objects into it, the
    keyboard-driven movement of the local player with its wall check, and
    the handlers that forward roster events to the remote-player
    interpolator. Sprites, textures, the camera and drawing are not
    modelled. */
module WorldScene {
  import opened Common
  import JsMap
  import NetworkClient
  import RemotePlayers

  const TileSize: real := 32.0
  const MapWidth: int := 20
  const MapHeight: int := 15
  const PlayerSpeed: real := 160.0
  /** The factor `update` scales both components by when moving diagonally. */
  const Diagonal: real := 0.707

  const Grass: int := 0
  const Path: int := 1
  const Wall: int := 2
  const Floor_: int := 3

  /** Where the local player starts: the centre of tile (10, 7). */
  const StartX: real := 10.0 * TileSize + TileSize / 2.0
  const StartY: real := 7.0 * TileSize + TileSize / 2.0

  // ---------- The tile grid ----------

  predicate OnBorder(x: int, y: int) {
    x == 0 || x == MapWidth - 1 || y == 0 || y == MapHeight - 1
  }

  /** The building in the top right, x 14..18 and y 2..5. */
  predicate InBuilding(x: int, y: int) {
    14 <= x <= 18 && 2 <= y <= 5
  }

  predicate OnBuildingEdge(x: int, y: int) {
    x == 14 || x == 18 || y == 2 || y == 5
  }

  /** The door gap in the building's bottom wall. */
  predicate IsDoor(x: int, y: int) {
    x == 16 && y == 5
  }

  /** The east-west path, the north-south path and the step to the door. */
  predicate OnPath(x: int, y: int) {
    y == 7 || (x == 10 && 3 <= y <= 12) || (x == 16 && y == 6)
  }

  /** The tile `buildMap` puts at column `x`, row `y`: the rules are tried
      in order, the border first. */
  function MapTile(x: int, y: int): (t: int)
    ensures Grass <= t <= Floor_
  {
    if OnBorder(x, y) then Wall
    else if InBuilding(x, y) then
      (if OnBuildingEdge(x, y) && !IsDoor(x, y) then Wall else Floor_)
    else if OnPath(x, y) then Path
    else Grass
  }

  /** `mapData`'s shape: `MapHeight` rows of `MapWidth` cells. */
  ghost predicate IsMapGrid(g: seq<seq<int>>) {
    |g| == MapHeight && forall y :: 0 <= y < |g| ==> |g[y]| == MapWidth
  }

  predicate InMap(x: int, y: int) {
    0 <= x < MapWidth && 0 <= y < MapHeight
  }

  /** The whole border is wall. */
  lemma BorderIsWall(x: int, y: int)
    requires InMap(x, y) && OnBorder(x, y)
    ensures MapTile(x, y) == Wall
  {
  }

  /** Inside the border, the building's edge is wall except for the door,
      and everything else in it is floor. */
  lemma BuildingLayout(x: int, y: int)
    requires InMap(x, y) && !OnBorder(x, y) && InBuilding(x, y)
    ensures MapTile(x, y) == Wall <==> OnBuildingEdge(x, y) && !IsDoor(x, y)
    ensures MapTile(x, y) == Floor_ <==> !OnBuildingEdge(x, y) || IsDoor(x, y)
  {
  }

  /** Away from the border and the building, the path cells are exactly the
      rows and columns the path is drawn on, and every other cell is grass. */
  lemma PathCells(x: int, y: int)
    requires InMap(x, y) && !OnBorder(x, y) && !InBuilding(x, y)
    ensures MapTile(x, y) == Path <==> y == 7 || (x == 10 && 3 <= y <= 12) || (x == 16 && y == 6)
    ensures MapTile(x, y) == Grass <==> !OnPath(x, y)
  {
  }

  /** The wall cells of the map, described without the order of the rules:
      the border, and the building's edge without its door. */
  lemma WallCells(x: int, y: int)
    requires InMap(x, y)
    ensures MapTile(x, y) == Wall <==>
      OnBorder(x, y) || (InBuilding(x, y) && OnBuildingEdge(x, y) && !IsDoor(x, y))
  {
  }

  /** The start tile, and the door with the step in front of it, are open. */
  lemma StartAndDoorOpen()
    ensures MapTile(10, 7) == Path
    ensures MapTile(16, 5) == Floor_ && MapTile(16, 6) == Path
  {
  }

  /** One row of `buildMap`. */
  method BuildRow(y: int) returns (row: seq<int>)
    ensures |row| == MapWidth
    ensures forall x :: 0 <= x < MapWidth ==> row[x] == MapTile(x, y)
  {
    row := [];
    var x := 0;
    while x < MapWidth
      invariant 0 <= x <= MapWidth && |row| == x
      invariant forall i :: 0 <= i < x ==> row[i] == MapTile(i, y)
    {
      if x == 0 || x == MapWidth - 1 || y == 0 || y == MapHeight - 1 {
        row := row + [Wall];
      } else if x >= 14 && x <= 18 && y >= 2 && y <= 5 {
        if (x == 14 || x == 18 || y == 2 || y == 5) && !(x == 16 && y == 5) {
          row := row + [Wall];
        } else {
          row := row + [Floor_];
        }
      } else if y == 7 || (x == 10 && y >= 3 && y <= 12) || (x == 16 && y == 6) {
        row := row + [Path];
      } else {
        row := row + [Grass];
      }
      x := x + 1;
    }
  }

  /** `buildMap`: the rows top to bottom. */
  method BuildMap() returns (rows: seq<seq<int>>)
    ensures IsMapGrid(rows)
    ensures forall y, x :: 0 <= y < MapHeight && 0 <= x < MapWidth ==> rows[y][x] == MapTile(x, y)
  {
    rows := [];
    var y := 0;
    while y < MapHeight
      invariant 0 <= y <= MapHeight && |rows| == y
      invariant forall i :: 0 <= i < y ==> |rows[i]| == MapWidth
      invariant forall i, x :: 0 <= i < y && 0 <= x < MapWidth ==> rows[i][x] == MapTile(x, i)
    {
      var row := BuildRow(y);
      rows := rows + [row];
      y := y + 1;
    }
  }

  // ---------- Solid objects ----------

  /** A tile that a solid object covers. */
  datatype TilePos = TilePos(x: int, y: int)

  /** One stamp: an in-bounds tile becomes wall, any other is ignored. */
  function Stamp(g: seq<seq<int>>, t: TilePos): (r: seq<seq<int>>)
    requires IsMapGrid(g)
    ensures IsMapGrid(r)
  {
    if 0 <= t.y < MapHeight && 0 <= t.x < MapWidth then g[t.y := g[t.y][t.x := Wall]] else g
  }

  /** The grid after stamping `tiles` in order. */
  function Stamped(g: seq<seq<int>>, tiles: seq<TilePos>): (r: seq<seq<int>>)
    requires IsMapGrid(g)
    ensures IsMapGrid(r)
    decreases |tiles|
  {
    if tiles == [] then g else Stamp(Stamped(g, tiles[..|tiles| - 1]), tiles[|tiles| - 1])
  }

  lemma StampedSnoc(g: seq<seq<int>>, tiles: seq<TilePos>, i: nat)
    requires IsMapGrid(g) && i < |tiles|
    ensures Stamped(g, tiles[..i + 1]) == Stamp(Stamped(g, tiles[..i]), tiles[i])
  {
    assert tiles[..i + 1][..i] == tiles[..i];
  }

  /** After stamping, a cell is wall exactly when some listed tile names it,
      or else it keeps its tile. */
  lemma {:induction false} StampedCells(g: seq<seq<int>>, tiles: seq<TilePos>, x: int, y: int)
    requires IsMapGrid(g) && InMap(x, y)
    ensures Stamped(g, tiles)[y][x] ==
      if exists i :: 0 <= i < |tiles| && tiles[i] == TilePos(x, y) then Wall else g[y][x]
    decreases |tiles|
  {
    if tiles != [] {
      var front := tiles[..|tiles| - 1];
      StampedCells(g, front, x, y);
      if exists i :: 0 <= i < |front| && front[i] == TilePos(x, y) {
        var i :| 0 <= i < |front| && front[i] == TilePos(x, y);
        assert tiles[i] == TilePos(x, y);
      }
      if exists i :: 0 <= i < |tiles| && tiles[i] == TilePos(x, y) {
        var i :| 0 <= i < |tiles| && tiles[i] == TilePos(x, y);
        if i < |front| {
          assert front[i] == TilePos(x, y);
        }
      }
    }
  }

  /** Stamping never clears a wall. */
  lemma StampedKeepsWalls(g: seq<seq<int>>, tiles: seq<TilePos>, x: int, y: int)
    requires IsMapGrid(g) && InMap(x, y) && g[y][x] == Wall
    ensures Stamped(g, tiles)[y][x] == Wall
  {
    StampedCells(g, tiles, x, y);
  }

  // ---------- Movement ----------

  /** Which directions are held, each being the arrow key or its WASD twin. */
  datatype Keys = Keys(left: bool, right: bool, up: bool, down: bool)

  /** The velocity `update` derives from the keys, before the time step. */
  function Velocity(k: Keys): (v: (real, real))
    // left beats right, up beats down
    ensures k.left ==> v.0 < 0.0
    ensures !k.left && k.right ==> v.0 > 0.0
    ensures !k.left && !k.right ==> v.0 == 0.0
    ensures k.up ==> v.1 < 0.0
    ensures !k.up && k.down ==> v.1 > 0.0
    ensures !k.up && !k.down ==> v.1 == 0.0
    // full speed along one axis, both components scaled down on a diagonal
    ensures v.0 == 0.0 || v.1 == 0.0 ==> Abs(v.0) + Abs(v.1) in {0.0, PlayerSpeed}
    ensures v.0 != 0.0 && v.1 != 0.0 ==> Abs(v.0) == Abs(v.1) == PlayerSpeed * Diagonal
  {
    var vx := if k.left then -PlayerSpeed else if k.right then PlayerSpeed else 0.0;
    var vy := if k.up then -PlayerSpeed else if k.down then PlayerSpeed else 0.0;
    if vx != 0.0 && vy != 0.0 then (vx * Diagonal, vy * Diagonal) else (vx, vy)
  }

  /** The tile index a pixel coordinate falls in. */
  function TileOf(p: real): int {
    Floor(p / TileSize)
  }

  /** The collision test of `update`: the tile is on the map and not wall. */
  predicate CanEnter(g: seq<seq<int>>, tx: int, ty: int)
    requires IsMapGrid(g)
  {
    0 <= tx < MapWidth && 0 <= ty < MapHeight && g[ty][tx] != Wall
  }

  // ---------- The scene ----------

  class MainScene {
    var mapData: seq<seq<int>>
    var playerX: real
    var playerY: real
    var remotes: RemotePlayers.RemotePlayerManager

    ghost predicate Valid()
      reads this, remotes
    {
      IsMapGrid(mapData) && remotes.Valid()
    }

    /** The local player stands on a tile it could walk onto. */
    ghost predicate OnOpenTile()
      reads this
      requires IsMapGrid(mapData)
    {
      CanEnter(mapData, TileOf(playerX), TileOf(playerY))
    }

    /** `create`: the freshly built map, the player at the start tile and
        no remote players yet. */
    constructor Create()
      ensures Valid() && fresh(remotes)
      ensures forall y, x :: 0 <= y < MapHeight && 0 <= x < MapWidth ==> mapData[y][x] == MapTile(x, y)
      ensures playerX == StartX && playerY == StartY
      ensures remotes.players.entries == map[] && remotes.players.keys == []
    {
      var rows := BuildMap();
      mapData := rows;
      playerX, playerY := StartX, StartY;
      remotes := new RemotePlayers.RemotePlayerManager();
    }

    /** Right after `create` the player stands on the open start tile. */
    lemma StartsOnOpenTile()
      requires IsMapGrid(mapData)
      requires forall y, x :: 0 <= y < MapHeight && 0 <= x < MapWidth ==> mapData[y][x] == MapTile(x, y)
      requires playerX == StartX && playerY == StartY
      ensures OnOpenTile()
    {
      assert TileOf(StartX) == 10 && TileOf(StartY) == 7;
    }

    /** The stamping loop of `create`: every in-bounds solid tile becomes
        wall, in list order. */
    method StampSolidTiles(tiles: seq<TilePos>)
      requires Valid()
      modifies this`mapData
      ensures Valid()
      ensures mapData == Stamped(old(mapData), tiles)
    {
      ghost var g0 := mapData;
      var i := 0;
      assert tiles[..0] == [];
      while i < |tiles|
        invariant 0 <= i <= |tiles|
        invariant IsMapGrid(mapData)
        invariant mapData == Stamped(g0, tiles[..i])
      {
        var t := tiles[i];
        StampedSnoc(g0, tiles, i);
        if t.y >= 0 && t.y < MapHeight && t.x >= 0 && t.x < MapWidth {
          mapData := mapData[t.y := mapData[t.y][t.x := Wall]];
        }
        i := i + 1;
      }
      assert tiles[..|tiles|] == tiles;
    }

    /** The movement part of `update`: both coordinates advance together if
        the tile the new position falls in is open, and neither otherwise. */
    method Update(k: Keys, dt: real)
      requires Valid()
      modifies this`playerX, this`playerY
      ensures Valid()
      ensures var v := Velocity(k);
        var nx := old(playerX) + Travel(v.0, dt);
        var ny := old(playerY) + Travel(v.1, dt);
        if CanEnter(mapData, TileOf(nx), TileOf(ny)) then playerX == nx && playerY == ny
        else playerX == old(playerX) && playerY == old(playerY)
      // the player never walks into a wall or off the map
      ensures old(OnOpenTile()) ==> OnOpenTile()
    {
      var v := Velocity(k);
      var newX := playerX + Travel(v.0, dt);
      var newY := playerY + Travel(v.1, dt);
      var tileX := Floor(newX / TileSize);
      var tileY := Floor(newY / TileSize);
      if tileX >= 0 && tileX < MapWidth && tileY >= 0 && tileY < MapHeight && mapData[tileY][tileX] != Wall {
        playerX := newX;
        playerY := newY;
      }
    }

    /** `onPlayersExisting`: every listed player but oneself is added.
        `selfId` is `networkService.id` as it reads when the list arrives
        (the live socket id, absent while disconnected). */
    method OnPlayersExisting(players: seq<NetworkClient.PlayerData>, selfId: Option<string>)
      requires Valid()
      modifies remotes`players
      ensures Valid()
      ensures remotes.players == AddedOthers(old(remotes.players), players, selfId)
    {
      var m := AddEachOther(remotes.players, players, selfId);
      remotes.players := m;
    }

    /** `onPlayerJoined` */
    method OnPlayerJoined(p: NetworkClient.PlayerData)
      requires Valid()
      modifies remotes`players
      ensures Valid()
      ensures remotes.players == RemotePlayers.Added(old(remotes.players), p.id, p.name, p.x, p.y)
    {
      remotes.AddPlayer(p.id, p.name, p.x, p.y);
    }

    /** `onPlayerMoved` */
    method OnPlayerMoved(id: string, x: real, y: real)
      requires Valid()
      modifies remotes`players
      ensures Valid()
      ensures remotes.players.keys == old(remotes.players.keys)
      ensures id !in old(remotes.players.entries) ==> remotes.players == old(remotes.players)
      ensures id in old(remotes.players.entries) ==>
        remotes.players.entries ==
          old(remotes.players.entries)[id := old(remotes.players.entries)[id].(targetX := x, targetY := y)]
    {
      remotes.MovePlayer(id, x, y);
    }

    /** `onPlayerLeft` */
    method OnPlayerLeft(id: string)
      requires Valid()
      modifies remotes`players
      ensures Valid()
      ensures remotes.players.entries == old(remotes.players.entries) - {id}
    {
      remotes.RemovePlayer(id);
    }
  }

  /** The loop of `onPlayersExisting` on the interpolator's map: `addPlayer`
      for every listed player but oneself, in list order. */
  method AddEachOther(m0: JsMap.Map<RemotePlayers.RemotePlayer>, players: seq<NetworkClient.PlayerData>, selfId: Option<string>)
      returns (m: JsMap.Map<RemotePlayers.RemotePlayer>)
    ensures m == AddedOthers(m0, players, selfId)
  {
    m := m0;
    var i := 0;
    assert players[..0] == [];
    while i < |players|
      invariant 0 <= i <= |players|
      invariant m == AddedOthers(m0, players[..i], selfId)
    {
      var p := players[i];
      AddedOthersSnoc(m0, players, selfId, i);
      if Some(p.id) != selfId {
        m := RemotePlayers.Added(m, p.id, p.name, p.x, p.y);
      }
      i := i + 1;
    }
    assert players[..|players|] == players;
  }

  /** The interpolator's map after `onPlayersExisting`. */
  function AddedOthers(m: JsMap.Map<RemotePlayers.RemotePlayer>, ps: seq<NetworkClient.PlayerData>, selfId: Option<string>)
      : (r: JsMap.Map<RemotePlayers.RemotePlayer>)
    ensures JsMap.Valid(m) ==> JsMap.Valid(r)
    decreases |ps|
  {
    if ps == [] then m
    else
      var before := AddedOthers(m, ps[..|ps| - 1], selfId);
      var p := ps[|ps| - 1];
      if Some(p.id) != selfId then RemotePlayers.Added(before, p.id, p.name, p.x, p.y) else before
  }

  lemma AddedOthersSnoc(m: JsMap.Map<RemotePlayers.RemotePlayer>, ps: seq<NetworkClient.PlayerData>, selfId: Option<string>, i: nat)
    requires i < |ps|
    ensures var before := AddedOthers(m, ps[..i], selfId);
      AddedOthers(m, ps[..i + 1], selfId) ==
        if Some(ps[i].id) != selfId then RemotePlayers.Added(before, ps[i].id, ps[i].name, ps[i].x, ps[i].y) else before
  {
    assert ps[..i + 1][..i] == ps[..i];
  }

  /** After `onPlayersExisting` the known players are those known before and
      every listed player other than oneself. */
  lemma {:induction false} AddedOthersDomain(m: JsMap.Map<RemotePlayers.RemotePlayer>, ps: seq<NetworkClient.PlayerData>, selfId: Option<string>)
    ensures forall id :: id in AddedOthers(m, ps, selfId).entries <==>
      id in m.entries || (Some(id) != selfId && exists i :: 0 <= i < |ps| && ps[i].id == id)
    decreases |ps|
  {
    if ps != [] {
      var n := |ps| - 1;
      var front := ps[..n];
      AddedOthersDomain(m, front, selfId);
      var r := AddedOthers(m, ps, selfId);
      forall id ensures id in r.entries <==> id in m.entries || (Some(id) != selfId && exists i :: 0 <= i < |ps| && ps[i].id == id) {
        if exists i :: 0 <= i < |front| && front[i].id == id {
          var i :| 0 <= i < |front| && front[i].id == id;
          assert ps[i].id == id;
        }
        if exists i :: 0 <= i < |ps| && ps[i].id == id {
          var i :| 0 <= i < |ps| && ps[i].id == id;
          if i < n {
            assert front[i].id == id;
          }
        }
      }
    }
  }

  /** Players known before keep their entries. */
  lemma {:induction false} AddedOthersKeeps(m: JsMap.Map<RemotePlayers.RemotePlayer>, ps: seq<NetworkClient.PlayerData>, selfId: Option<string>, id: string)
    requires id in m.entries
    ensures id in AddedOthers(m, ps, selfId).entries
    ensures AddedOthers(m, ps, selfId).entries[id] == m.entries[id]
    decreases |ps|
  {
    if ps != [] {
      AddedOthersKeeps(m, ps[..|ps| - 1], selfId, id);
    }
  }

  /** A new entry is spawned from the first listing of its id: later
      listings of the same id are ignored. */
  lemma {:induction false} AddedOthersFirst(m: JsMap.Map<RemotePlayers.RemotePlayer>, ps: seq<NetworkClient.PlayerData>, selfId: Option<string>, id: string)
    requires id in AddedOthers(m, ps, selfId).entries && id !in m.entries
    ensures exists i :: (0 <= i < |ps| && ps[i].id == id && (forall j :: 0 <= j < i ==> ps[j].id != id) &&
      AddedOthers(m, ps, selfId).entries[id] == RemotePlayers.Spawned(ps[i].name, ps[i].x, ps[i].y))
    decreases |ps|
  {
    var n := |ps| - 1;
    var front := ps[..n];
    var before := AddedOthers(m, front, selfId);
    if id in before.entries {
      AddedOthersFirst(m, front, selfId, id);
      var i :| 0 <= i < |front| && front[i].id == id && (forall j :: 0 <= j < i ==> front[j].id != id) &&
        before.entries[id] == RemotePlayers.Spawned(front[i].name, front[i].x, front[i].y);
      assert ps[i] == front[i];
      assert forall j :: 0 <= j < i ==> ps[j] == front[j];
    } else {
      AddedOthersDomain(m, front, selfId);
      forall j | 0 <= j < n ensures ps[j].id != id {
        assert front[j] == ps[j];
      }
    }
  }

  /** One's own id is never added. */
  lemma SelfNotAdded(m: JsMap.Map<RemotePlayers.RemotePlayer>, ps: seq<NetworkClient.PlayerData>, self: string)
    requires self !in m.entries
    ensures self !in AddedOthers(m, ps, Some(self)).entries
  {
    AddedOthersDomain(m, ps, Some(self));
  }
}
