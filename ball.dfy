/** The locally simulated soccer ball (apps/client/src/features/world/BallEntity.ts).
    Positions and velocities are reals; `Math.sqrt` is avoided by comparing
    squared distances, except where the contact kick divides by the
    distance, which the caller then supplies as `dist`. `Date.now()` is the
    parameter `now`, and the one-second `setTimeout` that ends a goal
    cooldown is the explicit operation `ClearCooldown`. Outgoing
    `sendBallUpdate` and `sendGoal` calls are appended to `sent`. */
module Ball {
  import opened Common

  const TileSize: real := 32.0
  /** World size the ball checks against, in tiles. */
  const MapWidth: int := 40
  const MapHeight: int := 15

  const Friction: real := 0.97
  const MinSpeed: real := 5.0
  const KickSpeed: real := 320.0
  const KickDistance: real := 20.0
  const ChargedKickDistance: real := 40.0
  const ChargedKickMin: real := 380.0
  const ChargedKickMax: real := 750.0
  const BounceDamping: real := 0.75

  const CenterTileX: int := 30
  const CenterTileY: int := 7
  const BallSyncIntervalMs: int := 100

  /** Tile types: a wall, the left goal mouth, the right goal mouth. */
  const WallTile: int := 2
  const LeftGoalTile: int := 4
  const RightGoalTile: int := 5

  /** Pixel centre of the centre tile. */
  const CenterX: real := CenterTileX as real * TileSize + TileSize / 2.0
  const CenterY: real := CenterTileY as real * TileSize + TileSize / 2.0

  /** The team a goal is reported for. */
  datatype Side = Left | Right

  datatype BallEvent =
    | BallUpdate(x: int, y: int, vx: int, vy: int)   // `sendBallUpdate`
    | Goal(side: Side)                                // `sendGoal`

  /** The scene's `mapData`, rows of tile types. */
  type Grid = seq<seq<int>>

  /** `mapData[ty][tx]`: the stored tile type, or `undefined` past the end of
      a row. A missing row is not read as `undefined`: `update` indexes
      `mapData[tileY]` without `?.` and would throw, so every member below that
      reads a grid requires all the world's rows (`HasRows`). */
  function Cell(grid: Grid, tx: int, ty: int): (r: Option<int>)
    ensures r.Some? <==> 0 <= ty < |grid| && 0 <= tx < |grid[ty]|
    ensures r.Some? ==> r.value == grid[ty][tx]
  {
    if 0 <= ty < |grid| && 0 <= tx < |grid[ty]| then Some(grid[ty][tx]) else None
  }

  /** `Math.floor(p / TILE_SIZE)`: the tile column (or row) containing `p`. */
  function TileOf(p: real): (t: int)
    ensures t as real * TileSize <= p < (t + 1) as real * TileSize
  {
    Floor(p / TileSize)
  }

  predicate InWorld(tx: int, ty: int) {
    0 <= tx < MapWidth && 0 <= ty < MapHeight
  }

  /** The stored map, when there is one, has a row for every row of the world. */
  predicate HasRows(grid: Option<Grid>) {
    grid.Some? ==> |grid.value| >= MapHeight
  }

  /** The goal detected at pixel (x, y), if any: only while no cooldown is
      active and only on a tile inside the world. Entering tile 4 scores for
      the right team, tile 5 for the left team. */
  function GoalAt(grid: Grid, x: real, y: real, cooldown: bool): (g: Option<Side>)
    ensures g.Some? ==> !cooldown && InWorld(TileOf(x), TileOf(y))
    ensures g == Some(Right) <==> !cooldown && InWorld(TileOf(x), TileOf(y)) && Cell(grid, TileOf(x), TileOf(y)) == Some(LeftGoalTile)
    ensures g == Some(Left) <==> !cooldown && InWorld(TileOf(x), TileOf(y)) && Cell(grid, TileOf(x), TileOf(y)) == Some(RightGoalTile)
  {
    var tx := TileOf(x);
    var ty := TileOf(y);
    if cooldown || !InWorld(tx, ty) then None
    else if Cell(grid, tx, ty) == Some(LeftGoalTile) then Some(Right)
    else if Cell(grid, tx, ty) == Some(RightGoalTile) then Some(Left)
    else None
  }

  /** The ball at pixel (x, y) hits a wall: outside the world, or on a tile of type 2. */
  predicate HitsWall(grid: Grid, x: real, y: real) {
    var tx := TileOf(x);
    var ty := TileOf(y);
    !InWorld(tx, ty) || Cell(grid, tx, ty) == Some(WallTile)
  }

  /** Which axes are blocked when a step of (vx, vy) * dt from (x, y) hit a
      wall: an axis is blocked when its next tile leaves the world, or is a
      different tile of type 2 beside the current one. */
  function BlockedAxes(grid: Grid, x: real, y: real, vx: real, vy: real, dt: real): (axes: (bool, bool))
  {
    var nextTX := TileOf(x + Travel(vx, dt));
    var nextTY := TileOf(y + Travel(vy, dt));
    var curTX := TileOf(x);
    var curTY := TileOf(y);
    var wallX := nextTX < 0 || nextTX >= MapWidth || (nextTX != curTX && Cell(grid, nextTX, curTY) == Some(WallTile));
    var wallY := nextTY < 0 || nextTY >= MapHeight || (nextTY != curTY && Cell(grid, curTX, nextTY) == Some(WallTile));
    (wallX, wallY)
  }

  /** The velocity after a wall hit: each blocked axis is reversed and damped;
      when neither axis was identified (a corner), both are. */
  function Rebound(vx: real, vy: real, wallX: bool, wallY: bool): (v: (real, real))
    // the ball never speeds up, and at least one axis is reversed and damped
    ensures Abs(v.0) <= Abs(vx) && Abs(v.1) <= Abs(vy)
    ensures v.0 == -vx * BounceDamping || v.1 == -vy * BounceDamping
    // a blocked axis is reversed; an axis is kept only when the other one is blocked and it is not
    ensures wallX ==> v.0 == -vx * BounceDamping
    ensures wallY ==> v.1 == -vy * BounceDamping
    ensures v.0 == vx && vx != 0.0 ==> !wallX && wallY
    ensures v.1 == vy && vy != 0.0 ==> !wallY && wallX
    // the unblocked axis keeps its velocity; a corner (neither axis found) reverses both
    ensures wallY && !wallX ==> v.0 == vx
    ensures wallX && !wallY ==> v.1 == vy
    ensures !wallX && !wallY ==> v == (-vx * BounceDamping, -vy * BounceDamping)
  {
    var rx := if wallX || !wallY then -vx * BounceDamping else vx;
    var ry := if wallY || !wallX then -vy * BounceDamping else vy;
    (rx, ry)
  }

  /** Friction, then the stop threshold: both components are scaled by 0.97,
      and both become zero when both are then slower than 5. */
  function FrictionAndStop(vx: real, vy: real): (v: (real, real))
    ensures v == (0.0, 0.0) || v == (vx * Friction, vy * Friction)
    ensures v == (0.0, 0.0) <==> Abs(vx * Friction) < MinSpeed && Abs(vy * Friction) < MinSpeed
    // a ball left moving is moving at least at the stop threshold on some axis
    ensures v == (0.0, 0.0) || Abs(v.0) >= MinSpeed || Abs(v.1) >= MinSpeed
  {
    var fx := vx * Friction;
    var fy := vy * Friction;
    if Abs(fx) < MinSpeed && Abs(fy) < MinSpeed then (0.0, 0.0) else (fx, fy)
  }

  /** The contact-kick velocity: the unit vector from the player to the ball
      (dx, dy) / dist, times the kick speed. `dist` is the length of (dx, dy). */
  function KickVelocity(dx: real, dy: real, dist: real): (v: (real, real))
    requires dist > 0.0 && dist * dist == dx * dx + dy * dy
    // (dx, dy) scaled by KickSpeed / dist: pointing from the player to the ball at the kick speed
    ensures v.0 * dist == KickSpeed * dx && v.1 * dist == KickSpeed * dy
  {
    (dx / dist * KickSpeed, dy / dist * KickSpeed)
  }

  /** The charged-kick speed, rising linearly with the charge from 380 to 750. */
  function ChargedKickSpeed(charge: real): (s: real)
    ensures 0.0 <= charge <= 1.0 ==> ChargedKickMin <= s <= ChargedKickMax
    ensures charge == 0.0 ==> s == ChargedKickMin
    ensures charge == 1.0 ==> s == ChargedKickMax
  {
    ChargedKickMin + (ChargedKickMax - ChargedKickMin) * charge
  }

  /** A stronger charge never gives a slower kick. */
  lemma ChargedKickSpeedRises(a: real, b: real)
    requires a <= b
    ensures ChargedKickSpeed(a) <= ChargedKickSpeed(b)
  {
  }

  function DistSq(ax: real, ay: real, qx: real, qy: real): (d: real)
    ensures d >= 0.0
  {
    (ax - qx) * (ax - qx) + (ay - qy) * (ay - qy)
  }

  /** The throttle lets a broadcast through once the interval has passed. */
  predicate SyncDue(lastSyncTime: int, now: int) {
    now - lastSyncTime >= BallSyncIntervalMs
  }

  /** The ball's fields. */
  datatype BallState = BallState(
    x: real, y: real, vx: real, vy: real,
    goalCooldown: bool, lastSyncTime: int, iKicked: bool)

  predicate Moving(s: BallState) {
    s.vx != 0.0 || s.vy != 0.0
  }

  // ---------- One frame, phase by phase, as functions of the ball's fields ----------

  /** `broadcastBallState`: the rounded state, at most once per interval. */
  function Broadcast(s: BallState, now: int): (BallState, seq<BallEvent>) {
    if SyncDue(s.lastSyncTime, now)
    then (s.(lastSyncTime := now), [BallUpdate(Round(s.x), Round(s.y), Round(s.vx), Round(s.vy))])
    else (s, [])
  }

  /** `resetToCenter` */
  function Centered(s: BallState): BallState {
    s.(x := CenterX, y := CenterY, vx := 0.0, vy := 0.0)
  }

  /** The contact kick, when the player is closer than 20 but not on the ball:
      kick velocity, authority, and an immediate broadcast. */
  function AfterContactKick(s: BallState, px: real, py: real, dist: real, now: int): (BallState, seq<BallEvent>)
    requires dist >= 0.0 && dist * dist == DistSq(s.x, s.y, px, py)
  {
    if dist < KickDistance && dist > 0.0 then
      var v := KickVelocity(s.x - px, s.y - py, dist);
      Broadcast(s.(vx := v.0, vy := v.1, iKicked := true, lastSyncTime := 0), now)
    else (s, [])
  }

  function Integrated(s: BallState, dt: real): BallState {
    s.(x := s.x + Travel(s.vx, dt), y := s.y + Travel(s.vy, dt))
  }

  /** A goal: the authority reports it, the ball returns to the centre, the
      cooldown starts, and the authority sends the reset ball. */
  function AfterGoal(s: BallState, side: Side, now: int): (BallState, seq<BallEvent>) {
    var c := Centered(s.(goalCooldown := true));
    if s.iKicked then
      var b := Broadcast(c, now);
      (b.0, [Goal(side)] + b.1)
    else (c, [])
  }

  /** A wall hit: undo the step, then rebound on the blocked axes. */
  function AfterWallHit(s: BallState, grid: Grid, dt: real): BallState {
    var rx := s.x - Travel(s.vx, dt);
    var ry := s.y - Travel(s.vy, dt);
    var axes := BlockedAxes(grid, rx, ry, s.vx, s.vy, dt);
    var v := Rebound(s.vx, s.vy, axes.0, axes.1);
    s.(x := rx, y := ry, vx := v.0, vy := v.1)
  }

  function AfterFriction(s: BallState): BallState {
    var v := FrictionAndStop(s.vx, s.vy);
    s.(vx := v.0, vy := v.1)
  }

  /** Friction, the stop rule, and the periodic broadcast of a moving ball
      by the authority. */
  function Finish(w: BallState, now: int): (BallState, seq<BallEvent>) {
    var f := AfterFriction(w);
    if f.iKicked && Moving(f) then Broadcast(f, now) else (f, [])
  }

  /** Everything `update` does after the ball has moved. */
  function AfterMove(m: BallState, grid: Option<Grid>, dt: real, now: int): (BallState, seq<BallEvent>)
    requires HasRows(grid)
  {
    if grid.Some? && GoalAt(grid.value, m.x, m.y, m.goalCooldown).Some? then
      AfterGoal(m, GoalAt(grid.value, m.x, m.y, m.goalCooldown).value, now)
    else if grid.Some? && HitsWall(grid.value, m.x, m.y) then
      Finish(AfterWallHit(m, grid.value, dt), now)
    else
      Finish(m, now)
  }

  /** One `update` frame: the new fields and what was sent, in order. */
  function Frame(s: BallState, dt: real, px: real, py: real, dist: real, now: int, grid: Option<Grid>): (BallState, seq<BallEvent>)
    requires dist >= 0.0 && dist * dist == DistSq(s.x, s.y, px, py)
    requires HasRows(grid)
  {
    var k := AfterContactKick(s, px, py, dist, now);
    var r := AfterMove(Integrated(k.0, dt), grid, dt, now);
    (r.0, k.1 + r.1)
  }

  /** The position the frame integrates to, before any goal or wall handling. */
  function Stepped(s: BallState, dt: real, px: real, py: real, dist: real, now: int): BallState
    requires dist >= 0.0 && dist * dist == DistSq(s.x, s.y, px, py)
  {
    Integrated(AfterContactKick(s, px, py, dist, now).0, dt)
  }

  function GoalCount(events: seq<BallEvent>): (n: nat)
    ensures n <= |events|
    ensures n == 0 <==> forall i :: 0 <= i < |events| ==> !events[i].Goal?
  {
    if events == [] then 0
    else (if events[0].Goal? then 1 else 0) + GoalCount(events[1..])
  }

  lemma {:induction false} GoalCountAppend(a: seq<BallEvent>, b: seq<BallEvent>)
    ensures GoalCount(a + b) == GoalCount(a) + GoalCount(b)
  {
    if a == [] {
      assert a + b == b;
    } else {
      assert (a + b)[0] == a[0];
      assert (a + b)[1..] == a[1..] + b;
      GoalCountAppend(a[1..], b);
    }
  }

  /** Only a goal reports a goal: the kick and the closing broadcast send
      ball states, and the goal branch sends one `Goal` when this client is
      the authority. */
  lemma GoalsOfAMove(m: BallState, grid: Option<Grid>, dt: real, now: int)
    requires HasRows(grid)
    ensures var goal := grid.Some? && GoalAt(grid.value, m.x, m.y, m.goalCooldown).Some?;
      GoalCount(AfterMove(m, grid, dt, now).1) == (if goal && m.iKicked then 1 else 0)
  {
    if grid.Some? && GoalAt(grid.value, m.x, m.y, m.goalCooldown).Some? && m.iKicked {
      var side := GoalAt(grid.value, m.x, m.y, m.goalCooldown).value;
      var b := Broadcast(Centered(m.(goalCooldown := true)), now);
      GoalCountAppend([Goal(side)], b.1);
    }
  }

  // ---------- Properties of a frame ----------

  /** Only the authority sends anything: a frame that sends something ends
      with the ball marked as kicked by this client. */
  lemma OnlyAuthoritySends(s: BallState, dt: real, px: real, py: real, dist: real, now: int, grid: Option<Grid>)
    requires dist >= 0.0 && dist * dist == DistSq(s.x, s.y, px, py)
    requires HasRows(grid)
    ensures Frame(s, dt, px, py, dist, now, grid).1 != [] ==> Frame(s, dt, px, py, dist, now, grid).0.iKicked
  {
  }

  /** A goal frame: the ball ends at rest in the centre with the cooldown
      set, and exactly one goal, for the right side, is reported when this
      client is the authority; none otherwise. */
  lemma GoalFrame(s: BallState, dt: real, px: real, py: real, dist: real, now: int, grid: Grid)
    requires dist >= 0.0 && dist * dist == DistSq(s.x, s.y, px, py)
    requires |grid| >= MapHeight
    requires GoalAt(grid, Stepped(s, dt, px, py, dist, now).x, Stepped(s, dt, px, py, dist, now).y, s.goalCooldown).Some?
    ensures var m := Stepped(s, dt, px, py, dist, now);
      var r := Frame(s, dt, px, py, dist, now, Some(grid));
      && r.0.x == CenterX && r.0.y == CenterY && r.0.vx == 0.0 && r.0.vy == 0.0
      && r.0.goalCooldown
      && r.0.iKicked == m.iKicked
      && GoalCount(r.1) == (if m.iKicked then 1 else 0)
      && (m.iKicked ==> Goal(GoalAt(grid, m.x, m.y, s.goalCooldown).value) in r.1)
  {
    var k := AfterContactKick(s, px, py, dist, now);
    var m := Integrated(k.0, dt);
    var g := AfterMove(m, Some(grid), dt, now);
    GoalsOfAMove(m, Some(grid), dt, now);
    GoalCountAppend(k.1, g.1);
    if m.iKicked {
      assert g.1[0] == Goal(GoalAt(grid, m.x, m.y, s.goalCooldown).value);
      assert (k.1 + g.1)[|k.1|] == g.1[0];
    }
  }

  /** A frame that starts in a cooldown reports no goal and keeps the cooldown. */
  lemma CooldownSuppressesGoals(s: BallState, dt: real, px: real, py: real, dist: real, now: int, grid: Option<Grid>)
    requires dist >= 0.0 && dist * dist == DistSq(s.x, s.y, px, py)
    requires HasRows(grid)
    requires s.goalCooldown
    ensures GoalCount(Frame(s, dt, px, py, dist, now, grid).1) == 0
    ensures Frame(s, dt, px, py, dist, now, grid).0.goalCooldown
  {
    var k := AfterContactKick(s, px, py, dist, now);
    var m := Integrated(k.0, dt);
    GoalsOfAMove(m, grid, dt, now);
    GoalCountAppend(k.1, AfterMove(m, grid, dt, now).1);
  }

  /** Outside a goal: a ball stepped into a wall is put back where the step
      began, any other ball stays where it stepped to, the cooldown is
      unchanged, and a ball left moving moves at 5 or more on some axis. */
  lemma OrdinaryFrame(s: BallState, dt: real, px: real, py: real, dist: real, now: int, grid: Grid)
    requires dist >= 0.0 && dist * dist == DistSq(s.x, s.y, px, py)
    requires |grid| >= MapHeight
    requires GoalAt(grid, Stepped(s, dt, px, py, dist, now).x, Stepped(s, dt, px, py, dist, now).y, s.goalCooldown).None?
    ensures var k := AfterContactKick(s, px, py, dist, now).0;
      var m := Stepped(s, dt, px, py, dist, now);
      var r := Frame(s, dt, px, py, dist, now, Some(grid)).0;
      && (HitsWall(grid, m.x, m.y) ==> r.x == k.x && r.y == k.y)
      && (!HitsWall(grid, m.x, m.y) ==> r.x == m.x && r.y == m.y)
      && (Moving(r) ==> Abs(r.vx) >= MinSpeed || Abs(r.vy) >= MinSpeed)
      && r.goalCooldown == s.goalCooldown
  {
    var k := AfterContactKick(s, px, py, dist, now).0;
    var m := Integrated(k, dt);
    if HitsWall(grid, m.x, m.y) {
      var w := AfterWallHit(m, grid, dt);
      assert w.x == k.x + Travel(k.vx, dt) - Travel(k.vx, dt);
      assert w.y == k.y + Travel(k.vy, dt) - Travel(k.vy, dt);
    }
  }

  /** A frame reports at most one goal, and a frame that reports one ends
      in a cooldown. */
  lemma FrameGoals(s: BallState, dt: real, px: real, py: real, dist: real, now: int, grid: Option<Grid>)
    requires dist >= 0.0 && dist * dist == DistSq(s.x, s.y, px, py)
    requires HasRows(grid)
    ensures GoalCount(Frame(s, dt, px, py, dist, now, grid).1) <= 1
    ensures GoalCount(Frame(s, dt, px, py, dist, now, grid).1) == 1 ==> Frame(s, dt, px, py, dist, now, grid).0.goalCooldown
  {
    var k := AfterContactKick(s, px, py, dist, now);
    var m := Integrated(k.0, dt);
    GoalsOfAMove(m, grid, dt, now);
    GoalCountAppend(k.1, AfterMove(m, grid, dt, now).1);
  }

  /** The inputs of one `update` call. */
  datatype FrameInput = FrameInput(dt: real, px: real, py: real, dist: real, now: int)

  /** `f.dist` is the player's distance to the ball in state `s`. */
  predicate DistFits(s: BallState, f: FrameInput) {
    f.dist >= 0.0 && f.dist * f.dist == DistSq(s.x, s.y, f.px, f.py)
  }

  /** `states` and `sent` record consecutive `update` frames driven by the
      inputs `fs`, with no `ClearCooldown` between them: frame i takes
      `states[i]` to `states[i + 1]` and sends `sent[i]`. */
  predicate IsRun(states: seq<BallState>, sent: seq<seq<BallEvent>>, fs: seq<FrameInput>, grid: Option<Grid>)
    requires HasRows(grid)
  {
    && |states| == |fs| + 1 && |sent| == |fs|
    && forall i :: 0 <= i < |fs| ==>
         && DistFits(states[i], fs[i])
         && Frame(states[i], fs[i].dt, fs[i].px, fs[i].py, fs[i].dist, fs[i].now, grid) == (states[i + 1], sent[i])
  }

  /** Everything a run sent, in order. */
  function Concat(sent: seq<seq<BallEvent>>): (all: seq<BallEvent>)
    ensures |sent| == 1 ==> all == sent[0]
  {
    if sent == [] then [] else sent[0] + Concat(sent[1..])
  }

  /** A run without its first frame is a run. */
  lemma RunTail(states: seq<BallState>, sent: seq<seq<BallEvent>>, fs: seq<FrameInput>, grid: Option<Grid>)
    requires HasRows(grid) && IsRun(states, sent, fs, grid) && fs != []
    ensures IsRun(states[1..], sent[1..], fs[1..], grid)
  {
    forall i | 0 <= i < |fs| - 1
      ensures DistFits(states[1..][i], fs[1..][i])
      ensures var f := fs[1..][i];
        Frame(states[1..][i], f.dt, f.px, f.py, f.dist, f.now, grid) == (states[1..][i + 1], sent[1..][i])
    {
      assert states[1..][i] == states[i + 1] && fs[1..][i] == fs[i + 1];
      assert states[1..][i + 1] == states[i + 2] && sent[1..][i] == sent[i + 1];
    }
  }

  /** What one frame that takes `s` to `s'` and sends `e` reports: at most
      one goal, only outside a cooldown, and a goal leaves the ball in the
      cooldown. */
  lemma FrameSummary(s: BallState, f: FrameInput, grid: Option<Grid>, s': BallState, e: seq<BallEvent>)
    requires HasRows(grid) && DistFits(s, f)
    requires Frame(s, f.dt, f.px, f.py, f.dist, f.now, grid) == (s', e)
    ensures GoalCount(e) <= 1
    ensures GoalCount(e) == 1 ==> s'.goalCooldown
    ensures s.goalCooldown ==> GoalCount(e) == 0 && s'.goalCooldown
  {
    FrameGoals(s, f.dt, f.px, f.py, f.dist, f.now, grid);
    if s.goalCooldown {
      CooldownSuppressesGoals(s, f.dt, f.px, f.py, f.dist, f.now, grid);
    }
  }

  /** A run that starts in a cooldown reports no goal and ends still in it. */
  lemma {:induction false} CooldownRunSilent(states: seq<BallState>, sent: seq<seq<BallEvent>>, fs: seq<FrameInput>, grid: Option<Grid>)
    requires HasRows(grid) && IsRun(states, sent, fs, grid)
    requires states[0].goalCooldown
    ensures GoalCount(Concat(sent)) == 0
    ensures states[|fs|].goalCooldown
    decreases |fs|
  {
    if fs != [] {
      FrameSummary(states[0], fs[0], grid, states[1], sent[0]);
      RunTail(states, sent, fs, grid);
      CooldownRunSilent(states[1..], sent[1..], fs[1..], grid);
      GoalCountAppend(sent[0], Concat(sent[1..]));
    }
  }

  /** Any run of frames with no `ClearCooldown` between them reports at most
      one goal, and a run that reports one ends in the cooldown. */
  lemma {:induction false} AtMostOneGoalPerCooldown(states: seq<BallState>, sent: seq<seq<BallEvent>>, fs: seq<FrameInput>, grid: Option<Grid>)
    requires HasRows(grid) && IsRun(states, sent, fs, grid)
    ensures GoalCount(Concat(sent)) <= 1
    ensures GoalCount(Concat(sent)) == 1 ==> states[|fs|].goalCooldown
    decreases |fs|
  {
    if fs != [] {
      FrameSummary(states[0], fs[0], grid, states[1], sent[0]);
      RunTail(states, sent, fs, grid);
      GoalCountAppend(sent[0], Concat(sent[1..]));
      if GoalCount(sent[0]) == 1 {
        CooldownRunSilent(states[1..], sent[1..], fs[1..], grid);
      } else {
        AtMostOneGoalPerCooldown(states[1..], sent[1..], fs[1..], grid);
      }
    }
  }

  class BallEntity {
    var x: real
    var y: real
    var vx: real
    var vy: real
    var goalCooldown: bool
    var lastSyncTime: int
    /** This client kicked the ball last and is the authority for it. */
    var iKicked: bool
    var sent: seq<BallEvent>

    function State(): BallState
      reads this
    {
      BallState(x, y, vx, vy, goalCooldown, lastSyncTime, iKicked)
    }

    constructor (tileX: int, tileY: int)
      ensures x == tileX as real * TileSize + TileSize / 2.0
      ensures y == tileY as real * TileSize + TileSize / 2.0
      ensures vx == 0.0 && vy == 0.0
      ensures !goalCooldown && lastSyncTime == 0 && !iKicked && sent == []
    {
      x := tileX as real * TileSize + TileSize / 2.0;
      y := tileY as real * TileSize + TileSize / 2.0;
      vx, vy := 0.0, 0.0;
      goalCooldown := false;
      lastSyncTime := 0;
      iKicked := false;
      sent := [];
    }

    /** The `ball:sync` handler: adopt the incoming state as it is and give up
        the authority. */
    method OnBallSync(sx: real, sy: real, svx: real, svy: real)
      modifies this
      ensures x == sx && y == sy && vx == svx && vy == svy && !iKicked
      ensures goalCooldown == old(goalCooldown) && lastSyncTime == old(lastSyncTime) && sent == old(sent)
    {
      x := sx;
      y := sy;
      vx := svx;
      vy := svy;
      iKicked := false;
    }

    /** `resetToCenter`: at rest in the middle of tile (30, 7). */
    method ResetToCenter()
      modifies this
      ensures State() == Centered(old(State())) && sent == old(sent)
      ensures x == 976.0 && y == 240.0 && vx == 0.0 && vy == 0.0
    {
      x := CenterTileX as real * TileSize + TileSize / 2.0;
      y := CenterTileY as real * TileSize + TileSize / 2.0;
      vx := 0.0;
      vy := 0.0;
    }

    /** `broadcastBallState`: send the rounded state, at most once per interval. */
    method BroadcastBallState(now: int)
      modifies this
      ensures State() == Broadcast(old(State()), now).0
      ensures sent == old(sent) + Broadcast(old(State()), now).1
    {
      if now - lastSyncTime < BallSyncIntervalMs {
        return;
      }
      lastSyncTime := now;
      sent := sent + [BallUpdate(Round(x), Round(y), Round(vx), Round(vy))];
    }

    /** `chargedKick`: nothing when the ball is more than 40 away; otherwise
        aim along (dirX, dirY) at the charged speed, take the authority and
        send the new state at once (when the clock reads at least the interval). */
    method ChargedKick(dirX: real, dirY: real, charge: real, px: real, py: real, now: int)
      modifies this
      ensures DistSq(old(x), old(y), px, py) > ChargedKickDistance * ChargedKickDistance ==>
        unchanged(this)
      ensures DistSq(old(x), old(y), px, py) <= ChargedKickDistance * ChargedKickDistance ==>
        && x == old(x) && y == old(y) && goalCooldown == old(goalCooldown)
        && vx == dirX * ChargedKickSpeed(charge) && vy == dirY * ChargedKickSpeed(charge)
        && iKicked
        && (if SyncDue(0, now)
            then lastSyncTime == now && sent == old(sent) + [BallUpdate(Round(x), Round(y), Round(vx), Round(vy))]
            else lastSyncTime == 0 && sent == old(sent))
    {
      var dx := x - px;
      var dy := y - py;
      if dx * dx + dy * dy > ChargedKickDistance * ChargedKickDistance {
        return;
      }
      var speed := ChargedKickSpeed(charge);
      vx := dirX * speed;
      vy := dirY * speed;
      iKicked := true;
      lastSyncTime := 0;
      BroadcastBallState(now);
    }

    /** The timer that ends a goal cooldown. */
    method ClearCooldown()
      modifies this
      ensures State() == old(State()).(goalCooldown := false) && sent == old(sent)
    {
      goalCooldown := false;
    }

    /** Kick detection at the start of `update`. */
    method ContactKick(px: real, py: real, dist: real, now: int)
      requires dist >= 0.0 && dist * dist == DistSq(x, y, px, py)
      modifies this
      ensures State() == AfterContactKick(old(State()), px, py, dist, now).0
      ensures sent == old(sent) + AfterContactKick(old(State()), px, py, dist, now).1
    {
      var dx := x - px;
      var dy := y - py;
      if dist < KickDistance && dist > 0.0 {
        var v := KickVelocity(dx, dy, dist);
        vx := v.0;
        vy := v.1;
        iKicked := true;
        lastSyncTime := 0;
        BroadcastBallState(now);
      }
    }

    /** Goal detection in `update`; `scored` says the frame ends here. */
    method DetectGoal(mapData: Grid, now: int) returns (scored: bool)
      requires |mapData| >= MapHeight
      modifies this
      ensures scored == GoalAt(mapData, old(x), old(y), old(goalCooldown)).Some?
      ensures scored ==>
        var g := AfterGoal(old(State()), GoalAt(mapData, old(x), old(y), old(goalCooldown)).value, now);
        State() == g.0 && sent == old(sent) + g.1
      ensures !scored ==> State() == old(State()) && sent == old(sent)
    {
      var tileX := TileOf(x);
      var tileY := TileOf(y);
      if !goalCooldown && InWorld(tileX, tileY) {
        var tileType := Cell(mapData, tileX, tileY);
        if tileType == Some(LeftGoalTile) {
          if iKicked {
            sent := sent + [Goal(Right)];
          }
          goalCooldown := true;
          ResetToCenter();
          if iKicked {
            BroadcastBallState(now);
          }
          return true;
        } else if tileType == Some(RightGoalTile) {
          if iKicked {
            sent := sent + [Goal(Left)];
          }
          goalCooldown := true;
          ResetToCenter();
          if iKicked {
            BroadcastBallState(now);
          }
          return true;
        }
      }
      return false;
    }

    /** Wall bounce in `update`. */
    method WallBounce(mapData: Grid, dt: real)
      requires |mapData| >= MapHeight
      modifies this
      ensures HitsWall(mapData, old(x), old(y)) ==> State() == AfterWallHit(old(State()), mapData, dt)
      ensures !HitsWall(mapData, old(x), old(y)) ==> State() == old(State())
      ensures sent == old(sent)
    {
      var tileX := TileOf(x);
      var tileY := TileOf(y);
      if !InWorld(tileX, tileY) || Cell(mapData, tileX, tileY) == Some(WallTile) {
        // step back to where the frame started
        var rx := x - Travel(vx, dt);
        var ry := y - Travel(vy, dt);
        // find the blocked axes and rebound on them
        var axes := BlockedAxes(mapData, rx, ry, vx, vy, dt);
        var v := Rebound(vx, vy, axes.0, axes.1);
        x, y, vx, vy := rx, ry, v.0, v.1;
      }
    }

    /** The end of `update`: friction, the stop rule, and the periodic
        broadcast while moving, if this client kicked the ball. */
    method SlowDown(now: int)
      modifies this
      ensures State() == Finish(old(State()), now).0
      ensures sent == old(sent) + Finish(old(State()), now).1
    {
      // damping by friction
      vx := vx * Friction;
      vy := vy * Friction;

      // the ball comes to rest below the stop threshold
      if Abs(vx) < MinSpeed && Abs(vy) < MinSpeed {
        vx := 0.0;
        vy := 0.0;
      }

      if iKicked && (vx != 0.0 || vy != 0.0) {
        BroadcastBallState(now);
      }
    }

    /** One frame of `update`. `dist` is the distance from the player at
        (px, py) to the ball. */
    method Update(dt: real, px: real, py: real, dist: real, now: int, grid: Option<Grid>)
      requires dist >= 0.0 && dist * dist == DistSq(x, y, px, py)
      requires HasRows(grid)
      modifies this
      ensures State() == Frame(old(State()), dt, px, py, dist, now, grid).0
      ensures sent == old(sent) + Frame(old(State()), dt, px, py, dist, now, grid).1
    {
      ghost var s0 := State();
      ContactKick(px, py, dist, now);
      ghost var k := AfterContactKick(s0, px, py, dist, now);
      ghost var sent1 := sent;

      // integrate the position
      x := x + Travel(vx, dt);
      y := y + Travel(vy, dt);
      ghost var m := State();
      assert m == Integrated(k.0, dt);

      if grid.Some? {
        var scored := DetectGoal(grid.value, now);
        if scored {
          assert AfterMove(m, grid, dt, now) == AfterGoal(m, GoalAt(grid.value, m.x, m.y, m.goalCooldown).value, now);
          return;
        }
        WallBounce(grid.value, dt);
      }
      ghost var w := State();
      assert AfterMove(m, grid, dt, now) == Finish(w, now);
      SlowDown(now);
      assert sent == sent1 + AfterMove(m, grid, dt, now).1;
    }
  }
}
