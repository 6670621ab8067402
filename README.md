# gather-town state model in Dafny

The repository is a small multiplayer 2D world. A Node relay server keeps a
roster of connected players and forwards their moves. Each browser client
does four things:

- it draws a tile map and moves the local player over it;
- it interpolates the other players towards the positions the relay reports;
- it simulates a soccer ball locally;
- it opens peer-to-peer audio/video calls whose signalling goes through the
  relay.

Around these sit a chat panel, an avatar editor and a catalogue of
interactive map objects.

This project models the stateful, sequential parts of that system and proves
the rules they follow. Each source file becomes one Dafny module, in the form
the source has:

- a handler that updates an object's fields is a `method` of a `class` with
  those fields;
- a loop is a `while` loop with its invariants;
- code made of expressions is a `function`, with lemmas about it.

Every method that changes state is specified by functions of the old state.
The properties the code promises are proved about those functions.

| module | source | form |
|---|---|---|
| `RelayServer` | apps/server/src/index.ts | class `Server` (roster and outbox), pure origin check |
| `NetworkClient` | apps/client/src/core/network/NetworkService.ts | class `NetworkService` (socket flag and move throttle) |
| `Ball` | apps/client/src/features/world/BallEntity.ts | class `BallEntity`; one frame as functions `Frame`, `AfterMove`, … |
| `WebRtc` | apps/client/src/core/network/WebRTCManager.ts | class `WebRtcManager` over abstract connections; loops as methods over local maps |
| `RemotePlayers` | apps/client/src/features/world/RemotePlayerManager.ts | class `RemotePlayerManager` over an insertion-ordered map |
| `WorldScene` | apps/client/src/features/world/MainScene.ts | `buildMap` as loops against `MapTile`; class `MainScene` |
| `Proximity` | apps/client/src/features/world/objects/ProximityDetector.ts | loop method |
| `ObjectManifest` | apps/client/src/features/world/objects/objectManifest.ts, types.ts | catalogue function, join loop |
| `ChatBox` | apps/client/src/features/world/components/ChatBox.tsx | class `ChatBox` for the component's state |
| `ShadeColor` | apps/client/src/features/avatar/components/AvatarRenderer.tsx | pure functions |
| `AvatarLogic` | apps/client/src/features/avatar/logic.ts | pure functions |
| `AvatarStore` | apps/client/src/store/avatarStore.ts | class `AvatarStore` over a state value |
| `Common`, `JsMap` | (shared) | `Option`, `Math.floor`/`round`/`abs`/`min`, a JavaScript `Map` as keys in insertion order plus entries |

Modelling conventions:

- Effects are appended to a log field:
  - the relay's `socket.emit`, `socket.broadcast.emit` and `io.emit` become
    `Outbound` records tagged with their audience;
  - a client's `player:move`, ball, goal, signalling and chat messages become
    `moves`, `sent`, `signals` and `outbox`;
  - UI callbacks and window events become `ui`, and event-bus emits become
    `emitted`.
- Clocks (`Date.now()`) are an `int` parameter `now`.
- Timers (`setTimeout`, `setInterval`) are explicit operations:
  - `BallEntity.ClearCooldown` ends a goal cooldown;
  - `WebRtcManager.RunPendingCall` runs the delayed call;
  - `WebRtcManager.VadTick` runs the voice-activity interval once;
  - `ChatBox.ClearNewMessageIndicator` clears the new-message flag.
- Numbers:
  - JavaScript numbers are `real` where the code does fractional arithmetic;
  - rounded, tile and colour values are `int`/`nat`;
  - `Math.floor` and `Math.round` are `Floor` and `Round` in `Common`;
  - `Math.sqrt` is avoided by comparing squared distances.
- A WebRTC `RTCPeerConnection` is a record of its signalling state, the set of
  track kinds it sends, and the remote ICE candidates it was given.

## Model

| member | source | states |
|---|---|---|
| Common.Floor | apps/client/src/features/world/BallEntity.ts:137-138 | `Math.floor`: the greatest integer not above the argument |
| Common.Round | apps/client/src/core/network/NetworkService.ts:48-49 | `Math.round`: the integer within half of the argument, halves going up |
| Common.Clamp | apps/client/src/features/avatar/components/AvatarRenderer.tsx:130-132 | `Math.min(hi, Math.max(lo, v))` lies in `lo..hi`, is `v` inside the range and the nearer bound outside it |
| JsMap.Set | apps/server/src/index.ts:54 | `Map.set` keeps the map well formed, stores the value, and appends the key only if it is new |
| JsMap.Delete | apps/server/src/index.ts:79 | `Map.delete` removes exactly that key's entry and its place in the key order, an absent key included |
| JsMap.Values | apps/server/src/index.ts:57 | `Array.from(map.values())` lists one value per key, in insertion order |
| JsMap.ValuesAreEntries | apps/server/src/index.ts:57 | a value is listed exactly when some key stores it |
| RelayServer.Server.constructor | apps/server/src/index.ts:33 | the roster starts empty and nothing has been sent |
| RelayServer.Server.Roster | apps/server/src/index.ts:57 | the roster lists one record per key, in join order |
| RelayServer.Server.Join | apps/server/src/index.ts:44-61 | the caller's record `{id, name, avatar, x, y}` is stored and replaces an earlier one; the joiner gets every record after insertion, its own included; everyone else gets `player:joined` with the new record |
| RelayServer.Server.Move | apps/server/src/index.ts:64-75 | an existing caller record gets the new x and y and nothing else changes; no record is created; `player:moved {id, x, y}` goes to all other connections even without a record |
| RelayServer.Server.Disconnect | apps/server/src/index.ts:77-81 | the caller's record is removed, every other record is unchanged, and `player:left` goes to everyone |
| RelayServer.AllowOrigin | apps/server/src/index.ts:21-28 | an origin is allowed exactly when it is absent or empty, or is `http://localhost` or `https://localhost` with an optional `:digits` port |
| RelayServer.RemoteHostRefused | apps/server/src/index.ts:23 | other hosts, a `localhost.` prefix and an empty port are refused; a Vite port is allowed |
| NetworkClient.NetworkService.constructor | apps/client/src/core/network/NetworkService.ts:20-24 | no socket, last sent position (-1, -1), last send time 0 |
| NetworkClient.NetworkService.Connect | apps/client/src/core/network/NetworkService.ts:26-29 | afterwards a socket exists; a second call changes nothing, and the throttle fields are never touched |
| NetworkClient.NetworkService.Disconnect | apps/client/src/core/network/NetworkService.ts:31-37 | the socket is dropped and the last sent position reset to -1 only if there was a socket; `lastSendTime` is kept |
| NetworkClient.NetworkService.SendMove | apps/client/src/core/network/NetworkService.ts:43-62 | with a socket, a rounded position that differs from the last one and at least 100 ms after the last send, the rounded pair is emitted and becomes the last sent pair with time `now`; in every other case nothing is emitted and no field changes; any two emissions stay at least 100 ms apart |
| NetworkClient.SameRoundedPositionSentOnce | apps/client/src/core/network/NetworkService.ts:47-55 | two calls whose positions round alike emit at most one move between them |
| Ball.Cell | apps/client/src/features/world/BallEntity.ts:146 | `mapData[ty][tx]` is a value exactly inside the stored rows and columns; past the end of a row it is `undefined`, and a missing row is excluded by `HasRows`, since the source indexes it without `?.` and would throw |
| Ball.TileOf | apps/client/src/features/world/BallEntity.ts:137-138 | the tile index is the one whose 32-pixel span contains the coordinate |
| Ball.GoalAt | apps/client/src/features/world/BallEntity.ts:141-160 | a goal is seen only without a cooldown, inside the 40 × 15 world; tile 4 reports "right" and tile 5 reports "left" |
| Ball.Rebound | apps/client/src/features/world/BallEntity.ts:192-198 | each blocked axis is reversed and damped by 0.75 while an unblocked axis keeps its velocity; with neither axis blocked (a corner) both are reversed and damped; the ball never speeds up |
| Ball.FrictionAndStop | apps/client/src/features/world/BallEntity.ts:203-210 | both components are scaled by 0.97, and they become 0 exactly when both scaled magnitudes are below 5 |
| Ball.KickVelocity | apps/client/src/features/world/BallEntity.ts:119-122 | the contact kick velocity is the player→ball vector scaled by 320 / distance |
| Ball.ChargedKickSpeed | apps/client/src/features/world/BallEntity.ts:102 | the speed is 380 at charge 0 and 750 at charge 1, and lies between them for charges in 0..1 |
| Ball.ChargedKickSpeedRises | apps/client/src/features/world/BallEntity.ts:102 | a stronger charge never gives a slower kick |
| Ball.DistSq | apps/client/src/features/world/BallEntity.ts:97-99 | the squared distance is never negative |
| Ball.GoalCount | apps/client/src/features/world/BallEntity.ts:150 | the number of goal messages is zero exactly when none was sent |
| Ball.GoalCountAppend | apps/client/src/features/world/BallEntity.ts:150 | goal counts add up over consecutive logs |
| Ball.GoalsOfAMove | apps/client/src/features/world/BallEntity.ts:140-168 | once the ball has moved, exactly one goal message is sent when it is on a goal tile and this client is the authority, and none otherwise |
| Ball.OnlyAuthoritySends | apps/client/src/features/world/BallEntity.ts:112-216 | a frame that sends anything ends with this client as the ball's authority |
| Ball.GoalFrame | apps/client/src/features/world/BallEntity.ts:147-156 | a goal frame ends with the ball at rest at the centre and the cooldown on; it skips friction and bounce, and reports the goal only when this client kicked |
| Ball.CooldownSuppressesGoals | apps/client/src/features/world/BallEntity.ts:141-142 | a frame that starts in a cooldown reports no goal and keeps the cooldown |
| Ball.OrdinaryFrame | apps/client/src/features/world/BallEntity.ts:170-215 | outside a goal, a ball stepped into a wall goes back to where the step began, any other ball stays where it stepped to, the cooldown is kept, and a ball left moving moves at 5 or more on some axis |
| Ball.FrameGoals | apps/client/src/features/world/BallEntity.ts:112-216 | a frame reports at most one goal, and a frame that reports one ends in a cooldown |
| Ball.FrameSummary | apps/client/src/features/world/BallEntity.ts:141-167 | one frame reports at most one goal, none when it starts in a cooldown (which it then keeps), and a goal leaves the ball in the cooldown |
| Ball.RunTail | apps/client/src/features/world/BallEntity.ts:112-216 | the frames after the first of a run of `update` calls form a run again |
| Ball.CooldownRunSilent | apps/client/src/features/world/BallEntity.ts:141-142 | any number of frames that start in a cooldown, with no `ClearCooldown` between them, report no goal and end still in the cooldown |
| Ball.AtMostOneGoalPerCooldown | apps/client/src/features/world/BallEntity.ts:152-155 | any number of consecutive frames with no `ClearCooldown` between them report at most one goal in total, and a run that reports one ends in the cooldown |
| Ball.BallEntity.constructor | apps/client/src/features/world/BallEntity.ts:26-30 | the ball starts at rest at the centre of its tile with no cooldown, no authority and `lastSyncTime` 0 |
| Ball.BallEntity.OnBallSync | apps/client/src/features/world/BallEntity.ts:67-73 | position and velocity become exactly the incoming values and `iKicked` is cleared; nothing else changes |
| Ball.BallEntity.ResetToCenter | apps/client/src/features/world/BallEntity.ts:77-82 | the ball is at (976, 240), the centre of tile (30, 7), with zero velocity |
| Ball.BallEntity.BroadcastBallState | apps/client/src/features/world/BallEntity.ts:84-94 | the rounded x, y, vx and vy are sent, and `lastSyncTime` becomes `now`, only when 100 ms have passed |
| Ball.BallEntity.ChargedKick | apps/client/src/features/world/BallEntity.ts:96-110 | more than 40 away nothing changes; otherwise the velocity is the direction times the charged speed, this client becomes the authority, and the kick is broadcast at once |
| Ball.BallEntity.ClearCooldown | apps/client/src/features/world/BallEntity.ts:155 | the goal cooldown ends and nothing else changes |
| Ball.BallEntity.ContactKick | apps/client/src/features/world/BallEntity.ts:113-128 | for 0 < distance < 20 the velocity becomes speed 320 away from the player, with authority and an immediate broadcast; otherwise nothing changes |
| Ball.BallEntity.DetectGoal | apps/client/src/features/world/BallEntity.ts:136-168 | on a goal tile without a cooldown, the goal is reported (authority only), the ball is reset, the cooldown is set and the frame ends; otherwise nothing changes |
| Ball.BallEntity.WallBounce | apps/client/src/features/world/BallEntity.ts:170-199 | a ball outside the world or on a wall tile has its step undone and rebounds on the blocked axes; otherwise nothing changes |
| Ball.BallEntity.SlowDown | apps/client/src/features/world/BallEntity.ts:202-215 | friction, the stop rule, then a throttled broadcast only when this client is the authority and the ball still moves |
| Ball.BallEntity.Update | apps/client/src/features/world/BallEntity.ts:112-216 | one frame moves the ball to the state `Frame` describes and sends exactly what it lists |
| WebRtc.Offered | apps/client/src/core/network/WebRTCManager.ts:221-222 | `setLocalDescription(offer)` leaves a local offer pending and keeps senders and candidates |
| WebRtc.Answered | apps/client/src/core/network/WebRTCManager.ts:277-309 | an offer received on an existing connection leaves it stable and sending every local kind besides its old ones |
| WebRtc.AnswerApplied | apps/client/src/core/network/WebRTCManager.ts:317-321 | an answer is applied only with a local offer pending; in any other state nothing changes |
| WebRtc.Renegotiated | apps/client/src/core/network/WebRTCManager.ts:167-172 | renegotiation makes an offer only from the stable state |
| WebRtc.OfferAnswerExchange | apps/client/src/core/network/WebRTCManager.ts:167-183 | the offer of a stable connection, answered, returns it to its earlier state; the answering side ends stable and sending its local kinds |
| WebRtc.GlareResolves | apps/client/src/core/network/WebRTCManager.ts:281-285 | when both sides offer at once, both roll back and answer, end stable, and ignore the answers that then arrive |
| WebRtc.RecordNamesDomain | apps/client/src/core/network/WebRTCManager.ts:189-192 | a name is filed for exactly the listed players with a truthy name, besides those filed before |
| WebRtc.RecordNamesLastWins | apps/client/src/core/network/WebRTCManager.ts:191 | for an id listed twice, the last truthy name is kept |
| WebRtc.RecordNamesKeeps | apps/client/src/core/network/WebRTCManager.ts:191 | an id never listed with a truthy name keeps its filed name |
| WebRtc.Call | apps/client/src/core/network/WebRTCManager.ts:210-235 | `initiateCall` on the connection map keeps it well formed |
| WebRtc.CallOthers | apps/client/src/core/network/WebRTCManager.ts:195-198 | calling every other listed player keeps the connection map well formed |
| WebRtc.CallOthersEntries | apps/client/src/core/network/WebRTCManager.ts:194-198 | afterwards every other listed player has a connection and none was opened to oneself; old connections are untouched; each new one sends the local kinds with an offer pending |
| WebRtc.CallOthersOffersTargets | apps/client/src/core/network/WebRTCManager.ts:194-211 | offers go only to other players that had no connection, and there are at most as many offers as listed players |
| WebRtc.SpeakingStep | apps/client/src/core/network/WebRTCManager.ts:482-493 | a sample equal to the stored value (default false) changes nothing; a different one is stored and fires the callback, if given, and the window event |
| WebRtc.SpeakingDebounced | apps/client/src/core/network/WebRTCManager.ts:482-493 | the same sample twice fires at most once, and the sample is stored |
| WebRtc.VadFoldStores | apps/client/src/core/network/WebRTCManager.ts:469-495 | after one tick every player with an analyser has its current sample stored, and other stored values are untouched |
| WebRtc.VadFoldQuiet | apps/client/src/core/network/WebRTCManager.ts:469-495 | a tick whose samples all equal the stored values fires nothing |
| WebRtc.SecondTickSilent | apps/client/src/core/network/WebRTCManager.ts:482-493 | two ticks with the same samples: the second one fires nothing |
| WebRtc.SyncedMapSpec | apps/client/src/core/network/WebRTCManager.ts:150-165 | the listed connections are synced and the others untouched; none is added or dropped |
| WebRtc.SyncAll | apps/client/src/core/network/WebRTCManager.ts:152-164 | every connection ends up sending every local kind and renegotiated; there is one offer per stable connection, in key order |
| WebRtc.CallEveryOther | apps/client/src/core/network/WebRTCManager.ts:194-198 | the second loop of `handlePlayersExisting` gives the map and offers that `CallOthers` and `CallOthersOffers` describe |
| WebRtc.WebRtcManager.constructor | apps/client/src/core/network/WebRTCManager.ts:12-26 | no local stream, no connections, streams, names or speaking states; not set up |
| WebRtc.WebRtcManager.Setup | apps/client/src/core/network/WebRTCManager.ts:30-56 | only the first call stores the callbacks and starts the voice-activity loop; later calls change nothing |
| WebRtc.WebRtcManager.StartVadLoop | apps/client/src/core/network/WebRTCManager.ts:466-468 | the loop runs afterwards; a second start does not add one |
| WebRtc.WebRtcManager.GetPlayerName | apps/client/src/core/network/WebRTCManager.ts:58-60 | the filed non-empty name, or else the first six characters of the id |
| WebRtc.WebRtcManager.CreatePeerConnection | apps/client/src/core/network/WebRTCManager.ts:237-271 | a fresh stable connection with no senders is filed under the target |
| WebRtc.WebRtcManager.InitiateCall | apps/client/src/core/network/WebRTCManager.ts:210-235 | with a connection to the target already, nothing; otherwise exactly one new connection sending every local track, with an offer set and sent to the target |
| WebRtc.WebRtcManager.HandleOffer | apps/client/src/core/network/WebRTCManager.ts:275-310 | a pending local offer is rolled back first; a missing connection is created; a sender is added for each local kind not yet sent; an answer always goes to the caller |
| WebRtc.WebRtcManager.HandleAnswer | apps/client/src/core/network/WebRTCManager.ts:312-323 | the answer is applied only to a known connection with a local offer pending; otherwise nothing changes |
| WebRtc.WebRtcManager.HandleIceCandidate | apps/client/src/core/network/WebRTCManager.ts:325-334 | a present candidate is added to a known connection; otherwise nothing changes |
| WebRtc.WebRtcManager.OnLocalIceCandidate | apps/client/src/core/network/WebRTCManager.ts:245-252 | a present local candidate is signalled to the target |
| WebRtc.WebRtcManager.Renegotiate | apps/client/src/core/network/WebRTCManager.ts:167-183 | a new offer is made and sent only from the stable state; otherwise nothing changes |
| WebRtc.WebRtcManager.SyncTracksToAllPeers | apps/client/src/core/network/WebRTCManager.ts:150-165 | without a local stream nothing; otherwise each connection ends with one sender per local kind (replaced or added) and renegotiates; keys are kept |
| WebRtc.WebRtcManager.CloseConnection | apps/client/src/core/network/WebRTCManager.ts:336-350 | the id leaves both the connections and the remote streams, and the removal callback fires even for an unknown id |
| WebRtc.WebRtcManager.OnConnectionStateChange | apps/client/src/core/network/WebRTCManager.ts:261-267 | a failed or disconnected connection is closed; other states change nothing |
| WebRtc.WebRtcManager.HandlePlayersExisting | apps/client/src/core/network/WebRTCManager.ts:188-199 | names are recorded whatever the local media; then, only with a local stream, every non-self player is called |
| WebRtc.WebRtcManager.RecordPlayerNames | apps/client/src/core/network/WebRTCManager.ts:189-192 | the name loop files what `RecordNames` describes |
| WebRtc.WebRtcManager.HandlePlayerJoined | apps/client/src/core/network/WebRTCManager.ts:202-208 | a truthy name is filed; with a local stream a call to the newcomer is scheduled |
| WebRtc.WebRtcManager.RunPendingCall | apps/client/src/core/network/WebRTCManager.ts:205-207 | the oldest scheduled call runs `initiateCall` |
| WebRtc.WebRtcManager.EnsureAudioContext | apps/client/src/core/network/WebRTCManager.ts:354-365 | the audio context, once created, stays; it is created when missing if the browser can |
| WebRtc.WebRtcManager.HandleRemoteTrack | apps/client/src/core/network/WebRTCManager.ts:367-447 | the stream is filed for the player, keeping its place if known; the audio graph is built once, when there is a context and audio; the UI is told every time |
| WebRtc.WebRtcManager.SpeakingSample | apps/client/src/core/network/WebRTCManager.ts:482-493 | one player's check does what `SpeakingStep` describes |
| WebRtc.WebRtcManager.VadTick | apps/client/src/core/network/WebRTCManager.ts:468-495 | runs only once `startVADLoop` has started the interval; one run does, over the remote streams in key order, what `VadFold` describes |
| RemotePlayers.Spawned | apps/client/src/features/world/RemotePlayerManager.ts:57-66 | a new entry starts at its position, with the target equal to it and the label 20 above |
| RemotePlayers.Step | apps/client/src/features/world/RemotePlayerManager.ts:98-100 | the remaining distance shrinks to 0.85 of itself on each axis; the target is kept; the label sits 20 above the sprite |
| RemotePlayers.AtTargetStays | apps/client/src/features/world/RemotePlayerManager.ts:98-99 | a sprite at its target stays there |
| RemotePlayers.StepApproaches | apps/client/src/features/world/RemotePlayerManager.ts:98-99 | on each axis, a sprite not at its target moves strictly towards it without reaching or passing it, and one at its target stays |
| RemotePlayers.StepAll | apps/client/src/features/world/RemotePlayerManager.ts:96-102 | the loop over the map's values steps every entry and adds or drops none |
| RemotePlayers.RemotePlayerManager.constructor | apps/client/src/features/world/RemotePlayerManager.ts:15-19 | the map starts empty |
| RemotePlayers.RemotePlayerManager.AddPlayer | apps/client/src/features/world/RemotePlayerManager.ts:21-67 | a known id is a no-op; a new id gets a spawned entry at the end of the key order |
| RemotePlayers.RemotePlayerManager.MovePlayer | apps/client/src/features/world/RemotePlayerManager.ts:69-74 | only the target of a known entry changes; unknown ids are ignored |
| RemotePlayers.RemotePlayerManager.RemovePlayer | apps/client/src/features/world/RemotePlayerManager.ts:76-94 | the entry is deleted and the others are unchanged; an unknown id is a no-op |
| RemotePlayers.RemotePlayerManager.Update | apps/client/src/features/world/RemotePlayerManager.ts:96-102 | every entry takes one `Step`; keys and targets are unchanged |
| RemotePlayers.RemotePlayerManager.DestroyAll | apps/client/src/features/world/RemotePlayerManager.ts:104-108 | the map is left empty |
| WorldScene.MapTile | apps/client/src/features/world/MainScene.ts:219-245 | every cell is one of 0 (grass), 1 (path), 2 (wall) or 3 (floor) |
| WorldScene.BorderIsWall | apps/client/src/features/world/MainScene.ts:220-221 | every border cell is a wall |
| WorldScene.BuildingLayout | apps/client/src/features/world/MainScene.ts:224-232 | inside the building, perimeter cells other than the door (16, 5) are walls, and the rest are floor |
| WorldScene.PathCells | apps/client/src/features/world/MainScene.ts:234-245 | away from the border and the building, path cells are exactly row 7, column 10 for rows 3..12 and (16, 6); the rest is grass |
| WorldScene.WallCells | apps/client/src/features/world/MainScene.ts:219-232 | a cell is a wall exactly when it is on the border or on the building's edge away from the door |
| WorldScene.StartAndDoorOpen | apps/client/src/features/world/MainScene.ts:112-238 | the start tile (10, 7), the door and the step in front of it are walkable |
| WorldScene.BuildRow | apps/client/src/features/world/MainScene.ts:217-246 | one row has 20 cells, each `MapTile` of its column |
| WorldScene.BuildMap | apps/client/src/features/world/MainScene.ts:213-248 | 15 rows of 20 cells, each cell `MapTile` of its place |
| WorldScene.Stamp | apps/client/src/features/world/MainScene.ts:187-189 | one stamp keeps the grid's shape |
| WorldScene.Stamped | apps/client/src/features/world/MainScene.ts:186-190 | stamping a list of tiles keeps the grid's shape |
| WorldScene.StampedCells | apps/client/src/features/world/MainScene.ts:186-190 | afterwards a cell is a wall exactly when it was one or some listed tile names it; other cells keep their value; out-of-range tiles are ignored |
| WorldScene.StampedKeepsWalls | apps/client/src/features/world/MainScene.ts:188 | stamping never clears a wall |
| WorldScene.Velocity | apps/client/src/features/world/MainScene.ts:267-280 | left wins over right and up over down; one axis moves at 160, a diagonal moves at 160 × 0.707 on each axis |
| WorldScene.MainScene.Create | apps/client/src/features/world/MainScene.ts:107-113 | `create` builds the map and puts the player at the centre of tile (10, 7), with no remote players |
| WorldScene.MainScene.StartsOnOpenTile | apps/client/src/features/world/MainScene.ts:112-113 | right after `create`, the player stands on a walkable tile |
| WorldScene.MainScene.StampSolidTiles | apps/client/src/features/world/MainScene.ts:185-190 | the grid becomes `Stamped` of the solid tiles |
| WorldScene.MainScene.Update | apps/client/src/features/world/MainScene.ts:264-300 | both coordinates advance together by velocity × dt when the destination tile is on the map and not a wall, otherwise neither does; a player on a walkable tile stays on one |
| WorldScene.MainScene.OnPlayersExisting | apps/client/src/features/world/MainScene.ts:22-28 | every listed player except the local id, read when the list arrives, is added, as `AddedOthers` describes |
| WorldScene.MainScene.OnPlayerJoined | apps/client/src/features/world/MainScene.ts:29-31 | the newcomer is added |
| WorldScene.MainScene.OnPlayerMoved | apps/client/src/features/world/MainScene.ts:32-34 | the moved player's target changes, if known |
| WorldScene.MainScene.OnPlayerLeft | apps/client/src/features/world/MainScene.ts:35-37 | the player who left is removed |
| WorldScene.AddEachOther | apps/client/src/features/world/MainScene.ts:23-27 | the loop adds what `AddedOthers` describes |
| WorldScene.AddedOthers | apps/client/src/features/world/MainScene.ts:22-28 | adding the other players keeps the map well formed |
| WorldScene.AddedOthersDomain | apps/client/src/features/world/MainScene.ts:22-28 | afterwards the known players are those known before and the listed ones other than oneself |
| WorldScene.AddedOthersKeeps | apps/client/src/features/world/MainScene.ts:25 | players known before keep their entries |
| WorldScene.AddedOthersFirst | apps/client/src/features/world/MainScene.ts:25 | a new entry is spawned from the first listing of its id |
| WorldScene.SelfNotAdded | apps/client/src/features/world/MainScene.ts:24 | one's own id is never added |
| ObjectManifest.Catalogue | apps/client/src/features/world/objects/objectManifest.ts:30 | every catalogue entry is filed under its own id |
| ObjectManifest.CatalogueDomain | apps/client/src/features/world/objects/objectManifest.ts:30 | the catalogue knows exactly the listed ids |
| ObjectManifest.CatalogueLastWins | apps/client/src/features/world/objects/objectManifest.ts:30 | for a duplicated id the last definition listed wins |
| ObjectManifest.Resolved | apps/client/src/features/world/objects/objectManifest.ts:33-47 | the output is never longer than the placements |
| ObjectManifest.ResolvedAppend | apps/client/src/features/world/objects/objectManifest.ts:33-47 | the output follows placement order: two runs of placements give the two outputs one after the other |
| ObjectManifest.ResolvedSingle | apps/client/src/features/world/objects/objectManifest.ts:34-45 | a placement with an unknown `objectId` is skipped; a known one yields its merged record |
| ObjectManifest.ResolvedFromPlacements | apps/client/src/features/world/objects/objectManifest.ts:39-45 | each output carries a placement's id, tile and interaction data and a definition whose id is its `objectId` |
| ObjectManifest.ResolvedComplete | apps/client/src/features/world/objects/objectManifest.ts:33-47 | the output is as long as the input exactly when every placement is known |
| ObjectManifest.ResolveMapObjects | apps/client/src/features/world/objects/objectManifest.ts:24-49 | the join loop returns `Resolved` of the catalogue and the placements |
| Proximity.FindNearestInteractable | apps/client/src/features/world/objects/ProximityDetector.ts:10-33 | null exactly when no object with an interaction is within 1.5 tiles of the player; otherwise one such object, measured to its centre, at least as near as every other and strictly nearer than every earlier one |
| ChatBox.Window | apps/client/src/features/world/components/ChatBox.tsx:23 | the list holds the last `min(n, 50)` messages received |
| ChatBox.Appended | apps/client/src/features/world/components/ChatBox.tsx:23 | the new message comes last; a short list grows by it; a full list drops its oldest entries and keeps 50 |
| ChatBox.AppendedWindow | apps/client/src/features/world/components/ChatBox.tsx:23 | appending to the window of a history is the window of the longer history |
| ChatBox.TrimStart | apps/client/src/features/world/components/ChatBox.tsx:41-42 | leading white space is removed and the rest kept as a suffix |
| ChatBox.TrimEnd | apps/client/src/features/world/components/ChatBox.tsx:41-42 | trailing white space is removed and the rest kept as a prefix |
| ChatBox.TrimIsCore | apps/client/src/features/world/components/ChatBox.tsx:41-42 | the trimmed text is a contiguous piece with only white space around it and no white space at either end |
| ChatBox.TrimEmptyIff | apps/client/src/features/world/components/ChatBox.tsx:41 | the text trims to nothing exactly when it is all white space |
| ChatBox.TrimIdempotent | apps/client/src/features/world/components/ChatBox.tsx:42 | trimming twice is trimming once |
| ChatBox.ChatBox.constructor | apps/client/src/features/world/components/ChatBox.tsx:15-18 | no messages, empty input, no indicator |
| ChatBox.ChatBox.HandleMessage | apps/client/src/features/world/components/ChatBox.tsx:22-27 | the message list stays the last 50 received and the indicator switches on |
| ChatBox.ChatBox.ClearNewMessageIndicator | apps/client/src/features/world/components/ChatBox.tsx:26 | the indicator is off |
| ChatBox.ChatBox.OnChange | apps/client/src/features/world/components/ChatBox.tsx:112-116 | the field holds at most 100 characters |
| ChatBox.ChatBox.HandleSubmit | apps/client/src/features/world/components/ChatBox.tsx:39-46 | blank input sends nothing and stays; otherwise the trimmed, non-empty text is sent under the player's name and the field is cleared |
| ShadeColor.DigitValue | apps/client/src/features/avatar/components/AvatarRenderer.tsx:129 | a hex digit's value is below 16 |
| ShadeColor.LowerDigit | apps/client/src/features/avatar/components/AvatarRenderer.tsx:133 | `toString(16)` writes each value below 16 as the lower-case digit that parses back to it |
| ShadeColor.ParseSix | apps/client/src/features/avatar/components/AvatarRenderer.tsx:129 | `parseInt` of six digits is their place-value sum |
| ShadeColor.PadStart | apps/client/src/features/avatar/components/AvatarRenderer.tsx:133 | `padStart(w, "0")` gives at least `w` characters |
| ShadeColor.PaddedIsFixedWidth | apps/client/src/features/avatar/components/AvatarRenderer.tsx:133 | a number below 16^w prints, padded, as exactly `w` digits with leading zeros |
| ShadeColor.HexDigitsOfParse | apps/client/src/features/avatar/components/AvatarRenderer.tsx:129-133 | parsing lower-case digits and printing them at the same width gives them back |
| ShadeColor.ChannelsRecombine | apps/client/src/features/avatar/components/AvatarRenderer.tsx:130-133 | the three channels of a 24-bit colour recombine to it |
| ShadeColor.ChannelsAreDigitPairs | apps/client/src/features/avatar/components/AvatarRenderer.tsx:129-132 | the channels are the values of the three digit pairs |
| ShadeColor.Shaded | apps/client/src/features/avatar/components/AvatarRenderer.tsx:130-132 | a shaded channel is below 256 |
| ShadeColor.Shade | apps/client/src/features/avatar/components/AvatarRenderer.tsx:128-134 | the result is `#` followed by the three clamped channels as two lower-case digits each |
| ShadeColor.ShadeFormat | apps/client/src/features/avatar/components/AvatarRenderer.tsx:133 | the output is `#` and six lower-case hex digits |
| ShadeColor.ColorChannels | apps/client/src/features/avatar/components/AvatarRenderer.tsx:129-132 | the input's channels are its three digit pairs |
| ShadeColor.ShadeChannels | apps/client/src/features/avatar/components/AvatarRenderer.tsx:128-134 | each output pair is the input pair plus `percent`, clamped to 0..255 |
| ShadeColor.ShadeByZero | apps/client/src/features/avatar/components/AvatarRenderer.tsx:128-134 | a lower-case `#rrggbb` colour shaded by 0 comes back unchanged |
| AvatarLogic.FindById | apps/client/src/features/avatar/logic.ts:40 | `find` returns nothing exactly when no item has the id; otherwise the first item with it |
| AvatarLogic.GetItemById | apps/client/src/features/avatar/logic.ts:35-41 | nothing for an unknown category; otherwise nothing exactly when no item has the id, and else the first item of the category with it |
| AvatarStore.InitialState | apps/client/src/store/avatarStore.ts:13-16 | the store starts with body_light, outfit_tshirt_blue, hair_short_black and acc_none |
| AvatarStore.WithPart | apps/client/src/store/avatarStore.ts:19 | the written key holds the item and every other key is unchanged |
| AvatarStore.WithPartOverwrites | apps/client/src/store/avatarStore.ts:19 | writing the same key twice keeps only the second write |
| AvatarStore.WithPartCommutes | apps/client/src/store/avatarStore.ts:19 | writes to different keys commute |
| AvatarStore.PartsDetermineState | apps/client/src/store/avatarStore.ts:12-21 | two well-formed states that read the same under every key are equal |
| AvatarStore.AvatarStore.constructor | apps/client/src/store/avatarStore.ts:12-16 | a new store holds the initial state and has emitted nothing |
| AvatarStore.AvatarStore.SetPart | apps/client/src/store/avatarStore.ts:18-21 | one key is written, and the emitted `AVATAR_CHANGED` payload equals the state after the update |

## Left out

- Transport: socket.io and express (`listen`, the health route, `io.on`, the client's `io(...)`) are not modelled. Emits are appended to logs tagged with their audience.
- `NetworkService.joinGame`, `on` and `off` (NetworkService.ts:39-41, 64-70) are plain forwarding to the socket and are not modelled.
- `sendBallUpdate`, `sendGoal`, `sendMessage` and `safeEmit` are not in the NetworkService.ts that is modelled. The ball, chat and signalling code records what it hands to them (`sent`, `outbox`, `signals`).
- The relay in apps/server/src/index.ts has no chat, ball, goal or WebRTC relay handlers, and none are invented. The model follows the code, not a description of a wider server.
- The event bus (EventBus.ts) is not part of this model. `setPart` records the `AVATAR_CHANGED` payload it emits.
- Media:
  - `startLocalStream`, `stopLocalStream`, `toggleMicrophone` and `toggleVideo` (WebRTCManager.ts:64-143) acquire and switch browser media and are not modelled;
  - a local stream is reduced to the set of its track kinds.
- Audio:
  - `updateLocalListenerPosition` and `updateRemotePlayerPosition` (WebRTCManager.ts:449-462) are not modelled;
  - nor is the Web Audio graph that `handleRemoteTrack` builds (panner, gain, analyser);
  - a remote stream records only whether its graph was built.
- WebRtc.WebRtcManager.VadTick: the RMS loudness computation (WebRTCManager.ts:470-480) is floating point over browser buffers. "Is speaking" is a per-player input instead.
- Async: `await` points and the `try`/`catch` error logging in WebRTCManager.ts are not modelled. Each handler runs to completion in source order, and the browser calls never fail.
- WebRtc.WebRtcManager.OnConnectionStateChange: only the state is modelled. The connection that fired the event is assumed to be the current one for its target.
- WebRtc.WebRtcManager.HandleRemoteTrack: a stream object is an opaque number, and whether it has audio tracks is a parameter.
- Timers are explicit operations:
  - the goal cooldown's `setTimeout` is `ClearCooldown`;
  - `handlePlayerJoined`'s one-second delay is `RunPendingCall`;
  - the VAD interval is `VadTick`;
  - the chat indicator's three-second reset is `ClearNewMessageIndicator`.
  Their timing is not modelled.
- Rendering is not modelled:
  - tile textures and `generateTileset`;
  - sprites, labels and their textures;
  - avatar images;
  - the draw functions of AvatarRenderer.tsx;
  - all of ObjectRenderer.ts (its `hexToNum` is the same hex parse as `shadeColor`);
  - React layout.
- `BallEntity.destroy` (BallEntity.ts:218-223) only unsubscribes a listener and destroys the sprite; it is not modelled.
- WorldScene.MainScene.Update: only the movement and collision part is modelled. The player's animation and depth, and the calls to the object manager, `sendMove` and the remote players' `update`, are not composed into it; each of those operations is modelled on its own.
- Ball.KickVelocity: its contract states the direction and the speed scaling as `v · dist = 320 · d`. That the resulting magnitude is exactly 320 is not proved, because the nonlinear cancellation is beyond the solver.
- Ball: the frame members (`Frame`, `BallEntity.Update`, `DetectGoal`, `WallBounce` and the lemmas about frames) require the stored map to have all 15 rows of the world (`HasRows`). `update` reads `mapData[tileY][tileX]` (BallEntity.ts:146, :173) without `?.`, so a map with a missing row would throw a `TypeError`; that exception path is not modelled. A missing column is modelled, as `undefined`.
- Ball.BallEntity.Update: `dist` is a parameter that must be the square root of the squared distance, since `Math.sqrt` has no counterpart on `real`.
- Proximity.FindNearestInteractable: the result carries the squared distance rather than the distance, so no square root is taken.
- Floating point: JavaScript IEEE doubles are modelled as exact `real` arithmetic, with no rounding error.
- ShadeColor.Shade: it is defined for `#` and six hex digits with an integer `percent`, the form the avatar manifest uses. These are not modelled: `parseInt` on other input (prefix parsing, `NaN`), fractional percentages, and the 32-bit wrap of `<<`/`>>` on values with more than six digits.
- ChatBox.ChatBox.OnChange: the browser's `maxLength` is modelled as keeping the first 100 characters of the new value.
- ChatBox: `handleKeyDown`, focus and `blur`, hovering and scrolling into view are UI behaviour and are not modelled.
- AvatarLogic.GetItemById: in JavaScript a category name such as `constructor` reaches `Object.prototype`. Only the manifest's own keys are modelled.
- AvatarStore.WithPart: the store's `setPart` key itself is not distinguished. A category named `setPart` would overwrite the function in the source; here it becomes an ordinary extra key.
- `fetchManifest`, `fetchObjectManifest` and `fetchMapObjects` are network I/O with caching. Their results are parameters.
- RemotePlayers.RemotePlayerManager.DestroyAll: the source deletes entries while iterating `players.keys()`. The model visits a snapshot of the keys, which gives the same result for a JavaScript `Map`.
