# Territory game — a Dafny model

This project models the core of a small real-time multiplayer territory game.
Players walk a real-world map with the WASD keys, shoot projectiles at each
other, and capture circular territories by standing inside them. A Socket.IO
server keeps the authoritative roster of players, their scores and the owners
of the territories. Each browser client runs the game locally and sends moves,
hits and captures to the server.

The model is written as pure functions over immutable datatypes. Module by module:

- `Common`, `Text`, `InsertionMap`: shared helpers. `InsertionMap` models a
  JavaScript `Map` or plain object with string keys. Keys are enumerated in
  first-insertion order; overwriting a key keeps its place; deleting a key
  removes it.
- `GameTypes`, `Constants`: the entities of the client and the game constants.
- `GameUtils`: metre/degree conversions, distance, direction normalisation and
  the `mm:ss` clock.
- `Server`: the server's registry and its five event handlers. Each handler is
  a function from a registry to a new registry plus the messages it sends, each
  tagged with its audience. The module also proves the registry invariants they
  keep.
- `SocketConnection`: the client's socket layer. Each server event is a pure
  reducer on the client state. The module also covers move throttling and the
  outgoing hit and capture payloads.
- `GameLoop`: one animation frame. It moves the player and advances
  projectiles. A projectile either expires, hits the first eligible player in
  range, or keeps flying.
- `MapGame`: the rules held by the map component. These are the capture tick,
  death and respawn, firing, the three reload paths, dropping items, slot
  selection, clean-up, and the weapon handed to the player view.
- `PlayerGate`: the local player view's click handler, which enforces the fire
  interval and starts its own reload countdown.
- `Protocol`: how the pieces fit together. It covers the hit report's path from
  the loop to the server, the roster a joining client receives, and the weapon
  the click handler sees.

Several things are parameters rather than modelled:

- **Clock and time.** The clock is the parameter `now`. Animation-frame
  timestamps are `ts`. Each timer is its own step function (`RespawnTimer`,
  `CompleteReload`, `CaptureTick`, `Cleanup`); the view's reload countdown
  simply clears its flag, which `PlayerGate.EmptyClickCycle` takes as given.
- **Randomness.** Random values are parameters: the server's player colour,
  projectile and dropped-item ids, and the respawn position.
- **Geometry.** `cos(latitude)` is a parameter, either `cosLat` or
  `cosAt: real -> real`. Square roots are never computed. Distances are
  compared squared (`Within`). A length is passed together with the predicate
  `IsLength(len, dx, dy)`, the defining equation of the square root:
  `len >= 0` and `len * len == dx * dx + dy * dy`. From it the model proves
  that a length is zero exactly for the zero vector and that dividing by it
  gives a unit vector.
- **Screen.** The screen centre `(centerX, centerY)` is a parameter.

JavaScript semantics are modelled explicitly where the code depends on them:

- `x || d` on numbers treats 0 as missing (`OrDefault`).
- `x !== false` (`NotFalse`).
- `??` (`Option.GetOr`).
- `%` truncates toward zero (`JsRem`).
- Objects and `Map`s enumerate keys in insertion order.

## Model

| member | source | states |
|---|---|---|
| InsertionMap.Put | server.js:61 | storing under a key sets exactly that key; a new key is enumerated last, an existing key keeps its place |
| InsertionMap.Remove | src/hooks/useSocketConnection.ts:102-107 | deleting a key removes exactly that key and leaves the other keys in their order |
| InsertionMap.Values | server.js:64 | the values are listed in key-insertion order, one per key |
| InsertionMap.PutThenRemove | server.js:161 | adding a fresh key and deleting it again restores the map, order included |
| Server.InitialRegistry | server.js:19-44 | the server starts with no players and three free territories with no progress, and that registry satisfies every invariant |
| Server.Join | server.js:51-69 | the joiner is stored under its connection id with score 0 and no territories (replacing an earlier record of that id in place, or appended last); nobody else changes; the joiner is sent the whole roster in insertion order and the others are sent the new player |
| Server.Move | server.js:73-84 | only a known sender's position changes and it is relayed to the others; an unknown sender changes and sends nothing |
| Server.Hit | server.js:86-104 | with both ends connected and no self-hit, the attacker gains 10, the target loses 5 floored at 0, both scores are broadcast and nothing else changes; otherwise nothing happens; the projectile id is unused |
| Server.Without | server.js:116-117 | removing a territory id from a list keeps every other entry, each occurrence of it, in order, and drops the id; a duplicate-free list stays duplicate-free |
| Server.ReleasePrevious | server.js:112-121 | a truthy, still connected previous owner loses the territory from its list and 20 points floored at 0, with one score broadcast; any other case changes nothing |
| Server.Capture | server.js:107-144 | for a connected claimant and a known territory the territory passes to the claimant at progress 100, the claimant lists it and has 50 points more than after the previous owner's release, every other player is as that release left them, and the broadcasts are the release's followed by one carrying the claimant's new score; otherwise nothing happens |
| Server.Release | server.js:153-159 | every listed territory that exists becomes free with progress 0, and no other territory changes |
| Server.Disconnect | server.js:147-165 | a known connection's territories are freed, the player is forgotten with the others keeping their relative order, and everyone is told; an unknown one changes nothing |
| Server.JoinPreserves | server.js:51-69 | a fresh, non-empty connection joining keeps every registry invariant (ids keyed, scores non-negative, lists duplicate-free and known, owners connected, owner iff listed, progress 100 iff owned) |
| Server.MovePreserves | server.js:73-84 | moves keep every registry invariant |
| Server.HitPreserves | server.js:86-104 | hits keep every registry invariant, scores included |
| Server.CapturePreserves | server.js:107-144 | captures keep every registry invariant: ownership moves from the previous owner's list to the claimant's |
| Server.DisconnectPreserves | server.js:147-165 | disconnects keep every registry invariant: no territory is left owned by a departed player |
| Server.OwnersDisjoint | server.js:107-144 | in a consistent registry no territory is listed by two players |
| Server.CaptureScores | server.js:112-136 | a capture costs a different previous owner 20 points (floored) and the territory, gives the claimant 50 and one list entry, and broadcasts one or two messages |
| Server.RecaptureChangesScore | server.js:109-131 | because the claimant's record is re-read after the previous owner's update, an owner recapturing its own territory pays 20 before gaining 50, so capture is not idempotent |
| Server.JoinThenLeave | server.js:147-165 | a fresh connection that joins and disconnects leaves the registry exactly as it was, insertion order included |
| Server.HitExample | server.js:86-104 | a hit on a player with 10 points from a player with 0 gives 10 and 5, in that broadcast order |
| SocketConnection.OrDefault | src/hooks/useSocketConnection.ts:50-53 | a present non-zero number is kept; a missing value or 0 gives the default |
| SocketConnection.Complete | src/hooks/useSocketConnection.ts:48-54 | a received player gets health and max health 100 when missing or 0, score 0 when missing, and is alive unless explicitly false |
| SocketConnection.ZeroHealthReadsAsFull | src/hooks/useSocketConnection.ts:50-52 | a received health of 0 reads as full health and the player as alive |
| SocketConnection.SelfEntry | src/hooks/useSocketConnection.ts:45-66 | the client's own entry is absent iff no roster entry has its id, and otherwise is the last such entry |
| SocketConnection.RosterOthers | src/hooks/useSocketConnection.ts:44-68 | the remote-player table is valid, never contains the client itself, and holds exactly the other roster ids |
| SocketConnection.RosterLastWins | src/hooks/useSocketConnection.ts:45-55 | each remote player is stored as its last roster entry, completed with defaults |
| SocketConnection.RosterOrder | src/hooks/useSocketConnection.ts:44-68 | with distinct ids the remote players keep the roster's order, the client's own id filtered out |
| SocketConnection.ApplyCurrentPlayers | src/hooks/useSocketConnection.ts:42-70 | the remote table is replaced by the roster; the client's own last entry (if any) sets colour, score, health, max health and alive flag with the same defaults; nothing else changes |
| SocketConnection.ApplyPlayerJoined | src/hooks/useSocketConnection.ts:72-87 | the completed player is stored under its id, keeping the position of an existing key and enumerated last when new; nothing else changes |
| SocketConnection.ApplyPlayerMoved | src/hooks/useSocketConnection.ts:89-100 | only a known remote player's position changes |
| SocketConnection.ApplyPlayerLeft | src/hooks/useSocketConnection.ts:102-107 | the id is removed from the remote table, the rest keeps its order |
| SocketConnection.ApplyPlayerHit | src/hooks/useSocketConnection.ts:109-132 | a hit on the client sets its score, its health if sent, and its alive flag to health > 0 if health was sent; a known remote player is updated likewise; an unknown id changes nothing |
| SocketConnection.ApplyTerritoryCaptured | src/hooks/useSocketConnection.ts:134-153 | every territory with that id gets the new owner at progress 100; when the owner is the client its score is set and a capture marker is added at the territory (or at the map centre if the territory is unknown) |
| SocketConnection.CaptureReplayIdempotent | src/hooks/useSocketConnection.ts:134-153 | replaying a capture event keeps the territories and the score; for another owner the whole state is unchanged, for the player itself only one more capture mark is added |
| SocketConnection.ThrottleMove | src/hooks/useSocketConnection.ts:158-168 | a move is sent when connected and either nothing was sent yet or it differs by more than 0.00001 degrees in latitude or longitude; the last sent position is then updated |
| SocketConnection.ThrottleSuppressesRepeat | src/hooks/useSocketConnection.ts:158-168 | sending a position and then the same position again sends only once |
| SocketConnection.HitPayload | src/hooks/useSocketConnection.ts:170-174 | a hit request is produced only with a socket, carrying the arguments unchanged |
| SocketConnection.CapturePayload | src/hooks/useSocketConnection.ts:176-180 | a capture request is produced only with a socket, carrying the arguments unchanged |
| SocketConnection.OnConnect | src/hooks/useSocketConnection.ts:20-40 | connecting records the name; when the socket has an id it also records that id, the connected flag and a loaded pistol; the join request always carries the name and current position |
| GameUtils.MetersToLatLngDelta | src/utils/gameUtils.ts:3-16 | the latitude delta times 111320 is the northward distance; the longitude delta times the longitude scale is the eastward distance when the scale is non-zero, and 0 otherwise |
| GameUtils.RoundTrip | src/utils/gameUtils.ts:3-30 | converting metres to degrees and back recovers the displacement when cos(latitude) is non-zero |
| GameUtils.RoundTripAtZeroScale | src/utils/gameUtils.ts:3-30 | at a zero longitude scale the eastward component is lost in the round trip |
| GameUtils.Linear | src/utils/gameUtils.ts:3-16 | the conversion is linear: zero maps to zero, the latitude part ignores east, sums and scalings are preserved |
| GameUtils.DistanceSquared | src/utils/gameUtils.ts:32-39 | the squared distance is non-negative and zero from a point to itself |
| GameUtils.NormalizeDirection | src/utils/gameUtils.ts:45-51 | the zero vector, and only it, maps to zero; otherwise the result times the length gives back the input vector, and the result has magnitude 1 |
| GameUtils.ZeroLength | src/utils/gameUtils.ts:46-50 | the square-root length is zero exactly for the zero vector, so `length > 0` is the non-zero test |
| GameUtils.UnitAfterDivision | src/utils/gameUtils.ts:46-50 | a non-zero vector divided by its length has magnitude exactly 1 |
| GameUtils.JsRem | src/utils/gameUtils.ts:137-141 | the remainder truncates toward zero like JavaScript's `%` |
| GameUtils.FormatTime | src/utils/gameUtils.ts:137-141 | a non-negative time formats as at least five characters with a colon before the last two; under 100 minutes it is exactly `mm:ss` |
| GameUtils.FormatTimeRoundTrip | src/utils/gameUtils.ts:137-141 | parsing the formatted clock of any non-negative number of seconds gives back that number |
| GameLoop.Displacement | src/hooks/useGameLoop.ts:33-41 | north is speed·dt·(W − S) and east is speed·dt·(D − A), so opposite keys cancel |
| GameLoop.DisplacementFacts | src/hooks/useGameLoop.ts:38-41 | opposite keys cancel, and diagonal movement is not normalised: W with D moves 120·dt metres on each axis |
| GameLoop.Offset | src/hooks/useGameLoop.ts:43-52 | the latitude moves by exactly the northward metres over 111320, and the longitude by the eastward metres over 111320·cos, or not at all when that scale is 0 |
| GameLoop.Ahead | src/hooks/useGameLoop.ts:74-84 | a projectile's next point lies `step` metres along its heading, north being the heading's negated screen y |
| GameLoop.MovePlayer | src/hooks/useGameLoop.ts:33-62 | without a positive dt or a pressed key nothing moves and nothing is sent; otherwise the centre moves by the converted displacement and exactly that new position is reported |
| GameLoop.FirstHit | src/hooks/useGameLoop.ts:103-124 | the first candidate that is a live non-owner within the hit radius, if any, and none before it qualifies |
| GameLoop.Candidates | src/hooks/useGameLoop.ts:88-101 | the local player comes first, then every remote player in table order |
| GameLoop.Advance | src/hooks/useGameLoop.ts:67-131 | a projectile expires iff its new travelled distance reaches its range; otherwise it moves `Ahead` by 300·dt metres, where a hit names the first struck live non-owner and a survivor keeps every field but position and distance, and strikes no one |
| GameLoop.Fates | src/hooks/useGameLoop.ts:66-133 | every projectile is advanced independently, in order |
| GameLoop.Select | src/hooks/useGameLoop.ts:133 | the selected indices are increasing, each picked, and include every picked index |
| GameLoop.Collect | src/hooks/useGameLoop.ts:107-133 | the survivors, hit reports and hit markers are exactly the flying and hitting projectiles, in order, each report naming the projectile and the struck player |
| GameLoop.CollectPartitions | src/hooks/useGameLoop.ts:66-133 | survivors and hits together never outnumber the projectiles |
| GameLoop.MergeIndices | src/hooks/useGameLoop.ts:66-133 | increasing index lists of flying and of hitting projectiles merge into one increasing list of distinct projectile indices |
| GameLoop.SweepAll | src/hooks/useGameLoop.ts:64-139 | the survivors are exactly the advanced projectiles still flying and the reports and markers exactly those of the hitting ones, each list in projectile order, and the pass never creates projectiles |
| GameLoop.Tick | src/hooks/useGameLoop.ts:23-146 | a frame does nothing unless connected and alive; otherwise it records the timestamp, moves the player as `MovePlayer` does and, when time has passed, runs the projectile pass against the moved centre, keeping its survivors and appending its markers; remote players are never touched and at most one move (the new centre) is reported |
| GameLoop.FirstFrameIsStill | src/hooks/useGameLoop.ts:28-30 | the first frame after the loop starts has dt 0, so nothing moves |
| GameLoop.SurvivorAdvances | src/hooks/useGameLoop.ts:67-131 | a surviving projectile keeps its id, owner and direction, advances 300·dt metres, northward by its heading's share, and stays within range |
| GameLoop.HitTargetsOthers | src/hooks/useGameLoop.ts:103-106 | a projectile never hits its owner and only hits a live player |
| MapGame.Progressed | src/components/MapGame.tsx:406-409 | progress never exceeds 100, stays non-negative and strictly grows below 100 for a positive capture time |
| MapGame.TerritoryTick | src/components/MapGame.tsx:401-427 | only progress changes; an owned territory is untouched; inside the radius progress advances and a claim is due iff it reaches 100; outside it decays by 2 floored at 0 without a claim |
| MapGame.TickKeepsRange | src/components/MapGame.tsx:401-427 | progress stays within [0, 100] |
| MapGame.CaptureTick | src/components/MapGame.tsx:397-432 | every territory ticks against the current centre; with a socket, exactly the due territories are claimed for the player, once each and in list order, and without one nothing is sent |
| MapGame.DueIndices | src/components/MapGame.tsx:401-413 | the indices of the territories whose tick reaches 100, increasing, each due and none missed |
| MapGame.Claims | src/components/MapGame.tsx:411-413 | one capture payload per due territory, in list order, for the player, and none for the others; none at all without a socket |
| MapGame.TicksInsideProgress | src/components/MapGame.tsx:406-409 | with a 5000 ms capture time each tick inside adds 2, so n ≤ 50 ticks from 0 give 2n |
| MapGame.FiftiethTickClaims | src/components/MapGame.tsx:406-413 | none of the first 49 ticks inside is due, and the 50th reaches 100 and claims the territory |
| MapGame.OnDeath | src/components/MapGame.tsx:562-586 | on first seeing the player dead: empty inventory, no weapon, owned territories free at progress 0, countdown 3000, any reload cancelled; otherwise nothing changes |
| MapGame.DeathReleasesAll | src/components/MapGame.tsx:570-577 | after death the player owns no territory |
| MapGame.RespawnTimer | src/components/MapGame.tsx:588-596 | while dead with time left, the timer zeroes the countdown |
| MapGame.Respawn | src/components/MapGame.tsx:898-920 | alive at full health at the new position with a fresh pistol, death screen and reload cleared, inventory unchanged |
| MapGame.RespawnAfterDeathHasNoInventory | src/components/MapGame.tsx:898-920 | dying then respawning leaves an empty inventory and a full magazine |
| MapGame.AimDirection | src/components/MapGame.tsx:730-806 | an uninitialised cursor at (0, 0), or one within 5 pixels of the centre, shoots straight up; otherwise the direction is the unit vector whose multiple by the length is the cursor offset |
| MapGame.Shoot | src/components/MapGame.tsx:721-894 | without a loaded weapon or when dead nothing changes; otherwise exactly one projectile is appended (player's position and id, range 900, speed 300, the weapon's damage) and the weapon loses one round and records the shot time |
| MapGame.ShootFromListener | src/components/game/Player.tsx:48-54 | a click runs the guard and the aim of the render that last installed the click listener, while the projectile's position, owner and damage and the lost round come from the current state; a guard that passes with no current weapon makes the update throw |
| MapGame.ShootFromFreshListener | src/components/MapGame.tsx:721-731 | a click listener installed in the current render fires exactly as `Shoot` |
| MapGame.StaleCursorExample | src/components/MapGame.tsx:730-731 | with the cursor moved from (900, 400) to (100, 400) around a centre of (500, 400), the listener's shot goes right and the intended one left |
| MapGame.NoFireRateHere | src/components/MapGame.tsx:722-727 | the map does not check the fire interval: two shots at the same instant both fire |
| MapGame.FiveShotsThenEmpty | src/components/MapGame.tsx:722-727 | a fresh pistol fires five times, then the sixth attempt changes nothing |
| MapGame.ShotsCount | src/components/MapGame.tsx:721-894 | n shots from at least n rounds add n projectiles and remove n rounds |
| MapGame.ManualReload | src/components/MapGame.tsx:469-543 | a reload starts iff there is a weapon, the player is alive, no reload is running and the magazine is not full; a refused call changes nothing |
| MapGame.KeyReload | src/components/MapGame.tsx:248-303 | the R key starts a reload iff there is a weapon, the player is alive, no reload is running and the magazine is empty; a refused press changes nothing |
| MapGame.CompleteReload | src/components/MapGame.tsx:511-531 | the pending timer refills a remaining weapon to its maximum and clears the reload flag |
| MapGame.InstantReload | src/components/MapGame.tsx:546-559 | the T key refills at once with a weapon, alive and not full; otherwise nothing changes |
| MapGame.ClearReloadOnAmmo | src/components/MapGame.tsx:435-456 | a loaded weapon clears the reload flag |
| MapGame.AmmoStaysInRange | src/components/MapGame.tsx:721-894 | firing and every reload keep ammunition within [0, maxAmmo] |
| MapGame.PartialReloadFlagIsShortLived | src/components/MapGame.tsx:435-543 | a manual reload of a partly loaded magazine is cleared at once by the ammunition effect while its timer is pending, so a second reload can start |
| MapGame.SelectedItem | src/components/MapGame.tsx:938-958 | an item is selected iff the slot is one of the five and holds an item |
| MapGame.DropItem | src/components/MapGame.tsx:615-718 | alive with an item in the slot: that item leaves the inventory, the rest keeps its order, and a dropped copy appears at the player's position with the weapon state only for a weapon; otherwise nothing changes |
| MapGame.DropItemFromListener | src/components/MapGame.tsx:615-718 | the Q key runs the guard, the selected slot, the item, the position and the weapon state of the render in which the drop handler was memoised, while the removal splices that slot out of the current inventory and does nothing when it is out of range |
| MapGame.DropFromFreshListener | src/components/MapGame.tsx:692-715 | a drop handler created in the current render behaves exactly as `DropItem` |
| MapGame.StaleSlotExample | src/components/MapGame.tsx:336-345 | with one item in slot 0 and slot 2 selected after the listener was installed, Q drops the item although the selected slot is empty; the intended drop changes nothing |
| MapGame.StalePositionExample | src/components/MapGame.tsx:679-689 | after the player has moved since the handler was memoised, the item is dropped where the player was and not where the player is |
| MapGame.WheelSlot | src/components/MapGame.tsx:380-394 | scrolling down selects the next slot and up the previous, wrapping within the five slots |
| MapGame.WheelRoundTrip | src/components/MapGame.tsx:382-389 | scrolling down then up returns to the same slot |
| MapGame.DigitSlot | src/components/MapGame.tsx:315-320 | keys 1 to 5 select slots 0 to 4 and no other key selects a slot |
| MapGame.Cleanup | src/components/MapGame.tsx:599-612 | markers younger than a second and dropped items younger than a minute are kept, every occurrence and in order, and all older ones removed |
| MapGame.SelectedWeapon | src/components/MapGame.tsx:961-972 | a weapon in the slot yields the pistol with the current weapon's non-zero ammunition and last shot time passed through, but an empty magazine (or no weapon) reads as 5 rounds |
| MapGame.SelectedWeaponCorrected | src/components/MapGame.tsx:961-972 | a weapon in the slot yields the pistol with the current weapon's ammunition, 0 included, and last shot time |
| PlayerGate.Click | src/components/game/Player.tsx:32-54 | only the local view reacts; it fires iff the weapon is loaded, no countdown runs and strictly more than the fire interval has passed; it starts the countdown iff the weapon is empty and none runs |
| PlayerGate.IntervalIsStrict | src/components/game/Player.tsx:36-37 | a click exactly one fire interval after the last shot does not fire |
| PlayerGate.ReloadingBlocksClicks | src/components/game/Player.tsx:33-45 | during the countdown a click does nothing |
| PlayerGate.EmptyClickCycle | src/components/game/Player.tsx:40-45 | an empty weapon starts the countdown once, a second click is ignored, and after the timer a click starts it again |
| Protocol.HitWiringAsWritten | src/hooks/useGameLoop.ts:121 | the request's target is the projectile id and its projectile id is the struck player |
| Protocol.AsWrittenHitIgnored | src/components/MapGame.tsx:183 | with the wiring as written, the server ignores every hit whose projectile id is not a connection id |
| Protocol.HitWiring | src/hooks/useSocketConnection.ts:170-174 | the request's target is the struck player |
| Protocol.HitWiringExample | server.js:86-104 | a concrete hit: dropped as written; scored 10 and 15 with the intended wiring |
| Protocol.CorrectedHitScores | server.js:86-104 | with the intended wiring a reported hit on another connected player gives the shooter 10 and costs the target 5, floored at 0 |
| Protocol.WireKeepsPlayer | src/hooks/useSocketConnection.ts:48-54 | a server player arrives with its id, position, territories and score, full health and alive |
| Protocol.JoinRoster | server.js:51-69 | a client joining a consistent server under a fresh id learns exactly the players already connected, each as the server holds it, and its own entry gives it score 0, full health and life |
| Protocol.ConnectThenJoin | src/hooks/useSocketConnection.ts:26-39 | the join sent on connecting stores the player under the socket id with the chosen name and pre-connect centre, and another client applying the broadcast sees it there, last when new |
| Protocol.RosterOfRegistry | src/hooks/useSocketConnection.ts:42-70 | a roster serialised from a keyed player table yields everyone but the client, each as the table holds it |
| Protocol.EmptyClickDoesNothing | src/components/MapGame.tsx:961-972 | as written, a click with an empty gun never starts the countdown, and if it passes the gate the map refuses the shot |
| Protocol.EmptyClickReloadsCorrected | src/components/game/Player.tsx:40-45 | with the corrected weapon, a click with an empty gun starts the countdown |
| Protocol.EmptyClickExample | src/components/MapGame.tsx:961-972 | a concrete empty pistol: the gate fires as written and reloads when corrected |

## Left out

- The rendering is left out: map tiles, HUD, menus, modals and styling.
- The server's heartbeat, logging and the HTTP server are left out. Messages are values tagged with their audience; delivery and ordering across sockets are not modelled.
- Concurrency between clients and the server is left out. Each handler is one atomic step.
- React batching, effect scheduling and double invocation under strict mode are left out. Except for the click and Q-key listeners listed under "## Findings", a handler and its state updater are modelled on one and the same state.
- MapGame.Shoot: models a click whose listener was installed in the current render. A listener from an earlier render aims at the earlier cursor; that behaviour is `MapGame.ShootFromListener`, under "## Findings".
- MapGame.DropItem: models a Q press whose handler was created in the current render. A handler from an earlier render drops from the earlier selected slot at the earlier position; that behaviour is `MapGame.DropItemFromListener`, under "## Findings".
- Timers, intervals and animation frames are separate step functions. Their delays (reload time, 100 ms intervals, 3000 ms countdown) are not modelled as durations. The countdown timer of `RespawnTimer` is a single step.
- Geolocation, the initial map centre, `window.innerWidth/innerHeight` and the cursor position are parameters.
- `Math.random` and `Date.now` are parameters: projectile and dropped-item ids, the server's random colour, the respawn position and the clock.
- `calculateAngle`, `mouseDirectionToGeographic`, `screenToGeographic`, `generateRandomPosition` and `formatScore` are left out. They are rendering helpers or random generators, or they use `atan2` or `toLocaleString`, none of which the core logic depends on.
- `Math.cos` and `Math.sqrt` are not computed. They are parameters or the predicate `IsLength`, so floating-point rounding is not modelled.
- MapGame.AimDirection: the NaN/Infinity and "magnitude not 1" branches of the shot direction are not modelled. Over exact reals with a length of at least 5 they cannot be taken: the division is defined and its result has magnitude exactly 1, as the contract states.
- `PROJECTILE_MAX_DISTANCE_METERS` (30) is declared but unused; shots use a range of three seconds at 300 m/s (900 m).
- Remote-player tables keyed by numeric-looking strings would enumerate in numeric order in JavaScript. Connection ids are not numeric, so insertion order is modelled.
- After the loop stops (death or disconnect) and restarts, the first frame reuses the stale previous timestamp. The model's `Tick` takes the previous timestamp as a parameter, so the caller decides.
- The keyboard handler only listens while connected and dispatches to `KeyReload`, `InstantReload`, `DropItem` (as reached through `DropItemFromListener`) and `DigitSlot`. Each operation is modelled on its own, without the dispatch.
- The mouse-move handler only stores the cursor position and the inventory-item click handler only logs, so neither is modelled separately.
- MapGame.DigitSlot: the source compares the lowercased key name as a string with "1" and "5". The model takes a single character, since no multi-character key name falls in that range.
- Server.JoinPreserves: proved only for a fresh connection. A repeated `join` on the same connection replaces the record, which `Server.Join` models, but the rejoining player's territories then lose their list entries and the owner-iff-listed invariant breaks.
- SocketConnection.ApplyPlayerHit: the server never sends health, so in practice only scores change. The optional health is still modelled.

## Findings

| source | as written | input that shows it | evidently intended | confidence | as-written member | corrected member |
|---|---|---|---|---|---|---|
| src/components/MapGame.tsx:183 | the game loop calls `onProjectileHit(projectile.id, player.id)` and MapGame passes `emitPlayerHit(targetId, projectileId)` as that callback, so the projectile id is sent as the target | player "a" connected with "b"; a's projectile "projectile_1" strikes "b": the server looks up target "projectile_1", finds nobody and ignores the hit | send the struck player as the target, so the shooter gains 10 and the target loses 5 | high; not executed | Protocol.HitWiringAsWritten (with Protocol.AsWrittenHitIgnored, Protocol.HitWiringExample) | Protocol.HitWiring (with Protocol.CorrectedHitScores) |
| src/components/MapGame.tsx:967 | `getSelectedWeapon` sets `ammo: currentWeapon?.ammo \|\| maxAmmo`, so an empty magazine (0 is falsy) is reported full to the player view | a pistol with 0 rounds and lastShot 1000 in slot 0, clicked at 5000: the view's gate says fire, the map refuses the shot, and the view's empty-weapon reload branch is unreachable | keep 0 (`??` instead of `\|\|`) so the click starts the reload countdown | high; not executed | MapGame.SelectedWeapon (with Protocol.EmptyClickDoesNothing, Protocol.EmptyClickExample) | MapGame.SelectedWeaponCorrected (with Protocol.EmptyClickReloadsCorrected) |
| src/components/game/Player.tsx:48-54 | the click listener is installed again only when the weapon's rounds or shot time, the reload flag or locality change, and it calls the `handleShoot` of that render, so the guard and the cursor are that render's while the projectile is built from the current state | screen centre (500, 400): a shot with the cursor at (900, 400), then the cursor moves to (100, 400) and the player clicks: the projectile flies right, away from the cursor | aim at the cursor where it is at the click (the listener calling the latest `handleShoot`) | medium; not executed | MapGame.ShootFromListener (with MapGame.StaleCursorExample) | MapGame.Shoot (with MapGame.ShootFromFreshListener) |
| src/components/MapGame.tsx:336-345 | the keyboard listener is installed again only when the connection, the current weapon, the alive flag or the reload flag change, and Q calls the `handleDropItem` it captured then, whose selected slot, item, position and weapon state are those of the render in which that handler was memoised | alive with one item in slot 0, slot 0 selected and no shot since: the player presses "2" and then "q": the item in slot 0 is dropped although the selected slot is empty | drop from the slot selected now, at the player's present position, and nothing from an empty slot | medium; not executed | MapGame.DropItemFromListener (with MapGame.StaleSlotExample, MapGame.StalePositionExample) | MapGame.DropItem (with MapGame.DropFromFreshListener) |
