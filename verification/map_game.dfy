/** The game rules held in the map component: the territory capture tick, death
    and respawn, firing, reloading, dropping inventory items, inventory slot
    selection and the periodic clean-up of short-lived entities. Timers are
    explicit steps; the clock is the parameter `now`; random ids and the random
    respawn position are parameters; the screen centre is `(centerX, centerY)`. */
module MapGame {

  import opened Common
  import opened GameTypes
  import opened GameUtils
  import Constants
  import SocketConnection

  /** Component state kept beside the game state: the death screen, the reload
      flag and whether a reload timer is pending, and the selected slot. */
  datatype Ui = Ui(isDead: bool, respawnTime: int, isReloading: bool, reloadPending: bool, selectedSlot: int)

  // ---------------------------------------------------------------------------
  // Territory capture (every 100 ms)
  // ---------------------------------------------------------------------------

  /** `min(100, p + 100 / (captureTime / 100))`; a zero capture time makes the
      step infinite, which the `min` turns into 100. */
  function Progressed(p: real, captureTime: real): (q: real)
    ensures q <= 100.0
    ensures captureTime > 0.0 && p >= 0.0 ==> q >= 0.0
    ensures captureTime > 0.0 && p < 100.0 ==> q > p
  {
    if captureTime == 0.0 then 100.0 else MinReal(100.0, p + 100.0 / (captureTime / 100.0))
  }

  /** One territory's tick, with the player at `center` (longitude scale
      `cosCenter`): inside the radius and not owned by the player, progress
      grows and a claim is due once it reaches 100; outside and not owned, it
      decays by 2 down to 0; a territory the player owns is left alone. */
  function TerritoryTick(t: Territory, center: LatLng, cosCenter: real, playerId: string): (r: (Territory, bool))
    ensures r.0 == t.(captureProgress := r.0.captureProgress)
    ensures t.ownerId == Some(playerId) ==> r == (t, false)
    ensures t.ownerId != Some(playerId) && Within(center, t.position, cosCenter, t.radius) ==>
              r.0.captureProgress == Progressed(t.captureProgress, t.captureTime) && (r.1 <==> r.0.captureProgress >= 100.0)
    ensures t.ownerId != Some(playerId) && !Within(center, t.position, cosCenter, t.radius) ==>
              r.0.captureProgress == MaxReal(0.0, t.captureProgress - 2.0) && !r.1
  {
    var notOwner := t.ownerId != Some(playerId);
    if Within(center, t.position, cosCenter, t.radius) then
      if notOwner then
        var p := Progressed(t.captureProgress, t.captureTime);
        (t.(captureProgress := p), p >= 100.0)
      else (t, false)
    else if notOwner then (t.(captureProgress := MaxReal(0.0, t.captureProgress - 2.0)), false)
    else (t, false)
  }

  /** Progress in [0, 100]. */
  predicate InRange(p: real) { 0.0 <= p <= 100.0 }

  /** The tick keeps progress within [0, 100] for a positive capture time. */
  lemma TickKeepsRange(t: Territory, center: LatLng, cosCenter: real, playerId: string)
    requires InRange(t.captureProgress) && t.captureTime > 0.0
    ensures InRange(TerritoryTick(t, center, cosCenter, playerId).0.captureProgress)
  {
  }

  /** Whether this tick's update of `t` reaches full progress, which makes the
      client announce the capture. */
  predicate Due(t: Territory, center: LatLng, cosCenter: real, playerId: string) {
    TerritoryTick(t, center, cosCenter, playerId).1
  }

  /** The whole capture tick: every territory ticks against the current
      centre; one `emitTerritoryCaptured` is made per due territory, in list
      order, and each produces a request only when a socket exists. */
  function CaptureTick(gs: GameState, cosAt: real -> real, hasSocket: bool)
    : (r: (seq<Territory>, seq<SocketConnection.CaptureRequest>))
    ensures |r.0| == |gs.territories|
    ensures forall i :: 0 <= i < |gs.territories| ==>
              r.0[i] == TerritoryTick(gs.territories[i], gs.center, cosAt(gs.center.lat), gs.playerId).0
    ensures !hasSocket ==> r.1 == []
    ensures hasSocket ==> forall c :: c in r.1 ==> c.ownerId == gs.playerId
    ensures hasSocket ==>
              forall i :: 0 <= i < |gs.territories| && Due(gs.territories[i], gs.center, cosAt(gs.center.lat), gs.playerId) ==>
                SocketConnection.CaptureRequest(gs.territories[i].id, gs.playerId) in r.1
    ensures hasSocket ==>
              var idx := DueIndices(gs.territories, gs.center, cosAt(gs.center.lat), gs.playerId, 0);
              && |r.1| == |idx|
              && forall j :: 0 <= j < |idx| ==> r.1[j] == SocketConnection.CaptureRequest(gs.territories[idx[j]].id, gs.playerId)
  {
    var cos := cosAt(gs.center.lat);
    var ts := seq(|gs.territories|, i requires 0 <= i < |gs.territories| =>
                TerritoryTick(gs.territories[i], gs.center, cos, gs.playerId).0);
    (ts, Claims(gs.territories, gs.center, cos, gs.playerId, hasSocket, 0))
  }

  /** The indices, from `from` on, of the territories due this tick, in order. */
  function DueIndices(ts: seq<Territory>, center: LatLng, cosCenter: real, playerId: string, from: nat): (idx: seq<nat>)
    requires from <= |ts|
    ensures Increasing(idx)
    ensures forall j :: 0 <= j < |idx| ==> from <= idx[j] < |ts| && Due(ts[idx[j]], center, cosCenter, playerId)
    ensures forall i :: from <= i < |ts| && Due(ts[i], center, cosCenter, playerId) ==> i in idx
    decreases |ts| - from
  {
    if from == |ts| then []
    else
      var rest := DueIndices(ts, center, cosCenter, playerId, from + 1);
      if Due(ts[from], center, cosCenter, playerId) then [from] + rest else rest
  }

  /** The capture requests of one tick from territory `from` on: the payload
      of every due territory's `emitTerritoryCaptured`, in list order. */
  function Claims(ts: seq<Territory>, center: LatLng, cosCenter: real, playerId: string, hasSocket: bool, from: nat)
    : (cs: seq<SocketConnection.CaptureRequest>)
    requires from <= |ts|
    ensures !hasSocket ==> cs == []
    ensures hasSocket ==>
              var idx := DueIndices(ts, center, cosCenter, playerId, from);
              && |cs| == |idx|
              && forall j :: 0 <= j < |idx| ==> cs[j] == SocketConnection.CaptureRequest(ts[idx[j]].id, playerId)
    decreases |ts| - from
  {
    if from == |ts| then []
    else
      var rest := Claims(ts, center, cosCenter, playerId, hasSocket, from + 1);
      if Due(ts[from], center, cosCenter, playerId) then
        match SocketConnection.CapturePayload(hasSocket, ts[from].id, playerId)
        case Some(c) => [c] + rest
        case None => rest
      else rest
  }

  /** `n` ticks inside the radius of a territory the player does not own. */
  function TicksInside(t: Territory, center: LatLng, cosCenter: real, playerId: string, n: nat): Territory
    decreases n
  {
    if n == 0 then t else TicksInside(TerritoryTick(t, center, cosCenter, playerId).0, center, cosCenter, playerId, n - 1)
  }

  /** With the standard capture time the step is 2, so `n <= 50` ticks inside
      from no progress give exactly `2n`. */
  lemma {:induction false} TicksInsideProgress(t: Territory, center: LatLng, cosCenter: real, playerId: string, n: nat)
    requires t.ownerId != Some(playerId) && t.captureTime == Constants.TerritoryCaptureTime
    requires Within(center, t.position, cosCenter, t.radius)
    requires t.captureProgress == 0.0 && n <= 50
    ensures TicksInside(t, center, cosCenter, playerId, n) == t.(captureProgress := 2.0 * n as real)
  {
    TicksFrom(t, center, cosCenter, playerId, 0, n);
  }

  lemma {:induction false} TicksFrom(t: Territory, center: LatLng, cosCenter: real, playerId: string, k: nat, n: nat)
    requires t.ownerId != Some(playerId) && t.captureTime == Constants.TerritoryCaptureTime
    requires Within(center, t.position, cosCenter, t.radius)
    requires t.captureProgress == 2.0 * k as real && k + n <= 50
    ensures TicksInside(t, center, cosCenter, playerId, n) == t.(captureProgress := 2.0 * (k + n) as real)
    decreases n
  {
    if n > 0 {
      var t1 := TerritoryTick(t, center, cosCenter, playerId).0;
      assert 100.0 / (Constants.TerritoryCaptureTime / 100.0) == 2.0;
      assert t1 == t.(captureProgress := 2.0 * (k + 1) as real);
      TicksFrom(t1, center, cosCenter, playerId, k + 1, n - 1);
    }
  }

  /** The 50th tick inside reaches 100 and is the first to claim the territory:
      none of the 49 ticks before it is due. */
  lemma FiftiethTickClaims(t: Territory, center: LatLng, cosCenter: real, playerId: string)
    requires t.ownerId != Some(playerId) && t.captureTime == Constants.TerritoryCaptureTime
    requires Within(center, t.position, cosCenter, t.radius) && t.captureProgress == 0.0
    ensures forall k :: 0 <= k < 49 ==> !Due(TicksInside(t, center, cosCenter, playerId, k), center, cosCenter, playerId)
    ensures var t49 := TicksInside(t, center, cosCenter, playerId, 49);
            && Due(t49, center, cosCenter, playerId)
            && TerritoryTick(t49, center, cosCenter, playerId).0.captureProgress == 100.0
  {
    forall k | 0 <= k < 49
      ensures !Due(TicksInside(t, center, cosCenter, playerId, k), center, cosCenter, playerId)
    {
      TicksInsideProgress(t, center, cosCenter, playerId, k);
    }
    TicksInsideProgress(t, center, cosCenter, playerId, 49);
  }

  // ---------------------------------------------------------------------------
  // Death and respawn
  // ---------------------------------------------------------------------------

  /** Every territory the player owns becomes free with no progress. */
  function ReleaseOwned(ts: seq<Territory>, playerId: string): (ts': seq<Territory>)
    ensures |ts'| == |ts|
    ensures forall i :: 0 <= i < |ts| && ts[i].ownerId == Some(playerId) ==>
              ts'[i] == ts[i].(ownerId := None, captureProgress := 0.0)
    ensures forall i :: 0 <= i < |ts| && ts[i].ownerId != Some(playerId) ==> ts'[i] == ts[i]
  {
    seq(|ts|, i requires 0 <= i < |ts| =>
      if ts[i].ownerId == Some(playerId) then ts[i].(ownerId := None, captureProgress := 0.0) else ts[i])
  }

  /** The death effect: the first time the player is seen dead, the inventory
      and weapon are emptied, owned territories released, the respawn
      countdown set and any reload cancelled. */
  function OnDeath(gs: GameState, ui: Ui): (r: (GameState, Ui))
    ensures gs.isAlive || ui.isDead ==> r == (gs, ui)
    ensures !gs.isAlive && !ui.isDead ==>
              && r.0.inventory == [] && r.0.currentWeapon.None?
              && r.0.territories == ReleaseOwned(gs.territories, gs.playerId)
              && r.0 == gs.(inventory := [], currentWeapon := None, territories := r.0.territories)
              && r.1 == Ui(true, Constants.PlayerRespawnTime, false, false, ui.selectedSlot)
  {
    if !gs.isAlive && !ui.isDead then
      (gs.(inventory := [], currentWeapon := None, territories := ReleaseOwned(gs.territories, gs.playerId)),
       ui.(isDead := true, respawnTime := Constants.PlayerRespawnTime, isReloading := false, reloadPending := false))
    else (gs, ui)
  }

  /** After death the player owns no territory. */
  lemma DeathReleasesAll(gs: GameState, ui: Ui)
    requires !gs.isAlive && !ui.isDead
    ensures forall t :: t in OnDeath(gs, ui).0.territories ==> t.ownerId != Some(gs.playerId)
  {
    var ts' := OnDeath(gs, ui).0.territories;
    forall t | t in ts' ensures t.ownerId != Some(gs.playerId) {
      var i :| 0 <= i < |ts'| && ts'[i] == t;
    }
  }

  /** The respawn countdown's timer: it clears the remaining time. */
  function RespawnTimer(ui: Ui): (ui': Ui)
    ensures ui.isDead && ui.respawnTime > 0 ==> ui' == ui.(respawnTime := 0)
    ensures !(ui.isDead && ui.respawnTime > 0) ==> ui' == ui
  {
    if ui.isDead && ui.respawnTime > 0 then ui.(respawnTime := 0) else ui
  }

  /** `handleRespawn`: alive at full health at a new position with a loaded
      pistol; the death screen and any reload are cleared. The inventory is
      not restored. */
  function Respawn(gs: GameState, ui: Ui, newCenter: LatLng): (r: (GameState, Ui))
    ensures r.0.isAlive && r.0.playerHealth == Constants.PlayerMaxHealth && r.0.center == newCenter
    ensures r.0.currentWeapon == Some(Constants.FreshPistol())
    ensures r.0.inventory == gs.inventory
    ensures r.0 == gs.(center := newCenter, isAlive := true, playerHealth := 100, currentWeapon := r.0.currentWeapon)
    ensures r.1 == Ui(false, 0, false, false, ui.selectedSlot)
  {
    (gs.(center := newCenter, isAlive := true, playerHealth := Constants.PlayerMaxHealth,
         currentWeapon := Some(Constants.FreshPistol())),
     ui.(isDead := false, respawnTime := 0, isReloading := false, reloadPending := false))
  }

  /** Dying and respawning leaves the inventory empty. */
  lemma RespawnAfterDeathHasNoInventory(gs: GameState, ui: Ui, newCenter: LatLng)
    requires !gs.isAlive && !ui.isDead
    ensures var (dead, deadUi) := OnDeath(gs, ui);
            var back := Respawn(dead, deadUi, newCenter).0;
            back.inventory == [] && back.isAlive && back.currentWeapon.value.ammo == back.currentWeapon.value.maxAmmo
  {
  }

  // ---------------------------------------------------------------------------
  // Firing
  // ---------------------------------------------------------------------------

  /** The guard of `handleShoot`: a weapon with ammunition, and alive. There is
      no fire-rate check here. */
  predicate CanShoot(gs: GameState) {
    gs.currentWeapon.Some? && gs.currentWeapon.value.ammo > 0 && gs.isAlive
  }

  /** Straight up on screen. */
  const Up: Vec := Vec(0.0, -1.0)

  /** The shot direction for a cursor at `mouse`, the screen centre at
      `(centerX, centerY)` and `len` the cursor's distance from the centre:
      an uninitialised cursor at (0, 0) or one within 5 pixels of the centre
      fires straight up; otherwise the unit vector towards the cursor. */
  function AimDirection(mouse: Vec, centerX: real, centerY: real, len: real): (v: Vec)
    requires IsLength(len, mouse.x - centerX, mouse.y - centerY)
    ensures (mouse.x == 0.0 && mouse.y == 0.0) || len < 5.0 ==> v == Up
    ensures !((mouse.x == 0.0 && mouse.y == 0.0) || len < 5.0) ==>
              v.x * len == mouse.x - centerX && v.y * len == mouse.y - centerY
    ensures !((mouse.x == 0.0 && mouse.y == 0.0) || len < 5.0) ==> v.x * v.x + v.y * v.y == 1.0
  {
    if mouse.x == 0.0 && mouse.y == 0.0 then Up
    else if len < 5.0 then Up
    else NormalizeDirection(mouse.x - centerX, mouse.y - centerY, len)
  }

  /** `handleShoot` (called without a cursor argument, so the stored cursor
      position is used): when allowed, exactly one projectile is appended, from
      the player's position, owned by the player, with three seconds of range
      and the weapon's damage, and the weapon loses one round and records the
      shot time. */
  function Shoot(gs: GameState, centerX: real, centerY: real, len: real, now: int, projectileId: string)
    : (gs': GameState)
    requires IsLength(len, gs.mousePosition.x - centerX, gs.mousePosition.y - centerY)
    ensures !CanShoot(gs) ==> gs' == gs
    ensures CanShoot(gs) ==>
              var w := gs.currentWeapon.value;
              && |gs'.projectiles| == |gs.projectiles| + 1
              && gs'.projectiles[..|gs.projectiles|] == gs.projectiles
              && gs'.projectiles[|gs.projectiles|] ==
                   Projectile(projectileId, gs.center, AimDirection(gs.mousePosition, centerX, centerY, len),
                              0.0, 3.0 * Constants.ProjectileSpeed, Constants.ProjectileSpeed, now,
                              gs.playerId, w.damage)
              && gs'.currentWeapon == Some(w.(ammo := w.ammo - 1, lastShot := now))
              && gs'.currentWeapon.value.ammo >= 0
              && gs' == gs.(projectiles := gs'.projectiles, currentWeapon := gs'.currentWeapon)
  {
    if !CanShoot(gs) then gs
    else
      var w := gs.currentWeapon.value;
      var dir := AimDirection(gs.mousePosition, centerX, centerY, len);
      var p := Projectile(projectileId, gs.center, dir, 0.0, Constants.ProjectileSpeed * 3.0,
                          Constants.ProjectileSpeed, now, gs.playerId, w.damage);
      gs.(projectiles := gs.projectiles + [p], currentWeapon := Some(w.(ammo := w.ammo - 1, lastShot := now)))
  }

  /** Fire rate is not enforced here: two shots at the same instant both fire. */
  lemma NoFireRateHere(gs: GameState, centerX: real, centerY: real, len: real, now: int, id1: string, id2: string)
    requires IsLength(len, gs.mousePosition.x - centerX, gs.mousePosition.y - centerY)
    requires CanShoot(gs) && gs.currentWeapon.value.ammo >= 2
    ensures var once := Shoot(gs, centerX, centerY, len, now, id1);
            var twice := Shoot(once, centerX, centerY, len, now, id2);
            |twice.projectiles| == |gs.projectiles| + 2 && twice.currentWeapon.value.ammo == gs.currentWeapon.value.ammo - 2
  {
  }

  /** A loaded pistol fires five times; the sixth attempt changes nothing. */
  lemma FiveShotsThenEmpty(gs: GameState, centerX: real, centerY: real, len: real, now: int)
    requires IsLength(len, gs.mousePosition.x - centerX, gs.mousePosition.y - centerY)
    requires gs.isAlive && gs.currentWeapon == Some(Constants.FreshPistol())
    ensures var s5 := Shots(gs, centerX, centerY, len, now, 5);
            && |s5.projectiles| == |gs.projectiles| + 5
            && s5.currentWeapon.value.ammo == 0
            && Shoot(s5, centerX, centerY, len, now, "sixth") == s5
  {
    ShotsCount(gs, centerX, centerY, len, now, 5);
  }

  /** `n` successive shots at the same instant. */
  function Shots(gs: GameState, centerX: real, centerY: real, len: real, now: int, n: nat): (gs': GameState)
    requires IsLength(len, gs.mousePosition.x - centerX, gs.mousePosition.y - centerY)
    ensures gs'.mousePosition == gs.mousePosition && gs'.isAlive == gs.isAlive
    decreases n
  {
    if n == 0 then gs else Shots(Shoot(gs, centerX, centerY, len, now, "shot"), centerX, centerY, len, now, n - 1)
  }

  lemma {:induction false} ShotsCount(gs: GameState, centerX: real, centerY: real, len: real, now: int, n: nat)
    requires IsLength(len, gs.mousePosition.x - centerX, gs.mousePosition.y - centerY)
    requires gs.isAlive && gs.currentWeapon.Some? && gs.currentWeapon.value.ammo >= n
    ensures var s := Shots(gs, centerX, centerY, len, now, n);
            && |s.projectiles| == |gs.projectiles| + n
            && s.currentWeapon.Some? && s.currentWeapon.value.ammo == gs.currentWeapon.value.ammo - n
    decreases n
  {
    if n > 0 {
      ShotsCount(Shoot(gs, centerX, centerY, len, now, "shot"), centerX, centerY, len, now, n - 1);
    }
  }

  /** `handleShoot` as a click actually reaches it. The player view installs
      its click listener again only when the weapon's rounds or shot time, the
      reload flag or locality change, so a click calls the `handleShoot` of the
      render in which the listener was last installed; `view` is that render's
      game state and `gs` the current one. The guard and the cursor come from
      `view`; the update starts from `gs`, which supplies the position, the
      owner, the damage and the rounds. `None` is the update throwing, when
      `gs` has no weapon left to read the damage from. */
  function ShootFromListener(view: GameState, gs: GameState, centerX: real, centerY: real, len: real,
                             now: int, projectileId: string): (r: Option<GameState>)
    requires IsLength(len, view.mousePosition.x - centerX, view.mousePosition.y - centerY)
    ensures r.None? <==> CanShoot(view) && gs.currentWeapon.None?
    ensures !CanShoot(view) ==> r == Some(gs)
    ensures CanShoot(view) && r.Some? ==>
              var w := gs.currentWeapon.value;
              && |r.value.projectiles| == |gs.projectiles| + 1
              && r.value.projectiles[..|gs.projectiles|] == gs.projectiles
              && r.value.projectiles[|gs.projectiles|].direction == AimDirection(view.mousePosition, centerX, centerY, len)
              && r.value.projectiles[|gs.projectiles|].position == gs.center
              && r.value.projectiles[|gs.projectiles|].damage == w.damage
              && r.value.currentWeapon == Some(w.(ammo := w.ammo - 1, lastShot := now))
              && r.value == gs.(projectiles := r.value.projectiles, currentWeapon := r.value.currentWeapon)
  {
    if !CanShoot(view) then Some(gs)
    else if gs.currentWeapon.None? then None
    else
      var w := gs.currentWeapon.value;
      var dir := AimDirection(view.mousePosition, centerX, centerY, len);
      var p := Projectile(projectileId, gs.center, dir, 0.0, Constants.ProjectileSpeed * 3.0,
                          Constants.ProjectileSpeed, now, gs.playerId, w.damage);
      Some(gs.(projectiles := gs.projectiles + [p], currentWeapon := Some(w.(ammo := w.ammo - 1, lastShot := now))))
  }

  /** A listener installed in the current render is exactly `Shoot`. */
  lemma ShootFromFreshListener(gs: GameState, centerX: real, centerY: real, len: real, now: int, projectileId: string)
    requires IsLength(len, gs.mousePosition.x - centerX, gs.mousePosition.y - centerY)
    ensures ShootFromListener(gs, gs, centerX, centerY, len, now, projectileId) ==
            Some(Shoot(gs, centerX, centerY, len, now, projectileId))
  {
  }

  /** Screen centre (500, 400): after a shot with the cursor at (900, 400) the
      cursor moves to (100, 400) and the player clicks. The listener still
      holds the earlier render, so the shot goes right, towards where the
      cursor was; the intended shot goes left, towards where it is. */
  lemma StaleCursorExample(view: GameState, gs: GameState)
    requires CanShoot(gs) && gs.mousePosition == Vec(100.0, 400.0)
    requires view == gs.(mousePosition := Vec(900.0, 400.0))
    ensures var r := ShootFromListener(view, gs, 500.0, 400.0, 400.0, 7000, "p");
            r.Some? && r.value.projectiles[|gs.projectiles|].direction == Vec(1.0, 0.0)
    ensures Shoot(gs, 500.0, 400.0, 400.0, 7000, "p").projectiles[|gs.projectiles|].direction == Vec(-1.0, 0.0)
  {
  }

  // ---------------------------------------------------------------------------
  // Reloading
  // ---------------------------------------------------------------------------

  /** `handleManualReload`: with a weapon, alive, not already reloading and a
      magazine that is not full, a reload starts (the timer is pending). */
  function ManualReload(gs: GameState, ui: Ui): (ui': Ui)
    ensures ui'.selectedSlot == ui.selectedSlot && ui'.isDead == ui.isDead
    ensures (ui'.isReloading && !ui.isReloading) <==>
              gs.currentWeapon.Some? && gs.isAlive && !ui.isReloading &&
              gs.currentWeapon.value.ammo < gs.currentWeapon.value.maxAmmo
    ensures ui' != ui ==> ui' == ui.(isReloading := true, reloadPending := true)
    ensures !(gs.currentWeapon.Some? && gs.isAlive && !ui.isReloading && gs.currentWeapon.value.ammo < gs.currentWeapon.value.maxAmmo) ==> ui' == ui
  {
    if gs.currentWeapon.None? || !gs.isAlive || ui.isReloading then ui
    else if gs.currentWeapon.value.ammo < gs.currentWeapon.value.maxAmmo then
      ui.(isReloading := true, reloadPending := true)
    else ui
  }

  /** The R key: like the manual reload, but only with an empty magazine. */
  function KeyReload(gs: GameState, ui: Ui): (ui': Ui)
    ensures (ui'.isReloading && !ui.isReloading) <==>
              gs.currentWeapon.Some? && gs.isAlive && !ui.isReloading && gs.currentWeapon.value.ammo == 0
    ensures ui' != ui ==> ui' == ui.(isReloading := true, reloadPending := true)
    ensures !(gs.currentWeapon.Some? && gs.isAlive && !ui.isReloading && gs.currentWeapon.value.ammo == 0) ==> ui' == ui
  {
    if gs.currentWeapon.Some? && gs.isAlive && !ui.isReloading && gs.currentWeapon.value.ammo == 0 then
      ui.(isReloading := true, reloadPending := true)
    else ui
  }

  /** The reload timer firing: the magazine is refilled if a weapon still
      exists, and the reload flag is cleared. */
  function CompleteReload(gs: GameState, ui: Ui): (r: (GameState, Ui))
    ensures !ui.reloadPending ==> r == (gs, ui)
    ensures ui.reloadPending ==>
              && !r.1.isReloading && !r.1.reloadPending
              && (gs.currentWeapon.None? ==> r.0 == gs)
              && (gs.currentWeapon.Some? ==>
                    r.0 == gs.(currentWeapon := Some(gs.currentWeapon.value.(ammo := gs.currentWeapon.value.maxAmmo))))
  {
    if !ui.reloadPending then (gs, ui)
    else
      var gs' := match gs.currentWeapon
                 case None => gs
                 case Some(w) => gs.(currentWeapon := Some(w.(ammo := w.maxAmmo)));
      (gs', ui.(isReloading := false, reloadPending := false))
  }

  /** The T key: an immediate refill with a weapon, alive and not full. */
  function InstantReload(gs: GameState): (gs': GameState)
    ensures gs'.currentWeapon.Some? == gs.currentWeapon.Some?
    ensures gs.currentWeapon.Some? && gs.isAlive && gs.currentWeapon.value.ammo < gs.currentWeapon.value.maxAmmo ==>
              gs' == gs.(currentWeapon := Some(gs.currentWeapon.value.(ammo := gs.currentWeapon.value.maxAmmo)))
    ensures !(gs.currentWeapon.Some? && gs.isAlive && gs.currentWeapon.value.ammo < gs.currentWeapon.value.maxAmmo) ==>
              gs' == gs
  {
    if gs.currentWeapon.Some? && gs.isAlive && gs.currentWeapon.value.ammo < gs.currentWeapon.value.maxAmmo then
      gs.(currentWeapon := Some(gs.currentWeapon.value.(ammo := gs.currentWeapon.value.maxAmmo)))
    else gs
  }

  /** The effect watching the ammunition: a loaded weapon clears the reload flag. */
  function ClearReloadOnAmmo(gs: GameState, ui: Ui): (ui': Ui)
    ensures gs.currentWeapon.Some? && gs.currentWeapon.value.ammo > 0 && ui.isReloading ==>
              ui' == ui.(isReloading := false)
    ensures !(gs.currentWeapon.Some? && gs.currentWeapon.value.ammo > 0 && ui.isReloading) ==> ui' == ui
  {
    if gs.currentWeapon.Some? && gs.currentWeapon.value.ammo > 0 && ui.isReloading then ui.(isReloading := false)
    else ui
  }

  /** A weapon whose ammunition lies in [0, maxAmmo]. */
  predicate AmmoInRange(gs: GameState) {
    gs.currentWeapon.Some? ==> 0 <= gs.currentWeapon.value.ammo <= gs.currentWeapon.value.maxAmmo
  }

  /** Firing and every kind of reload keep the ammunition within [0, maxAmmo]. */
  lemma AmmoStaysInRange(gs: GameState, ui: Ui, centerX: real, centerY: real, len: real, now: int, id: string)
    requires AmmoInRange(gs)
    requires IsLength(len, gs.mousePosition.x - centerX, gs.mousePosition.y - centerY)
    ensures AmmoInRange(Shoot(gs, centerX, centerY, len, now, id))
    ensures AmmoInRange(InstantReload(gs))
    ensures gs.currentWeapon.Some? && gs.currentWeapon.value.maxAmmo >= 0 ==> AmmoInRange(CompleteReload(gs, ui).0)
  {
  }

  /** A manual reload of a partly loaded magazine is cleared at once by the
      ammunition effect, although its timer is still pending; so a second
      reload can start before the first completes. */
  lemma PartialReloadFlagIsShortLived(gs: GameState, ui: Ui)
    requires gs.currentWeapon.Some? && gs.isAlive && !ui.isReloading
    requires 0 < gs.currentWeapon.value.ammo < gs.currentWeapon.value.maxAmmo
    ensures var started := ManualReload(gs, ui);
            var cleared := ClearReloadOnAmmo(gs, started);
            started.isReloading && !cleared.isReloading && cleared.reloadPending
            && ManualReload(gs, cleared).isReloading
  {
  }

  // ---------------------------------------------------------------------------
  // Inventory
  // ---------------------------------------------------------------------------

  /** `getSelectedItem`: the item in the selected slot, if the slot is one of
      the five and holds an item. */
  function SelectedItem(inventory: seq<InventoryItem>, slot: int): (r: Option<InventoryItem>)
    ensures r.Some? <==> 0 <= slot < Constants.InventorySlots && slot < |inventory|
    ensures r.Some? ==> r.value == inventory[slot]
  {
    if slot < 0 || slot >= 5 then None
    else if slot >= |inventory| then None
    else Some(inventory[slot])
  }

  /** The drop guard: alive, and the selected slot holds an item. */
  predicate CanDrop(gs: GameState, slot: int) {
    gs.isAlive && SelectedItem(gs.inventory, slot).Some?
  }

  /** `handleDropItem` (Q key): the selected item leaves the inventory, the
      others keep their order, and a dropped copy appears at the player's
      position, carrying the current weapon's state only for a weapon item. */
  function DropItem(gs: GameState, slot: int, now: int, droppedId: string): (gs': GameState)
    ensures !CanDrop(gs, slot) ==> gs' == gs
    ensures CanDrop(gs, slot) ==>
              var item := gs.inventory[slot];
              && gs'.inventory == gs.inventory[..slot] + gs.inventory[slot + 1..]
              && multiset(gs'.inventory) + multiset{item} == multiset(gs.inventory)
              && gs'.droppedItems == gs.droppedItems +
                   [DroppedItem(droppedId, item, gs.center, now,
                                if item.kind == WeaponItem then gs.currentWeapon else None)]
              && gs' == gs.(inventory := gs'.inventory, droppedItems := gs'.droppedItems)
  {
    if !CanDrop(gs, slot) then gs
    else
      var item := gs.inventory[slot];
      var d := DroppedItem(droppedId, item, gs.center, now,
                           if item.kind == WeaponItem then gs.currentWeapon else None);
      assert gs.inventory == gs.inventory[..slot] + [item] + gs.inventory[slot + 1..];
      gs.(inventory := gs.inventory[..slot] + gs.inventory[slot + 1..], droppedItems := gs.droppedItems + [d])
  }

  /** `handleDropItem` as the Q key actually reaches it. The keyboard listener
      is installed again only when the connection, the current weapon, the
      alive flag or the reload flag change, and the handler it holds is the
      one memoised when the alive flag, the inventory, the position or the
      selected slot last changed before that; `view` and `viewSlot` are the
      game state and the selected slot of that render and `gs` the current
      state. The guard, the dropped item, its position and its weapon state
      come from `view`; the removal splices slot `viewSlot` out of the
      current inventory, and nothing happens when that slot is out of range. */
  function DropItemFromListener(view: GameState, viewSlot: int, gs: GameState, now: int, droppedId: string)
    : (gs': GameState)
    ensures !CanDrop(view, viewSlot) || viewSlot >= |gs.inventory| ==> gs' == gs
    ensures CanDrop(view, viewSlot) && viewSlot < |gs.inventory| ==>
              var item := view.inventory[viewSlot];
              && gs'.inventory == gs.inventory[..viewSlot] + gs.inventory[viewSlot + 1..]
              && multiset(gs'.inventory) + multiset{gs.inventory[viewSlot]} == multiset(gs.inventory)
              && gs'.droppedItems == gs.droppedItems +
                   [DroppedItem(droppedId, item, view.center, now,
                                if item.kind == WeaponItem then view.currentWeapon else None)]
              && gs' == gs.(inventory := gs'.inventory, droppedItems := gs'.droppedItems)
  {
    if !CanDrop(view, viewSlot) || viewSlot >= |gs.inventory| then gs
    else
      var item := view.inventory[viewSlot];
      var d := DroppedItem(droppedId, item, view.center, now,
                           if item.kind == WeaponItem then view.currentWeapon else None);
      assert gs.inventory == gs.inventory[..viewSlot] + [gs.inventory[viewSlot]] + gs.inventory[viewSlot + 1..];
      gs.(inventory := gs.inventory[..viewSlot] + gs.inventory[viewSlot + 1..], droppedItems := gs.droppedItems + [d])
  }

  /** A handler created in the current render is exactly `DropItem`. */
  lemma DropFromFreshListener(gs: GameState, slot: int, now: int, droppedId: string)
    ensures DropItemFromListener(gs, slot, gs, now, droppedId) == DropItem(gs, slot, now, droppedId)
  {
  }

  /** A single item in slot 0 and slot 0 selected; the player presses "2" and
      then "q". The selection is now slot 1, which is empty, but the handler
      still holds slot 0 and drops the item; the intended drop does nothing. */
  lemma StaleSlotExample(gs: GameState)
    requires gs.isAlive && |gs.inventory| == 1
    ensures var r := DropItemFromListener(gs, 0, gs, 9000, "d");
            r.inventory == [] && |r.droppedItems| == |gs.droppedItems| + 1
    ensures DropItem(gs, 1, 9000, "d") == gs
  {
  }

  /** The player has moved from `view.center` to `gs.center` since the handler
      was created: the item is dropped where the player was. */
  lemma StalePositionExample(view: GameState, gs: GameState)
    requires CanDrop(gs, 0) && view == gs.(center := LatLng(0.0, 0.0)) && gs.center != view.center
    ensures DropItemFromListener(view, 0, gs, 9000, "d").droppedItems[|gs.droppedItems|].position == view.center
    ensures DropItem(gs, 0, 9000, "d").droppedItems[|gs.droppedItems|].position == gs.center
  {
  }

  /** Mouse wheel: down selects the next slot, up the previous one, cyclically. */
  function WheelSlot(slot: int, deltaY: real): (s: int)
    requires 0 <= slot < Constants.InventorySlots
    ensures 0 <= s < Constants.InventorySlots
    ensures deltaY > 0.0 ==> (s == slot + 1 || (slot == 4 && s == 0))
    ensures deltaY <= 0.0 ==> (s == slot - 1 || (slot == 0 && s == 4))
  {
    if deltaY > 0.0 then JsRem(slot + 1, 5) else JsRem(slot - 1 + 5, 5)
  }

  /** Scrolling down and then up returns to the same slot. */
  lemma WheelRoundTrip(slot: int)
    requires 0 <= slot < Constants.InventorySlots
    ensures WheelSlot(WheelSlot(slot, 1.0), -1.0) == slot
  {
  }

  /** Digit keys 1 to 5 select slots 0 to 4; other keys select nothing. */
  function DigitSlot(key: char): (r: Option<int>)
    ensures r.Some? <==> '1' <= key <= '5'
    ensures r.Some? ==> 0 <= r.value < Constants.InventorySlots && r.value + 1 == key as int - '0' as int
  {
    if '1' <= key <= '5' then Some(key as int - '1' as int) else None
  }

  // ---------------------------------------------------------------------------
  // Clean-up (every 100 ms)
  // ---------------------------------------------------------------------------

  predicate FreshEffect(now: int, e: HitEffect) { now - e.timestamp < 1000 }

  predicate FreshDrop(now: int, d: DroppedItem) { now - d.timestamp < 60000 }

  /** Hit markers older than a second and dropped items older than a minute
      disappear; the rest stay in order. */
  function Cleanup(gs: GameState, now: int): (gs': GameState)
    ensures Subsequence(gs'.hitEffects, gs.hitEffects) && Subsequence(gs'.droppedItems, gs.droppedItems)
    ensures forall i :: 0 <= i < |gs'.hitEffects| ==> FreshEffect(now, gs'.hitEffects[i])
    ensures forall i :: 0 <= i < |gs.hitEffects| && FreshEffect(now, gs.hitEffects[i]) ==> gs.hitEffects[i] in gs'.hitEffects
    ensures forall i :: 0 <= i < |gs'.droppedItems| ==> FreshDrop(now, gs'.droppedItems[i])
    ensures forall i :: 0 <= i < |gs.droppedItems| && FreshDrop(now, gs.droppedItems[i]) ==> gs.droppedItems[i] in gs'.droppedItems
    ensures forall e :: multiset(gs'.hitEffects)[e] == if FreshEffect(now, e) then multiset(gs.hitEffects)[e] else 0
    ensures forall d :: multiset(gs'.droppedItems)[d] == if FreshDrop(now, d) then multiset(gs.droppedItems)[d] else 0
    ensures gs' == gs.(hitEffects := gs'.hitEffects, droppedItems := gs'.droppedItems)
  {
    FilterCounts(gs.hitEffects, e => FreshEffect(now, e));
    FilterCounts(gs.droppedItems, d => FreshDrop(now, d));
    gs.(hitEffects := Filter(gs.hitEffects, e => FreshEffect(now, e)),
        droppedItems := Filter(gs.droppedItems, d => FreshDrop(now, d)))
  }

  // ---------------------------------------------------------------------------
  // The weapon handed to the player view
  // ---------------------------------------------------------------------------

  /** The pistol's catalogue entry with the given ammunition and shot time. */
  function PistolWith(ammo: int, lastShot: int): (w: Weapon)
    ensures w == Constants.FreshPistol().(ammo := ammo, lastShot := lastShot)
  {
    Weapon("pistol", "Pistola", ammo, 5, 2000, lastShot, 25, 200, 30, Pistol)
  }

  /** `getSelectedWeapon` as written: for a weapon in the selected slot, a
      pistol whose ammunition is `currentWeapon?.ammo || maxAmmo`, so an empty
      magazine (0 is falsy) is reported as a full one. */
  function SelectedWeapon(gs: GameState, slot: int): (r: Option<Weapon>)
    ensures r.Some? <==> SelectedItem(gs.inventory, slot).Some? && SelectedItem(gs.inventory, slot).value.kind == WeaponItem
    ensures r.Some? && gs.currentWeapon.Some? && gs.currentWeapon.value.ammo == 0 ==> r.value.ammo == 5
    ensures r.Some? && gs.currentWeapon.Some? && gs.currentWeapon.value.ammo != 0 ==>
              r.value.ammo == gs.currentWeapon.value.ammo
    ensures r.Some? && gs.currentWeapon.None? ==> r.value.ammo == 5
    ensures r.Some? ==> r.value.ammo != 0
    ensures r.Some? ==> r.value.lastShot == (if gs.currentWeapon.Some? then gs.currentWeapon.value.lastShot else 0)
    ensures r.Some? ==> r.value == Constants.FreshPistol().(ammo := r.value.ammo, lastShot := r.value.lastShot)
  {
    var item := SelectedItem(gs.inventory, slot);
    if item.Some? && item.value.kind == WeaponItem then
      var ammo := if gs.currentWeapon.Some? && gs.currentWeapon.value.ammo != 0 then gs.currentWeapon.value.ammo else 5;
      var last := if gs.currentWeapon.Some? && gs.currentWeapon.value.lastShot != 0 then gs.currentWeapon.value.lastShot else 0;
      Some(PistolWith(ammo, last))
    else None
  }

  /** The corrected `getSelectedWeapon`: `currentWeapon?.ammo ?? maxAmmo`, which
      reports an empty magazine as empty. */
  function SelectedWeaponCorrected(gs: GameState, slot: int): (r: Option<Weapon>)
    ensures r.Some? <==> SelectedItem(gs.inventory, slot).Some? && SelectedItem(gs.inventory, slot).value.kind == WeaponItem
    ensures r.Some? && gs.currentWeapon.Some? ==> r.value.ammo == gs.currentWeapon.value.ammo
    ensures r.Some? && gs.currentWeapon.None? ==> r.value.ammo == 5
    ensures r.Some? ==> r.value.lastShot == (if gs.currentWeapon.Some? then gs.currentWeapon.value.lastShot else 0)
    ensures r.Some? ==> r.value == Constants.FreshPistol().(ammo := r.value.ammo, lastShot := r.value.lastShot)
  {
    var item := SelectedItem(gs.inventory, slot);
    if item.Some? && item.value.kind == WeaponItem then
      var ammo := if gs.currentWeapon.Some? then gs.currentWeapon.value.ammo else 5;
      var last := if gs.currentWeapon.Some? then gs.currentWeapon.value.lastShot else 0;
      Some(PistolWith(ammo, last))
    else None
  }
}
