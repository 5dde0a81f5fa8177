/** The local player view's click handler: it decides whether a click fires
    (and then asks the map to shoot) or starts the view's own reload countdown.
    The clock is the parameter `now`; the countdown's timer is a separate step. */
module PlayerGate {

  import opened Common
  import opened GameTypes

  /** What a click does. */
  datatype Action = Fire | StartReload | Ignore

  /** The click's action and the view's reload flag afterwards. */
  datatype Gate = Gate(action: Action, isReloading: bool)

  /** Ready to fire: loaded, not reloading, and strictly more than the fire
      interval since the last shot. */
  predicate Ready(weapon: Option<Weapon>, isReloading: bool, now: int) {
    && weapon.Some?
    && weapon.value.ammo > 0
    && !isReloading
    && now - weapon.value.lastShot > weapon.value.fireRate
  }

  /** Out of ammunition and not already reloading. */
  predicate Empty(weapon: Option<Weapon>, isReloading: bool) {
    weapon.Some? && weapon.value.ammo == 0 && !isReloading
  }

  /** A click: only the local player's view listens. A ready weapon fires; an
      empty one starts the countdown; anything else is ignored. */
  function Click(isLocal: bool, weapon: Option<Weapon>, isReloading: bool, now: int): (g: Gate)
    ensures g.action == Fire <==> isLocal && Ready(weapon, isReloading, now)
    ensures g.action == StartReload <==> isLocal && Empty(weapon, isReloading)
    ensures g.action == StartReload ==> g.isReloading
    ensures g.action != StartReload ==> g.isReloading == isReloading
  {
    if !isLocal then Gate(Ignore, isReloading)
    else if Ready(weapon, isReloading, now) then Gate(Fire, isReloading)
    else if Empty(weapon, isReloading) then Gate(StartReload, true)
    else Gate(Ignore, isReloading)
  }

  /** A click exactly one fire interval after the last shot does not fire. */
  lemma IntervalIsStrict(w: Weapon, now: int)
    requires w.ammo > 0 && now == w.lastShot + w.fireRate
    ensures Click(true, Some(w), false, now).action == Ignore
  {
  }

  /** While the view's countdown runs, clicks do nothing. */
  lemma ReloadingBlocksClicks(isLocal: bool, weapon: Option<Weapon>, now: int)
    ensures Click(isLocal, weapon, true, now) == Gate(Ignore, true)
  {
  }

  /** An empty weapon starts the countdown once; a second click during it is
      ignored, and after the timer has cleared the view's flag a click starts
      it again. */
  lemma EmptyClickCycle(w: Weapon, now: int)
    requires w.ammo == 0
    ensures var first := Click(true, Some(w), false, now);
            && first == Gate(StartReload, true)
            && Click(true, Some(w), first.isReloading, now).action == Ignore
            && Click(true, Some(w), false, now).action == StartReload
  {
  }
}
