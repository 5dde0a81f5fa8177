/** Gameplay constants (speeds in metres per second, times in milliseconds). */
module Constants {

  import opened Common
  import opened GameTypes

  const PlayerSpeed: real := 120.0
  const ProjectileSpeed: real := 300.0
  /** Declared beside the others; the shot path uses three seconds of flight instead. */
  const ProjectileMaxDistance: real := 30.0
  const WeaponReloadTime: int := 2000
  const InitialAmmo: int := 5
  const TerritoryRadius: real := 50.0
  const TerritoryCaptureTime: real := 5000.0
  const PlayerHitRadius: real := 2.0
  const PlayerMaxHealth: int := 100
  const PlayerRespawnTime: int := 3000
  const InventorySlots: int := 5

  const TerritoryColors: seq<string> :=
    ["#FF6B6B", "#4ECDC4", "#45B7D1", "#96CEB4", "#FFEAA7", "#DDA0DD", "#98D8C8", "#F7DC6F"]

  const FallbackStartPosition: LatLng := LatLng(-23.55052, -46.633308)

  /** The pistol's catalogue entry, loaded and never fired. */
  function FreshPistol(): (w: Weapon)
    ensures w.kind == Pistol && w.ammo == w.maxAmmo == 5 && w.lastShot == 0
    ensures w.reloadTime == 2000 && w.damage == 25 && w.fireRate == 200 && w.range == 30
  {
    Weapon("pistol", "Pistola", 5, 5, 2000, 0, 25, 200, 30, Pistol)
  }
}
