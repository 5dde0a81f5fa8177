/** The record shapes shared by the client: players, projectiles, weapons,
    territories, visual effects, inventory items and the whole client state. */
module GameTypes {

  import opened Common
  import InsertionMap

  datatype WeaponKind = Pistol | Rifle | Sniper | Shotgun

  /** A weapon; `lastShot` is a millisecond timestamp, 0 before the first shot. */
  datatype Weapon = Weapon(
    id: string, name: string, ammo: int, maxAmmo: int, reloadTime: int,
    lastShot: int, damage: int, fireRate: int, range: int, kind: WeaponKind)

  /** A participant as the client keeps it (the local player or a remote one). */
  datatype Player = Player(
    id: string, name: string, position: LatLng, color: string, score: int,
    territories: seq<string>, health: int, maxHealth: int, isAlive: bool)

  /** A client-side projectile; `direction` is in screen axes (y grows downwards). */
  datatype Projectile = Projectile(
    id: string, position: LatLng, direction: Vec, distanceTraveled: real,
    maxDistance: real, speed: real, timestamp: int, ownerId: string, damage: int)

  /** A capturable area; `captureProgress` runs from 0 to 100. */
  datatype Territory = Territory(
    id: string, position: LatLng, radius: real, ownerId: Option<string>,
    captureProgress: real, color: string, captureTime: real)

  datatype EffectKind = HitMark | CaptureMark | DeathMark

  /** A short-lived visual marker. */
  datatype HitEffect = HitEffect(id: string, position: LatLng, timestamp: int, kind: EffectKind)

  datatype ItemKind = WeaponItem | HealthItem | AmmoItem | PowerupItem

  datatype InventoryItem = InventoryItem(
    id: string, name: string, kind: ItemKind, quantity: int, maxQuantity: int,
    icon: string, description: string)

  /** An item lying on the map, with the weapon state it was dropped with. */
  datatype DroppedItem = DroppedItem(
    id: string, item: InventoryItem, position: LatLng, timestamp: int, weaponData: Option<Weapon>)

  /** The client's game state; `otherPlayers` is a plain object keyed by player id. */
  datatype GameState = GameState(
    isConnected: bool, playerName: string, playerColor: string, playerScore: int,
    playerId: string, playerHealth: int, playerMaxHealth: int, isAlive: bool,
    center: LatLng, otherPlayers: InsertionMap.IMap<Player>, projectiles: seq<Projectile>,
    territories: seq<Territory>, hitEffects: seq<HitEffect>, droppedItems: seq<DroppedItem>,
    inventory: seq<InventoryItem>, currentWeapon: Option<Weapon>, mousePosition: Vec)
}
