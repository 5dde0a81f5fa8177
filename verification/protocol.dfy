/** How the client's modules and the server fit together: the hit report's
    path from the game loop through the socket layer to the server, the roster
    a joining client receives, and the weapon handed to the click handler. */
module Protocol {

  import opened Common
  import IM = InsertionMap
  import opened GameTypes
  import Server
  import SocketConnection
  import GameLoop
  import MapGame
  import PlayerGate
  import GameUtils
  import Constants

  // ---------------------------------------------------------------------------
  // Hit reports
  // ---------------------------------------------------------------------------

  /** The wiring as written: the loop reports `(projectile id, player id)` to a
      callback that is the socket's `emitPlayerHit(targetId, projectileId)`,
      so the projectile id travels as the target. */
  function HitWiringAsWritten(report: GameLoop.HitReport): (q: SocketConnection.HitRequest)
    ensures q.targetId == report.projectileId && q.projectileId == report.playerId
  {
    SocketConnection.HitPayload(true, report.projectileId, report.playerId).value
  }

  /** The intended wiring: the struck player is the target. */
  function HitWiring(report: GameLoop.HitReport): (q: SocketConnection.HitRequest)
    ensures q.targetId == report.playerId && q.projectileId == report.projectileId
  {
    SocketConnection.HitPayload(true, report.playerId, report.projectileId).value
  }

  /** The server handling a hit request from connection `conn`. */
  function Deliver(r: Server.Registry, conn: string, q: SocketConnection.HitRequest): (s: Server.Step)
    requires IM.Valid(r.players)
    ensures IM.Valid(s.registry.players)
  {
    Server.Hit(r, conn, q.targetId, q.projectileId)
  }

  /** As written, no hit ever scores: a projectile id is never a connection id,
      so the server finds no target and does nothing. */
  lemma AsWrittenHitIgnored(r: Server.Registry, conn: string, report: GameLoop.HitReport)
    requires IM.Valid(r.players)
    requires report.projectileId !in r.players.items
    ensures Deliver(r, conn, HitWiringAsWritten(report)) == Server.Step(r, [])
  {
  }

  /** Two connected players; "a" shoots "b". */
  function Duel(): (r: Server.Registry)
    ensures Server.Consistent(r)
    ensures "a" in r.players.items && "b" in r.players.items
  {
    var a := Server.ServerPlayer("a", "Ana", LatLng(0.0, 0.0), "#111111", 0, []);
    var b := Server.ServerPlayer("b", "Bia", LatLng(0.0, 0.0), "#222222", 20, []);
    Server.Registry(IM.IMap(["a", "b"], map["a" := a, "b" := b]), map[])
  }

  /** The concrete case: "a"'s projectile strikes "b". As written the report
      is dropped; with the intended wiring "a" gains 10 and "b" loses 5. */
  lemma HitWiringExample()
    ensures var report := GameLoop.HitReport("projectile_1", "b");
            && Deliver(Duel(), "a", HitWiringAsWritten(report)) == Server.Step(Duel(), [])
            && Deliver(Duel(), "a", HitWiring(report)).registry.players.items["a"].score == 10
            && Deliver(Duel(), "a", HitWiring(report)).registry.players.items["b"].score == 15
  {
  }

  /** With the intended wiring, a reported hit on another connected player
      scores for the shooter and costs the target, floored at zero. */
  lemma CorrectedHitScores(r: Server.Registry, conn: string, report: GameLoop.HitReport)
    requires IM.Valid(r.players)
    requires conn in r.players.items && report.playerId in r.players.items && report.playerId != conn
    ensures var s := Deliver(r, conn, HitWiring(report));
            && s.registry.players.items[conn].score == r.players.items[conn].score + 10
            && s.registry.players.items[report.playerId].score == Max(0, r.players.items[report.playerId].score - 5)
  {
  }

  // ---------------------------------------------------------------------------
  // The roster sent to a joining client
  // ---------------------------------------------------------------------------

  /** A server record as serialised: no health fields and no alive flag. */
  function ToWire(p: Server.ServerPlayer): (w: SocketConnection.WirePlayer)
    ensures w.id == p.id && w.score == Some(p.score)
    ensures w.health.None? && w.maxHealth.None? && w.isAlive.None?
  {
    SocketConnection.WirePlayer(p.id, p.name, p.position, p.color, Some(p.score), p.territories, None, None, None)
  }

  /** The roster a client reads from a `currentPlayers` event. */
  function Wire(roster: seq<Server.ServerPlayer>): (ws: seq<SocketConnection.WirePlayer>)
    ensures |ws| == |roster|
    ensures forall i :: 0 <= i < |roster| ==> ws[i] == ToWire(roster[i])
  {
    seq(|roster|, i requires 0 <= i < |roster| => ToWire(roster[i]))
  }

  /** Every player reaches the client at full health and alive, with the
      server's score, position and territories. */
  lemma WireKeepsPlayer(p: Server.ServerPlayer)
    ensures var c := SocketConnection.Complete(ToWire(p));
            && c.id == p.id && c.position == p.position && c.territories == p.territories
            && c.score == p.score && c.health == 100 && c.maxHealth == 100 && c.isAlive
  {
  }

  /** A client joining a consistent server under a fresh connection id learns
      exactly the players already connected, each as the server holds it, and
      its own entry resets it to full health and a score of 0. */
  lemma JoinRoster(r: Server.Registry, conn: string, name: string, position: LatLng, color: string, gs: GameState)
    requires Server.Consistent(r) && conn !in r.players.items && conn != ""
    ensures var s := Server.Join(r, conn, name, position, color);
            var gs' := SocketConnection.ApplyCurrentPlayers(gs, conn, Wire(s.out[0].message.roster));
            && gs'.otherPlayers.items.Keys == r.players.items.Keys
            && (forall k :: k in r.players.items ==>
                  gs'.otherPlayers.items[k] == SocketConnection.Complete(ToWire(r.players.items[k])))
            && gs'.playerScore == 0 && gs'.playerHealth == 100 && gs'.isAlive
  {
    var s := Server.Join(r, conn, name, position, color);
    var players := s.registry.players;
    var ws := Wire(s.out[0].message.roster);
    Server.JoinKeyed(r, conn, name, position, color);
    RosterOfRegistry(players, conn, ws);
    SelfIsLast(players, conn, ws);
    AddThenRemove(r.players.items.Keys, conn);
    var gs' := SocketConnection.ApplyCurrentPlayers(gs, conn, ws);
    forall k | k in r.players.items
      ensures gs'.otherPlayers.items[k] == SocketConnection.Complete(ToWire(r.players.items[k]))
    {
      assert players.items[k] == r.players.items[k];
    }
  }

  /** Connecting and joining: the client adopts the socket id as its player id
      and sends its name and current centre; the server, receiving that join
      on the same connection, stores the player under that id with that name
      and position, and another client applying the broadcast sees it there,
      enumerated last when it is new to that client. */
  lemma ConnectThenJoin(gs: GameState, name: string, socketId: string, r: Server.Registry, color: string, other: GameState)
    requires socketId != "" && IM.Valid(r.players) && IM.Valid(other.otherPlayers)
    ensures var c := SocketConnection.OnConnect(gs, name, socketId);
            var s := Server.Join(r, c.0.playerId, c.1.name, c.1.position, color);
            var seen := SocketConnection.ApplyPlayerJoined(other, ToWire(s.out[1].message.player));
            && c.0.playerId in s.registry.players.items
            && s.registry.players.items[c.0.playerId].name == c.0.playerName == name
            && s.registry.players.items[c.0.playerId].position == gs.center
            && socketId in seen.otherPlayers.items
            && seen.otherPlayers.items[socketId].name == name
            && seen.otherPlayers.items[socketId].position == gs.center
            && (socketId !in other.otherPlayers.items ==>
                  seen.otherPlayers.order == other.otherPlayers.order + [socketId])
  {
  }

  /** The client's view of a roster serialised from a keyed player table:
      everybody but itself, each as the table holds it. */
  lemma RosterOfRegistry(players: IM.IMap<Server.ServerPlayer>, conn: string, ws: seq<SocketConnection.WirePlayer>)
    requires IM.Valid(players)
    requires forall k :: k in players.items ==> players.items[k].id == k
    requires ws == Wire(IM.Values(players))
    ensures var m := SocketConnection.RosterOthers(ws, conn);
            && m.items.Keys == players.items.Keys - {conn}
            && forall k :: k in m.items ==> m.items[k] == SocketConnection.Complete(ToWire(players.items[k]))
  {
    WireIds(players, ws);
    var m := SocketConnection.RosterOthers(ws, conn);
    forall k | k in players.items && k != conn
      ensures k in m.items && m.items[k] == SocketConnection.Complete(ToWire(players.items[k]))
    {
      var i := IndexOf(players.order, k);
      assert ws[i] == ToWire(players.items[k]);
      SocketConnection.RosterLastWins(ws, conn, i);
    }
    forall k | k in m.items ensures k in players.items {
      assert k in SocketConnection.Ids(ws);
    }
  }

  lemma AddThenRemove(keys: set<string>, k: string)
    requires k !in keys
    ensures keys + {k} - {k} == keys
  {
  }

  /** The position of a key in a duplicate-free order. */
  function IndexOf(order: seq<string>, k: string): (i: nat)
    requires k in order
    ensures i < |order| && order[i] == k
  {
    if order[0] == k then 0 else 1 + IndexOf(order[1..], k)
  }

  /** The wire roster's ids are the server's keys in order, and distinct. */
  lemma WireIds(players: IM.IMap<Server.ServerPlayer>, ws: seq<SocketConnection.WirePlayer>)
    requires IM.Valid(players)
    requires forall k :: k in players.items ==> players.items[k].id == k
    requires ws == Wire(IM.Values(players))
    ensures SocketConnection.Ids(ws) == players.order
    ensures Distinct(SocketConnection.Ids(ws))
    ensures forall i, j :: 0 <= i < j < |ws| ==> ws[i].id != ws[j].id
  {
    var ids := SocketConnection.Ids(ws);
    assert |ids| == |players.order|;
    forall i | 0 <= i < |ids| ensures ids[i] == players.order[i] {
      assert ws[i] == ToWire(players.items[players.order[i]]);
    }
  }

  /** After a fresh join the joiner's record is the roster's last entry and
      its only one with that id. */
  lemma SelfIsLast(players: IM.IMap<Server.ServerPlayer>, conn: string, ws: seq<SocketConnection.WirePlayer>)
    requires IM.Valid(players)
    requires forall k :: k in players.items ==> players.items[k].id == k
    requires ws == Wire(IM.Values(players))
    requires |players.order| > 0 && players.order[|players.order| - 1] == conn
    ensures SocketConnection.SelfEntry(ws, conn) == Some(ToWire(players.items[conn]))
  {
    WireIds(players, ws);
  }

  // ---------------------------------------------------------------------------
  // The weapon handed to the click handler
  // ---------------------------------------------------------------------------

  /** As written, an empty magazine is reported full, so a click with an empty
      gun never starts the view's reload countdown; if it passes the gate, the
      map refuses the shot. Either way nothing happens. */
  lemma EmptyClickDoesNothing(gs: GameState, slot: int, reloading: bool, now: int,
                              centerX: real, centerY: real, len: real, id: string)
    requires gs.currentWeapon.Some? && gs.currentWeapon.value.ammo == 0
    requires MapGame.SelectedWeapon(gs, slot).Some?
    requires GameUtils.IsLength(len, gs.mousePosition.x - centerX, gs.mousePosition.y - centerY)
    ensures var g := PlayerGate.Click(true, MapGame.SelectedWeapon(gs, slot), reloading, now);
            && g.action != PlayerGate.StartReload
            && g.isReloading == reloading
            && MapGame.Shoot(gs, centerX, centerY, len, now, id) == gs
  {
  }

  /** With the corrected weapon, a click with an empty gun starts the countdown. */
  lemma EmptyClickReloadsCorrected(gs: GameState, slot: int, now: int)
    requires gs.currentWeapon.Some? && gs.currentWeapon.value.ammo == 0
    requires MapGame.SelectedWeaponCorrected(gs, slot).Some?
    ensures PlayerGate.Click(true, MapGame.SelectedWeaponCorrected(gs, slot), false, now)
              == PlayerGate.Gate(PlayerGate.StartReload, true)
  {
  }

  /** A concrete state showing the difference: an empty pistol in slot 0. */
  lemma EmptyClickExample(gs: GameState)
    requires gs.currentWeapon == Some(Constants.FreshPistol().(ammo := 0, lastShot := 1000))
    requires |gs.inventory| == 1 && gs.inventory[0].kind == WeaponItem
    ensures PlayerGate.Click(true, MapGame.SelectedWeapon(gs, 0), false, 5000).action == PlayerGate.Fire
    ensures PlayerGate.Click(true, MapGame.SelectedWeaponCorrected(gs, 0), false, 5000).action == PlayerGate.StartReload
  {
  }
}
