/** The client's socket layer: each server event is merged into the local game
    state by a pure reducer, outgoing moves are throttled, and hit and capture
    reports are packed into request payloads. The client's own connection id is
    the parameter `selfId`; the clock is the parameter `now`. */
module SocketConnection {

  import opened Common
  import opened Text
  import IM = InsertionMap
  import opened GameTypes
  import Constants

  /** A player record as it arrives over the wire. The server sends no health
      fields, so they, the score and the alive flag may be absent. */
  datatype WirePlayer = WirePlayer(
    id: string, name: string, position: LatLng, color: string, score: Option<int>,
    territories: seq<string>, health: Option<int>, maxHealth: Option<int>,
    isAlive: Option<bool>)

  /** `x || d` on a number that may be missing: a missing value or 0 is falsy. */
  function OrDefault(x: Option<int>, d: int): (r: int)
    ensures x.Some? && x.value != 0 ==> r == x.value
    ensures x.None? || x.value == 0 ==> r == d
  {
    if x.Some? && x.value != 0 then x.value else d
  }

  /** `x !== false`: only an explicit `false` counts as dead. */
  function NotFalse(x: Option<bool>): (r: bool)
    ensures !r <==> x == Some(false)
  {
    x != Some(false)
  }

  /** The defaults the client fills in for a received player. */
  function Complete(w: WirePlayer): (p: Player)
    ensures p.id == w.id && p.name == w.name && p.position == w.position && p.color == w.color
    ensures p.territories == w.territories
    ensures p.health == OrDefault(w.health, 100) && p.maxHealth == OrDefault(w.maxHealth, 100)
    ensures p.score == OrDefault(w.score, 0) && p.isAlive == NotFalse(w.isAlive)
  {
    Player(w.id, w.name, w.position, w.color, OrDefault(w.score, 0), w.territories,
           OrDefault(w.health, 100), OrDefault(w.maxHealth, 100), NotFalse(w.isAlive))
  }

  /** A received health of 0 is indistinguishable from a missing one: both
      become full health, and the player counts as alive unless told otherwise. */
  lemma ZeroHealthReadsAsFull(w: WirePlayer)
    requires w.health == Some(0) && w.isAlive != Some(false)
    ensures Complete(w).health == 100 && Complete(w).isAlive
  {
  }

  /** The last roster entry carrying the client's own id, if any. */
  function SelfEntry(roster: seq<WirePlayer>, selfId: string): (e: Option<WirePlayer>)
    ensures e.None? <==> forall i :: 0 <= i < |roster| ==> roster[i].id != selfId
    ensures e.Some? ==> exists i :: 0 <= i < |roster| && roster[i] == e.value && e.value.id == selfId &&
                          forall j :: i < j < |roster| ==> roster[j].id != selfId
    decreases |roster|
  {
    if roster == [] then None
    else if roster[|roster| - 1].id == selfId then Some(roster[|roster| - 1])
    else SelfEntry(roster[..|roster| - 1], selfId)
  }

  /** The ids of a roster, in order. */
  function Ids(roster: seq<WirePlayer>): (ids: seq<string>)
    ensures |ids| == |roster| && forall i :: 0 <= i < |roster| ==> ids[i] == roster[i].id
  {
    seq(|roster|, i requires 0 <= i < |roster| => roster[i].id)
  }

  /** The object built by the `currentPlayers` loop: every roster entry except
      the client itself, completed with defaults, keyed by id; a later entry
      for the same id overwrites an earlier one in its original place. */
  function RosterOthers(roster: seq<WirePlayer>, selfId: string): (m: IM.IMap<Player>)
    ensures IM.Valid(m)
    ensures selfId !in m.items
    ensures forall i :: 0 <= i < |roster| && roster[i].id != selfId ==> roster[i].id in m.items
    ensures forall k :: k in m.items ==> k in Ids(roster)
    decreases |roster|
  {
    if roster == [] then IM.Empty()
    else
      var init := roster[..|roster| - 1];
      var m := RosterOthers(init, selfId);
      var p := roster[|roster| - 1];
      assert Ids(roster) == Ids(init) + [p.id];
      if p.id != selfId then IM.Put(m, p.id, Complete(p)) else m
  }

  /** Each remote player is stored as its last roster entry, completed. */
  lemma {:induction false} RosterLastWins(roster: seq<WirePlayer>, selfId: string, i: nat)
    requires i < |roster| && roster[i].id != selfId
    requires forall j :: i < j < |roster| ==> roster[j].id != roster[i].id
    ensures RosterOthers(roster, selfId).items[roster[i].id] == Complete(roster[i])
    decreases |roster|
  {
    var init := roster[..|roster| - 1];
    var p := roster[|roster| - 1];
    var m := RosterOthers(init, selfId);
    assert RosterOthers(roster, selfId) == if p.id != selfId then IM.Put(m, p.id, Complete(p)) else m;
    if i < |roster| - 1 {
      assert init[i] == roster[i];
      RosterLastWins(init, selfId, i);
    }
  }

  /** With distinct ids, remote players keep the roster's order. */
  lemma {:induction false} RosterOrder(roster: seq<WirePlayer>, selfId: string)
    requires Distinct(Ids(roster))
    ensures RosterOthers(roster, selfId).order == Filter(Ids(roster), IM.Other(selfId))
    decreases |roster|
  {
    if roster != [] {
      var init := roster[..|roster| - 1];
      var p := roster[|roster| - 1];
      IdsSnoc(roster);
      DistinctSnoc(Ids(roster));
      RosterOrder(init, selfId);
      FilterAppend(Ids(init), [p.id], IM.Other(selfId));
      var m := RosterOthers(init, selfId);
      assert p.id !in m.items;
      if p.id != selfId {
        assert Filter([p.id], IM.Other(selfId)) == [p.id];
        assert RosterOthers(roster, selfId) == IM.Put(m, p.id, Complete(p));
      } else {
        assert Filter([p.id], IM.Other(selfId)) == [];
      }
    }
  }

  /** The ids of a non-empty roster: those of all but the last entry, then the last. */
  lemma IdsSnoc(roster: seq<WirePlayer>)
    requires |roster| > 0
    ensures Ids(roster) == Ids(roster[..|roster| - 1]) + [roster[|roster| - 1].id]
  {
  }

  /** `currentPlayers`: the client's own entry (the last one, if several) sets
      its colour, score, health and alive flag; every other entry replaces the
      set of remote players. */
  function ApplyCurrentPlayers(gs: GameState, selfId: string, roster: seq<WirePlayer>): (gs': GameState)
    ensures gs'.otherPlayers == RosterOthers(roster, selfId)
    ensures SelfEntry(roster, selfId).None? ==> gs' == gs.(otherPlayers := gs'.otherPlayers)
    ensures SelfEntry(roster, selfId).Some? ==>
              var me := SelfEntry(roster, selfId).value;
              && gs'.playerColor == me.color
              && gs'.playerScore == OrDefault(me.score, 0)
              && gs'.playerHealth == OrDefault(me.health, 100)
              && gs'.playerMaxHealth == OrDefault(me.maxHealth, 100)
              && gs'.isAlive == NotFalse(me.isAlive)
              && gs' == gs.(otherPlayers := gs'.otherPlayers, playerColor := gs'.playerColor,
                            playerScore := gs'.playerScore, playerHealth := gs'.playerHealth,
                            playerMaxHealth := gs'.playerMaxHealth, isAlive := gs'.isAlive)
  {
    var gs1 :=
      match SelfEntry(roster, selfId)
      case None => gs
      case Some(me) =>
        gs.(playerColor := me.color, playerScore := OrDefault(me.score, 0),
            playerHealth := OrDefault(me.health, 100), playerMaxHealth := OrDefault(me.maxHealth, 100),
            isAlive := NotFalse(me.isAlive));
    gs1.(otherPlayers := RosterOthers(roster, selfId))
  }

  /** `playerJoined`: inserts or overwrites exactly that key. */
  function ApplyPlayerJoined(gs: GameState, w: WirePlayer): (gs': GameState)
    requires IM.Valid(gs.otherPlayers)
    ensures IM.Valid(gs'.otherPlayers)
    ensures gs'.otherPlayers.items == gs.otherPlayers.items[w.id := Complete(w)]
    ensures w.id in gs.otherPlayers.items ==> gs'.otherPlayers.order == gs.otherPlayers.order
    ensures w.id !in gs.otherPlayers.items ==> gs'.otherPlayers.order == gs.otherPlayers.order + [w.id]
    ensures gs' == gs.(otherPlayers := gs'.otherPlayers)
  {
    gs.(otherPlayers := IM.Put(gs.otherPlayers, w.id, Complete(w)))
  }

  /** `playerMoved`: only a known remote player's position changes. */
  function ApplyPlayerMoved(gs: GameState, id: string, position: LatLng): (gs': GameState)
    requires IM.Valid(gs.otherPlayers)
    ensures IM.Valid(gs'.otherPlayers)
    ensures id !in gs.otherPlayers.items ==> gs' == gs
    ensures id in gs.otherPlayers.items ==>
              && gs'.otherPlayers.order == gs.otherPlayers.order
              && gs'.otherPlayers.items.Keys == gs.otherPlayers.items.Keys
              && gs'.otherPlayers.items[id] == gs.otherPlayers.items[id].(position := position)
              && (forall k :: k in gs.otherPlayers.items && k != id ==>
                    gs'.otherPlayers.items[k] == gs.otherPlayers.items[k])
              && gs' == gs.(otherPlayers := gs'.otherPlayers)
  {
    if id in gs.otherPlayers.items then
      var p := gs.otherPlayers.items[id];
      gs.(otherPlayers := IM.Put(gs.otherPlayers, id, p.(position := position)))
    else gs
  }

  /** `playerLeft`: removes exactly that key. */
  function ApplyPlayerLeft(gs: GameState, id: string): (gs': GameState)
    requires IM.Valid(gs.otherPlayers)
    ensures IM.Valid(gs'.otherPlayers)
    ensures gs'.otherPlayers.items == gs.otherPlayers.items - {id}
    ensures Subsequence(gs'.otherPlayers.order, gs.otherPlayers.order)
    ensures gs' == gs.(otherPlayers := gs'.otherPlayers)
  {
    gs.(otherPlayers := IM.Remove(gs.otherPlayers, id))
  }

  /** `health !== undefined ? health > 0 : prior`. */
  function AliveAfter(health: Option<int>, prior: bool): (r: bool)
    ensures health.None? ==> r == prior
    ensures health.Some? ==> (r <==> health.value > 0)
  {
    if health.Some? then health.value > 0 else prior
  }

  /** `playerHit`: a score (and possibly health) update. For the client itself
      the score is set, health kept when absent, and the alive flag follows a
      present health; for a known remote player only that entry changes in the
      same way; an unknown id is ignored. */
  function ApplyPlayerHit(gs: GameState, selfId: string, id: string, score: int, health: Option<int>): (gs': GameState)
    requires IM.Valid(gs.otherPlayers)
    ensures IM.Valid(gs'.otherPlayers)
    ensures id == selfId ==>
              && gs'.playerScore == score
              && gs'.playerHealth == health.GetOr(gs.playerHealth)
              && gs'.isAlive == AliveAfter(health, gs.isAlive)
              && gs' == gs.(playerScore := score, playerHealth := gs'.playerHealth, isAlive := gs'.isAlive)
    ensures id != selfId && id !in gs.otherPlayers.items ==> gs' == gs
    ensures id != selfId && id in gs.otherPlayers.items ==>
              var p := gs.otherPlayers.items[id];
              && gs'.otherPlayers.order == gs.otherPlayers.order
              && gs'.otherPlayers.items ==
                   gs.otherPlayers.items[id := p.(score := score, health := health.GetOr(p.health),
                                                  isAlive := AliveAfter(health, p.isAlive))]
              && gs' == gs.(otherPlayers := gs'.otherPlayers)
  {
    if id == selfId then
      gs.(playerScore := score, playerHealth := health.GetOr(gs.playerHealth),
          isAlive := AliveAfter(health, gs.isAlive))
    else if id in gs.otherPlayers.items then
      var p := gs.otherPlayers.items[id];
      var p' := p.(score := score, health := health.GetOr(p.health), isAlive := AliveAfter(health, p.isAlive));
      gs.(otherPlayers := IM.Put(gs.otherPlayers, id, p'))
    else gs
  }

  /** `territories.map(...)`: the matching territory gets the owner and full progress. */
  function MarkCaptured(ts: seq<Territory>, territoryId: string, ownerId: string): (ts': seq<Territory>)
    ensures |ts'| == |ts|
    ensures forall i :: 0 <= i < |ts| ==>
              ts'[i] == if ts[i].id == territoryId then ts[i].(ownerId := Some(ownerId), captureProgress := 100.0)
                        else ts[i]
  {
    seq(|ts|, i requires 0 <= i < |ts| =>
      if ts[i].id == territoryId then ts[i].(ownerId := Some(ownerId), captureProgress := 100.0) else ts[i])
  }

  /** `find(t => t.id === id)`: the first territory with that id. */
  function FindTerritory(ts: seq<Territory>, territoryId: string): (r: Option<Territory>)
    ensures r.None? <==> forall i :: 0 <= i < |ts| ==> ts[i].id != territoryId
    ensures r.Some? ==> exists i :: 0 <= i < |ts| && ts[i] == r.value && r.value.id == territoryId &&
                          forall j :: 0 <= j < i ==> ts[j].id != territoryId
  {
    if ts == [] then None
    else if ts[0].id == territoryId then Some(ts[0])
    else
      var r := FindTerritory(ts[1..], territoryId);
      assert r.Some? ==> exists i :: 1 <= i < |ts| && ts[i] == r.value && forall j :: 1 <= j < i ==> ts[j].id != territoryId;
      r
  }

  /** The capture marker's id: `capture_` followed by the timestamp. */
  function CaptureEffectId(now: int): string { "capture_" + IntToString(now) }

  /** `territoryCaptured`: every territory with the id gets the owner and full
      progress. When the owner is the client itself its score is set and one
      capture marker is appended, at the territory (or the map centre when the
      territory is unknown); otherwise nothing else changes. */
  function ApplyTerritoryCaptured(gs: GameState, selfId: string, now: int,
                                  territoryId: string, ownerId: string, score: int): (gs': GameState)
    ensures gs'.territories == MarkCaptured(gs.territories, territoryId, ownerId)
    ensures ownerId != selfId ==> gs' == gs.(territories := gs'.territories)
    ensures ownerId == selfId ==>
              && gs'.playerScore == score
              && |gs'.hitEffects| == |gs.hitEffects| + 1
              && gs'.hitEffects[..|gs.hitEffects|] == gs.hitEffects
              && gs' == gs.(territories := gs'.territories, playerScore := score, hitEffects := gs'.hitEffects)
              && (var e := gs'.hitEffects[|gs.hitEffects|];
                  && e.kind == CaptureMark && e.timestamp == now && e.id == CaptureEffectId(now)
                  && e.position == (match FindTerritory(gs.territories, territoryId)
                                    case Some(t) => t.position
                                    case None => gs.center))
  {
    var ts := MarkCaptured(gs.territories, territoryId, ownerId);
    if ownerId == selfId then
      var at := match FindTerritory(gs.territories, territoryId)
                case Some(t) => t.position
                case None => gs.center;
      gs.(territories := ts, playerScore := score,
          hitEffects := gs.hitEffects + [HitEffect(CaptureEffectId(now), at, now, CaptureMark)])
    else gs.(territories := ts)
  }

  /** Replaying a capture leaves the territory list and the score as the first
      delivery left them; a capture by someone else replays to the very same
      state, and one of the player's own only adds another capture mark. */
  lemma CaptureReplayIdempotent(gs: GameState, selfId: string, now: int, later: int,
                                territoryId: string, ownerId: string, score: int)
    ensures var once := ApplyTerritoryCaptured(gs, selfId, now, territoryId, ownerId, score);
            var twice := ApplyTerritoryCaptured(once, selfId, later, territoryId, ownerId, score);
            && twice.territories == once.territories
            && twice.playerScore == once.playerScore
            && (ownerId != selfId ==> twice == once)
            && (ownerId == selfId ==>
                  && |twice.hitEffects| == |once.hitEffects| + 1
                  && twice == once.(hitEffects := twice.hitEffects))
  {
  }

  // ---------------------------------------------------------------------------
  // Outgoing traffic
  // ---------------------------------------------------------------------------

  const MoveThreshold: real := 0.00001

  function Abs(x: real): real { if x < 0.0 then -x else x }

  /** What `emitPlayerMove` does: whether it sends, and the remembered position. */
  datatype MoveDecision = MoveDecision(send: bool, last: Option<LatLng>)

  /** `emitPlayerMove`: while connected, a position is sent when nothing was
      sent before or it differs from the last sent one by more than the
      threshold in latitude or longitude; only a sent position is remembered. */
  function ThrottleMove(connected: bool, last: Option<LatLng>, position: LatLng): (d: MoveDecision)
    ensures d.send ==> connected && d.last == Some(position)
    ensures !d.send ==> d.last == last
    ensures d.send <==> connected && (last.None? ||
                                      Abs(last.value.lat - position.lat) > MoveThreshold ||
                                      Abs(last.value.lng - position.lng) > MoveThreshold)
  {
    if connected && (last.None? || Abs(last.value.lat - position.lat) > MoveThreshold
                                || Abs(last.value.lng - position.lng) > MoveThreshold)
    then MoveDecision(true, Some(position))
    else MoveDecision(false, last)
  }

  /** Sending a position and then offering the same position again sends once. */
  lemma ThrottleSuppressesRepeat(last: Option<LatLng>, position: LatLng)
    ensures var d := ThrottleMove(true, last, position);
            var again := ThrottleMove(true, d.last, position);
            !again.send && again.last == d.last
  {
  }

  /** The `playerHit` request body. */
  datatype HitRequest = HitRequest(targetId: string, projectileId: string)

  /** The `territoryCaptured` request body. */
  datatype CaptureRequest = CaptureRequest(territoryId: string, ownerId: string)

  /** `emitPlayerHit(targetId, projectileId)`: sent only when a socket exists,
      with the fields taken from the arguments by position. */
  function HitPayload(hasSocket: bool, targetId: string, projectileId: string): (r: Option<HitRequest>)
    ensures r.Some? <==> hasSocket
    ensures r.Some? ==> r.value.targetId == targetId && r.value.projectileId == projectileId
  {
    if hasSocket then Some(HitRequest(targetId, projectileId)) else None
  }

  /** `emitTerritoryCaptured(territoryId, ownerId)`. */
  function CapturePayload(hasSocket: bool, territoryId: string, ownerId: string): (r: Option<CaptureRequest>)
    ensures r.Some? <==> hasSocket
    ensures r.Some? ==> r.value.territoryId == territoryId && r.value.ownerId == ownerId
  {
    if hasSocket then Some(CaptureRequest(territoryId, ownerId)) else None
  }

  /** The `join` request body. */
  datatype JoinRequest = JoinRequest(name: string, position: LatLng)

  /** `handleConnect` followed by the socket's `connect` event: the name is
      stored at once; on connection a non-empty socket id becomes the player
      id, the client is marked connected and armed with a loaded pistol; the
      join request always carries the name and the map centre as it was when
      `handleConnect` was called. */
  function OnConnect(gs: GameState, name: string, socketId: string): (r: (GameState, JoinRequest))
    ensures r.1 == JoinRequest(name, gs.center)
    ensures r.0.playerName == name
    ensures socketId == "" ==> r.0 == gs.(playerName := name)
    ensures socketId != "" ==>
              && r.0.playerId == socketId && r.0.isConnected
              && r.0.currentWeapon == Some(Constants.FreshPistol())
              && r.0 == gs.(playerName := name, playerId := socketId, isConnected := true,
                            currentWeapon := r.0.currentWeapon)
  {
    var named := gs.(playerName := name);
    var connected :=
      if socketId != "" then named.(playerId := socketId, isConnected := true, currentWeapon := Some(Constants.FreshPistol()))
      else named;
    (connected, JoinRequest(name, gs.center))
  }
}
