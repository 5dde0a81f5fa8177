/** The multiplayer server's session registry: players keyed by connection id,
    territories keyed by territory id, and the five socket events that change
    them. Each handler is a pure step from the registry to a new registry plus
    the messages it broadcasts. */
module Server {

  import opened Common
  import IM = InsertionMap

  /** A connected player as the server stores it. */
  datatype ServerPlayer = ServerPlayer(
    id: string, name: string, position: LatLng, color: string, score: int,
    territories: seq<string>)

  /** A territory as the server stores it; `ownerId` is `null` when free. */
  datatype ServerTerritory = ServerTerritory(
    id: string, position: LatLng, ownerId: Option<string>, color: string,
    captureProgress: int)

  /** The two maps the server keeps. Player order is observable (the roster is
      sent in insertion order); territory order never is. */
  datatype Registry = Registry(
    players: IM.IMap<ServerPlayer>, territories: map<string, ServerTerritory>)

  /** Who receives a message: the emitting socket, every other socket, or all. */
  datatype Audience = Sender | Others | Everyone

  datatype Message =
    | CurrentPlayers(roster: seq<ServerPlayer>)
    | PlayerJoined(player: ServerPlayer)
    | PlayerMoved(id: string, position: LatLng)
    | PlayerHit(id: string, score: int)
    | TerritoryCaptured(territoryId: string, ownerId: string, score: int)
    | PlayerLeft(id: string)

  datatype Outbound = Outbound(to: Audience, message: Message)

  /** The registry after an event, and what the event broadcast. */
  datatype Step = Step(registry: Registry, out: seq<Outbound>)

  const BasePosition: LatLng := LatLng(-23.55052, -46.633308)

  function Free(id: string, position: LatLng, color: string): ServerTerritory {
    ServerTerritory(id, position, None, color, 0)
  }

  /** The registry at start-up: three free territories around the base position
      and nobody connected. */
  function InitialRegistry(): (r: Registry)
    ensures r.players.items == map[] && IM.Valid(r.players)
    ensures r.territories.Keys == {"territory_1", "territory_2", "territory_3"}
    ensures |r.territories| == 3
    ensures forall t :: t in r.territories ==>
              r.territories[t].ownerId == None && r.territories[t].captureProgress == 0
    ensures Consistent(r)
  {
    var t1 := Free("territory_1", LatLng(BasePosition.lat + 0.0001, BasePosition.lng + 0.0001), "#FF6B6B");
    var t2 := Free("territory_2", LatLng(BasePosition.lat - 0.0001, BasePosition.lng - 0.0001), "#4ECDC4");
    var t3 := Free("territory_3", LatLng(BasePosition.lat + 0.0001, BasePosition.lng - 0.0001), "#45B7D1");
    var ts := map["territory_1" := t1, "territory_2" := t2, "territory_3" := t3];
    assert ts.Keys == {"territory_1", "territory_2", "territory_3"};
    Registry(IM.Empty(), ts)
  }

  // ---------------------------------------------------------------------------
  // Invariants
  // ---------------------------------------------------------------------------

  /** Every player is stored under its own, non-empty connection id. */
  predicate PlayersKeyed(r: Registry) {
    forall k :: k in r.players.items ==> k != "" && r.players.items[k].id == k
  }

  predicate ScoresNonNegative(r: Registry) {
    forall k :: k in r.players.items ==> r.players.items[k].score >= 0
  }

  /** Each territory list names existing territories, each at most once. */
  predicate ListsWellFormed(r: Registry) {
    forall k :: k in r.players.items ==>
      && Distinct(r.players.items[k].territories)
      && (forall t :: t in r.players.items[k].territories ==> t in r.territories)
  }

  /** An owned territory is owned by a connected player. */
  predicate OwnersConnected(r: Registry) {
    forall t :: t in r.territories && r.territories[t].ownerId.Some? ==>
      r.territories[t].ownerId.value in r.players.items
  }

  /** A territory names a player as owner exactly when that player lists it. */
  predicate OwnershipAgrees(r: Registry) {
    forall t, k :: t in r.territories && k in r.players.items ==>
      (r.territories[t].ownerId == Some(k) <==> t in r.players.items[k].territories)
  }

  /** An owned territory is fully captured; a free one has no progress. */
  predicate ProgressAgrees(r: Registry) {
    forall t :: t in r.territories ==>
      r.territories[t].captureProgress == (if r.territories[t].ownerId.Some? then 100 else 0)
  }

  predicate Consistent(r: Registry) {
    && IM.Valid(r.players)
    && PlayersKeyed(r)
    && ScoresNonNegative(r)
    && ListsWellFormed(r)
    && OwnersConnected(r)
    && OwnershipAgrees(r)
    && ProgressAgrees(r)
  }

  // ---------------------------------------------------------------------------
  // Handlers
  // ---------------------------------------------------------------------------

  /** `join`: stores a fresh player under the connection id (overwriting an
      earlier entry for the same id), sends the whole roster back to the joiner
      and announces the new player to everybody else. The colour is random in
      the server and is a parameter here. */
  function Join(r: Registry, conn: string, name: string, position: LatLng, color: string): (s: Step)
    requires IM.Valid(r.players)
    ensures IM.Valid(s.registry.players)
    ensures conn in s.registry.players.items
    ensures var p := s.registry.players.items[conn];
            p.id == conn && p.name == name && p.position == position && p.score == 0 && p.territories == []
    ensures s.registry.players.items.Keys == r.players.items.Keys + {conn}
    ensures forall k :: k in r.players.items && k != conn ==> s.registry.players.items[k] == r.players.items[k]
    ensures s.registry.territories == r.territories
    ensures conn in r.players.items ==> s.registry.players.order == r.players.order
    ensures conn !in r.players.items ==> s.registry.players.order == r.players.order + [conn]
    ensures |s.out| == 2 && s.out[0].to == Sender && s.out[1].to == Others
    ensures s.out[0].message == CurrentPlayers(IM.Values(s.registry.players))
    ensures s.out[1].message == PlayerJoined(s.registry.players.items[conn])
  {
    var player := ServerPlayer(conn, name, position, color, 0, []);
    var players := IM.Put(r.players, conn, player);
    Step(Registry(players, r.territories),
         [Outbound(Sender, CurrentPlayers(IM.Values(players))), Outbound(Others, PlayerJoined(player))])
  }

  /** `playerMove`: a connected player's position is replaced and relayed to the
      others; a move from an unknown connection changes and sends nothing. */
  function Move(r: Registry, conn: string, position: LatLng): (s: Step)
    requires IM.Valid(r.players)
    ensures IM.Valid(s.registry.players)
    ensures conn !in r.players.items ==> s == Step(r, [])
    ensures conn in r.players.items ==>
              && s.registry.players.order == r.players.order
              && s.registry.players.items.Keys == r.players.items.Keys
              && s.registry.players.items[conn] == r.players.items[conn].(position := position)
              && (forall k :: k in r.players.items && k != conn ==>
                    s.registry.players.items[k] == r.players.items[k])
              && s.registry.territories == r.territories
              && s.out == [Outbound(Others, PlayerMoved(conn, position))]
  {
    if conn in r.players.items then
      var p := r.players.items[conn];
      Step(r.(players := IM.Put(r.players, conn, p.(position := position))),
           [Outbound(Others, PlayerMoved(conn, position))])
    else Step(r, [])
  }

  /** The guard of `playerHit`: both ends connected and no self-hit. */
  predicate HitApplies(r: Registry, conn: string, targetId: string) {
    conn in r.players.items && targetId in r.players.items && targetId != conn
  }

  /** `playerHit`: the attacker gains 10 points and the target loses 5, never
      going below zero; both new scores are broadcast. The projectile id is
      carried by the event but not used. */
  function Hit(r: Registry, conn: string, targetId: string, projectileId: string): (s: Step)
    requires IM.Valid(r.players)
    ensures IM.Valid(s.registry.players)
    ensures !HitApplies(r, conn, targetId) ==> s == Step(r, [])
    ensures HitApplies(r, conn, targetId) ==>
              var a := r.players.items[conn];
              var t := r.players.items[targetId];
              && s.registry.players.order == r.players.order
              && s.registry.players.items.Keys == r.players.items.Keys
              && s.registry.players.items[conn] == a.(score := a.score + 10)
              && s.registry.players.items[targetId] == t.(score := Max(0, t.score - 5))
              && (forall k :: k in r.players.items && k != conn && k != targetId ==>
                    s.registry.players.items[k] == r.players.items[k])
              && s.registry.territories == r.territories
              && s.out == [Outbound(Everyone, PlayerHit(conn, a.score + 10)),
                           Outbound(Everyone, PlayerHit(targetId, Max(0, t.score - 5)))]
  {
    if HitApplies(r, conn, targetId) then
      var a := r.players.items[conn];
      var t := r.players.items[targetId];
      var a' := a.(score := a.score + 10);
      var t' := t.(score := Max(0, t.score - 5));
      var players := IM.Put(IM.Put(r.players, conn, a'), targetId, t');
      Step(r.(players := players),
           [Outbound(Everyone, PlayerHit(conn, a'.score)), Outbound(Everyone, PlayerHit(targetId, t'.score))])
    else Step(r, [])
  }

  /** `filter(t => t !== id)` on a territory list. */
  function Without(s: seq<string>, x: string): (r: seq<string>)
    ensures forall y :: y in r <==> y in s && y != x
    ensures Subsequence(r, s)
    ensures forall y :: multiset(r)[y] == if y != x then multiset(s)[y] else 0
    ensures Distinct(s) ==> Distinct(r)
  {
    var r := Filter(s, y => y != x);
    FilterCounts(s, y => y != x);
    if Distinct(s) then IM.FilterDistinct(s, r); r else r
  }

  /** The ownerId truthiness test: a present, non-empty id. */
  predicate Truthy(o: Option<string>) { o.Some? && o.value != "" }

  /** The state just after the previous owner (when still connected) has lost
      the territory and 20 points, with the broadcasts that step produced. */
  function ReleasePrevious(r: Registry, territoryId: string): (s: Step)
    requires IM.Valid(r.players) && territoryId in r.territories
    ensures IM.Valid(s.registry.players)
    ensures s.registry.territories == r.territories
    ensures s.registry.players.items.Keys == r.players.items.Keys
    ensures s.registry.players.order == r.players.order
    ensures var o := r.territories[territoryId].ownerId;
            if Truthy(o) && o.value in r.players.items then
              var prev := r.players.items[o.value];
              && s.registry.players.items[o.value] ==
                   prev.(territories := Without(prev.territories, territoryId), score := Max(0, prev.score - 20))
              && (forall k :: k in r.players.items && k != o.value ==>
                    s.registry.players.items[k] == r.players.items[k])
              && s.out == [Outbound(Everyone, PlayerHit(o.value, Max(0, prev.score - 20)))]
            else s == Step(r, [])
  {
    var o := r.territories[territoryId].ownerId;
    if Truthy(o) && o.value in r.players.items then
      var prev := r.players.items[o.value];
      var prev' := prev.(territories := Without(prev.territories, territoryId), score := Max(0, prev.score - 20));
      Step(r.(players := IM.Put(r.players, o.value, prev')),
           [Outbound(Everyone, PlayerHit(o.value, prev'.score))])
    else Step(r, [])
  }

  /** The guard of `territoryCaptured`: a connected claimant and a known territory. */
  predicate CaptureApplies(r: Registry, territoryId: string, ownerId: string) {
    ownerId in r.players.items && territoryId in r.territories
  }

  /** `territoryCaptured`: the previous owner (if still connected) loses the
      territory and 20 points; the territory passes to the claimant at full
      progress; the claimant lists it (once) and gains 50 points. The claimant
      record is read after the previous owner was updated, so when the claimant
      already owned the territory it first loses 20 and then gains 50. */
  function Capture(r: Registry, territoryId: string, ownerId: string): (s: Step)
    requires IM.Valid(r.players)
    ensures IM.Valid(s.registry.players)
    ensures !CaptureApplies(r, territoryId, ownerId) ==> s == Step(r, [])
    ensures CaptureApplies(r, territoryId, ownerId) ==>
              && s.registry.players.items.Keys == r.players.items.Keys
              && s.registry.players.order == r.players.order
              && s.registry.territories ==
                   r.territories[territoryId := r.territories[territoryId].(ownerId := Some(ownerId), captureProgress := 100)]
              && territoryId in s.registry.players.items[ownerId].territories
              && (var s1 := ReleasePrevious(r, territoryId);
                  && s.registry.players.items[ownerId].score == s1.registry.players.items[ownerId].score + 50
                  && (forall k :: k in r.players.items && k != ownerId ==>
                        s.registry.players.items[k] == s1.registry.players.items[k]))
              && |s.out| >= 1
              && s.out[|s.out| - 1] == Outbound(Everyone,
                   TerritoryCaptured(territoryId, ownerId, s.registry.players.items[ownerId].score))
              && s.out[..|s.out| - 1] == ReleasePrevious(r, territoryId).out
  {
    if CaptureApplies(r, territoryId, ownerId) then
      var s1 := ReleasePrevious(r, territoryId);
      var t := r.territories[territoryId];
      var p := s1.registry.players.items[ownerId];
      var list := if territoryId in p.territories then p.territories else p.territories + [territoryId];
      var p' := p.(territories := list, score := p.score + 50);
      Step(Registry(IM.Put(s1.registry.players, ownerId, p'),
                    r.territories[territoryId := t.(ownerId := Some(ownerId), captureProgress := 100)]),
           s1.out + [Outbound(Everyone, TerritoryCaptured(territoryId, ownerId, p'.score))])
    else Step(r, [])
  }

  /** `forEach` over a player's list: each listed territory that exists becomes
      free with no progress; no other territory changes. */
  function Release(ts: map<string, ServerTerritory>, ids: seq<string>): (ts': map<string, ServerTerritory>)
    ensures ts'.Keys == ts.Keys
    ensures forall t :: t in ts && t in ids ==> ts'[t] == ts[t].(ownerId := None, captureProgress := 0)
    ensures forall t :: t in ts && t !in ids ==> ts'[t] == ts[t]
    decreases |ids|
  {
    if ids == [] then ts
    else
      var ts1 := if ids[0] in ts then ts[ids[0] := ts[ids[0]].(ownerId := None, captureProgress := 0)] else ts;
      var rest := Release(ts1, ids[1..]);
      assert forall t :: t in ids <==> t == ids[0] || t in ids[1..];
      rest
  }

  /** `disconnect`: frees the leaving player's territories, forgets the player
      and tells everyone; an unknown connection changes and sends nothing. */
  function Disconnect(r: Registry, conn: string): (s: Step)
    requires IM.Valid(r.players)
    ensures IM.Valid(s.registry.players)
    ensures conn !in r.players.items ==> s == Step(r, [])
    ensures conn in r.players.items ==>
              var listed := r.players.items[conn].territories;
              && s.registry.players.items == r.players.items - {conn}
              && s.registry.players.order == Common.Filter(r.players.order, IM.Other(conn))
              && s.registry.territories.Keys == r.territories.Keys
              && (forall t :: t in r.territories && t in listed ==>
                    s.registry.territories[t] == r.territories[t].(ownerId := None, captureProgress := 0))
              && (forall t :: t in r.territories && t !in listed ==>
                    s.registry.territories[t] == r.territories[t])
              && s.out == [Outbound(Everyone, PlayerLeft(conn))]
  {
    if conn in r.players.items then
      var p := r.players.items[conn];
      Step(Registry(IM.Remove(r.players, conn), Release(r.territories, p.territories)),
           [Outbound(Everyone, PlayerLeft(conn))])
    else Step(r, [])
  }

  // ---------------------------------------------------------------------------
  // Properties
  // ---------------------------------------------------------------------------

  /** A fresh connection joining keeps the registry consistent. */
  lemma JoinPreserves(r: Registry, conn: string, name: string, position: LatLng, color: string)
    requires Consistent(r) && conn !in r.players.items && conn != ""
    ensures Consistent(Join(r, conn, name, position, color).registry)
  {
    var r2 := Join(r, conn, name, position, color).registry;
    AddPlayerKeepsLists(r, r2, conn);
    AddPlayerKeepsOwnership(r, r2, conn);
  }

  /** A new player with an empty list keeps every list-side invariant. */
  lemma AddPlayerKeepsLists(r: Registry, r2: Registry, conn: string)
    requires Consistent(r) && conn !in r.players.items && conn != ""
    requires r2.territories == r.territories
    requires r2.players.items.Keys == r.players.items.Keys + {conn}
    requires forall k :: k in r.players.items ==> r2.players.items[k] == r.players.items[k]
    requires var p := r2.players.items[conn]; p.id == conn && p.score == 0 && p.territories == []
    ensures PlayersKeyed(r2) && ScoresNonNegative(r2) && ListsWellFormed(r2)
  {
  }

  /** A new player with an empty list keeps every ownership invariant. */
  lemma AddPlayerKeepsOwnership(r: Registry, r2: Registry, conn: string)
    requires Consistent(r) && conn !in r.players.items
    requires r2.territories == r.territories
    requires r2.players.items.Keys == r.players.items.Keys + {conn}
    requires forall k :: k in r.players.items ==> r2.players.items[k] == r.players.items[k]
    requires r2.players.items[conn].territories == []
    ensures OwnersConnected(r2) && OwnershipAgrees(r2) && ProgressAgrees(r2)
  {
    forall t, k | t in r2.territories && k in r2.players.items
      ensures r2.territories[t].ownerId == Some(k) <==> t in r2.players.items[k].territories
    {
      if k == conn {
        assert r.territories[t].ownerId != Some(conn);
      }
    }
  }

  /** After a fresh join every player is stored under its own id, the joiner last. */
  lemma JoinKeyed(r: Registry, conn: string, name: string, position: LatLng, color: string)
    requires IM.Valid(r.players) && PlayersKeyed(r) && conn !in r.players.items
    ensures var players := Join(r, conn, name, position, color).registry.players;
            && IM.Valid(players)
            && (forall k :: k in players.items ==> players.items[k].id == k)
            && |players.order| > 0 && players.order[|players.order| - 1] == conn
  {
    var players := Join(r, conn, name, position, color).registry.players;
    assert players == IM.Put(r.players, conn, ServerPlayer(conn, name, position, color, 0, []));
  }

  lemma MovePreserves(r: Registry, conn: string, position: LatLng)
    requires Consistent(r)
    ensures Consistent(Move(r, conn, position).registry)
  {
    SameListsPreserves(r, Move(r, conn, position).registry);
  }

  /** Hits keep every score non-negative and touch nothing else that matters. */
  lemma HitPreserves(r: Registry, conn: string, targetId: string, projectileId: string)
    requires Consistent(r)
    ensures Consistent(Hit(r, conn, targetId, projectileId).registry)
  {
    SameListsPreserves(r, Hit(r, conn, targetId, projectileId).registry);
  }

  /** Changing positions or non-negative scores, and nothing else, keeps the
      registry consistent. */
  lemma SameListsPreserves(r: Registry, r2: Registry)
    requires Consistent(r) && IM.Valid(r2.players)
    requires r2.territories == r.territories
    requires r2.players.items.Keys == r.players.items.Keys
    requires forall k :: k in r.players.items ==>
               && r2.players.items[k].id == r.players.items[k].id
               && r2.players.items[k].territories == r.players.items[k].territories
    requires ScoresNonNegative(r2)
    ensures Consistent(r2)
  {
  }

  /** Dealing with the previous owner keeps ids, scores and lists well formed. */
  lemma ReleasePreviousLists(r: Registry, territoryId: string)
    requires IM.Valid(r.players) && territoryId in r.territories
    requires PlayersKeyed(r) && ScoresNonNegative(r) && ListsWellFormed(r)
    ensures var r1 := ReleasePrevious(r, territoryId).registry;
            PlayersKeyed(r1) && ScoresNonNegative(r1) && ListsWellFormed(r1)
  {
  }

  /** After the previous owner is dealt with, nobody lists the territory any
      more and every other list entry is untouched. */
  lemma ReleasePreviousUnlists(r: Registry, territoryId: string)
    requires IM.Valid(r.players) && territoryId in r.territories && PlayersKeyed(r) && OwnershipAgrees(r)
    ensures var r1 := ReleasePrevious(r, territoryId).registry;
            forall k :: k in r1.players.items ==>
              && territoryId !in r1.players.items[k].territories
              && (forall t :: t != territoryId ==>
                    (t in r1.players.items[k].territories <==> t in r.players.items[k].territories))
  {
    var r1 := ReleasePrevious(r, territoryId).registry;
    var o := r.territories[territoryId].ownerId;
    forall k | k in r1.players.items
      ensures territoryId !in r1.players.items[k].territories
    {
      if territoryId in r.players.items[k].territories {
        assert o == Some(k);
      }
    }
  }

  lemma CapturePreserves(r: Registry, territoryId: string, ownerId: string)
    requires Consistent(r)
    ensures Consistent(Capture(r, territoryId, ownerId).registry)
  {
    if CaptureApplies(r, territoryId, ownerId) {
      CaptureKeepsKeys(r, territoryId, ownerId);
      CaptureKeepsLists(r, territoryId, ownerId);
      CaptureKeepsOwners(r, territoryId, ownerId);
      CaptureKeepsOwnership(r, territoryId, ownerId);
    }
  }

  /** The claimant's list gains the territory at its end, and only there. */
  lemma CaptureLists(r: Registry, territoryId: string, ownerId: string)
    requires IM.Valid(r.players) && PlayersKeyed(r) && OwnershipAgrees(r) && CaptureApplies(r, territoryId, ownerId)
    ensures var r1 := ReleasePrevious(r, territoryId).registry;
            var r2 := Capture(r, territoryId, ownerId).registry;
            && r2.players.items[ownerId] ==
                 r1.players.items[ownerId].(territories := r1.players.items[ownerId].territories + [territoryId],
                                            score := r1.players.items[ownerId].score + 50)
            && (forall k :: k in r2.players.items && k != ownerId ==> r2.players.items[k] == r1.players.items[k])
  {
    ReleasePreviousUnlists(r, territoryId);
  }

  lemma CaptureKeepsKeys(r: Registry, territoryId: string, ownerId: string)
    requires IM.Valid(r.players) && PlayersKeyed(r) && ScoresNonNegative(r) && ListsWellFormed(r) && OwnershipAgrees(r)
    requires CaptureApplies(r, territoryId, ownerId)
    ensures var r2 := Capture(r, territoryId, ownerId).registry;
            PlayersKeyed(r2) && ScoresNonNegative(r2)
  {
    ReleasePreviousLists(r, territoryId);
    CaptureLists(r, territoryId, ownerId);
  }

  lemma CaptureKeepsLists(r: Registry, territoryId: string, ownerId: string)
    requires IM.Valid(r.players) && PlayersKeyed(r) && ScoresNonNegative(r) && ListsWellFormed(r) && OwnershipAgrees(r)
    requires CaptureApplies(r, territoryId, ownerId)
    ensures ListsWellFormed(Capture(r, territoryId, ownerId).registry)
  {
    var r1 := ReleasePrevious(r, territoryId).registry;
    var r2 := Capture(r, territoryId, ownerId).registry;
    ReleasePreviousLists(r, territoryId);
    ReleasePreviousUnlists(r, territoryId);
    CaptureLists(r, territoryId, ownerId);
    AppendKeepsWellFormed(r1, r2, ownerId, territoryId);
  }

  /** Appending a known, unlisted territory to one list keeps lists well formed. */
  lemma AppendKeepsWellFormed(r1: Registry, r2: Registry, k0: string, t0: string)
    requires ListsWellFormed(r1) && k0 in r1.players.items
    requires r2.players.items.Keys == r1.players.items.Keys
    requires r1.territories.Keys <= r2.territories.Keys && t0 in r2.territories
    requires t0 !in r1.players.items[k0].territories
    requires r2.players.items[k0].territories == r1.players.items[k0].territories + [t0]
    requires forall k :: k in r2.players.items && k != k0 ==>
               r2.players.items[k].territories == r1.players.items[k].territories
    ensures ListsWellFormed(r2)
  {
    var L := r1.players.items[k0].territories;
    assert Distinct(L + [t0]);
  }

  lemma CaptureKeepsOwners(r: Registry, territoryId: string, ownerId: string)
    requires IM.Valid(r.players) && OwnersConnected(r) && ProgressAgrees(r)
    requires CaptureApplies(r, territoryId, ownerId)
    ensures var r2 := Capture(r, territoryId, ownerId).registry;
            OwnersConnected(r2) && ProgressAgrees(r2)
  {
  }

  lemma CaptureKeepsOwnership(r: Registry, territoryId: string, ownerId: string)
    requires IM.Valid(r.players) && PlayersKeyed(r) && OwnershipAgrees(r)
    requires CaptureApplies(r, territoryId, ownerId)
    ensures OwnershipAgrees(Capture(r, territoryId, ownerId).registry)
  {
    var r2 := Capture(r, territoryId, ownerId).registry;
    ReleasePreviousUnlists(r, territoryId);
    CaptureLists(r, territoryId, ownerId);
    forall t, k | t in r2.territories && k in r2.players.items
      ensures r2.territories[t].ownerId == Some(k) <==> t in r2.players.items[k].territories
    {
      if t != territoryId {
        assert t in r.players.items[k].territories <==> r.territories[t].ownerId == Some(k);
      }
    }
  }

  lemma DisconnectPreserves(r: Registry, conn: string)
    requires Consistent(r)
    ensures Consistent(Disconnect(r, conn).registry)
  {
    if conn in r.players.items {
      var r2 := Disconnect(r, conn).registry;
      RemovePlayerKeepsLists(r, r2, conn);
      RemovePlayerKeepsOwnership(r, r2, conn);
    }
  }

  /** Removing a player and freeing its territories keeps the list-side invariants. */
  lemma RemovePlayerKeepsLists(r: Registry, r2: Registry, conn: string)
    requires Consistent(r) && conn in r.players.items
    requires r2.players.items == r.players.items - {conn}
    requires r2.territories.Keys == r.territories.Keys
    ensures PlayersKeyed(r2) && ScoresNonNegative(r2) && ListsWellFormed(r2)
  {
  }

  /** Removing a player and freeing exactly its territories keeps ownership
      consistent. */
  lemma RemovePlayerKeepsOwnership(r: Registry, r2: Registry, conn: string)
    requires Consistent(r) && conn in r.players.items
    requires r2.players.items == r.players.items - {conn}
    requires r2.territories.Keys == r.territories.Keys
    requires forall t :: t in r.territories && t in r.players.items[conn].territories ==>
               r2.territories[t] == r.territories[t].(ownerId := None, captureProgress := 0)
    requires forall t :: t in r.territories && t !in r.players.items[conn].territories ==>
               r2.territories[t] == r.territories[t]
    ensures OwnersConnected(r2) && OwnershipAgrees(r2) && ProgressAgrees(r2)
  {
    forall t | t in r2.territories && r2.territories[t].ownerId.Some?
      ensures r2.territories[t].ownerId.value in r2.players.items
    {
      assert t !in r.players.items[conn].territories;
    }
  }

  /** No territory is listed by two different players. */
  lemma OwnersDisjoint(r: Registry)
    requires Consistent(r)
    ensures forall p, q, t ::
              p in r.players.items && q in r.players.items && p != q && t in r.players.items[p].territories
              ==> t !in r.players.items[q].territories
  {
    forall p, q, t | p in r.players.items && q in r.players.items && p != q &&
                     t in r.players.items[p].territories
      ensures t !in r.players.items[q].territories
    {
      assert r.territories[t].ownerId == Some(p);
    }
  }

  /** The score bookkeeping of a capture: the previous owner (if another
      player) loses 20 points, floored at zero, and the territory; the claimant
      gains 50 and lists the territory exactly once; one broadcast per score. */
  lemma CaptureScores(r: Registry, territoryId: string, ownerId: string)
    requires Consistent(r) && CaptureApplies(r, territoryId, ownerId)
    ensures var s := Capture(r, territoryId, ownerId);
            var o := r.territories[territoryId].ownerId;
            var before := r.players.items[ownerId].score;
            && s.registry.players.items[ownerId].score ==
                 (if o == Some(ownerId) then Max(0, before - 20) else before) + 50
            && multiset(s.registry.players.items[ownerId].territories)[territoryId] == 1
            && (o.Some? && o.value != ownerId ==>
                  && s.registry.players.items[o.value].score == Max(0, r.players.items[o.value].score - 20)
                  && territoryId !in s.registry.players.items[o.value].territories)
            && |s.out| == (if o.Some? then 2 else 1)
  {
    CaptureClaimantScore(r, territoryId, ownerId);
    CaptureBroadcasts(r, territoryId, ownerId);
    CaptureListsOnce(r, territoryId, ownerId);
    CapturePreviousOwner(r, territoryId, ownerId);
  }

  /** The claimant's score. */
  lemma CaptureClaimantScore(r: Registry, territoryId: string, ownerId: string)
    requires IM.Valid(r.players) && PlayersKeyed(r) && OwnershipAgrees(r)
    requires CaptureApplies(r, territoryId, ownerId)
    ensures var o := r.territories[territoryId].ownerId;
            var before := r.players.items[ownerId].score;
            Capture(r, territoryId, ownerId).registry.players.items[ownerId].score ==
              (if o == Some(ownerId) then Max(0, before - 20) else before) + 50
  {
    CaptureLists(r, territoryId, ownerId);
    var o := r.territories[territoryId].ownerId;
    var r1 := ReleasePrevious(r, territoryId).registry;
    if o == Some(ownerId) {
      assert Truthy(o);
    } else {
      assert r1.players.items[ownerId] == r.players.items[ownerId];
    }
  }

  /** One broadcast for the previous owner's score, if any, then the capture. */
  lemma CaptureBroadcasts(r: Registry, territoryId: string, ownerId: string)
    requires IM.Valid(r.players) && PlayersKeyed(r) && OwnersConnected(r)
    requires CaptureApplies(r, territoryId, ownerId)
    ensures var o := r.territories[territoryId].ownerId;
            |Capture(r, territoryId, ownerId).out| == (if o.Some? then 2 else 1)
  {
    var o := r.territories[territoryId].ownerId;
    var s1 := ReleasePrevious(r, territoryId);
    if o.Some? {
      assert Truthy(o) && o.value in r.players.items;
      assert |s1.out| == 1;
    } else {
      assert |s1.out| == 0;
    }
  }

  /** The claimant lists the territory exactly once. */
  lemma CaptureListsOnce(r: Registry, territoryId: string, ownerId: string)
    requires Consistent(r) && CaptureApplies(r, territoryId, ownerId)
    ensures multiset(Capture(r, territoryId, ownerId).registry.players.items[ownerId].territories)[territoryId] == 1
  {
    var r2 := Capture(r, territoryId, ownerId).registry;
    CaptureKeepsLists(r, territoryId, ownerId);
    assert ListsWellFormed(r2);
    DistinctOnce(r2.players.items[ownerId].territories, territoryId);
  }

  /** A different previous owner loses 20 points, floored, and the territory. */
  lemma CapturePreviousOwner(r: Registry, territoryId: string, ownerId: string)
    requires IM.Valid(r.players) && PlayersKeyed(r) && OwnershipAgrees(r) && OwnersConnected(r)
    requires CaptureApplies(r, territoryId, ownerId)
    ensures var s := Capture(r, territoryId, ownerId);
            var o := r.territories[territoryId].ownerId;
            o.Some? && o.value != ownerId ==>
              && s.registry.players.items[o.value].score == Max(0, r.players.items[o.value].score - 20)
              && territoryId !in s.registry.players.items[o.value].territories
  {
    CaptureLists(r, territoryId, ownerId);
    ReleasePreviousUnlists(r, territoryId);
  }

  /** Capture is not idempotent: the current owner claiming its own territory
      again pays 20 points (floored) and earns 50, so its score moves. */
  lemma RecaptureChangesScore(r: Registry, territoryId: string, ownerId: string)
    requires Consistent(r) && CaptureApplies(r, territoryId, ownerId)
    requires r.territories[territoryId].ownerId == Some(ownerId)
    ensures var s := Capture(r, territoryId, ownerId);
            && s.registry.players.items[ownerId].score == Max(0, r.players.items[ownerId].score - 20) + 50
            && s.registry.players.items[ownerId].score != r.players.items[ownerId].score
            && s.registry != r
            && |s.out| == 2
  {
    CaptureScores(r, territoryId, ownerId);
  }

  /** A fresh connection that joins and then disconnects leaves the registry
      exactly as it found it. */
  lemma JoinThenLeave(r: Registry, conn: string, name: string, position: LatLng, color: string)
    requires IM.Valid(r.players) && conn !in r.players.items
    ensures Disconnect(Join(r, conn, name, position, color).registry, conn).registry == r
  {
    IM.PutThenRemove(r.players, conn, ServerPlayer(conn, name, position, color, 0, []));
  }

  /** One hit from a fresh attacker on a player with 10 points: 10 and 5. */
  lemma HitExample(r: Registry, a: ServerPlayer, t: ServerPlayer)
    requires IM.Valid(r.players) && a.id != t.id
    requires r.players.items == map[a.id := a.(score := 0), t.id := t.(score := 10)]
    ensures var s := Hit(r, a.id, t.id, "projectile_1");
            && s.registry.players.items[a.id].score == 10
            && s.registry.players.items[t.id].score == 5
            && s.out == [Outbound(Everyone, PlayerHit(a.id, 10)), Outbound(Everyone, PlayerHit(t.id, 5))]
  {
  }
}
