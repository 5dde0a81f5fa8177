/** The per-frame simulation: while the client is connected and alive, each
    animation frame moves the player by the pressed keys and advances every
    projectile, removing those that reach their range or hit a player. The
    cosine of a latitude is the parameter `cosAt`; the wall clock used for
    effect stamps is the parameter `now`; the frame timestamp is `ts`. */
module GameLoop {

  import opened Common
  import opened Text
  import IM = InsertionMap
  import opened GameTypes
  import opened GameUtils
  import Constants

  /** Which of W, A, S, D are held. */
  datatype Keys = Keys(w: bool, a: bool, s: bool, d: bool)

  /** `(projectileId, playerId)` as passed to the hit callback. */
  datatype HitReport = HitReport(projectileId: string, playerId: string)

  /** One frame's result: the new state, the remembered frame timestamp, the
      positions reported to the move callback and the hits reported. */
  datatype Frame = Frame(state: GameState, lastTs: Option<real>, moves: seq<LatLng>, hits: seq<HitReport>)

  /** Seconds since the previous frame; 0 on the first frame. */
  function DeltaSeconds(lastTs: Option<real>, ts: real): real {
    if lastTs.None? then 0.0 else (ts - lastTs.value) / 1000.0
  }

  function Indicator(b: bool): real { if b then 1.0 else 0.0 }

  /** The accumulated `moveNorth += / -= speed * dt` and `moveEast` updates. */
  function Displacement(keys: Keys, dt: real): (m: Meters)
    ensures m.metersNorth == Constants.PlayerSpeed * dt * (Indicator(keys.w) - Indicator(keys.s))
    ensures m.metersEast == Constants.PlayerSpeed * dt * (Indicator(keys.d) - Indicator(keys.a))
  {
    var v := Constants.PlayerSpeed * dt;
    var north := if keys.w then 0.0 + v else 0.0;
    var north := if keys.s then north - v else north;
    var east := if keys.d then 0.0 + v else 0.0;
    var east := if keys.a then east - v else east;
    Meters(north, east)
  }

  /** Opposite keys cancel, and a diagonal is not normalised: each axis moves
      the full per-frame distance. */
  lemma DisplacementFacts(dt: real)
    ensures Displacement(Keys(true, false, true, false), dt).metersNorth == 0.0
    ensures Displacement(Keys(false, true, false, true), dt).metersEast == 0.0
    ensures var m := Displacement(Keys(true, false, false, true), dt);
            m.metersNorth == m.metersEast == 120.0 * dt
  {
  }

  function AnyKey(keys: Keys): bool { keys.w || keys.a || keys.s || keys.d }

  /** `p` moved by a metre displacement, with the longitude scale at `p`. */
  function Offset(p: LatLng, cosLat: real, east: real, north: real): (q: LatLng)
    ensures (q.lat - p.lat) * MetersPerDegree == north
    ensures MetersPerDegreeLng(cosLat) != 0.0 ==> (q.lng - p.lng) * MetersPerDegreeLng(cosLat) == east
    ensures MetersPerDegreeLng(cosLat) == 0.0 ==> q.lng == p.lng
  {
    var d := MetersToLatLngDelta(cosLat, east, north);
    LatLng(p.lat + d.deltaLat, p.lng + d.deltaLng)
  }

  /** The player-movement half of a frame: with time elapsed and a key held,
      the centre moves and the new position is reported once. */
  function MovePlayer(gs: GameState, keys: Keys, dt: real, cosAt: real -> real): (r: (GameState, seq<LatLng>))
    ensures !(dt > 0.0 && AnyKey(keys)) ==> r == (gs, [])
    ensures dt > 0.0 && AnyKey(keys) ==>
              var m := Displacement(keys, dt);
              && r.0 == gs.(center := Offset(gs.center, cosAt(gs.center.lat), m.metersEast, m.metersNorth))
              && r.1 == [r.0.center]
  {
    if dt > 0.0 && AnyKey(keys) then
      var m := Displacement(keys, dt);
      var c := Offset(gs.center, cosAt(gs.center.lat), m.metersEast, m.metersNorth);
      (gs.(center := c), [c])
    else (gs, [])
  }

  /** A player the projectile may hit: not its owner, and alive. */
  predicate Eligible(pl: Player, ownerId: string) {
    pl.id != ownerId && pl.isAlive
  }

  /** Eligible and within the hit radius of `at` (scale taken at `at`). */
  predicate Struck(pl: Player, ownerId: string, at: LatLng, cosAt: real -> real) {
    Eligible(pl, ownerId) && Within(at, pl.position, cosAt(at.lat), Constants.PlayerHitRadius)
  }

  /** The index of the first struck candidate, scanning from `from`. */
  function FirstHit(cands: seq<Player>, ownerId: string, at: LatLng, cosAt: real -> real, from: nat): (r: Option<nat>)
    requires from <= |cands|
    ensures r.None? <==> forall i :: from <= i < |cands| ==> !Struck(cands[i], ownerId, at, cosAt)
    ensures r.Some? ==> from <= r.value < |cands| && Struck(cands[r.value], ownerId, at, cosAt)
    ensures r.Some? ==> forall i :: from <= i < r.value ==> !Struck(cands[i], ownerId, at, cosAt)
    decreases |cands| - from
  {
    if from == |cands| then None
    else if Struck(cands[from], ownerId, at, cosAt) then Some(from)
    else FirstHit(cands, ownerId, at, cosAt, from + 1)
  }

  /** The players a projectile is checked against: the local player first, then
      the remote players in key order. */
  function Candidates(gs: GameState): (cs: seq<Player>)
    requires IM.Valid(gs.otherPlayers)
    ensures |cs| == 1 + |gs.otherPlayers.order| == 1 + |gs.otherPlayers.items|
    ensures cs[0].id == gs.playerId && cs[0].position == gs.center && cs[0].isAlive == gs.isAlive
    ensures forall i :: 1 <= i < |cs| ==> cs[i] == gs.otherPlayers.items[gs.otherPlayers.order[i - 1]]
  {
    var local := Player(gs.playerId, gs.playerName, gs.center, gs.playerColor, gs.playerScore, [],
                        gs.playerHealth, gs.playerMaxHealth, gs.isAlive);
    [local] + IM.Values(gs.otherPlayers)
  }

  /** What becomes of one projectile in a frame. */
  datatype Fate = Expired | HitPlayer(targetId: string, at: LatLng) | Flying(next: Projectile)

  /** The point `step` metres along a projectile's heading. The heading is in
      screen coordinates, where y grows downward, so north is `-direction.y`;
      the longitude scale is taken at the projectile's position. */
  function Ahead(p: Projectile, step: real, cosAt: real -> real): (q: LatLng)
    ensures (q.lat - p.position.lat) * MetersPerDegree == -p.direction.y * step
    ensures MetersPerDegreeLng(cosAt(p.position.lat)) != 0.0 ==>
              (q.lng - p.position.lng) * MetersPerDegreeLng(cosAt(p.position.lat)) == p.direction.x * step
    ensures MetersPerDegreeLng(cosAt(p.position.lat)) == 0.0 ==> q.lng == p.position.lng
  {
    Offset(p.position, cosAt(p.position.lat), p.direction.x * step, -p.direction.y * step)
  }

  /** One projectile's frame: it flies `PROJECTILE_SPEED * dt` metres; reaching
      its range removes it unchecked; otherwise the first struck candidate at the
      new position takes the hit; otherwise it continues from there. */
  function Advance(p: Projectile, cands: seq<Player>, dt: real, cosAt: real -> real): (f: Fate)
    ensures var travelled := p.distanceTraveled + Constants.ProjectileSpeed * dt;
            && (f.Expired? <==> travelled >= p.maxDistance)
            && (f.Flying? ==>
                  && f.next == p.(position := f.next.position, distanceTraveled := travelled)
                  && forall i :: 0 <= i < |cands| ==> !Struck(cands[i], p.ownerId, f.next.position, cosAt))
            && (f.HitPlayer? ==>
                  exists i :: 0 <= i < |cands| && cands[i].id == f.targetId && Struck(cands[i], p.ownerId, f.at, cosAt)
                    && forall j :: 0 <= j < i ==> !Struck(cands[j], p.ownerId, f.at, cosAt))
    ensures f.Flying? ==> f.next.position == Ahead(p, Constants.ProjectileSpeed * dt, cosAt)
    ensures f.HitPlayer? ==> f.at == Ahead(p, Constants.ProjectileSpeed * dt, cosAt)
  {
    var step := Constants.ProjectileSpeed * dt;
    var travelled := p.distanceTraveled + step;
    if travelled >= p.maxDistance then Expired
    else
      var at := Ahead(p, step, cosAt);
      match FirstHit(cands, p.ownerId, at, cosAt, 0)
      case Some(i) => HitPlayer(cands[i].id, at)
      case None => Flying(p.(position := at, distanceTraveled := travelled))
  }

  /** The fate of every projectile of the list, in order. */
  function Fates(ps: seq<Projectile>, cands: seq<Player>, dt: real, cosAt: real -> real): (fs: seq<Fate>)
    ensures |fs| == |ps| && forall i :: 0 <= i < |ps| ==> fs[i] == Advance(ps[i], cands, dt, cosAt)
  {
    seq(|ps|, i requires 0 <= i < |ps| => Advance(ps[i], cands, dt, cosAt))
  }

  /** The projectile pass over a whole list: survivors with the indices they
      came from, one hit marker and one report per hitting projectile (with
      the indices those came from), in list order. */
  datatype Sweep = Sweep(kept: seq<Projectile>, keptFrom: seq<nat>,
                         effects: seq<HitEffect>, hits: seq<HitReport>, hitFrom: seq<nat>)

  /** The hit marker's id: `hit_` followed by the timestamp. */
  function HitEffectId(now: int): string { "hit_" + IntToString(now) }

  /** The indices, from `from` on, whose fate satisfies `pick`, in order. */
  function Select(fs: seq<Fate>, pick: Fate -> bool, from: nat): (idx: seq<nat>)
    requires from <= |fs|
    ensures Increasing(idx)
    ensures forall j :: 0 <= j < |idx| ==> from <= idx[j] < |fs| && pick(fs[idx[j]])
    ensures forall i :: from <= i < |fs| && pick(fs[i]) ==> i in idx
    decreases |fs| - from
  {
    if from == |fs| then []
    else
      var rest := Select(fs, pick, from + 1);
      if pick(fs[from]) then [from] + rest else rest
  }

  function IsFlying(f: Fate): bool { f.Flying? }

  function IsHit(f: Fate): bool { f.HitPlayer? }

  /** Builds the pass result from the projectiles' fates (`ids` are the
      projectile ids): the `map` keeps flying projectiles, and each hit adds a
      marker and a report, all in list order. */
  function Collect(fs: seq<Fate>, ids: seq<string>, now: int): (s: Sweep)
    requires |fs| == |ids|
    ensures |s.kept| == |s.keptFrom| && |s.hits| == |s.hitFrom| == |s.effects|
    ensures Increasing(s.keptFrom) && Increasing(s.hitFrom)
    ensures forall j :: 0 <= j < |s.kept| ==> s.keptFrom[j] < |fs| && fs[s.keptFrom[j]] == Flying(s.kept[j])
    ensures forall j :: 0 <= j < |s.hits| ==>
              && s.hitFrom[j] < |fs| && fs[s.hitFrom[j]].HitPlayer?
              && s.hits[j] == HitReport(ids[s.hitFrom[j]], fs[s.hitFrom[j]].targetId)
              && s.effects[j] == HitEffect(HitEffectId(now), fs[s.hitFrom[j]].at, now, HitMark)
    ensures forall i :: 0 <= i < |fs| && fs[i].Flying? ==> i in s.keptFrom
    ensures forall i :: 0 <= i < |fs| && fs[i].HitPlayer? ==> i in s.hitFrom
  {
    var kf := Select(fs, IsFlying, 0);
    var hf := Select(fs, IsHit, 0);
    Sweep(seq(|kf|, j requires 0 <= j < |kf| => fs[kf[j]].next), kf,
          seq(|hf|, j requires 0 <= j < |hf| => HitEffect(HitEffectId(now), fs[hf[j]].at, now, HitMark)),
          seq(|hf|, j requires 0 <= j < |hf| => HitReport(ids[hf[j]], fs[hf[j]].targetId)), hf)
  }

  /** Every projectile ends in exactly one way, so survivors and hits together
      never outnumber the projectiles. */
  lemma CollectPartitions(fs: seq<Fate>, ids: seq<string>, now: int)
    requires |fs| == |ids|
    ensures var s := Collect(fs, ids, now);
            |s.kept| + |s.hits| <= |fs|
  {
    var s := Collect(fs, ids, now);
    var both := MergeIndices(s.keptFrom, s.hitFrom, fs);
    IncreasingBound(both, |fs|);
  }

  /** Merges the kept and hit index lists; they point at different fates, so
      they are disjoint and the merge is strictly increasing. */
  lemma {:induction false} MergeIndices(a: seq<nat>, b: seq<nat>, fs: seq<Fate>) returns (m: seq<nat>)
    requires Increasing(a) && Increasing(b)
    requires forall j :: 0 <= j < |a| ==> a[j] < |fs| && fs[a[j]].Flying?
    requires forall j :: 0 <= j < |b| ==> b[j] < |fs| && fs[b[j]].HitPlayer?
    ensures |m| == |a| + |b| && Increasing(m)
    ensures forall j :: 0 <= j < |m| ==> m[j] < |fs|
    ensures forall j :: 0 <= j < |m| ==> m[j] in a || m[j] in b
    decreases |a| + |b|
  {
    if a == [] {
      m := b;
    } else if b == [] {
      m := a;
    } else if a[0] < b[0] {
      var rest := MergeIndices(a[1..], b, fs);
      m := [a[0]] + rest;
      forall j | 0 < j < |m| ensures m[0] < m[j] {
        assert m[j] == rest[j - 1];
      }
    } else {
      assert a[0] != b[0];
      var rest := MergeIndices(a, b[1..], fs);
      m := [b[0]] + rest;
      forall j | 0 < j < |m| ensures m[0] < m[j] {
        assert m[j] == rest[j - 1];
      }
    }
  }

  /** Strictly increasing indices below `n` number at most `n`. */
  lemma {:induction false} IncreasingBound(s: seq<nat>, n: nat)
    requires Increasing(s) && forall i :: 0 <= i < |s| ==> s[i] < n
    ensures |s| <= n
    decreases n
  {
    if s != [] {
      var t := s[..|s| - 1];
      assert forall i :: 0 <= i < |t| ==> t[i] < s[|s| - 1];
      IncreasingBound(t, s[|s| - 1]);
    }
  }

  function ProjectileIds(ps: seq<Projectile>): (ids: seq<string>)
    ensures |ids| == |ps| && forall i :: 0 <= i < |ps| ==> ids[i] == ps[i].id
  {
    seq(|ps|, i requires 0 <= i < |ps| => ps[i].id)
  }

  /** The projectile pass of a frame against the given candidates: the
      survivors are exactly the projectiles still flying, advanced, and each
      hitting projectile yields one marker and one report, all in list order. */
  function SweepAll(ps: seq<Projectile>, cands: seq<Player>, dt: real, cosAt: real -> real, now: int): (s: Sweep)
    ensures |s.kept| == |s.keptFrom| && |s.hits| == |s.hitFrom| == |s.effects|
    ensures Increasing(s.keptFrom) && Increasing(s.hitFrom)
    ensures forall j :: 0 <= j < |s.kept| ==>
              s.keptFrom[j] < |ps| && Advance(ps[s.keptFrom[j]], cands, dt, cosAt) == Flying(s.kept[j])
    ensures forall j :: 0 <= j < |s.hits| ==>
              && s.hitFrom[j] < |ps|
              && var f := Advance(ps[s.hitFrom[j]], cands, dt, cosAt);
              && f.HitPlayer?
              && s.hits[j] == HitReport(ps[s.hitFrom[j]].id, f.targetId)
              && s.effects[j] == HitEffect(HitEffectId(now), f.at, now, HitMark)
    ensures forall i :: 0 <= i < |ps| && Advance(ps[i], cands, dt, cosAt).Flying? ==> i in s.keptFrom
    ensures forall i :: 0 <= i < |ps| && Advance(ps[i], cands, dt, cosAt).HitPlayer? ==> i in s.hitFrom
    ensures |s.kept| + |s.hits| <= |ps|
  {
    var fs := Fates(ps, cands, dt, cosAt);
    CollectPartitions(fs, ProjectileIds(ps), now);
    Collect(fs, ProjectileIds(ps), now)
  }

  /** An animation frame. Nothing runs unless the client is connected and alive.
      The player moves first; the projectile pass then sees the moved centre.
      Hit markers are appended after the pass. */
  function Tick(gs: GameState, lastTs: Option<real>, ts: real, keys: Keys, cosAt: real -> real, now: int): (fr: Frame)
    requires IM.Valid(gs.otherPlayers)
    ensures !(gs.isConnected && gs.isAlive) ==> fr == Frame(gs, lastTs, [], [])
    ensures gs.isConnected && gs.isAlive ==> fr.lastTs == Some(ts)
    ensures fr.state.otherPlayers == gs.otherPlayers
    ensures |fr.moves| <= 1
    ensures forall i :: 0 <= i < |fr.moves| ==> fr.moves[i] == fr.state.center
    ensures |fr.state.projectiles| + |fr.hits| <= |gs.projectiles|
    ensures gs.isConnected && gs.isAlive ==>
              var dt := DeltaSeconds(lastTs, ts);
              var mv := MovePlayer(gs, keys, dt, cosAt);
              && fr.moves == mv.1
              && (dt > 0.0 ==>
                    var s := SweepAll(mv.0.projectiles, Candidates(mv.0), dt, cosAt, now);
                    && fr.state == mv.0.(projectiles := s.kept, hitEffects := mv.0.hitEffects + s.effects)
                    && fr.hits == s.hits)
              && (dt <= 0.0 ==> fr.state == mv.0 && fr.hits == [])
  {
    if !(gs.isConnected && gs.isAlive) then Frame(gs, lastTs, [], [])
    else
      var dt := DeltaSeconds(lastTs, ts);
      var (gs1, moves) := MovePlayer(gs, keys, dt, cosAt);
      if dt > 0.0 then
        var s := SweepAll(gs1.projectiles, Candidates(gs1), dt, cosAt, now);
        Frame(gs1.(projectiles := s.kept, hitEffects := gs1.hitEffects + s.effects), Some(ts), moves, s.hits)
      else Frame(gs1, Some(ts), moves, [])
  }

  /** On the first frame (no previous timestamp) nothing moves: the state is
      untouched and no callback fires. */
  lemma FirstFrameIsStill(gs: GameState, ts: real, keys: Keys, cosAt: real -> real, now: int)
    requires IM.Valid(gs.otherPlayers) && gs.isConnected && gs.isAlive
    ensures Tick(gs, None, ts, keys, cosAt, now) == Frame(gs, Some(ts), [], [])
  {
  }

  /** A surviving projectile keeps its identity and heading, and its travelled
      distance grows by exactly the projectile speed times the frame time. */
  lemma SurvivorAdvances(p: Projectile, cands: seq<Player>, dt: real, cosAt: real -> real)
    requires Advance(p, cands, dt, cosAt).Flying?
    ensures var q := Advance(p, cands, dt, cosAt).next;
            && q.id == p.id && q.ownerId == p.ownerId && q.direction == p.direction
            && q.distanceTraveled == p.distanceTraveled + 300.0 * dt
            && q.distanceTraveled < q.maxDistance
            && (q.position.lat - p.position.lat) * MetersPerDegree == -p.direction.y * 300.0 * dt
  {
  }

  /** A projectile never hits its owner or a dead player. */
  lemma HitTargetsOthers(p: Projectile, cands: seq<Player>, dt: real, cosAt: real -> real)
    requires Advance(p, cands, dt, cosAt).HitPlayer?
    ensures var f := Advance(p, cands, dt, cosAt);
            f.targetId != p.ownerId &&
            exists i :: 0 <= i < |cands| && cands[i].id == f.targetId && cands[i].isAlive
  {
  }
}
