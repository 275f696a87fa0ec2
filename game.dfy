/**
 * The game as one object: the module-level variables of the browser game
 * become the fields of class Game, grouped into six records (the player, the
 * run's progress, the objects in play, the shield and skill, the phase and
 * best values, the controls), and every event handler and every step of the
 * animation loop becomes a method. The combat passes
 * run as reverse-index loops that splice the asteroid, bullet and debris
 * sequences in place; each loop is proved to compute the corresponding
 * function of module Combat or Registry, so everything proved about those
 * functions carries over to the fields.
 */
module Simulation {
  import opened Difficulty
  import opened Status
  import opened Registry
  import opened Combat

  /** The values of gameState. */
  datatype Phase = Loading | Menu | ShipSelection | Transitioning | Playing | Paused | LevelTransitioning | Gameover

  /** The key codes the game reacts to; every other key is OtherKey. */
  datatype Key = KeyA | ArrowLeft | KeyD | ArrowRight | Space | Escape | KeyS | Digit1 | OtherKey

  /** The previous / next buttons of the ship selection screen. */
  datatype Direction = Previous | Next

  /** The craft variants: 0 is STARFIRE (beam skill), 1 is BLUE NOVA (spread skill). */
  const ShipCount: nat := 2
  const Starfire: nat := 0

  /** Once the player has not moved for this many ticks, distance stops growing. */
  const StationaryLimit: nat := 300

  /**
   * The length of loadedShipModels when the models of the ships `loaded` are
   * stored at their indices among the first `k` slots: one past the highest
   * index written, or 0 when none is.
   */
  function Extent(loaded: set<nat>, k: nat): (n: nat)
    ensures n <= k
    ensures forall i <- loaded :: i < k ==> i < n
    ensures n > 0 ==> n - 1 in loaded
    ensures n == 0 ==> forall i <- loaded :: k <= i
  {
    if k == 0 then 0 else if k - 1 in loaded then k else Extent(loaded, k - 1)
  }

  /** loadedShipModels.length once the ships `loaded` have been stored. */
  function FleetSize(loaded: set<nat>): (n: nat)
    requires forall i <- loaded :: i < ShipCount
    ensures n <= ShipCount
    ensures forall i <- loaded :: i < n
    ensures n == 0 <==> loaded == {}
  {
    Extent(loaded, ShipCount)
  }

  /**
   * changeShip's index arithmetic: one step round the `fleet` slots of
   * loadedShipModels, wrapping at either end; with a single slot the index
   * stays where it is.
   */
  function Cycle(index: nat, d: Direction, fleet: nat): (r: nat)
    requires index < fleet
    ensures r < fleet
    ensures r == index <==> fleet == 1
    ensures d == Next ==> r == if index + 1 < fleet then index + 1 else 0
    ensures d == Previous ==> r == if 0 < index then index - 1 else fleet - 1
  {
    ((index as int) + (if d == Next then 1 else -1) + fleet) % fleet
  }

  function Opposite(d: Direction): Direction
  {
    if d == Next then Previous else Next
  }

  /** Stepping one way and then back returns to the same ship. */
  lemma CycleRoundTrip(index: nat, d: Direction, fleet: nat)
    requires index < fleet
    ensures Cycle(Cycle(index, d, fleet), Opposite(d), fleet) == index
  {
  }

  /**
   * When BLUE NOVA's model failed and only STARFIRE's loaded, the list has a
   * single slot and changeShip keeps STARFIRE either way; with both loaded
   * it alternates between the two.
   */
  lemma PartialFleet(d: Direction)
    ensures FleetSize({Starfire}) == 1 && Cycle(Starfire, d, FleetSize({Starfire})) == Starfire
    ensures FleetSize({0, 1}) == 2 && Cycle(Starfire, d, FleetSize({0, 1})) == 1
  {
  }

  // ---------------------------------------------------------------- the passes

  /*
   * The loops of the playing tick that only read and splice the registry.
   * Each runs on working copies of the lists and the tally, which the game
   * stores back into its fields afterwards; nothing else happens in between,
   * so this is the in-place splice of the browser game.
   */

  /**
   * The asteroid loop: every asteroid from the last down moves, and is
   * dropped when past the player or when it hits the player; a hit taken at
   * zero health ends the pass there.
   */
  method AdvancePass(asteroids: seq<Asteroid>, px: real, shielded: bool, v0: Vitals) returns (r: Pass)
    ensures r == Advance(asteroids, px, shielded, v0)
  {
    var s, v := asteroids, v0;
    var fatal, crashed := false, false;
    var i := |s|;
    assert s[..i] == s && s[i..] == [];
    assert Advance(asteroids, px, shielded, v0).asteroids + [] == Advance(asteroids, px, shielded, v0).asteroids;
    while i > 0 && !crashed
      invariant 0 <= i <= |s|
      invariant Advance(asteroids, px, shielded, v0) ==
                if crashed then Pass(s, v, fatal, true)
                else Glue(Advance(s[..i], px, shielded, v), s[i..], fatal)
      decreases i
    {
      i := i - 1;
      AdvanceStep(s, i, px, shielded, v, fatal);
      var a := Moved(s[i]);
      if a.z > DespawnDepth {
        s := s[..i] + s[i + 1..];
      } else if Collides(px, a, shielded) {
        var h := Damage(v, shielded);
        v := h.after;
        if h.hit == Crash {
          s := s[i := a];
          crashed := true;
        } else {
          fatal := fatal || h.hit == Fatal;
          s := s[..i] + s[i + 1..];
        }
      } else {
        s := s[i := a];
      }
    }
    if !crashed {
      assert s[..i] == [];
    }
    r := Pass(s, v, fatal, crashed);
  }

  /**
   * The inner loop of the bullet pass: scan the asteroids from the last
   * index down and stop at the first one the bullet overlaps.
   */
  method FindTarget(b: Bullet, s: seq<Asteroid>) returns (j: int)
    ensures j == TargetOf(b, s)
  {
    j := |s| - 1;
    assert s[..j + 1] == s;
    while j >= 0
      invariant -1 <= j < |s|
      invariant TargetOf(b, s) == TargetOf(b, s[..j + 1])
      decreases j
    {
      assert s[..j + 1][..j] == s[..j];
      if Overlaps(b, s[j]) {
        return;
      }
      j := j - 1;
    }
  }

  /**
   * The bullet loop: every bullet from the last down moves, and is dropped
   * when out of range or when it strikes its target. Explosions take their
   * lifespan draws from the stream in order.
   */
  method ResolvePass(bullets: seq<Bullet>, asteroids: seq<Asteroid>, level: int, t0: Tally, rng: nat -> real)
    returns (r: Volley)
    requires IsStream(rng)
    ensures r == Resolve(bullets, asteroids, level, t0, rng)
  {
    var bs, s := bullets, asteroids;
    var points, count, pieces := t0.score, t0.destroyed, t0.debris;
    var drawn: nat := t0.drawn;
    var i := |bs|;
    assert bs[..i] == bs && bs[i..] == [];
    assert Resolve(bullets, asteroids, level, t0, rng).bullets + [] == Resolve(bullets, asteroids, level, t0, rng).bullets;
    while i > 0
      invariant 0 <= i <= |bs|
      invariant Resolve(bullets, asteroids, level, t0, rng) ==
                Keep(Resolve(bs[..i], s, level, Tally(points, count, pieces, drawn), rng), bs[i..])
      decreases i
    {
      i := i - 1;
      ResolveStep(bs, i, s, level, Tally(points, count, pieces, drawn), rng);
      var b := Flown(bs[i]);
      if b.z < BulletRange {
        bs := bs[..i] + bs[i + 1..];
      } else {
        var j := FindTarget(b, s);
        if j >= 0 {
          var hit := s[j].(health := s[j].health - 1.0);
          if hit.health <= 0.0 {
            points := points + Points(hit, level);
            count := count + 1;
            pieces := pieces + Explosion(rng, drawn);
            drawn := drawn + DebrisPerExplosion;
            s := s[..j] + s[j + 1..];
          } else {
            s := s[j := hit];
          }
          bs := bs[..i] + bs[i + 1..];
        } else {
          bs := bs[i := b];
        }
      }
    }
    assert bs[..i] == [];
    r := Volley(bs, s, Tally(points, count, pieces, drawn));
  }

  /**
   * The beam loop: every asteroid in the beam, from the last down, loses
   * 0.1 hit points and is spliced out when destroyed.
   */
  method BurnPass(asteroids: seq<Asteroid>, px: real, level: int, t0: Tally, rng: nat -> real)
    returns (r: Sweep)
    requires IsStream(rng)
    ensures r == Burn(asteroids, px, level, t0, rng)
  {
    var s := asteroids;
    var points, count, pieces := t0.score, t0.destroyed, t0.debris;
    var drawn: nat := t0.drawn;
    var i := |s|;
    assert s[..i] == s && s[i..] == [];
    assert Burn(asteroids, px, level, t0, rng).asteroids + [] == Burn(asteroids, px, level, t0, rng).asteroids;
    while i > 0
      invariant 0 <= i <= |s|
      invariant Burn(asteroids, px, level, t0, rng) ==
                Extend(Burn(s[..i], px, level, Tally(points, count, pieces, drawn), rng), s[i..])
      decreases i
    {
      i := i - 1;
      BurnStep(s, i, px, level, Tally(points, count, pieces, drawn), rng);
      var a := s[i];
      if InBeam(px, a) {
        var burnt := a.(health := a.health - BeamDamage);
        if burnt.health <= 0.0 {
          points := points + Points(burnt, level);
          count := count + 1;
          pieces := pieces + Explosion(rng, drawn);
          drawn := drawn + DebrisPerExplosion;
          s := s[..i] + s[i + 1..];
        } else {
          s := s[i := burnt];
        }
      }
    }
    assert s[..i] == [];
    r := Sweep(s, Tally(points, count, pieces, drawn));
  }

  /** updateDebris's loop: from the last piece down, decay and splice out the expired. */
  method DecayPass(debris: seq<Debris>) returns (d: seq<Debris>)
    ensures d == Decayed(debris)
  {
    d := debris;
    var i := |d|;
    assert d[..i] == d && d[i..] == [];
    assert Decayed(debris) + [] == Decayed(debris);
    while i > 0
      invariant 0 <= i <= |d|
      invariant Decayed(debris) == Decayed(d[..i]) + d[i..]
      decreases i
    {
      i := i - 1;
      DecayedStep(d, i);
      var piece := Debris(d[i].lifespan - 1.0);
      if piece.lifespan <= 0.0 {
        d := d[..i] + d[i + 1..];
      } else {
        d := d[i := piece];
      }
    }
    assert d[..i] == [];
  }

  // ---------------------------------------------------------------- the tick as a function

  /**
   * The player: `x` is player.position.x and `lastX` lastPositionX;
   * `stationaryFrames` counts the ticks without movement; `vitals` holds
   * health, isInvincible and invincibilityTimer; `playerVisible` is
   * player.visible.
   */
  datatype PilotState = PilotState(x: real, lastX: real, stationaryFrames: nat, vitals: Vitals, playerVisible: bool)

  /** The run's progress: level, levelProgress, isPlanetLevel, asteroidSpawnCounter, distance. */
  datatype CourseState = CourseState(level: int, levelProgress: real, isPlanetLevel: bool, spawnCounter: int,
                                     distance: nat)

  /** The objects in play, and what destroying them has earned: score and asteroidsDestroyed. */
  datatype ArenaState = ArenaState(asteroids: seq<Asteroid>, bullets: seq<Bullet>, debris: seq<Debris>,
                                   score: int, destroyed: int)

  /**
   * shieldActive, shieldTimer and shieldCooldown; skillActive and
   * skillCooldown; whether the STARFIRE beam (`laser`) exists.
   */
  datatype GearState = GearState(shield: Shield, skill: Skill, laserOn: bool)

  /** gameState, and the best score and distance kept by the high-score store. */
  datatype OutcomeState = OutcomeState(phase: Phase, bestScore: int, bestDistance: int)

  /**
   * The fields no tick changes: whether `player` refers to a loaded ship
   * model, the indices at which loadedShipModels holds a model,
   * currentShipIndex, the held keys (`keys`) and keys['SpaceFired'].
   */
  datatype ControlState = ControlState(hasPlayer: bool, loaded: set<nat>, shipIndex: nat, held: set<Key>,
                                       spaceFired: bool)

  /**
   * What the ship fields keep: models are stored only at ship indices; while
   * there is a player it is the selected ship's model, and STARFIRE's model is
   * loaded, since the selection starts from it; without a player the index is
   * still STARFIRE's.
   */
  predicate Fitted(c: ControlState)
  {
    (forall i <- c.loaded :: i < ShipCount) &&
    (c.hasPlayer ==> c.shipIndex in c.loaded && Starfire in c.loaded) &&
    (!c.hasPlayer ==> c.shipIndex == Starfire)
  }

  /**
   * While there is a player, loadedShipModels has no gap: every slot below its
   * length holds a model, so changeShip always lands on a loaded ship.
   */
  lemma FittedWhole(c: ControlState)
    requires Fitted(c) && c.hasPlayer
    ensures forall i: nat :: i < FleetSize(c.loaded) <==> i in c.loaded
  {
    var n := FleetSize(c.loaded);
    forall i: nat | i < n
      ensures i in c.loaded
    {
      if i != Starfire {
        assert i == n - 1;
      }
    }
  }

  /** The values of all the game's fields at one moment. */
  datatype World = World(pilot: PilotState, course: CourseState, arena: ArenaState, gear: GearState,
                         outcome: OutcomeState, controls: ControlState)

  /** gameOver: the phase, the best values and the hidden player. */
  function Ended(w: World): World
  {
    w.(outcome := OutcomeState(Gameover, KeepBest(w.outcome.bestScore, w.arena.score),
                               KeepBest(w.outcome.bestDistance, w.course.distance)),
       pilot := w.pilot.(playerVisible := w.pilot.playerVisible && !w.controls.hasPlayer))
  }

  /** Count the ticks the player has stood still. */
  function StationaryStep(w: World): World
  {
    var p := w.pilot;
    w.(pilot := p.(stationaryFrames := if p.x == p.lastX then p.stationaryFrames + 1 else 0, lastX := p.x))
  }

  /**
   * Whether the player is shown after the invincibility step: while the
   * window runs the player blinks with a 20-tick period, and is shown again
   * when it closes.
   */
  function Blink(v: Vitals, visible: bool): bool
  {
    if !v.invincible then visible
    else
      var g := GraceTick(v);
      !g.invincible || g.timer % 20 < 10
  }

  /** The invincibility window runs down, the player blinking meanwhile. */
  function GraceStep(w: World): World
  {
    var p := w.pilot;
    w.(pilot := p.(vitals := GraceTick(p.vitals), playerVisible := Blink(p.vitals, p.playerVisible)))
  }

  /** Move left and right as the held keys say, then clamp. */
  function SteerStep(w: World): World
  {
    var held := w.controls.held;
    w.(pilot := w.pilot.(x := Steer(w.pilot.x, KeyA in held || ArrowLeft in held, KeyD in held || ArrowRight in held)))
  }

  /** The player's steps of a tick, in order. */
  function MoveStep(w: World): World
  {
    SteerStep(GraceStep(StationaryStep(w)))
  }

  /** The level follows the distance upwards; level 11 opens the planet once per run. */
  function LevelStep(w: World): World
  {
    var c := w.course;
    var reached := CurrentLevel(c.distance);
    var progress := LevelProgress(c.distance);
    if reached > c.level then
      var planet := reached == PlanetLevel && !c.isPlanetLevel;
      w.(course := c.(level := reached, isPlanetLevel := c.isPlanetLevel || planet, levelProgress := progress),
         outcome := if planet then w.outcome.(phase := LevelTransitioning) else w.outcome)
    else w.(course := c.(levelProgress := progress))
  }

  /** The spawn counter runs; a normal asteroid once it passes the interval. */
  function SpawnStep(w: World, roll: SpawnRoll): World
    requires RollOk(roll)
  {
    var c := w.course;
    if (c.spawnCounter + 1) as real > SpawnInterval(c.level, c.distance)
    then w.(course := c.(spawnCounter := 0),
            arena := w.arena.(asteroids := w.arena.asteroids + [NewAsteroid(c.level, c.distance, roll)]))
    else w.(course := c.(spawnCounter := c.spawnCounter + 1))
  }

  /** A boss when one is due and none is live. */
  function BossStep(w: World, draw: real): World
    requires IsDraw(draw)
  {
    var c := w.course;
    if ShouldSpawnBoss(c.level, c.levelProgress) && NoBoss(w.arena.asteroids)
    then w.(arena := w.arena.(asteroids := w.arena.asteroids + [NewBoss(c.level, c.distance, draw)]))
    else w
  }

  /** The scheduling steps of a tick: level, spawn counter, boss. */
  function ScheduleStep(w: World, roll: SpawnRoll, draw: real): World
    requires RollOk(roll) && IsDraw(draw)
  {
    BossStep(SpawnStep(LevelStep(w), roll), draw)
  }

  /** The asteroid pass, and gameOver when it took the last heart. */
  function CollideStep(w: World): World
  {
    var p := Advance(w.arena.asteroids, w.pilot.x, w.gear.shield.active, w.pilot.vitals);
    var h := w.(arena := w.arena.(asteroids := p.asteroids), pilot := w.pilot.(vitals := p.vitals));
    if p.fatal then Ended(h) else h
  }

  /** The bullet pass over the arena, drawing from the start of the stream. */
  function Volleyed(a: ArenaState, level: int, rng: nat -> real): Volley
    requires IsStream(rng)
  {
    Resolve(a.bullets, a.asteroids, level, Tally(a.score, a.destroyed, a.debris, 0), rng)
  }

  /** The bullet pass. */
  function BulletStep(w: World, rng: nat -> real): World
    requires IsStream(rng)
  {
    var v := Volleyed(w.arena, w.course.level, rng);
    w.(arena := ArenaState(v.asteroids, v.bullets, v.tally.debris, v.tally.score, v.tally.destroyed))
  }

  /** The shield runs down, then cools down. */
  function ShieldStep(w: World): World
  {
    w.(gear := w.gear.(shield := ShieldTick(w.gear.shield)))
  }

  /** The beam burns this tick: the skill is active, the ship is STARFIRE and Space is held. */
  predicate Beaming(skill: Skill, shipIndex: nat, held: set<Key>)
  {
    skill.active && shipIndex == Starfire && Space in held
  }

  /** The beam pass over the arena, its explosions drawing from position `from` of the stream. */
  function BeamStep(w: World, rng: nat -> real, from: nat): World
    requires IsStream(rng)
  {
    var a := w.arena;
    var b := Burn(a.asteroids, w.pilot.x, w.course.level, Tally(a.score, a.destroyed, a.debris, from), rng);
    w.(arena := a.(asteroids := b.asteroids, debris := b.tally.debris, score := b.tally.score,
                   destroyed := b.tally.destroyed))
  }

  /**
   * The skill's tick: the beam pass when the beam burns, the countdown, and
   * the beam kept while the skill lasts. Without an active skill the beam
   * is left as it is.
   */
  function SkillStep(w: World, rng: nat -> real, from: nat): World
    requires IsStream(rng)
  {
    var k := SkillTick(w.gear.skill);
    var beam := Beaming(w.gear.skill, w.controls.shipIndex, w.controls.held);
    var b := if beam then BeamStep(w, rng, from) else w;
    b.(gear := b.gear.(skill := k, laserOn := if w.gear.skill.active then beam && k.active else w.gear.laserOn))
  }

  /** updateDebris. */
  function DebrisStep(w: World): World
  {
    w.(arena := w.arena.(debris := Decayed(w.arena.debris)))
  }

  /** The distance grows unless the player has stood still too long. */
  function DistanceStep(w: World): World
  {
    if w.pilot.stationaryFrames < StationaryLimit then w.(course := w.course.(distance := w.course.distance + 1))
    else w
  }

  /**
   * The steps after the asteroid pass: bullets, shield, skill and beam (the
   * beam's explosions drawing after the bullet pass's), debris, distance.
   */
  function FinishStep(w: World, rng: nat -> real): World
    requires IsStream(rng)
  {
    var drawn := Volleyed(w.arena, w.course.level, rng).tally.drawn;
    DistanceStep(DebrisStep(SkillStep(ShieldStep(BulletStep(w, rng)), rng, drawn)))
  }

  /** Whether the asteroid pass, run on w, is cut short by a hit taken at zero health. */
  predicate Crashes(w: World)
  {
    Advance(w.arena.asteroids, w.pilot.x, w.gear.shield.active, w.pilot.vitals).crashed
  }

  /** The asteroid pass and, unless a hit at zero health cut it short, the rest. */
  function CombatStep(w: World, rng: nat -> real): World
    requires IsStream(rng)
  {
    if Crashes(w) then CollideStep(w) else FinishStep(CollideStep(w), rng)
  }

  /** The world as the combat part of a tick finds it: after the player's and the scheduling steps. */
  function Armed(w: World, roll: SpawnRoll, draw: real): World
    requires RollOk(roll) && IsDraw(draw)
  {
    ScheduleStep(MoveStep(w), roll, draw)
  }

  /** updatePlayingState as a function of the game's fields: nothing without a player. */
  function PlayStep(w: World, roll: SpawnRoll, draw: real, rng: nat -> real): World
    requires RollOk(roll) && IsDraw(draw) && IsStream(rng)
  {
    if !w.controls.hasPlayer then w else CombatStep(Armed(w, roll, draw), rng)
  }

  // ---------------------------------------------------------------- what a tick keeps

  /** The game's invariant (Consistent) on a world. */
  predicate Sound(w: World)
  {
    Consistent(w.controls.shipIndex, w.pilot.x, w.course.level, w.course.distance, w.pilot.vitals, w.gear.shield,
               w.gear.skill, w.gear.laserOn, w.arena.asteroids, w.arena.debris)
  }

  /** The asteroid pass keeps the invariant. */
  lemma CollideKeeps(w: World)
    requires Sound(w)
    ensures Sound(CollideStep(w))
  {
    AdvanceSummary(w.arena.asteroids, w.pilot.x, w.gear.shield.active, w.pilot.vitals);
  }

  /** The bullet pass keeps the invariant. */
  lemma BulletKeeps(w: World, rng: nat -> real)
    requires Sound(w) && IsStream(rng)
    ensures Sound(BulletStep(w, rng))
  {
    var a := w.arena;
    var t := Tally(a.score, a.destroyed, a.debris, 0);
    ResolveKeeps(a.bullets, a.asteroids, w.course.level, t, rng);
    ResolveAccounting(a.bullets, a.asteroids, w.course.level, t, rng);
  }

  /** The skill's tick, with its beam pass, keeps the invariant. */
  lemma SkillKeeps(w: World, rng: nat -> real, from: nat)
    requires Sound(w) && IsStream(rng)
    ensures Sound(SkillStep(w, rng, from))
  {
    var a := w.arena;
    var t := Tally(a.score, a.destroyed, a.debris, from);
    BurnKeeps(a.asteroids, w.pilot.x, w.course.level, t, rng);
    BurnAccounting(a.asteroids, w.pilot.x, w.course.level, t, rng);
    SkillOkPreserved(w.gear.skill);
  }

  /** A hit on the player keeps the invariant, and so does the gameOver that may follow. */
  lemma DamageKeeps(w: World)
    requires Sound(w)
    ensures var hurt := w.(pilot := w.pilot.(vitals := Damage(w.pilot.vitals, w.gear.shield.active).after));
            Sound(hurt) && Sound(Ended(hurt))
  {
    VitalsOkPreserved(w.pilot.vitals, w.gear.shield.active);
  }

  /** The player's steps keep the invariant. */
  lemma MoveKeeps(w: World)
    requires Sound(w)
    ensures Sound(MoveStep(w))
  {
    VitalsOkPreserved(w.pilot.vitals, false);
  }

  /** The level step keeps the invariant: the level never passes the distance's level. */
  lemma LevelKeeps(w: World)
    requires Sound(w)
    ensures Sound(LevelStep(w))
  {
    var c := w.course;
    assert (CurrentLevel(c.distance) - 1) * 1000 <= c.distance;
  }

  /** A spawned asteroid is healthy and no boss. */
  lemma SpawnKeeps(w: World, roll: SpawnRoll)
    requires Sound(w) && RollOk(roll)
    ensures Sound(SpawnStep(w, roll))
  {
    AppendKeeps(w.arena.asteroids, NewAsteroid(w.course.level, w.course.distance, roll));
  }

  /** A boss comes only when none is live, so there is never more than one. */
  lemma BossKeeps(w: World, draw: real)
    requires Sound(w) && IsDraw(draw)
    ensures Sound(BossStep(w, draw))
  {
    NoBossCount(w.arena.asteroids);
    AppendKeeps(w.arena.asteroids, NewBoss(w.course.level, w.course.distance, draw));
  }

  /** The scheduling steps keep the invariant. */
  lemma ScheduleKeeps(w: World, roll: SpawnRoll, draw: real)
    requires Sound(w) && RollOk(roll) && IsDraw(draw)
    ensures Sound(ScheduleStep(w, roll, draw))
  {
    LevelKeeps(w);
    SpawnKeeps(LevelStep(w), roll);
    BossKeeps(SpawnStep(LevelStep(w), roll), draw);
  }

  /** Decaying the debris keeps every piece fresh. */
  lemma DebrisKeeps(w: World)
    requires Sound(w)
    ensures Sound(DebrisStep(w))
  {
    var d := w.arena.debris;
    DebrisOkIff(d);
    DecayedSurvivors(d, 70.0);
    DebrisOkIff(Decayed(d));
  }

  /** The steps after the asteroid pass keep the invariant. */
  lemma FinishKeeps(w: World, rng: nat -> real)
    requires Sound(w) && IsStream(rng)
    ensures Sound(FinishStep(w, rng))
  {
    BulletKeeps(w, rng);
    var b := ShieldStep(BulletStep(w, rng));
    ShieldOkPreserved(w.gear.shield);
    var drawn := Volleyed(w.arena, w.course.level, rng).tally.drawn;
    SkillKeeps(b, rng, drawn);
    DebrisKeeps(SkillStep(b, rng, drawn));
  }

  /** The asteroid pass and the rest of the tick keep the invariant. */
  lemma CombatKeeps(w: World, rng: nat -> real)
    requires Sound(w) && IsStream(rng)
    ensures Sound(CombatStep(w, rng))
  {
    CollideKeeps(w);
    FinishKeeps(CollideStep(w), rng);
  }

  /** A whole tick of play keeps the invariant. */
  lemma PlayKeeps(w: World, roll: SpawnRoll, draw: real, rng: nat -> real)
    requires Sound(w) && RollOk(roll) && IsDraw(draw) && IsStream(rng)
    ensures Sound(PlayStep(w, roll, draw, rng))
  {
    if w.controls.hasPlayer {
      var m := MoveStep(w);
      MoveKeeps(w);
      ScheduleKeeps(m, roll, draw);
      CombatKeeps(Armed(w, roll, draw), rng);
    }
  }

  // ---------------------------------------------------------------- what a tick changes

  /** The player's steps change only the player. */
  lemma MoveFrame(w: World)
    ensures var m := MoveStep(w);
            var p := w.pilot;
            m == w.(pilot := m.pilot) && m.pilot.vitals == GraceTick(p.vitals) &&
            m.pilot.stationaryFrames == (if p.x == p.lastX then p.stationaryFrames + 1 else 0)
  {
  }

  /**
   * The scheduling steps change only the level, its progress, the planet
   * flag, the spawn counter, the asteroids and the phase.
   */
  lemma ScheduleFrame(w: World, roll: SpawnRoll, draw: real)
    requires RollOk(roll) && IsDraw(draw)
    ensures var r := ScheduleStep(w, roll, draw);
            var c := w.course;
            var reached := CurrentLevel(c.distance);
            var planet := !c.isPlanetLevel && c.level < reached && reached == PlanetLevel;
            r.pilot == w.pilot && r.gear == w.gear && r.controls == w.controls &&
            r.arena == w.arena.(asteroids := r.arena.asteroids) &&
            r.course.distance == c.distance &&
            r.course.level == (if reached > c.level then reached else c.level) &&
            r.course.isPlanetLevel == (c.isPlanetLevel || planet) &&
            r.outcome == (if planet then w.outcome.(phase := LevelTransitioning) else w.outcome)
  {
  }

  /**
   * The asteroid pass changes only the asteroids, the vitals, and what
   * gameOver changes: progress, gear and controls are untouched, the player
   * keeps x and counters, and a fatal pass turns the phase to Gameover with
   * the best values compared against the score and distance.
   */
  lemma CollideFrame(w: World)
    ensures var r := CollideStep(w);
            var p := Advance(w.arena.asteroids, w.pilot.x, w.gear.shield.active, w.pilot.vitals);
            r.course == w.course && r.gear == w.gear && r.controls == w.controls &&
            r.arena == w.arena.(asteroids := p.asteroids) &&
            r.pilot == w.pilot.(vitals := p.vitals,
                                playerVisible := w.pilot.playerVisible && !(p.fatal && w.controls.hasPlayer)) &&
            r.outcome == if p.fatal
                         then OutcomeState(Gameover, KeepBest(w.outcome.bestScore, w.arena.score),
                                           KeepBest(w.outcome.bestDistance, w.course.distance))
                         else w.outcome
  {
  }

  /**
   * The steps after the asteroid pass change only the arena, the shield,
   * the skill, the beam and the distance.
   */
  lemma FinishFrame(w: World, rng: nat -> real)
    requires IsStream(rng)
    ensures var r := FinishStep(w, rng);
            var c := w.controls;
            r.pilot == w.pilot && r.outcome == w.outcome && r.controls == c &&
            r.course == w.course.(distance := r.course.distance) &&
            r.course.distance == w.course.distance + (if w.pilot.stationaryFrames < StationaryLimit then 1 else 0) &&
            r.gear.shield == ShieldTick(w.gear.shield) && r.gear.skill == SkillTick(w.gear.skill) &&
            (w.gear.skill.active ==>
               (r.gear.laserOn <==> Beaming(w.gear.skill, c.shipIndex, c.held) && r.gear.skill.active))
  {
  }

  /**
   * A tick never changes the controls. With a player, a tick that runs to
   * the end moves the shield and the skill on by one tick each, and while
   * the skill lasts the beam is up exactly when it burns; a tick cut short,
   * or one without a player, leaves shield, skill and beam alone.
   */
  lemma PlayGear(w: World, roll: SpawnRoll, draw: real, rng: nat -> real)
    requires RollOk(roll) && IsDraw(draw) && IsStream(rng)
    ensures var r := PlayStep(w, roll, draw, rng);
            var c := w.controls;
            r.controls == c &&
            (c.hasPlayer && !Crashes(Armed(w, roll, draw)) ==>
               r.gear.shield == ShieldTick(w.gear.shield) && r.gear.skill == SkillTick(w.gear.skill) &&
               (w.gear.skill.active ==>
                  (r.gear.laserOn <==> Beaming(w.gear.skill, c.shipIndex, c.held) && r.gear.skill.active))) &&
            (!c.hasPlayer || Crashes(Armed(w, roll, draw)) ==> r.gear == w.gear)
  {
    if w.controls.hasPlayer {
      var a := Armed(w, roll, draw);
      MoveFrame(w);
      ScheduleFrame(MoveStep(w), roll, draw);
      CollideFrame(a);
      if !Crashes(a) {
        FinishFrame(CollideStep(a), rng);
      }
    }
  }

  /**
   * The distance grows by at most one a tick; it stands still once the
   * player has not moved for 300 ticks, and grows when the player has just
   * moved and the tick runs to the end.
   */
  lemma PlayDistance(w: World, roll: SpawnRoll, draw: real, rng: nat -> real)
    requires RollOk(roll) && IsDraw(draw) && IsStream(rng)
    ensures var r := PlayStep(w, roll, draw, rng);
            var d := w.course.distance;
            var p := w.pilot;
            (r.course.distance == d || r.course.distance == d + 1) &&
            (p.x == p.lastX && p.stationaryFrames + 1 >= StationaryLimit ==> r.course.distance == d) &&
            (w.controls.hasPlayer && p.x != p.lastX && !Crashes(Armed(w, roll, draw)) ==> r.course.distance == d + 1)
  {
    if w.controls.hasPlayer {
      var a := Armed(w, roll, draw);
      MoveFrame(w);
      ScheduleFrame(MoveStep(w), roll, draw);
      CollideFrame(a);
      if !Crashes(a) {
        FinishFrame(CollideStep(a), rng);
      }
    }
  }

  /**
   * With a player, the level catches up with the level the distance had
   * reached at the start of the tick and never goes down; the planet level
   * opens once, when level 11 is first reached.
   */
  lemma PlayLevel(w: World, roll: SpawnRoll, draw: real, rng: nat -> real)
    requires RollOk(roll) && IsDraw(draw) && IsStream(rng)
    ensures var r := PlayStep(w, roll, draw, rng);
            var reached := CurrentLevel(w.course.distance);
            var c := w.course;
            c.level <= r.course.level &&
            (w.controls.hasPlayer ==> r.course.level == if reached > c.level then reached else c.level) &&
            (r.course.isPlanetLevel <==>
               c.isPlanetLevel || (w.controls.hasPlayer && c.level < reached && reached == PlanetLevel))
  {
    if w.controls.hasPlayer {
      var a := Armed(w, roll, draw);
      MoveFrame(w);
      ScheduleFrame(MoveStep(w), roll, draw);
      CollideFrame(a);
      if !Crashes(a) {
        FinishFrame(CollideStep(a), rng);
      }
    }
  }

  /**
   * The phase after a tick of play: Gameover exactly when the player's
   * health has run out, with the best values compared against the score and
   * distance of the start of the tick; otherwise LevelTransitioning when the
   * planet level opened, else still Playing, with the best values untouched.
   */
  lemma PlayOutcome(w: World, roll: SpawnRoll, draw: real, rng: nat -> real)
    requires w.outcome.phase == Playing && w.pilot.vitals.health >= 1
    requires RollOk(roll) && IsDraw(draw) && IsStream(rng)
    ensures var r := PlayStep(w, roll, draw, rng);
            var c := w.course;
            var planet := w.controls.hasPlayer && !c.isPlanetLevel &&
                          c.level < CurrentLevel(c.distance) && CurrentLevel(c.distance) == PlanetLevel;
            (r.outcome.phase == Gameover <==> r.pilot.vitals.health <= 0) &&
            (r.outcome.phase == Gameover ==>
               r.outcome == OutcomeState(Gameover, KeepBest(w.outcome.bestScore, w.arena.score),
                                         KeepBest(w.outcome.bestDistance, c.distance))) &&
            (r.outcome.phase != Gameover ==>
               r.outcome == w.outcome.(phase := if planet then LevelTransitioning else Playing))
  {
    if w.controls.hasPlayer {
      var a := Armed(w, roll, draw);
      MoveFrame(w);
      ScheduleFrame(MoveStep(w), roll, draw);
      CollideFrame(a);
      if !Crashes(a) {
        FinishFrame(CollideStep(a), rng);
      }
      AdvanceHarm(a.arena.asteroids, a.pilot.x, a.gear.shield.active, a.pilot.vitals);
      AdvanceFatal(a.arena.asteroids, a.pilot.x, a.gear.shield.active, a.pilot.vitals);
    }
  }

  /**
   * A tick costs at most one heart, save for the hit at zero health that
   * cuts it short, and none while the shield is up or the invincibility
   * window lasts through the asteroid pass.
   */
  lemma PlayHealth(w: World, roll: SpawnRoll, draw: real, rng: nat -> real)
    requires RollOk(roll) && IsDraw(draw) && IsStream(rng)
    ensures var r := PlayStep(w, roll, draw, rng);
            var v := w.pilot.vitals;
            r.pilot.vitals.health <= v.health &&
            (r.pilot.vitals.health >= v.health - 1 || r.pilot.vitals.health < 0) &&
            (w.gear.shield.active || (v.invincible && v.timer > 1) ==> r.pilot.vitals.health == v.health)
  {
    if w.controls.hasPlayer {
      var a := Armed(w, roll, draw);
      MoveFrame(w);
      ScheduleFrame(MoveStep(w), roll, draw);
      CollideFrame(a);
      if !Crashes(a) {
        FinishFrame(CollideStep(a), rng);
      }
      AdvanceSummary(a.arena.asteroids, a.pilot.x, a.gear.shield.active, a.pilot.vitals);
      AdvanceHarm(a.arena.asteroids, a.pilot.x, a.gear.shield.active, a.pilot.vitals);
    }
  }

  /** The bullet pass only adds to the score and the count, at least 50 points a kill. */
  lemma BulletScore(w: World, rng: nat -> real)
    requires IsStream(rng) && w.course.level >= 1
    ensures var r := BulletStep(w, rng);
            w.arena.destroyed <= r.arena.destroyed &&
            r.arena.score - w.arena.score >= 50 * (r.arena.destroyed - w.arena.destroyed)
  {
    var a := w.arena;
    ResolveAccounting(a.bullets, a.asteroids, w.course.level, Tally(a.score, a.destroyed, a.debris, 0), rng);
  }

  /** So does the skill's tick with its beam pass. */
  lemma SkillScore(w: World, rng: nat -> real, from: nat)
    requires IsStream(rng) && w.course.level >= 1
    ensures var r := SkillStep(w, rng, from);
            w.arena.destroyed <= r.arena.destroyed &&
            r.arena.score - w.arena.score >= 50 * (r.arena.destroyed - w.arena.destroyed)
  {
    var a := w.arena;
    BurnAccounting(a.asteroids, w.pilot.x, w.course.level, Tally(a.score, a.destroyed, a.debris, from), rng);
  }

  /** So do the steps after the asteroid pass together. */
  lemma FinishScore(w: World, rng: nat -> real)
    requires IsStream(rng) && w.course.level >= 1
    ensures var r := FinishStep(w, rng);
            w.arena.destroyed <= r.arena.destroyed &&
            r.arena.score - w.arena.score >= 50 * (r.arena.destroyed - w.arena.destroyed)
  {
    BulletScore(w, rng);
    var b := ShieldStep(BulletStep(w, rng));
    SkillScore(b, rng, Volleyed(w.arena, w.course.level, rng).tally.drawn);
  }

  /**
   * A tick only adds to the score and the count of destroyed asteroids, at
   * least 50 points for each asteroid destroyed.
   */
  lemma PlayScore(w: World, roll: SpawnRoll, draw: real, rng: nat -> real)
    requires w.course.level >= 1 && RollOk(roll) && IsDraw(draw) && IsStream(rng)
    ensures var r := PlayStep(w, roll, draw, rng);
            w.arena.destroyed <= r.arena.destroyed &&
            r.arena.score - w.arena.score >= 50 * (r.arena.destroyed - w.arena.destroyed)
  {
    if w.controls.hasPlayer {
      var a := Armed(w, roll, draw);
      MoveFrame(w);
      ScheduleFrame(MoveStep(w), roll, draw);
      CollideFrame(a);
      if !Crashes(a) {
        FinishScore(CollideStep(a), rng);
      }
    }
  }

  /** The draws one tick takes: the spawn roll, the boss's speed draw and the debris stream. */
  datatype Draws = Draws(roll: SpawnRoll, boss: real, rng: nat -> real)

  ghost predicate DrawsOk(ds: seq<Draws>)
  {
    forall i :: 0 <= i < |ds| ==> RollOk(ds[i].roll) && IsDraw(ds[i].boss) && IsStream(ds[i].rng)
  }

  /** Consecutive ticks of play, one for each element of `ds`. */
  ghost function Run(w: World, ds: seq<Draws>): World
    requires DrawsOk(ds)
    decreases |ds|
  {
    if ds == [] then w
    else
      var d := ds[|ds| - 1];
      PlayStep(Run(w, ds[..|ds| - 1]), d.roll, d.boss, d.rng)
  }

  /** No tick of the run is cut short by a hit at zero health. */
  ghost predicate Unbroken(w: World, ds: seq<Draws>)
    requires DrawsOk(ds)
    decreases |ds|
  {
    ds == [] ||
    (var d := ds[|ds| - 1];
     Unbroken(w, ds[..|ds| - 1]) && !Crashes(Armed(Run(w, ds[..|ds| - 1]), d.roll, d.boss)))
  }

  /**
   * Over n uninterrupted ticks of play the shield and the skill are n ticks
   * on, so ShieldLifecycle and SkillLifecycle describe them in play.
   */
  lemma {:induction false} RunGear(w: World, ds: seq<Draws>)
    requires DrawsOk(ds) && w.controls.hasPlayer && Unbroken(w, ds)
    ensures Run(w, ds).controls == w.controls
    ensures Run(w, ds).gear.shield == ShieldAfter(w.gear.shield, |ds|)
    ensures Run(w, ds).gear.skill == SkillAfter(w.gear.skill, |ds|)
    decreases |ds|
  {
    if ds != [] {
      var d := ds[|ds| - 1];
      RunGear(w, ds[..|ds| - 1]);
      PlayGear(Run(w, ds[..|ds| - 1]), d.roll, d.boss, d.rng);
    }
  }

  /**
   * The game's invariant, on the values of its fields: a valid ship, the
   * player inside the lanes, the level never ahead of the distance's level
   * (ConsistentMeans), the status
   * records consistent, the beam only during the skill, at most one boss,
   * every asteroid alive and every debris piece fresh.
   */
  predicate Consistent(shipIndex: nat, x: real, level: int, distance: nat, vitals: Vitals, shield: Shield,
                       skill: Skill, laserOn: bool, asteroids: seq<Asteroid>, debris: seq<Debris>)
  {
    shipIndex < ShipCount &&
    -Bound <= x <= Bound &&
    1 <= level && (level - 1) * 1000 <= distance &&
    VitalsOk(vitals) && ShieldOk(shield) && SkillOk(skill) &&
    (laserOn ==> skill.active) &&
    Bosses(asteroids) <= 1 && Live(asteroids) && DebrisOk(debris)
  }

  /**
   * Consistent read element-wise: the level is at least 1 and at most the
   * level the distance has reached, every asteroid has health left and every
   * debris piece is fresh.
   */
  lemma ConsistentMeans(shipIndex: nat, x: real, level: int, distance: nat, vitals: Vitals, shield: Shield,
                        skill: Skill, laserOn: bool, asteroids: seq<Asteroid>, debris: seq<Debris>)
    ensures Consistent(shipIndex, x, level, distance, vitals, shield, skill, laserOn, asteroids, debris) <==>
            shipIndex < ShipCount && -Bound <= x <= Bound &&
            1 <= level <= CurrentLevel(distance) &&
            VitalsOk(vitals) && ShieldOk(shield) && SkillOk(skill) &&
            (laserOn ==> skill.active) && Bosses(asteroids) <= 1 &&
            (forall a <- asteroids :: Healthy(a)) && (forall p <- debris :: Fresh(p))
  {
    LiveIff(asteroids);
    DebrisOkIff(debris);
    if 1 <= level {
      LevelReached(level, distance);
    }
  }

  /** A level has been reached exactly when it is not above the distance's level. */
  lemma LevelReached(level: int, distance: nat)
    requires 1 <= level
    ensures (level - 1) * 1000 <= distance <==> level <= CurrentLevel(distance)
  {
    var c := CurrentLevel(distance);
    if level <= c {
      assert (level - 1) * 1000 <= (c - 1) * 1000;
    } else {
      assert c * 1000 <= (level - 1) * 1000;
    }
  }

  class Game {
    var pilot: PilotState
    var course: CourseState
    var arena: ArenaState
    var gear: GearState
    var outcome: OutcomeState
    var controls: ControlState

    /** All the fields, as one value. */
    function State(): World
      reads this
    {
      World(pilot, course, arena, gear, outcome, controls)
    }

    /** The invariant every event and every tick keeps: Consistent and Fitted on the fields. */
    ghost predicate Valid()
      reads this
    {
      Sound(State()) && Fitted(controls)
    }

    /** The script's initial values; the store holds the given best values. */
    constructor (storedScore: int, storedDistance: int)
      ensures Valid()
      ensures pilot == PilotState(0.0, 0.0, 0, Vitals(3, false, 0), false)
      ensures course == CourseState(1, 0.0, false, 0, 0)
      ensures arena == ArenaState([], [], [], 0, 0)
      ensures gear == GearState(Shield(false, 0, 0), Skill(false, 0), false)
      ensures outcome == OutcomeState(Loading, storedScore, storedDistance)
      ensures controls == ControlState(false, {}, 0, {}, false)
    {
      pilot := PilotState(0.0, 0.0, 0, Vitals(3, false, 0), false);
      course := CourseState(1, 0.0, false, 0, 0);
      arena := ArenaState([], [], [], 0, 0);
      gear := GearState(Shield(false, 0, 0), Skill(false, 0), false);
      outcome := OutcomeState(Loading, storedScore, storedDistance);
      controls := ControlState(false, {}, 0, {}, false);
    }

    // ------------------------------------------------------------ loading and menus

    /**
     * The last ship-load callback. The model of every ship that loaded
     * (`arrived`) is stored at that ship's index, and the menu opens whether
     * loading succeeded or not. Only when this last callback is a success
     * (`lastLoaded`) is `player` set: to the selected ship's model, which is
     * missing when that ship failed to load.
     */
    method ShipsLoaded(arrived: set<nat>, lastLoaded: bool)
      requires Valid() && forall i <- arrived :: i < ShipCount
      modifies this`outcome, this`controls, this`pilot
      ensures Valid()
      ensures outcome == old(outcome).(phase := Menu)
      ensures var loaded := old(controls.loaded) + arrived;
              controls == old(controls).(loaded := loaded,
                                        hasPlayer := if lastLoaded then old(controls.shipIndex) in loaded
                                                     else old(controls.hasPlayer))
      ensures pilot == if lastLoaded && old(controls.shipIndex) in old(controls.loaded) + arrived
                       then old(pilot).(playerVisible := false) else old(pilot)
    {
      outcome := outcome.(phase := Menu);
      controls := controls.(loaded := controls.loaded + arrived);
      if lastLoaded {
        controls := controls.(hasPlayer := controls.shipIndex in controls.loaded);
        if controls.hasPlayer {
          pilot := pilot.(playerVisible := false);
        }
      }
    }

    /** showShipSelection: only from the menu. */
    method ShowShipSelection()
      modifies this`outcome
      ensures outcome == if old(outcome.phase) == Menu then old(outcome).(phase := ShipSelection) else old(outcome)
    {
      if outcome.phase != Menu {
        return;
      }
      outcome := outcome.(phase := ShipSelection);
    }

    /**
     * changeShip: needs a player; the index steps round loadedShipModels, so
     * with only STARFIRE's model loaded it stays on STARFIRE.
     */
    method ChangeShip(d: Direction)
      requires Valid()
      modifies this`controls, this`pilot
      ensures Valid()
      ensures old(controls.hasPlayer) ==>
                controls == old(controls).(shipIndex := Cycle(old(controls.shipIndex), d, FleetSize(old(controls.loaded)))) &&
                pilot == old(pilot).(playerVisible := true)
      ensures !old(controls.hasPlayer) ==> controls == old(controls) && pilot == old(pilot)
    {
      if !controls.hasPlayer {
        return;
      }
      FittedWhole(controls);
      var fleet := FleetSize(controls.loaded);
      controls := controls.(shipIndex := ((controls.shipIndex as int) + (if d == Next then 1 else -1) + fleet) % fleet);
      pilot := pilot.(playerVisible := true);
    }

    /** clearGameObjects */
    method ClearGameObjects()
      requires Valid()
      modifies this`arena
      ensures Valid()
      ensures arena == old(arena).(asteroids := [], bullets := [], debris := [])
    {
      arena := arena.(asteroids := [], bullets := [], debris := []);
    }

    /** The run's counters of resetGameStats. */
    method ResetCounters()
      requires Valid()
      modifies this`arena, this`course
      ensures Valid()
      ensures arena == old(arena).(score := 0, destroyed := 0)
      ensures course == old(course).(distance := 0, level := 1, levelProgress := 0.0, isPlanetLevel := false)
    {
      arena := arena.(score := 0, destroyed := 0);
      course := course.(distance := 0, level := 1, levelProgress := 0.0, isPlanetLevel := false);
    }

    /** The player's part of resetGameStats. */
    method ResetPlayer()
      requires Valid()
      modifies this`pilot, this`gear
      ensures Valid()
      ensures gear == GearState(Shield(false, 0, 0), Skill(false, 0), false)
      ensures pilot == old(pilot).(vitals := Vitals(3, false, 0), x := if controls.hasPlayer then 0.0 else old(pilot.x))
    {
      pilot := pilot.(vitals := Vitals(3, false, 0));
      gear := GearState(Shield(false, 0, 0), Skill(false, 0), false);
      if controls.hasPlayer {
        pilot := pilot.(x := 0.0);
      }
    }

    /**
     * resetGameStats: a fresh run. The spawn counter, the stationary counter,
     * the last position and the held keys are NOT reset.
     */
    method ResetGameStats()
      requires Valid()
      modifies this`arena, this`course, this`pilot, this`gear
      ensures Valid()
      ensures arena == ArenaState([], [], [], 0, 0)
      ensures course == old(course).(distance := 0, level := 1, levelProgress := 0.0, isPlanetLevel := false)
      ensures gear == GearState(Shield(false, 0, 0), Skill(false, 0), false)
      ensures pilot == old(pilot).(vitals := Vitals(3, false, 0), x := if controls.hasPlayer then 0.0 else old(pilot.x))
    {
      ClearGameObjects();
      ResetCounters();
      ResetPlayer();
    }

    /** confirmShipSelection: only from ship selection; starts the run. */
    method ConfirmShipSelection()
      requires Valid()
      modifies this`outcome, this`arena, this`course, this`pilot, this`gear
      ensures Valid()
      ensures old(outcome.phase) != ShipSelection ==> unchanged(this)
      ensures old(outcome.phase) == ShipSelection ==>
                outcome == old(outcome).(phase := Transitioning) &&
                arena == ArenaState([], [], [], 0, 0) &&
                course == old(course).(distance := 0, level := 1, levelProgress := 0.0, isPlanetLevel := false) &&
                gear == GearState(Shield(false, 0, 0), Skill(false, 0), false) &&
                pilot == old(pilot).(vitals := Vitals(3, false, 0), x := if controls.hasPlayer then 0.0 else old(pilot.x))
    {
      if outcome.phase != ShipSelection {
        return;
      }
      outcome := outcome.(phase := Transitioning);
      ResetGameStats();
    }

    /** updateHighScore: the store keeps the larger score and distance. */
    method UpdateHighScore()
      modifies this`outcome
      ensures outcome == old(outcome).(bestScore := KeepBest(old(outcome.bestScore), arena.score),
                                       bestDistance := KeepBest(old(outcome.bestDistance), course.distance))
    {
      if arena.score > outcome.bestScore {
        outcome := outcome.(bestScore := arena.score);
      }
      if course.distance > outcome.bestDistance {
        outcome := outcome.(bestDistance := course.distance);
      }
    }

    /**
     * gameOver: the phase, the best values and the hidden player (Ended).
     * The return to the menu after the delay is the QuitToMenu event.
     */
    method GameOver()
      modifies this`outcome, this`pilot
      ensures State() == Ended(old(State()))
    {
      outcome := outcome.(phase := Gameover);
      UpdateHighScore();
      if controls.hasPlayer {
        pilot := pilot.(playerVisible := false);
      }
    }

    /** quitToMenu: back to the menu with the registry emptied; the stats stay. */
    method QuitToMenu()
      requires Valid()
      modifies this`outcome, this`arena
      ensures Valid()
      ensures outcome == old(outcome).(phase := Menu)
      ensures arena == old(arena).(asteroids := [], bullets := [], debris := [])
    {
      outcome := outcome.(phase := Menu);
      ClearGameObjects();
    }

    /** togglePause */
    method TogglePause()
      modifies this`outcome
      ensures outcome == old(outcome).(phase := if old(outcome.phase) == Playing then Paused else Playing)
    {
      outcome := outcome.(phase := if outcome.phase == Playing then Paused else Playing);
    }

    /** resumeGame */
    method ResumeGame()
      modifies this`outcome
      ensures outcome == old(outcome).(phase := Playing)
    {
      outcome := outcome.(phase := Playing);
    }

    // ------------------------------------------------------------ player actions

    /** activateShield */
    method ActivateShield()
      requires Valid()
      modifies this`gear
      ensures Valid()
      ensures gear == old(gear).(shield := Status.ActivateShield(old(gear.shield)))
    {
      if gear.shield.active || gear.shield.cooldown > 0 {
        return;
      }
      gear := gear.(shield := gear.shield.(active := true, timer := ShieldTicks));
    }

    /** activateSkill */
    method ActivateSkill()
      requires Valid()
      modifies this`gear
      ensures Valid()
      ensures gear == old(gear).(skill := Status.ActivateSkill(old(gear.skill)))
    {
      if gear.skill.active || gear.skill.cooldown > 0 {
        return;
      }
      gear := gear.(skill := Skill(true, SkillTicks));
    }

    /**
     * shootBullet: needs a player. While the skill is active STARFIRE raises
     * its beam and BLUE NOVA fires a spread of three; otherwise one bullet.
     */
    method ShootBullet()
      requires Valid()
      modifies this`arena, this`gear
      ensures Valid()
      ensures var beam := controls.hasPlayer && gear.skill.active && controls.shipIndex == Starfire;
              gear == old(gear).(laserOn := old(gear.laserOn) || beam) &&
              arena == if controls.hasPlayer && !beam
                       then old(arena).(bullets := old(arena.bullets) + Shot(pilot.x, gear.skill.active))
                       else old(arena)
    {
      if !controls.hasPlayer {
        return;
      }
      if gear.skill.active {
        if controls.shipIndex == Starfire {
          gear := gear.(laserOn := true);
        } else {
          arena := arena.(bullets := arena.bullets + Shot(pilot.x, true));
        }
      } else {
        arena := arena.(bullets := arena.bullets + Shot(pilot.x, false));
      }
    }

    /**
     * The Space branch of the keydown listener: one shot per press. While
     * STARFIRE's skill is active the press only counts as fired; the beam is
     * raised by the playing tick.
     */
    method Fire()
      requires Valid()
      modifies this`arena, this`gear, this`controls
      ensures Valid()
      ensures controls == old(controls).(spaceFired := true) && gear == old(gear)
      ensures arena == if !old(controls.spaceFired) && controls.hasPlayer &&
                          !(gear.skill.active && controls.shipIndex == Starfire)
                       then old(arena).(bullets := old(arena.bullets) + Shot(pilot.x, gear.skill.active))
                       else old(arena)
    {
      if !controls.spaceFired {
        if !(gear.skill.active && controls.shipIndex == Starfire) {
          ShootBullet();
        }
        controls := controls.(spaceFired := true);
      }
    }

    /**
     * The keydown listener: the key is recorded as held in every phase, but
     * pause, fire, shield and skill act only while playing. Each key code
     * triggers at most one of the listener's branches, so they are tried in
     * turn.
     */
    method KeyDown(k: Key)
      requires Valid()
      modifies this`controls, this`outcome, this`arena, this`gear
      ensures Valid()
      ensures var playing := old(outcome.phase) == Playing;
              controls == old(controls).(held := old(controls.held) + {k},
                                         spaceFired := old(controls.spaceFired) || (playing && k == Space)) &&
              outcome == old(outcome).(phase := if playing && k == Escape then Paused else old(outcome.phase)) &&
              arena == (if playing && k == Space && !old(controls.spaceFired) && controls.hasPlayer &&
                           !(gear.skill.active && controls.shipIndex == Starfire)
                        then old(arena).(bullets := old(arena.bullets) + Shot(pilot.x, gear.skill.active))
                        else old(arena)) &&
              gear == old(gear).(shield := if playing && k == KeyS then Status.ActivateShield(old(gear.shield))
                                           else old(gear.shield),
                                 skill := if playing && k == Digit1 then Status.ActivateSkill(old(gear.skill))
                                          else old(gear.skill))
    {
      controls := controls.(held := controls.held + {k});
      if outcome.phase != Playing {
        return;
      }
      if k == Escape {
        TogglePause();
      } else if k == Space {
        Fire();
      } else if k == KeyS {
        if !gear.shield.active && gear.shield.cooldown <= 0 {
          ActivateShield();
        }
      } else if k == Digit1 {
        if !gear.skill.active && gear.skill.cooldown <= 0 {
          ActivateSkill();
        }
      }
    }

    /** The keyup listener; releasing Space re-arms firing. */
    method KeyUp(k: Key)
      modifies this`controls
      ensures controls == old(controls).(held := old(controls.held) - {k},
                                         spaceFired := old(controls.spaceFired) && k != Space)
    {
      controls := controls.(held := controls.held - {k});
      if k == Space {
        controls := controls.(spaceFired := false);
      }
    }

    // ------------------------------------------------------------ damage

    /**
     * handleDamage on its own: one hit on the player. A hit with health
     * already at zero makes the hearts readout throw; that is reported as
     * Crash. In the game handleDamage is called only from the asteroid loop
     * of the playing tick, and no event handler fires it. The tick's model
     * does not call this method either: there each collision's damage is
     * part of the asteroid pass Combat.Advance, followed by gameOver once the
     * pass is over (AdvanceAsteroids). This method states the function by
     * itself, for the single hit that Status.Damage describes.
     */
    method HandleDamage() returns (hit: Hit)
      requires Valid()
      modifies this`pilot, this`outcome
      ensures Valid()
      ensures var d := Damage(old(pilot.vitals), gear.shield.active);
              var hurt := old(State()).(pilot := old(pilot).(vitals := d.after));
              hit == d.hit && State() == if hit == Fatal then Ended(hurt) else hurt
    {
      ghost var w := State();
      if pilot.vitals.invincible || gear.shield.active {
        return Ignored;
      }
      pilot := pilot.(vitals := pilot.vitals.(health := pilot.vitals.health - 1));
      if pilot.vitals.health < 0 {
        return Crash;
      }
      if pilot.vitals.health <= 0 {
        GameOver();
        hit := Fatal;
      } else {
        pilot := pilot.(vitals := Vitals(pilot.vitals.health, true, GraceTicks));
        hit := Hurt;
      }
      DamageKeeps(w);
    }

    // ------------------------------------------------------------ the playing tick
    //
    // Each step of updatePlayingState is a method whose new state is the
    // step function of the same name applied to the old state; the lemmas
    // before the class say what the steps keep and change.

    /** Count the ticks the player has stood still. */
    method TrackStationary()
      modifies this`pilot
      ensures State() == StationaryStep(old(State()))
    {
      if pilot.x == pilot.lastX {
        pilot := pilot.(stationaryFrames := pilot.stationaryFrames + 1);
      } else {
        pilot := pilot.(stationaryFrames := 0);
      }
      pilot := pilot.(lastX := pilot.x);
    }

    /** The invincibility window runs down; the player blinks meanwhile. */
    method TickInvincibility()
      modifies this`pilot
      ensures State() == GraceStep(old(State()))
    {
      var v := pilot.vitals;
      if v.invincible {
        v := v.(timer := v.timer - 1);
        pilot := pilot.(playerVisible := v.timer % 20 < 10);
        if v.timer <= 0 {
          v := v.(invincible := false);
          pilot := pilot.(playerVisible := true);
        }
      }
      pilot := pilot.(vitals := v);
    }

    /** Move left and right as the held keys say, then clamp. */
    method Steering()
      modifies this`pilot
      ensures State() == SteerStep(old(State()))
    {
      var held := controls.held;
      pilot := pilot.(x := Steer(pilot.x, KeyA in held || ArrowLeft in held, KeyD in held || ArrowRight in held));
    }

    /** A new level is announced, and level 11 opens the planet once per run. */
    method LevelUp()
      modifies this`course, this`outcome
      ensures State() == LevelStep(old(State()))
    {
      var newLevel := CurrentLevel(course.distance);
      if newLevel > course.level {
        course := course.(level := newLevel);
        if course.level == PlanetLevel && !course.isPlanetLevel {
          course := course.(isPlanetLevel := true);
          outcome := outcome.(phase := LevelTransitioning);
        }
      }
      course := course.(levelProgress := LevelProgress(course.distance));
    }

    /** The spawn counter; a normal asteroid once it passes the interval. */
    method SpawnTick(roll: SpawnRoll)
      requires RollOk(roll)
      modifies this`course, this`arena
      ensures State() == SpawnStep(old(State()), roll)
    {
      var count := course.spawnCounter + 1;
      if (count as real) > SpawnInterval(course.level, course.distance) {
        arena := arena.(asteroids := arena.asteroids + [NewAsteroid(course.level, course.distance, roll)]);
        count := 0;
      }
      course := course.(spawnCounter := count);
    }

    /** A boss when one is due and none is live. */
    method BossTick(draw: real)
      requires IsDraw(draw)
      modifies this`arena
      ensures State() == BossStep(old(State()), draw)
    {
      if ShouldSpawnBoss(course.level, course.levelProgress) && NoBoss(arena.asteroids) {
        arena := arena.(asteroids := arena.asteroids + [NewBoss(course.level, course.distance, draw)]);
      }
    }

    /**
     * The asteroid loop of the playing tick. gameOver is called once the
     * pass is over rather than at the fatal collision itself: nothing it does
     * is read by the rest of the pass, so the resulting state is the same.
     */
    method AdvanceAsteroids() returns (crashed: bool)
      modifies this`arena, this`pilot, this`outcome
      ensures State() == CollideStep(old(State()))
      ensures crashed == Advance(old(arena.asteroids), pilot.x, gear.shield.active, old(pilot.vitals)).crashed
    {
      var p := AdvancePass(arena.asteroids, pilot.x, gear.shield.active, pilot.vitals);
      arena := arena.(asteroids := p.asteroids);
      pilot := pilot.(vitals := p.vitals);
      crashed := p.crashed;
      if p.fatal {
        GameOver();
      }
    }

    /** The bullet loop of the playing tick; the result is the number of draws used. */
    method ResolveBullets(rng: nat -> real) returns (drawn: nat)
      requires IsStream(rng)
      modifies this`arena
      ensures State() == BulletStep(old(State()), rng)
      ensures drawn == Volleyed(old(arena), course.level, rng).tally.drawn
    {
      var r := ResolvePass(arena.bullets, arena.asteroids, course.level,
                           Tally(arena.score, arena.destroyed, arena.debris, 0), rng);
      arena := ArenaState(r.asteroids, r.bullets, r.tally.debris, r.tally.score, r.tally.destroyed);
      drawn := r.tally.drawn;
    }

    /** The shield runs down, then cools down. */
    method TickShield()
      modifies this`gear
      ensures State() == ShieldStep(old(State()))
    {
      var s := gear.shield;
      if s.active {
        s := s.(timer := s.timer - 1);
        if s.timer <= 0 {
          s := s.(active := false, cooldown := ShieldCooldownTicks);
        }
      } else if s.cooldown > 0 {
        s := s.(cooldown := s.cooldown - 1);
      }
      gear := gear.(shield := s);
    }

    /** The beam loop of the playing tick, starting at position `from` of the draw stream. */
    method BurnAsteroids(rng: nat -> real, from: nat)
      requires IsStream(rng)
      modifies this`arena
      ensures State() == BeamStep(old(State()), rng, from)
    {
      var r := BurnPass(arena.asteroids, pilot.x, course.level,
                        Tally(arena.score, arena.destroyed, arena.debris, from), rng);
      arena := arena.(asteroids := r.asteroids, score := r.tally.score, destroyed := r.tally.destroyed,
                      debris := r.tally.debris);
    }

    /**
     * The skill part of the tick. STARFIRE's beam burns while Space is held;
     * the counter that times the skill runs down, and when it reaches 0 the
     * skill and the beam end. The beam's explosions draw from position `from`.
     */
    method TickSkill(rng: nat -> real, from: nat)
      requires IsStream(rng)
      modifies this`gear, this`arena
      ensures State() == SkillStep(old(State()), rng, from)
    {
      var k, beam := gear.skill, gear.laserOn;
      if k.active {
        if controls.shipIndex == Starfire && Space in controls.held {
          beam := true;
          BurnAsteroids(rng, from);
        } else if beam {
          beam := false;
        }
        k := k.(cooldown := k.cooldown - 1);
        if k.cooldown <= 0 {
          k := k.(active := false);
          beam := false;
        }
      } else if k.cooldown > 0 {
        k := k.(cooldown := k.cooldown - 1);
      }
      gear := gear.(skill := k, laserOn := beam);
    }

    /** updateDebris */
    method UpdateDebris()
      modifies this`arena
      ensures State() == DebrisStep(old(State()))
    {
      var d := DecayPass(arena.debris);
      arena := arena.(debris := d);
    }

    /** The distance grows unless the player has stood still too long. */
    method Travel()
      modifies this`course
      ensures State() == DistanceStep(old(State()))
    {
      if pilot.stationaryFrames < StationaryLimit {
        course := course.(distance := course.distance + 1);
      }
    }

    /** The player's part of the tick: standing still, the invincibility window, steering. */
    method MovePlayer()
      modifies this`pilot
      ensures State() == MoveStep(old(State()))
    {
      TrackStationary();
      TickInvincibility();
      Steering();
    }

    /** The level, the planet transition and the spawns of the tick. */
    method ScheduleTick(roll: SpawnRoll, bossDraw: real)
      requires RollOk(roll) && IsDraw(bossDraw)
      modifies this`course, this`outcome, this`arena
      ensures State() == ScheduleStep(old(State()), roll, bossDraw)
    {
      LevelUp();
      SpawnTick(roll);
      BossTick(bossDraw);
    }

    /** The rest of the tick once the asteroid pass is over. */
    method EndTick(rng: nat -> real)
      requires IsStream(rng)
      modifies this`arena, this`gear, this`course
      ensures State() == FinishStep(old(State()), rng)
    {
      var drawn := ResolveBullets(rng);
      TickShield();
      TickSkill(rng, drawn);
      UpdateDebris();
      Travel();
    }

    /** The asteroid pass and, unless it crashed, the rest of the tick. */
    method CombatTick(rng: nat -> real) returns (crashed: bool)
      requires IsStream(rng)
      modifies this`arena, this`pilot, this`outcome, this`gear, this`course
      ensures State() == CombatStep(old(State()), rng)
      ensures crashed == Advance(old(arena.asteroids), pilot.x, old(gear.shield.active), old(pilot.vitals)).crashed
    {
      crashed := AdvanceAsteroids();
      if crashed {
        return;
      }
      EndTick(rng);
    }

    /**
     * updatePlayingState: one tick of play, step by step in the order of the
     * source. gameOver and the planet transition switch the phase mid-tick
     * and the tick goes on; a hit taken at zero health ends it early.
     */
    method UpdatePlayingState(roll: SpawnRoll, bossDraw: real, rng: nat -> real)
      requires Valid() && RollOk(roll) && IsDraw(bossDraw) && IsStream(rng)
      modifies this`pilot, this`course, this`outcome, this`arena, this`gear
      ensures Valid()
      ensures State() == PlayStep(old(State()), roll, bossDraw, rng)
    {
      ghost var w := State();
      if !controls.hasPlayer {
        return;
      }
      MovePlayer();
      ScheduleTick(roll, bossDraw);
      var crashed := CombatTick(rng);
      PlayKeeps(w, roll, bossDraw, rng);
    }

    /**
     * One frame of the animation loop: the switch on gameState. `converged`
     * says that the camera animation of a transition has reached its target.
     */
    method Frame(converged: bool, roll: SpawnRoll, bossDraw: real, rng: nat -> real)
      requires Valid() && RollOk(roll) && IsDraw(bossDraw) && IsStream(rng)
      modifies this
      ensures Valid()
      ensures old(outcome.phase) in {Loading, ShipSelection, Paused, Gameover} ==> unchanged(this)
      ensures old(outcome.phase) == Menu ==>
                if old(controls.hasPlayer && !pilot.playerVisible)
                then State() == old(State()).(controls := old(controls).(shipIndex := 0),
                                              pilot := old(pilot).(x := 0.0, playerVisible := true))
                else unchanged(this)
      ensures old(outcome.phase) == Transitioning || old(outcome.phase) == LevelTransitioning ==>
                State() == old(State()).(outcome := old(outcome).(phase := if converged then Playing
                                                                          else old(outcome.phase)))
      ensures old(outcome.phase) == Playing ==> State() == PlayStep(old(State()), roll, bossDraw, rng)
    {
      if outcome.phase == Menu {
        if controls.hasPlayer && !pilot.playerVisible {
          controls := controls.(shipIndex := 0);
          pilot := pilot.(x := 0.0, playerVisible := true);
        }
      } else if outcome.phase == Transitioning || outcome.phase == LevelTransitioning {
        if converged {
          outcome := outcome.(phase := Playing);
        }
      } else if outcome.phase == Playing {
        UpdatePlayingState(roll, bossDraw, rng);
      }
    }
  }
}
