/**
 * The difficulty curve of the game: pure functions of the current level, the
 * distance travelled and (where the game rolls dice) a random draw in [0, 1).
 */
module Difficulty {

  function Max(a: real, b: real): real { if a >= b then a else b }
  function Min(a: real, b: real): real { if a <= b then a else b }

  /** Milestone level at which the planet backdrop is entered. */
  const PlanetLevel: int := 11

  /** getCurrentLevel: one level per 1000 units of distance, starting at 1. */
  function CurrentLevel(distance: nat): (level: int)
    ensures level >= 1
    ensures (level - 1) * 1000 <= distance < level * 1000
  {
    distance / 1000 + 1
  }

  /** Raising the distance never lowers the level. */
  lemma CurrentLevelMonotone(d1: nat, d2: nat)
    requires d1 <= d2
    ensures CurrentLevel(d1) <= CurrentLevel(d2)
  {
  }

  /** One more unit of distance raises the level by at most one. */
  lemma CurrentLevelStep(d: nat)
    ensures CurrentLevel(d) <= CurrentLevel(d + 1) <= CurrentLevel(d) + 1
  {
  }

  /** getLevelProgress: the percentage of the current 1000-unit bracket travelled. */
  function LevelProgress(distance: nat): (p: real)
    ensures 0.0 <= p < 100.0
    ensures p * 10.0 == (distance - (CurrentLevel(distance) - 1) * 1000) as real
  {
    (distance % 1000) as real / 10.0
  }

  /**
   * getAsteroidSpawnInterval: ticks between two asteroid spawns. The level
   * lowers a base of 50 by 1.5 per level down to 10; every 800 units of
   * distance take one more tick off; the result never drops below 8.
   */
  function SpawnInterval(level: int, distance: nat): (interval: real)
    ensures interval >= 8.0
    ensures level >= 1 ==> interval <= 48.5
    ensures level == 1 && distance < 800 ==> interval == 48.5
  {
    var base := Max(10.0, 50.0 - (level as real) * 1.5);
    var reduction := (distance / 800) as real;
    Max(8.0, base - reduction)
  }

  /** Travelling further never makes asteroids spawn less often. */
  lemma SpawnIntervalMonotone(level: int, d1: nat, d2: nat)
    requires d1 <= d2
    ensures SpawnInterval(level, d2) <= SpawnInterval(level, d1)
  {
    assert (d1 / 800) * 800 <= d1 <= d2 < (d2 / 800) * 800 + 800;
    assert (d1 / 800) as real <= (d2 / 800) as real;
  }

  /** A higher level never makes asteroids spawn less often. */
  lemma SpawnIntervalLevelMonotone(l1: int, l2: int, distance: nat)
    requires l1 <= l2
    ensures SpawnInterval(l2, distance) <= SpawnInterval(l1, distance)
  {
  }

  /** The part of an asteroid's speed that depends on the level alone. */
  function BaseSpeed(level: int): real { 0.2 + (level as real) * 0.02 }

  /**
   * getAsteroidSpeed: level-based speed, plus a distance bonus capped at 0.1,
   * plus a random jitter below 0.02.
   */
  function AsteroidSpeed(level: int, distance: nat, draw: real): (speed: real)
    requires 0.0 <= draw < 1.0
    ensures BaseSpeed(level) <= speed < BaseSpeed(level) + 0.12
    ensures level >= 1 ==> speed >= 0.22
  {
    var bonus := Min(0.00002 * (distance as real), 0.1);
    BaseSpeed(level) + bonus + draw * 0.02
  }

  /**
   * getAsteroidSize: three buckets chosen by `variation`. From level 5 a
   * variation below 0.3 gives a small asteroid in [0.3, 0.6); from level 3 a
   * variation below 0.6 (and not already small) gives a medium one in
   * [0.6, 1.0); everything else is large, in [0.8, 1.3).
   */
  function AsteroidSize(level: int, variation: real, draw: real): (size: real)
    requires 0.0 <= variation < 1.0 && 0.0 <= draw < 1.0
    ensures 0.3 <= size < 1.3
    ensures level >= 5 && variation < 0.3 ==> size < 0.6
    ensures level >= 3 && variation < 0.6 && !(level >= 5 && variation < 0.3) ==> 0.6 <= size < 1.0
    ensures level < 3 || variation >= 0.6 ==> 0.8 <= size
  {
    if level >= 5 && variation < 0.3 then draw * 0.3 + 0.3
    else if level >= 3 && variation < 0.6 then draw * 0.4 + 0.6
    else draw * 0.5 + 0.8
  }

  /** getAsteroidHealth: hit points by size class. */
  function AsteroidHealth(size: real): (health: int)
    ensures 1 <= health <= 3
    ensures health == 1 <==> size < 0.6
    ensures health == 3 <==> size >= 1.0
  {
    if size < 0.6 then 1 else if size < 1.0 then 2 else 3
  }

  /** A bigger asteroid is never weaker. */
  lemma AsteroidHealthMonotone(s1: real, s2: real)
    requires s1 <= s2
    ensures AsteroidHealth(s1) <= AsteroidHealth(s2)
  {
  }

  /** Below level 3 every asteroid is large, so it takes at least two hits. */
  lemma EarlyAsteroidsAreTough(level: int, variation: real, draw: real)
    requires level < 3 && 0.0 <= variation < 1.0 && 0.0 <= draw < 1.0
    ensures AsteroidHealth(AsteroidSize(level, variation, draw)) >= 2
  {
  }

  /** shouldSpawnBoss: level is a multiple of 5 and progress is at least 90%. */
  function ShouldSpawnBoss(level: int, levelProgress: real): bool
  {
    level % 5 == 0 && levelProgress >= 90.0
  }

  /**
   * In terms of distance, a boss is due only in the last 100 units of a level
   * that is a multiple of 5, and during all of them.
   */
  lemma BossDueWindow(level: int, distance: nat)
    ensures ShouldSpawnBoss(level, LevelProgress(distance))
            <==> level % 5 == 0 && distance % 1000 >= 900
  {
  }

  /** Boss hit points: twice the level. */
  function BossHealth(level: int): (health: int)
    ensures level >= 1 ==> health >= 2
    ensures health % 2 == 0
  {
    level * 2
  }
}
