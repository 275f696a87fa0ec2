/**
 * The entity registry: asteroids, bullets and debris pieces as records, how
 * they are created, and the bookkeeping predicates the combat passes keep.
 * Only the fields the simulation reads are kept: rotation rates, debris
 * velocities, meshes and colours belong to rendering.
 */
module Registry {
  import opened Difficulty

  /** An asteroid at (x, 0, z); health is real because the beam takes 0.1 at a time. */
  datatype Asteroid = Asteroid(x: real, z: real, speed: real, health: real, maxHealth: real, isBoss: bool)

  /** A bullet at (x, 0, z), moving along z by `speed` each tick. */
  datatype Bullet = Bullet(x: real, z: real, speed: real)

  /** A debris piece: only its remaining lifespan matters to the simulation. */
  datatype Debris = Debris(lifespan: real)

  /** The random draws one normal spawn uses: lane, size bucket, size, speed. */
  datatype SpawnRoll = SpawnRoll(lane: real, variation: real, size: real, speed: real)

  predicate IsDraw(r: real) { 0.0 <= r < 1.0 }

  predicate RollOk(roll: SpawnRoll)
  {
    IsDraw(roll.lane) && IsDraw(roll.variation) && IsDraw(roll.size) && IsDraw(roll.speed)
  }

  /** A stream of draws of Math.random, consumed by explosions in order. */
  ghost predicate IsStream(rng: nat -> real)
  {
    forall n: nat :: IsDraw(rng(n))
  }

  const Lanes: seq<real> := [-4.0, -2.0, 0.0, 2.0, 4.0]
  const SpawnDepth: real := -100.0
  const BulletSpeed: real := -0.8
  const MuzzleOffset: real := 1.5
  const DebrisPerExplosion: nat := 10

  /** The lane picked by floor(draw * 5). */
  function Lane(draw: real): (x: real)
    requires IsDraw(draw)
    ensures x in Lanes
  {
    Lanes[(draw * 5.0).Floor]
  }

  /** spawnAsteroid */
  function NewAsteroid(level: int, distance: nat, roll: SpawnRoll): (a: Asteroid)
    requires RollOk(roll)
    ensures a.x in Lanes && a.z == SpawnDepth && !a.isBoss
    ensures a.health == a.maxHealth
    ensures a.health == 1.0 || a.health == 2.0 || a.health == 3.0
    ensures level >= 1 ==> a.speed > 0.0
  {
    var size := AsteroidSize(level, roll.variation, roll.size);
    var h := AsteroidHealth(size) as real;
    Asteroid(Lane(roll.lane), SpawnDepth, AsteroidSpeed(level, distance, roll.speed), h, h, false)
  }

  /** spawnBossAsteroid: centre lane, half the normal speed, 2*level hit points. */
  function NewBoss(level: int, distance: nat, draw: real): (a: Asteroid)
    requires IsDraw(draw)
    ensures a.isBoss && a.x == 0.0 && a.z == SpawnDepth
    ensures a.health == a.maxHealth == (2 * level) as real
    ensures a.speed * 2.0 == AsteroidSpeed(level, distance, draw)
  {
    var h := BossHealth(level) as real;
    Asteroid(0.0, SpawnDepth, AsteroidSpeed(level, distance, draw) * 0.5, h, h, true)
  }

  /**
   * shootBullet's bullets, fired from the player at x: one bullet, or a
   * spread of three half a unit apart while the BLUE NOVA skill is active.
   */
  function Shot(x: real, spread: bool): (r: seq<Bullet>)
    ensures |r| == if spread then 3 else 1
    ensures forall b <- r :: b.z == -MuzzleOffset && b.speed == BulletSpeed && x - 0.5 <= b.x <= x + 0.5
    ensures r[|r| / 2].x == x
    ensures spread ==> r[0].x == x - 0.5 && r[2].x == x + 0.5
  {
    if spread then
      [Bullet(x - 0.5, -MuzzleOffset, BulletSpeed), Bullet(x, -MuzzleOffset, BulletSpeed), Bullet(x + 0.5, -MuzzleOffset, BulletSpeed)]
    else
      [Bullet(x, -MuzzleOffset, BulletSpeed)]
  }

  /** createExplosion: ten pieces, each living 40 + 30 * draw ticks. */
  function Explosion(rng: nat -> real, from: nat): (r: seq<Debris>)
    requires IsStream(rng)
    ensures |r| == DebrisPerExplosion
    ensures forall p <- r :: 40.0 <= p.lifespan < 70.0
  {
    seq(DebrisPerExplosion, p requires 0 <= p => Debris(40.0 + rng(from + p) * 30.0))
  }

  // ---------------------------------------------------------------- debris

  /**
   * updateDebris: every piece loses one tick of lifespan and the ones at or
   * below zero are removed; the survivors keep their order.
   */
  function Decayed(d: seq<Debris>): (r: seq<Debris>)
    ensures |r| <= |d|
    ensures forall p <- r :: p.lifespan > 0.0
    decreases |d|
  {
    if d == [] then []
    else
      var piece := Debris(d[|d| - 1].lifespan - 1.0);
      Decayed(d[..|d| - 1]) + (if piece.lifespan <= 0.0 then [] else [piece])
  }

  /** The number of pieces with more than one tick left. */
  function Lasting(d: seq<Debris>): nat
    decreases |d|
  {
    if d == [] then 0 else Lasting(d[..|d| - 1]) + (if d[|d| - 1].lifespan > 1.0 then 1 else 0)
  }

  /**
   * A reference reading of updateDebris, front to back: keep, in order, each
   * piece with more than one tick left, one tick younger.
   */
  function Survivors(d: seq<Debris>): seq<Debris>
    decreases |d|
  {
    if d == [] then []
    else (if d[0].lifespan > 1.0 then [Debris(d[0].lifespan - 1.0)] else []) + Survivors(d[1..])
  }

  lemma {:induction false} SurvivorsAppend(a: seq<Debris>, b: seq<Debris>)
    ensures Survivors(a + b) == Survivors(a) + Survivors(b)
    decreases |a|
  {
    if a == [] {
      assert a + b == b;
    } else {
      assert (a + b)[0] == a[0];
      assert (a + b)[1..] == a[1..] + b;
      SurvivorsAppend(a[1..], b);
    }
  }

  /**
   * After decay exactly the pieces that had more than one tick left remain,
   * in their order and each exactly one tick younger; all are still alive,
   * and none is older than one tick less than the bound.
   */
  lemma {:induction false} DecayedSurvivors(d: seq<Debris>, bound: real)
    requires forall p <- d :: p.lifespan <= bound
    ensures Decayed(d) == Survivors(d)
    ensures |Decayed(d)| == Lasting(d)
    ensures forall p <- Decayed(d) :: 0.0 < p.lifespan <= bound - 1.0
    decreases |d|
  {
    if d != [] {
      var init, last := d[..|d| - 1], d[|d| - 1];
      assert d == init + [last];
      DecayedSurvivors(init, bound);
      SurvivorsAppend(init, [last]);
      assert Survivors([last]) == (if last.lifespan > 1.0 then [Debris(last.lifespan - 1.0)] else []) by {
        assert [last][1..] == [];
      }
    }
  }

  /**
   * One step of the reverse decay loop at index i: the piece there is
   * decayed in place or spliced out, and what is left to do on the prefix
   * still yields the same overall result.
   */
  lemma DecayedStep(d: seq<Debris>, i: nat)
    requires i < |d|
    ensures var piece := Debris(d[i].lifespan - 1.0);
            var e := if piece.lifespan <= 0.0 then d[..i] + d[i + 1..] else d[i := piece];
            Decayed(d[..i + 1]) + d[i + 1..] == Decayed(e[..i]) + e[i..]
  {
    var piece := Debris(d[i].lifespan - 1.0);
    assert d[..i + 1][..i] == d[..i];
    if piece.lifespan <= 0.0 {
      assert (d[..i] + d[i + 1..])[..i] == d[..i];
      assert (d[..i] + d[i + 1..])[i..] == d[i + 1..];
    } else {
      assert d[i := piece][..i] == d[..i];
      assert d[i := piece][i..] == [piece] + d[i + 1..];
    }
  }

  // ---------------------------------------------------------------- bosses

  /** The number of bosses among the asteroids. */
  function Bosses(s: seq<Asteroid>): nat
    decreases |s|
  {
    if s == [] then 0 else Bosses(s[..|s| - 1]) + (if s[|s| - 1].isBoss then 1 else 0)
  }

  /** `asteroids.every(ast => !ast.userData.isBoss)` */
  predicate NoBoss(s: seq<Asteroid>)
  {
    forall a <- s :: !a.isBoss
  }

  lemma {:induction false} NoBossCount(s: seq<Asteroid>)
    ensures NoBoss(s) <==> Bosses(s) == 0
    decreases |s|
  {
    if s != [] {
      NoBossCount(s[..|s| - 1]);
      assert s == s[..|s| - 1] + [s[|s| - 1]];
    }
  }

  lemma {:induction false} BossesAppend(a: seq<Asteroid>, b: seq<Asteroid>)
    ensures Bosses(a + b) == Bosses(a) + Bosses(b)
    decreases |b|
  {
    if b != [] {
      assert (a + b)[..|a + b| - 1] == a + b[..|b| - 1];
      BossesAppend(a, b[..|b| - 1]);
    } else {
      assert a + b == a;
    }
  }

  /** Dropping the asteroid at j removes its boss, if it is one. */
  lemma {:induction false} BossesRemove(s: seq<Asteroid>, j: nat)
    requires j < |s|
    ensures Bosses(s[..j] + s[j + 1..]) == Bosses(s) - (if s[j].isBoss then 1 else 0)
  {
    var pre, one, post := s[..j], [s[j]], s[j + 1..];
    assert s == pre + one + post;
    BossesAppend(pre + one, post);
    BossesAppend(pre, one);
    BossesAppend(pre, post);
    assert Bosses(one) == (if s[j].isBoss then 1 else 0) by {
      assert one[..0] == [];
    }
  }

  /** Replacing the asteroid at j by one with the same boss flag keeps the count. */
  lemma {:induction false} BossesUpdate(s: seq<Asteroid>, j: nat, a: Asteroid)
    requires j < |s| && a.isBoss == s[j].isBoss
    ensures Bosses(s[j := a]) == Bosses(s)
  {
    BossesRemove(s, j);
    BossesRemove(s[j := a], j);
    assert s[j := a][..j] == s[..j];
    assert s[j := a][j + 1..] == s[j + 1..];
  }

  // ---------------------------------------------------------------- health

  /** An asteroid still in play: positive health, not above its maximum. */
  predicate Healthy(a: Asteroid)
  {
    0.0 < a.health <= a.maxHealth
  }

  /**
   * Every asteroid in the list is healthy. Written, like Bosses, by peeling
   * off the last element; LiveIff gives the quantified reading.
   */
  predicate Live(s: seq<Asteroid>)
    decreases |s|
  {
    s == [] || (Live(s[..|s| - 1]) && Healthy(s[|s| - 1]))
  }

  lemma {:induction false} LiveIff(s: seq<Asteroid>)
    ensures Live(s) <==> forall a <- s :: Healthy(a)
    decreases |s|
  {
    if s != [] {
      LiveIff(s[..|s| - 1]);
      assert s == s[..|s| - 1] + [s[|s| - 1]];
    }
  }

  lemma LiveSnoc(s: seq<Asteroid>, a: Asteroid)
    ensures Live(s + [a]) <==> Live(s) && Healthy(a)
  {
    assert (s + [a])[..|s|] == s;
  }

  /** The hit points left in the registry, all asteroids together. */
  function TotalHealth(s: seq<Asteroid>): real
    decreases |s|
  {
    if s == [] then 0.0 else TotalHealth(s[..|s| - 1]) + s[|s| - 1].health
  }

  lemma {:induction false} TotalHealthAppend(a: seq<Asteroid>, b: seq<Asteroid>)
    ensures TotalHealth(a + b) == TotalHealth(a) + TotalHealth(b)
    decreases |b|
  {
    if b != [] {
      assert (a + b)[..|a + b| - 1] == a + b[..|b| - 1];
      TotalHealthAppend(a, b[..|b| - 1]);
    } else {
      assert a + b == a;
    }
  }

  /** Dropping the asteroid at j removes exactly its hit points. */
  lemma {:induction false} TotalHealthRemove(s: seq<Asteroid>, j: nat)
    requires j < |s|
    ensures TotalHealth(s[..j] + s[j + 1..]) == TotalHealth(s) - s[j].health
  {
    var pre, one, post := s[..j], [s[j]], s[j + 1..];
    assert s == pre + one + post;
    TotalHealthAppend(pre + one, post);
    TotalHealthAppend(pre, one);
    TotalHealthAppend(pre, post);
    assert one[..0] == [];
  }

  /** Replacing the asteroid at j changes the total by the difference in its hit points. */
  lemma {:induction false} TotalHealthUpdate(s: seq<Asteroid>, j: nat, a: Asteroid)
    requires j < |s|
    ensures TotalHealth(s[j := a]) == TotalHealth(s) - s[j].health + a.health
  {
    TotalHealthRemove(s, j);
    TotalHealthRemove(s[j := a], j);
    assert s[j := a][..j] == s[..j];
    assert s[j := a][j + 1..] == s[j + 1..];
  }

  /** Appending a healthy asteroid keeps the list live and counts its boss flag. */
  lemma AppendKeeps(s: seq<Asteroid>, a: Asteroid)
    requires Healthy(a)
    ensures Bosses(s + [a]) == Bosses(s) + (if a.isBoss then 1 else 0)
    ensures Live(s) ==> Live(s + [a])
  {
    assert (s + [a])[..|s|] == s;
  }

  /** Dropping an asteroid keeps the rest live. */
  lemma LiveRemove(s: seq<Asteroid>, j: nat)
    requires j < |s| && Live(s)
    ensures Live(s[..j] + s[j + 1..])
  {
    LiveIff(s);
    forall a <- s[..j] + s[j + 1..] ensures Healthy(a) {
      assert a in s[..j] || a in s[j + 1..];
    }
    LiveIff(s[..j] + s[j + 1..]);
  }

  /** Weakening one asteroid without killing it keeps the list live. */
  lemma LiveUpdate(s: seq<Asteroid>, j: nat, a: Asteroid)
    requires j < |s| && Live(s)
    requires a.maxHealth == s[j].maxHealth && 0.0 < a.health <= s[j].health
    ensures Live(s[j := a])
  {
    LiveIff(s);
    var u := s[j := a];
    forall k | 0 <= k < |u| ensures Healthy(u[k]) {
      if k != j {
        assert u[k] == s[k];
      } else {
        assert s[j] in s;
      }
    }
    LiveIff(u);
  }

}
