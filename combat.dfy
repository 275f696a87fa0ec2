/**
 * The three combat passes of a playing tick, each as a function of the state
 * before it. Every pass walks its collection from the last index down to 0
 * and splices out what it removes, so each function peels off the LAST
 * element first and threads the running state (player vitals, or the score
 * tally) into the pass over the elements before it. The game class runs the
 * same passes as while loops and is proved to compute these functions.
 */
module Combat {
  import opened Difficulty
  import opened Status
  import opened Registry

  /** Asteroids beyond this depth have passed the player and are dropped. */
  const DespawnDepth: real := 10.0
  /** Bullets beyond this depth have left the field and are dropped. */
  const BulletRange: real := -50.0
  /** The beam's damage per tick. */
  const BeamDamage: real := 0.1
  /** Half the width of the beam. */
  const BeamHalfWidth: real := 0.5

  /** 3.0 for a boss, 1.2 otherwise, and 0.8 more while the shield is up. */
  function CollisionRadius(a: Asteroid, shielded: bool): real
  {
    (if a.isBoss then 3.0 else 1.2) + (if shielded then 0.8 else 0.0)
  }

  /** The asteroid is closer than the collision radius to the player at (px, 0, 0). */
  predicate Collides(px: real, a: Asteroid, shielded: bool)
  {
    var r := CollisionRadius(a, shielded);
    (a.x - px) * (a.x - px) + a.z * a.z < r * r
  }

  /** The bullet is closer than 1 to the asteroid. */
  predicate Overlaps(b: Bullet, a: Asteroid)
  {
    (b.x - a.x) * (b.x - a.x) + (b.z - a.z) * (b.z - a.z) < 1.0
  }

  /** The asteroid's lane is within half a unit of the player's x. */
  predicate InBeam(px: real, a: Asteroid)
  {
    -BeamHalfWidth < a.x - px < BeamHalfWidth
  }

  /** Points for destroying an asteroid: 50, or 100 per level for a boss. */
  function Points(a: Asteroid, level: int): (p: int)
    ensures level >= 1 ==> p >= 50
    ensures level >= 1 && a.isBoss ==> p >= 2 * 50
  {
    if a.isBoss then level * 100 else 50
  }

  /**
   * The points for the asteroids that are in `before` but no longer in
   * `after`: 50 each, and 100 per level instead for the bosses among them.
   */
  function Earned(before: seq<Asteroid>, after: seq<Asteroid>, level: int): int
  {
    var kills := |before| - |after|;
    var bossKills := Bosses(before) - Bosses(after);
    50 * (kills - bossKills) + level * 100 * bossKills
  }

  /** An asteroid that stays (with the same boss flag) earns nothing. */
  lemma EarnedKeep(before: seq<Asteroid>, after: seq<Asteroid>, a: Asteroid, a': Asteroid, level: int)
    requires a'.isBoss == a.isBoss
    ensures Earned(before + [a], after + [a'], level) == Earned(before, after, level)
  {
    BossesAppend(before, [a]);
    BossesAppend(after, [a']);
    assert Bosses([a]) == Bosses([a']) by {
      assert [a][..0] == [a'][..0];
    }
  }

  /** An asteroid that is destroyed earns its points. */
  lemma EarnedKill(before: seq<Asteroid>, after: seq<Asteroid>, a: Asteroid, level: int)
    ensures Earned(before + [a], after, level) == Earned(before, after, level) + Points(a, level)
  {
    BossesAppend(before, [a]);
    assert Bosses([a]) == (if a.isBoss then 1 else 0) by {
      assert [a][..0] == [];
    }
    var b := Bosses(before) - Bosses(after);
    if a.isBoss {
      assert level * 100 * (b + 1) == level * 100 * b + level * 100;
    }
  }

  /** The same, for an asteroid spliced out of the middle of the list. */
  lemma EarnedSplice(s: seq<Asteroid>, j: nat, after: seq<Asteroid>, level: int)
    requires j < |s|
    ensures Earned(s, after, level) == Earned(s[..j] + s[j + 1..], after, level) + Points(s[j], level)
  {
    BossesRemove(s, j);
    var b := Bosses(s[..j] + s[j + 1..]) - Bosses(after);
    if s[j].isBoss {
      assert level * 100 * (b + 1) == level * 100 * b + level * 100;
    }
  }

  /** Weakening an asteroid in place earns nothing. */
  lemma EarnedUpdate(s: seq<Asteroid>, j: nat, a: Asteroid, after: seq<Asteroid>, level: int)
    requires j < |s| && a.isBoss == s[j].isBoss
    ensures Earned(s[j := a], after, level) == Earned(s, after, level)
  {
    BossesUpdate(s, j, a);
  }

  /** The running score, destroyed count, debris list and draws used so far. */
  datatype Tally = Tally(score: int, destroyed: int, debris: seq<Debris>, drawn: nat)

  /** An asteroid destroyed in combat: points, count, and an explosion of debris. */
  function Kill(t: Tally, a: Asteroid, level: int, rng: nat -> real): Tally
    requires IsStream(rng)
  {
    Tally(t.score + Points(a, level), t.destroyed + 1, t.debris + Explosion(rng, t.drawn), t.drawn + DebrisPerExplosion)
  }

  /** A debris piece that is alive and younger than the longest explosion lifespan. */
  predicate Fresh(p: Debris)
  {
    0.0 < p.lifespan < 70.0
  }

  /** Every debris piece is fresh, peeling off the last one first. */
  predicate DebrisOk(d: seq<Debris>)
    decreases |d|
  {
    d == [] || (DebrisOk(d[..|d| - 1]) && Fresh(d[|d| - 1]))
  }

  lemma {:induction false} DebrisOkIff(d: seq<Debris>)
    ensures DebrisOk(d) <==> forall p <- d :: Fresh(p)
    decreases |d|
  {
    if d != [] {
      DebrisOkIff(d[..|d| - 1]);
      assert d == d[..|d| - 1] + [d[|d| - 1]];
    }
  }

  /** What one kill adds to the tally. */
  lemma KillAccounting(t: Tally, a: Asteroid, level: int, rng: nat -> real)
    requires IsStream(rng) && level >= 1
    ensures var k := Kill(t, a, level, rng);
            k.score == t.score + (if a.isBoss then level * 100 else 50) &&
            k.score >= t.score + 50 && k.destroyed == t.destroyed + 1 &&
            |k.debris| == |t.debris| + DebrisPerExplosion && k.debris[..|t.debris|] == t.debris &&
            k.drawn == t.drawn + DebrisPerExplosion &&
            (DebrisOk(t.debris) ==> DebrisOk(k.debris))
  {
    var k := Kill(t, a, level, rng);
    assert k.debris[..|t.debris|] == t.debris;
    assert forall p <- k.debris :: p in t.debris || p in Explosion(rng, t.drawn);
    DebrisOkIff(t.debris);
    DebrisOkIff(k.debris);
  }

  // ---------------------------------------------------------------- asteroids

  function Moved(a: Asteroid): Asteroid
  {
    a.(z := a.z + a.speed)
  }

  /** Once moved, the asteroid is still in the field and touches the player. */
  predicate Meets(px: real, a: Asteroid, shielded: bool)
  {
    Moved(a).z <= DespawnDepth && Collides(px, Moved(a), shielded)
  }

  /**
   * The result of the asteroid pass: the asteroids kept, the player's vitals,
   * whether gameOver was called, and whether the pass was cut short by a hit
   * taken at zero health.
   */
  datatype Pass = Pass(asteroids: seq<Asteroid>, vitals: Vitals, fatal: bool, crashed: bool)

  function Glue(r: Pass, tail: seq<Asteroid>, fatal: bool): Pass
  {
    r.(asteroids := r.asteroids + tail, fatal := r.fatal || fatal)
  }

  /**
   * Every asteroid moves forward; one past the despawn depth is dropped; one
   * that touches the player damages it and is dropped, with no points. A hit
   * taken at zero health throws, so the pass stops at that asteroid (already
   * moved) and the asteroids before it are left as they were.
   */
  function Advance(s: seq<Asteroid>, px: real, shielded: bool, v: Vitals): (r: Pass)
    ensures |r.asteroids| <= |s|
    ensures r.vitals.health <= v.health
    decreases |s|
  {
    if s == [] then Pass([], v, false, false)
    else
      var a := Moved(s[|s| - 1]);
      var init := s[..|s| - 1];
      if a.z > DespawnDepth then Glue(Advance(init, px, shielded, v), [], false)
      else if !Collides(px, a, shielded) then Glue(Advance(init, px, shielded, v), [a], false)
      else
        var h := Damage(v, shielded);
        if h.hit == Crash then Pass(init + [a], h.after, false, true)
        else Glue(Advance(init, px, shielded, h.after), [], h.hit == Fatal)
  }

  /** Gluing twice is gluing the concatenated tails. */
  lemma GlueGlue(r: Pass, t1: seq<Asteroid>, t2: seq<Asteroid>, f1: bool, f2: bool)
    ensures Glue(Glue(r, t1, f1), t2, f2) == Glue(r, t1 + t2, f1 || f2)
  {
    assert (r.asteroids + t1) + t2 == r.asteroids + (t1 + t2);
  }

  /**
   * One step of the reverse asteroid loop at index i, with the vitals v
   * before it: the asteroid there is moved and then dropped, kept in place,
   * or, on a hit at zero health, kept and the pass ends.
   */
  lemma AdvanceStep(s: seq<Asteroid>, i: nat, px: real, shielded: bool, v: Vitals, fatal: bool)
    requires i < |s|
    ensures var a := Moved(s[i]);
            var h := Damage(v, shielded);
            var dropped := s[..i] + s[i + 1..];
            var r := Glue(Advance(s[..i + 1], px, shielded, v), s[i + 1..], fatal);
            (a.z > DespawnDepth ==> r == Glue(Advance(dropped[..i], px, shielded, v), dropped[i..], fatal)) &&
            (a.z <= DespawnDepth && !Collides(px, a, shielded) ==>
               r == Glue(Advance(s[i := a][..i], px, shielded, v), s[i := a][i..], fatal)) &&
            (a.z <= DespawnDepth && Collides(px, a, shielded) && h.hit == Crash ==>
               r == Pass(s[i := a], h.after, fatal, true)) &&
            (a.z <= DespawnDepth && Collides(px, a, shielded) && h.hit != Crash ==>
               r == Glue(Advance(dropped[..i], px, shielded, h.after), dropped[i..], fatal || h.hit == Fatal))
  {
    var a := Moved(s[i]);
    var dropped := s[..i] + s[i + 1..];
    assert s[..i + 1][..i] == s[..i];
    assert dropped[..i] == s[..i] && dropped[i..] == s[i + 1..];
    assert s[i := a][..i] == s[..i] && s[i := a][i..] == [a] + s[i + 1..];
    assert s[i := a] == s[..i] + [a] + s[i + 1..];
    GlueGlue(Advance(s[..i], px, shielded, v), [], s[i + 1..], false, fatal);
    GlueGlue(Advance(s[..i], px, shielded, v), [a], s[i + 1..], false, fatal);
    GlueGlue(Advance(s[..i], px, shielded, Damage(v, shielded).after), [], s[i + 1..], Damage(v, shielded).hit == Fatal, fatal);
  }

  /**
   * After the pass (unless it crashed) the asteroids left are exactly the
   * moved ones that are still in the field and do not touch the player:
   * every such asteroid is kept, every one kept is such an asteroid. None
   * is added, no boss appears, and health is untouched.
   */
  lemma {:induction false} AdvanceKeeps(s: seq<Asteroid>, px: real, shielded: bool, v: Vitals)
    ensures var r := Advance(s, px, shielded, v);
            |r.asteroids| <= |s| && Bosses(r.asteroids) <= Bosses(s) &&
            (Live(s) ==> Live(r.asteroids)) &&
            (!r.crashed ==> forall a <- r.asteroids :: a.z <= DespawnDepth && !Collides(px, a, shielded)) &&
            (!r.crashed ==> forall c <- r.asteroids :: exists k :: 0 <= k < |s| && c == Moved(s[k])) &&
            (!r.crashed ==>
               forall k :: 0 <= k < |s| && Moved(s[k]).z <= DespawnDepth && !Collides(px, Moved(s[k]), shielded) ==>
                 Moved(s[k]) in r.asteroids)
    decreases |s|
  {
    AdvanceKept(s, px, shielded, v);
    AdvanceOrigin(s, px, shielded, v);
    if s != [] {
      var a := Moved(s[|s| - 1]);
      var init := s[..|s| - 1];
      assert s == init + [s[|s| - 1]];
      BossesAppend(init, [s[|s| - 1]]);
      BossesAppend(init, [a]);
      assert Bosses([a]) == Bosses([s[|s| - 1]]) by {
        assert [a][..0] == [s[|s| - 1]][..0];
      }
      var h := Damage(v, shielded);
      if a.z > DespawnDepth || Collides(px, a, shielded) {
        if !(Collides(px, a, shielded) && a.z <= DespawnDepth && h.hit == Crash) {
          var v' := if a.z > DespawnDepth then v else h.after;
          AdvanceKeeps(init, px, shielded, v');
          assert Advance(init, px, shielded, v').asteroids + [] == Advance(init, px, shielded, v').asteroids;
        }
      } else {
        AdvanceKeeps(init, px, shielded, v);
        BossesAppend(Advance(init, px, shielded, v).asteroids, [a]);
      }
    }
  }

  /**
   * The pass takes at most one heart unless it crashes: the vitals end up
   * either unchanged or as after exactly one damage. Invincibility and the
   * shield absorb everything. gameOver is called only if the first damaging
   * hit was fatal, and the pass crashes only after a fatal hit or when health
   * was already at zero. Conversely, a pass that takes the last heart always
   * calls gameOver. An asteroid that meets the player while neither
   * invincibility nor the shield is up costs a heart, and a pass in which no
   * asteroid meets the player leaves the vitals alone.
   */
  lemma {:induction false} AdvanceHarm(s: seq<Asteroid>, px: real, shielded: bool, v: Vitals)
    ensures var r := Advance(s, px, shielded, v);
            var d := Damage(v, shielded);
            (!v.invincible && !shielded && (exists k :: 0 <= k < |s| && Meets(px, s[k], shielded)) ==>
               r.vitals.health < v.health) &&
            ((forall k :: 0 <= k < |s| ==> !Meets(px, s[k], shielded)) ==>
               r.vitals == v && !r.fatal && !r.crashed) &&
            (v.invincible || shielded ==> r.vitals == v && !r.fatal && !r.crashed) &&
            (!r.crashed ==> r.vitals == v || (d.hit != Crash && r.vitals == d.after)) &&
            (r.fatal ==> d.hit == Fatal) &&
            (v.health >= 1 && r.vitals.health <= 0 ==> r.fatal) &&
            (r.crashed ==> (d.hit == Crash || d.hit == Fatal) && r.vitals.health < 0) &&
            r.vitals.health <= v.health &&
            (VitalsOk(v) ==> VitalsOk(r.vitals))
    decreases |s|
  {
    AdvanceCollisions(s, px, shielded, v);
    if s != [] {
      var a := Moved(s[|s| - 1]);
      var init := s[..|s| - 1];
      var h := Damage(v, shielded);
      if a.z > DespawnDepth || !Collides(px, a, shielded) {
        AdvanceHarm(init, px, shielded, v);
      } else if h.hit != Crash {
        AdvanceHarm(init, px, shielded, h.after);
      }
    }
  }

  /**
   * An asteroid that meets the player while neither invincibility nor the
   * shield is up costs a heart; a pass in which no asteroid meets the player
   * leaves the vitals as they were.
   */
  lemma {:induction false} AdvanceCollisions(s: seq<Asteroid>, px: real, shielded: bool, v: Vitals)
    ensures var r := Advance(s, px, shielded, v);
            (!v.invincible && !shielded && (exists k :: 0 <= k < |s| && Meets(px, s[k], shielded)) ==>
               r.vitals.health < v.health) &&
            ((forall k :: 0 <= k < |s| ==> !Meets(px, s[k], shielded)) ==>
               r.vitals == v && !r.fatal && !r.crashed)
    decreases |s|
  {
    if s != [] {
      var init := s[..|s| - 1];
      assert forall k :: 0 <= k < |init| ==> init[k] == s[k];
      if !Meets(px, s[|s| - 1], shielded) {
        AdvanceCollisions(init, px, shielded, v);
        if !v.invincible && !shielded && (exists k :: 0 <= k < |s| && Meets(px, s[k], shielded)) {
          var k :| 0 <= k < |s| && Meets(px, s[k], shielded);
          assert Meets(px, init[k], shielded);
        }
      }
    }
  }

  /**
   * Unless the pass crashed, every asteroid that, once moved, is still in the
   * field and does not touch the player is kept, moved.
   */
  lemma {:induction false} AdvanceKept(s: seq<Asteroid>, px: real, shielded: bool, v: Vitals)
    ensures var r := Advance(s, px, shielded, v);
            !r.crashed ==>
              forall k :: 0 <= k < |s| && Moved(s[k]).z <= DespawnDepth && !Collides(px, Moved(s[k]), shielded) ==>
                Moved(s[k]) in r.asteroids
    decreases |s|
  {
    if s != [] {
      var a := Moved(s[|s| - 1]);
      var init := s[..|s| - 1];
      assert forall k :: 0 <= k < |init| ==> init[k] == s[k];
      var v' := if a.z > DespawnDepth || !Collides(px, a, shielded) then v else Damage(v, shielded).after;
      AdvanceKept(init, px, shielded, v');
    }
  }

  /** Unless the pass crashed, every asteroid left is one of the pass's asteroids, moved. */
  lemma {:induction false} AdvanceOrigin(s: seq<Asteroid>, px: real, shielded: bool, v: Vitals)
    ensures var r := Advance(s, px, shielded, v);
            !r.crashed ==> forall c <- r.asteroids :: exists k :: 0 <= k < |s| && c == Moved(s[k])
    decreases |s|
  {
    var r := Advance(s, px, shielded, v);
    if s != [] && !r.crashed {
      var a := Moved(s[|s| - 1]);
      var init := s[..|s| - 1];
      var v' := if a.z > DespawnDepth || !Collides(px, a, shielded) then v else Damage(v, shielded).after;
      AdvanceOrigin(init, px, shielded, v');
      var q := Advance(init, px, shielded, v');
      assert !q.crashed;
      assert forall c <- q.asteroids :: exists k :: 0 <= k < |init| && c == Moved(init[k]);
      forall c <- r.asteroids
        ensures exists k :: 0 <= k < |s| && c == Moved(s[k])
      {
        if c in q.asteroids {
          var k :| 0 <= k < |init| && c == Moved(init[k]);
          assert init[k] == s[k];
        } else {
          assert c == Moved(s[|s| - 1]);
        }
      }
    }
  }

  /** A pass that called gameOver leaves the player with no health left. */
  lemma {:induction false} AdvanceFatal(s: seq<Asteroid>, px: real, shielded: bool, v: Vitals)
    ensures var r := Advance(s, px, shielded, v);
            r.fatal ==> r.vitals.health <= 0
    decreases |s|
  {
    if s != [] {
      var a := Moved(s[|s| - 1]);
      var init := s[..|s| - 1];
      var h := Damage(v, shielded);
      if a.z > DespawnDepth || !Collides(px, a, shielded) {
        AdvanceFatal(init, px, shielded, v);
      } else if h.hit != Crash {
        AdvanceFatal(init, px, shielded, h.after);
      }
    }
  }

  /**
   * The quantifier-free facts of AdvanceKeeps and AdvanceHarm that the
   * playing tick reads, kept apart so that the tick's proof does not carry
   * the quantified ones.
   */
  lemma AdvanceSummary(s: seq<Asteroid>, px: real, shielded: bool, v: Vitals)
    ensures var r := Advance(s, px, shielded, v);
            Bosses(r.asteroids) <= Bosses(s) && (Live(s) ==> Live(r.asteroids)) &&
            (VitalsOk(v) ==> VitalsOk(r.vitals)) &&
            r.vitals.health <= v.health && (r.vitals.health >= v.health - 1 || r.vitals.health < 0) &&
            (v.health >= 1 && r.vitals.health <= 0 ==> r.fatal)
  {
    AdvanceKeeps(s, px, shielded, v);
    AdvanceHarm(s, px, shielded, v);
  }

  // ---------------------------------------------------------------- bullets

  function Flown(b: Bullet): Bullet
  {
    b.(z := b.z + b.speed)
  }

  /**
   * The asteroid a bullet hits: the one with the HIGHEST index among those it
   * overlaps (the scan runs from the last asteroid down), or -1.
   */
  function TargetOf(b: Bullet, s: seq<Asteroid>): (j: int)
    ensures -1 <= j < |s|
    ensures j >= 0 ==> Overlaps(b, s[j])
    ensures forall k :: j < k < |s| ==> !Overlaps(b, s[k])
    decreases |s|
  {
    if s == [] then -1
    else if Overlaps(b, s[|s| - 1]) then |s| - 1
    else TargetOf(b, s[..|s| - 1])
  }

  datatype Impact = Impact(asteroids: seq<Asteroid>, tally: Tally)

  /**
   * A bullet hits asteroid j: it loses exactly one hit point; at zero or less
   * it is destroyed and scored, otherwise it stays in place. No other
   * asteroid is touched.
   */
  function Strike(s: seq<Asteroid>, j: nat, level: int, t: Tally, rng: nat -> real): (r: Impact)
    requires j < |s| && IsStream(rng)
    ensures |r.asteroids| >= j && r.asteroids[..j] == s[..j]
    ensures s[j].health - 1.0 <= 0.0 ==>
              |r.asteroids| == |s| - 1 && r.asteroids[j..] == s[j + 1..] &&
              r.tally == Kill(t, s[j], level, rng)
    ensures s[j].health - 1.0 > 0.0 ==>
              |r.asteroids| == |s| && r.asteroids[j + 1..] == s[j + 1..] && r.tally == t &&
              r.asteroids[j] == s[j].(health := s[j].health - 1.0)
  {
    var hit := s[j].(health := s[j].health - 1.0);
    if hit.health <= 0.0 then Impact(s[..j] + s[j + 1..], Kill(t, hit, level, rng))
    else Impact(s[j := hit], t)
  }

  datatype Volley = Volley(bullets: seq<Bullet>, asteroids: seq<Asteroid>, tally: Tally)

  function Keep(r: Volley, tail: seq<Bullet>): Volley
  {
    r.(bullets := r.bullets + tail)
  }

  /**
   * Every bullet moves; one out of range is dropped; one that overlaps an
   * asteroid strikes its target and is dropped; the others stay.
   */
  function Resolve(bs: seq<Bullet>, s: seq<Asteroid>, level: int, t: Tally, rng: nat -> real): (r: Volley)
    requires IsStream(rng)
    decreases |bs|
  {
    if bs == [] then Volley([], s, t)
    else
      var b := Flown(bs[|bs| - 1]);
      var init := bs[..|bs| - 1];
      if b.z < BulletRange then Resolve(init, s, level, t, rng)
      else
        var j := TargetOf(b, s);
        if j < 0 then Keep(Resolve(init, s, level, t, rng), [b])
        else
          var m := Strike(s, j, level, t, rng);
          Resolve(init, m.asteroids, level, m.tally, rng)
  }

  /**
   * One step of the reverse bullet loop at index i: the bullet there is
   * moved and then dropped as out of range, kept in place, or spent on its
   * target.
   */
  lemma ResolveStep(bs: seq<Bullet>, i: nat, s: seq<Asteroid>, level: int, t: Tally, rng: nat -> real)
    requires i < |bs| && IsStream(rng)
    ensures var b := Flown(bs[i]);
            var j := TargetOf(b, s);
            var dropped := bs[..i] + bs[i + 1..];
            var r := Keep(Resolve(bs[..i + 1], s, level, t, rng), bs[i + 1..]);
            (b.z < BulletRange ==> r == Keep(Resolve(dropped[..i], s, level, t, rng), dropped[i..])) &&
            (b.z >= BulletRange && j < 0 ==>
               r == Keep(Resolve(bs[i := b][..i], s, level, t, rng), bs[i := b][i..])) &&
            (b.z >= BulletRange && j >= 0 ==>
               var m := Strike(s, j, level, t, rng);
               r == Keep(Resolve(dropped[..i], m.asteroids, level, m.tally, rng), dropped[i..]))
  {
    var b := Flown(bs[i]);
    var dropped := bs[..i] + bs[i + 1..];
    assert bs[..i + 1][..i] == bs[..i];
    assert dropped[..i] == bs[..i] && dropped[i..] == bs[i + 1..];
    assert bs[i := b][..i] == bs[..i] && bs[i := b][i..] == [b] + bs[i + 1..];
    var r0 := Resolve(bs[..i], s, level, t, rng);
    assert r0.bullets + [b] + bs[i + 1..] == r0.bullets + ([b] + bs[i + 1..]);
  }

  /** Every asteroid of `after` sits where some asteroid of `before` sits. */
  predicate Within(after: seq<Asteroid>, before: seq<Asteroid>)
  {
    forall c <- after :: exists a <- before :: c.x == a.x && c.z == a.z
  }

  /** A strike moves nothing: it only weakens or removes its target. */
  lemma StrikeWithin(s: seq<Asteroid>, j: nat, level: int, t: Tally, rng: nat -> real)
    requires j < |s| && IsStream(rng)
    ensures Within(Strike(s, j, level, t, rng).asteroids, s)
  {
    var hit := s[j].(health := s[j].health - 1.0);
    if hit.health <= 0.0 {
      forall c <- s[..j] + s[j + 1..] ensures exists a <- s :: c.x == a.x && c.z == a.z {
        assert c in s;
      }
    } else {
      forall c <- s[j := hit] ensures exists a <- s :: c.x == a.x && c.z == a.z {
        var k :| 0 <= k < |s| && s[j := hit][k] == c;
        assert s[k] in s;
      }
    }
  }

  lemma WithinTrans(a: seq<Asteroid>, b: seq<Asteroid>, c: seq<Asteroid>)
    requires Within(a, b) && Within(b, c)
    ensures Within(a, c)
  {
    forall x <- a ensures exists z <- c :: x.x == z.x && x.z == z.z {
      var y :| y in b && x.x == y.x && x.z == y.z;
      var z :| z in c && y.x == z.x && y.z == z.z;
    }
  }

  /** A bullet clear of every asteroid of `before` is clear of every asteroid of `after`. */
  lemma WithinClear(b: Bullet, after: seq<Asteroid>, before: seq<Asteroid>)
    requires Within(after, before) && forall a <- before :: !Overlaps(b, a)
    ensures forall a <- after :: !Overlaps(b, a)
  {
    forall a <- after ensures !Overlaps(b, a) {
      var a0 :| a0 in before && a.x == a0.x && a.z == a0.z;
      assert !Overlaps(b, a0);
      assert Overlaps(b, a) == Overlaps(b, a0);
    }
  }

  /** The bullet pass moves no asteroid. */
  lemma {:induction false} ResolveWithin(bs: seq<Bullet>, s: seq<Asteroid>, level: int, t: Tally, rng: nat -> real)
    requires IsStream(rng)
    ensures Within(Resolve(bs, s, level, t, rng).asteroids, s)
    decreases |bs|
  {
    if bs == [] {
      assert forall c <- s :: c in s;
    } else {
      var b := Flown(bs[|bs| - 1]);
      var init := bs[..|bs| - 1];
      var j := TargetOf(b, s);
      if b.z < BulletRange || j < 0 {
        ResolveWithin(init, s, level, t, rng);
      } else {
        var m := Strike(s, j, level, t, rng);
        StrikeWithin(s, j, level, t, rng);
        ResolveWithin(init, m.asteroids, level, m.tally, rng);
        WithinTrans(Resolve(init, m.asteroids, level, m.tally, rng).asteroids, m.asteroids, s);
      }
    }
  }

  /**
   * Every bullet left after the pass is an input bullet moved one step,
   * still in range and clear of every asteroid left.
   */
  lemma {:induction false} ResolveLeft(bs: seq<Bullet>, s: seq<Asteroid>, level: int, t: Tally, rng: nat -> real)
    requires IsStream(rng)
    ensures var r := Resolve(bs, s, level, t, rng);
            forall c <- r.bullets ::
              c.z >= BulletRange && (exists k :: 0 <= k < |bs| && c == Flown(bs[k])) &&
              forall a <- r.asteroids :: !Overlaps(c, a)
    decreases |bs|
  {
    if bs != [] {
      var b := Flown(bs[|bs| - 1]);
      var init := bs[..|bs| - 1];
      assert forall k :: 0 <= k < |init| ==> init[k] == bs[k];
      var j := TargetOf(b, s);
      if b.z < BulletRange {
        ResolveLeft(init, s, level, t, rng);
      } else if j < 0 {
        ResolveLeft(init, s, level, t, rng);
        ResolveWithin(init, s, level, t, rng);
        assert forall a <- s :: !Overlaps(b, a);
        WithinClear(b, Resolve(init, s, level, t, rng).asteroids, s);
      } else {
        var m := Strike(s, j, level, t, rng);
        ResolveLeft(init, m.asteroids, level, m.tally, rng);
      }
    }
  }

  /** Every input bullet that, once moved, is in range and clear of every asteroid stays. */
  lemma {:induction false} ResolveClear(bs: seq<Bullet>, s: seq<Asteroid>, level: int, t: Tally, rng: nat -> real)
    requires IsStream(rng)
    ensures var r := Resolve(bs, s, level, t, rng);
            forall k :: 0 <= k < |bs| && Flown(bs[k]).z >= BulletRange && (forall a <- s :: !Overlaps(Flown(bs[k]), a)) ==>
              Flown(bs[k]) in r.bullets
    decreases |bs|
  {
    if bs != [] {
      var b := Flown(bs[|bs| - 1]);
      var init := bs[..|bs| - 1];
      assert forall k :: 0 <= k < |init| ==> init[k] == bs[k];
      var j := TargetOf(b, s);
      if b.z < BulletRange || j < 0 {
        ResolveClear(init, s, level, t, rng);
      } else {
        var m := Strike(s, j, level, t, rng);
        StrikeWithin(s, j, level, t, rng);
        ResolveClear(init, m.asteroids, level, m.tally, rng);
        forall k | 0 <= k < |init| && Flown(init[k]).z >= BulletRange && (forall a <- s :: !Overlaps(Flown(init[k]), a))
          ensures forall a <- m.asteroids :: !Overlaps(Flown(init[k]), a)
        {
          WithinClear(Flown(init[k]), m.asteroids, s);
        }
      }
    }
  }

  /** How many of the bullets are still in range once moved. */
  function InRange(bs: seq<Bullet>): nat
    decreases |bs|
  {
    if bs == [] then 0 else InRange(bs[..|bs| - 1]) + (if Flown(bs[|bs| - 1]).z >= BulletRange then 1 else 0)
  }

  /**
   * What the spent bullets do to the asteroids. A bullet that stays in range
   * and is not kept was spent on a strike, and a strike takes exactly one
   * hit point from its target, or destroys a target that had at most one
   * left. So, with `spent` the in-range bullets not kept and `kills` the
   * asteroids destroyed, the registry loses at most one hit point per
   * strike, exactly one for every strike that did not destroy its target
   * (exactly `spent` when nothing is destroyed), and something whenever a
   * bullet is spent.
   */
  lemma {:induction false} ResolveWear(bs: seq<Bullet>, s: seq<Asteroid>, level: int, t: Tally, rng: nat -> real)
    requires IsStream(rng) && Live(s)
    ensures var r := Resolve(bs, s, level, t, rng);
            var kills := |s| - |r.asteroids|;
            var spent := InRange(bs) - |r.bullets|;
            var loss := TotalHealth(s) - TotalHealth(r.asteroids);
            0 <= kills <= spent &&
            (spent - kills) as real <= loss <= spent as real &&
            (spent > 0 ==> loss > 0.0)
    decreases |bs|
  {
    if bs != [] {
      var b := Flown(bs[|bs| - 1]);
      var init := bs[..|bs| - 1];
      var j := TargetOf(b, s);
      if b.z < BulletRange || j < 0 {
        ResolveWear(init, s, level, t, rng);
      } else {
        var hit := s[j].(health := s[j].health - 1.0);
        var m := Strike(s, j, level, t, rng);
        LiveIff(s);
        assert Healthy(s[j]);
        if hit.health <= 0.0 {
          LiveRemove(s, j);
          TotalHealthRemove(s, j);
        } else {
          LiveUpdate(s, j, hit);
          TotalHealthUpdate(s, j, hit);
        }
        ResolveWear(init, m.asteroids, level, m.tally, rng);
      }
    }
  }

  /**
   * A pass in which some bullet, once moved, is in range and overlaps an
   * asteroid spends a bullet: the last such bullet in the list is reached
   * before any strike has changed the registry, unless a strike already
   * spent another one.
   */
  lemma {:induction false} ResolveSpends(bs: seq<Bullet>, s: seq<Asteroid>, level: int, t: Tally, rng: nat -> real)
    requires IsStream(rng)
    ensures var r := Resolve(bs, s, level, t, rng);
            |r.bullets| <= InRange(bs) &&
            ((exists k :: 0 <= k < |bs| && Flown(bs[k]).z >= BulletRange && exists a <- s :: Overlaps(Flown(bs[k]), a)) ==>
               |r.bullets| < InRange(bs))
    decreases |bs|
  {
    if bs != [] {
      var b := Flown(bs[|bs| - 1]);
      var init := bs[..|bs| - 1];
      assert forall k :: 0 <= k < |init| ==> init[k] == bs[k];
      var j := TargetOf(b, s);
      if b.z < BulletRange || j < 0 {
        ResolveSpends(init, s, level, t, rng);
      } else {
        var m := Strike(s, j, level, t, rng);
        ResolveSpends(init, m.asteroids, level, m.tally, rng);
      }
    }
  }

  /**
   * The damage the bullet pass does: when some bullet, once moved, is in
   * range and overlaps an asteroid, the registry loses hit points.
   */
  lemma ResolveDamages(bs: seq<Bullet>, s: seq<Asteroid>, level: int, t: Tally, rng: nat -> real)
    requires IsStream(rng) && Live(s)
    requires exists k :: 0 <= k < |bs| && Flown(bs[k]).z >= BulletRange && exists a <- s :: Overlaps(Flown(bs[k]), a)
    ensures TotalHealth(Resolve(bs, s, level, t, rng).asteroids) < TotalHealth(s)
  {
    ResolveSpends(bs, s, level, t, rng);
    ResolveWear(bs, s, level, t, rng);
  }

  /**
   * Bookkeeping of the bullet pass (what happens to the bullets themselves
   * is ResolveLeft and ResolveClear). Asteroids leave the registry only by
   * being destroyed, each consumed bullet destroys at most one asteroid,
   * and each destroyed asteroid leaves exactly 10 debris pieces and scores
   * at least 50 (ResolveScore gives the exact amount).
   */
  lemma {:induction false} ResolveAccounting(bs: seq<Bullet>, s: seq<Asteroid>, level: int, t: Tally, rng: nat -> real)
    requires IsStream(rng) && level >= 1
    ensures var r := Resolve(bs, s, level, t, rng);
            var kills := |s| - |r.asteroids|;
            0 <= kills <= |bs| - |r.bullets| &&
            r.tally.destroyed == t.destroyed + kills &&
            r.tally.score >= t.score + 50 * kills &&
            |r.tally.debris| == |t.debris| + DebrisPerExplosion * kills &&
            r.tally.debris[..|t.debris|] == t.debris &&
            r.tally.drawn == t.drawn + DebrisPerExplosion * kills &&
            (DebrisOk(t.debris) ==> DebrisOk(r.tally.debris))
    decreases |bs|
  {
    if bs != [] {
      var b := Flown(bs[|bs| - 1]);
      var init := bs[..|bs| - 1];
      if b.z < BulletRange {
        ResolveAccounting(init, s, level, t, rng);
      } else {
        var j := TargetOf(b, s);
        if j < 0 {
          ResolveAccounting(init, s, level, t, rng);
        } else {
          var m := Strike(s, j, level, t, rng);
          ResolveAccounting(init, m.asteroids, level, m.tally, rng);
          if s[j].health - 1.0 <= 0.0 {
            KillAccounting(t, s[j], level, rng);
            var r := Resolve(init, m.asteroids, level, m.tally, rng);
            assert r.tally.debris[..|t.debris|] == r.tally.debris[..|m.tally.debris|][..|t.debris|];
          }
        }
      }
    }
  }

  /**
   * The bullet pass adds no boss, destroys no more bosses than asteroids, and
   * keeps every live asteroid live.
   */
  lemma {:induction false} ResolveKeeps(bs: seq<Bullet>, s: seq<Asteroid>, level: int, t: Tally, rng: nat -> real)
    requires IsStream(rng)
    ensures var r := Resolve(bs, s, level, t, rng);
            Bosses(r.asteroids) <= Bosses(s) && (Live(s) ==> Live(r.asteroids)) &&
            Bosses(s) - Bosses(r.asteroids) <= |s| - |r.asteroids|
    decreases |bs|
  {
    if bs != [] {
      var b := Flown(bs[|bs| - 1]);
      var init := bs[..|bs| - 1];
      if b.z < BulletRange {
        ResolveKeeps(init, s, level, t, rng);
      } else {
        var j := TargetOf(b, s);
        if j < 0 {
          ResolveKeeps(init, s, level, t, rng);
        } else {
          var m := Strike(s, j, level, t, rng);
          ResolveKeeps(init, m.asteroids, level, m.tally, rng);
          var hit := s[j].(health := s[j].health - 1.0);
          if hit.health <= 0.0 {
            BossesRemove(s, j);
            if Live(s) {
              LiveRemove(s, j);
            }
          } else {
            BossesUpdate(s, j, hit);
            if Live(s) {
              LiveUpdate(s, j, hit);
            }
          }
        }
      }
    }
  }

  /**
   * The score of the bullet pass: 50 for every asteroid destroyed and 100 per
   * level for every boss destroyed, and nothing else.
   */
  lemma {:induction false} ResolveScore(bs: seq<Bullet>, s: seq<Asteroid>, level: int, t: Tally, rng: nat -> real)
    requires IsStream(rng)
    ensures var r := Resolve(bs, s, level, t, rng);
            r.tally.score == t.score + Earned(s, r.asteroids, level)
    decreases |bs|
  {
    if bs != [] {
      var b := Flown(bs[|bs| - 1]);
      var init := bs[..|bs| - 1];
      var j := TargetOf(b, s);
      if b.z < BulletRange || j < 0 {
        ResolveScore(init, s, level, t, rng);
        var r := Resolve(init, s, level, t, rng);
        assert Resolve(bs, s, level, t, rng).asteroids == r.asteroids;
        assert Resolve(bs, s, level, t, rng).tally == r.tally;
      } else {
        var m := Strike(s, j, level, t, rng);
        ResolveScore(init, m.asteroids, level, m.tally, rng);
        var r := Resolve(init, m.asteroids, level, m.tally, rng);
        assert Resolve(bs, s, level, t, rng) == r;
        var hit := s[j].(health := s[j].health - 1.0);
        if hit.health <= 0.0 {
          EarnedSplice(s, j, r.asteroids, level);
        } else {
          EarnedUpdate(s, j, hit, r.asteroids, level);
        }
      }
    }
  }

  /**
   * A bullet pass that destroys nothing scores nothing, and without a boss
   * on the field every kill scores exactly 50.
   */
  lemma ResolveScoreCases(bs: seq<Bullet>, s: seq<Asteroid>, level: int, t: Tally, rng: nat -> real)
    requires IsStream(rng)
    ensures var r := Resolve(bs, s, level, t, rng);
            (|r.asteroids| == |s| ==> r.tally.score == t.score) &&
            (Bosses(s) == 0 ==> r.tally.score == t.score + 50 * (|s| - |r.asteroids|))
  {
    ResolveKeeps(bs, s, level, t, rng);
    ResolveScore(bs, s, level, t, rng);
    var r := Resolve(bs, s, level, t, rng);
    if |r.asteroids| == |s| || Bosses(s) == 0 {
      assert Bosses(s) - Bosses(r.asteroids) == 0;
      assert level * 100 * (Bosses(s) - Bosses(r.asteroids)) == 0;
    }
  }

  // ---------------------------------------------------------------- beam

  datatype Sweep = Sweep(asteroids: seq<Asteroid>, tally: Tally)

  function Extend(r: Sweep, tail: seq<Asteroid>): Sweep
  {
    r.(asteroids := r.asteroids + tail)
  }

  /**
   * The beam loses 0.1 hit points off every asteroid whose lane is within
   * half a unit of the player; one reaching zero or less is destroyed and
   * scored; those outside the beam are untouched.
   */
  function Burn(s: seq<Asteroid>, px: real, level: int, t: Tally, rng: nat -> real): (r: Sweep)
    requires IsStream(rng)
    ensures |r.asteroids| <= |s|
    decreases |s|
  {
    if s == [] then Sweep([], t)
    else
      var a := s[|s| - 1];
      var init := s[..|s| - 1];
      if !InBeam(px, a) then Extend(Burn(init, px, level, t, rng), [a])
      else
        var burnt := a.(health := a.health - BeamDamage);
        if burnt.health <= 0.0 then Burn(init, px, level, Kill(t, burnt, level, rng), rng)
        else Extend(Burn(init, px, level, t, rng), [burnt])
  }

  /**
   * One step of the reverse beam loop at index i: the asteroid there is
   * untouched, burnt in place, or destroyed and spliced out.
   */
  lemma BurnStep(s: seq<Asteroid>, i: nat, px: real, level: int, t: Tally, rng: nat -> real)
    requires i < |s| && IsStream(rng)
    ensures var burnt := s[i].(health := s[i].health - BeamDamage);
            var dropped := s[..i] + s[i + 1..];
            var r := Extend(Burn(s[..i + 1], px, level, t, rng), s[i + 1..]);
            (!InBeam(px, s[i]) ==> r == Extend(Burn(s[..i], px, level, t, rng), s[i..])) &&
            (InBeam(px, s[i]) && burnt.health <= 0.0 ==>
               r == Extend(Burn(dropped[..i], px, level, Kill(t, burnt, level, rng), rng), dropped[i..])) &&
            (InBeam(px, s[i]) && burnt.health > 0.0 ==>
               r == Extend(Burn(s[i := burnt][..i], px, level, t, rng), s[i := burnt][i..]))
  {
    var burnt := s[i].(health := s[i].health - BeamDamage);
    var dropped := s[..i] + s[i + 1..];
    assert s[..i + 1][..i] == s[..i];
    assert s[..i + 1][i] == s[i];
    assert s[i..] == [s[i]] + s[i + 1..];
    assert dropped[..i] == s[..i] && dropped[i..] == s[i + 1..];
    assert s[i := burnt][..i] == s[..i] && s[i := burnt][i..] == [burnt] + s[i + 1..];
    var r0 := Burn(s[..i], px, level, t, rng);
    assert r0.asteroids + [s[i]] + s[i + 1..] == r0.asteroids + ([s[i]] + s[i + 1..]);
    assert r0.asteroids + [burnt] + s[i + 1..] == r0.asteroids + ([burnt] + s[i + 1..]);
  }

  /** The asteroid after the beam passes over it: 0.1 hit points less when in the beam. */
  function Scorched(px: real, a: Asteroid): Asteroid
  {
    if InBeam(px, a) then a.(health := a.health - BeamDamage) else a
  }

  /** The beam leaves the asteroid in play: it is outside the beam or has more than 0.1 left. */
  predicate Survives(px: real, a: Asteroid)
  {
    !InBeam(px, a) || a.health - BeamDamage > 0.0
  }

  /**
   * The asteroids left after the beam pass are exactly the survivors, each
   * scorched: every surviving asteroid is kept (0.1 weaker if it was in the
   * beam), and every asteroid kept is such a survivor.
   */
  lemma {:induction false} BurnFate(s: seq<Asteroid>, px: real, level: int, t: Tally, rng: nat -> real)
    requires IsStream(rng)
    ensures var r := Burn(s, px, level, t, rng);
            (forall k :: 0 <= k < |s| && Survives(px, s[k]) ==> Scorched(px, s[k]) in r.asteroids) &&
            (forall c <- r.asteroids :: exists k :: 0 <= k < |s| && Survives(px, s[k]) && c == Scorched(px, s[k]))
    decreases |s|
  {
    if s != [] {
      var a := s[|s| - 1];
      var init := s[..|s| - 1];
      assert forall k :: 0 <= k < |init| ==> init[k] == s[k];
      var t' := if InBeam(px, a) && a.health - BeamDamage <= 0.0 then Kill(t, a.(health := a.health - BeamDamage), level, rng) else t;
      BurnFate(init, px, level, t', rng);
      var q := Burn(init, px, level, t', rng);
      var r := Burn(s, px, level, t, rng);
      forall c <- r.asteroids ensures exists k :: 0 <= k < |s| && Survives(px, s[k]) && c == Scorched(px, s[k]) {
        if c in q.asteroids {
          var k :| 0 <= k < |init| && Survives(px, init[k]) && c == Scorched(px, init[k]);
          assert s[k] == init[k];
        } else {
          assert c == Scorched(px, s[|s| - 1]);
        }
      }
    }
  }

  /**
   * Bookkeeping of the beam pass (which asteroids it keeps, and how, is
   * BurnFate). Asteroids leave only by being destroyed, each leaving 10
   * debris pieces and scoring at least 50 (BurnScore gives the exact
   * amount), and every asteroid outside the beam is kept.
   */
  lemma {:induction false} BurnAccounting(s: seq<Asteroid>, px: real, level: int, t: Tally, rng: nat -> real)
    requires IsStream(rng) && level >= 1
    ensures var r := Burn(s, px, level, t, rng);
            var kills := |s| - |r.asteroids|;
            0 <= kills &&
            r.tally.destroyed == t.destroyed + kills &&
            r.tally.score >= t.score + 50 * kills &&
            |r.tally.debris| == |t.debris| + DebrisPerExplosion * kills &&
            r.tally.debris[..|t.debris|] == t.debris &&
            r.tally.drawn == t.drawn + DebrisPerExplosion * kills &&
            (DebrisOk(t.debris) ==> DebrisOk(r.tally.debris)) &&
            (forall a <- s :: !InBeam(px, a) ==> a in r.asteroids)
    decreases |s|
  {
    if s != [] {
      var a := s[|s| - 1];
      var init := s[..|s| - 1];
      assert s == init + [a];
      if !InBeam(px, a) {
        BurnAccounting(init, px, level, t, rng);
      } else {
        var burnt := a.(health := a.health - BeamDamage);
        if burnt.health <= 0.0 {
          var k := Kill(t, burnt, level, rng);
          KillAccounting(t, burnt, level, rng);
          BurnAccounting(init, px, level, k, rng);
          var r := Burn(init, px, level, k, rng);
          assert r.tally.debris[..|t.debris|] == r.tally.debris[..|k.debris|][..|t.debris|];
        } else {
          BurnAccounting(init, px, level, t, rng);
        }
      }
    }
  }

  /**
   * The score of the beam pass: 50 for every asteroid destroyed and 100 per
   * level for every boss destroyed, and nothing else.
   */
  lemma {:induction false} BurnScore(s: seq<Asteroid>, px: real, level: int, t: Tally, rng: nat -> real)
    requires IsStream(rng)
    ensures var r := Burn(s, px, level, t, rng);
            r.tally.score == t.score + Earned(s, r.asteroids, level)
    decreases |s|
  {
    if s != [] {
      var a := s[|s| - 1];
      var init := s[..|s| - 1];
      assert s == init + [a];
      var burnt := a.(health := a.health - BeamDamage);
      if !InBeam(px, a) {
        BurnScore(init, px, level, t, rng);
        var r := Burn(init, px, level, t, rng);
        assert Burn(s, px, level, t, rng) == Extend(r, [a]);
        EarnedKeep(init, r.asteroids, a, a, level);
      } else if burnt.health <= 0.0 {
        var k := Kill(t, burnt, level, rng);
        BurnScore(init, px, level, k, rng);
        var r := Burn(init, px, level, k, rng);
        assert Burn(s, px, level, t, rng) == r;
        EarnedKill(init, r.asteroids, a, level);
      } else {
        BurnScore(init, px, level, t, rng);
        var r := Burn(init, px, level, t, rng);
        assert Burn(s, px, level, t, rng) == Extend(r, [burnt]);
        EarnedKeep(init, r.asteroids, a, burnt, level);
      }
    }
  }

  /**
   * The beam pass adds no boss, destroys no more bosses than asteroids, and
   * keeps every live asteroid live.
   */
  lemma {:induction false} BurnKeeps(s: seq<Asteroid>, px: real, level: int, t: Tally, rng: nat -> real)
    requires IsStream(rng)
    ensures var r := Burn(s, px, level, t, rng);
            Bosses(r.asteroids) <= Bosses(s) && (Live(s) ==> Live(r.asteroids)) &&
            Bosses(s) - Bosses(r.asteroids) <= |s| - |r.asteroids|
    decreases |s|
  {
    if s != [] {
      var a := s[|s| - 1];
      var init := s[..|s| - 1];
      assert Bosses([a]) == (if a.isBoss then 1 else 0) by {
        assert [a][..0] == [];
      }
      if !InBeam(px, a) {
        BurnKeeps(init, px, level, t, rng);
        var r := Burn(init, px, level, t, rng);
        BossesAppend(r.asteroids, [a]);
        LiveSnoc(r.asteroids, a);
      } else {
        var burnt := a.(health := a.health - BeamDamage);
        if burnt.health <= 0.0 {
          BurnKeeps(init, px, level, Kill(t, burnt, level, rng), rng);
        } else {
          BurnKeeps(init, px, level, t, rng);
          var r := Burn(init, px, level, t, rng);
          BossesAppend(r.asteroids, [burnt]);
          assert Bosses([burnt]) == Bosses([a]) by {
            assert [burnt][..0] == [a][..0];
          }
          LiveSnoc(r.asteroids, burnt);
        }
      }
    }
  }

  /**
   * A beam pass that destroys nothing scores nothing, and without a boss on
   * the field every kill scores exactly 50.
   */
  lemma BurnScoreCases(s: seq<Asteroid>, px: real, level: int, t: Tally, rng: nat -> real)
    requires IsStream(rng)
    ensures var r := Burn(s, px, level, t, rng);
            (|r.asteroids| == |s| ==> r.tally.score == t.score) &&
            (Bosses(s) == 0 ==> r.tally.score == t.score + 50 * (|s| - |r.asteroids|))
  {
    BurnKeeps(s, px, level, t, rng);
    BurnScore(s, px, level, t, rng);
    var r := Burn(s, px, level, t, rng);
    if |r.asteroids| == |s| || Bosses(s) == 0 {
      assert Bosses(s) - Bosses(r.asteroids) == 0;
      assert level * 100 * (Bosses(s) - Bosses(r.asteroids)) == 0;
    }
  }
}
