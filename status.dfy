/**
 * Player status as values: health with the post-hit grace period, the shield
 * with its active window and cooldown, the special skill, the lateral
 * position, and the best-so-far bookkeeping of the high-score store.
 * Each piece has its per-tick step function and its activation function; the
 * game class keeps the same quantities in fields and updates them with
 * methods specified by these functions.
 */
module Status {

  // ---------------------------------------------------------------- damage

  /** Length of the invincibility window after a hit, in ticks. */
  const GraceTicks: int := 120

  /** health, isInvincible, invincibilityTimer */
  datatype Vitals = Vitals(health: int, invincible: bool, timer: int)

  /**
   * What a collision did to the player. `Crash` is a hit taken when health was
   * already at or below zero: the hearts readout is then asked to repeat a
   * heart a negative number of times, which throws and ends the tick there.
   */
  datatype Hit = Ignored | Hurt | Fatal | Crash

  datatype Harm = Harm(after: Vitals, hit: Hit)

  /** handleDamage */
  function Damage(v: Vitals, shielded: bool): (r: Harm)
    ensures r.hit == Ignored <==> v.invincible || shielded
    ensures r.hit == Ignored ==> r.after == v
    ensures r.hit != Ignored ==> r.after.health == v.health - 1
    ensures r.hit == Hurt <==> !v.invincible && !shielded && v.health > 1
    ensures r.hit == Fatal <==> !v.invincible && !shielded && v.health == 1
    ensures r.hit == Hurt ==> r.after.invincible && r.after.timer == GraceTicks
    ensures r.hit == Fatal || r.hit == Crash ==> r.after.invincible == v.invincible && r.after.timer == v.timer
  {
    if v.invincible || shielded then Harm(v, Ignored)
    else
      var h := v.health - 1;
      if h < 0 then Harm(v.(health := h), Crash)
      else if h <= 0 then Harm(v.(health := h), Fatal)
      else Harm(Vitals(h, true, GraceTicks), Hurt)
  }

  /** A second collision right after a non-fatal hit does nothing. */
  lemma SecondHitAbsorbed(v: Vitals, shielded: bool)
    requires Damage(v, shielded).hit == Hurt
    ensures Damage(Damage(v, shielded).after, shielded) == Harm(Damage(v, shielded).after, Ignored)
  {
  }

  /** After a fatal hit, one more unshielded collision crashes. */
  lemma HitAfterFatalCrashes(v: Vitals, shielded: bool)
    requires Damage(v, shielded).hit == Fatal && !shielded
    ensures Damage(Damage(v, shielded).after, shielded).hit == Crash
  {
  }

  /**
   * The invincibility part of a playing tick: a running window loses one
   * tick and closes when it reaches zero; health is never touched.
   */
  function GraceTick(v: Vitals): (r: Vitals)
    ensures r.health == v.health
    ensures !v.invincible ==> r == v
    ensures v.invincible ==> r.timer == v.timer - 1 && (r.invincible <==> r.timer > 0)
  {
    if !v.invincible then v
    else if v.timer - 1 <= 0 then v.(invincible := false, timer := v.timer - 1)
    else v.(timer := v.timer - 1)
  }

  function GraceAfter(v: Vitals, n: nat): Vitals
  {
    if n == 0 then v else GraceTick(GraceAfter(v, n - 1))
  }

  /**
   * After a hit the player is invincible for exactly 120 ticks, so every
   * collision in that window is ignored; its health does not change meanwhile.
   */
  lemma {:induction false} GraceWindow(v: Vitals, shielded: bool, n: nat)
    requires Damage(v, shielded).hit == Hurt
    ensures var g := GraceAfter(Damage(v, shielded).after, n);
            g.health == v.health - 1 &&
            (n < GraceTicks ==> g.invincible && g.timer == GraceTicks - n) &&
            (n < GraceTicks ==> Damage(g, false).hit == Ignored && Damage(g, true).hit == Ignored) &&
            (n >= GraceTicks ==> !g.invincible && g.timer == 0)
  {
    if n > 0 {
      GraceWindow(v, shielded, n - 1);
    }
  }

  predicate VitalsOk(v: Vitals)
  {
    v.health <= 3 && (v.invincible ==> 0 < v.timer <= GraceTicks)
  }

  lemma VitalsOkPreserved(v: Vitals, shielded: bool)
    requires VitalsOk(v)
    ensures VitalsOk(GraceTick(v)) && VitalsOk(Damage(v, shielded).after)
  {
  }

  // ---------------------------------------------------------------- shield

  const ShieldTicks: int := 300
  const ShieldCooldownTicks: int := 600

  /** shieldActive, shieldTimer, shieldCooldown */
  datatype Shield = Shield(active: bool, timer: int, cooldown: int)

  /** activateShield */
  function ActivateShield(s: Shield): (r: Shield)
    ensures s.active || s.cooldown > 0 ==> r == s
    ensures !s.active && s.cooldown <= 0 ==> r.active && r.timer == ShieldTicks && r.cooldown == s.cooldown
  {
    if s.active || s.cooldown > 0 then s
    else s.(active := true, timer := ShieldTicks)
  }

  /**
   * The shield part of a playing tick: an active shield loses one tick and,
   * at zero, drops and starts the 600-tick cooldown; an inactive one only
   * counts its cooldown down.
   */
  function ShieldTick(s: Shield): (r: Shield)
    ensures s.active ==> r.timer == s.timer - 1 && (r.active <==> r.timer > 0)
    ensures s.active ==> r.cooldown == if r.active then s.cooldown else ShieldCooldownTicks
    ensures !s.active ==> !r.active && r.timer == s.timer &&
                          r.cooldown == if s.cooldown > 0 then s.cooldown - 1 else s.cooldown
  {
    if s.active then
      if s.timer - 1 <= 0 then Shield(false, s.timer - 1, ShieldCooldownTicks)
      else s.(timer := s.timer - 1)
    else if s.cooldown > 0 then s.(cooldown := s.cooldown - 1)
    else s
  }

  function ShieldAfter(s: Shield, n: nat): Shield
  {
    if n == 0 then s else ShieldTick(ShieldAfter(s, n - 1))
  }

  /**
   * The shield, activated when ready, is up for 300 ticks, then cools down
   * for 600 ticks and is ready again.
   */
  lemma {:induction false} ShieldLifecycle(s: Shield, n: nat)
    requires !s.active && s.cooldown == 0
    ensures var t := ShieldAfter(ActivateShield(s), n);
            (n < ShieldTicks ==> t == Shield(true, ShieldTicks - n, 0)) &&
            (ShieldTicks <= n <= ShieldTicks + ShieldCooldownTicks ==>
               t == Shield(false, 0, ShieldTicks + ShieldCooldownTicks - n)) &&
            (n > ShieldTicks + ShieldCooldownTicks ==> t == Shield(false, 0, 0))
  {
    if n > 0 {
      ShieldLifecycle(s, n - 1);
    }
  }

  predicate ShieldOk(s: Shield)
  {
    (s.active ==> 0 < s.timer <= ShieldTicks && s.cooldown == 0) &&
    0 <= s.cooldown <= ShieldCooldownTicks
  }

  lemma ShieldOkPreserved(s: Shield)
    requires ShieldOk(s)
    ensures ShieldOk(ShieldTick(s)) && ShieldOk(ActivateShield(s))
  {
  }

  // ---------------------------------------------------------------- skill

  const SkillTicks: int := 600

  /** skillActive, skillCooldown: the cooldown counter is also the skill's timer. */
  datatype Skill = Skill(active: bool, cooldown: int)

  /** activateSkill */
  function ActivateSkill(k: Skill): (r: Skill)
    ensures k.active || k.cooldown > 0 ==> r == k
    ensures !k.active && k.cooldown <= 0 ==> r == Skill(true, SkillTicks)
  {
    if k.active || k.cooldown > 0 then k else Skill(true, SkillTicks)
  }

  /**
   * The counter part of the skill's tick: the one counter runs down whether
   * the skill is active or not, and an active skill ends when it reaches 0.
   */
  function SkillTick(k: Skill): (r: Skill)
    ensures k.active ==> r.cooldown == k.cooldown - 1 && (r.active <==> r.cooldown > 0)
    ensures !k.active ==> !r.active && r.cooldown == if k.cooldown > 0 then k.cooldown - 1 else k.cooldown
  {
    if k.active then
      if k.cooldown - 1 <= 0 then Skill(false, k.cooldown - 1) else Skill(true, k.cooldown - 1)
    else if k.cooldown > 0 then k.(cooldown := k.cooldown - 1)
    else k
  }

  function SkillAfter(k: Skill, n: nat): Skill
  {
    if n == 0 then k else SkillTick(SkillAfter(k, n - 1))
  }

  /**
   * Activated when ready, the skill runs for 600 ticks and then is ready at
   * once: the counter that timed it is already 0, so there is no cooldown
   * after it.
   */
  lemma {:induction false} SkillLifecycle(k: Skill, n: nat)
    requires SkillOk(k) && !k.active
    ensures var t := SkillAfter(ActivateSkill(k), n);
            (n < SkillTicks ==> t == Skill(true, SkillTicks - n)) &&
            (n >= SkillTicks ==> t == Skill(false, 0))
  {
    if n > 0 {
      SkillLifecycle(k, n - 1);
    }
  }

  predicate SkillOk(k: Skill)
  {
    (k.active ==> 0 < k.cooldown <= SkillTicks) && (!k.active ==> k.cooldown == 0)
  }

  /**
   * The skill's invariant is kept, and it makes the "count the cooldown down
   * while inactive" branch of the tick dead: an inactive skill is never
   * changed by a tick.
   */
  lemma SkillOkPreserved(k: Skill)
    requires SkillOk(k)
    ensures SkillOk(SkillTick(k)) && SkillOk(ActivateSkill(k))
    ensures !k.active ==> SkillTick(k) == k
  {
  }

  // ---------------------------------------------------------------- movement

  const Step: real := 0.2
  const Bound: real := 5.0

  /** Horizontal movement: left then right, then clamped to [-5, 5]. */
  function Steer(x: real, left: bool, right: bool): (r: real)
    ensures -Bound <= r <= Bound
    ensures -Bound <= x <= Bound && left == right ==> r == x
    ensures left && !right && x <= Bound ==> r == (if x - Step < -Bound then -Bound else x - Step)
    ensures right && !left && -Bound <= x ==> r == (if x + Step > Bound then Bound else x + Step)
  {
    var a := if left then x - Step else x;
    var b := if right then a + Step else a;
    if b < -Bound then -Bound else if b > Bound then Bound else b
  }

  // ---------------------------------------------------------------- high score

  /** updateHighScore, for one stored value: keep the larger. */
  function KeepBest(stored: int, current: int): (best: int)
    ensures best >= stored && best >= current
    ensures best == stored || best == current
    ensures best != stored ==> current > stored
  {
    if current > stored then current else stored
  }
}
