# Space Dodger gameplay core in Dafny

A model of the simulation core of the browser game Space Dodger (`main.js`),
with proofs about it. The player steers a ship across five lanes, shoots
asteroids coming down the lanes, and survives as long as possible.

- **Ships.** There are two: STARFIRE, whose skill is a beam, and BLUE NOVA,
  whose skill is a three-bullet spread.
- **Status.** The player has three hearts, a 120-tick invincibility window
  after each hit, a shield and a special skill.
- **Difficulty.** It rises with the distance travelled.
  - A level changes every 1000 units.
  - The last tenth of every fifth level brings a boss.
  - Level 11 opens the planet backdrop, once per run.

The model is in five modules, one per file:

- `difficulty.dfy` (`Difficulty`): the difficulty curve. These are pure
  functions of level, distance and a random draw.
- `status.dfy` (`Status`): the player status as values.
  - Covered: vitals (health, invincibility flag and timer), shield, skill,
    steering and the best-of rule of the high-score store.
  - Each has its activation and per-tick step functions.
  - Lemmas give the lifecycles, such as "the shield is up for exactly 300
    ticks, then cools down for 600".
- `registry.dfy` (`Registry`): the entities.
  - Asteroids, bullets and debris pieces are records.
  - Covered: how they are spawned, the debris decay, the boss count and the
    "every asteroid alive" predicate.
- `combat.dfy` (`Combat`): the three passes of a playing tick as recursive
  functions.
  - The passes are the asteroid pass, the bullet pass and the STARFIRE beam
    pass.
  - Each function peels off the last element first, as the reverse-index
    loops of the game do.
  - Lemmas give the bookkeeping: what a kill scores, which asteroids survive,
    that no boss appears, and that at most one heart is lost per pass.
- `game.dfy` (`Simulation`): the game itself.
  - **Class `Game`.** Its fields are the module-level variables of
    `main.js`, grouped into six records: the player (`PilotState`), the
    run's progress (`CourseState`), the objects in play with score and kill
    count (`ArenaState`), shield, skill and beam (`GearState`), the phase and
    best values (`OutcomeState`), and the controls (`ControlState`). `State()`
    is all six as one `World` value. There is one method per event handler:
    load, menu buttons, keydown and keyup, pause, damage, game over.
  - **The playing tick.** Each step of `updatePlayingState` is a method whose
    new `State()` is a step function of the old one (`StationaryStep`,
    `GraceStep`, `SteerStep`, `LevelStep`, `SpawnStep`, `BossStep`,
    `CollideStep`, `BulletStep`, `ShieldStep`, `SkillStep`, `DebrisStep`,
    `DistanceStep`), composed in the order of the source into `PlayStep`.
    Lemmas on these functions say what a tick keeps (the `*Keeps` lemmas),
    what it changes (`PlayGear`, `PlayDistance`, `PlayLevel`, `PlayOutcome`,
    `PlayHealth`, `PlayScore`) and what many ticks do (`RunGear`).
  - **`Frame`.** The `animate` switch on the game state.
  - **The loops.** Module-level methods with `while` loops over working copies
    of the lists, proved equal to the `Combat`/`Registry` functions. The class
    stores their results back into its fields.
  - **The invariant `Valid`.** It is `Consistent` and `Fitted` on the fields.
    Every event handler, `UpdatePlayingState` and `Frame` keep it. It asserts
    all of these:
    - the ship index is in range
    - models are stored only at ship indices; while there is a player, it is
      the selected ship's model and STARFIRE's model is loaded
    - the player is inside [-5, 5]
    - the level is never ahead of the level the distance has reached
    - the status records are consistent
    - the beam exists only during the skill
    - at most one boss is live
    - every asteroid has health in (0, maxHealth]
    - every debris piece has a lifespan in (0, 70)

The code is followed as written, including its quirks:

- **Bullet target.** A bullet strikes the overlapping asteroid with the highest
  index, because the inner scan runs downwards.
- **gameOver does not stop the tick.** The rest of the tick still runs after it.
- **Hit at zero health.** A second unshielded hit in the same tick takes
  health below zero. The hearts readout (`'❤️'.repeat(health)`) then throws,
  and the tick ends at that asteroid. The model calls this `Crash`; the
  asteroid has already moved and is not removed.
- **The beam outside the skill.** The skill block of the tick touches the
  beam only while the skill is active; otherwise the beam is left as it is.
- **No cooldown after the skill.** The skill's counter is also its timer, so
  there is no cooldown once the skill ends.
- **resetGameStats leaves some counters.** It does not reset the spawn counter,
  the stationary counter, the last position or the held keys.
- **First-level spawn interval.** The interval is 48.5 ticks, not an integer.
  `Difficulty.SpawnInterval` states this. The base `50 - 1.5 * level` is never
  floored, so the first spawn comes on the 49th tick.

## Model

| member | source | states |
|---|---|---|
| Difficulty.CurrentLevel | main.js:390-392 | the level is at least 1, and the distance lies in the level's 1000-unit bracket |
| Difficulty.CurrentLevelMonotone | main.js:390-392 | more distance never gives a lower level |
| Difficulty.CurrentLevelStep | main.js:390-392 | one more unit of distance raises the level by at most one |
| Difficulty.LevelProgress | main.js:394-396 | the progress is in [0, 100) and is a tenth of the distance into the current level |
| Difficulty.SpawnInterval | main.js:404-408 | the spawn interval is never below 8, is at most 48.5 from level 1 on, and is exactly 48.5 on the first level's first 800 units |
| Difficulty.SpawnIntervalMonotone | main.js:404-408 | travelling further never lengthens the interval |
| Difficulty.SpawnIntervalLevelMonotone | main.js:404-408 | a higher level never lengthens the interval |
| Difficulty.AsteroidSpeed | main.js:398-402 | the speed is the level's base speed plus less than 0.12, and at least 0.22 from level 1 on |
| Difficulty.AsteroidSize | main.js:410-419 | the size is in [0.3, 1.3); each size bucket is chosen by the level and the variation draw as the branches say |
| Difficulty.AsteroidHealth | main.js:421-425 | the health is 1, 2 or 3: 1 exactly below size 0.6, and 3 exactly from 1.0 |
| Difficulty.AsteroidHealthMonotone | main.js:421-425 | a bigger asteroid never has less health |
| Difficulty.EarlyAsteroidsAreTough | main.js:410-425 | below level 3 every asteroid takes at least two hits |
| Difficulty.BossDueWindow | main.js:427-429 | a boss is due exactly in the last 100 units of a level that is a multiple of 5 |
| Difficulty.BossHealth | main.js:458 | a boss has twice the level in hit points: even, and at least 2 |
| Status.Damage | main.js:740-754 | invincibility or the shield absorbs the hit entirely; otherwise health drops by exactly 1; at health 1 the hit is fatal; above it the 120-tick window starts; below 1 the hit crashes |
| Status.SecondHitAbsorbed | main.js:740-754 | a second collision right after a non-fatal hit does nothing |
| Status.HitAfterFatalCrashes | main.js:740-746 | one more unshielded hit after a fatal one takes health below zero |
| Status.GraceWindow | main.js:596-603 | after a hit the player is invincible for exactly 120 ticks, health does not change meanwhile, and no collision in that window does anything |
| Status.GraceTick | main.js:596-603 | a tick never changes health; outside the window nothing changes; inside it the timer drops by one and the window stays open exactly while the timer is positive |
| Status.VitalsOkPreserved | main.js:596-603 | the vitals invariant survives a hit and a tick |
| Status.ActivateShield | main.js:532-534 | while the shield is active or cooling down the call is a no-op; otherwise the shield is up with 300 ticks |
| Status.ShieldTick | main.js:681-686 | an active shield loses one tick and, when that reaches 0, drops and starts the 600-tick cooldown; an inactive shield stays down and its cooldown drops by one until 0 |
| Status.ShieldLifecycle | main.js:681-686 | an activated shield is up for 300 ticks, cools down for 600, then is ready, tick by tick |
| Status.ShieldOkPreserved | main.js:681-686 | the shield invariant survives activation and a tick |
| Status.ActivateSkill | main.js:542-546 | while the skill is active or cooling down the call is a no-op; otherwise the skill is active with 600 ticks |
| Status.SkillTick | main.js:719-729 | an active skill loses one tick and ends exactly when that reaches 0; an inactive skill stays off and its cooldown drops by one until 0 |
| Status.SkillLifecycle | main.js:719-729 | an activated skill runs for 600 ticks and then is ready at once, with cooldown 0 |
| Status.SkillOkPreserved | main.js:719-729 | the skill invariant is kept, and an inactive skill is never changed by a tick (the cooldown branch is dead) |
| Status.Steer | main.js:606-608 | the new x is within [-5, 5]; opposite or no keys keep x; one key moves it 0.2 that way, clamped |
| Status.KeepBest | main.js:155-164 | the stored best becomes the larger of the two, and changes only when the current value is larger |
| Registry.Lane | main.js:432 | the lane is one of -4, -2, 0, 2, 4 |
| Registry.NewAsteroid | main.js:431-455 | a spawned asteroid is in a lane at depth -100, is no boss, starts at full health of 1, 2 or 3, and moves towards the player |
| Registry.NewBoss | main.js:456-489 | a boss starts in the centre lane at depth -100 with 2*level hit points and half the normal speed |
| Registry.Shot | main.js:494-531 | one bullet at the player's x, or during the spread skill three bullets at x - 0.5, x and x + 0.5, all 1.5 ahead moving at -0.8 |
| Registry.Explosion | main.js:335-349 | an explosion adds exactly 10 pieces, each living between 40 and 70 ticks |
| Registry.Decayed | main.js:551-563 | the decay never adds a piece, and every piece it keeps is still alive |
| Registry.DecayedSurvivors | main.js:551-563 | the reverse loop equals the front-to-back reading: exactly the pieces with more than one tick left survive, in their order, each one tick younger, alive and within the bound |
| Registry.DecayedStep | main.js:552-561 | one step of the reverse debris loop preserves the loop's remaining result |
| Registry.SurvivorsAppend | main.js:551-563 | the front-to-back reading of the decay handles two lists one after the other |
| Registry.NoBossCount | main.js:627 | `every(!isBoss)` holds exactly when the boss count is 0 |
| Registry.BossesAppend | main.js:453 | the boss count of a concatenation is the sum of the counts |
| Registry.BossesRemove | main.js:672 | splicing out an asteroid removes exactly its boss flag from the count |
| Registry.BossesUpdate | main.js:658 | weakening an asteroid in place keeps the boss count |
| Registry.LiveIff | main.js:665-672 | the recursive "every asteroid alive" predicate means every asteroid has health in (0, maxHealth] |
| Registry.AppendKeeps | main.js:453 | appending a healthy asteroid keeps the list alive and adds its boss flag to the count |
| Registry.LiveRemove | main.js:672 | splicing out an asteroid keeps the rest alive |
| Registry.LiveUpdate | main.js:658 | weakening an asteroid without destroying it keeps the list alive |
| Registry.TotalHealthAppend | main.js:658 | the total health of a concatenation is the sum of the totals |
| Registry.TotalHealthRemove | main.js:672 | splicing out an asteroid removes exactly its hit points from the total |
| Registry.TotalHealthUpdate | main.js:658 | weakening an asteroid in place changes the total by exactly its loss |
| Combat.DebrisOkIff | main.js:335-349 | the recursive debris predicate means every piece has a lifespan in (0, 70) |
| Combat.Points | main.js:666 | from level 1 on a kill is worth at least 50, and a boss at least 100 |
| Combat.EarnedKill | main.js:665-668 | the score of one more destroyed asteroid is exactly its points |
| Combat.KillAccounting | main.js:665-672 | a kill adds exactly level * 100 for a boss and 50 otherwise, counts 1, appends exactly 10 fresh pieces and keeps the old debris as a prefix |
| Combat.GlueGlue | main.js:631-649 | re-attaching unvisited asteroids in two steps is the same as in one |
| Combat.Advance | main.js:631-649 | the asteroid pass never adds an asteroid and never raises health |
| Combat.AdvanceStep | main.js:631-648 | each step of the reverse asteroid loop (despawn, pass by, crash, hit) preserves the loop's remaining result |
| Combat.AdvanceKeeps | main.js:631-649 | the pass never adds an asteroid or a boss and keeps live asteroids live; unless it crashed, the asteroids left are exactly the moved ones still within depth 10 and not touching the player: every such asteroid is kept, and every one kept is such an asteroid |
| Combat.AdvanceHarm | main.js:631-649 | an asteroid that meets the player while neither invincibility nor the shield is up costs a heart; a pass in which none meets the player leaves the vitals alone; invincibility or the shield make the pass harmless; otherwise the vitals become one Damage at most (unless crashed); gameOver follows only a fatal first hit, and always follows a pass that takes the last heart; a crash leaves health negative |
| Combat.AdvanceCollisions | main.js:641-648 | an unabsorbed collision lowers health; a pass with no collision changes no vitals, calls no gameOver and does not crash |
| Combat.AdvanceKept | main.js:633-648 | unless the pass crashed, every asteroid that after moving is within depth 10 and clear of the player is kept, moved |
| Combat.AdvanceOrigin | main.js:631-649 | unless the pass crashed, every asteroid left is one of the input asteroids, moved |
| Combat.AdvanceFatal | main.js:740-750 | a pass that called gameOver leaves the player with no health |
| Combat.AdvanceSummary | main.js:631-649 | the facts the tick reads: no boss added, asteroids kept live, vitals kept valid, at most one heart lost unless it crashes, and gameOver whenever the last heart goes |
| Combat.TargetOf | main.js:655-656 | the target is the highest-index asteroid the bullet overlaps, or -1 when none does |
| Combat.Strike | main.js:656-672 | the target loses exactly 1 health; at zero or below it is spliced out and scored; otherwise it stays in place; the others are untouched |
| Combat.ResolveStep | main.js:651-678 | each step of the reverse bullet loop (out of range, miss, hit) preserves the loop's remaining result |
| Combat.ResolveLeft | main.js:651-679 | every bullet left is an input bullet moved one step, still within range 50 and overlapping none of the asteroids left |
| Combat.ResolveClear | main.js:651-679 | every input bullet that, once moved, is in range and overlaps no asteroid stays |
| Combat.ResolveWear | main.js:651-679 | every in-range bullet not kept was spent on a strike, and a strike takes exactly one hit point from its target or destroys one that had at most one left: the registry's total health falls by at most one per spent bullet, by exactly one per spent bullet that destroyed nothing, and strictly whenever a bullet is spent; no more asteroids are destroyed than bullets spent |
| Combat.ResolveSpends | main.js:651-679 | no more bullets are kept than stay in range, and when some bullet, once moved, is in range and overlaps an asteroid, at least one bullet is spent |
| Combat.ResolveDamages | main.js:655-672 | when some bullet, once moved, is in range and overlaps an asteroid, the pass lowers the registry's total health |
| Combat.ResolveAccounting | main.js:651-679 | the bookkeeping of the bullet pass: asteroids leave only by destruction; each kill scores at least 50 and adds 10 debris, the old debris kept as a prefix; each spent bullet destroys at most one asteroid; the debris stays fresh |
| Combat.ResolveKeeps | main.js:651-679 | the bullet pass adds no boss, destroys no more bosses than asteroids, and keeps every asteroid live |
| Combat.ResolveScore | main.js:651-679 | the bullet pass adds exactly 50 for every ordinary asteroid and level * 100 for every boss it destroys |
| Combat.ResolveScoreCases | main.js:665-668 | without a kill the score is unchanged; without a boss it grows by exactly 50 per kill |
| Combat.BurnStep | main.js:699-712 | each step of the reverse beam loop preserves the loop's remaining result |
| Combat.BurnFate | main.js:699-712 | the asteroids left are exactly the survivors, each scorched: an asteroid outside the beam, or in it with more than 0.1 health, stays (0.1 weaker if in the beam), and every asteroid left is such a survivor |
| Combat.Burn | main.js:699-712 | the beam pass never adds an asteroid |
| Combat.BurnAccounting | main.js:699-712 | the bookkeeping of the beam pass: kills are counted, each scoring at least 50 with 10 debris, the old debris kept as a prefix and fresh; every asteroid outside the beam survives |
| Combat.BurnKeeps | main.js:699-712 | the beam pass adds no boss, destroys no more bosses than asteroids, and keeps every asteroid live |
| Combat.BurnScore | main.js:699-712 | the beam pass adds exactly 50 for every ordinary asteroid and level * 100 for every boss it destroys |
| Combat.BurnScoreCases | main.js:703-706 | without a kill the score is unchanged; without a boss it grows by exactly 50 per kill |
| Simulation.Extent | main.js:181 | the length of a list whose slots below k are written exactly at the loaded indices: at most k, above every loaded index below k, its last slot loaded, 0 only when nothing below k is loaded |
| Simulation.FleetSize | main.js:181 | loadedShipModels.length: at most the ship count, above every loaded index, 0 exactly when nothing loaded |
| Simulation.Cycle | main.js:206-213 | changeShip's index stays below the list length, changes exactly when there is more than one slot, and steps up or down with wrap-around at either end |
| Simulation.PartialFleet | main.js:209 | with only STARFIRE loaded the list has one slot and changeShip keeps STARFIRE; with both loaded it moves to BLUE NOVA |
| Simulation.FittedWhole | main.js:206-213 | while there is a player, exactly the slots below the list length hold models, so changeShip never lands on a missing model |
| Simulation.CycleRoundTrip | main.js:206-213 | for any list length, next then previous (or the reverse) returns to the same ship |
| Simulation.ConsistentMeans | main.js:610-619 | the invariant read element-wise: the level is between 1 and the distance's level, every asteroid has health left, every debris piece is fresh |
| Simulation.LevelReached | main.js:390-392 | a level has been reached by a distance exactly when it is at most getCurrentLevel of that distance |
| Simulation.CollideKeeps | main.js:631-649 | the asteroid pass, with gameOver, keeps the invariant |
| Simulation.BulletKeeps | main.js:651-679 | the bullet pass keeps the invariant |
| Simulation.SkillKeeps | main.js:688-729 | the skill's tick, with its beam pass, keeps the invariant |
| Simulation.DamageKeeps | main.js:740-754 | a hit on the player, and the gameOver that may follow, keep the invariant |
| Simulation.MoveKeeps | main.js:589-608 | the player's steps keep the invariant |
| Simulation.LevelKeeps | main.js:610-619 | the level step keeps the invariant: the level never passes the distance's level |
| Simulation.SpawnKeeps | main.js:621-625 | the spawn step keeps the invariant |
| Simulation.BossKeeps | main.js:627-629 | the boss step keeps the invariant, so there is never more than one boss |
| Simulation.ScheduleKeeps | main.js:610-629 | level, spawn and boss steps together keep the invariant |
| Simulation.DebrisKeeps | main.js:733 | decaying the debris keeps every piece fresh |
| Simulation.FinishKeeps | main.js:651-736 | the steps after the asteroid pass keep the invariant |
| Simulation.CombatKeeps | main.js:631-736 | the asteroid pass and the rest of the tick keep the invariant |
| Simulation.PlayKeeps | main.js:586-738 | a whole tick of play keeps the invariant |
| Simulation.MoveFrame | main.js:589-608 | the player's steps change only the player: the vitals take one GraceTick and the stationary counter grows or resets |
| Simulation.CollideFrame | main.js:631-649 | the asteroid pass changes only the asteroids, the vitals and what gameOver changes: progress, gear, controls, score, count, bullets, debris, x and the counters are untouched; the asteroids and vitals become Combat.Advance's; a fatal pass sets the phase to gameover with both best values updated by KeepBest and hides the player, otherwise phase, best values and visibility are unchanged |
| Simulation.ScheduleFrame | main.js:610-629 | the scheduling steps change only level, progress, planet flag, spawn counter, asteroids and phase; the level becomes the larger of itself and the distance's level; the planet opens only at level 11 and only once |
| Simulation.FinishFrame | main.js:651-736 | the steps after the asteroid pass leave the player, the phase, best values and controls alone; the distance grows by one exactly while the player has stood still less than 300 ticks; shield and skill take one tick; while the skill lasts the beam is up exactly when it burns and the skill goes on |
| Simulation.PlayGear | main.js:681-729 | a tick never changes the controls; with a player and no crash the shield becomes ShieldTick and the skill SkillTick of the old ones, and while the skill lasts the beam is up exactly when STARFIRE burns with Space held and the skill goes on; a crashed tick or one without a player leaves shield, skill and beam alone |
| Simulation.PlayDistance | main.js:589-736 | the distance grows by at most one; it does not grow once the player has stood still for 300 ticks, and does grow when the player has just moved and the tick is not cut short |
| Simulation.PlayLevel | main.js:610-619 | the level never falls; with a player it becomes the larger of itself and the distance's level; the planet flag is set exactly when it was already, or level 11 is first reached |
| Simulation.PlayOutcome | main.js:610-649 | from a playing state with health left, the tick ends in gameover exactly when health is gone, with the best values taken against the score and distance the tick started with; otherwise the phase is the planet transition if level 11 opened, else still playing, and the best values are untouched |
| Simulation.PlayHealth | main.js:596-649 | health never rises and drops by at most one, except below zero in the crashing case; an active shield or an invincibility window that outlasts the tick's countdown leaves it unchanged |
| Simulation.BulletScore | main.js:665-668 | the bullet pass never lowers the count of destroyed asteroids and adds at least 50 points for each one |
| Simulation.SkillScore | main.js:703-706 | the skill's tick never lowers the count and adds at least 50 points for each asteroid the beam destroys |
| Simulation.FinishScore | main.js:651-736 | the steps after the asteroid pass never lower the count and add at least 50 points per kill |
| Simulation.PlayScore | main.js:586-738 | a whole tick never lowers the count of destroyed asteroids and adds at least 50 points for each one |
| Simulation.RunGear | main.js:681-729 | over n consecutive ticks with a player and no crash, the controls are unchanged and the shield and skill are exactly n ticks on (Status.ShieldAfter / SkillAfter), so the 300/600-tick shield and 600-tick skill lifecycles hold in play |
| Simulation.AdvancePass | main.js:631-649 | the asteroid loop computes Combat.Advance |
| Simulation.FindTarget | main.js:655-677 | the inner scan returns Combat.TargetOf |
| Simulation.ResolvePass | main.js:651-679 | the bullet loop, with its nested scan, computes Combat.Resolve |
| Simulation.BurnPass | main.js:699-712 | the beam loop computes Combat.Burn |
| Simulation.DecayPass | main.js:551-563 | updateDebris's loop computes Registry.Decayed |
| Simulation.Game.constructor | main.js:3-37 | every field holds the script's initial value (loading, no player, no model loaded, ship 0, zero counters, level 1, 3 hearts, shield, skill and beam off, nothing held, empty registry, the stored best values), which satisfies the invariant |
| Simulation.Game.ShipsLoaded | main.js:175-193 | every arrived model is stored at its ship's index; the last callback opens the menu; when it is a success, the player is the selected ship's model if that ship loaded (then hidden) and absent otherwise; after a failure the player is untouched; nothing else changes; the invariant is kept |
| Simulation.Game.ShowShipSelection | main.js:198-204 | the guard admits only the menu, which moves to ship selection |
| Simulation.Game.ChangeShip | main.js:206-213 | with a player, the index takes one Cycle step modulo loadedShipModels.length (staying put when only one model loaded) and the ship is shown; without one nothing changes; the invariant is kept |
| Simulation.Game.ClearGameObjects | main.js:279-290 | the registry is emptied |
| Simulation.Game.ResetCounters | main.js:292-297 | score, distance and count are 0, the level is 1 with no progress, and the planet flag is off |
| Simulation.Game.ResetPlayer | main.js:294-304 | 3 hearts, no invincibility, shield, skill and beam off, and x at 0 when there is a player |
| Simulation.Game.ResetGameStats | main.js:292-305 | a fresh run: empty registry, zero counters, level 1, 3 hearts, shield, skill and beam off, x at 0 when there is a player |
| Simulation.Game.ConfirmShipSelection | main.js:219-226 | only from ship selection: moves to transitioning with the reset state; ship, best values, player, visibility, last x, held keys, fired flag, spawn and stationary counters kept; otherwise nothing changes |
| Simulation.Game.UpdateHighScore | main.js:155-164 | the best score and distance become the larger of stored and current |
| Simulation.Game.GameOver | main.js:322-333 | the state becomes Ended of the old one: phase gameover, best values updated by KeepBest, the player hidden, nothing else changed |
| Simulation.Game.QuitToMenu | main.js:307-320 | back to the menu with the registry emptied; the invariant is kept |
| Simulation.Game.TogglePause | main.js:789-806 | playing becomes paused, anything else becomes playing |
| Simulation.Game.ResumeGame | main.js:808-817 | the phase becomes playing |
| Simulation.Game.ActivateShield | main.js:532-540 | the shield becomes Status.ActivateShield of the old one |
| Simulation.Game.ActivateSkill | main.js:542-548 | the skill becomes Status.ActivateSkill of the old one |
| Simulation.Game.ShootBullet | main.js:494-531 | no player, no shot; STARFIRE's skill raises the beam; otherwise the shot's bullets are appended |
| Simulation.Game.Fire | main.js:126-133 | one shot per press: the press is marked fired; bullets are added only on the first press, with a player, and not during STARFIRE's skill; the beam is not touched |
| Simulation.Game.KeyDown | main.js:124-137 | the key is always recorded as held; only while playing do Escape pause, Space fire once per press (not during STARFIRE's skill), S activate the shield and 1 the skill |
| Simulation.Game.KeyUp | main.js:138 | the key is released, and releasing Space re-arms firing |
| Simulation.Game.HandleDamage | main.js:740-754 | the stand-alone handleDamage event: the returned hit is that of Status.Damage; the vitals become Status.Damage's, everything else is unchanged, and a fatal hit applies gameOver; the invariant is kept |
| Simulation.Game.TrackStationary | main.js:589-594 | the state becomes StationaryStep of the old one: the counter grows while x is unchanged and resets otherwise; the last x is recorded |
| Simulation.Game.TickInvincibility | main.js:596-604 | the state becomes GraceStep of the old one: the grace timer runs down as Status.GraceTick, and the player blinks with a 20-tick period meanwhile |
| Simulation.Game.Steering | main.js:606-608 | the state becomes SteerStep of the old one: x moves as Status.Steer says for the held keys |
| Simulation.Game.LevelUp | main.js:610-619 | the state becomes LevelStep of the old one (its effect is ScheduleFrame's: the level rises to the distance's level, level 11 opens the planet transition once per run) |
| Simulation.Game.SpawnTick | main.js:621-625 | the state becomes SpawnStep of the old one: once the counter passes the spawn interval a new asteroid is appended and the counter resets, otherwise the counter grows |
| Simulation.Game.BossTick | main.js:627-629 | the state becomes BossStep of the old one: a boss is appended exactly when one is due and none is live |
| Simulation.Game.AdvanceAsteroids | main.js:631-649 | the state becomes CollideStep of the old one: asteroids and vitals become Combat.Advance's, and gameOver follows a fatal hit; the result says whether the pass crashed |
| Simulation.Game.ResolveBullets | main.js:651-679 | the state becomes BulletStep of the old one: bullets, asteroids, score, count and debris become Combat.Resolve's; the result is the number of draws used |
| Simulation.Game.TickShield | main.js:681-686 | the state becomes ShieldStep of the old one: the shield becomes Status.ShieldTick of the old one |
| Simulation.Game.BurnAsteroids | main.js:699-712 | the state becomes BeamStep of the old one: asteroids, score, count and debris become Combat.Burn's |
| Simulation.Game.TickSkill | main.js:688-729 | the state becomes SkillStep of the old one: the skill becomes Status.SkillTick's; the beam burns only for STARFIRE with Space held; while the skill is active the beam ends up on exactly when it burned and the skill goes on; an inactive skill leaves the beam alone |
| Simulation.Game.UpdateDebris | main.js:551-563 | the state becomes DebrisStep of the old one: the debris becomes Registry.Decayed of the old debris |
| Simulation.Game.Travel | main.js:734-736 | the state becomes DistanceStep of the old one: the distance grows by one exactly while the player has stood still for fewer than 300 ticks, and nothing else changes |
| Simulation.Game.MovePlayer | main.js:589-608 | the state becomes MoveStep of the old one: stationary count, grace window and blink, steering, in the order of the source |
| Simulation.Game.ScheduleTick | main.js:610-629 | the state becomes ScheduleStep of the old one: level, spawn counter and spawn, boss (what that changes is ScheduleFrame) |
| Simulation.Game.EndTick | main.js:651-736 | the state becomes FinishStep of the old one: bullets, shield, skill and beam, debris, distance (what that changes is FinishFrame) |
| Simulation.Game.CombatTick | main.js:631-736 | the state becomes CombatStep of the old one: the asteroid pass and, unless it crashed, the rest of the tick; the result says whether it crashed |
| Simulation.Game.UpdatePlayingState | main.js:586-738 | the state becomes PlayStep of the old one, and the invariant is kept; PlayGear, PlayDistance, PlayLevel, PlayOutcome, PlayHealth, PlayScore and RunGear say what that step does |
| Simulation.Game.Frame | main.js:851-900 | loading, ship selection, paused and gameover frames change nothing; the menu frame re-shows a hidden player as ship 0 at x 0 and changes nothing else; transitions end on convergence; a playing frame is PlayStep; the invariant is kept |

## Left out

- `login.js` is scene setup, a starfield animation and menu music, with no game logic; it is not part of this model.
- Rendering is not modelled: meshes, materials, emissive dimming, rotations, opacity, the screen shake, `createGalaxy` and `createPlanetscape`.
- The thruster particles (`createThruster`, `updateParticles`) and the `particles.visible` toggles are not modelled; they only concern rendering.
- The camera lerp and slerp of the transitions are floating-point animation. They are modelled as the input `converged` of `Frame`.
- Audio (`playSound` and the music functions) is left out: these are foreign calls with no effect on the simulation state.
- The DOM is left out: `updateHUD`, `updateHearts` (except the throw on negative health), `showLevelUp`, `showBossWarning`, `alert` and screen visibility.
- The `setTimeout` in `gameOver` is a timer; `QuitToMenu` is the separate event that follows it.
- The high-score store is abstracted to two integers. `localStorage` string parsing, `NaN` handling and `displayHighScore` formatting are left out.
- Asset loading is asynchronous and callback-driven. It is one `ShipsLoaded` event, given the set of ships whose models loaded and whether the last callback was a success; the order of the other callbacks is not modelled, since only the last one sets `player`.
- Raw key capture is modelled as `KeyDown`/`KeyUp` events on a key enumeration. The window `resize` handler and the quit button, which leaves the page, are left out.
- Arithmetic is exact real arithmetic, not IEEE doubles. The repeated 0.2 steps and 0.1 beam damage would round in the browser.
- `Math.random` is modelled as bounded draws in [0, 1): a spawn roll, a boss draw, and a stream of draws for debris lifespans. Their distribution is not modelled. Draws for cosmetic quantities are left out: rotation speeds, debris velocities and particles.
- Distances are computed squared on the y = 0 plane, so nothing depends on the exact 3-D positions of ship models.
- AdvanceSummary: states only the quantifier-free facts the tick reads. Which asteroids stay, and what a collision costs, are stated by AdvanceKeeps, AdvanceKept, AdvanceOrigin and AdvanceHarm.
- ResolveAccounting: states only the bookkeeping of the bullet pass. What happens to each bullet is stated by ResolveLeft, ResolveClear and ResolveSpends, the damage it does by ResolveWear, and the exact score by ResolveScore.
- BurnAccounting: states only the bookkeeping of the beam pass. What happens to each asteroid in the beam is stated by BurnFate, and the exact score by BurnScore.
- PlayScore: gives the lower bound of 50 points per kill for a whole tick. The exact points per pass are stated by ResolveScore and BurnScore, not composed over the tick.
- `Simulation.Game.AdvanceAsteroids`: gameOver is called after the asteroid pass instead of at the fatal collision. Nothing in the pass reads what gameOver changes, so the final state is the same, but the order of those writes is not modelled.
- The loops of the tick run on working copies of the lists. The game stores the copies back into its fields afterwards. No other code runs in between, so the in-place splice is not observable.
- An exception thrown by the hearts readout ends the tick inside the asteroid pass. The model ends the tick there too (`crashed`). The throw also skips the rest of that frame (screen shake, render), which is rendering; later frames are later `Frame` events.
