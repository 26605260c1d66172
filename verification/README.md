# QuickDraw core, modelled in Dafny

QuickDraw is a small pygame game. A package sits in the middle of an arena.
Melee enemies walk up to it and strike it, and ranged enemies stop at a
distance and shoot at it. The player clicks enemies to shoot them and
clicks health pickups to heal the package. Kills pay into a wallet, and the
wallet buys upgrades in a shop. Every five minutes of play the difficulty
level rises, and the enemy spawner's cadence and cap compound with the
difficulty multiplier.

This project models the game logic as pure functions over immutable
datatypes, plus two methods with loops. The modules follow the source's
classes:

- `Numeric`: Python's `int()` truncation (`Trunc`), `round(x, 2)` (`Round2`), powers.
- `Results`: `Option` and `Result`, for error paths.
- `Geometry`: points, vectors and pygame `Rect` arithmetic (edges, centre, `collidepoint`, `colliderect`, `contains`).
- `Target`: the `Package` the enemies attack.
- `Difficulty`: `DifficultyManager`.
- `Shooter`: `Player`, covering shooting, cooldown and reloading.
- `Enemies`: `Enemy`, covering damage, difficulty scaling, melee, range and idle behaviour, movement and the reveal on entering the arena.
- `Placement`: `get_random_spawn_pos` and `random.randint`.
- `Spawning`: `EnemySpawner`.
- `Pickups`: `Item` and `ItemSpawner`.
- `Shop`: `Upgrade`, covering its catalog, button layout, the click lock and `add_upgrade`.
- `Serial`: `Serializable.to_dict` / `from_dict`, the bullet and enemy records, and `load_save_data`'s validation.
- `Frame`: one frame of `Game.run`. It covers the difficulty tick, player update, item pass, spawner update, the enemy pass with its bullets and the click damage, kill bounties, and the defeat check.

Randomness and the clock become parameters:

- `randint` becomes a natural-number draw reduced into the range.
- `random.choice` becomes a chosen `Side` or kind.
- `random.random()` becomes the crit roll.
- `pygame.time.get_ticks()` becomes `now`.
- The mouse position becomes `pointer`.
- Vector normalisation, which needs a square root, becomes a function parameter `unit`.

Where the game's design notes and its code differ, the model follows the code, except for the two defects listed under "## Findings", where the rest of the model uses the corrected behaviour:

- The difficulty rises at most one level per frame, however long the frame. The remainder carries over.
- The spawner divides its interval and multiplies its cap by the multiplier on every frame, not once per level.
- Hidden enemies, before they enter the arena, already run their melee or range behaviour.
- A package's `armor` is never read.
- `enemy_mov` runs once inside the behaviour and once more in `Enemy.update`. The second call comes after the acceleration has been cleared, so its velocity step changes nothing; what it adds is a second move of the rectangle by velocity times frame time, which the model leaves out (see "## Left out").
- A bullet fired during a frame is advanced and checked for hits in that same frame.

## Model

| member | source | states |
|---|---|---|
| Numeric.Trunc | QuickDrawV0.1.0.2025/object.py:420 | Python `int()` on a float: the greatest whole number not above a non-negative value and the least not below a negative one (truncation toward zero) |
| Numeric.TruncOfGrowth | QuickDrawV0.1.0.2025/object.py:454 | a non-negative count scaled by a factor of at least one and truncated is never smaller than the count |
| Numeric.PowAtLeastOne | QuickDrawV0.1.0.2025/object.py:48-49 | every power of a base of at least one is at least one, so the difficulty multiplier never weakens anything |
| Numeric.Round2 | QuickDrawV0.1.0.2025/object.py:661 | the result is a whole number of hundredths, and the nearest one to the value, ties rounded up |
| Numeric.Round2OfHundredths | QuickDrawV0.1.0.2025/object.py:661 | rounding leaves a value that is already a whole number of hundredths unchanged |
| Target.NewPackage | QuickDrawV0.1.0.2025/object.py:542-549 | a new package starts at full health of 100 with no armor, at the given rectangle |
| Difficulty.Update | QuickDrawV0.1.0.2025/object.py:42-46 | a frame raises the level by at most one, and by one exactly when the accumulated time reaches 300 seconds; level times 300 plus the elapsed time grows by exactly the frame time, so no time is lost or invented |
| Difficulty.Multiplier | QuickDrawV0.1.0.2025/object.py:48-49 | the multiplier `1.1 ** level` is never below one |
| Difficulty.MultiplierAfterUpdate | QuickDrawV0.1.0.2025/object.py:42-49 | a frame that crosses the interval multiplies the multiplier by 1.1; any other frame leaves it unchanged |
| Difficulty.RunAccountsForAllTime | QuickDrawV0.1.0.2025/object.py:42-46 | over any sequence of frames, level times 300 plus the elapsed time equals the starting total plus the sum of the frame times |
| Difficulty.RunCountsWholeIntervals | QuickDrawV0.1.0.2025/object.py:42-46 | from a fresh manager, with frames shorter than the interval, the level is the number of whole 300-second intervals played and the elapsed time stays below 300 |
| Difficulty.LongFrameRaisesOneLevel | QuickDrawV0.1.0.2025/object.py:42-46 | a 600-second frame raises the level once and leaves 300 seconds pending, which the next frame turns into the second level |
| Shooter.NewPlayer | QuickDrawV0.1.0.2025/object.py:136-153 | a new player has a full magazine, is not reloading, has an empty wallet and may fire 300 ms after creation |
| Shooter.ShotDamage | QuickDrawV0.1.0.2025/object.py:225-226 | a roll below the crit rate multiplies the damage by one plus the crit damage; otherwise the damage is the base damage |
| Shooter.StartReload | QuickDrawV0.1.0.2025/object.py:230-236 | after the call the player is reloading; a reload already running is left alone; otherwise the finish time is now plus the reload time and nothing else changes |
| Shooter.Shoot | QuickDrawV0.1.0.2025/object.py:208-228 | a shot is fired exactly when the player is not reloading, the cooldown has passed and a bullet is left; a fired shot lands at the pointer, uses one bullet and restarts the cooldown; an empty magazine starts a reload instead |
| Shooter.FinishReload | QuickDrawV0.1.0.2025/object.py:192-195 | once the reload time is reached the magazine is full again and reloading ends; before that nothing changes |
| Shooter.HandleEvents | QuickDrawV0.1.0.2025/object.py:198-206 | processing a frame's events keeps the player valid and uses at most one bullet; a shot comes only from a left click; wallet, bounty, magazine size and speeds are untouched |
| Shooter.Update | QuickDrawV0.1.0.2025/object.py:189-206 | `Player.update` keeps the player valid; any shot it reports comes from a left click among the events; wallet, bounty and speeds are untouched |
| Shooter.NoFireWhileReloading | QuickDrawV0.1.0.2025/object.py:211-212 | while a reload is running, shooting does nothing |
| Shooter.CooldownRefusesSecondShot | QuickDrawV0.1.0.2025/object.py:214-222 | after a shot, another attempt before the cooldown ends fires nothing and changes nothing |
| Shooter.EmptyMagazineReloads | QuickDrawV0.1.0.2025/object.py:189-236 | pulling the trigger on an empty magazine fires nothing and starts a reload; when the reload time has passed the magazine is full and reloading has ended |
| Shooter.StartReloadIdempotent | QuickDrawV0.1.0.2025/object.py:230-236 | starting a reload twice is the same as starting it once; the finish time is not pushed back |
| Shooter.NoClickNoShot | QuickDrawV0.1.0.2025/object.py:198-206 | a frame without a left click never shoots |
| Enemies.NewEnemy | QuickDrawV0.1.0.2025/object.py:240-257 | a new enemy has full health of 100, is hidden, has no bullets, is valid, and sits at the given position with the given kind |
| Enemies.TakeDamage | QuickDrawV0.1.0.2025/object.py:414-417 | health drops by exactly the damage; the enemy is destroyed exactly when it already was or its health is now at or below zero; nothing else changes |
| Enemies.TakeDamageKeepsDeathFlag | QuickDrawV0.1.0.2025/object.py:414-417 | if the destroyed flag matched "health at or below zero" before a non-negative hit, it still does after, and health never rises |
| Enemies.ApplyDifficulty | QuickDrawV0.1.0.2025/object.py:419-427 | max health is scaled and truncated, and health is reset to it; damage, attack speed, crit rate, crit damage and speed are scaled; top speed becomes the scaled speed; position, kind, bullets and flags are untouched |
| Enemies.ScaledNewEnemy | QuickDrawV0.1.0.2025/object.py:456-461 | an enemy made by the spawner under a multiplier of at least one is valid and alive at full health, with at least the base health, damage, attack speed and top speed |
| Enemies.Clamp | QuickDrawV0.1.0.2025/object.py:394-396 | a velocity within the speed cap is left as it is, and the zero vector stays zero |
| Enemies.Move | QuickDrawV0.1.0.2025/object.py:390-403 | movement changes only the velocity, and clears the acceleration |
| Enemies.MoveAtRest | QuickDrawV0.1.0.2025/object.py:390-403 | an enemy at rest with no acceleration stays exactly as it is |
| Enemies.Fire | QuickDrawV0.1.0.2025/object.py:405-412 | a bullet starts at the enemy's centre with the enemy's damage, speed 400 and radius 4 |
| Enemies.FireDependsOnBody | QuickDrawV0.1.0.2025/object.py:405-412 | the bullet depends only on the enemy's rectangle and stats, not on its timers, bullets or flags |
| Enemies.Melee | QuickDrawV0.1.0.2025/object.py:327-353 | in contact and with the attack timer run out, the enemy strikes the package for its damage and restarts the timer; otherwise the package is untouched; contact halts the enemy; bullets, visibility and body never change |
| Enemies.Range | QuickDrawV0.1.0.2025/object.py:355-384 | inside the 240-to-260 band (250 pixels from the package, give or take 10) with the timer run out, exactly one bullet is appended and the timer restarts; otherwise the bullets are unchanged; inside the band the enemy halts; visibility and body never change |
| Enemies.Reveal | QuickDrawV0.1.0.2025/object.py:304-313 | an enemy becomes visible once its rectangle is wholly inside the arena, and never hides again |
| Enemies.Update | QuickDrawV0.1.0.2025/object.py:296-324 | the package loses the enemy's damage exactly when a melee enemy strikes, and is otherwise untouched; acceleration ends at zero; visibility follows the reveal rule; rectangle, stats, health, kind and flags are unchanged |
| Enemies.UpdateBullets | QuickDrawV0.1.0.2025/object.py:296-324 | an update appends one bullet exactly when a ranged enemy fires, and otherwise leaves the bullets unchanged |
| Enemies.MeleeKeepsBullets | QuickDrawV0.1.0.2025/object.py:327-353 | a melee enemy never fires and its bullet list never changes |
| Enemies.RangeBullets | QuickDrawV0.1.0.2025/object.py:355-384 | a ranged enemy's update appends one bullet, aimed from its current body, exactly when it is in the band and ready |
| Enemies.UpdateMeleeShape | QuickDrawV0.1.0.2025/object.py:316-324 | a melee enemy's update is the timer tick and the reveal, then the melee behaviour, then movement |
| Enemies.UpdateRangeShape | QuickDrawV0.1.0.2025/object.py:316-324 | a ranged enemy's update is the timer tick and the reveal, then the range behaviour, then movement |
| Enemies.MeleeContactHalts | QuickDrawV0.1.0.2025/object.py:336-340 | a melee enemy touching the package ends the frame with zero velocity |
| Enemies.RangeBandHalts | QuickDrawV0.1.0.2025/object.py:361-375 | a ranged enemy inside the firing band ends the frame with zero velocity |
| Enemies.MeleeStrikesOncePerSecond | QuickDrawV0.1.0.2025/object.py:342-346 | with attack speed one, a melee enemy in contact does not strike after half a second but strikes once, for its damage, after a full second, and restarts its timer |
| Enemies.IdleNeverAttacks | QuickDrawV0.1.0.2025/object.py:386-387 | an enemy of neither kind never hurts the package and never fires |
| Placement.RandInt | QuickDrawV0.1.0.2025/config.py:128-145 | a draw always lands within the inclusive bounds |
| Placement.RandIntCoversRange | QuickDrawV0.1.0.2025/config.py:128-145 | every value within the inclusive bounds is a possible draw |
| Placement.SpawnPos | QuickDrawV0.1.0.2025/config.py:124-147 | the free coordinate lies within the arena's span, and on an edge side the fixed coordinate lies exactly the margin beyond that edge |
| Placement.InsideCoversArena | QuickDrawV0.1.0.2025/config.py:127-129 | every point of the arena, edges included, is a possible inside spawn |
| Placement.EdgeSpawnOutside | QuickDrawV0.1.0.2025/config.py:131-145 | an enemy smaller than the margin spawned on an edge side is neither inside the arena nor touching it, so it starts hidden |
| Spawning.SpawnEnemy | QuickDrawV0.1.0.2025/object.py:456-463 | exactly one enemy is appended, of the drawn kind, at the drawn spawn position, hidden and alive with no bullets, with health and damage scaled by the multiplier |
| Spawning.GrowNeverShrinks | QuickDrawV0.1.0.2025/object.py:454 | multiplying the cap by a multiplier of at least one and truncating never lowers it |
| Spawning.Update | QuickDrawV0.1.0.2025/object.py:443-454 | exactly one enemy is added when the timer runs out while there is room, none otherwise; existing enemies are kept; the timer restarts whenever it runs out; the interval is divided by the multiplier and the cap multiplied, on every call |
| Spawning.UpdateRespectsCap | QuickDrawV0.1.0.2025/object.py:447-451 | a spawn never takes the population past the cap in force when the decision was made |
| Spawning.UpdateNeverEases | QuickDrawV0.1.0.2025/object.py:453-454 | under a multiplier of at least one the cap never shrinks and a positive interval never grows or reaches zero |
| Spawning.IntervalCompoundsPerFrame | QuickDrawV0.1.0.2025/object.py:453 | after n frames under the same multiplier, the interval times the multiplier to the n-th power is the starting interval |
| Spawning.CapNeverShrinks | QuickDrawV0.1.0.2025/object.py:454 | under a multiplier of at least one the cap after any number of frames is at least the starting cap |
| Spawning.RunEscalatesPerFrame | QuickDrawV0.1.0.2025/object.py:443-454 | whatever the frames spawn, the interval and cap after a run depend only on the number of frames and the multiplier |
| Spawning.LevelZeroSpawnsEveryFiveSeconds | QuickDrawV0.1.0.2025/object.py:431-454 | at level zero a fresh spawner keeps its 5-second interval and cap of 10, and its first spawn comes after 5 seconds |
| Pickups.NewItem | QuickDrawV0.1.0.2025/object.py:476-480 | a new pickup is live, 50 by 50 at the given position, and heals 5 percent |
| Pickups.OnClick | QuickDrawV0.1.0.2025/object.py:488-496 | a live pickup is used up and heals the package by its truncated share of the maximum, capped at the maximum, changing nothing else; a used pickup does nothing |
| Pickups.OnClickOnce | QuickDrawV0.1.0.2025/object.py:489-490 | clicking a used pickup again does nothing |
| Pickups.OnClickHeals | QuickDrawV0.1.0.2025/object.py:488-496 | a pickup never lowers the health of a package within its maximum, and never lifts it past the maximum |
| Pickups.OnClickHealsFivePercent | QuickDrawV0.1.0.2025/object.py:488-496 | a fresh pickup heals a package at 50 of 100 to 55 |
| Pickups.SpawnItem | QuickDrawV0.1.0.2025/object.py:523-529 | exactly one live 50-by-50 pickup is appended, at least 10 pixels in from the left and top and wholly inside the arena |
| Pickups.SpawnItemCoversRange | QuickDrawV0.1.0.2025/object.py:524-525 | every allowed position is a possible drop |
| Pickups.Update | QuickDrawV0.1.0.2025/object.py:512-520 | exactly one pickup is added when the timer runs out while there are fewer than the maximum; existing pickups are kept; the timer restarts whenever it runs out; the cadence and cap never change |
| Pickups.UpdateKeepsCap | QuickDrawV0.1.0.2025/object.py:512-520 | the pickup count never goes past the maximum once it is within it |
| Shop.InitialEntriesFit | QuickDrawV0.1.0.2025/object.py:571-581 | the starting catalog is well formed and every upgrade costs 10 |
| Shop.DefaultCatalog | QuickDrawV0.1.0.2025/object.py:571-581 | the shop opens with a well-formed catalog in which every upgrade costs 10 |
| Shop.Apply | QuickDrawV0.1.0.2025/object.py:650-662 | an upgrade changes the chosen stat by its modifier and no other stat; a player stat leaves the package alone and a package stat leaves the player alone; ammunition, wallet, reload state and package health are untouched |
| Shop.AddUpgrade | QuickDrawV0.1.0.2025/object.py:641-668 | a player who cannot afford the cost gets nothing and pays nothing; otherwise they pay the cost, the stat is upgraded, the price rises by 10 and every other stat is unchanged |
| Shop.AddUpgradeKeepsCatalog | QuickDrawV0.1.0.2025/object.py:641-670 | a purchase keeps the catalog well formed and never changes an upgrade's title or modifier |
| Shop.AddUpgradeKeepsPlayerValid | QuickDrawV0.1.0.2025/object.py:641-670 | a purchase keeps the player valid and the wallet non-negative, and never lowers the chosen stat |
| Shop.BuyMaxHpScenario | QuickDrawV0.1.0.2025/object.py:641-670 | with 15 in the wallet, buying max health leaves 5, adds 10 to the package's maximum and raises the price to 20 |
| Shop.TooPoorScenario | QuickDrawV0.1.0.2025/object.py:642-648 | with 5 in the wallet nothing can be bought and nothing changes |
| Shop.LayoutButtons | QuickDrawV0.1.0.2025/object.py:588-605 | one 280-by-50 button per upgrade, in catalog order, stacked 60 pixels apart from 10 pixels inside the container |
| Shop.LayoutDisjoint | QuickDrawV0.1.0.2025/object.py:588-605 | no point lies on two buttons, so one click buys at most one upgrade |
| Shop.NewUpgrades | QuickDrawV0.1.0.2025/object.py:569-605 | the shop starts locked, with the default catalog and one button per upgrade |
| Shop.ClickButtons | QuickDrawV0.1.0.2025/object.py:631-635 | the lock is set exactly when it already was or some button lies under the pointer; a click on no button changes nothing; the catalog stays well formed |
| Shop.Click | QuickDrawV0.1.0.2025/object.py:627-638 | releasing the button unlocks the shop; a press while locked does nothing; a press while unlocked locks the shop exactly when it lands on a button; the buttons never change |
| Shop.ScanWithOneHit | QuickDrawV0.1.0.2025/object.py:631-635 | when exactly one button lies under the pointer, the scan buys that button's upgrade once and locks |
| Shop.ClickBuysOne | QuickDrawV0.1.0.2025/object.py:627-638 | with the laid-out buttons, a press on a button while unlocked buys exactly that upgrade and locks the shop |
| Shop.HeldPressBuysOnce | QuickDrawV0.1.0.2025/object.py:627-638 | holding the button down across frames buys once: the second frame changes nothing, wherever the pointer is |
| Shop.MissKeepsUnlocked | QuickDrawV0.1.0.2025/object.py:627-638 | a press that lands on no button leaves the shop unlocked and buys nothing |
| Serial.EncodeValue | QuickDrawV0.1.0.2025/config.py:23-36 | a rectangle is written as its four numbers, a vector as its two, a set as a list; no rectangle, vector, colour or set survives encoding |
| Serial.EncodeObjects | QuickDrawV0.1.0.2025/config.py:33-34 | a list of serialisable objects becomes a list of the same length |
| Serial.ToDict | QuickDrawV0.1.0.2025/config.py:18-37 | every key of the record comes from a field that is neither private nor callable |
| Serial.VectorOf | QuickDrawV0.1.0.2025/config.py:51-52 | an entry of a list of vectors is read back exactly when it is a list of at most two numbers |
| Serial.VectorsOf | QuickDrawV0.1.0.2025/config.py:51-52 | a list of vectors is read back exactly when every entry is, and then entry by entry |
| Serial.DecodeValue | QuickDrawV0.1.0.2025/config.py:42-58 | anything that is not a list is kept as it is; any list of four numbers is read as a rectangle and any list of two numbers as the vector of those two numbers, and a rectangle or vector comes only from such a list; a list read back as a colour has exactly three whole numbers, since four numbers are taken as a rectangle first; a list never comes back as a set or tuple; decoding fails only on a non-empty list |
| Serial.RectRoundTrip | QuickDrawV0.1.0.2025/config.py:23-24 | a rectangle written out is read back as the same rectangle |
| Serial.VectorRoundTrip | QuickDrawV0.1.0.2025/config.py:25-26 | a vector written out is read back as the same vector |
| Serial.VectorListRoundTrip | QuickDrawV0.1.0.2025/config.py:31-32 | a non-empty list of vectors written out is read back as the same list |
| Serial.VectorsRebuilt | QuickDrawV0.1.0.2025/config.py:51-52 | if each entry reads back as a given vector, the whole list reads back as those vectors |
| Serial.ColorReadsBackAsRect | QuickDrawV0.1.0.2025/config.py:27-28 | a colour, written as four whole numbers, reads back as a rectangle: the list-shape heuristic cannot tell them apart |
| Serial.ThreeBytesAreAColor | QuickDrawV0.1.0.2025/config.py:49-50 | a list of three whole numbers reads back as an opaque colour when each is a byte, and is an error otherwise |
| Serial.DecodeRecord | QuickDrawV0.1.0.2025/config.py:39-59 | a record is read back exactly when every value is, with the same keys, each value read back on its own |
| Serial.BulletToDict | QuickDrawV0.1.0.2025/object.py:117-126 | a bullet's record holds its position and velocity as pairs and its damage, speed and radius |
| Serial.BulletFromDict | QuickDrawV0.1.0.2025/config.py:39-59 | a bullet is rebuilt only from a record holding position, velocity and a numeric damage, and takes that damage |
| Serial.BulletRoundTrip | QuickDrawV0.1.0.2025/config.py:18-59 | a bullet written out and read back is the same bullet |
| Serial.BulletRecords | QuickDrawV0.1.0.2025/object.py:262 | an enemy's bullets are written as one record each, in order |
| Serial.EncodeBullets | QuickDrawV0.1.0.2025/config.py:33-34 | the generic encoding of a list of bullets is the list of the bullets' own records, in order |
| Serial.EnemyToDict | QuickDrawV0.1.0.2025/object.py:258-262 | the generic `to_dict` of the attributes an enemy sets, in their order, is exactly the generic enemy record: the vectors and rectangle as number lists, the colour as a tuple, the bullets as records |
| Serial.EnemyRecordIsGeneric | QuickDrawV0.1.0.2025/object.py:258-264 | the record `Enemy.to_dict` returns is the generic record plus `enemy_type`; its override of `bullets` changes nothing |
| Serial.BulletsFromDicts | QuickDrawV0.1.0.2025/object.py:272-274 | bullets read back from a list come one per record |
| Serial.BulletsFromDictsReadsEach | QuickDrawV0.1.0.2025/object.py:272-274 | if each record reads back as a given bullet, the list reads back as those bullets in order |
| Serial.BulletsRoundTrip | QuickDrawV0.1.0.2025/object.py:260-275 | an enemy's bullet list written out and read back is the same list |
| Serial.EnemyFromDict | QuickDrawV0.1.0.2025/object.py:266-275 | as written, an enemy read back needs a rectangle, a kind and bullets, and always comes back at full health 100 with base stats, alive and hidden |
| Serial.EnemyRoundTripAsWritten | QuickDrawV0.1.0.2025/object.py:260-275 | as written, an enemy read back is a fresh enemy of the same kind at the same position, with only its bullets kept |
| Serial.EnemyRoundTripLosesHealth | QuickDrawV0.1.0.2025/object.py:266-275 | as written, an enemy saved at 40 health reads back at 100 |
| Serial.EnemyFromRecord | QuickDrawV0.1.0.2025/object.py:260-275 | corrected: an enemy read back takes its health and kind from the record |
| Serial.StatsRoundTrip | QuickDrawV0.1.0.2025/object.py:260-264 | an enemy's stats written out read back unchanged |
| Serial.MotionRoundTrip | QuickDrawV0.1.0.2025/object.py:260-264 | an enemy's rectangle, velocity and acceleration written out read back unchanged |
| Serial.StateRoundTrip | QuickDrawV0.1.0.2025/object.py:260-264 | an enemy's health, attack timer, flags and kind written out read back unchanged |
| Serial.EnemyRoundTrip | QuickDrawV0.1.0.2025/object.py:260-275 | corrected: an enemy written out and read back is the same enemy |
| Serial.LoadSaveData | QuickDrawV0.1.0.2025/config.py:210-223 | save data loads exactly when it decodes to a dictionary holding "player"; the result keeps every entry and adds an empty "bullets" list only when that key was missing |
| Serial.LoadSaveDataIdempotent | QuickDrawV0.1.0.2025/config.py:216-223 | loading already-validated save data again changes nothing |
| Serial.SavedGameLoads | QuickDrawV0.1.0.2025/config.py:200-223 | data saved by the game loads back with its player, spawners and items intact and an empty bullet list |
| Frame.Advance | QuickDrawV0.1.0.2025/object.py:127-128 | a bullet moves by its velocity times the frame time and nothing else changes |
| Frame.Misses | QuickDrawV0.1.0.2025/main.py:90-95 | the bullets kept after the hit test are never more than before, and none of them is within reach of the package |
| Frame.MissesExactly | QuickDrawV0.1.0.2025/main.py:90-95 | a bullet is kept exactly when it is one of the enemy's bullets advanced by the frame and misses the package |
| Frame.BulletsAccountedFor | QuickDrawV0.1.0.2025/main.py:90-95 | every bullet is either kept or counted as a hit, never both |
| Frame.HitDamageNonNegative | QuickDrawV0.1.0.2025/main.py:93-94 | bullets with non-negative damage never heal the package |
| Frame.ResolveBullets | QuickDrawV0.1.0.2025/main.py:90-95 | the loop keeps exactly the bullets that miss after moving, and takes exactly the damage of those that hit off the package's health |
| Frame.ItemLoopAsWritten | QuickDrawV0.1.0.2025/main.py:72-80 | as written, the item loop never adds pickups and changes nothing of the package but its health; `Frame.ItemLoopSkipsAfterRemoval` shows the skipped pickup |
| Frame.UntouchedExactly | QuickDrawV0.1.0.2025/main.py:72-80 | corrected: a pickup remains exactly when it was in the list, was live and was not under the shot |
| Frame.ItemPass | QuickDrawV0.1.0.2025/main.py:72-80 | corrected: the pass leaves exactly the untouched pickups and changes only the package's health |
| Frame.ItemPassWithoutShot | QuickDrawV0.1.0.2025/main.py:75-77 | a frame without a shot never heals the package |
| Frame.ItemPassHeals | QuickDrawV0.1.0.2025/main.py:72-80 | the pass never lowers the package's health and never lifts it past the maximum |
| Frame.ItemLoopSkipsAfterRemoval | QuickDrawV0.1.0.2025/main.py:72-80 | two overlapping pickups clicked on a package at 50 of 100: as written one is skipped (55 health, one left); corrected both heal (60 health, none left) |
| Frame.EnemyTurn | QuickDrawV0.1.0.2025/main.py:85-99 | one enemy's turn leaves its body as the click left it; its health drops by the shot's damage exactly when the shot struck it alive; it is destroyed exactly when it was or that hit took it to zero; the package's maximum and rectangle are unchanged; the enemy keeps exactly the bullets `Misses` keeps, and the package, after the strike of `Enemies.Update`, loses exactly the damage of the ones that hit |
| Frame.AliveUndestroyed | QuickDrawV0.1.0.2025/main.py:103-104 | no destroyed enemy survives the pass |
| Frame.AliveKeepsValid | QuickDrawV0.1.0.2025/main.py:97-104 | valid enemies stay valid through the pass |
| Frame.AliveStrikesAll | QuickDrawV0.1.0.2025/main.py:97-104 | an enemy under the shot survives, hit, exactly when the shot leaves it with positive health |
| Frame.AliveWithoutShot | QuickDrawV0.1.0.2025/main.py:97-104 | without a shot, every live enemy survives unchanged |
| Frame.ResolveEnemies | QuickDrawV0.1.0.2025/main.py:85-105 | the loop keeps the same enemies as the reference pass, in order; the kill count is the number removed; the package's maximum and rectangle are unchanged |
| Frame.Step | QuickDrawV0.1.0.2025/main.py:55-110 | a frame returns to the menu exactly when the package's health is at or below zero; the game state stays well formed; the difficulty takes one tick; the arena and package geometry never change; the wallet grows by the bounty once per enemy removed |
| Frame.SpawnedValid | QuickDrawV0.1.0.2025/main.py:82-84 | a spawner update under a multiplier of at least one keeps every enemy valid and alive |

## Left out

- Drawing, fonts, colours, the `Button` and `Container` widgets, the menu and pause screens: rendering only.
- QUIT and Escape handling in `Game.run` (main.py:58-65): these save the game and leave the loop. The save format is modelled (`Serial.SaveRecord`, `Serial.SavedGameLoads`); the file write is not.
- `Upgrade.click` in the frame (main.py:112): it runs after the defeat check on the same state. It is modelled on its own as `Shop.Click` and not chained into `Frame.Step`.
- Encryption, decryption and file existence in `load_save_data`, and JSON parsing errors: I/O. A file that is missing or cannot be decoded is the `None` input of `Serial.LoadSaveData`.
- JSON's turning tuples into lists, and the integer-or-float distinction that `isinstance` sees after a JSON round trip: the model keeps integers and reals as separate constructors.
- The Vector2 and Rect constructor overloads other than the ones the save format uses.
- pygame's truncation of float coordinates when a `Rect` is moved: positions are whole numbers in the model, and `enemy_mov`'s position update is not modelled.
- Enemies.Move: changes only the velocity. The rectangle's movement by velocity times frame time is left out because pygame truncates it to whole pixels.
- Vector normalisation: the square root is a parameter `unit`. Normalising a zero vector, which raises in pygame, is not modelled.
- Floating point: reals are exact. `Numeric.Round2` rounds half up, whereas Python's `round` rounds half to even on the binary value.
- Frame.Misses: the hit test compares squared distances. This is equivalent to the source's distance test for non-negative reach.
- `shoot` reads the tick count a second time: both reads are the same `now` in the model.
- Placement.EdgeSpawnOutside: assumes the enemy is smaller than the 200-pixel margin, which holds for the 50-pixel enemies the game makes.
- `EnemySpawner.from_dict` and `ItemSpawner.from_dict` build a fresh spawner and only read the lists back. Timers, cadence and cap are not restored. The lists themselves are covered by the enemy and bullet round trips.
- Serial.LoadSaveData: rejects every decoded value that is not a dictionary. The source returns `None` for most of them through its `except Exception` (config.py:228-230), but a JSON list or string that contains both "player" and "bullets" passes its membership tests and is returned unchanged.
- An `enemy_type` that is not a string: the model's kind is always a string.
- `print` calls and the debug output in `Game.run`.
- Shooter.Update and Shooter.HandleEvents: their contracts state what a frame keeps (validity, speeds, wallet, bounty, at most one bullet used, shots only from left clicks), not the whole event loop. The reload finish and the shot themselves are stated by `Shooter.FinishReload` and `Shooter.Shoot`.
- Enemies.Clamp: states only that a velocity within the cap is kept. The scaled length of a faster one depends on the abstract `unit`.
- Frame.EnemyTurn: the enemy's rectangle does not move, because the position step of both `enemy_mov` calls (object.py:399-400) is left out; the source moves it twice per frame.
- Enemies.Update: keeps the rectangle unchanged for the same reason; in the source the call at object.py:324 moves it a second time by velocity times frame time.
- Frame.ResolveEnemies: states which enemies survive, in order, with their bodies, and the kill count. The survivors' bullets and the package's health after the whole pass are not given in closed form; `Frame.EnemyTurn` states both for one enemy.
- Frame.Step: runs the corrected pickup pass `Frame.ItemPass`, not the skipping loop of main.py:72-80 that `Frame.ItemLoopAsWritten` models (see "## Findings"). It states the defeat rule, the difficulty tick, the geometry kept and the bounty paid. The package's health is not given in closed form; each contribution is stated by the member that models it.
- Serial.BulletFromDict: rejects a record that lacks one of the bullet's attributes or whose `pos` or `vel` is not a list of numbers. The generic `from_dict` (config.py:40-59) never refuses a record: it builds the object with `cls.__new__` and sets whichever keys are present, so such a record loads as a partial bullet. `Serial.EnemyFromDict` inherits the refusal through `Serial.BulletsFromDicts`.
- Serial.ToDict and Serial.EncodeObjects: state which keys can appear and how many objects are written. The exact records are derived for bullets and enemies by `Serial.BulletToDict` and `Serial.EnemyToDict`.

## Findings

| source | as written | input that shows it | evidently intended | confidence | as-written member | corrected member |
|---|---|---|---|---|---|---|
| QuickDrawV0.1.0.2025/main.py:72-80 | the item loop removes a used pickup from the list it is iterating, so the pickup after it is skipped this frame | two overlapping pickups at (0,0), a shot at (10,10), package at 50 of 100 health: one heals to 55 and the other survives | every clicked pickup heals and every used pickup is removed: 60 health, none left | not executed | Frame.ItemLoopAsWritten | Frame.ItemPass |
| QuickDrawV0.1.0.2025/object.py:266-275 | `Enemy.from_dict` rebuilds a fresh enemy from position and kind, so a saved enemy's health, scaled stats, motion and flags are lost | an enemy saved at 40 health reads back at 100 | an enemy written by `to_dict` reads back as the same enemy | not executed | Serial.EnemyFromDict | Serial.EnemyFromRecord |
