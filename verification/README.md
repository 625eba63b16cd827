# Run-and-gun core, modelled in Dafny

This project models the core of a small side-scrolling run-and-gun game. The pieces are:

- **Object registry.** Game objects live in the registry, and membership groups hold non-owning handles to them. A group queues add and remove requests and commits them in `Sync`. A pass over a group skips objects queued for removal after the first step. The registry (`GameObjectManager`) synchronises every object once per frame and erases the killed ones.
- **Level.** The tile map answers spatial queries over a sparse layer of tiles, in row-major order.
- **Characters.** The player, the enemies and the moving platforms move and resolve their collisions against the tiles and against each other.
- **Bullets.** Bullets fly for one second. A two-frame muzzle flash follows the character that fired it.
- **Layer stack.** The stack holds the game, the pause screen and the game-over screen, and routes events, updates and draws.
- **Game layer.** The game layer fires bullets, runs the four bullet-collision passes, checks for falls and game over, and a fixed 60 Hz timestep loop drives it all.
- **Frame.** `GameLayer::Update` runs, in order: a live pass over the pre-update group, the player, a live pass over the post-update group, the bullet collisions, the fall check and the game-over test. The `Frame` module models it over a `Scene`: the registry plus the state of each object, with a tagged `Actor` per object kind standing for the virtual `Update`. A death an object decides goes through the registry's `Kill`, and a shot goes through the game's `FireBullet`. Because a group commits an addition to an empty list at once, a bullet fired into an empty post-update group is updated in the frame it was fired.

All state is immutable datatypes, and every operation is a function or a method over them. Object identity (`GameObject*`) becomes a natural-number handle `ObjId`. A group is a record holding:

- the committed list;
- the committed set;
- the two request queues.

`World` is the registry: the group map, the owned objects and the next handle.

Several behaviours of the code are kept exactly as written:

- **Queue order.** The order in which an `unordered_set` enumerates its contents is not defined. Where that order decides an outcome, the model takes it as a parameter:
  - the batch of queued additions that `Sync` appends;
  - the order in which the registry visits its objects.
- **Iteration does not skip the first element.** `begin()` does not skip an element that is queued for removal. Every pass therefore yields the first committed element of a group unconditionally, even when it is a killed bullet. `Game.KilledSkipped` and `Game.DeadBulletsHitOnlyFirst` state the consequence.
- **Erasing killed objects.** The registry erases a killed object after its own synchronisation. It does not check whether a group still lists the object.
- **Leaving a group.** `GameObject::RemoveFromGroup` sends the group an add request (see Findings).
- **Player status.** The status is never given a walking suffix. It becomes `<facing>_idle`, `<facing>_jump` or `<facing>_duck`, or stays as it is.
- **Platform waypoints.** The waypoint test reads the platform's drawn bounds. Those bounds lag one update behind the moved hitbox.
- **Enemy pass.** A bullet that hits an enemy goes on testing the remaining enemies. An enemy's vulnerability window limits the damage to one point per frame.
- **Health as unsigned.** `GetHealth` returns the signed health as an unsigned 32-bit value. The model writes out that wrap-around.

Hitboxes, the pixel-mask test (`BitmaskCompare`), keyboard state, the player's position relative to an obstacle, and the lookup of an entity by id enter as parameters. They are pure functions or plain values.

## Model

| member | source | states |
|---|---|---|
| Groups.DeferredAdd | src/Core/Group.cpp:7-28 | a pending removal of the object is cancelled; an object already queued for addition changes nothing; an object added to an empty list is committed at once; otherwise it is queued and the committed list is untouched |
| Groups.DeferredRemove | src/Core/Group.cpp:31-43 | a pending addition is cancelled and the object is queued for removal; the committed list and set are untouched |
| Groups.Contains | src/Core/Group.cpp:46-49 | for a valid group, membership is exactly presence in the committed list; queued requests are invisible to it |
| Groups.DeferredAddKeepsValid | src/Core/Group.cpp:7-28 | an add request keeps the group invariant: no duplicate in the list, the set mirrors the list, no object queued both ways |
| Groups.DeferredRemoveKeepsValid | src/Core/Group.cpp:31-43 | a remove request keeps the group invariant |
| Groups.RequestsKeepNonEmptyList | src/Core/Group.cpp:7-43 | while the list is non-empty, neither request changes it, so the position of a pass in flight stays meaningful |
| Groups.RequestsNeverQueueBothWays | src/Core/Group.cpp:7-43 | after either request the object is pending in at most one queue |
| Groups.Sync | src/Core/Group.cpp:52-74 | both queues are empty after a synchronisation |
| Groups.RemovePassFilters | src/Core/Group.cpp:54-63 | the removal loop erases exactly the queued objects that are committed, keeps the order of the rest, and removes the same objects from the set |
| Groups.AddPassAppends | src/Core/Group.cpp:65-73 | the addition loop appends, in enumeration order, every queued object that is not already committed, and adds them to the set |
| Groups.SyncSpec | src/Core/Group.cpp:52-74 | closed form of a synchronisation: the list loses every queued removal and gains the queued additions not already kept; the set becomes (members minus removals) plus additions; the invariant holds afterwards |
| Groups.SyncIdle | src/Core/Group.cpp:52-74 | with nothing queued, a synchronisation changes nothing |
| Groups.SyncIdempotent | src/Core/Group.cpp:52-74 | synchronising twice is the same as synchronising once, whatever the second enumeration order |
| Groups.ApplyAllPending | src/Core/Group.cpp:7-43 | after any series of requests on a synchronised group, each object's queue state reflects its most recent request, and the invariant holds |
| Groups.LastWriteWins | src/Core/Group.cpp:7-74 | after a series of requests and one synchronisation, an object is a member exactly when its last request was an add, or, with no request, when it was a member before |
| Groups.SkipFrom | src/Core/Group.h:51-57 | skipping stops at the first element not queued for removal, or at the end; every element passed over is queued for removal |
| Groups.Advance | src/Core/Group.h:33-38 | one step moves strictly forward, lands on an element not queued for removal or on the end, and passes over only queued elements |
| Groups.IterateClosedForm | src/Core/Group.h:33-71 | a whole pass yields the first committed element unconditionally, then exactly the later elements not queued for removal, in list order |
| Groups.IterateProperties | src/Core/Group.h:33-71 | a pass is a subsequence of the list, begins with its first element, yields nothing queued for removal after the first step, yields every unqueued element, and yields no duplicate when the group is valid |
| Groups.MarkedNotYielded | src/Core/Group.h:33-57 | after any step a pass never yields an element queued for removal |
| Groups.RemovalDuringPassSkips | src/Core/Group.h:33-57 | a removal requested while a pass is in flight leaves the list alone, and the rest of the pass skips that object |
| Groups.NoRevisit | src/Core/Group.h:33-38 | in a valid group a pass never comes back to an element it has already passed |
| Groups.Insert | src/Core/Group.cpp:77-79 | inserting keeps every element and adds exactly the new one (multiset equality) |
| Groups.InsertSorted | src/Core/Group.cpp:77-79 | inserting into a sequence sorted by the comparator's key keeps it sorted |
| Groups.InsertionSort | src/Core/Group.cpp:77-79 | the result is sorted by the key and is a permutation of the input |
| Groups.Sort | src/Core/Group.cpp:77-79 | sorting reorders the committed list into key order, as a permutation, and leaves the set and both queues unchanged |
| Groups.SortKeepsValid | src/Core/Group.cpp:77-79 | sorting keeps the group invariant |
| Registry.CreateGameObject | src/Core/GameObjectManager.h:19-26 | the registry gains exactly one object under a handle it did not own before; the new object has joined nothing and is alive; nothing else changes |
| Registry.AddToGroup | src/Core/GameObject.cpp:12-17 | the object records the group, and the group holds it committed or queued for addition and not for removal; other objects and groups are untouched; a non-empty list is not reordered |
| Registry.RemoveFromGroupAsWritten | src/Core/GameObject.cpp:20-24 | as written, leaving a group sends an add request: the object ends up committed or queued for addition in that group, and no object record changes |
| Registry.RemoveFromGroup | src/Core/GameObject.cpp:20-24 | the corrected request: the object is queued for removal and not for addition, and the committed list is untouched |
| Registry.Kill | src/Core/GameObject.cpp:27-34 | the object is marked killed and queued for removal, and not for addition, in every group it records; groups it never joined and all other objects are untouched |
| Registry.SyncObject | src/Core/GameObject.cpp:37-54 | every recorded group has empty queues afterwards; the object keeps exactly the recorded groups that still contain it; unrecorded groups and other objects are untouched |
| Registry.ManagerSync | src/Core/GameObjectManager.cpp:13-28 | the registry's synchronisation never adds an owned object or a group |
| Registry.ManagerSyncClosedForm | src/Core/GameObjectManager.cpp:13-28 | visiting each object once gives a closed form: every group touched by a visited object is synchronised once, every survivor keeps the groups still containing it, and the killed objects are erased |
| Registry.ManagerSyncProperties | src/Core/GameObjectManager.cpp:13-28 | when every owned object is visited once: the owned set becomes exactly the objects not killed; recorded groups only shrink; every recorded group contains its object; each group is synchronised at most once |
| Registry.CreateKeepsInv | src/Core/GameObjectManager.h:19-26 | creating an object keeps the registry invariant |
| Registry.AddToGroupKeepsInv | src/Core/GameObject.cpp:12-17 | joining a group keeps the registry invariant |
| Registry.RemoveFromGroupKeepsInv | src/Core/GameObject.cpp:20-24 | the corrected leave request keeps the registry invariant |
| Registry.KillKeepsInv | src/Core/GameObject.cpp:27-34 | killing keeps the registry invariant, including that a killed object is queued for removal in every group it records |
| Registry.ManagerSyncKeepsInv | src/Core/GameObjectManager.cpp:13-28 | the registry's synchronisation keeps the invariant, so afterwards no group lists or queues an object the registry no longer owns |
| Registry.KillThenSync | src/Core/GameObject.cpp:27-54 | an object that is killed and then synchronised records no group and is contained in none of the groups it had joined |
| Registry.RemoveFromGroupAsWrittenDangles | src/Core/GameObject.cpp:20-24 | counterexample: leaving an empty group the object never joined commits it there without a record; once it is killed and erased, the group still lists the erased handle |
| Registry.RemoveFromGroupAsWrittenStays | src/Core/GameObject.cpp:20-24 | as written, leaving a group the object belongs to keeps it a member after the next synchronisation; the corrected request takes it out |
| Geometry.Floor | src/TiledMap.h:398-399 | the integer is the greatest one not above the real value |
| Geometry.Ceil | src/TiledMap.h:400-401 | the integer is the least one not below the real value |
| Geometry.Truncate | src/Core/Animate.h:83-86 | the cast truncates toward zero: for a non-negative index, the whole frame it lies in |
| Geometry.Seconds | src/Main.cpp:568 | converting a non-negative number of seconds to a time span loses less than one microsecond and never rounds up |
| Geometry.TimePerFrameValue | src/Main.cpp:568 | the main loop's step `sf::seconds(1.0f / 60.0f)` is 16666 microseconds, a little under a sixtieth of a second |
| TiledMap.CellRangeOf | src/TiledMap.h:396-402 | a cell is in the computed range exactly when its tile's extent overlaps the query rectangle on both axes |
| TiledMap.CellRangeIsOverlap | src/TiledMap.h:396-402 | for a rectangle of positive size, the range holds exactly the cells whose tile intersects it |
| TiledMap.VisibleRegion | src/TiledMap.h:155-169 | the visible region is the same cell range as the spatial query computes for the view rectangle |
| TiledMap.ScanRow | src/TiledMap.h:406-414 | scanning one row appends that row's occupied cells, left to right, keeping the results well formed and in row-major order |
| TiledMap.QueryRange | src/TiledMap.h:403-417 | the nested scan reports each occupied cell of the range, with its tile and bounds, in strict row-major order, and reports nothing else |
| TiledMap.QueryRegion | src/TiledMap.h:396-418 | the query reports exactly the occupied cells whose tiles overlap the region, each with its tile and its bounds, in row-major order |
| TiledMap.RowMajorNoRepeat | src/TiledMap.h:404-415 | strict row-major order means no cell is reported twice |
| TiledMap.QueryOneTile | src/TiledMap.h:396-418 | with 32x32 tiles, a tile-sized region at the origin reports the tile at cell (0, 0) only |
| TiledMap.QueryCorner | src/TiledMap.h:396-418 | with 32x32 tiles, a 2x2 region over the corner of four tiles reports all four, row by row |
| TiledMap.GetLayerIndexByName | src/TiledMap.h:75-89 | the index of the first layer with the name, counted in 32 bits, or the 32-bit maximum when no layer has that name |
| TiledMap.MapSize | src/TiledMap.h:96-102 | for a positive tile size, the map's rectangle covers exactly the cells `[0, columns) x [0, rows)` under the tile query's rounding |
| TiledMap.MapCoversGrid | src/TiledMap.h:96-102 | the whole map's rectangle covers exactly the cells [0, columns) x [0, rows) |
| TiledMap.TileId | src/TiledMap.h:121-126 | the tile id is gid - firstgid + 1 modulo 2^32, and equals it exactly within the tile set's range |
| TiledMap.TileIdRoundTrip | src/TiledMap.h:121-126 | within a tile set, the global id is recovered as firstgid + id - 1, and the first tile has id 1 |
| Animate.NewAnimation | src/Core/Animate.h:45-48 | a new animation has no sequences, none selected, frame index zero and the given rate |
| Animate.Update | src/Core/Animate.h:50-62 | the index advances by rate times elapsed time; reaching the sequence length wraps it to 0 and reports that the sequence finished |
| Animate.UpdateKeepsBounds | src/Core/Animate.h:50-62 | with a non-negative rate and time step, the frame index stays inside the current sequence, so the texture lookup afterwards is in bounds |
| Animate.AddSequence | src/Core/Animate.h:64-67 | the id is registered; an id already present keeps its old sequence; every other sequence and the selection are unchanged |
| Animate.SetSequence | src/Core/Animate.h:69-76 | selecting the current sequence changes nothing; another stored id switches to it from frame 0; an unknown id is an out-of-range error |
| Animate.SetSequenceInBounds | src/Core/Animate.h:69-76 | selecting a stored, non-empty sequence succeeds and leaves the animation in bounds |
| Animate.Reset | src/Core/Animate.h:93-96 | a reset returns to frame 0 and keeps everything else |
| Animate.FrameIndex | src/Core/Animate.h:83-86 | the frame number is the whole part of the fractional index |
| Animate.GetTexture | src/Core/Animate.h:88-91 | the texture shown is one of the current sequence's frames, at an index inside the sequence |
| Entity.NewEntity | src/Entity.h:42-60 | a new entity has its health, cooldown and status, and both timers start finished, so it can fire and be damaged at once |
| Entity.UpdateTimerCooldowns | src/Entity.h:86-90 | both timers run down by the elapsed time and nothing else changes |
| Entity.Demage | src/Entity.h:126-137 | a hit costs one health point only outside the vulnerability window and only while health is positive, and it then restarts the window; otherwise nothing changes |
| Entity.InvulnerableAfterHit | src/Entity.h:126-137 | within half a second after a hit, another hit does nothing |
| Entity.HitsStopAtZero | src/Entity.h:126-137 | any number of hits never takes non-negative health below zero, nor lower than one point per hit |
| Entity.CheckDeath | src/Entity.h:151-157 | the entity's own flag is raised exactly when its health is not positive, and its other fields are kept; the registry side of `Kill()` is applied by `Frame.Commit` in the frame's update |
| Entity.StatusPrefix | src/Entity.h:95 | the status' part before its first '_' is a prefix without '_', followed by '_' when it is shorter than the status |
| Entity.PrefixOfSuffixed | src/Player.h:85-101 | a facing followed by a suffix starting with '_' splits back into that facing |
| Entity.FireDirection | src/Entity.h:94-98 | the entity fires right exactly when its facing is "right", and left otherwise |
| Entity.FireBullet | src/Entity.h:92-109 | the bullet starts at the hitbox centre, moved the offset along the facing and to the muzzle height (lower when ducking); the cooldown restarts, so with a positive cooldown the entity cannot fire again at once |
| Entity.CooldownGatesFire | src/Entity.h:86-113 | after a shot, the entity may fire again after an update exactly when the update's time reaches the cooldown: `CanFireBullet` is the cooldown timer being finished |
| Entity.Blink | src/Entity.h:139-149 | red exactly while the vulnerability window is open |
| Player.NewPlayer | src/Player.h:14-30 | a new player has 10 health, a 200 ms cooldown, faces right, is at rest at its position, and has no motion history |
| Player.Input | src/Player.h:42-83 | right wins over left for walking and facing; a jump needs the floor and sets the jump speed; ducking needs the floor; firing needs the key and a finished cooldown, and the player's bullet goes along the new facing at the muzzle height |
| Player.UpdateStatus | src/Player.h:85-101 | ducking on the floor wins, then being in the air, then standing still; walking on the floor keeps the status; the facing prefix is always kept |
| Player.NoWalkStatus | src/Player.h:85-101 | the status is kept or becomes the facing followed by _idle, _jump or _duck, and never a walking suffix |
| Player.HortStatic | src/Player.h:159-170 | each tile pushes the hitbox flush against it along the walking direction, so the last tile reported decides; standing still changes nothing |
| Player.ObstacleSnap | src/Player.h:173-191 | an obstacle overlapping the hitbox pushes a player that was wholly to its right flush against its right edge, and one wholly to its left flush against its left edge; the vertical extent never changes |
| Player.HortObstacles | src/Player.h:172-192 | the obstacles, in pass order, only move the hitbox horizontally |
| Player.CheckAndResolveHortCollision | src/Player.h:157-193 | both horizontal passes keep the hitbox's top and size |
| Player.ObstacleContacts | src/Player.h:214-230 | the candidates are exactly the overlapping obstacles classified on the given side, with their speed and handle |
| Player.FirstMin | src/Player.h:238-245 | the floor scan picks the first candidate with the least vertical speed |
| Player.FirstMax | src/Player.h:261-268 | the ceiling scan picks the first candidate with the greatest vertical speed |
| Player.ResolveVertCollision | src/Player.h:235-275 | a floor candidate puts the bottom on its top, takes its speed, lands the player, ends the jump and records it as carrier when it moves; a ceiling candidate then puts the top against its bottom and takes its speed |
| Player.CheckAndResolveVertCollision | src/Player.h:195-233 | a falling player over a tile lands; a player off the floor has no carrier; the horizontal extent, the speed along x and the entity are kept |
| Player.NoContactFalls | src/Player.h:195-233 | with no candidate anywhere, the player is in the air, keeps its speed and position, and has no carrier |
| Player.LevelIgnoresTiles | src/Player.h:202-212 | a player not moving vertically is resolved as if there were no tiles: level tiles count only for the direction of travel |
| Player.FallingLandsOnFirstTile | src/Player.h:202-212 | a falling player over tiles, with no obstacle met from below and no obstacle below rising, lands on the first tile the query returns: on the floor, not jumping, no carrier, vertical speed zero |
| Player.RisingHitsFirstTile | src/Player.h:202-212 | a rising player under tiles, with no obstacle below it and no obstacle above moving down, stops with its top at the first tile's bottom, off the floor and with no carrier |
| Player.VelocityOf | src/Player.h:117-123 | the carrier's speed is found exactly when the obstacle pass still yields that obstacle |
| Player.FallSpeed | src/Player.h:116-125 | a player carried down by a platform, and not jumping, takes the platform's speed; a jumping or uncarried player, or one whose carrier is gone or not moving down, keeps its own speed; gravity is then added in every case |
| Player.Move | src/Player.h:103-130 | ducking on the floor stops walking; the step keeps the hitbox size, the entity and the motion history |
| Player.FreeFall | src/Player.h:103-130 | with nothing under or over it, a step adds gravity to the vertical speed, moves by the new speed and leaves the player in the air |
| Player.Update | src/Player.h:132-142 | a frame remembers the hitbox, keeps health and the killed flag (the player's own death check is empty) and fires exactly when the key is held and the cooldown is over |
| Player.ResetPlayerPosition | src/Player.h:148-154 | the player is put at the position, at rest, with a sprite-sized hitbox and no motion history; everything else is kept |
| Enemy.SnapToGround | src/Enemy.h:18-21 | each tile under the enemy moves its bottom to the tile's top, so the last tile reported decides |
| Enemy.NewEnemy | src/Enemy.h:13-24 | a new enemy has 3 health and a 1000 ms cooldown, faces right, and stands on the last tile under its sprite |
| Enemy.UpdateStatus | src/Enemy.h:36-46 | the enemy faces left exactly when the player's centre is left of its own |
| Enemy.CheckFire | src/Enemy.h:48-60 | the enemy fires exactly when the player is within 600 (centre to centre), within 20 of its height and the cooldown is over; the bullet is an enemy bullet, along the facing, from the muzzle |
| Enemy.Update | src/Enemy.h:62-71 | the hitbox never moves; the enemy dies exactly at non-positive health; it fires exactly when the player is in sight and the cooldown has run out this frame |
| Enemy.FiresTowardPlayer | src/Enemy.h:36-60 | every enemy bullet flies toward the side the player's centre is on |
| Platform.PlatformState.Velocity | src/MovingPlatform.h:46-49 | the platform moves only vertically, at exactly its speed for a unit direction |
| Platform.NewPlatform | src/MovingPlatform.h:20-29 | a new platform moves up, with its hitbox equal to its bounds |
| Platform.ReverseDirection | src/MovingPlatform.h:90 | reversing flips the vertical velocity and changes nothing else |
| Platform.SetTop | src/MovingPlatform.h:92-96 | the hitbox top goes to the value, the drawn position follows it, and the size and direction are kept |
| Platform.SetBottom | src/MovingPlatform.h:98-102 | the hitbox bottom goes to the value, the drawn position follows it, and the size and direction are kept |
| Platform.Bounce | src/MovingPlatform.h:63-75 | a waypoint overlapping the bounds reverses the platform and snaps its bottom (moving down) or its top (moving up) to the waypoint; any other waypoint changes nothing |
| Platform.BounceAll | src/MovingPlatform.h:61-76 | the waypoint loop only flips the direction and moves the hitbox vertically |
| Platform.Move | src/MovingPlatform.h:58-59 | the hitbox moves by direction times speed times time while the drawn bounds stay behind |
| Platform.Update | src/MovingPlatform.h:56-79 | an update remembers the old hitbox, moves only vertically, keeps or flips the direction, leaves the drawn position on the hitbox, and keeps a well-formed platform well formed |
| Platform.FreeTravel | src/MovingPlatform.h:56-79 | away from every waypoint, a platform moves on by speed times time and keeps its direction |
| Platform.NoBounce | src/MovingPlatform.h:61-76 | waypoints that miss the bounds leave the platform as it is |
| Platform.StaleBoundsDelayTurn | src/MovingPlatform.h:56-79 | a platform whose moved hitbox already overlaps a waypoint, but whose stale bounds do not, goes on for that update and turns on the next one |
| Bullet.NewBullet | src/Bullet.h:26-36 | a new bullet is alive, at its position, with its direction and age zero |
| Bullet.Update | src/Bullet.h:45-55 | the bullet moves by direction times speed times time and ages; its own flag is raised exactly when it was raised or the bullet is now older than one second; the registry side of `Kill()` is applied by `Frame.Commit` |
| Bullet.Flight | src/Bullet.h:45-55 | after n equal steps, a bullet has flown n steps' distance and is dead exactly when n steps exceed its one-second life |
| Bullet.DiesOnStep61 | src/Bullet.h:45-55 | at the main loop's step of 16666 microseconds a bullet survives 60 steps and dies on the 61st |
| Bullet.FlashAnimation | src/Bullet.h:127-137 | the flash animation plays the two flash frames at 15 frames a second, starting from frame 0 |
| Bullet.SetAnimationFrame | src/Bullet.h:139-147 | the shown texture is a current frame; the flash is mirrored once it points left, and a mirror is never undone |
| Bullet.SetPositionWithOffset | src/Bullet.h:149-160 | with its owner present, the flash sits 60 ahead of the owner's centre along its direction and at the muzzle height; without one it stays where it is |
| Bullet.NewFlash | src/Bullet.h:78-89 | a new flash is alive, in bounds at frame 0, shows the first frame, and is mirrored exactly when it points left |
| Bullet.UpdateFlash | src/Bullet.h:106-117 | the flash's own flag is raised exactly when its animation finishes, and the flash is then left in place; otherwise it shows the new frame and follows its owner; the registry side of `Kill()` is applied by `Frame.Commit` |
| Bullet.HandleEvent | src/Bullet.h:91-97 | the flash dies exactly when its own entity announces leaving the scene |
| Bullet.FlashUpdates | src/Bullet.h:106-117 | repeated updates keep the animation in bounds, with its rate and sequence |
| Bullet.FlashLifetime | src/Bullet.h:106-117 | at the main loop's step of 16666 microseconds the flash lives through eight updates, with its frame index at 0.24999 per update, and dies on the ninth, when the index first reaches its two frames |
| Layers.PushLayer | src/Main.cpp:78-85 | a present layer goes on top and its entering hook runs; a missing one changes nothing |
| Layers.PopLayer | src/Main.cpp:87-94 | the top layer's leaving hook runs and it is removed; an empty stack is left alone |
| Layers.PushPop | src/Main.cpp:78-94 | pushing and then popping a layer restores the layers and logs one enter and one exit of it |
| Layers.Clear | src/Main.cpp:98-105 | every layer's leaving hook runs, bottom first, and the stack is emptied |
| Layers.LayerHandleEvent | src/Main.cpp:169-243 | only the game-over screen resets the scene, and only on space; a layer that passes events down never disturbs the layers under it |
| Layers.HandleEventFrom | src/Main.cpp:107-116 | the event reaches layers from the top down and stops right after the first layer that answers false; the scene is reset at most once |
| Layers.HandleEvent | src/Main.cpp:107-116 | the whole stack's event pass: the top layer sees the event first, the layers under it follow top-down, and the pass stops after the first layer that does not pass events down; the scene is reset at most once |
| Layers.ScreenBlocksEvents | src/Main.cpp:107-116 | while a screen is on top, events reach that screen only |
| Layers.PauseToggles | src/Main.cpp:389-396 | the pause key pauses the running game and resumes the paused one, and does nothing on the game-over screen |
| Layers.SpaceRestarts | src/Main.cpp:235-243 | space on the game-over screen resets the scene once and returns to the game |
| Layers.UpdateFrom | src/Main.cpp:118-127 | updates reach layers from the top down and stop right after the first layer that answers false |
| Layers.Update | src/Main.cpp:118-127 | the whole stack's update pass, in the same top-down order with the same stopping rule |
| Layers.GameRunsOnlyOnTop | src/Main.cpp:118-127 | the game advances exactly when it is the top layer; the pause and game-over screens freeze it |
| Layers.BottomUpFrom | src/Main.cpp:129-137 | a bottom-up pass visits a prefix of the layers and stops right after the first false answer |
| Layers.Draw | src/Main.cpp:129-137 | drawing visits the layers bottom first |
| Layers.EveryLayerDraws | src/Main.cpp:129-137 | since every draw hook answers true, every layer draws, with the screens over the game |
| Layers.Resize | src/Main.cpp:139-144 | every layer is resized, bottom first |
| Game.JoinAll | src/Main.cpp:371-386 | joining a list of groups records all of them and holds the object committed or queued for addition in each; nothing else changes |
| Game.JoinAllKeepsInv | src/Main.cpp:371-386 | joining groups keeps the registry invariant |
| Game.Spawn | src/Main.cpp:370-377 | spawning adds one new object that has joined exactly the given groups; old objects and the set of groups are unchanged |
| Game.SpawnKeepsInv | src/Main.cpp:370-377 | spawning keeps the registry invariant |
| Game.SpawnPair | src/Main.cpp:370-377 | the bullet and the flash are two distinct new objects, and nothing that was owned before changes |
| Game.SpawnPairStates | src/Main.cpp:370-377 | the bullet has joined the draw, post-update and bullet groups; the flash has joined the draw and post-update groups |
| Game.FireBullet | src/Main.cpp:362-387 | firing creates exactly two new, distinct objects, the bullet and its flash; every object already owned is untouched and no group is added; the tint is purple exactly for a player's bullet |
| Game.FireBulletOtherGroup | src/Main.cpp:362-387 | firing changes no group but the drawn, post-update and bullet groups and the shooter's own side group; in particular the other side's bullet group is left alone |
| Game.JoinAllList | src/Core/Group.cpp:17-26 | a live object joining groups goes straight into the committed list of each joined group whose list was empty; every other committed list is left as it was |
| Game.SpawnList | src/Core/Group.cpp:17-26 | the same for a newly created object: it is committed at once exactly where the joined group's list was empty |
| Game.FiredPostList | src/Main.cpp:370-377 | after a shot the post-update list holds just the bullet if it was empty before, and is unchanged otherwise: the flash, joining second, always waits in the add queue |
| Game.FiredBulletTiming | src/Core/Group.cpp:17-26 | a pass over the post-update group started after the shot updates the bullet exactly when that group's list was empty before the shot, and never updates the flash |
| Game.FireBulletJoins | src/Main.cpp:362-387 | the bullet ends in the draw, post-update and bullet groups and its side's group; the flash is in the draw and post-update groups only; both are alive |
| Game.FireBulletKeepsInv | src/Main.cpp:362-387 | firing keeps the registry invariant |
| Game.KillCurrentKeepsPass | src/Main.cpp:406-413 | killing the element a pass stands on does not change what the rest of the pass visits |
| Game.KillPassKills | src/Main.cpp:406-413 | a kill pass kills exactly the visited objects the test accepts and changes no other killed flag, list, record or owned set |
| Game.KillPassKeepsInv | src/Main.cpp:406-413 | a kill pass keeps the registry invariant |
| Game.KillGroupPass | src/Main.cpp:406-425 | a whole kill pass over a group kills exactly the objects its iteration yields that the test accepts, and keeps the invariant |
| Game.KilledSkipped | src/Core/Group.h:63-66 | a killed object is yielded by a pass over a group it joined only when it is the group's first committed element |
| Game.FrontKilledStillYielded | src/Core/Group.h:63-66 | a group's first committed element is always yielded, killed or not |
| Game.HitsOf | src/Main.cpp:430-443 | one bullet's hits are exactly the enemies it overlaps whose pixels the mask confirms |
| Game.AllHits | src/Main.cpp:428-444 | the enemy pass's hits are exactly the overlapping, mask-confirmed pairs of a visited bullet and an enemy |
| Game.DamageAll | src/Main.cpp:428-444 | applying the hits keeps the set of enemies and leaves every enemy that was not hit unchanged |
| Game.DamagedAtMostOnce | src/Main.cpp:428-444 | an enemy with a positive vulnerability window is unchanged by a frame's hits, or loses exactly one point with its window open |
| Game.FirstHit | src/Main.cpp:447-461 | the player pass settles on the first bullet that hits, and no bullet before it hits |
| Game.EnvironmentPasses | src/Main.cpp:405-425 | the tile and obstacle passes keep the invariant and the world's shape, revive nothing, and kill every visited bullet that overlaps a tile |
| Game.DamageEnemies | src/Main.cpp:428-444 | the enemy set is kept, an enemy not hit is unchanged, and an enemy with a positive window loses at most one point |
| Game.PlayerBulletHits | src/Main.cpp:428-444 | the hits are exactly the overlapping, mask-confirmed pairs of a visited player bullet and a visited enemy; a bullet that was dead before the pass hits only as the first committed player bullet |
| Game.EnemyPass | src/Main.cpp:428-444 | the enemy pass keeps the invariant and the world's shape, keeps the enemy set, and costs each enemy with a positive window at most one point |
| Game.EnemyPassKills | src/Main.cpp:428-444 | the enemy pass revives nothing; each bullet that dealt damage overlapped the enemy, passed the mask test and is dead; a bullet that was already dead deals damage only as the first committed player bullet |
| Game.PlayerPass | src/Main.cpp:447-461 | the player pass keeps the invariant and the world's shape, and the player takes at most one hit |
| Game.PlayerPassHits | src/Main.cpp:447-461 | the player pass revives nothing, and the player is hit whenever a visited enemy bullet overlaps it and passes the mask test |
| Game.BulletCollision | src/Main.cpp:403-462 | the whole collision step keeps the registry invariant and the world's shape; the player takes at most one hit; an enemy with a positive window loses at most one point |
| Game.BulletCollisionKills | src/Main.cpp:403-462 | the collision step revives nothing, and every visited bullet that overlaps a tile is dead at its end |
| Game.BulletCollisionHits | src/Main.cpp:403-462 | every bullet that dealt damage overlapped the enemy, passed the mask test and is dead at the end of the step |
| Game.DeadBulletsHitOnlyFirst | src/Main.cpp:403-462 | a player bullet that was dead before the frame, or died against a tile, deals damage only when it is the first committed player bullet |
| Game.FallCheck | src/Main.cpp:480-484 | a player below the level is put back at the start, at rest, and takes a hit; a player inside the level is untouched; health drops by at most one |
| Game.FallCheckSettles | src/Main.cpp:480-484 | with a start inside the level, a second check changes nothing, so one fall costs one hit |
| Game.DisplayedHealth | src/Entity.h:161 | the health is read as an unsigned 32-bit value: unchanged when non-negative, wrapped by 2^32 when negative |
| Game.FinishUpdate | src/Main.cpp:480-489 | the game-over screen is pushed exactly when the health after the fall check is zero |
| Game.LastFallEndsGame | src/Main.cpp:480-489 | a fall ends the game for a player at one health point whose window has elapsed, and not for a player at two |
| Game.GameOverPushedOnce | src/Main.cpp:486-489 | the game-over screen is pushed once; it then freezes the game, so later updates do not push it again |
| Game.FixedSteps | src/Main.cpp:594-604 | the catch-up loop runs floor(accumulated / frame) updates and leaves less than one frame of time, non-negative once a step ran |
| Game.HealthIcons | src/Main.cpp:30-40 | one icon per health point, in a row from (10, 10), each the icon width plus 4 to the right of the one before |
| Game.IconsApart | src/Main.cpp:30-40 | icons of non-negative width never overlap: each leaves a four-pixel gap before the next |
| Frame.FireAddsShot | src/Main.cpp:362-387 | a shot adds exactly two fresh objects, the bullet in the bullet groups of its side and the flash in the drawn and post-update groups, both live; every existing object, record and actor is kept |
| Frame.FireKeepsInv | src/Main.cpp:362-387 | turning an entity's shot into the game's `FireBullet` plus a new bullet and flash keeps the scene invariant |
| Frame.StepActor | src/Core/GameObject.h:21 | one object's own update keeps its kind: an enemy's hitbox stays put; it dies in this step exactly when its kind's death test holds (enemy health not positive, bullet older than one second, flash animation wrapped, platform never); only an enemy shoots |
| Frame.ActStepKeepsInv | src/Core/GameObject.cpp:27-34 | an object's update with its death sent to the registry's `Kill` and its shot to `FireBullet` keeps the scene invariant, including that every death an object records has reached the registry |
| Frame.ActStepEvolves | src/Main.cpp:466-469 | one object's update changes no other object's state or groups, keeps the player, and sets the registry's killed flag exactly when the object dies |
| Frame.ActStepKeepsPass | src/Core/Group.cpp:7-43 | an update inside a pass leaves the group being iterated, and so the rest of the pass, unchanged: its kills and shots only queue requests on a non-empty list |
| Frame.UpdatePassEvolves | src/Core/Group.h:33-71 | the live range-for from a position keeps the invariant and updates exactly the objects the iteration yields from there, each once, with the registry's killed flag following each one's death test |
| Frame.UpdateGroup | src/Main.cpp:466-476 | a whole pass over the pre- or post-update group keeps the invariant and updates exactly what the group's iteration yields at its start |
| Frame.ObstaclesOf | src/Player.h:173-192 | the obstacles the player sees are the committed platforms of the collision group, in iteration order, each with its hitbox, previous hitbox and velocity |
| Frame.ObstaclesArePlatforms | src/Main.cpp:336-343 | everything the collision group yields is a platform |
| Frame.PlayerMoves | src/Player.h:132-142 | the player's update against those platforms remembers the hitbox before the move, keeps health and the killed flag, and shoots exactly when the fire key is held and the cooldown has run out |
| Frame.PlayerStep | src/Player.h:77-81 | the player's update adds objects to the registry exactly when the fire key is held and the cooldown has run out |
| Frame.PlayerStepKeepsInv | src/Player.h:132-142 | the player's update, with its shot sent to `FireBullet`, keeps the scene invariant and every actor and record |
| Frame.PlayerShotKeepsObstacles | src/Main.cpp:362-387 | the player's own shot never changes the collision group it moves against |
| Frame.VulnerableAreEnemies | src/Main.cpp:323-328 | every object the vulnerable group lists is an enemy, so the collision step has a health record for it |
| Frame.WriteBack | src/Main.cpp:428-444 | the collisions' new health is written back to exactly the enemies that have one; every other actor and every enemy's hitbox is kept |
| Frame.Collide | src/Main.cpp:478 | the collisions cost the player at most one health point |
| Frame.CollideEffects | src/Main.cpp:403-462 | the collisions add and remove no object, group or actor, keep every actor's kind, own flag and recorded groups, never revive a killed object, and leave flashes alone |
| Frame.CollisionKeepsInv | src/Main.cpp:403-462 | the collisions keep the scene invariant |
| Frame.Fall | src/Main.cpp:480-489 | the fall check keeps the registry and the actors, costs at most one health point, and the game is over exactly when the health it leaves is zero |
| Frame.Close | src/Main.cpp:478-489 | the collisions then the fall check keep the invariant, cost at most two health points, and the game is over exactly when the final health is zero |
| Frame.Move | src/Main.cpp:466-476 | the pass before the player updates what the frame's start yields, the player then moves from where that pass left it, and the pass after the player updates what the world after the player yields; the invariant holds after each phase and the player's health is unchanged |
| Frame.Update | src/Main.cpp:464-494 | `GameLayer::Update` in phase order: pass before the player, player, pass after the player, collisions, fall check, game-over test; each phase keeps the scene invariant, the game is over exactly when the final health is zero, and the frame costs at most two health points |
| Frame.CloseDeadBulletHitsOnlyAsFirst | src/Main.cpp:428-444 | a player bullet already dead when the collisions start deals damage only as the first committed player bullet |
| Frame.ExpiredBulletHitsOnlyAsFirst | src/Main.cpp:473-478 | a player bullet whose time runs out in the pass after the player still damages an enemy in the same frame only when it is the first committed player bullet |

## Left out

- **Drawing.** Sprites, textures, views, the parallax background, the tile layer renderer and text are not modelled. The draw hooks are reduced to their answer.
- **Assets and audio.** Asset loading, file and JSON parsing, and sounds are left out.
- **Keyboard.** Polling the keyboard becomes a `Keys` record given to `Player.Input`, and a key event becomes a `Layers.Key`.
- **The clock.** The clock becomes the accumulated time given to `Game.FixedSteps`.
- **Pixel masks.** `BitmaskCompare` is a foreign pixel-mask test. It enters as the parameter `mask`.
- **Assumed helper definitions.** `FloatRect`, `Timer`, `SplitAndGetElement` and the event classes are not part of this model. Their behaviour is assumed from how they are used:
  - `Timer` is a countdown;
  - `FindIntersection` is an overlap of interiors;
  - `SplitAndGetElement(s, '_', 0)` is the text before the first '_'.
- **Obstacle side.** `IsDownCollision` and `IsUpCollision` are not part of this model. They enter as the parameter `classify`.
- **Numbers.** Positions, times and speeds are exact reals. Floating-point rounding, `std::round` of drawn positions and float-to-int32 overflow of huge coordinates are not modelled. Time spans are whole microseconds, as `sf::Time` stores them: `Geometry.Seconds` truncates, so the fixed step is 16666 microseconds. `asSeconds()` is taken as exact.
- **Object lifetime.** The singleton `Instance()`, `GetInstance` by id, the deleted copy and move operations and the `unique_ptr` ownership are replaced by handles in an immutable `World`. Entity lookup by id becomes the parameter `owner` of the flash.
- **Scene setup.** `ResetScene`, `RemoveAllGameObjects` and `PopulateScene` are not modelled. The reset is only counted by `Layers.HandleEventFrom`.
- **Camera.** The game view following the player is not modelled.
- **Frame boundaries.** `Frame.Update` covers one call of `GameLayer::Update`. The registry's synchronisation (`Registry.ManagerSync`) and the flash's event handling run between frames and are modelled on their own. The view centre set at the end of the update is part of the camera, which is left out.
- **Flash hitbox.** The flash's bounds enter the collision step as an empty rectangle at its position. The flash belongs to no collision group, so its bounds are never compared.
- **Platform's first frame.** `Platform.NewPlatform` starts the previous hitbox equal to the hitbox. The source leaves `mPreviousHitbox` default-constructed. Platforms sit in the pre-update group, whose pass overwrites it before the player reads it in the same frame, so the difference is never observed.
- **Cosmetic calls.** `Animate` and `Blink` inside the player's and enemy's update change only the sprite, so `Player.Update` and `Enemy.Update` leave them out. `Entity.Blink` is modelled on its own.
- **Query buffer.** `QueryRegion` returns a reference to one buffer that it reuses. The model returns a fresh sequence. The aliasing between nested queries is not modelled.
- Registry.ManagerSync: states only that the owned set shrinks and the groups stay. The precise outcome is in `Registry.ManagerSyncClosedForm` and `Registry.ManagerSyncProperties`, which need each owned object visited once.
- Animate.SetSequence: returns an error where `std::map::at` throws. The source has already reset the frame index by then, and that partial update is not modelled.
- Groups.Sort: sorts by insertion on an integer key. It does not model every order `std::sort` may produce for keys that compare equal.
- Groups.Sync: takes the enumeration order of the add queue as a parameter and does not require it to list every queued object. A batch that misses one drops that request, which the source always processes. `Groups.SyncSpec`, `Registry.ManagerSyncClosedForm` and `Registry.ManagerSyncKeepsInv` state their outcome for orders that cover the queues.
- Player.FallSpeed: reads the carrier's speed from the obstacles the pass yields this frame. The source keeps a raw pointer to the carrier, which the model does not follow once the platform is gone.
- Player.CheckAndResolveHortCollision: states only that the vertical extent and size are kept. The horizontal outcome is stated by `Player.HortStatic` and `Player.ObstacleSnap` for each part.
- Player.Move: states only what is kept. The falling step is characterised by `Player.FreeFall` and `Player.FallSpeed`.
- Bullet.FlashUpdates: states only the bounds it keeps. The flash's timing is `Bullet.FlashLifetime`.
- Game.BulletCollision: states the collision step's safety properties. The kill and hit outcomes are in `Game.BulletCollisionKills`, `Game.BulletCollisionHits` and `Game.DeadBulletsHitOnlyFirst`. It requires the registry invariant and a health record for each enemy in the vulnerable group, which the game maintains.
- Game.FinishUpdate: requires the health to fit in a signed 32-bit integer, as the source's `int32_t` does.
- Game.EnvironmentPasses: states that bullets overlapping a tile die, but not the obstacle outcome. The obstacle pass is the same kill pass with a different test, stated generally by `Game.KillGroupPass`.

## Findings

| source | as written | input that shows it | evidently intended | confidence | as-written member | corrected member |
|---|---|---|---|---|---|---|
| src/Core/GameObject.cpp:23 | `RemoveFromGroup` asks the group to ADD the object | a live object that never joined an empty group asks to leave it: it is committed at once without recording the group, and once killed and erased the group still lists its handle; an object that belongs to a group stays after asking to leave | ask the group to remove the object (`DeferredRemoveGameObject`) | high; not executed | Registry.RemoveFromGroupAsWritten, Registry.RemoveFromGroupAsWrittenDangles, Registry.RemoveFromGroupAsWrittenStays | Registry.RemoveFromGroup, Registry.RemoveFromGroupKeepsInv |
