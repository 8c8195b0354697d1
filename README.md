# PyGame-Maze core in Dafny

This project models the game logic of a small top-down pygame maze shooter and proves properties of that model. The modelled pieces are:

- **Camera.** It holds a world position and maps world points to screen pixels around the screen centre, at 100 pixels per world unit. The axes are inverted relative to the camera.
- **Map and MapRenderer.** Both classify a position as WALL, GROUND or DARK from the red channel of a loaded maze image. MapRenderer is the earlier revision. The map also lays out the visible tiles with a sub-tile scroll offset.
- **Player.** It covers heading, walk-cycle blend, movement and keyboard handling. Held keys rotate or strafe, then walk, and each SPACE press fires.
- **Particles and the particle system.** A particle has cycle-timed expiry and an optional custom update that can veto the default move. The system holds an in-place list that particles remove themselves from.
- **Events.** Named listener lists with rising ids, ordered firing, and removal by id or by callback.
- **Scene manager and title screen.** The manager tracks a list of scenes and the current one, with exit-before-enter notifications. The title screen is a START/QUIT menu driven by keydowns.

The Dafny files follow the source's own files: `camera.dfy`, `map.dfy`, `map_renderer.dfy`, `player.dfy`, `events.dfy`, `scene_manager.dfy` and `scene_title_screen.dfy` each hold one module for the file of the same name. Particle.py is split in two:

- `particle.dfy` (module `ParticleCycle`) holds its cycle arithmetic and the decision one `update` makes.
- `particle_system.dfy` (module `Particles`) holds the `Particle` class next to the `ParticleSystem` class. The two classes refer to each other, so they share one module.

Helper modules:

- `py_int.dfy`: Python's floor `//` and `%`, and `int()` truncation.
- `world.dfy`: points and the opaque heading displacement.
- `bitmap.dfy`: the red-channel image.
- `input.dfy`: keys and events.
- `wrappers.dfy`: Option and Result.

Objects whose fields the source updates in place are classes with `modifies` clauses: Camera, Map, Player, Particle, ParticleSystem, EventsEvent, Events, SceneManager and TitleScreen. Each of their loops is a `while` or `for` loop proved against a pure function. Examples:

- `Map.Layout` for the tile loops;
- `Particles.Sweep` for the particle update;
- `Events.Removed` for listener removal;
- `SceneTitleScreen.SelectionAfter` and `SceneTitleScreen.CallsAfter` for the key loop;
- `Player.InputActions` and `Player.PerformAll` for input handling.

Calls into collaborators are returned as traces, in the order they are made. These are the tile draws, the game calls, the scene notices and the listener calls.

Notes on the source's behaviour:

- The camera scales by 100 pixels per world unit, with both axes inverted.
- A particle with N cycles of length L expires once the elapsed time reaches (N + 1)·L (`ParticleCycle.ExpiresAfterLastCycle`).
- Particles have no spawn operation and no off-screen culling.
- A particle is drawn at its world position with no camera projection (`Particles.Particle.CurrentSprite`).
- The camera has no `getCameraBounds`, so `Map.Map.DrawMap` takes the view rectangle as parameters.
- Map.py's comments say "ground" and "solid wall" where the code returns DARK; the model returns DARK.

## Model

| member | source | states |
|---|---|---|
| PyInt.FloorDiv | Map.py:166-167 | Python `//`: the quotient is the floor, so q·b ≤ a < q·b + b for b > 0, and the mirror bounds for b < 0 |
| PyInt.FloorMod | Map.py:173-176 | Python `%`: a = (a // b)·b + r with r in [0, b) for b > 0 and in (b, 0] for b < 0 |
| PyInt.FloorIsEuclidean | Particle.py:80-90 | for a positive divisor, Python's `//` and `%` coincide with Euclidean division |
| PyInt.Trunc | Map.py:79-80 | `int(v)` truncates toward zero: floor for v ≥ 0, ceiling for v < 0 |
| PyInt.TruncOfInt | Map.py:183-186 | `int()` leaves an integral coordinate unchanged |
| World.MoveByAngleAndMagnitude | WorldEntity.py:61-90 | the new position is the old one minus the displacement for (angle, magnitude) |
| Camera.Camera.constructor | Camera.py:42-62 | records the window size, centre = (winW // 2, winH // 2) inside the window, position (0, 0), scale 100, zoom 1 |
| Camera.Camera.MoveTo | Camera.py:66-76 | the camera is at exactly (x, y) afterwards; zoom is untouched |
| Camera.Camera.GetScreenPos | Camera.py:80-100 | the camera's own position is drawn at the screen centre; only x and y are read, so zoom has no effect |
| Camera.Camera.WorldPos | Camera.py:94-100 | the inverse transform maps the screen centre back to the camera position |
| Camera.WorldOfScreen | Camera.py:94-100 | for a non-zero scale, WorldPos(GetScreenPos(p)) = p |
| Camera.ScreenOfWorld | Camera.py:94-100 | for a non-zero scale, GetScreenPos(WorldPos(s)) = s |
| Camera.ScreenShift | Camera.py:94-97 | moving a point d along one world axis moves its image −d·worldScale along that screen axis and leaves the other axis alone |
| Map.RangeLength | Map.py:179-180 | `range(0, n)` has n elements for n ≥ 0 and none otherwise |
| Map.VisibleColumns | Map.py:158-163 | a view w ≥ 0 pixels wide covers w // 128 + 1 tiles, one overscan tile included |
| Map.Map.constructor | Map.py:51-52 | a new map has no image |
| Map.Map.LoadMap | Map.py:69-72 | the loaded image becomes the map |
| Map.Map.GetTileAtPixelPos | Map.py:76-104 | the result is a valid tile index; DARK with no map; DARK exactly when the truncated position is outside the image; otherwise WALL exactly when red < 10 |
| Map.Map.CellDraw | Map.py:166-191 | loop cell (x, y) draws a valid tile index, the tile under map cell (left // 128 + x, top // 128 + y) |
| Map.CellDrawPlacement | Map.py:166-191 | loop cell (x, y) is drawn at its map cell's pixel position relative to the view corner, so the scroll offset lies in (−128, 0] on each axis |
| Map.Map.DrawColumn | Map.py:180-194 | the inner loop draws cells (x, 0), (x, 1), … for every y in `range(0, rows)`, top to bottom |
| Map.ColumnAt | Map.py:180-194 | the y-th draw of column x is cell (x, y) |
| Map.Map.DrawMap | Map.py:118-194 | nothing is drawn with no map; otherwise the draws are exactly the layout of the visible columns and rows for the truncated corner |
| Map.LayoutAt | Map.py:179-191 | the layout holds cols·rows draws and cell (x, y) is draw number x·rows + y: x is the outer loop |
| Map.LayoutLength | Map.py:158-180 | cols columns of rows tiles give cols·rows draws |
| MapRenderer.MapRenderer.constructor | MapRenderer.py:46-47 | a new renderer has no image |
| MapRenderer.MapRenderer.LoadMap | MapRenderer.py:64-67 | the loaded image becomes the map |
| MapRenderer.MapRenderer.GetTileAtPixelPos | MapRenderer.py:71-99 | DARK with no map or when the raw position is outside [0, w) × [0, h); otherwise the red value of the truncated pixel decides WALL or GROUND |
| MapRenderer.SameTileCodes | MapRenderer.py:26-28 | both revisions use the same tile codes |
| MapRenderer.AgreesWithMap | MapRenderer.py:71-99 | on non-negative coordinates both revisions classify every position alike |
| MapRenderer.DiffersLeftOfZero | MapRenderer.py:78-92 | for x in (−1, 0) this revision answers DARK, while Map samples column 0 as if x were 0 |
| Player.RotatedBy | Player.py:107-114 | the new heading lies in [0, 360) and is congruent mod 360 to rot + 5·direction |
| Player.Raised | Player.py:88-92 | a walk blend below 10 is raised to exactly 10; a blend of 10 or more is left as it is |
| Player.Drained | Player.py:294-296 | a positive blend drops by one; a zero blend stays, so it never goes negative |
| Player.CheckCollision | Player.py:152-154 | collision resolution accepts the new position unchanged |
| Player.Player.constructor | Player.py:32-62 | starting pose as given, blend 0, no collision marks, health 100, ammo 100, infinite ammo |
| Player.Player.EnableWalkCycleAnimation | Player.py:88-92 | the blend becomes Raised(old blend) |
| Player.Player.Rotate | Player.py:96-114 | the heading becomes RotatedBy(old heading, direction) through the source's add-360 loop, and the blend is raised |
| Player.Player.Move | Player.py:118-147 | the pose steps along the heading, plus 90 degrees when strafing, and the blend is raised |
| Player.Player.StrafeMove | Player.py:184-192 | a strafe is a move with the extra 90 degrees |
| Player.Player.CheckPlayerInput | Player.py:203-253 | the calls made are the held-key actions followed by one fire per SPACE keydown, and the new pose is their effect in that order |
| Player.Player.HandleHeldKeys | Player.py:212-243 | the turn or strafe calls come first, then forward, then back, and the pose is their effect |
| Player.Player.WalkKeys | Player.py:237-243 | up/W walks forward and then down/S walks back, and the pose is their effect |
| Player.Player.FireKeys | Player.py:246-253 | one fire per SPACE keydown, in event order; other events are skipped |
| Player.Player.TurnKeys | Player.py:215-223 | without shift, left/A rotates left and then right/D rotates right |
| Player.Player.StrafeKeys | Player.py:226-234 | with a shift held, left/A strafes left and then right/D strafes right |
| Player.MarkPixel | Player.py:280-282 | a mark goes to the pixel that `int()` truncation gives, which for non-negative coordinates is the pixel containing the screen point |
| Player.Player.DrawCollisions | Player.py:277-285 | mark i is drawn at the truncated pixel of collision point i's camera screen position, one mark per point in order, and the points are cleared |
| Player.Player.Draw | Player.py:289-330 | the blend decays by one step, and the marks drawn are those of DrawCollisions: each collision point's truncated screen pixel, in order, after which the points are cleared |
| Player.PerformAllKeepsBlend | Player.py:88-92 | any sequence of input actions keeps the blend in [0, 10] |
| Player.DrainKeepsBlend | Player.py:294-296 | a draw keeps the blend in [0, 10] |
| Player.RotateThereAndBack | Player.py:96-114 | turning left then right, or right then left, restores any normalised heading |
| Player.HeldKeysTurnOrStrafe | Player.py:215-234 | left alone rotates without shift and strafes with either shift |
| Player.PerformAllAppend | Player.py:203-253 | handling two runs of calls one after the other is handling their concatenation |
| Player.FiringKeepsPose | Player.py:246-253 | firing never moves or turns the player |
| Player.FireActionsAppend | Player.py:246-253 | the shots of two event batches are the shots of each batch, in order |
| Player.FireActionsCountPresses | Player.py:246-253 | there is exactly one shot per SPACE keydown, and nothing else fires |
| ParticleCycle.Normalised | Particle.py:90-93 | the normalised cycle time lies in [0, 1) for a positive cycle length |
| ParticleCycle.Decide | Particle.py:71-125 | the particle expires exactly when the expiry rule holds; without a custom update it never stops short; a stop means the update answered something equal to False |
| ParticleCycle.ExpiresAfterLastCycle | Particle.py:80-87 | with N > 0 cycles of length L > 0, the particle expires exactly when elapsed ≥ (N + 1)·L |
| ParticleCycle.TwoSecondCycleExample | Particle.py:80-87 | with 2 cycles of 1000 ms, the particle is alive at 2500 and expired at 3000 and at 3001 |
| ParticleCycle.EndlessNeverExpires | Particle.py:83 | a cycle count of 0 never expires, and with no custom update the particle always moves |
| ParticleCycle.CustomUpdateProtocol | Particle.py:107-125 | once past the expiry check, only a result equal to False (False or 0) vetoes the default move |
| Particles.RemoveFirst | ParticleSystem.py:67-71 | an absent element leaves the list as it is; otherwise exactly its first occurrence is cut out and the rest keep their order |
| Particles.KillTwiceIsKillOnce | ParticleSystem.py:67-71 | on a duplicate-free list the killed particle is gone, and a second kill changes nothing |
| Particles.IdCounter.constructor | Particle.py:19 | the shared id counter starts at 0 |
| Particles.Particle.constructor | Particle.py:22-67 | the id is one more than the previous particle's; defaults are speed 10, 1 cycle and 1000 ms; all settings are stored as given |
| Particles.Particle.CurrentSprite | Particle.py:138-141 | the sprite is the particle's image at its position and rotation |
| Particles.Particle.Kill | Particle.py:129-134 | the particle's first occurrence is removed from its own system's list |
| Particles.Particle.Update | Particle.py:71-125 | an expired particle removes itself and nothing else happens; otherwise the particle moves along its heading unless the custom update answered False |
| Particles.ParticleSystem.constructor | ParticleSystem.py:48 | a new system has no particles |
| Particles.ParticleSystem.KillParticle | ParticleSystem.py:67-71 | the list loses exactly the particle's first occurrence; an absent particle changes nothing |
| Particles.ParticleSystem.Update | ParticleSystem.py:75-79 | the particles visited and the final list are those of the position-based walk, in which an expiring particle removes itself |
| Particles.ParticleSystem.UpdateAll | ParticleSystem.py:75-79 | corrected update: every particle live at the start is visited once, in order, and the expired ones are removed; on a duplicate-free list each particle ends where one tick from its start-of-frame position leaves it (moved along its heading when the tick advances, unmoved otherwise) |
| Particles.ParticleSystem.Draw | ParticleSystem.py:83-87 | one sprite per particle, in list order |
| Particles.SweepWithoutRemovals | ParticleSystem.py:75-79 | when nothing expires, every particle is updated once, in order, and the list is unchanged |
| Particles.SweepVisitsFromIndex | ParticleSystem.py:75-79 | the walk never returns to a position before the current one |
| Particles.SweepSkipsSuccessor | ParticleSystem.py:75-79 | on a duplicate-free list, when the particle at position i removes itself, the particle after it is not updated |
| Particles.SkipExample | ParticleSystem.py:75-79 | with [a, b] and a expiring, the walk updates only a, and both walks end with [b] |
| Events.FirstMatch | Events.py:82-85 | finds the first listener whose id or callback matches, and reports none exactly when no listener matches |
| Events.Removed | Events.py:71-95 | with no match the list is kept and the answer is False; otherwise the first matching listener k is cut out (the list becomes ls[..k] + ls[k+1..]) and its callback is returned |
| Events.EventsEvent.constructor | Events.py:19-27 | a new event has counter 0 and no listeners |
| Events.EventsEvent.AddListener | Events.py:31-55 | the returned id is the previous counter + 1, above every id in use, and the listener is appended at the end |
| Events.EventsEvent.Fire | Events.py:59-67 | every listener is called once, in insertion order, with the same arguments |
| Events.EventsEvent.RemoveListener | Events.py:71-95 | the scan removes the first matching listener and returns its callback, or returns False and changes nothing; ids stay rising and within 1..counter |
| Events.AddKeepsIdsValid | Events.py:42-52 | after an add, ids still rise strictly and stay within 1..counter |
| Events.RemoveKeepsIdsValid | Events.py:82-91 | a removal keeps the ids valid, so no id is handed out twice |
| Events.AddThenRemoveById | Events.py:42-91 | removing by the id just returned undoes the add and returns the callback |
| Events.RemoveByFuncFirstOnly | Events.py:82-91 | removing by callback takes only its first registration; a later registration stays |
| Events.Events.constructor | Events.py:102-108 | every name in the list is registered with a fresh, empty event |
| Events.Events.AddEvent | Events.py:130-141 | a fresh, empty event replaces any old one under the name, `has_event` then holds, and the other names are untouched |
| Events.Events.HasEvent | Events.py:145-152 | a name is reported exactly when an event is registered under it |
| Events.Events.AddEvents | Events.py:112-126 | each name of the list gets a fresh, empty event, and names not in the list are untouched |
| SceneManager.PyIndex | SceneManager.py:74 | Python list indexing: an element exists exactly for −len ≤ i < len, and a non-negative index picks s[i] |
| SceneManager.CountFromEnd | SceneManager.py:74 | index −k picks the same scene as index len − k |
| SceneManager.SwitchNotices | SceneManager.py:76-85 | a switch ends by entering the new scene, and exits the old one first exactly when there was one |
| SceneManager.SceneManager.constructor | SceneManager.py:34-37 | a new manager has no scenes and no current scene |
| SceneManager.SceneManager.AddScene | SceneManager.py:41-59 | the scene is appended and its index len − 1 returned; the first scene becomes current and is entered; later adds change nothing else |
| SceneManager.SceneManager.SwitchScene | SceneManager.py:63-88 | an out-of-range index fails with no change; otherwise the chosen scene becomes current, the old one is exited before the new one is entered (even the same scene), and the old one is returned |
| SceneManager.SceneManager.GetCurrentScene | SceneManager.py:92-100 | returns the current scene |
| SceneManager.SwitchesKeepLifecycle | SceneManager.py:76-85 | any run of switches enters a scene only when none is current, exits only the current scene, and ends with the last target current |
| SceneManager.SwitchesEndOnLast | SceneManager.py:82 | after a run of switches the last target is current |
| SceneTitleScreen.Toggled | SceneTitleScreen.py:148 | an arrow always changes the selection |
| SceneTitleScreen.Dispatch | SceneTitleScreen.py:169-173 | START calls startGame and QUIT calls quitGame |
| SceneTitleScreen.TitleScreen.constructor | SceneTitleScreen.py:50 | the menu starts on START |
| SceneTitleScreen.TitleScreen.SceneEnter | SceneTitleScreen.py:102-113 | entering the scene resets the selection to START |
| SceneTitleScreen.TitleScreen.SelectOption | SceneTitleScreen.py:161-173 | the call made is the one Dispatch picks for the option, and it is quitGame exactly for QUIT |
| SceneTitleScreen.TitleScreen.CheckKeys | SceneTitleScreen.py:129-157 | the keydowns are handled in order; the selection and the game calls are those of the fold over the batch |
| SceneTitleScreen.OtherKeysIgnored | SceneTitleScreen.py:141-157 | keys other than arrows and Enter change nothing and call nothing |
| SceneTitleScreen.ArrowParity | SceneTitleScreen.py:141-151 | an even number of arrows restores the selection, an odd number toggles it, and no game call is made |
| SceneTitleScreen.SelectionAfterAppend | SceneTitleScreen.py:137-157 | handling two batches one after the other is the same as handling them as one batch |
| SceneTitleScreen.EnterAfterArrows | SceneTitleScreen.py:137-157 | Enter after n arrows in one batch acts on the option the arrows left selected |
| SceneTitleScreen.OneCallPerEnter | SceneTitleScreen.py:154-157 | there is exactly one game call per Return or keypad-Enter keydown |

## Findings

| source | as written | input that shows it | evidently intended | confidence | as-written member | corrected member |
|---|---|---|---|---|---|---|
| ParticleSystem.py:78-79 | the update walks the live list by position while an expiring particle removes itself from that list, so the particle that slides into the freed slot is not updated that frame | particles [a, b] with a past its last cycle: only a is updated, and b keeps its old position for the frame | every particle live at the start of the frame is updated once, e.g. by walking a snapshot | high, not executed | Particles.ParticleSystem.Update (shown by Particles.SkipExample and Particles.SweepSkipsSuccessor) | Particles.ParticleSystem.UpdateAll |

## Left out

- Trigonometry. The sine/cosine displacement of a heading is floating-point numerics. It is an opaque `Polar` function supplied by the caller, so positions after a move are stated in terms of it.
- MapRenderer.drawMap is not part of this model. It uses `math.modf` on floats and reads camera fields that the camera does not have.
- `drawTile` in both map revisions is a blit. Each call is recorded as a `TileDraw` record.
- pygame plumbing. The following are not modelled:
  - image loading (an image is its red-channel grid);
  - blits and transforms, including `blitRotateCenter`;
  - fonts and `display.update`;
  - the title screen's `_renderOptionText` and sine text scaling, and its `render`;
  - the player's sine-driven sprite animation offsets.
- Key polling. Held keys are a set of keys and polled events are a sequence. The clock reading `pygame.time.get_ticks()` is a `now` parameter.
- Util.dotdict, MazeGame.py (main loop, frame pacing, `debugInput`), and the print-only hooks of Scene.py, SceneGame.py and SceneEnd.py are not part of this model.
- The subclass scenes call `super().sceneEnter()` and `super().sceneExit()`, while the base class defines `scene_enter` and `scene_exit`. Only the title screen's own effect (the reset to START) is modelled, and its print-only `sceneExit` is omitted.
- `startGame`/`quitGame` are absent from the game class. They are modelled as returned `GameCall` values.
- Particle.py does not parse as written: line 39 uses `x = (a += 1)` and line 115 lacks a colon. The model takes the evident intent, an incrementing id and an `== False` test.
- Particle.py:125 calls `defaultMove`, which the base class spells `default_move`. The model moves the particle as `default_move` does.
- `onComplete` and `onCollide` are stored but never called, so the model has no collision and no completion callback.
- Particles.Particle.Update: the custom update receives the particle itself in the source. The model passes only the three cycle values and does not capture any change the callback makes.
- Particles.Particle.Update requires a non-zero cycle length, because the source raises ZeroDivisionError on a zero length.
- Particles.ParticleSystem.UpdateAll: positions are stated only for a list without repeats. A particle listed twice is updated twice and takes two ticks, which the contract does not spell out.
- Particles.ParticleSystem.Update: the positions of the particles after the frame are not stated, only which particles were visited and what the list is afterwards.
- Events.EventsEvent.Fire: the listeners' own effects are not modelled, including a listener that changes the list while it is being fired.
- Events.Events.AddEvent: events are a name-to-event map, not object attributes. An event name that coincides with one of the class's method names would shadow that method in the source; the model keeps the two apart.
- Player.CheckCollision: the unreachable code after the early return (Player.py:156-179) refers to a class that is never imported, and is not modelled.
- The player's `fire` only prints. The model records it as a `Fire` action.
- Camera.Camera.WorldPos: the source has no inverse transform. It is the model's own, stated for a non-zero scale to prove the round trips.
