# pocket_daemons: the grid-world rules, modelled and proved

This project models the integer game rules of pocket_daemons, a small
tile-based game written with the Bevy engine. It covers:

- **Tile coordinates** (`GridTransform`, two `i16`s): componentwise `+`, `-`
  and unary `-`, the lexicographic order, the four neighbours, the
  cardinal-direction index of a sprite sheet and the checked conversion to a
  tile-map position.
- **The diagonal-crossing test** between two connections.
- **The mob systems.** `move_mob` turns, blocks or moves a mob, updates the
  spatial index and sends move-onto triggers, then ticks every cooldown.
  `mob_interact` triggers whatever is in front of a mob. `trigger_on_see_player`
  scans up to 16 tiles ahead for the player and stops at anything that blocks
  sight.
- **Menu navigation.** Menu boxes keep an index from grid position to element
  and a bounding box (`update_menu_grid_index` keeps both current). A cursor
  steps along a direction to the next element or the edge. An Interact press
  triggers the element under each cursor.
- **The dialog state machine**: the page index, the page's text and how much
  of it is revealed, driven by page events, a repeating reveal timer and
  Interact.
- **The helpers**:
  - the game-state stack;
  - the key-to-control table and the key-to-event translation;
  - direction selection from held keys;
  - the player's cooldown-gated move;
  - the node bounds tracker;
  - the mob sprite-frame arithmetic.

Each engine system is a method of a class whose fields are the components
and resources the system changes:

- the engine's component storage is a map from entity to component;
- a marker component is a set of entities;
- an event reader is an input sequence and an event writer an output
  sequence;
- a query whose iteration order the engine does not fix is either a loop
  that picks any remaining entity, or an explicit order parameter.

Every such method is proved equal to a function over a value snapshot of
the world. The game's rules are lemmas about those functions.

The engine's `Timer` is whole milliseconds of elapsed time and duration,
plus a "just finished" flag:

- one-shot mode clamps at the duration;
- repeating mode wraps around it.

Rust `i16` arithmetic panics on overflow, so every coordinate operation that
could overflow requires that it does not. `a += b` (`AddAssign`) is written
as `a := Add(a, b)` where it occurs. The spatial index `GridIndex` and the
scaling `mult` are used by the mob systems but not defined in the modelled
files, so the model treats them abstractly:

- `GridIndex` is a map from tile to an ordered list of occupants: a miss
  reads as empty, and `update(e, p)` moves `e` to the end of `p`'s list;
- `mult` is componentwise scaling.

Rust strings count bytes, so dialog text is a byte sequence and the reveal
index is a byte index.

## Model

| member | source | states |
|---|---|---|
| GridTransforms.AddThenSub | src/graph/grid_transform.rs:116-142 | when `a + b` does not overflow, `(a + b) - b` does not overflow either and gives back `a` |
| GridTransforms.AddNegIsZero | src/graph/grid_transform.rs:116-153 | when `-a` does not overflow, `a + (-a)` does not overflow and is ZERO |
| GridTransforms.AddCommutes | src/graph/grid_transform.rs:116-125 | addition commutes, overflow condition included |
| GridTransforms.SubIsAddNeg | src/graph/grid_transform.rs:133-153 | `a - b` equals `a + (-b)` whenever both are defined |
| GridTransforms.Neighbors | src/graph/grid_transform.rs:21-27 | four tiles; the i-th is `p + CARDINALS[i]` (north, east, south, west) |
| GridTransforms.NeighborsAreAdjacent | src/graph/grid_transform.rs:21-27 | a tile is a neighbour of `p` exactly when it is at Manhattan distance 1 from `p` |
| GridTransforms.NeighborsDistinct | src/graph/grid_transform.rs:21-27 | the four neighbours are pairwise distinct |
| GridTransforms.CardinalIndex | src/graph/grid_transform.rs:29-40 | the index is at most 3; it is 1, 2, 3 exactly for EAST, SOUTH, WEST and 0 for every other vector |
| GridTransforms.CardinalIndexOfCardinals | src/graph/grid_transform.rs:29-40 | `cardinal_index(CARDINALS[i]) == i` for i in 0..4 |
| GridTransforms.NonCardinalIndexIsZero | src/graph/grid_transform.rs:29-40 | ZERO, the diagonals and longer vectors get index 0 |
| GridTransforms.Cmp | src/graph/grid_transform.rs:161-168 | Equal exactly for equal tiles; Less/Greater exactly by x first, then by y |
| GridTransforms.CmpAntisymmetric | src/graph/grid_transform.rs:155-168 | swapping the operands reverses the ordering |
| GridTransforms.CmpTotalOrder | src/graph/grid_transform.rs:155-168 | the induced `<=` is reflexive, total, antisymmetric and transitive |
| GridTransforms.ToTilePos | src/graph/grid_transform.rs:92-105 | succeeds exactly when both coordinates are non-negative, keeping them; otherwise fails with the source's message |
| GridTransforms.TilePosRoundTrip | src/graph/grid_transform.rs:95-100 | a non-negative tile converts and converts back to itself |
| GridTransforms.CardinalMultFits | src/mob.rs:290-291 | a cardinal step scaled by a count within `i16` range does not overflow and covers exactly that many tiles |
| Connections.CrossesExactly | src/graph/connection.rs:18-32 | `c` crosses `d` exactly when `c` is diagonal and `d` is the connection between its two corner tiles or that connection reversed; those two differ |
| Connections.StraightCrossesNothing | src/graph/connection.rs:19-31 | a connection with no x or no y component in its direction, a zero-length one included, crosses nothing |
| Connections.CrossesIrreflexive | src/graph/connection.rs:20-28 | no connection crosses itself |
| Connections.CrossesSymmetric | src/graph/connection.rs:18-32 | `c.crosses(d) == d.crosses(c)` |
| Connections.CrossesReversal | src/graph/connection.rs:19-28 | `Connection::new(b, a)` crosses exactly what `Connection::new(a, b)` crosses |
| GridIndexes.Get | src/mob.rs:199 | a tile that is not indexed has no occupants |
| GridIndexes.Without | src/mob.rs:213 | removing `e` from a list keeps exactly the other entries and keeps it duplicate-free |
| GridIndexes.EmptyIndexWf | src/mob.rs:189 | the empty index satisfies the index invariant and every tile is empty |
| GridIndexes.UpdateGet | src/mob.rs:213 | after `update(e, p)` the occupants of `p` are its old ones without `e`, then `e`; every other tile lost `e` |
| GridIndexes.UpdateLocates | src/mob.rs:213 | after `update(e, p)` `e` is on `p` and on no other tile, and every other entity is where it was |
| GridIndexes.UpdateWf | src/mob.rs:213 | `update` keeps the invariant: no empty bucket, no duplicate, no entity in two buckets |
| GridIndexes.UpdateIdempotent | src/mob.rs:213 | a second `update(e, p)` changes nothing |
| Timers.OnceTimer | src/mob.rs:104-107 | a new timer has the given duration, nothing elapsed and is not just finished |
| Timers.Tick | src/mob.rs:219-221 | a finished one-shot timer stays put and loses "just finished"; otherwise elapsed grows by delta clamped at the duration, "just finished" exactly when the duration is reached now |
| Timers.Reset | src/mob.rs:203 | elapsed back to 0; finished afterwards only for a zero duration |
| Timers.TickAdditive | src/mob.rs:116-121 | two ticks reach the same elapsed time and finished state as one tick by their sum |
| Timers.RepeatingTick | src/dialog.rs:181-182 | elapsed wraps to below the duration; "just finished" exactly when the tick reached the duration |
| Mobs.FinishTimer | src/mob.rs:116-121 | `finish` leaves the timer finished, not just finished, with its duration |
| Mobs.DefaultMovementCooldown | src/mob.rs:102-111 | the default mob cooldown is 400 ms and already finished |
| Mobs.DefaultSightCooldown | src/mob.rs:90-96 | the default sight cooldown is 2000 ms and not finished |
| Mobs.MoveOntoEvents | src/mob.rs:205-211 | one event per occupant carrying TriggerOnMoveOnto, each naming the mover; no repeats when the occupants have none |
| Mobs.MoveOntoEventsAppend | src/mob.rs:205-211 | the move-onto events follow the occupant order: the events of a concatenation are the concatenated events |
| Mobs.MoveOntoEventsOfOne | src/mob.rs:205-211 | a TriggerOnMoveOnto occupant sends exactly one event naming the mover, any other occupant none |
| Mobs.TriggerEvents | src/mob.rs:252-257 | one event per occupant carrying TriggerOnInteract, each naming the interacting mob; no repeats when the occupants have none |
| Mobs.TriggerEventsAppend | src/mob.rs:252-257 | the trigger events follow the occupant order: the events of a concatenation are the concatenated events |
| Mobs.TriggerEventsOfOne | src/mob.rs:252-257 | a TriggerOnInteract occupant sends exactly one event naming the interacting mob, any other occupant none |
| Mobs.StepMove | src/mob.rs:194-214 | one move event changes only the event's entity and the index; every trigger names that entity and a TriggerOnMoveOnto occupant |
| Mobs.StepMoveCases | src/mob.rs:194-214 | a mob missing from the query or still cooling down: nothing changes; otherwise it faces the movement, and a blocked move changes only that; an accepted move records the last position, moves, resets the cooldown, updates the index and triggers the destination's occupants as the index listed them before the update |
| Mobs.ProcessMoves | src/mob.rs:193-217 | the event loop keeps every component's entity set and the sight cooldowns; each trigger names a TriggerOnMoveOnto entity moved by one of the events |
| Mobs.TickCooldowns | src/mob.rs:219-221 | every mob of the query ticks its cooldown once by delta; nothing else changes |
| Mobs.StepMovePreservesIndex | src/mob.rs:199-213 | one move keeps the index consistent: every mob listed on its own tile and on no other |
| Mobs.ProcessMovesPreservesIndex | src/mob.rs:193-217 | the event loop keeps the index consistent |
| Mobs.MoveMobPreservesIndex | src/mob.rs:193-221 | a whole `move_mob` call keeps the index consistent |
| Mobs.UnreadyMobUntouched | src/mob.rs:194-195 | a mob whose cooldown has not finished keeps position, last position, facing and cooldown, and causes no trigger and no move |
| Mobs.AtMostOneMovePerCall | src/mob.rs:193-221 | with positive cooldown durations each mob makes at most one accepted move per call |
| Mobs.MovesOkFromStart | src/mob.rs:193-203 | if every event's step fits `i16` from the mob's starting tile, no step of the loop overflows |
| Mobs.MovesOkWhenStepsFit | src/mob.rs:193-203 | no step overflows whenever each event's step fits from the current tiles |
| Mobs.InteractTriggers | src/mob.rs:247-258 | a mob missing from the query or cooling down sends nothing |
| Mobs.InteractOutcomeMeaning | src/mob.rs:246-260 | a trigger is sent exactly when some event names a ready mob and the triggered entity is a TriggerOnInteract occupant of the tile in front of it |
| Mobs.ScanTile | src/mob.rs:298-316 | a sighting names a player occupant; a clear tile has no blocker and no player |
| Mobs.ScanTileFirstDecides | src/mob.rs:298-316 | the first occupant that blocks sight or is a player decides the tile, blocking checked first: clear exactly when there is none, blocked exactly when it blocks sight, a sighting of `p` exactly when it is the player `p` and does not block sight |
| Mobs.ScanRaySkipsClear | src/mob.rs:290-322 | over clear tiles the scan fits without overflow exactly when the scan past them does, and gives the same outcome |
| Mobs.ScanRaySeesOnly | src/mob.rs:290-322 | a player found is seen on some tile in range, with every nearer tile clear |
| Mobs.ScanRaySeesIf | src/mob.rs:290-322 | a player on the first tile that is not clear is found, and no tile the scan computes overflows |
| Mobs.ScanRayBlocked | src/mob.rs:290-322 | a blocker on the first tile that is not clear ends the scan with no find, and the tiles beyond it are never computed, so they cannot overflow |
| Mobs.WholeRayFits | src/mob.rs:290-292 | when all sixteen tiles of the ray fit `i16`, no scan of it overflows, whatever the tiles hold |
| Mobs.FirstUnclear | src/mob.rs:290-322 | the first tile from `k` that is not clear, or one past the range: all tiles before it are clear |
| Mobs.SightStep | src/mob.rs:285-322 | one entity's iteration changes only its own sight cooldown and sends at most one event, from a player to that entity |
| Mobs.SightStepRule | src/mob.rs:285-322 | the sight rule for one entity: the loop goes on exactly when the ticked cooldown has finished; an event is sent exactly when it has finished and the ray from the entity finds a player, and then it is the one event `{triggering: that player, triggered: the entity}` and the cooldown restarts; otherwise the cooldown stays ticked |
| Mobs.SightOutcome | src/mob.rs:285-323 | a `trigger_on_see_player` call changes only sight cooldowns |
| Mobs.SightOutcomeFrame | src/mob.rs:285-323 | entities outside the order keep their sight cooldown; every event is from a player to an entity of the order |
| Mobs.SightReach | src/mob.rs:285-289 | how many entities the loop visits before its `break`, at most the whole order |
| Mobs.SightUntouchedBeyondReach | src/mob.rs:285-289 | after the `break` on a running cooldown, later entities are not ticked and trigger nothing |
| Mobs.SightEventsDistinct | src/mob.rs:298-316 | at most one event per sight entity |
| Mobs.SightCooldownOfReached | src/mob.rs:285-316 | for every entity the loop reaches: an event names it only when its ticked cooldown has finished and the ray from it finds exactly the event's player; when the ray finds a player that event is sent; its cooldown ends restarted if it saw a player and ticked otherwise |
| Mobs.SightCooldownOfFirst | src/mob.rs:285-316 | the same rule for the first entity of the order |
| Mobs.TickAllCooldowns | src/mob.rs:219-221 | the cooldown loop computes TickCooldowns |
| Mobs.MobWorld.MoveMob | src/mob.rs:178-222 | the new world and triggers are those of ProcessMoves then TickCooldowns |
| Mobs.MobWorld.ProcessAll | src/mob.rs:193-217 | the event loop computes ProcessMoves |
| Mobs.MobWorld.TickAll | src/mob.rs:219-221 | the second loop computes TickCooldowns |
| Mobs.MobWorld.MoveOne | src/mob.rs:194-216 | one event's body computes StepMove |
| Mobs.MobWorld.CollectMoveOnto | src/mob.rs:205-211 | the trigger loop computes MoveOntoEvents |
| Mobs.MobWorld.MobInteract | src/mob.rs:235-261 | `mob_interact` changes nothing and sends InteractOutcome |
| Mobs.MobWorld.CollectInteract | src/mob.rs:252-257 | the trigger loop computes TriggerEvents |
| Mobs.MobWorld.TriggerOnSeePlayer | src/mob.rs:272-324 | over an enumeration of the sight query, the nested loop with its breaks computes SightOutcome |
| Mobs.MobWorld.SightOne | src/mob.rs:285-322 | one iteration computes SightStep, including whether the loop goes on |
| Mobs.MobWorld.ScanForPlayer | src/mob.rs:290-322 | the ray loop with its `blocked`/`found_player` flags computes ScanRay |
| Menus.FromPosition | src/menu.rs:85-100 | `from_position(p).includes(q)` exactly when `q == p` |
| Menus.AddPosition | src/menu.rs:103-108 | includes `p` and everything included before; unchanged if `p` was included; the smallest such box |
| Menus.IndexElement | src/menu.rs:334-349 | the element is listed at its new position; every other entry survives unless it listed the element or sat at that position |
| Menus.IndexElementKeepsInjective | src/menu.rs:334-349 | re-indexing keeps every element listed at most once |
| Menus.RemovingTheOnlyKey | src/menu.rs:338-349 | in an injective index, removing the key `find_map` finds and inserting the new one is IndexElement |
| Menus.FoldBoundsTight | src/menu.rs:362-371 | the child fold includes every element child and each edge lies on the start or on one of them |
| Menus.RebuiltBoundsTightest | src/menu.rs:356-383 | the rebuilt bounds are the tightest box around the element children, 0..0 with none |
| Menus.IndexStep | src/menu.rs:334-353 | one changed element alters only its own box, whose index becomes IndexElement of the old index, the element and its new position; never bounds; keeps indexes injective |
| Menus.IndexPassFrame | src/menu.rs:334-354 | the first pass keeps boxes and bounds, collects only boxes, changes only collected boxes |
| Menus.IndexPassCollects | src/menu.rs:334-354 | the box of every changed element is collected |
| Menus.IndexPassInjective | src/menu.rs:334-354 | the first pass keeps indexes injective |
| Menus.IndexPassCollectsOnlyBoxesOf | src/menu.rs:334-354 | a box no changed element belongs to is not collected |
| Menus.IndexPassKeepsOwnKey | src/menu.rs:334-354 | an element listed in a box only under its own position stays listed under no other key |
| Menus.IndexPassKeepsEntry | src/menu.rs:334-354 | an entry survives the pass, as it was or overwritten by a changed element of the box moving onto its position, when its own element, if changed, moves onto that position again |
| Menus.IndexPassEntries | src/menu.rs:334-354 | every entry after the pass is an old one or a changed element of the box under its new position |
| Menus.IndexPassPlaces | src/menu.rs:334-354 | each changed element is listed in its box under its new position and no other key, unless a later changed element of the box took that position |
| Menus.UpdateMenuGridIndexRebuilds | src/menu.rs:322-385 | the same boxes exist and each changed element's box has the rebuilt bounds of its children |
| Menus.UpdateMenuGridIndexUntouched | src/menu.rs:322-385 | a box no changed element belongs to is unchanged |
| Menus.UpdateMenuGridIndexKeepsInjective | src/menu.rs:322-385 | every index still lists each element at most once |
| Menus.UpdateMenuGridIndexPlaces | src/menu.rs:334-354 | after the call each changed element is listed in its box under its new position and under no other key; the entry there is that element unless a later changed element of the same box has the same position |
| Menus.UpdateMenuGridIndexEntries | src/menu.rs:334-354 | after the call every entry is an old one or a changed element of the box under its new position, and an entry of an unchanged element is still there unless a changed element of the box took its position |
| Menus.MovementOf | src/menu.rs:415-421 | a cardinal step for every control except Interact, which has none |
| Menus.Walk | src/menu.rs:430-434 | the stepping loop ends out of bounds or on an element |
| Menus.WalkScans | src/menu.rs:425-434 | the loop moves forward along the line and every position it passes is in bounds and empty |
| Menus.CursorTargetIsFirstElement | src/menu.rs:425-442 | a cursor moves to the first element ahead, every position strictly between being in bounds and empty; or it stays, and the walk left the bounds with no element on the way |
| Menus.MovedCursor | src/menu.rs:436-442 | the cursor keeps its box; with no target it is unchanged; with a target it moves onto it, which is never the tile it stood on |
| Menus.MoveCursors | src/menu.rs:423-444 | exactly the same cursor entities; each becomes its moved cursor; the cooldown restarts exactly when some cursor changed position, and is untouched otherwise |
| Menus.MenuMoves | src/menu.rs:409-445 | the same cursor entities; the cooldown restarts exactly when some newly pressed movement moves some cursor, and is untouched otherwise |
| Menus.MenuMovesIgnoresOthers | src/menu.rs:409-412 | events that are not newly pressed movements change nothing |
| Menus.MenuCooldownResetOnMove | src/menu.rs:436-442 | the cooldown restarts only on an actual move: when no event moves a cursor, cursors and cooldown are untouched; when a cursor ends up elsewhere, some event moved one and the cooldown restarted |
| Menus.MenuInteractMeaning | src/menu.rs:459-479 | a trigger from a cursor to an element is sent exactly when Interact was newly pressed, the state did not just change and the element under that cursor carries TriggerOnMenuInteract |
| Menus.CursorTriggersMeaning | src/menu.rs:465-476 | the cursor loop sends a trigger exactly for the tagged element under each cursor |
| Menus.MenuWorld.constructor | src/menu.rs:390-397 | the cooldown resource starts as a fresh 100 ms one-shot timer |
| Menus.MenuWorld.UpdateMenuGridIndex | src/menu.rs:322-385 | the two passes compute UpdateMenuGridIndexOutcome, touch nothing else, and keep indexes injective |
| Menus.MenuWorld.IndexOne | src/menu.rs:336-352 | the first loop's body computes IndexStep |
| Menus.MenuWorld.RebuildAll | src/menu.rs:356-384 | the second pass sets each collected box's bounds and nothing else |
| Menus.MenuWorld.ChildBounds | src/menu.rs:359-382 | the child loop computes RebuiltBounds |
| Menus.MenuWorld.MenuMoveControl | src/menu.rs:400-446 | ticks the cooldown, then moves cursors as MenuMoves says; boxes unchanged |
| Menus.MenuWorld.StepCursors | src/menu.rs:423-444 | the cursor loop for one movement computes MoveCursors |
| Menus.MenuWorld.WalkCursor | src/menu.rs:424-442 | the stepping loop for one cursor computes CursorTarget |
| Menus.MenuWorld.MenuInteractControl | src/menu.rs:451-480 | changes nothing, sends MenuInteractOutcome over an enumeration of the cursors, and leaves unread the events after the first newly pressed Interact |
| Dialogs.JoinSpansAppend | src/dialog.rs:153-156 | the text of concatenated span lists is the concatenated text |
| Dialogs.JoinSpansOfOne | src/dialog.rs:153-156 | one span's text is the whole page text |
| Dialogs.ChangePageOutcome | src/dialog.rs:150-161 | the text is either untouched or has nothing revealed |
| Dialogs.ChangePageLastWins | src/dialog.rs:144-162 | the last page event sets the page index and, with a dialog loaded, the text to that page's joined spans with nothing revealed; without a dialog the text is untouched |
| Dialogs.EnterDialogEvents | src/dialog.rs:141 | exactly one event, for page 0 |
| Dialogs.EnterDialogShowsFirstPage | src/dialog.rs:141-161 | entering a non-empty dialog shows page 0 from the start |
| Dialogs.DisplayedText | src/dialog.rs:207 | the shown text is the revealed prefix; the slice panics exactly when the index is past the end or inside a character |
| Dialogs.RevealByteStep | src/dialog.rs:179-186 | as written: with text left, the reveal timer takes one repeating tick and the index advances, by exactly one byte, exactly when that tick finishes; with all text revealed nothing changes; the index stays within the text |
| Dialogs.ByteRevealSplitsCharacter | src/dialog.rs:179-207 | on the text "é" one finished tick leaves the index inside the character, where the slice panics |
| Dialogs.NextBoundary | src/dialog.rs:183-184 | the next character boundary after `i`, with no boundary in between |
| Dialogs.RevealCharStep | src/dialog.rs:179-186 | as intended: keeps the text; with text left, the reveal timer takes one repeating tick and the index advances exactly when it finishes, to the next character boundary; with all text revealed nothing changes |
| Dialogs.RevealCharStepSound | src/dialog.rs:179-186 | the intended step keeps the reveal index within the text and on a boundary, reveals at most one character, reveals something on every tick that reaches the interval while text remains, nothing on a shorter tick, and agrees with the byte step where the next byte starts a character |
| Dialogs.DialogControlTransitions | src/dialog.rs:229-256 | no acted-on Interact: nothing; otherwise partial text is revealed at once, with no event and no state change; or the next page's event is sent exactly when one exists; or Playing is asked for on the last page or without a dialog |
| Dialogs.InteractTurnsThePage | src/dialog.rs:248-249 | Interact on a fully revealed page that is not the last, followed by `change_page`, shows the next page from its start |
| Dialogs.DialogWorld.constructor | src/dialog.rs:46-71 | page 0, empty text, a fresh 50 ms reveal timer |
| Dialogs.DialogWorld.EnterDialog | src/dialog.rs:134-142 | sends EnterDialogEvents |
| Dialogs.DialogWorld.ChangePage | src/dialog.rs:144-162 | the event loop computes ChangePageOutcome and keeps the reveal invariant |
| Dialogs.DialogWorld.UpdateCurrentPageText | src/dialog.rs:174-187 | computes the intended step RevealCharStep and keeps the reveal invariant |
| Dialogs.DialogWorld.StreamText | src/dialog.rs:207 | the displayed prefix never panics under the invariant |
| Dialogs.DialogWorld.DialogControl | src/dialog.rs:220-259 | computes DialogControlOutcome, keeps the reveal invariant, and leaves unread the events after the first newly pressed Interact |
| StateStacks.Pushed | src/state_stack.rs:25-28 | push puts `x` on top and changes nothing below |
| StateStacks.Popped | src/state_stack.rs:20-23 | back drops the top and changes nothing below |
| StateStacks.PushThenBack | src/state_stack.rs:20-28 | on a non-empty stack, push then back restores the stack and reports its old top |
| StateStacks.PushesThenBacks | src/state_stack.rs:20-28 | any number of pushes undone by as many backs restores the stack |
| StateStacks.StateStack.constructor | src/state_stack.rs:14-17 | the stack starts empty |
| StateStacks.StateStack.Push | src/state_stack.rs:25-28 | the input becomes the new top and is returned |
| StateStacks.StateStack.Back | src/state_stack.rs:20-23 | the top is dropped and the new top is returned; needs two states, as the `unwrap` does |
| Controls.ControlPredicates | src/control.rs:57-71 | an event is exactly one of pressed and just pressed; only Interact is not a movement |
| Controls.DefaultInputMap | src/control.rs:81-92 | exactly the ten listed keys are mapped |
| Controls.DefaultInputMapSize | src/control.rs:81-92 | the table has ten entries |
| Controls.DefaultInputMapTable | src/control.rs:81-92 | W/ArrowUp to Up, S/ArrowDown to Down, A/ArrowLeft to Left, D/ArrowRight to Right, Space/Enter to Interact |
| Controls.ControlEvents | src/control.rs:100-110 | at most one event per key |
| Controls.ControlEventsMeaning | src/control.rs:100-121 | every event carries the loop's status, and there is one for a control exactly when a visited key maps to it |
| Controls.ControlEventsOfOneKey | src/control.rs:101-109 | a mapped key sends exactly its event, an unmapped one none |
| Controls.ControlEventsAppend | src/control.rs:100-110 | events follow key order: the events of a concatenation are the concatenated events |
| Controls.HeldBeforeNew | src/control.rs:100-121 | all Pressed events come before all JustPressed events |
| Controls.FirstJustPressedInteract | src/dialog.rs:229-231 | None exactly when no event is a newly pressed Interact; otherwise the position of the first one, with none before it |
| Controls.UnreadAfterInteract | src/menu.rs:459-462 | nothing is left unread without a newly pressed Interact; otherwise a proper suffix of the events is left |
| Controls.ControlWorld.InitInputMap | src/control.rs:78-93 | the resource becomes the default table |
| Controls.ControlWorld.MapInputsToControlEvents | src/control.rs:95-122 | the held-key events followed by the new-key events, Pressed before JustPressed |
| Controls.ControlWorld.SendEvents | src/control.rs:100-110 | one key loop computes ControlEvents |
| PlayerActions.MovementForMeaning | src/actions/mod.rs:38-48 | None exactly when no direction is held; otherwise a cardinal step, never ZERO; Up with Down (and no horizontal key) goes south, Left with Right east |
| PlayerActions.Actions.SetMovementActions | src/actions/mod.rs:32-49 | the successive overwrites compute MovementFor: Right over Left over Down over Up |
| Players.NewMovementCooldown | src/player.rs:57-63 | a 300 ms one-shot timer, not finished |
| Players.SpawnedPlayerStart | src/player.rs:37-52 | a spawned player stands at ZERO facing SOUTH; the cooldown and every other entity are unchanged |
| Players.MovePlayerEffect | src/player.rs:78-95 | no action or a running cooldown: nothing changes; a taken move shifts every player by the movement, turns it that way, leaves every other entity alone and resets the cooldown even with no players |
| Players.OneStepPerCooldown | src/player.rs:86-91 | with a positive duration a second call before a tick changes nothing |
| Players.MoveAllPlayers | src/player.rs:87-90 | the player loop computes the moved positions and turned directions |
| Players.PlayerWorld.constructor | src/player.rs:65-69 | the cooldown resource starts as NewMovementCooldown |
| Players.PlayerWorld.SpawnPlayer | src/player.rs:37-52 | adds the player as SpawnOutcome says |
| Players.PlayerWorld.TickMovementCooldown | src/player.rs:71-76 | ticks the cooldown and nothing else |
| Players.PlayerWorld.MovePlayer | src/player.rs:78-95 | computes MovePlayerOutcome |
| NodeBounds.UpdateExtent | src/display/node_bounds.rs:17-22 | the point is inside afterwards; minimums never grow and maximums never shrink |
| NodeBounds.UpdateIdempotent | src/display/node_bounds.rs:17-22 | repeating an update changes nothing |
| NodeBounds.UpdateAllBounds | src/display/node_bounds.rs:44-53 | after the updates every point is inside, the edges only widen, and each edge is the start or a coordinate of some update |
| NodeBounds.UpdateAllOrderIndependent | src/display/node_bounds.rs:44-53 | two update sequences over the same set of points, in any order and with any repeats, give the same bounds |
| NodeBounds.DefaultKeepsOrigin | src/display/node_bounds.rs:8-22 | from the all-zero default, the origin stays inside |
| NodeBounds.BoundsTracker.constructor | src/display/node_bounds.rs:8-14 | the tracker starts at all zeros |
| NodeBounds.BoundsTracker.Update | src/display/node_bounds.rs:17-22 | widens the four fields as UpdateExtent says |
| NodeBounds.BoundsTracker.UpdateBounds | src/display/node_bounds.rs:44-53 | one update per changed node, in query order |
| MobDisplay.NewAnimationIndex | src/mob.rs:60-66 | frame 0 with the given frame count and flag |
| MobDisplay.NextFrame | src/display/mob.rs:70-73 | on a finished tick the frame advances, wrapping to 0 after the last; otherwise it stays |
| MobDisplay.AtlasIndexInRow | src/display/mob.rs:66-82 | the atlas index lies in the direction's row; it is the animation frame while moving, or always if the mob is not move-only, and the idle frame `base + 1` otherwise |
| MobDisplay.RowsDisjoint | src/display/mob.rs:66-68 | the rows of different directions do not overlap |
| MobDisplay.AnimateOneKeepsFrameInRange | src/display/mob.rs:66-83 | the frame stays in range, changes exactly when the timer wraps and there is more than one frame, and no atlas index appears on a sprite without an atlas |
| MobDisplay.MobAnimationWorld.UpdateMobAnimation | src/display/mob.rs:48-85 | every queried mob is updated as AnimateOne says; nothing else changes |
| MobDisplay.MobAnimationWorld.AnimateEntity | src/display/mob.rs:58-84 | one mob's loop body computes AnimateOne |

## Left out

- Floating-point code is not modelled:
  - the conversion from an engine `Transform` to a tile;
  - the interpolated drawing position of mobs;
  - the centring of menu text;
  - the bounds tracker's centre point.
- Asset loading, dialog deserialisation and locale lookup are I/O. The dialog
  model keeps only the shape of the dialog, page and span records.
- Setup and visibility systems are rendering only:
  - creating the menu, the dialog box and the player sprite;
  - showing and hiding the menu and the dialog;
  - placing the cursor sprite.
- `trigger_exit` and `trigger_game_start` only forward to engine events, the
  next-state resource and map assets.
- `src/graph/xander.rs` draws random choices and calls a neighbour function
  that is commented out. It is not part of this model.
- The engine scheduler, system ordering and change detection are explicit
  parameters, for instance the `state.is_changed()` flag, the set of changed
  menu elements, the frame delta.
- HashMap iteration order is not fixed by the source:
  - the cursor loop and the player loop visit entities in an arbitrary order;
  - the sight and menu-interact loops take the order as a parameter, required
    to list each entity of the query once (Mobs.SightOrder, Menus.CursorOrder);
  - the mob-interact loop follows the order of its events.
- `GridIndex` is the abstract bucket map described above. The map
  transitions, fades and spawn resolution that surround it are not modelled.
- `GridBounds::add_position` mutates the bounds in place; here it returns the
  new bounds as a value.
- `Span.pausebefore` is carried but unused, as in the source.
- Mobs.MobWorld.TickAll: the cooldown loop runs on a copy of the cooldown map
  (Mobs.TickAllCooldowns) that is written back once, rather than ticking each
  component in place. The move loop of Mobs.MobWorld.MoveMob updates the fields
  in place, one event at a time.
- Timers.RepeatingTick: requires a positive duration. A zero-duration repeating
  engine timer is not modelled; every repeating timer of the game lasts 50 or
  100 ms.
- Controls.ControlEvents: its own contract states only a length bound. What the
  events are is stated by Controls.ControlEventsMeaning and
  Controls.ControlEventsAppend.
- Mobs.SightOutcome: its own contract states only what it leaves unchanged.
  What it does is stated by Mobs.SightCooldownOfReached (the sight rule for
  every entity the loop reaches), Mobs.SightUntouchedBeyondReach (the `break`),
  Mobs.SightOutcomeFrame and Mobs.SightEventsDistinct.
- Menus.MenuWorld.UpdateMenuGridIndex: requires every index to list each
  element at most once. Under that condition, removing the first matching key
  is removing every entry of the element (Menus.RemovingTheOnlyKey).
- Players.PlayerWorld.SpawnPlayer: requires the new entity to be unused, as a
  freshly spawned engine entity is.
- Mobs.MobWorld.MoveMob, Menus.MenuWorld.MenuMoveControl,
  Players.PlayerWorld.MovePlayer and the other coordinate-moving members:
  require that no `i16` addition overflows, where the source would panic.
- Mobs.SightStep, Mobs.MobWorld.TriggerOnSeePlayer, Mobs.MobWorld.SightOne and
  Mobs.MobWorld.ScanForPlayer: require Mobs.ScanFits for every entity whose
  ticked cooldown has finished. That is, every tile the scan computes fits
  `i16`, up to the first tile that is not clear. Those are the tiles on which
  the source would panic; tiles beyond a blocker or a player are not required
  to fit (Mobs.ScanRayBlocked, Mobs.ScanRaySeesIf).
- Mobs.MoveOntoEvents and Mobs.TriggerEvents: their own contracts state which
  events are sent. Their order is stated by Mobs.MoveOntoEventsAppend with
  Mobs.MoveOntoEventsOfOne, and by Mobs.TriggerEventsAppend with
  Mobs.TriggerEventsOfOne.
- Mobs.ScanTile: its own contract states what each verdict implies. Which
  occupant decides the verdict is stated by Mobs.ScanTileFirstDecides.
- Timers.Finished: means `elapsed >= duration`, so a zero-duration timer counts
  as finished before any tick, is never just finished and is finished again
  right after Timers.Reset. The engine's flag is set only by a tick. No timer of
  the game has duration 0.
- Dialogs.DialogWorld.ChangePage: requires every page event to name an
  existing page (Dialogs.PageEventsFit). The out-of-range index
  `dialog[**event]` at src/dialog.rs:153 panics, and that panic is not modelled.
- Dialogs.DialogWorld.DialogControl: requires a loaded dialog to have a page
  whenever Interact reaches the page check (Dialogs.DialogControlOk). The
  `total_pages - 1` underflow of an empty dialog at src/dialog.rs:248 panics,
  and that panic is not modelled.
- MobDisplay.NextFrame and MobDisplay.MobAnimationWorld.UpdateMobAnimation:
  require a non-zero frame count and a frame that can be incremented within
  `u16` on a finished tick (MobDisplay.NextFrameOk). The remainder by zero and
  the `u16` overflow at src/display/mob.rs:72 panic, and those panics are not
  modelled.
- Dialogs.DialogWorld.DialogControl and Menus.MenuWorld.MenuInteractControl:
  a reader stops at the first newly pressed Interact, and these members return
  the events after it as `unread`. A second Interact in the same frame is
  acted on by the next run of the system, which the model leaves to its caller.
- The dialog's reveal step is modelled as intended, one character per tick
  (see Findings). The byte-wise step as written is Dialogs.RevealByteStep.

## Findings

| source | as written | input that shows it | evidently intended | confidence | as-written member | corrected member |
|---|---|---|---|---|---|---|
| src/dialog.rs:179-186 | each finished tick of the reveal timer adds 1 to a byte index, and `stream_text` slices the text at that index (src/dialog.rs:207) | page text "é" (bytes 0xC3 0xA9), reveal index 0, one tick of 50 ms: the index becomes 1, inside the character, and the slice panics | reveal one more character, advancing the index to the next character boundary | not executed | Dialogs.ByteRevealSplitsCharacter | Dialogs.RevealCharStepSound |
