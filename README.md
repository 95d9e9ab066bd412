# Dungeon world and AI bot, modelled in Dafny

This project models the game core of a small multiplayer roguelike server.

- **`server/game.ts`**:
  - the `DungeonLevel` class: map generation, the stairs, spawning, and the empty-cell searches;
  - the `GameWorld` class: levels, players, depths and message logs, plus joining, respawning, leaving, messages, broadcasts, moving, the field of view and the per-player snapshot.
- **`server/aiBot.ts`**: the `AIBot` class, a computer player. Once per tick it:
  - records its position;
  - notices when it is stuck or oscillating;
  - picks a target by a fixed priority;
  - steps toward the target or escapes a corner, always through `movePlayer`.

Modules, one per file:

- `Types` (types.dfy): grid size, positions, tiles, entities, player records and log tokens.
- `MessageLog` (message_log.dfy): the 50-entry logs and broadcasts.
- `Visibility` (visibility.dfy): the ray-cast field of view.
- `Combat` (combat.dfy): what one move does to the mover's record.
- `Dungeon` (dungeon.dfy): the class `DungeonLevel`.
- `World` (world.dfy): the class `GameWorld`.
- `Bot` (bot.dfy): the class `AIBot` and the functions that specify its tick.

How the model handles state and randomness:

- Objects whose fields the source updates are classes with `modifies` clauses.
- Player records, entities and grids are values that the methods write back.
- `Math.random()` becomes a choice the model leaves open (`:|`) or an explicit draw parameter. Every contract holds for every draw.

## Model

| member | source | states |
|---|---|---|
| Types.Filled | server/game.ts:304-307 | the result is a 40 x 80 grid whose every cell holds the given value (the blank explored grid) |
| Types.SetCell | server/game.ts:135 | after the assignment `g[y][x] = v` the grid keeps its shape, cell (x, y) holds `v` and every other cell is unchanged |
| Types.Where | server/game.ts:550-552 | the filter keeps exactly the elements that pass the test, is never longer than its input, and keeps distinct elements distinct |
| Types.Without | server/game.ts:382-383 | deleting an id from the insertion order leaves exactly the other ids, still without repeats |
| Types.Sign | server/aiBot.ts:146-147 | `Math.sign` gives -1, 0 or 1: 0 exactly for 0 and negative exactly for negative arguments |
| MessageLog.Recent | server/game.ts:390 | a log keeps min(length, 50) entries |
| MessageLog.RecentIsSuffix | server/game.ts:387-392 | the entries kept are the newest ones, in their order |
| MessageLog.PushKeepsNewest | server/game.ts:387-392 | after `addMessage` the message is the newest entry, and a log of at most 50 entries becomes the newest 50 of its entries plus the message |
| MessageLog.PushBounded | server/game.ts:387-392 | a log of at most 50 entries never grows past 50: below 50 it gains the message, and at 50 it also loses only its oldest entry |
| MessageLog.PushAllKeepsNewest | server/game.ts:387-392 | after any number of `addMessage` calls, a log of at most 50 entries holds exactly the newest (at most 50) of everything appended |
| MessageLog.AppendBounded | server/game.ts:387-392 | appending keeps every log within 50 entries; the target log (empty for an unknown id) becomes the newest entries of itself plus the message |
| MessageLog.BroadcastReaches | server/game.ts:394-400 | `broadcastToDepth` over distinct ids appends the message to the log of exactly those players on the depth other than the excluded one, leaves every other log alone, and keeps all logs within 50 entries |
| MessageLog.VisitReaches | server/game.ts:395-399 | one turn of the broadcast loop reaches the visited id exactly when it is on the depth and is not the excluded one |
| Visibility.ReachFromShape | server/game.ts:514-526 | from any sample on, a ray marks a prefix of its samples, all on the map and all walkable but possibly the last; it stops early only at a sample off the map or right after one that is not walkable |
| Visibility.ReachShape | server/game.ts:514-526 | the same stopping rule for a whole ray |
| Visibility.SeenByIff | server/game.ts:506-527 | a cell is seen by the first n rays exactly when one of them marks it |
| Visibility.RevealedMonotone | server/game.ts:497-528 | casting the view only ever sets cells; a cell goes from false to true exactly when some ray marks it |
| Visibility.ViewerSeesOwnCell | server/game.ts:511-520 | a viewer on the map always marks its own cell, since each ray starts there |
| Visibility.CastRay | server/game.ts:592-600 | after the loop of one ray, a cell is set exactly when it was set before or the ray marks it |
| Visibility.CastRays | server/game.ts:585-601 | after the loop over the 120 rays, a cell is set exactly when it was set before or lies in the view (the `Revealed` grid) |
| Combat.PlayerDamage | server/game.ts:431 | the mover's blow deals between 1 + depth/2 and 5 + depth/2 |
| Combat.EnemyDamage | server/game.ts:443 | an enemy's return blow deals between 1 + 3*depth/10 and 3 + 3*depth/10 |
| Combat.Fight | server/game.ts:430-454 | only hp, maxHp, dead and the combat stats change, and the mover stays put. The damage dealt is in range, and the enemy dies exactly when the damage reaches its hp. A kill gives +1 kill, +2 maxHp and hp healed by 2 up to the new max. A survivor keeps its wounds and hits back in range, and the mover dies exactly when that blow takes all its hp, recording the killer. The log lines come in the source's order. A healthy, living mover stays healthy |
| Combat.PickUp | server/game.ts:457-468 | the mover steps onto the cell and counts one more item and one more step. A health potion heals min(5, maxHp - hp); only a positive heal is logged. hp never passes maxHp, and a healthy mover stays healthy and does not lose hp |
| Combat.Step | server/game.ts:489-492 | the mover is on the target cell with one more step counted, and nothing else of its record changed |
| Combat.Descend | server/game.ts:474-483 | the mover is on the spawn cell with a blank explored grid, and its deepest depth is the larger of the old one and the new depth; nothing else changed |
| Dungeon.EntityIndex | server/game.ts:426 | `findIndex`: the first entity standing on the cell, or -1 exactly when no entity does |
| Dungeon.OpenCount | server/game.ts:250-261 | the count of open neighbours lies between 0 and the number of directions |
| Dungeon.GenerateRoomBasedMap | server/game.ts:105-167 | there are 1 to 13 rooms, each 5-12 wide and 4-9 high, inside the map and pairwise clear of the margin test. Floor lies exactly on the rooms and on the L-shaped corridors between consecutively placed rooms; every other cell is wall |
| Dungeon.CarveRoom | server/game.ts:131-137 | after the nested loops the accepted room is floor too, and nothing else changed |
| Dungeon.CarveCorridor | server/game.ts:141-165 | after the two corridor loops, the corridor from room k-1 to room k is floor too, and nothing else changed |
| Dungeon.DugIsInterior | server/game.ts:121-165 | every carved cell lies in columns 1..77 and rows 1..37 |
| Dungeon.BorderIsWall | server/game.ts:105-167 | every cell outside columns 1..77 and rows 1..37, the border among them, stays unwalkable wall |
| Dungeon.StairsTileUnique | server/game.ts:169-171 | exactly one tile is the stairs, and every other walkable tile was carved for a room or a corridor |
| Dungeon.ConsecutiveRoomsJoined | server/game.ts:141-166 | every cell on the L-shaped path between the centres of consecutively placed rooms, both ends included, is walkable |
| Dungeon.RandomEmptyPos | server/game.ts:214-226 | the result is an empty cell (walkable, not the stairs, no entity on it) or the fallback (1, 1) |
| Dungeon.PlaceStairs | server/game.ts:169-171 | the stairs tile goes on an empty cell (or (1, 1)) on the map, and the rest of the map is unchanged |
| Dungeon.DungeonLevel.constructor | server/game.ts:98-103 | the level is at the given depth. Its map is a generated layout with the stairs tile. Its entities are the stairs entity on the stairs cell, then 10 + 3*depth enemies of a default kind with depth-scaled full hp, then 12 + 2*depth default items. Each spawned entity is on a cell that was empty of the entities before it, or at (1, 1) |
| Dungeon.DungeonLevel.SpawnEntities | server/game.ts:182-212 | the old entities are kept, followed by the enemies and then the items, each counted, typed and placed as the constructor row says |
| Dungeon.DungeonLevel.SpawnEnemies | server/game.ts:186-199 | 10 + 3*depth enemies are appended, each a default kind with hp = maxHp = its scaled hp, on a cell that was empty of the entities before it (or (1, 1)) |
| Dungeon.DungeonLevel.SpawnItems | server/game.ts:201-211 | 12 + 2*depth default items are appended, each on a cell that was empty of the entities before it (or (1, 1)) |
| Dungeon.DungeonLevel.GetRandomEmptyPos | server/game.ts:214-226 | an empty cell of this level, or (1, 1) |
| Dungeon.DungeonLevel.SpawnPos | server/game.ts:302 | the spawn cell is an empty cell or (1, 1) (`SpawnCell`). With `useOpenSpawn` (a bot), it also has an open neighbour unless it is the central search's pick, as `GetOpenEmptyPos` promises |
| Dungeon.DungeonLevel.GetCentralEmptyPos | server/game.ts:228-248 | the empty cell that comes first in ring-by-ring, row-by-row order from the centre (`CentralPick`): no empty cell precedes it; only when no cell is empty is it the random search's fallback (1, 1) |
| Dungeon.DungeonLevel.CountOpenNeighbors | server/game.ts:250-261 | the number of walkable on-map cells among the eight neighbours, between 0 and 8 |
| Dungeon.DungeonLevel.GetOpenEmptyPos | server/game.ts:263-277 | an empty cell (or (1, 1)) that has an open neighbour, or else the central search's pick |
| World.PasserIndex | server/game.ts:418-420 | the position in insertion order of the first other player on the same depth standing on the target, or -1 exactly when there is none |
| World.PassedPlayer | server/game.ts:418-421 | `find` over the players in insertion order: none exactly when no other player on the mover's depth stands on the target; otherwise a known such player, with none before it in the order |
| World.GrowOk | server/game.ts:291-297 | generating another level keeps the world invariant |
| World.PutOk | server/game.ts:328-336 | writing a consistent player record and depth (a new id goes last in the order) keeps the world invariant |
| World.RemoveOk | server/game.ts:382-384 | dropping a player's record, depth, log and place in the order keeps the world invariant |
| World.Seen | server/game.ts:497-528 | casting the view changes only the player's explored grid |
| World.SeenOk | server/game.ts:497-528 | after the cast the player is still consistent and has explored every cell of its view |
| World.WalkIsMove | server/game.ts:488-494 | a step onto a cell with no entity, with nothing else changed, is the effect of the move |
| World.StrikeIsMove | server/game.ts:430-456 | one exchange of blows with the enemy on the target is the effect of the move |
| World.CollectIsMove | server/game.ts:457-468 | picking up the item on the target and stepping there is the effect of the move |
| World.StairsIsMove | server/game.ts:469-486 | going down the stairs on the target is the effect of the move |
| World.WentDownSteps | server/game.ts:469-486 | the notices, the level lookup and the arrival together make up the descent |
| World.Cells | server/game.ts:557-562 | each cell of the snapshot's map carries the tile's char and walkability, whether it is visible, and whether it is explored |
| World.OtherViews | server/game.ts:540-548 | one view per other player, in order, with its name, position and whether its cell is visible |
| World.GameWorld.constructor | server/game.ts:286-289 | a valid world with only level 1 generated and no players, depths or logs |
| World.GameWorld.GetOrCreateLevel | server/game.ts:291-297 | the level at the depth; an existing one is returned untouched, and a missing one is generated fresh and added, with the others kept |
| World.GameWorld.AddMessage | server/game.ts:387-392 | the player's log (empty if unknown) gains the message and keeps its newest 50 entries; no other log changes |
| World.GameWorld.BroadcastToDepth | server/game.ts:394-400 | the logs become the broadcast over the players in insertion order, which by `BroadcastReaches` reaches exactly the others on the depth |
| World.GameWorld.CastView | server/game.ts:503-527 | the player's explored grid gains exactly the cells of its view, and nothing else of it changes |
| World.GameWorld.UpdatePlayerFOV | server/game.ts:497-528 | for a known player, its explored grid gains its view on its level, and only its record changes; an unknown id changes nothing; levels only grow |
| World.GameWorld.ComputeVisible | server/game.ts:579-604 | the visible grid is true exactly on the cells the rays from the position mark |
| World.GameWorld.AddPlayer | server/game.ts:299-341 | the world stays valid. A new id goes last in the order. The new record is on level 1 at an empty cell (or (1, 1)), which for `useOpenSpawn` has an open neighbour unless it is the central pick, with 20/20 hp, fresh stats and only its view explored. Its log holds the three welcome lines, and the others on level 1 are told it entered |
| World.GameWorld.Newcomer | server/game.ts:300-326 | the newcomer's record: 20/20 hp, fresh stats, alive, with its view cast, on a `SpawnCell` of level 1: empty or (1, 1), and for `useOpenSpawn` with an open neighbour unless it is the central pick |
| World.GameWorld.Enrol | server/game.ts:299-336 | the newcomer's record (as `Newcomer` states, spawn cell included), the depth 1, the place in the order and the three-line log are filed under the id; nothing else changes and the world stays valid |
| World.GameWorld.RespawnPlayer | server/game.ts:343-373 | a known player is alive again at full hp with fresh stats. It is on level 1 at an empty cell (or (1, 1)), with only its new view explored, and its log is the two awakening lines. An unknown id changes nothing. The world stays valid |
| World.GameWorld.RemovePlayer | server/game.ts:375-385 | the others on a known player's level are told it left; its record, depth, log and place in the order are then gone; the world stays valid |
| World.GameWorld.Farewell | server/game.ts:376-381 | a known player's departure is broadcast to its depth; nothing happens for an unknown id |
| World.GameWorld.NotePassing | server/game.ts:418-424 | when the move passes another player, the mover and that player each get their line; otherwise the logs are unchanged |
| World.GameWorld.Strike | server/game.ts:430-456 | the world stays valid and its change is `Struck`: the `Fight` outcome applied to the mover, the enemy list and the mover's log |
| World.GameWorld.Collect | server/game.ts:457-468 | the world stays valid and its change is `Collected`: the `PickUp` outcome applied, and the item leaves the list |
| World.GameWorld.Walk | server/game.ts:488-494 | the world stays valid and the mover has taken one step and cast its view, with nobody else changed |
| World.GameWorld.TakeStairs | server/game.ts:469-486 | the world stays valid and the change is `WentDown`: the mover, then those left behind, then those on the new level are told. The new level is made if missing, and the mover lands on an empty cell of it (or (1, 1)) with only that view explored |
| World.GameWorld.Relocate | server/game.ts:470-485 | the notices on leaving, followed by the landing on the next level |
| World.GameWorld.LeaveLevel | server/game.ts:471-472 | the mover's descent line is appended, and then the others on the old depth are told |
| World.GameWorld.Arrive | server/game.ts:474-485 | only the mover's record and depth change; it lands as `ArrivedAt` says and the others on the new depth are told |
| World.GameWorld.MovePlayer | server/game.ts:402-495 | the result is false and nothing changes for an unknown id, a target off the map or not walkable, or a dead mover. Otherwise the result is true, exactly when `MayMove` holds, and the change is `Moved`: the pass-by notices, then the walk, fight, pick-up or descent that the target's first entity calls for. The world stays valid, the set of players is kept and levels only grow |
| World.GameWorld.GetStateForPlayer | server/game.ts:530-577 | none exactly for an unknown id. Otherwise the snapshot shows the map with the current view and the explored cells, the mover's own fields, the visible entities in order, the other players on the depth in insertion order with their visibility, the log, the depth and the online count |
| Bot.Pick | server/aiBot.ts:25 | `Math.floor(draw * n)` is an index below n |
| Bot.Remember | server/aiBot.ts:57-58 | the position becomes the newest entry; the history is the newest min(length + 1, 12) positions |
| Bot.FreshWalkNotOscillating | server/aiBot.ts:138-143 | a bot whose last 8 positions are all different is not oscillating |
| Bot.OscillationRevisits | server/aiBot.ts:138-143 | an oscillating bot has been on one cell at least three times among its last 8 positions |
| Bot.FirstTaken | server/aiBot.ts:165-175 | the index of the first candidate a pass accepts, with none before it accepted, or -1 exactly when the pass accepts none |
| Bot.TowardStepChoice | server/aiBot.ts:145-187 | there is no step at the target itself. A step is issued exactly when some candidate is open, and it is an open candidate among the eight directions. It returns onto one of the last four cells only when every open candidate does |
| Bot.BestIsMostOpen | server/aiBot.ts:195-221 | the escape loop keeps an open direction at least as open as every open direction, the first such in direction order, or none when nothing beats -1 |
| Bot.OpenDirs | server/aiBot.ts:226-230 | the fallback filter keeps exactly the open directions |
| Bot.EscapeStepChoice | server/aiBot.ts:189-236 | an escape step is issued exactly when some neighbour is open, and always onto an open one. When an openness beats -1, the step is the most open direction |
| Bot.FirstWanted | server/aiBot.ts:87-108 | `find`: the first entity passing the goal's test (visible, of the right kind, near enough), or none exactly when no entity passes |
| Bot.Aim | server/aiBot.ts:86-119 | a weak bot takes the first visible potion; otherwise it keeps its target. A bot without a target takes the first nearby enemy when hearty, else the first nearby item, else the visible stairs on the 30% draw, else no target, which means it explores |
| Bot.TickedBounds | server/aiBot.ts:50-136 | after a tick the history holds at most 12 positions, the stuck counter is 0..2 and the last position is the one recorded. Any step goes onto an open neighbour. A target is kept only when the bot stepped toward it and has not reached it |
| Bot.PursuitSteps | server/aiBot.ts:121-127 | a pursuing bot not yet at its goal steps toward it whenever one of `moveToward`'s candidates is open |
| Bot.AIBot.constructor | server/aiBot.ts:21-28 | the bot gets the AI name picked by the draw, empty memory and last position (-1, -1). The world changes exactly as `addPlayer(id, name, true)` changes it: a new id goes last in the order, and the record is a fresh 20/20 player on level 1 with its view cast. Its cell has an open neighbour unless it is the central pick. The three welcome lines are its log, and the others on level 1 are told it entered; no other player or depth changes |
| Bot.AIBot.Scan | server/aiBot.ts:165-184 | one pass of `moveToward` returns the first candidate it accepts, or none |
| Bot.AIBot.ChooseToward | server/aiBot.ts:145-187 | the step of `moveToward` is `TowardStep`, whose properties `TowardStepChoice` proves |
| Bot.AIBot.CountOpenAround | server/aiBot.ts:206-213 | the inner loop counts the open neighbours of the cell |
| Bot.AIBot.RateEscape | server/aiBot.ts:199-215 | the direction is open exactly when its cell is on the map and walkable, and then the rating is that cell's openness less 3 if it is recent |
| Bot.AIBot.ChooseEscape | server/aiBot.ts:189-236 | the step of `escapeCorner` is `EscapeStep`, whose properties `EscapeStepChoice` and `BestIsMostOpen` prove |
| Bot.AIBot.FindUnexploredTarget | server/aiBot.ts:238-259 | the target is the nearest unexplored walkable odd cell more than 2 away, the first in scan order on a tie, or the central empty cell when there is none |
| Bot.AIBot.ScanRow | server/aiBot.ts:243-251 | after one row of the scan, the kept cell is the nearest accepted cell of every row scanned so far, the first in scan order on a tie, and its distance is the kept distance |
| Bot.AIBot.Issue | server/aiBot.ts:171 | the bot's own fields are untouched. The world moves exactly as `movePlayer` does, with `moved` true exactly when its guard lets the step through; without a step, or with a refused one, nothing changes |
| Bot.AIBot.Finish | server/aiBot.ts:121-130 | the move is issued as `Issue` states, and then the target is dropped when the bot stands on it after the move; the history and the stuck counter are untouched |
| Bot.AIBot.Record | server/aiBot.ts:57-65 | the history gains the position, keeping the newest 12. The stuck counter counts another tick on the same cell or restarts at 0, and the last position is updated |
| Bot.AIBot.Pursue | server/aiBot.ts:84-127 | the goal is the one the priority rules give, or else the exploration target. The bot keeps the goal as its target and steps toward it, or drops the target and escapes when no step leads there |
| Bot.AIBot.Decide | server/aiBot.ts:67-127 | stuck for a third tick, the bot drops its target, resets the counter and escapes. Oscillating, it drops its target, escapes and clears its history. Otherwise it pursues, as `Plan` states |
| Bot.AIBot.Think | server/aiBot.ts:55-127 | the position is recorded and the step planned; the history stays within 12 and the counter within 0..2 |
| Bot.AIBot.Tick | server/aiBot.ts:50-136 | a bot whose player is gone does nothing. Otherwise the memory and the step are as `Ticked` states (record, plan toward an allowed goal, drop a reached target). The world changes only through the step's `movePlayer`, exactly when its guard holds. The bot's invariant is kept |

## Left out

- Combat.EnemyDamage: `Math.floor(depth * 0.3)` is written as `3 * depth / 10` in integer arithmetic. The double product floors to the same integer at every depth up to 1000, so nothing is lost in the range the game reaches.
- Dungeon.ScaledHp: `Math.floor(def.hp * (1 + (depth - 1) * 0.3))` is taken as the exact `hp * (10 + 3 * (depth - 1)) / 10`. Double rounding is not modelled, and it makes the source's hp one less wherever the double product falls just below an integer. Among the default enemies this affects only the Dragon (30 hp), at depths 10, 19, 24, 25, 32, 37, ..., and the Skeleton (10 hp), at depths 19, 32, 37, 52, .... There `SpawnedEnemy` gives an hp one above the source's, e.g. 111 instead of 110 for a Dragon at depth 10.
- Bot.Low and Bot.Hearty: `hp < maxHp * 0.3` and `hp > maxHp * 0.3` are written as `hp * 10 < maxHp * 3` and `hp * 10 > maxHp * 3`. For integer hp and maxHp up to 2000 the double comparisons give the same answers; larger values are not covered.
- Visibility: the ray geometry is not modelled. The `Math.cos`, `Math.sin` and `Math.round` samples of `updatePlayerFOV` and `computeVisible` are given by the world's `sight` function: 120 rays of 8 cells for each viewer cell, each ray starting on that cell. Only the marking and stopping rules are modelled, so nothing is stated about which cells the real rays reach.
- `Math.random()` is not modelled as a generator:
  - In `DungeonLevel` every draw is a choice the model leaves open over the range the expression can take.
  - In `movePlayer` the two damage draws are the parameters `hitRoll` (0..4) and `backRoll` (0..2).
  - In `AIBot` the draws of a tick are the fields of `Draws`, and the name draw is a constructor parameter.
  - Contracts hold for every draw; nothing about the distribution is stated.
- Message texts are replaced by `Msg` tokens carrying the values the source formats into them (names, damage, depth). The wording of the strings is not modelled.
- Entity ids (`stairs_<d>`, `e_<d>_<i>`, `i_<d>_<i>`), display chars and colours are dropped. Tiles keep their char. The snapshot's fixed `'@'` and colour of other players are dropped too.
- The bot's id is a constructor parameter. The source builds it from `Date.now()` and a random number.
- The server log calls (`log(...)`), the bot's timer (the `tickSpeed` parameter, `start`, `setSpeed`, `setInterval`, `clearInterval`) and the `onChange` callback are not modelled: they are I/O and scheduling. The `stop` method's only world effect is `removePlayer`, which is modelled as `World.GameWorld.RemovePlayer`.
- The route handlers that call the world are not part of this model, so the clamping they apply to `dx`/`dy` and to player names is not stated as a precondition. `MovePlayer` accepts any integers, as `movePlayer` itself does.
- The numbers of the source are doubles. The model uses unbounded integers, because no count or coordinate of the game comes near 2^53.
- Aliasing of player records is not modelled. The source mutates the record object that `players.get(id)` returns, and the bot's `tick` reads `player.pos` again after the move. The model keeps records as values, writes them back into `players`, and reads `players[id]` after the move.
- JavaScript `Map` iteration order is kept as the `order` sequence of `GameWorld`. It is used for the broadcasts, for the pass-by search and for the snapshot's other players.
- World.GameWorld.MovePlayer: the branches cast the view with `CastView` on the mover's level rather than through `UpdatePlayerFOV`. The level already exists, so `updatePlayerFOV`'s lookup returns it.
- World.GameWorld.TakeStairs: the new level is generated before the descent notices rather than after them. Generating a level touches no log or player, so the resulting state is the same.
- World.GameWorld.GetStateForPlayer: the entity filter checks that the entity's cell is inside the grid, where the source indexes it directly. The world invariant does not carry that every entity of a level stands on the map.
- Dungeon.DungeonLevel: the map is a constant computed before the object exists, because the source writes it only while the level is built. The rooms and the stairs cell are ghost fields.
- Bot.TowardStep: the source also accepts a recent cell when `moves.indexOf([mx, my])` is the last index. `indexOf` compares a freshly built array by identity and never finds it, so that clause never holds and is left out.
- Bot.AIBot.Tick: the `else` branch of `if (this.target)` at server/aiBot.ts:131-133 is unreachable. Every path before it leaves a target set, because `findUnexploredTarget` always returns a position. The model has no such branch.
