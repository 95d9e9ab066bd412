/** The shared world of the dungeon server (server/game.ts:279-605): the levels
    generated so far, the connected players, the depth each is on, and each
    player's message log. JavaScript `Map` iteration follows insertion order;
    `order` keeps that order of the player ids. Player records are values in
    `players`: where the source mutates the record it looks up, the model
    writes the changed record back. */
module World {
  import opened Types
  import opened MessageLog
  import opened Visibility
  import opened Combat
  import opened Dungeon

  /** What the world keeps of every player `p` with id `id` on level `depth`. */
  predicate PlayerOk(p: PlayerState, id: PlayerId, depth: int) {
    && p.id == id
    && OnMap(p.pos)
    && IsGrid(p.explored)
    && Healthy(p)
    && p.maxHp >= START_HP
    && 1 <= depth <= p.stats.deepestDepth
  }

  /** The player's explored grid covers every cell of its current view. */
  ghost predicate Sees(p: PlayerState, tiles: seq<seq<Tile>>, sight: Sight) {
    && IsGrid(tiles) && IsGrid(p.explored)
    && forall y, x | 0 <= y < MAP_HEIGHT && 0 <= x < MAP_WIDTH ::
         InView(sight(p.pos), tiles, x, y) ==> p.explored[y][x]
  }

  /** The bookkeeping maps agree: the same players in `players`, in
      `playerDepths` and in `order` (without repeats), every one of them has a
      log, and no log is longer than 50 entries. */
  ghost predicate Registry(players: map<PlayerId, PlayerState>, depths: map<PlayerId, int>,
                     logs: map<PlayerId, seq<Msg>>, order: seq<PlayerId>) {
    && players.Keys == depths.Keys
    && (forall id :: id in players <==> id in order)
    && Distinct(order)
    && players.Keys <= logs.Keys
    && AllBounded(logs)
  }

  /** The pass-by test: `pid` is another player on the same depth standing on `t`. */
  predicate Passes(pid: PlayerId, id: PlayerId, depth: int, t: Position,
                   players: map<PlayerId, PlayerState>, depths: map<PlayerId, int>) {
    pid != id && pid in depths && depths[pid] == depth && pid in players && players[pid].pos == t
  }

  /** The index in `order` of the first player a move of `id` onto `t`
      passes by, or -1 when there is none. */
  function PasserIndex(players: map<PlayerId, PlayerState>, depths: map<PlayerId, int>,
                       order: seq<PlayerId>, id: PlayerId, depth: int, t: Position): (q: int)
    ensures -1 <= q < |order|
    ensures 0 <= q ==> Passes(order[q], id, depth, t, players, depths) &&
                       forall j | 0 <= j < q :: !Passes(order[j], id, depth, t, players, depths)
    ensures q == -1 <==> forall pid | pid in order :: !Passes(pid, id, depth, t, players, depths)
    decreases |order|
  {
    if |order| == 0 then -1
    else if Passes(order[0], id, depth, t, players, depths) then 0
    else
      var q := PasserIndex(players, depths, order[1..], id, depth, t);
      assert forall j | 1 <= j < |order| :: order[j] == order[1..][j - 1];
      assert forall pid :: pid in order <==> pid == order[0] || pid in order[1..];
      if q == -1 then -1 else q + 1
  }

  /** The first player, in insertion order, that a move of `id` onto `t` passes by. */
  function PassedPlayer(players: map<PlayerId, PlayerState>, depths: map<PlayerId, int>,
                        order: seq<PlayerId>, id: PlayerId, depth: int, t: Position): (r: Option<PlayerId>)
    ensures r.Some? ==> r.value in players && Passes(r.value, id, depth, t, players, depths)
    ensures r.Some? ==> exists q | 0 <= q < |order| :: order[q] == r.value &&
                          forall j | 0 <= j < q :: !Passes(order[j], id, depth, t, players, depths)
    ensures r.None? <==> forall pid | pid in order :: !Passes(pid, id, depth, t, players, depths)
  {
    var q := PasserIndex(players, depths, order, id, depth, t);
    if q < 0 then None else Some(order[q])
  }

  /** The logs after the pass-by notices: the mover learns whom it passes, and
      that player learns who passed. */
  function PassNotes(logs: map<PlayerId, seq<Msg>>, players: map<PlayerId, PlayerState>,
                     id: PlayerId, moverName: string, other: Option<PlayerId>): map<PlayerId, seq<Msg>>
    requires other.Some? ==> other.value in players
  {
    if other.None? then logs
    else Append(Append(logs, id, PassBy(players[other.value].name)), other.value, PassedBy(moverName))
  }

  /** `(e) => visible[e.pos.y][e.pos.x]` */
  function Visible(v: seq<seq<bool>>): Entity -> bool {
    (e: Entity) => 0 <= e.pos.y < |v| && 0 <= e.pos.x < |v[e.pos.y]| && v[e.pos.y][e.pos.x]
  }

  /** `([pid, _]) => pid !== id && playerDepths.get(pid) === depth` */
  function OnDepth(id: PlayerId, depth: int, depths: map<PlayerId, int>): PlayerId -> bool {
    (pid: PlayerId) => pid != id && pid in depths && depths[pid] == depth
  }

  predicate LevelsGrow(before: map<int, DungeonLevel>, after: map<int, DungeonLevel>) {
    forall d | d in before :: d in after && after[d] == before[d]
  }

  /** The world's invariant over values: every level map is a full grid, the
      bookkeeping maps agree, and every player stands on a generated level,
      is in a consistent state and has explored at least its current view. */
  ghost predicate WorldOk(levels: map<int, DungeonLevel>, players: map<PlayerId, PlayerState>,
                          depths: map<PlayerId, int>, logs: map<PlayerId, seq<Msg>>,
                          order: seq<PlayerId>, sight: Sight) {
    && WellFormedSight(sight)
    && Registry(players, depths, logs, order)
    && PlayersOk(levels, players, depths, order, sight)
  }

  /** Player `id` stands on a generated level, is in a consistent state and
      has explored at least its current view. */
  ghost predicate PlayerAt(levels: map<int, DungeonLevel>, players: map<PlayerId, PlayerState>,
                           depths: map<PlayerId, int>, id: PlayerId, sight: Sight) {
    && id in players && id in depths
    && depths[id] in levels
    && PlayerOk(players[id], id, depths[id])
    && Sees(players[id], levels[depths[id]].tiles, sight)
  }

  /** `PlayerAt` holds for each of `ids`, taken in order. */
  ghost predicate PlayersOk(levels: map<int, DungeonLevel>, players: map<PlayerId, PlayerState>,
                            depths: map<PlayerId, int>, ids: seq<PlayerId>, sight: Sight)
    decreases |ids|
  {
    ids == [] || (PlayerAt(levels, players, depths, ids[0], sight) && PlayersOk(levels, players, depths, ids[1..], sight))
  }

  /** `PlayersOk` is `PlayerAt` for every id in the sequence. */
  lemma {:induction false} PlayersOkIff(levels: map<int, DungeonLevel>, players: map<PlayerId, PlayerState>,
                                        depths: map<PlayerId, int>, ids: seq<PlayerId>, sight: Sight)
    ensures PlayersOk(levels, players, depths, ids, sight) <==>
            forall id | id in ids :: PlayerAt(levels, players, depths, id, sight)
    decreases |ids|
  {
    if ids != [] {
      PlayersOkIff(levels, players, depths, ids[1..], sight);
      assert forall id :: id in ids <==> id == ids[0] || id in ids[1..];
    }
  }

  /** Generating another level keeps the invariant. */
  lemma GrowOk(levels: map<int, DungeonLevel>, players: map<PlayerId, PlayerState>,
               depths: map<PlayerId, int>, logs: map<PlayerId, seq<Msg>>,
               order: seq<PlayerId>, sight: Sight, levels': map<int, DungeonLevel>)
    requires WorldOk(levels, players, depths, logs, order, sight)
    requires LevelsGrow(levels, levels')
    ensures WorldOk(levels', players, depths, logs, order, sight)
  {
    PlayersOkIff(levels, players, depths, order, sight);
    PlayersOkIff(levels', players, depths, order, sight);
  }

  /** Writing a player's record and depth (a new id goes to the end of the
      insertion order), with the player consistent and having seen its view,
      and any logs that keep every old one and none longer than 50, keeps the
      invariant. */
  lemma PutOk(levels: map<int, DungeonLevel>, players: map<PlayerId, PlayerState>,
              depths: map<PlayerId, int>, logs: map<PlayerId, seq<Msg>>,
              order: seq<PlayerId>, sight: Sight, id: PlayerId, p: PlayerState, d: int,
              logs': map<PlayerId, seq<Msg>>)
    requires WorldOk(levels, players, depths, logs, order, sight)
    requires d in levels && PlayerOk(p, id, d) && Sees(p, levels[d].tiles, sight)
    requires logs.Keys + {id} <= logs'.Keys && AllBounded(logs')
    ensures WorldOk(levels, players[id := p], depths[id := d], logs',
                    if id in order then order else order + [id], sight)
  {
    var order' := if id in order then order else order + [id];
    if id !in order {
      DistinctSnoc(order, id);
    }
    PlayersOkIff(levels, players, depths, order, sight);
    PlayersOkIff(levels, players[id := p], depths[id := d], order', sight);
  }

  /** Dropping a player's record, depth, log and place in the order keeps the invariant. */
  lemma RemoveOk(levels: map<int, DungeonLevel>, players: map<PlayerId, PlayerState>,
                 depths: map<PlayerId, int>, logs: map<PlayerId, seq<Msg>>,
                 order: seq<PlayerId>, sight: Sight, id: PlayerId)
    requires WorldOk(levels, players, depths, logs, order, sight)
    ensures WorldOk(levels, players - {id}, depths - {id}, logs - {id}, Without(order, id), sight)
  {
    var order' := Without(order, id);
    forall v
      ensures v in players - {id} <==> v in order'
    {
      assert v in order' <==> v in order && v != id;
    }
    PlayersOkIff(levels, players, depths, order, sight);
    PlayersOkIff(levels, players - {id}, depths - {id}, order', sight);
  }

  /** `p` with the rays from its cell on `tiles` cast into its explored grid. */
  ghost function Seen(p: PlayerState, tiles: seq<seq<Tile>>, sight: Sight): (q: PlayerState)
    requires IsGrid(p.explored) && IsGrid(tiles)
    ensures q.(explored := p.explored) == p
  {
    p.(explored := Revealed(p.explored, tiles, sight(p.pos)))
  }

  /** After the cast the player has explored its whole view and is still consistent. */
  lemma SeenOk(p: PlayerState, id: PlayerId, depth: int, tiles: seq<seq<Tile>>, sight: Sight)
    requires PlayerOk(p, id, depth) && IsGrid(tiles)
    ensures PlayerOk(Seen(p, tiles, sight), id, depth) && Sees(Seen(p, tiles, sight), tiles, sight)
  {
  }

  /** The world is valid again once one player's record `p`, with its view
      cast, and its depth have been written as `PutOk` allows. */
  lemma Rewritten(w: GameWorld, players0: map<PlayerId, PlayerState>, depths0: map<PlayerId, int>,
                  logs0: map<PlayerId, seq<Msg>>, order0: seq<PlayerId>, id: PlayerId, p: PlayerState, d: int)
    requires w.LevelsOk() && WorldOk(w.levels, players0, depths0, logs0, order0, w.sight)
    requires d in w.levels && PlayerOk(p, id, d)
    requires w.players == players0[id := Seen(p, w.levels[d].tiles, w.sight)] && w.playerDepths == depths0[id := d]
    requires w.order == if id in order0 then order0 else order0 + [id]
    requires logs0.Keys + {id} <= w.messageLog.Keys && AllBounded(w.messageLog)
    ensures w.Valid()
  {
    var tiles := w.levels[d].tiles;
    SeenOk(p, id, d, tiles, w.sight);
    PutOk(w.levels, players0, depths0, logs0, order0, w.sight, id, Seen(p, tiles, w.sight), d, w.messageLog);
  }

  /** The world is valid again once a player has been dropped as `RemoveOk` allows. */
  lemma Removed(w: GameWorld, levels0: map<int, DungeonLevel>, players0: map<PlayerId, PlayerState>,
                depths0: map<PlayerId, int>, logs0: map<PlayerId, seq<Msg>>, order0: seq<PlayerId>, id: PlayerId)
    requires WorldOk(levels0, players0, depths0, logs0, order0, w.sight)
    requires w.LevelsOk() && w.levels == levels0
    requires w.players == players0 - {id} && w.playerDepths == depths0 - {id}
    requires w.order == Without(order0, id) && w.messageLog == logs0 - {id}
    ensures w.Valid()
  {
    RemoveOk(levels0, players0, depths0, logs0, order0, w.sight, id);
  }

  /** The world is valid again after the pass-by notices of a move. */
  lemma PassNotesOk(w: GameWorld, logs0: map<PlayerId, seq<Msg>>, id: PlayerId, depth: int,
                    t: Position, moverName: string)
    requires w.LevelsOk() && WorldOk(w.levels, w.players, w.playerDepths, logs0, w.order, w.sight)
    requires w.messageLog == PassNotes(logs0, w.players, id, moverName,
                                       PassedPlayer(w.players, w.playerDepths, w.order, id, depth, t))
    ensures w.Valid()
  {
    var other := PassedPlayer(w.players, w.playerDepths, w.order, id, depth, t);
    if other.Some? {
      var m := PassBy(w.players[other.value].name);
      AppendBounded(logs0, id, m);
      AppendBounded(Append(logs0, id, m), other.value, PassedBy(moverName));
    }
  }

  /** `q` is `p` gone down to `depth`: at an empty cell of the level's map
      (or at (1, 1), where the random search gives up) with an unexplored map
      but for the view from there. */
  ghost predicate ArrivedAt(q: PlayerState, p: PlayerState, depth: int, tiles: seq<seq<Tile>>,
                            entities: seq<Entity>, sight: Sight) {
    && IsGrid(tiles)
    && q == Seen(Descend(p, depth, q.pos), tiles, sight)
    && (q.pos == Position(1, 1) || EmptyCell(tiles, entities, q.pos.x, q.pos.y))
  }
  /** `id` has landed on level `nd`, whose map and entities are `tiles` and
      `entities`: only its record and depth changed, it stands where
      `ArrivedAt` says, and the others on `nd` are told. */
  ghost predicate Landed(players0: map<PlayerId, PlayerState>, players1: map<PlayerId, PlayerState>,
                         depths0: map<PlayerId, int>, depths1: map<PlayerId, int>,
                         logs0: map<PlayerId, seq<Msg>>, logs1: map<PlayerId, seq<Msg>>,
                         order: seq<PlayerId>, id: PlayerId, nd: int,
                         tiles: seq<seq<Tile>>, entities: seq<Entity>, sight: Sight) {
    && id in players0 && id in players1
    && players1 == players0[id := players1[id]] && depths1 == depths0[id := nd]
    && ArrivedAt(players1[id], players0[id], nd, tiles, entities, sight)
    && logs1 == Broadcast(logs0, depths1, order, nd, Arrived(players0[id].name), id)
  }


  /** What the invariant says of one player of a valid world. */
  lemma Holds(w: GameWorld, id: PlayerId)
    requires w.Valid() && id in w.players
    ensures PlayerAt(w.levels, w.players, w.playerDepths, id, w.sight)
  {
    PlayersOkIff(w.levels, w.players, w.playerDepths, w.order, w.sight);
  }

  /** The guard of a move by (`dx`, `dy`): the target is on the map and
      walkable, and the mover is alive. */
  predicate MayMove(p: PlayerState, tiles: seq<seq<Tile>>, dx: int, dy: int)
    requires IsGrid(tiles)
  {
    var t := Target(p, dx, dy);
    InBounds(t.x, t.y) && tiles[t.y][t.x].walkable && !p.dead
  }

  /** The empty-cell branch of a move: `id` takes one step onto `t` and casts
      its view on `tiles`; nobody else changes. */
  ghost predicate Walked(players0: map<PlayerId, PlayerState>, players1: map<PlayerId, PlayerState>,
                         id: PlayerId, t: Position, tiles: seq<seq<Tile>>, sight: Sight) {
    && id in players0 && IsGrid(players0[id].explored) && IsGrid(tiles)
    && players1 == players0[id := Seen(Step(players0[id], t), tiles, sight)]
  }

  /** The enemy branch of a move: one exchange of blows between `id`, on
      level `depth`, and the enemy at index `k` of `ents0`, for the draws
      `hitRoll` and `backRoll`. A killed enemy leaves the list, a survivor
      keeps its wounds, the exchange is appended to the mover's log, and the
      mover, who stays put, casts its view again. */
  ghost predicate Struck(players0: map<PlayerId, PlayerState>, players1: map<PlayerId, PlayerState>,
                         ents0: seq<Entity>, ents1: seq<Entity>,
                         logs0: map<PlayerId, seq<Msg>>, logs1: map<PlayerId, seq<Msg>>,
                         id: PlayerId, depth: int, k: int, hitRoll: int, backRoll: int,
                         tiles: seq<seq<Tile>>, sight: Sight) {
    && id in players0 && id in logs0 && IsGrid(players0[id].explored) && IsGrid(tiles)
    && 0 <= k < |ents0| && ents0[k].Enemy? && 0 <= hitRoll < 5 && 0 <= backRoll < 3
    && (var x := Fight(players0[id], ents0[k], depth, hitRoll, backRoll);
        && players1 == players0[id := Seen(x.player, tiles, sight)]
        && ents1 == (if x.foe.None? then ents0[..k] + ents0[k + 1..] else ents0[k := x.foe.value])
        && logs1 == logs0[id := PushAll(logs0[id], x.log)])
  }

  /** `Struck` from the outcome `x` of the fight. */
  lemma StruckBy(players0: map<PlayerId, PlayerState>, players1: map<PlayerId, PlayerState>,
                 ents0: seq<Entity>, ents1: seq<Entity>,
                 logs0: map<PlayerId, seq<Msg>>, logs1: map<PlayerId, seq<Msg>>,
                 id: PlayerId, depth: int, k: int, hitRoll: int, backRoll: int,
                 tiles: seq<seq<Tile>>, sight: Sight, x: Exchange)
    requires id in players0 && id in logs0 && IsGrid(players0[id].explored) && IsGrid(tiles)
    requires 0 <= k < |ents0| && ents0[k].Enemy? && 0 <= hitRoll < 5 && 0 <= backRoll < 3
    requires x == Fight(players0[id], ents0[k], depth, hitRoll, backRoll)
    requires players1 == players0[id := Seen(x.player, tiles, sight)]
    requires ents1 == if x.foe.None? then ents0[..k] + ents0[k + 1..] else ents0[k := x.foe.value]
    requires logs1 == logs0[id := PushAll(logs0[id], x.log)]
    ensures Struck(players0, players1, ents0, ents1, logs0, logs1, id, depth, k, hitRoll, backRoll, tiles, sight)
  {
  }

  /** The item branch of a move: `id` steps onto `t` and picks up the item at
      index `k` of `ents0`, which leaves the list; what it gained is appended
      to its log, and it casts its view again. */
  ghost predicate Collected(players0: map<PlayerId, PlayerState>, players1: map<PlayerId, PlayerState>,
                            ents0: seq<Entity>, ents1: seq<Entity>,
                            logs0: map<PlayerId, seq<Msg>>, logs1: map<PlayerId, seq<Msg>>,
                            id: PlayerId, k: int, t: Position, tiles: seq<seq<Tile>>, sight: Sight) {
    && id in players0 && id in logs0 && IsGrid(players0[id].explored) && IsGrid(tiles)
    && 0 <= k < |ents0| && ents0[k].Item?
    && (var r := PickUp(players0[id], ents0[k], t);
        && players1 == players0[id := Seen(r.0, tiles, sight)]
        && ents1 == ents0[..k] + ents0[k + 1..]
        && logs1 == logs0[id := PushAll(logs0[id], r.1)])
  }

  /** The stairs branch of a move: `id` goes from its depth to the next one,
      which is added to the levels if new and otherwise left as it was; only
      the mover's record and depth change, and the logs receive, in this
      order, the mover's notice, the notice to those left behind and the
      notice to those on the new level. Where on the new level the mover
      lands is `ArrivedAt`'s concern. */
  ghost predicate WentDown(levels0: map<int, DungeonLevel>, levels1: map<int, DungeonLevel>,
                           depths0: map<PlayerId, int>, depths1: map<PlayerId, int>,
                           players0: map<PlayerId, PlayerState>, players1: map<PlayerId, PlayerState>,
                           logs0: map<PlayerId, seq<Msg>>, logs1: map<PlayerId, seq<Msg>>,
                           order: seq<PlayerId>, id: PlayerId) {
    && id in players0 && id in depths0 && id in players1
    && (var p, depth := players0[id], depths0[id];
        var nd := depth + 1;
        && nd in levels1 && levels1 == levels0[nd := levels1[nd]]
        && (nd in levels0 ==> levels1 == levels0)
        && depths1 == depths0[id := nd]
        && players1 == players0[id := players1[id]]
        && logs1 == Broadcast(Broadcast(Append(logs0, id, DescendTo(nd)), depths0, order, depth, Descended(p.name), id),
                              depths1, order, nd, Arrived(p.name), id))
  }

  /** The target cell of a move by (`dx`, `dy`) of `p`. */
  function Target(p: PlayerState, dx: int, dy: int): Position {
    Position(p.pos.x + dx, p.pos.y + dy)
  }

  /** What an allowed move of `id` by (`dx`, `dy`) does, from the levels,
      depths, players and logs before it to those after it; `ents0` and
      `ents1` are the entities of the mover's level before and after, and
      `arrivedEnts` those of the level below after the move. The mover first
      passes by the first other player on the target, then, by what lies on
      the target, walks, strikes, collects or goes down. */
  ghost predicate MoveEffect(levels0: map<int, DungeonLevel>, levels1: map<int, DungeonLevel>,
                             ents0: seq<Entity>, ents1: seq<Entity>, arrivedEnts: seq<Entity>,
                             depths0: map<PlayerId, int>, depths1: map<PlayerId, int>,
                             players0: map<PlayerId, PlayerState>, players1: map<PlayerId, PlayerState>,
                             logs0: map<PlayerId, seq<Msg>>, logs1: map<PlayerId, seq<Msg>>,
                             order: seq<PlayerId>, id: PlayerId, dx: int, dy: int,
                             hitRoll: int, backRoll: int, sight: Sight) {
    && id in players0 && id in depths0 && depths0[id] in levels0 && IsGrid(levels0[depths0[id]].tiles)
    && (var p, depth := players0[id], depths0[id];
        var tiles := levels0[depth].tiles;
        var t := Target(p, dx, dy);
        var k := EntityIndex(ents0, t);
        var logs := PassNotes(logs0, players0, id, p.name, PassedPlayer(players0, depths0, order, id, depth, t));
        // an empty cell: one step
        && (k < 0 ==>
              && Walked(players0, players1, id, t, tiles, sight)
              && ents1 == ents0 && logs1 == logs && depths1 == depths0 && levels1 == levels0)
        // an enemy: one exchange of blows
        && (k >= 0 && ents0[k].Enemy? ==>
              && Struck(players0, players1, ents0, ents1, logs, logs1, id, depth, k, hitRoll, backRoll, tiles, sight)
              && depths1 == depths0 && levels1 == levels0)
        // an item: picked up, and the mover steps onto its cell
        && (k >= 0 && ents0[k].Item? ==>
              && Collected(players0, players1, ents0, ents1, logs, logs1, id, k, t, tiles, sight)
              && depths1 == depths0 && levels1 == levels0)
        // the stairs: on to the next level, at a random empty cell
        && (k >= 0 && ents0[k].StairsDown? ==>
              && WentDown(levels0, levels1, depths0, depths1, players0, players1, logs, logs1, order, id)
              && ents1 == ents0
              && ArrivedAt(players1[id], p, depth + 1, levels1[depth + 1].tiles, arrivedEnts, sight)))
  }

  /** A step onto an empty cell is the effect of the move. */
  lemma WalkIsMove(levels0: map<int, DungeonLevel>, ents0: seq<Entity>, ents1: seq<Entity>, arrivedEnts: seq<Entity>,
                      depths0: map<PlayerId, int>, players0: map<PlayerId, PlayerState>, players1: map<PlayerId, PlayerState>,
                      logs0: map<PlayerId, seq<Msg>>, logs: map<PlayerId, seq<Msg>>, logs1: map<PlayerId, seq<Msg>>,
                      order: seq<PlayerId>, id: PlayerId, dx: int, dy: int, hitRoll: int, backRoll: int, sight: Sight,
                      t: Position, k: int)
    requires id in players0 && id in depths0 && depths0[id] in levels0 && IsGrid(levels0[depths0[id]].tiles)
    requires t == Target(players0[id], dx, dy) && k == EntityIndex(ents0, t)
    requires logs == PassNotes(logs0, players0, id, players0[id].name, PassedPlayer(players0, depths0, order, id, depths0[id], t))
    requires k < 0 && Walked(players0, players1, id, t, levels0[depths0[id]].tiles, sight)
    requires ents1 == ents0 && logs1 == logs
    ensures MoveEffect(levels0, levels0, ents0, ents1, arrivedEnts, depths0, depths0, players0, players1, logs0, logs1,
                       order, id, dx, dy, hitRoll, backRoll, sight)
  {
  }

  /** A fight with the enemy on the target is the effect of the move. */
  lemma StrikeIsMove(levels0: map<int, DungeonLevel>, ents0: seq<Entity>, ents1: seq<Entity>, arrivedEnts: seq<Entity>,
                      depths0: map<PlayerId, int>, players0: map<PlayerId, PlayerState>, players1: map<PlayerId, PlayerState>,
                      logs0: map<PlayerId, seq<Msg>>, logs: map<PlayerId, seq<Msg>>, logs1: map<PlayerId, seq<Msg>>,
                      order: seq<PlayerId>, id: PlayerId, dx: int, dy: int, hitRoll: int, backRoll: int, sight: Sight,
                      t: Position, k: int)
    requires id in players0 && id in depths0 && depths0[id] in levels0 && IsGrid(levels0[depths0[id]].tiles)
    requires t == Target(players0[id], dx, dy) && k == EntityIndex(ents0, t)
    requires logs == PassNotes(logs0, players0, id, players0[id].name, PassedPlayer(players0, depths0, order, id, depths0[id], t))
    requires k >= 0 && Struck(players0, players1, ents0, ents1, logs, logs1, id, depths0[id], k, hitRoll, backRoll,
                              levels0[depths0[id]].tiles, sight)
    ensures MoveEffect(levels0, levels0, ents0, ents1, arrivedEnts, depths0, depths0, players0, players1, logs0, logs1,
                       order, id, dx, dy, hitRoll, backRoll, sight)
  {
  }

  /** Picking up the item on the target is the effect of the move. */
  lemma CollectIsMove(levels0: map<int, DungeonLevel>, ents0: seq<Entity>, ents1: seq<Entity>, arrivedEnts: seq<Entity>,
                      depths0: map<PlayerId, int>, players0: map<PlayerId, PlayerState>, players1: map<PlayerId, PlayerState>,
                      logs0: map<PlayerId, seq<Msg>>, logs: map<PlayerId, seq<Msg>>, logs1: map<PlayerId, seq<Msg>>,
                      order: seq<PlayerId>, id: PlayerId, dx: int, dy: int, hitRoll: int, backRoll: int, sight: Sight,
                      t: Position, k: int)
    requires id in players0 && id in depths0 && depths0[id] in levels0 && IsGrid(levels0[depths0[id]].tiles)
    requires t == Target(players0[id], dx, dy) && k == EntityIndex(ents0, t)
    requires logs == PassNotes(logs0, players0, id, players0[id].name, PassedPlayer(players0, depths0, order, id, depths0[id], t))
    requires k >= 0 && Collected(players0, players1, ents0, ents1, logs, logs1, id, k, t, levels0[depths0[id]].tiles, sight)
    ensures MoveEffect(levels0, levels0, ents0, ents1, arrivedEnts, depths0, depths0, players0, players1, logs0, logs1,
                       order, id, dx, dy, hitRoll, backRoll, sight)
  {
  }

  /** Taking the stairs on the target is the effect of the move. */
  lemma StairsIsMove(levels0: map<int, DungeonLevel>, ents0: seq<Entity>, ents1: seq<Entity>, arrivedEnts: seq<Entity>,
                      depths0: map<PlayerId, int>, players0: map<PlayerId, PlayerState>, players1: map<PlayerId, PlayerState>,
                      logs0: map<PlayerId, seq<Msg>>, logs: map<PlayerId, seq<Msg>>, logs1: map<PlayerId, seq<Msg>>,
                      levels1: map<int, DungeonLevel>, depths1: map<PlayerId, int>,
                      order: seq<PlayerId>, id: PlayerId, dx: int, dy: int, hitRoll: int, backRoll: int, sight: Sight,
                      t: Position, k: int)
    requires id in players0 && id in depths0 && depths0[id] in levels0 && IsGrid(levels0[depths0[id]].tiles)
    requires t == Target(players0[id], dx, dy) && k == EntityIndex(ents0, t)
    requires logs == PassNotes(logs0, players0, id, players0[id].name, PassedPlayer(players0, depths0, order, id, depths0[id], t))
    requires k >= 0 && ents0[k].StairsDown? && ents1 == ents0
    requires WentDown(levels0, levels1, depths0, depths1, players0, players1, logs, logs1, order, id)
    requires ArrivedAt(players1[id], players0[id], depths0[id] + 1, levels1[depths0[id] + 1].tiles, arrivedEnts, sight)
    ensures MoveEffect(levels0, levels1, ents0, ents1, arrivedEnts, depths0, depths1, players0, players1, logs0, logs1,
                       order, id, dx, dy, hitRoll, backRoll, sight)
  {
  }

  /** The three steps of taking the stairs (leaving, finding the level,
      arriving) add up to `WentDown`. */
  lemma WentDownSteps(levels0: map<int, DungeonLevel>, levels1: map<int, DungeonLevel>,
                      depths0: map<PlayerId, int>, depths1: map<PlayerId, int>,
                      players0: map<PlayerId, PlayerState>, players1: map<PlayerId, PlayerState>,
                      logs0: map<PlayerId, seq<Msg>>, logs1: map<PlayerId, seq<Msg>>,
                      order: seq<PlayerId>, id: PlayerId, tiles: seq<seq<Tile>>, entities: seq<Entity>,
                      sight: Sight)
    requires id in players0 && id in depths0
    requires depths0[id] + 1 in levels1
    requires levels1 == levels0[depths0[id] + 1 := levels1[depths0[id] + 1]]
    requires depths0[id] + 1 in levels0 ==> levels1 == levels0
    requires Landed(players0, players1, depths0, depths1,
                    Broadcast(Append(logs0, id, DescendTo(depths0[id] + 1)), depths0, order, depths0[id],
                              Descended(players0[id].name), id),
                    logs1, order, id, depths0[id] + 1, tiles, entities, sight)
    ensures WentDown(levels0, levels1, depths0, depths1, players0, players1, logs0, logs1, order, id)
  {
  }

  /** The effect of a branch, together with the other levels keeping their
      entities, is what `Moved` states of the world afterwards. */
  lemma MovedOf(w: GameWorld, levels0: map<int, DungeonLevel>, ents0: map<int, seq<Entity>>,
                depths0: map<PlayerId, int>, players0: map<PlayerId, PlayerState>, logs0: map<PlayerId, seq<Msg>>,
                id: PlayerId, dx: int, dy: int, hitRoll: int, backRoll: int, depth: int,
                e0: seq<Entity>, ents1: seq<Entity>, arrived: seq<Entity>)
    requires id in depths0 && depth == depths0[id] && depth in levels0 && depth in ents0 && depth in w.levels
    requires e0 == ents0[depth]
    requires ents1 == w.levels[depth].entities
    requires arrived == if depth + 1 in w.levels then w.levels[depth + 1].entities else []
    requires MoveEffect(levels0, w.levels, e0, ents1, arrived, depths0, w.playerDepths, players0, w.players,
                        logs0, w.messageLog, w.order, id, dx, dy, hitRoll, backRoll, w.sight)
    ensures w.Moved(levels0, ents0, depths0, players0, logs0, id, dx, dy, hitRoll, backRoll)
  {
  }

  /** The world stays valid when a level is generated. */
  lemma Grown(w: GameWorld, levels0: map<int, DungeonLevel>)
    requires w.LevelsOk() && WorldOk(levels0, w.players, w.playerDepths, w.messageLog, w.order, w.sight)
    requires LevelsGrow(levels0, w.levels)
    ensures w.Valid()
  {
    GrowOk(levels0, w.players, w.playerDepths, w.messageLog, w.order, w.sight, w.levels);
  }

  /** The world is valid again after a broadcast to one depth. */
  lemma Broadcasted(w: GameWorld, logs0: map<PlayerId, seq<Msg>>, depth: int, m: Msg, exclude: PlayerId)
    requires w.LevelsOk() && WorldOk(w.levels, w.players, w.playerDepths, logs0, w.order, w.sight)
    requires w.messageLog == Broadcast(logs0, w.playerDepths, w.order, depth, m, exclude)
    ensures w.Valid()
  {
    BroadcastReaches(logs0, w.playerDepths, w.order, depth, m, exclude);
  }

  /** One cell of the snapshot's map. */
  datatype CellView = CellView(ch: char, walkable: bool, visible: bool, explored: bool)

  /** Another player on the same depth, as the snapshot shows it. */
  datatype OtherView = OtherView(name: string, pos: Position, visible: bool)

  datatype PlayerView = PlayerView(pos: Position, hp: int, maxHp: int, name: string)

  /** What `getStateForPlayer` sends to one client. */
  datatype Snapshot = Snapshot(
    cells: seq<seq<CellView>>,
    player: PlayerView,
    entities: seq<Entity>,
    otherPlayers: seq<OtherView>,
    dead: bool,
    stats: Stats,
    messages: seq<Msg>,
    depth: int,
    onlineCount: int)

  /** The map as the snapshot shows it: each tile with whether it is visible
      now and whether the player has explored it. */
  function Cells(tiles: seq<seq<Tile>>, visible: seq<seq<bool>>, explored: seq<seq<bool>>): (c: seq<seq<CellView>>)
    requires IsGrid(tiles) && IsGrid(visible) && IsGrid(explored)
    ensures IsGrid(c)
    ensures forall y, x | 0 <= y < MAP_HEIGHT && 0 <= x < MAP_WIDTH ::
              c[y][x] == CellView(tiles[y][x].ch, tiles[y][x].walkable, visible[y][x], explored[y][x])
  {
    seq(MAP_HEIGHT, y requires 0 <= y < MAP_HEIGHT =>
      seq(MAP_WIDTH, x requires 0 <= x < MAP_WIDTH =>
        CellView(tiles[y][x].ch, tiles[y][x].walkable, visible[y][x], explored[y][x])))
  }

  /** The other players `others`, in their order, each with whether its cell is visible. */
  function OtherViews(others: seq<PlayerId>, ps: map<PlayerId, PlayerState>, visible: seq<seq<bool>>)
    : (r: seq<OtherView>)
    requires IsGrid(visible) && forall i | 0 <= i < |others| :: others[i] in ps && OnMap(ps[others[i]].pos)
    ensures |r| == |others|
    ensures forall i | 0 <= i < |others| ::
              others[i] in ps && OnMap(ps[others[i]].pos) &&
              r[i] == OtherView(ps[others[i]].name, ps[others[i]].pos, visible[ps[others[i]].pos.y][ps[others[i]].pos.x])
    decreases |others|
  {
    if others == [] then []
    else
      assert forall i | 0 <= i < |others| - 1 :: others[1..][i] == others[i + 1];
      var p := ps[others[0]];
      assert OnMap(p.pos);
      [OtherView(p.name, p.pos, visible[p.pos.y][p.pos.x])] + OtherViews(others[1..], ps, visible)
  }

  /** Every player of a valid world stands on the map. */
  lemma AllOnMap(w: GameWorld)
    requires w.Valid()
    ensures forall pid | pid in w.players :: OnMap(w.players[pid].pos)
  {
    PlayersOkIff(w.levels, w.players, w.playerDepths, w.order, w.sight);
  }

  class GameWorld {
    var levels: map<int, DungeonLevel>
    var players: map<PlayerId, PlayerState>
    var playerDepths: map<PlayerId, int>
    var messageLog: map<PlayerId, seq<Msg>>
    /** The ids of `players` (and of `playerDepths`) in insertion order. */
    var order: seq<PlayerId>
    /** The cells of every ray, for every viewer cell. */
    const sight: Sight

    /** Level 1 exists, and every level is filed under its own depth and has a full map. */
    ghost predicate LevelsOk()
      reads this`levels
    {
      && 1 in levels
      && forall d | d in levels :: levels[d].depth == d && IsGrid(levels[d].tiles)
    }

    ghost predicate Valid()
      reads this
    {
      && LevelsOk()
      && WorldOk(levels, players, playerDepths, messageLog, order, sight)
    }

    constructor (sight: Sight)
      requires WellFormedSight(sight)
      ensures Valid() && fresh(levels[1])
      ensures levels.Keys == {1} && players == map[] && playerDepths == map[] && messageLog == map[]
      ensures this.sight == sight
    {
      this.sight := sight;
      var level := new DungeonLevel(1);
      levels := map[1 := level];
      players := map[];
      playerDepths := map[];
      messageLog := map[];
      order := [];
    }

    /** The level at `depth`, generated the first time it is asked for. */
    method GetOrCreateLevel(depth: int) returns (level: DungeonLevel)
      requires LevelsOk()
      modifies this`levels
      ensures LevelsOk() && depth in levels && level == levels[depth]
      ensures depth in old(levels) ==> levels == old(levels)
      ensures depth !in old(levels) ==> fresh(level) && levels == old(levels)[depth := level]
    {
      if depth !in levels {
        level := new DungeonLevel(depth);
        levels := levels[depth := level];
      }
      level := levels[depth];
    }

    /** `addMessage`: append, dropping the oldest entry past 50. */
    method AddMessage(id: PlayerId, m: Msg)
      modifies this`messageLog
      ensures messageLog == Append(old(messageLog), id, m)
    {
      var msgs := LogOf(messageLog, id);
      msgs := msgs + [m];
      if |msgs| > MAX_LOG {
        msgs := msgs[1..];
      }
      messageLog := messageLog[id := msgs];
    }

    /** The `addMessage` calls of one branch of a move, in order, on the mover's log. */
    method AddMessages(id: PlayerId, ms: seq<Msg>)
      requires id in messageLog
      modifies this`messageLog
      ensures messageLog == old(messageLog)[id := PushAll(old(messageLog)[id], ms)]
    {
      for i := 0 to |ms|
        invariant messageLog == old(messageLog)[id := PushAll(old(messageLog)[id], ms[..i])]
      {
        AddMessage(id, ms[i]);
        PushAllSnoc(old(messageLog)[id], ms[..i], ms[i]);
        assert ms[..i + 1] == ms[..i] + [ms[i]];
      }
      assert ms[..|ms|] == ms;
    }

    /** `broadcastToDepth`: the players on `depth` other than `exclude`, in
        insertion order, each get `m`. */
    method BroadcastToDepth(depth: int, m: Msg, exclude: PlayerId)
      requires forall id :: id in playerDepths <==> id in order
      modifies this`messageLog
      ensures messageLog == Broadcast(old(messageLog), playerDepths, order, depth, m, exclude)
    {
      for i := 0 to |order|
        invariant messageLog == Broadcast(old(messageLog), playerDepths, order[..i], depth, m, exclude)
      {
        var pid := order[i];
        assert order[..i + 1][..i] == order[..i];
        if playerDepths[pid] == depth && pid != exclude {
          AddMessage(pid, m);
        }
      }
      assert order[..|order|] == order;
    }

    /** The ray cast of `updatePlayerFOV` for a player standing on `tiles`:
        every cell a ray reaches is marked explored. */
    method CastView(p: PlayerState, tiles: seq<seq<Tile>>) returns (q: PlayerState)
      requires WellFormedSight(sight) && IsGrid(p.explored) && IsGrid(tiles)
      ensures q == Seen(p, tiles, sight)
    {
      var explored := CastRays(p.explored, tiles, sight(p.pos));
      q := p.(explored := explored);
    }

    /** `updatePlayerFOV`: casts the rays from the player's cell into its
        explored grid; nothing happens for an unknown id. */
    method UpdatePlayerFOV(id: PlayerId)
      requires LevelsOk() && WellFormedSight(sight)
      requires id in players ==> id in playerDepths && IsGrid(players[id].explored)
      modifies this`levels, this`players
      ensures LevelsOk() && LevelsGrow(old(levels), levels)
      ensures id !in players || id !in playerDepths ==> players == old(players) && levels == old(levels)
      ensures id in old(players) && id in playerDepths ==>
                && playerDepths[id] in levels && IsGrid(levels[playerDepths[id]].tiles)
                && (playerDepths[id] in old(levels) ==> levels == old(levels))
                && players == old(players)[id := Seen(old(players[id]), levels[playerDepths[id]].tiles, sight)]
    {
      if id !in players || id !in playerDepths {
        return;
      }
      var player := players[id];
      var depth := playerDepths[id];
      var level := GetOrCreateLevel(depth);
      var seen := CastView(player, level.tiles);
      players := players[id := seen];
    }

    /** `computeVisible`: the cells the rays from `pos` mark on an all-false grid. */
    method ComputeVisible(pos: Position, level: DungeonLevel) returns (visible: seq<seq<bool>>)
      requires WellFormedSight(sight) && IsGrid(level.tiles)
      ensures visible == Revealed(Filled(false), level.tiles, sight(pos))
      ensures IsGrid(visible)
      ensures forall y, x | 0 <= y < MAP_HEIGHT && 0 <= x < MAP_WIDTH ::
                visible[y][x] == InView(sight(pos), level.tiles, x, y)
    {
      visible := CastRays(Filled(false), level.tiles, sight(pos));
    }

    /** `addPlayer`: a fresh record on level 1 (on an open cell for a bot), the
        three welcome lines, its view cast, and the others on level 1 told. */
    method AddPlayer(id: PlayerId, name: string, useOpenSpawn: bool) returns (player: PlayerState)
      requires Valid()
      modifies this`players, this`playerDepths, this`order, this`messageLog
      ensures Valid()
      ensures order == if id in old(order) then old(order) else old(order) + [id]
      ensures players == old(players)[id := player] && playerDepths == old(playerDepths)[id := 1]
      ensures player == Seen(PlayerState(id, name, player.pos, START_HP, START_HP, Filled(false), FRESH_STATS, false),
                             levels[1].tiles, sight)
      ensures SpawnCell(levels[1].tiles, levels[1].entities, player.pos, useOpenSpawn)
      ensures messageLog == Broadcast(old(messageLog)[id := [Welcome, MoveHint, StairsHint]],
                                      playerDepths, order, 1, Entered(name), id)
    {
      player := Enrol(id, name, useOpenSpawn);
      ghost var logs := messageLog;
      BroadcastToDepth(1, Entered(name), id);
      Broadcasted(this, logs, 1, Entered(name), id);
    }

    /** The player `addPlayer` creates: full health, fresh stats, an
        unexplored map, on a spawn cell of level 1, with its view cast. */
    method Newcomer(id: PlayerId, name: string, useOpenSpawn: bool) returns (newcomer: PlayerState, player: PlayerState)
      requires Valid()
      ensures newcomer == PlayerState(id, name, player.pos, START_HP, START_HP, Filled(false), FRESH_STATS, false)
      ensures player == Seen(newcomer, levels[1].tiles, sight) && PlayerOk(newcomer, id, 1)
      ensures SpawnCell(levels[1].tiles, levels[1].entities, player.pos, useOpenSpawn)
    {
      // level 1 exists from the start, so `getOrCreateLevel` only looks it up
      var level := levels[1];
      var pos := level.SpawnPos(useOpenSpawn);
      newcomer := PlayerState(id, name, pos, START_HP, START_HP, Filled(false), FRESH_STATS, false);
      player := CastView(newcomer, level.tiles);
    }

    /** The lines of `addPlayer` before the broadcast: the newcomer placed on
        level 1 with its view cast, filed under its id, and given its log. */
    method Enrol(id: PlayerId, name: string, useOpenSpawn: bool) returns (player: PlayerState)
      requires Valid()
      modifies this`players, this`playerDepths, this`order, this`messageLog
      ensures Valid()
      ensures order == if id in old(order) then old(order) else old(order) + [id]
      ensures players == old(players)[id := player] && playerDepths == old(playerDepths)[id := 1]
      ensures player == Seen(PlayerState(id, name, player.pos, START_HP, START_HP, Filled(false), FRESH_STATS, false),
                             levels[1].tiles, sight)
      ensures SpawnCell(levels[1].tiles, levels[1].entities, player.pos, useOpenSpawn)
      ensures messageLog == old(messageLog)[id := [Welcome, MoveHint, StairsHint]]
    {
      var depth := 1;
      var newcomer;
      newcomer, player := Newcomer(id, name, useOpenSpawn);
      var order' := order;
      if id !in order {
        DistinctSnoc(order, id);
        order' := order + [id];
      }
      players, playerDepths, order, messageLog :=
        players[id := player], playerDepths[id := depth], order', messageLog[id := [Welcome, MoveHint, StairsHint]];
      Rewritten(this, old(players), old(playerDepths), old(messageLog), old(order), id, newcomer, depth);
    }

    /** `respawnPlayer`: alive again at full hp with fresh stats, on level 1,
        with an unexplored map and a new two-line log; an unknown id is ignored. */
    method RespawnPlayer(id: PlayerId)
      requires Valid()
      modifies this`players, this`playerDepths, this`messageLog
      ensures Valid()
      ensures id !in old(players) ==>
                players == old(players) && playerDepths == old(playerDepths) && messageLog == old(messageLog)
      ensures id in old(players) ==>
                var p, q := old(players[id]), players[id];
                && q == Seen(p.(dead := false, hp := p.maxHp, stats := FRESH_STATS, pos := q.pos, explored := Filled(false)),
                             levels[1].tiles, sight)
                && (q.pos == Position(1, 1) || EmptyCell(levels[1].tiles, levels[1].entities, q.pos.x, q.pos.y))
                && players == old(players)[id := q]
                && playerDepths == old(playerDepths)[id := 1]
                && messageLog == old(messageLog)[id := [Awaken, NewJourney]]
    {
      if id !in players {
        return;
      }
      Holds(this, id);
      var player := players[id];
      player := player.(dead := false, hp := player.maxHp, stats := FRESH_STATS);
      var depth := 1;
      playerDepths := playerDepths[id := depth];
      // level 1 exists from the start, so `getOrCreateLevel` only looks it up
      var level := levels[depth];
      var pos := level.GetRandomEmptyPos();
      player := player.(pos := pos, explored := Filled(false));
      messageLog := messageLog[id := [Awaken, NewJourney]];
      var seen := CastView(player, level.tiles);
      players := players[id := seen];

      Rewritten(this, old(players), old(playerDepths), old(messageLog), old(order), id, player, depth);
    }

    /** `removePlayer`: the others on the player's level are told, then the
        player's record, depth and log are dropped. */
    method RemovePlayer(id: PlayerId)
      requires Valid()
      modifies this`players, this`playerDepths, this`order, this`messageLog
      ensures Valid()
      ensures players == old(players) - {id} && playerDepths == old(playerDepths) - {id}
      ensures order == Without(old(order), id)
      ensures id in old(players) ==>
                messageLog == Broadcast(old(messageLog), old(playerDepths), old(order), old(playerDepths[id]),
                                        Left(old(players[id].name)), id) - {id}
      ensures id !in old(players) ==> messageLog == old(messageLog) - {id}
    {
      Farewell(id);
      ghost var logs := messageLog;
      players, playerDepths, messageLog, order :=
        players - {id}, playerDepths - {id}, messageLog - {id}, Without(order, id);

      Removed(this, old(levels), old(players), old(playerDepths), logs, old(order), id);
    }

    /** The first lines of `removePlayer`: the others on the level of a known
        player are told that it left. */
    method Farewell(id: PlayerId)
      requires Valid()
      modifies this`messageLog
      ensures Valid()
      ensures id in players ==>
                messageLog == Broadcast(old(messageLog), playerDepths, order, playerDepths[id], Left(players[id].name), id)
      ensures id !in players ==> messageLog == old(messageLog)
    {
      if id in players {
        Holds(this, id);
        // `if (player && depth)`: a depth is never 0, so a known player is always announced
        if playerDepths[id] != 0 {
          BroadcastToDepth(playerDepths[id], Left(players[id].name), id);
          Broadcasted(this, old(messageLog), playerDepths[id], Left(players[id].name), id);
        }
      }
    }

    /** The pass-by notices of a move of `id` onto `target` on level `depth`. */
    method NotePassing(id: PlayerId, depth: int, target: Position, moverName: string)
      modifies this`messageLog
      ensures messageLog == PassNotes(old(messageLog), players, id, moverName,
                                      PassedPlayer(players, playerDepths, order, id, depth, target))
    {
      var q := PasserIndex(players, playerDepths, order, id, depth, target);
      if q >= 0 {
        AddMessage(id, PassBy(players[order[q]].name));
        AddMessage(order[q], PassedBy(moverName));
      }
    }

    /** The enemy branch of a move, for the two draws `hitRoll` (0..4) and
        `backRoll` (0..2): one exchange of blows with the enemy at index `k`
        of the mover's level; a killed enemy is removed, a survivor keeps its
        wounds; the mover stays put and its view is cast again. */
    method Strike(id: PlayerId, level: DungeonLevel, k: int, hitRoll: int, backRoll: int)
      requires Valid() && PlayerAt(levels, players, playerDepths, id, sight) && level == levels[playerDepths[id]]
      requires 0 <= k < |level.entities| && level.entities[k].Enemy? && !players[id].dead
      requires 0 <= hitRoll < 5 && 0 <= backRoll < 3
      modifies this`players, this`messageLog, level`entities
      ensures Valid()
      ensures Struck(old(players), players, old(level.entities), level.entities, old(messageLog), messageLog,
                     id, playerDepths[id], k, hitRoll, backRoll, level.tiles, sight)
    {
      var player := players[id];
      var depth := playerDepths[id];
      var x := Fight(player, level.entities[k], depth, hitRoll, backRoll);
      var seen := CastView(x.player, level.tiles);
      AddMessages(id, x.log);
      // a killed enemy leaves the list, a survivor keeps its wounds
      var rest := if x.foe.None? then level.entities[..k] + level.entities[k + 1..]
                  else level.entities[k := x.foe.value];
      level.entities, players := rest, players[id := seen];

      PushAllKeepsNewest(old(messageLog)[id], x.log);
      Rewritten(this, old(players), old(playerDepths), old(messageLog), old(order), id, x.player, depth);
      StruckBy(old(players), players, old(level.entities), level.entities, old(messageLog), messageLog,
               id, depth, k, hitRoll, backRoll, level.tiles, sight, x);
    }

    /** The item branch of a move: the item at index `k` is picked up and
        removed, the mover steps onto `target`, and its view is cast again. */
    method Collect(id: PlayerId, level: DungeonLevel, k: int, target: Position)
      requires Valid() && PlayerAt(levels, players, playerDepths, id, sight) && level == levels[playerDepths[id]]
      requires 0 <= k < |level.entities| && level.entities[k].Item? && !players[id].dead
      requires OnMap(target) && target == level.entities[k].pos
      modifies this`players, this`messageLog, level`entities
      ensures Valid()
      ensures Collected(old(players), players, old(level.entities), level.entities, old(messageLog), messageLog,
                        id, k, target, level.tiles, sight)
    {
      var player := players[id];
      var depth := playerDepths[id];
      var (picked, msgs) := PickUp(player, level.entities[k], target);
      AddMessages(id, msgs);
      level.entities := level.entities[..k] + level.entities[k + 1..];
      var seen := CastView(picked, level.tiles);
      players := players[id := seen];

      PushAllKeepsNewest(old(messageLog)[id], msgs);
      Rewritten(this, old(players), old(playerDepths), old(messageLog), old(order), id, picked, depth);
    }

    /** A move onto an empty cell: one step, and the view cast again. */
    method Walk(id: PlayerId, target: Position)
      requires Valid() && PlayerAt(levels, players, playerDepths, id, sight) && OnMap(target)
      modifies this`players
      ensures Valid()
      ensures Walked(old(players), players, id, target, levels[playerDepths[id]].tiles, sight)
    {
      var depth := playerDepths[id];
      var level := levels[depth];
      var player := Step(players[id], target);
      var seen := CastView(player, level.tiles);
      players := players[id := seen];

      Rewritten(this, old(players), old(playerDepths), old(messageLog), old(order), id, player, depth);
    }

    /** The stairs branch of a move: the mover is told, the others on its level
        are told, it goes one level down (generated if new) to a random empty
        cell with an unexplored map, its view is cast, and the others there are told. */
    method TakeStairs(id: PlayerId)
      requires Valid() && PlayerAt(levels, players, playerDepths, id, sight) && !players[id].dead
      modifies this`players, this`messageLog, this`levels, this`playerDepths
      ensures Valid()
      ensures players.Keys == old(players).Keys
      ensures LevelsGrow(old(levels), levels)
      ensures WentDown(old(levels), levels, old(playerDepths), playerDepths, old(players), players,
                       old(messageLog), messageLog, order, id)
      ensures var nd := old(playerDepths[id]) + 1;
              && nd in levels && (nd !in old(levels) ==> fresh(levels[nd]))
              && ArrivedAt(players[id], old(players[id]), nd, levels[nd].tiles, levels[nd].entities, sight)
    {
      var newDepth := playerDepths[id] + 1;
      // generating the level touches no log, so it may come before the notices
      var newLevel := GetOrCreateLevel(newDepth);
      Grown(this, old(levels));
      Holds(this, id);
      Relocate(id, newLevel);
      WentDownSteps(old(levels), levels, old(playerDepths), playerDepths, old(players), players,
                    old(messageLog), messageLog, order, id, newLevel.tiles, newLevel.entities, sight);
    }

    /** The notices and the move of a descent onto the existing `level` one
        below the mover's. */
    method Relocate(id: PlayerId, level: DungeonLevel)
      requires Valid() && PlayerAt(levels, players, playerDepths, id, sight)
      requires playerDepths[id] + 1 in levels && level == levels[playerDepths[id] + 1]
      modifies this`players, this`playerDepths, this`messageLog
      ensures Valid()
      ensures var depth := old(playerDepths[id]);
              Landed(old(players), players, old(playerDepths), playerDepths,
                     Broadcast(Append(old(messageLog), id, DescendTo(depth + 1)), old(playerDepths), order, depth,
                               Descended(old(players[id].name)), id),
                     messageLog, order, id, depth + 1, level.tiles, level.entities, sight)
    {
      var player := players[id];
      var depth := playerDepths[id];
      LeaveLevel(id, depth, depth + 1, player.name);
      Arrive(id, depth + 1, level);
    }

    /** The mover is told which depth it goes down to, and the others on `depth` that it left. */
    method LeaveLevel(id: PlayerId, depth: int, newDepth: int, name: string)
      requires Valid() && id in players
      modifies this`messageLog
      ensures Valid()
      ensures messageLog == Broadcast(Append(old(messageLog), id, DescendTo(newDepth)), playerDepths, order,
                                      depth, Descended(name), id)
    {
      AddMessage(id, DescendTo(newDepth));
      AppendBounded(old(messageLog), id, DescendTo(newDepth));
      ghost var logs := messageLog;
      BroadcastToDepth(depth, Descended(name), id);
      Broadcasted(this, logs, depth, Descended(name), id);
    }

    /** The mover arrives on `level`, at depth `newDepth`, at a random empty
        cell with an unexplored map; its view is cast and the others there are told. */
    method Arrive(id: PlayerId, newDepth: int, level: DungeonLevel)
      requires Valid() && PlayerAt(levels, players, playerDepths, id, sight)
      requires newDepth in levels && level == levels[newDepth] && newDepth >= 1
      modifies this`players, this`playerDepths, this`messageLog
      ensures Valid()
      ensures Landed(old(players), players, old(playerDepths), playerDepths, old(messageLog), messageLog,
                     order, id, newDepth, level.tiles, level.entities, sight)
    {
      var player := players[id];
      var spawn := level.GetRandomEmptyPos();
      var moved := Descend(player, newDepth, spawn);
      var seen := CastView(moved, level.tiles);
      players, playerDepths := players[id := seen], playerDepths[id := newDepth];
      Rewritten(this, old(players), old(playerDepths), old(messageLog), order, id, moved, newDepth);
      BroadcastToDepth(newDepth, Arrived(player.name), id);
      Broadcasted(this, old(messageLog), newDepth, Arrived(player.name), id);
    }

    /** `movePlayer`: false, changing nothing, for an unknown id, a target off
        the map or not walkable, or a dead mover; otherwise true, with the
        effect `MoveEffect` describes (the draws `hitRoll` and `backRoll`
        decide a fight). */
    method MovePlayer(id: PlayerId, dx: int, dy: int, hitRoll: int, backRoll: int) returns (ok: bool)
      requires Valid() && 0 <= hitRoll < 5 && 0 <= backRoll < 3
      modifies this`players, this`playerDepths, this`messageLog, this`levels
      modifies if id in playerDepths && playerDepths[id] in levels then {levels[playerDepths[id]]} else {}
      ensures Valid()
      ensures players.Keys == old(players).Keys
      ensures LevelsGrow(old(levels), levels)
      ensures id in old(players) ==> old(PlayerAt(levels, players, playerDepths, id, sight))
      ensures id !in old(players) ==> !ok
      ensures id in old(players) ==> (ok <==> old(MayMove(players[id], levels[playerDepths[id]].tiles, dx, dy)))
      ensures !ok ==> unchanged(this) && forall d | d in levels :: unchanged(levels[d])
      ensures ok ==> Moved(old(levels), old(Entities()), old(playerDepths), old(players), old(messageLog),
                           id, dx, dy, hitRoll, backRoll)
      ensures forall d | d in levels && d !in old(levels) :: fresh(levels[d])
    {
      if id !in players || id !in playerDepths {
        return false;
      }
      Holds(this, id);
      var player := players[id];
      var depth := playerDepths[id];
      // the mover's level exists, so `getOrCreateLevel` only looks it up
      var level := levels[depth];
      var newX, newY := player.pos.x + dx, player.pos.y + dy;
      if newX < 0 || newX >= MAP_WIDTH || newY < 0 || newY >= MAP_HEIGHT {
        return false;
      }
      var tile := level.tiles[newY][newX];
      if !tile.walkable {
        return false;
      }
      if player.dead {
        return false;
      }
      Advance(id, level, dx, dy, hitRoll, backRoll);
      return true;
    }

    /** The entities of every level, by depth. */
    ghost function Entities(): (m: map<int, seq<Entity>>)
      reads this, levels.Values
      ensures m.Keys == levels.Keys && forall d | d in levels :: m[d] == levels[d].entities
    {
      map d | d in levels :: levels[d].entities
    }

    /** The effect of an allowed move, from the given state before it (with
        `ents0` the entities of each level then) to the current one, read off
        the heap into the value-level `MoveEffect`. That the other levels keep
        their entities is the frame of `MovePlayer`, which may change only the
        mover's level. */
    ghost predicate Moved(levels0: map<int, DungeonLevel>, ents0: map<int, seq<Entity>>, depths0: map<PlayerId, int>,
                          players0: map<PlayerId, PlayerState>, logs0: map<PlayerId, seq<Msg>>,
                          id: PlayerId, dx: int, dy: int, hitRoll: int, backRoll: int)
      reads this, levels.Values
    {
      && id in depths0 && depths0[id] in levels0 && depths0[id] in ents0 && depths0[id] in levels
      && (var depth := depths0[id];
          var nd := depth + 1;
          && MoveEffect(levels0, levels, ents0[depth], levels[depth].entities,
                        if nd in levels then levels[nd].entities else [],
                        depths0, playerDepths, players0, players, logs0, messageLog, order, id, dx, dy,
                        hitRoll, backRoll, sight))
    }

    /** The state right after the pass-by notices of an allowed move of `id`
        by (`dx`, `dy`) on `level`, from the entities `ents0` and the logs
        `logs0` of before them. */
    ghost predicate Passed(id: PlayerId, level: DungeonLevel, dx: int, dy: int,
                           ents0: map<int, seq<Entity>>, logs0: map<PlayerId, seq<Msg>>)
      reads this, levels.Values
    {
      && Valid() && PlayerAt(levels, players, playerDepths, id, sight) && level == levels[playerDepths[id]]
      && MayMove(players[id], level.tiles, dx, dy) && ents0 == Entities()
      && (forall d | d in levels && d != playerDepths[id] :: levels[d] != level)
      && messageLog == PassNotes(logs0, players, id, players[id].name,
                                 PassedPlayer(players, playerDepths, order, id, playerDepths[id], Target(players[id], dx, dy)))
    }

    /** The part of an allowed move after the guards: the pass-by notices,
        then what lies on the target decides the branch. */
    method Advance(id: PlayerId, level: DungeonLevel, dx: int, dy: int, hitRoll: int, backRoll: int)
      requires Valid() && PlayerAt(levels, players, playerDepths, id, sight) && level == levels[playerDepths[id]]
      requires MayMove(players[id], level.tiles, dx, dy) && 0 <= hitRoll < 5 && 0 <= backRoll < 3
      modifies this`players, this`playerDepths, this`messageLog, this`levels, level`entities
      ensures Valid()
      ensures players.Keys == old(players).Keys
      ensures LevelsGrow(old(levels), levels)
      ensures Moved(old(levels), old(Entities()), old(playerDepths), old(players), old(messageLog),
                    id, dx, dy, hitRoll, backRoll)
      ensures forall d | d in levels && d !in old(levels) :: fresh(levels[d])
    {
      var player := players[id];
      var depth := playerDepths[id];
      var target := Target(player, dx, dy);
      ghost var ents0 := Entities();
      assert forall d | d in levels && d != depth :: levels[d].depth != level.depth;
      NotePassing(id, depth, target, player.name);
      PassNotesOk(this, old(messageLog), id, depth, target, player.name);
      Dispatch(id, level, dx, dy, hitRoll, backRoll, ents0, old(messageLog));
    }

    /** What lies on the target decides the branch of the move. */
    method Dispatch(id: PlayerId, level: DungeonLevel, dx: int, dy: int, hitRoll: int, backRoll: int,
                    ghost ents0: map<int, seq<Entity>>, ghost logs0: map<PlayerId, seq<Msg>>)
      requires Passed(id, level, dx, dy, ents0, logs0) && 0 <= hitRoll < 5 && 0 <= backRoll < 3
      modifies this`players, this`playerDepths, this`messageLog, this`levels, level`entities
      ensures Valid()
      ensures players.Keys == old(players).Keys
      ensures LevelsGrow(old(levels), levels)
      ensures Moved(old(levels), ents0, old(playerDepths), old(players), logs0, id, dx, dy, hitRoll, backRoll)
      ensures forall d | d in levels && d !in old(levels) :: fresh(levels[d])
    {
      var entityIdx := EntityIndex(level.entities, Target(players[id], dx, dy));
      if entityIdx >= 0 {
        var entity := level.entities[entityIdx];
        if entity.Enemy? {
          StrikeMove(id, level, entityIdx, dx, dy, hitRoll, backRoll, ents0, logs0);
        } else if entity.Item? {
          CollectMove(id, level, entityIdx, dx, dy, hitRoll, backRoll, ents0, logs0);
        } else {
          StairsMove(id, level, entityIdx, dx, dy, hitRoll, backRoll, ents0, logs0);
        }
      } else {
        WalkMove(id, level, entityIdx, dx, dy, hitRoll, backRoll, ents0, logs0);
      }
    }

    /** `Strike` as the enemy branch of a move. */
    method StrikeMove(id: PlayerId, level: DungeonLevel, k: int, dx: int, dy: int, hitRoll: int, backRoll: int,
                 ghost ents0: map<int, seq<Entity>>, ghost logs0: map<PlayerId, seq<Msg>>)
      requires Passed(id, level, dx, dy, ents0, logs0) && 0 <= hitRoll < 5 && 0 <= backRoll < 3
      requires k == EntityIndex(level.entities, Target(players[id], dx, dy)) && k >= 0 && level.entities[k].Enemy?
      modifies this`players, this`messageLog, level`entities
      ensures Valid()
      ensures players.Keys == old(players).Keys
      ensures Moved(old(levels), ents0, old(playerDepths), old(players), logs0, id, dx, dy, hitRoll, backRoll)
    {
      var depth, target := playerDepths[id], Target(players[id], dx, dy);
      Strike(id, level, k, hitRoll, backRoll);
      ghost var ents1, arrived := level.entities, if depth + 1 in levels then levels[depth + 1].entities else [];
      StrikeIsMove(levels, old(level.entities), ents1, arrived,
                   playerDepths, old(players), players, logs0, old(messageLog), messageLog, order, id, dx, dy,
                   hitRoll, backRoll, sight, target, k);
      MovedOf(this, levels, ents0, playerDepths, old(players), logs0, id, dx, dy, hitRoll, backRoll, depth,
              old(level.entities), ents1, arrived);
    }

    /** `Collect` as the item branch of a move. */
    method CollectMove(id: PlayerId, level: DungeonLevel, k: int, dx: int, dy: int, hitRoll: int, backRoll: int,
                 ghost ents0: map<int, seq<Entity>>, ghost logs0: map<PlayerId, seq<Msg>>)
      requires Passed(id, level, dx, dy, ents0, logs0) && 0 <= hitRoll < 5 && 0 <= backRoll < 3
      requires k == EntityIndex(level.entities, Target(players[id], dx, dy)) && k >= 0 && level.entities[k].Item?
      modifies this`players, this`messageLog, level`entities
      ensures Valid()
      ensures players.Keys == old(players).Keys
      ensures Moved(old(levels), ents0, old(playerDepths), old(players), logs0, id, dx, dy, hitRoll, backRoll)
    {
      var depth, target := playerDepths[id], Target(players[id], dx, dy);
      Collect(id, level, k, target);
      ghost var ents1, arrived := level.entities, if depth + 1 in levels then levels[depth + 1].entities else [];
      CollectIsMove(levels, old(level.entities), ents1, arrived,
                   playerDepths, old(players), players, logs0, old(messageLog), messageLog, order, id, dx, dy,
                   hitRoll, backRoll, sight, target, k);
      MovedOf(this, levels, ents0, playerDepths, old(players), logs0, id, dx, dy, hitRoll, backRoll, depth,
              old(level.entities), ents1, arrived);
    }

    /** `Walk` as the empty-cell branch of a move. */
    method WalkMove(id: PlayerId, level: DungeonLevel, k: int, dx: int, dy: int, hitRoll: int, backRoll: int,
                 ghost ents0: map<int, seq<Entity>>, ghost logs0: map<PlayerId, seq<Msg>>)
      requires Passed(id, level, dx, dy, ents0, logs0) && 0 <= hitRoll < 5 && 0 <= backRoll < 3
      requires k == EntityIndex(level.entities, Target(players[id], dx, dy)) && k < 0
      modifies this`players
      ensures Valid()
      ensures players.Keys == old(players).Keys
      ensures Moved(old(levels), ents0, old(playerDepths), old(players), logs0, id, dx, dy, hitRoll, backRoll)
    {
      var depth, target := playerDepths[id], Target(players[id], dx, dy);
      Walk(id, target);
      ghost var ents1, arrived := level.entities, if depth + 1 in levels then levels[depth + 1].entities else [];
      WalkIsMove(levels, old(level.entities), ents1, arrived,
                   playerDepths, old(players), players, logs0, old(messageLog), messageLog, order, id, dx, dy,
                   hitRoll, backRoll, sight, target, k);
      MovedOf(this, levels, ents0, playerDepths, old(players), logs0, id, dx, dy, hitRoll, backRoll, depth,
              old(level.entities), ents1, arrived);
    }

    /** `TakeStairs` as the stairs branch of a move. */
    method StairsMove(id: PlayerId, level: DungeonLevel, k: int, dx: int, dy: int, hitRoll: int, backRoll: int,
                 ghost ents0: map<int, seq<Entity>>, ghost logs0: map<PlayerId, seq<Msg>>)
      requires Passed(id, level, dx, dy, ents0, logs0) && 0 <= hitRoll < 5 && 0 <= backRoll < 3
      requires k == EntityIndex(level.entities, Target(players[id], dx, dy)) && k >= 0 && level.entities[k].StairsDown?
      modifies this`players, this`messageLog, this`levels, this`playerDepths
      ensures Valid()
      ensures players.Keys == old(players).Keys
      ensures LevelsGrow(old(levels), levels)
      ensures forall d | d in levels && d !in old(levels) :: fresh(levels[d])
      ensures Moved(old(levels), ents0, old(playerDepths), old(players), logs0, id, dx, dy, hitRoll, backRoll)
    {
      var depth, target := playerDepths[id], Target(players[id], dx, dy);
      TakeStairs(id);
      ghost var ents1, arrived := level.entities, levels[depth + 1].entities;
      StairsIsMove(old(levels), old(level.entities), ents1, arrived,
                   old(playerDepths), old(players), players, logs0, old(messageLog), messageLog,
                   levels, playerDepths, order, id, dx, dy, hitRoll, backRoll, sight, target, k);
      MovedOf(this, old(levels), ents0, old(playerDepths), old(players), logs0, id, dx, dy, hitRoll, backRoll, depth,
              old(level.entities), ents1, arrived);
    }


    /** `getStateForPlayer`: none for an unknown id; otherwise the level's map
        with what is visible now and what the player has explored, the visible
        entities, the other players on the level, and the player's own state. */
    method GetStateForPlayer(id: PlayerId) returns (s: Option<Snapshot>)
      requires Valid()
      ensures id in players ==> PlayerAt(levels, players, playerDepths, id, sight)
      ensures s.None? <==> id !in players
      ensures s.Some? ==>
        var p, depth := players[id], playerDepths[id];
        var level := levels[depth];
        var rays := sight(p.pos);
        var v := Revealed(Filled(false), level.tiles, rays);
        var others := Where(order, OnDepth(id, depth, playerDepths));
        && IsGrid(s.value.cells)
        && (forall y, x | 0 <= y < MAP_HEIGHT && 0 <= x < MAP_WIDTH ::
              s.value.cells[y][x] == CellView(level.tiles[y][x].ch, level.tiles[y][x].walkable,
                                              InView(rays, level.tiles, x, y), p.explored[y][x]))
        && s.value.player == PlayerView(p.pos, p.hp, p.maxHp, p.name)
        && s.value.entities == Where(level.entities, Visible(v))
        && |s.value.otherPlayers| == |others|
        && (forall i | 0 <= i < |others| ::
              others[i] in players &&
              s.value.otherPlayers[i] == OtherView(players[others[i]].name, players[others[i]].pos,
                                                   InView(rays, level.tiles, players[others[i]].pos.x, players[others[i]].pos.y)))
        && s.value.dead == p.dead && s.value.stats == p.stats
        && s.value.messages == LogOf(messageLog, id)
        && s.value.depth == depth && s.value.onlineCount == |players|
    {
      if id !in players || id !in playerDepths {
        return None;
      }
      Holds(this, id);
      var player := players[id];
      var depth := playerDepths[id];
      // the level exists, so `getOrCreateLevel` only looks it up here
      var level := levels[depth];
      var messages := LogOf(messageLog, id);
      var visible := ComputeVisible(player.pos, level);

      var others := Where(order, OnDepth(id, depth, playerDepths));
      AllOnMap(this);
      assert forall i | 0 <= i < |others| :: others[i] in others;
      var otherPlayers := OtherViews(others, players, visible);
      var visibleEntities := Where(level.entities, Visible(visible));
      var cells := Cells(level.tiles, visible, player.explored);

      s := Some(Snapshot(cells, PlayerView(player.pos, player.hp, player.maxHp, player.name),
                         visibleEntities, otherPlayers, player.dead, player.stats, messages, depth, |players|));
    }
  }
}
