/** One dungeon level (server/game.ts:93-278): a tile grid carved into rooms
    joined by L-shaped corridors, one stairs tile, and the entities spawned on
    it. `Math.random()` draws are nondeterministic choices (`:|`) over the
    range the source's `Math.floor(Math.random() * n)` expression can take, so
    every contract holds whatever the draws are. */
module Dungeon {
  import opened Types

  datatype Room = Room(x: int, y: int, w: int, h: int)

  datatype EnemyDef = EnemyDef(name: string, hp: int)

  const DEFAULT_ENEMIES: seq<EnemyDef> := [
    EnemyDef("Goblin", 8), EnemyDef("Orc", 12), EnemyDef("Troll", 18), EnemyDef("Dragon", 30),
    EnemyDef("Rat", 4), EnemyDef("Skeleton", 10), EnemyDef("Zombie", 14), EnemyDef("Wolf", 6)]

  const DEFAULT_ITEMS: seq<string> := [
    "Health Potion", "Magic Scroll", "Gold", "Sword", "Shield", "Wand", "Food"]

  const MAX_ATTEMPTS: int := 10000

  /** The shape every sampled room has: 5..12 wide, 4..9 high, x drawn from
      1 .. MAP_WIDTH - w - 2 and y from 1 .. MAP_HEIGHT - h - 2. */
  predicate RoomShape(r: Room) {
    && 5 <= r.w <= 12 && 4 <= r.h <= 9
    && 1 <= r.x && r.x + r.w <= MAP_WIDTH - 2
    && 1 <= r.y && r.y + r.h <= MAP_HEIGHT - 2
  }

  /** The margin-overlap test of the candidate `a` against the placed room `r`. */
  predicate Overlaps(a: Room, r: Room) {
    a.x <= r.x + r.w + 1 && a.x + a.w + 1 >= r.x &&
    a.y <= r.y + r.h + 1 && a.y + a.h + 1 >= r.y
  }

  /** `rooms.some(r => overlaps)` */
  predicate Collides(rooms: seq<Room>, a: Room) {
    exists i | 0 <= i < |rooms| :: Overlaps(a, rooms[i])
  }

  /** The accepted rooms: at most 13, well shaped, and pairwise clear of the
      margin-overlap test. */
  predicate RoomsPlaced(rooms: seq<Room>) {
    && |rooms| <= 13
    && (forall i | 0 <= i < |rooms| :: RoomShape(rooms[i]))
    && (forall i, j | 0 <= i < j < |rooms| :: !Overlaps(rooms[j], rooms[i]))
  }

  predicate InRoom(r: Room, x: int, y: int) {
    r.x <= x < r.x + r.w && r.y <= y < r.y + r.h
  }

  /** `Math.floor(r.x + r.w / 2)`, `Math.floor(r.y + r.h / 2)` */
  function Centre(r: Room): Position {
    Position(r.x + r.w / 2, r.y + r.h / 2)
  }

  predicate Between(v: int, a: int, b: int) {
    Min(a, b) <= v <= Max(a, b)
  }

  /** The cells the two corridor loops carve from centre `a` to centre `b`:
      along a's row from a.x up to but excluding b.x, then along column b.x
      from a's row up to but excluding b's row. */
  predicate OnCorridor(a: Position, b: Position, x: int, y: int) {
    || (y == a.y && Between(x, a.x, b.x) && x != b.x)
    || (x == b.x && Between(y, a.y, b.y) && y != b.y)
  }

  /** The full L-shaped path from `a` to `b`, both ends included. */
  predicate OnLPath(a: Position, b: Position, x: int, y: int) {
    (y == a.y && Between(x, a.x, b.x)) || (x == b.x && Between(y, a.y, b.y))
  }

  /** Some of the rooms covers (x, y). */
  predicate InSomeRoom(rooms: seq<Room>, x: int, y: int)
    decreases |rooms|
  {
    |rooms| > 0 && (InSomeRoom(rooms[..|rooms| - 1], x, y) || InRoom(rooms[|rooms| - 1], x, y))
  }

  /** One of the corridors joining rooms j-1 and j, for 1 <= j < n, covers (x, y). */
  predicate OnSomeCorridor(rooms: seq<Room>, n: nat, x: int, y: int)
    requires n <= |rooms|
    decreases n
  {
    n >= 2 &&
    (OnSomeCorridor(rooms, n - 1, x, y) || OnCorridor(Centre(rooms[n - 2]), Centre(rooms[n - 1]), x, y))
  }

  predicate Dug(rooms: seq<Room>, n: nat, x: int, y: int)
    requires n <= |rooms|
  {
    InSomeRoom(rooms, x, y) || OnSomeCorridor(rooms, n, x, y)
  }

  predicate Interior(x: int, y: int) {
    1 <= x <= MAP_WIDTH - 3 && 1 <= y <= MAP_HEIGHT - 3
  }

  /** What generation leaves: floor exactly on the rooms and the corridors
      joining consecutively placed rooms, one stairs tile, wall elsewhere. */
  predicate Layout(tiles: seq<seq<Tile>>, rooms: seq<Room>, stairs: Position) {
    && IsGrid(tiles)
    && RoomsPlaced(rooms)
    && Interior(stairs.x, stairs.y)
    && forall y, x | 0 <= y < MAP_HEIGHT && 0 <= x < MAP_WIDTH ::
         tiles[y][x] == if x == stairs.x && y == stairs.y then STAIRS
                        else if Dug(rooms, |rooms|, x, y) then FLOOR else WALL
  }

  /** `entities.some(e => e.pos.x === p.x && e.pos.y === p.y)` */
  predicate Occupied(entities: seq<Entity>, p: Position) {
    exists i | 0 <= i < |entities| :: entities[i].pos == p
  }

  /** `entities.findIndex(e => e.pos.x === p.x && e.pos.y === p.y)`: the
      first entity standing on `p`, or -1 when there is none. */
  function EntityIndex(entities: seq<Entity>, p: Position): (k: int)
    ensures -1 <= k < |entities|
    ensures 0 <= k ==> entities[k].pos == p && forall j | 0 <= j < k :: entities[j].pos != p
    ensures k == -1 <==> !Occupied(entities, p)
    decreases |entities|
  {
    if |entities| == 0 then -1
    else if entities[0].pos == p then 0
    else
      var k := EntityIndex(entities[1..], p);
      assert forall j | 1 <= j < |entities| :: entities[j] == entities[1..][j - 1];
      if k == -1 then -1 else k + 1
  }

  /** A cell the empty-position searches accept: on the map, walkable, not the
      stairs, and without an entity. */
  predicate EmptyCell(tiles: seq<seq<Tile>>, entities: seq<Entity>, x: int, y: int)
    requires IsGrid(tiles)
  {
    InBounds(x, y) && tiles[y][x].walkable && !tiles[y][x].isStairs && !Occupied(entities, Position(x, y))
  }

  /** Chebyshev distance from the map centre (40, 20): the ring the central search is on. */
  function Ring(x: int, y: int): nat {
    Max(Abs(x - MAP_WIDTH / 2), Abs(y - MAP_HEIGHT / 2))
  }

  /** `p` comes no later than (x, y) in the central search's order: by ring, then row, then column. */
  predicate ScanFirst(p: Position, x: int, y: int) {
    Ring(p.x, p.y) < Ring(x, y) ||
    (Ring(p.x, p.y) == Ring(x, y) && (p.y < y || (p.y == y && p.x <= x)))
  }

  /** What the central search returns: an empty cell that comes no later in its
      order than any other empty cell, or, when there is none, the fallback (1, 1). */
  predicate CentralPick(tiles: seq<seq<Tile>>, entities: seq<Entity>, p: Position)
    requires IsGrid(tiles)
  {
    && (p == Position(1, 1) || EmptyCell(tiles, entities, p.x, p.y))
    && forall y, x | 0 <= y < MAP_HEIGHT && 0 <= x < MAP_WIDTH && EmptyCell(tiles, entities, x, y) ::
         EmptyCell(tiles, entities, p.x, p.y) && ScanFirst(p, x, y)
  }

  /** Where a newcomer may be put: an empty cell or the fallback (1, 1), and,
      with `openSpawn`, a cell with an open neighbour unless it is the
      central search's pick. */
  predicate SpawnCell(tiles: seq<seq<Tile>>, entities: seq<Entity>, p: Position, openSpawn: bool)
    requires IsGrid(tiles)
  {
    && (p == Position(1, 1) || EmptyCell(tiles, entities, p.x, p.y))
    && (openSpawn ==> OpenCount(tiles, p, NEIGHBOURS) > 0 || CentralPick(tiles, entities, p))
  }

  /** `Math.floor(def.hp * (1 + (depth - 1) * 0.3))`, with the factor taken
      exactly: where the double product falls just below an integer (the
      Dragon at depth 10, for one), the source's hp is one less. */
  function ScaledHp(hp: int, depth: int): int {
    hp * (10 + 3 * (depth - 1)) / 10
  }

  predicate SpawnedEnemy(e: Entity, depth: int) {
    e.Enemy? && e.hp == e.maxHp &&
    exists k | 0 <= k < |DEFAULT_ENEMIES| ::
      e.name == DEFAULT_ENEMIES[k].name && e.hp == ScaledHp(DEFAULT_ENEMIES[k].hp, depth)
  }

  predicate SpawnedItem(e: Entity) {
    e.Item? && e.name in DEFAULT_ITEMS
  }

  /** The relative order of the eight neighbours in `countOpenNeighbors`. */
  const NEIGHBOURS: seq<(int, int)> := [(-1, 0), (1, 0), (0, -1), (0, 1), (-1, -1), (-1, 1), (1, -1), (1, 1)]

  /** 1 when the neighbour of `p` in direction `d` is on the map and walkable. */
  function OpenIn(tiles: seq<seq<Tile>>, p: Position, d: (int, int)): int
    requires IsGrid(tiles)
  {
    var nx, ny := p.x + d.0, p.y + d.1;
    if InBounds(nx, ny) && tiles[ny][nx].walkable then 1 else 0
  }

  /** How many of the directions `dirs` lead from `p` to a walkable cell. */
  function OpenCount(tiles: seq<seq<Tile>>, p: Position, dirs: seq<(int, int)>): (n: int)
    requires IsGrid(tiles)
    ensures 0 <= n <= |dirs|
    decreases |dirs|
  {
    if dirs == [] then 0 else OpenCount(tiles, p, dirs[..|dirs| - 1]) + OpenIn(tiles, p, dirs[|dirs| - 1])
  }

  lemma {:induction false} RoomCellsInterior(rooms: seq<Room>, x: int, y: int)
    requires forall i | 0 <= i < |rooms| :: RoomShape(rooms[i])
    requires InSomeRoom(rooms, x, y)
    ensures Interior(x, y)
    decreases |rooms|
  {
    var n := |rooms|;
    if !InRoom(rooms[n - 1], x, y) {
      RoomCellsInterior(rooms[..n - 1], x, y);
    }
  }

  lemma {:induction false} CorridorCellsInterior(rooms: seq<Room>, n: nat, x: int, y: int)
    requires n <= |rooms| && forall i | 0 <= i < |rooms| :: RoomShape(rooms[i])
    requires OnSomeCorridor(rooms, n, x, y)
    ensures Interior(x, y)
    decreases n
  {
    if OnSomeCorridor(rooms, n - 1, x, y) {
      CorridorCellsInterior(rooms, n - 1, x, y);
    } else {
      assert RoomShape(rooms[n - 2]) && RoomShape(rooms[n - 1]);
    }
  }

  /** Every carved cell lies in columns 1..77 and rows 1..37. */
  lemma DugIsInterior(rooms: seq<Room>, x: int, y: int)
    requires RoomsPlaced(rooms) && Dug(rooms, |rooms|, x, y)
    ensures Interior(x, y)
  {
    if InSomeRoom(rooms, x, y) {
      RoomCellsInterior(rooms, x, y);
    } else {
      CorridorCellsInterior(rooms, |rooms|, x, y);
    }
  }

  /** The map border (row 0, column 0, and the last rows and columns) stays wall. */
  lemma BorderIsWall(tiles: seq<seq<Tile>>, rooms: seq<Room>, stairs: Position, x: int, y: int)
    requires Layout(tiles, rooms, stairs) && InBounds(x, y) && !Interior(x, y)
    ensures tiles[y][x] == WALL && !tiles[y][x].walkable
  {
    if Dug(rooms, |rooms|, x, y) {
      DugIsInterior(rooms, x, y);
    }
  }

  /** Exactly one tile is the stairs, and every walkable tile other than it is
      floor carved for a room or a corridor. */
  lemma StairsTileUnique(tiles: seq<seq<Tile>>, rooms: seq<Room>, stairs: Position, x: int, y: int)
    requires Layout(tiles, rooms, stairs) && InBounds(x, y)
    ensures tiles[y][x].isStairs <==> Position(x, y) == stairs
    ensures tiles[y][x].walkable && Position(x, y) != stairs ==> Dug(rooms, |rooms|, x, y)
  {
  }

  lemma {:induction false} RoomInSomeRoom(rooms: seq<Room>, j: nat, x: int, y: int)
    requires j < |rooms| && InRoom(rooms[j], x, y)
    ensures InSomeRoom(rooms, x, y)
    decreases |rooms|
  {
    var n := |rooms|;
    if j < n - 1 {
      assert rooms[..n - 1][j] == rooms[j];
      RoomInSomeRoom(rooms[..n - 1], j, x, y);
    }
  }

  lemma {:induction false} CorridorInSome(rooms: seq<Room>, n: nat, j: nat, x: int, y: int)
    requires 1 <= j < n <= |rooms|
    requires OnCorridor(Centre(rooms[j - 1]), Centre(rooms[j]), x, y)
    ensures OnSomeCorridor(rooms, n, x, y)
    decreases n
  {
    if j < n - 1 {
      CorridorInSome(rooms, n - 1, j, x, y);
    }
  }

  /** Rooms placed one after the other are joined: every cell of the L-shaped
      path between their centres, both ends included, is walkable. */
  lemma ConsecutiveRoomsJoined(tiles: seq<seq<Tile>>, rooms: seq<Room>, stairs: Position, j: nat, x: int, y: int)
    requires Layout(tiles, rooms, stairs) && 1 <= j < |rooms|
    requires OnLPath(Centre(rooms[j - 1]), Centre(rooms[j]), x, y)
    ensures InBounds(x, y) && tiles[y][x].walkable
  {
    var a, b := Centre(rooms[j - 1]), Centre(rooms[j]);
    assert RoomShape(rooms[j - 1]) && RoomShape(rooms[j]);
    if x == b.x && y == b.y {
      RoomInSomeRoom(rooms, j, x, y);
    } else {
      CorridorInSome(rooms, |rooms|, j, x, y);
    }
  }

  /** Rooms by rejection sampling, then an L-shaped corridor between the
      centres of each pair of consecutively placed rooms. */
  method GenerateRoomBasedMap() returns (tiles: seq<seq<Tile>>, ghost rooms: seq<Room>)
    ensures RoomsPlaced(rooms) && |rooms| >= 1
    ensures IsGrid(tiles)
    ensures forall y, x | 0 <= y < MAP_HEIGHT && 0 <= x < MAP_WIDTH ::
              tiles[y][x] == if Dug(rooms, |rooms|, x, y) then FLOOR else WALL
  {
    tiles := Filled(WALL);
    var placed: seq<Room> := [];
    var numRooms :| 8 <= numRooms <= 13;

    var i := 0;
    while i < numRooms * 3
      invariant 0 <= i <= numRooms * 3
      invariant |placed| <= numRooms && (i > 0 ==> |placed| >= 1)
      invariant RoomsPlaced(placed)
      invariant IsGrid(tiles)
      invariant forall y, x | 0 <= y < MAP_HEIGHT && 0 <= x < MAP_WIDTH ::
                  tiles[y][x] == if InSomeRoom(placed, x, y) then FLOOR else WALL
    {
      if |placed| >= numRooms {
        break;
      }
      var w :| 5 <= w <= 12;
      var h :| 4 <= h <= 9;
      var x :| 1 <= x <= MAP_WIDTH - w - 2;
      var y :| 1 <= y <= MAP_HEIGHT - h - 2;
      var room := Room(x, y, w, h);
      if !Collides(placed, room) {
        tiles := CarveRoom(tiles, placed, room);
        placed := placed + [room];
      }
      i := i + 1;
    }

    var k := 1;
    while k < |placed|
      invariant 1 <= k <= |placed|
      invariant IsGrid(tiles)
      invariant forall y, x | 0 <= y < MAP_HEIGHT && 0 <= x < MAP_WIDTH ::
                  tiles[y][x] == if Dug(placed, k, x, y) then FLOOR else WALL
    {
      tiles := CarveCorridor(tiles, placed, k);
      k := k + 1;
    }
    rooms := placed;
  }

  /** The nested loops writing floor over the accepted room `room`. */
  method CarveRoom(grid: seq<seq<Tile>>, placed: seq<Room>, room: Room) returns (tiles: seq<seq<Tile>>)
    requires RoomShape(room) && IsGrid(grid)
    requires forall y, x | 0 <= y < MAP_HEIGHT && 0 <= x < MAP_WIDTH ::
               grid[y][x] == if InSomeRoom(placed, x, y) then FLOOR else WALL
    ensures IsGrid(tiles)
    ensures forall y, x | 0 <= y < MAP_HEIGHT && 0 <= x < MAP_WIDTH ::
              tiles[y][x] == if InSomeRoom(placed + [room], x, y) then FLOOR else WALL
  {
    tiles := grid;
    var ry := room.y;
    while ry < room.y + room.h
      invariant room.y <= ry <= room.y + room.h
      invariant IsGrid(tiles)
      invariant forall y, x | 0 <= y < MAP_HEIGHT && 0 <= x < MAP_WIDTH ::
                  tiles[y][x] == if InSomeRoom(placed, x, y) || (room.y <= y < ry && room.x <= x < room.x + room.w)
                                 then FLOOR else WALL
    {
      var rx := room.x;
      while rx < room.x + room.w
        invariant room.x <= rx <= room.x + room.w
        invariant IsGrid(tiles)
        invariant forall y, x | 0 <= y < MAP_HEIGHT && 0 <= x < MAP_WIDTH ::
                    tiles[y][x] == if InSomeRoom(placed, x, y) || (room.y <= y < ry && room.x <= x < room.x + room.w)
                                      || (y == ry && room.x <= x < rx)
                                   then FLOOR else WALL
      {
        tiles := SetCell(tiles, rx, ry, FLOOR);
        rx := rx + 1;
      }
      ry := ry + 1;
    }
    assert (placed + [room])[..|placed|] == placed;
  }

  /** The two corridor loops joining the centres of rooms k-1 and k. */
  method CarveCorridor(grid: seq<seq<Tile>>, placed: seq<Room>, k: nat) returns (tiles: seq<seq<Tile>>)
    requires 1 <= k < |placed| && RoomsPlaced(placed) && IsGrid(grid)
    requires forall y, x | 0 <= y < MAP_HEIGHT && 0 <= x < MAP_WIDTH ::
               grid[y][x] == if Dug(placed, k, x, y) then FLOOR else WALL
    ensures IsGrid(tiles)
    ensures forall y, x | 0 <= y < MAP_HEIGHT && 0 <= x < MAP_WIDTH ::
              tiles[y][x] == if Dug(placed, k + 1, x, y) then FLOOR else WALL
  {
    tiles := grid;
    var a, b := Centre(placed[k - 1]), Centre(placed[k]);
    assert RoomShape(placed[k - 1]) && RoomShape(placed[k]);
    var cx, cy := a.x, a.y;
    while cx != b.x
      invariant Between(cx, a.x, b.x) && cy == a.y
      invariant IsGrid(tiles)
      invariant forall y, x | 0 <= y < MAP_HEIGHT && 0 <= x < MAP_WIDTH ::
                  tiles[y][x] == if Dug(placed, k, x, y) || (y == a.y && Between(x, a.x, cx) && x != cx)
                                 then FLOOR else WALL
      decreases Abs(b.x - cx)
    {
      ghost var before := tiles;
      assert InBounds(cx, cy);
      if cy >= 0 && cy < MAP_HEIGHT && cx >= 0 && cx < MAP_WIDTH {
        tiles := SetCell(tiles, cx, cy, FLOOR);
        if cy > 0 {
          tiles := SetCell(tiles, cx, cy, FLOOR);
        }
      }
      assert forall y, x | 0 <= y < MAP_HEIGHT && 0 <= x < MAP_WIDTH ::
               tiles[y][x] == if y == cy && x == cx then FLOOR else before[y][x];
      ghost var prev := cx;
      cx := cx + if cx < b.x then 1 else -1;
      assert forall x :: Between(x, a.x, cx) && x != cx <==> (Between(x, a.x, prev) && x != prev) || x == prev;
    }
    while cy != b.y
      invariant Between(cy, a.y, b.y) && cx == b.x
      invariant IsGrid(tiles)
      invariant forall y, x | 0 <= y < MAP_HEIGHT && 0 <= x < MAP_WIDTH ::
                  tiles[y][x] == if Dug(placed, k, x, y) || OnCorridor(a, Position(b.x, cy), x, y)
                                 then FLOOR else WALL
      decreases Abs(b.y - cy)
    {
      if cy >= 0 && cy < MAP_HEIGHT && cx >= 0 && cx < MAP_WIDTH {
        tiles := SetCell(tiles, cx, cy, FLOOR);
      }
      cy := cy + if cy < b.y then 1 else -1;
    }
  }

  /** Up to 10000 random cells; the first empty one, or the fixed corner (1, 1). */
  method RandomEmptyPos(tiles: seq<seq<Tile>>, entities: seq<Entity>) returns (p: Position)
    requires IsGrid(tiles)
    ensures p == Position(1, 1) || EmptyCell(tiles, entities, p.x, p.y)
  {
    var attempts := 0;
    while attempts < MAX_ATTEMPTS
      invariant 0 <= attempts <= MAX_ATTEMPTS
    {
      var x :| 0 <= x < MAP_WIDTH;
      var y :| 0 <= y < MAP_HEIGHT;
      if tiles[y][x].walkable && !tiles[y][x].isStairs {
        var occupied := Occupied(entities, Position(x, y));
        if !occupied {
          return Position(x, y);
        }
      }
      attempts := attempts + 1;
    }
    return Position(1, 1);
  }

  /** The stairs tile on a random empty cell of the generated map, for the
      stairs entity to go on. */
  method PlaceStairs(generated: seq<seq<Tile>>, entities: seq<Entity>) returns (tiles: seq<seq<Tile>>, pos: Position)
    requires IsGrid(generated)
    ensures pos == Position(1, 1) || EmptyCell(generated, entities, pos.x, pos.y)
    ensures OnMap(pos) && tiles == SetCell(generated, pos.x, pos.y, STAIRS)
  {
    pos := RandomEmptyPos(generated, entities);
    tiles := SetCell(generated, pos.x, pos.y, STAIRS);
  }

  /** A level's population: every entity on the map. */
  predicate EntitiesOnMap(entities: seq<Entity>) {
    forall i | 0 <= i < |entities| :: OnMap(entities[i].pos)
  }

  /** A dungeon level. Its map is written only while the level is built, so
      the model computes it before the object exists and keeps it constant;
      the entity list changes as players fight and pick things up. */
  class DungeonLevel {
    const tiles: seq<seq<Tile>>
    var entities: seq<Entity>
    const depth: int
    /** The rooms generation accepted, in placement order (a local of the source). */
    ghost const rooms: seq<Room>
    /** Where the stairs tile was put. */
    ghost const stairs: Position

    /** The map is a full grid laid out from the accepted rooms and the stairs. */
    ghost predicate Generated() {
      IsGrid(tiles) && Layout(tiles, rooms, stairs)
    }

    ghost predicate Valid()
      reads this
    {
      Generated() && EntitiesOnMap(entities)
    }

    /** Generation: rooms and corridors, then the stairs, then the population:
        the stairs entity first, then 10 + 3 * depth enemies, then 12 + 2 * depth items. */
    constructor (depth: int)
      ensures Valid() && this.depth == depth
      ensures |entities| == 1 + Max(0, 10 + 3 * depth) + Max(0, 12 + 2 * depth)
      ensures entities[0] == StairsDown(stairs)
      ensures forall i | 1 <= i <= Max(0, 10 + 3 * depth) :: SpawnedEnemy(entities[i], depth)
      ensures forall i | 1 + Max(0, 10 + 3 * depth) <= i < |entities| :: SpawnedItem(entities[i])
      ensures forall i | 1 <= i < |entities| ::
                entities[i].pos == Position(1, 1) ||
                EmptyCell(tiles, entities[..i], entities[i].pos.x, entities[i].pos.y)
    {
      var generated, placed := GenerateRoomBasedMap();
      var withStairs, pos := PlaceStairs(generated, []);
      if pos != Position(1, 1) {
        DugIsInterior(placed, pos.x, pos.y);
      }
      this.depth := depth;
      tiles := withStairs;
      rooms := placed;
      stairs := pos;
      entities := [StairsDown(pos)];
      new;
      SpawnEntities(depth);
    }

    /** 10 + 3 * depth enemies with depth-scaled hp, then 12 + 2 * depth items,
        each on a random empty cell that no entity placed before it holds. */
    method SpawnEntities(depth: int)
      requires IsGrid(tiles) && EntitiesOnMap(entities)
      modifies this`entities
      ensures |entities| == |old(entities)| + Max(0, 10 + 3 * depth) + Max(0, 12 + 2 * depth)
      ensures entities[..|old(entities)|] == old(entities)
      ensures EntitiesOnMap(entities)
      ensures forall i | |old(entities)| <= i < |old(entities)| + Max(0, 10 + 3 * depth) ::
                SpawnedEnemy(entities[i], depth)
      ensures forall i | |old(entities)| + Max(0, 10 + 3 * depth) <= i < |entities| ::
                SpawnedItem(entities[i])
      ensures forall i | |old(entities)| <= i < |entities| ::
                entities[i].pos == Position(1, 1) ||
                EmptyCell(tiles, entities[..i], entities[i].pos.x, entities[i].pos.y)
    {
      SpawnEnemies(depth);
      ghost var mid := entities;
      SpawnItems(depth);
      assert forall j | 0 <= j <= |mid| :: entities[..j] == mid[..j];
    }

    /** The first loop of `spawnEntities`: `10 + depth * 3` enemies, each of
        a random kind with its hp scaled to the depth, on random empty cells. */
    method SpawnEnemies(depth: int)
      requires IsGrid(tiles) && EntitiesOnMap(entities)
      modifies this`entities
      ensures |entities| == |old(entities)| + Max(0, 10 + 3 * depth)
      ensures entities[..|old(entities)|] == old(entities)
      ensures EntitiesOnMap(entities)
      ensures forall i | |old(entities)| <= i < |entities| :: SpawnedEnemy(entities[i], depth)
      ensures forall i | |old(entities)| <= i < |entities| ::
                entities[i].pos == Position(1, 1) ||
                EmptyCell(tiles, entities[..i], entities[i].pos.x, entities[i].pos.y)
    {
      var enemyCount := 10 + depth * 3;
      var start := |entities|;
      for i := 0 to Max(0, enemyCount)
        invariant |entities| == start + i
        invariant entities[..start] == old(entities)
        invariant EntitiesOnMap(entities)
        invariant forall j | start <= j < |entities| :: SpawnedEnemy(entities[j], depth)
        invariant forall j | start <= j < |entities| ::
                    entities[j].pos == Position(1, 1) ||
                    EmptyCell(tiles, entities[..j], entities[j].pos.x, entities[j].pos.y)
      {
        var k :| 0 <= k < |DEFAULT_ENEMIES|;
        var def := DEFAULT_ENEMIES[k];
        var scaledHp := ScaledHp(def.hp, depth);
        var pos := GetRandomEmptyPos();
        var before := entities;
        entities := entities + [Enemy(pos, def.name, scaledHp, scaledHp)];
        assert entities[..|before|] == before;
        assert forall j | 0 <= j <= |before| :: entities[..j] == before[..j];
      }
    }

    /** The second loop of `spawnEntities`: `12 + depth * 2` items, each of a
        random kind, on random empty cells. */
    method SpawnItems(depth: int)
      requires IsGrid(tiles) && EntitiesOnMap(entities)
      modifies this`entities
      ensures |entities| == |old(entities)| + Max(0, 12 + 2 * depth)
      ensures entities[..|old(entities)|] == old(entities)
      ensures EntitiesOnMap(entities)
      ensures forall i | |old(entities)| <= i < |entities| :: SpawnedItem(entities[i])
      ensures forall i | |old(entities)| <= i < |entities| ::
                entities[i].pos == Position(1, 1) ||
                EmptyCell(tiles, entities[..i], entities[i].pos.x, entities[i].pos.y)
    {
      var itemCount := 12 + depth * 2;
      var start := |entities|;
      for i := 0 to Max(0, itemCount)
        invariant |entities| == start + i
        invariant entities[..start] == old(entities)
        invariant EntitiesOnMap(entities)
        invariant forall j | start <= j < |entities| :: SpawnedItem(entities[j])
        invariant forall j | start <= j < |entities| ::
                    entities[j].pos == Position(1, 1) ||
                    EmptyCell(tiles, entities[..j], entities[j].pos.x, entities[j].pos.y)
      {
        var k :| 0 <= k < |DEFAULT_ITEMS|;
        var pos := GetRandomEmptyPos();
        var before := entities;
        entities := entities + [Item(pos, DEFAULT_ITEMS[k])];
        assert entities[..|before|] == before;
        assert forall j | 0 <= j <= |before| :: entities[..j] == before[..j];
      }
    }

    /** `getRandomEmptyPos` on this level's map and entities. */
    method GetRandomEmptyPos() returns (p: Position)
      requires IsGrid(tiles)
      ensures p == Position(1, 1) || EmptyCell(tiles, entities, p.x, p.y)
    {
      p := RandomEmptyPos(tiles, entities);
    }

    /** The spawn cell of a new player: the most open of 200 random empty
        cells for a bot, one random empty cell otherwise. */
    method SpawnPos(useOpenSpawn: bool) returns (p: Position)
      requires IsGrid(tiles)
      ensures SpawnCell(tiles, entities, p, useOpenSpawn)
    {
      if useOpenSpawn {
        p := GetOpenEmptyPos();
      } else {
        p := GetRandomEmptyPos();
      }
    }

    /** Rings of growing Chebyshev radius around the map centre, each scanned row
        by row: the first empty cell in that order, or the random search's result
        when no cell is empty. */
    method GetCentralEmptyPos() returns (p: Position)
      requires IsGrid(tiles)
      ensures CentralPick(tiles, entities, p)
    {
      var cx, cy := MAP_WIDTH / 2, MAP_HEIGHT / 2;
      for radius := 0 to Max(MAP_WIDTH, MAP_HEIGHT)
        invariant forall y, x | 0 <= y < MAP_HEIGHT && 0 <= x < MAP_WIDTH && Ring(x, y) < radius ::
                    !EmptyCell(tiles, entities, x, y)
      {
        for dy := -radius to radius + 1
          invariant forall y, x | 0 <= y < MAP_HEIGHT && 0 <= x < MAP_WIDTH && Ring(x, y) < radius ::
                      !EmptyCell(tiles, entities, x, y)
          invariant forall y, x | 0 <= y < MAP_HEIGHT && 0 <= x < MAP_WIDTH && Ring(x, y) == radius && y < cy + dy ::
                      !EmptyCell(tiles, entities, x, y)
        {
          for dx := -radius to radius + 1
            invariant forall y, x | 0 <= y < MAP_HEIGHT && 0 <= x < MAP_WIDTH && Ring(x, y) < radius ::
                        !EmptyCell(tiles, entities, x, y)
            invariant forall y, x | 0 <= y < MAP_HEIGHT && 0 <= x < MAP_WIDTH && Ring(x, y) == radius &&
                                    (y < cy + dy || (y == cy + dy && x < cx + dx)) ::
                        !EmptyCell(tiles, entities, x, y)
          {
            if Abs(dx) != radius && Abs(dy) != radius {
              continue;
            }
            var x, y := cx + dx, cy + dy;
            if x >= 0 && x < MAP_WIDTH && y >= 0 && y < MAP_HEIGHT {
              if tiles[y][x].walkable && !tiles[y][x].isStairs {
                var occupied := Occupied(entities, Position(x, y));
                if !occupied {
                  return Position(x, y);
                }
              }
            }
          }
        }
      }
      p := GetRandomEmptyPos();
    }

    /** `countOpenNeighbors`: walkable cells among the eight neighbours of `pos`. */
    method CountOpenNeighbors(pos: Position) returns (count: int)
      requires IsGrid(tiles)
      ensures count == OpenCount(tiles, pos, NEIGHBOURS)
      ensures 0 <= count <= 8
    {
      count := 0;
      for i := 0 to |NEIGHBOURS|
        invariant count == OpenCount(tiles, pos, NEIGHBOURS[..i])
      {
        var (dx, dy) := NEIGHBOURS[i];
        var nx, ny := pos.x + dx, pos.y + dy;
        if nx >= 0 && nx < MAP_WIDTH && ny >= 0 && ny < MAP_HEIGHT && tiles[ny][nx].walkable {
          count := count + 1;
        }
        assert NEIGHBOURS[..i + 1][..i] == NEIGHBOURS[..i];
      }
      assert NEIGHBOURS[..|NEIGHBOURS|] == NEIGHBOURS;
    }

    /** Up to 200 random empty cells, keeping the one with the most open
        neighbours (early exit at 6 or more); the central search when none of
        them had an open neighbour. */
    method GetOpenEmptyPos() returns (p: Position)
      requires IsGrid(tiles)
      ensures p == Position(1, 1) || EmptyCell(tiles, entities, p.x, p.y)
      ensures OpenCount(tiles, p, NEIGHBOURS) > 0 || CentralPick(tiles, entities, p)
    {
      var best: Option<Position> := None;
      var bestOpen := 0;
      for i := 0 to 200
        invariant best.Some? ==> best.value == Position(1, 1) || EmptyCell(tiles, entities, best.value.x, best.value.y)
        invariant best.Some? ==> bestOpen == OpenCount(tiles, best.value, NEIGHBOURS) && bestOpen > 0
        invariant best.None? ==> bestOpen == 0
      {
        var pos := GetRandomEmptyPos();
        var open := CountOpenNeighbors(pos);
        if open > bestOpen {
          bestOpen := open;
          best := Some(pos);
        }
        if open >= 6 {
          return pos;
        }
      }
      if best.Some? {
        return best.value;
      }
      p := GetCentralEmptyPos();
    }
  }
}
