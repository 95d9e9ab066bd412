/** Shared vocabulary of the dungeon server (server/game.ts:3-91): the grid
    size, positions, tiles, entities, player records and the message tokens
    that the world appends to each player's log. */
module Types {

  const MAP_WIDTH: int := 80
  const MAP_HEIGHT: int := 40
  const FOV_RADIUS: int := 8

  datatype Option<T> = None | Some(value: T)

  datatype Position = Position(x: int, y: int)

  predicate InBounds(x: int, y: int) {
    0 <= x < MAP_WIDTH && 0 <= y < MAP_HEIGHT
  }

  predicate OnMap(p: Position) {
    InBounds(p.x, p.y)
  }

  /** A map cell; `isStairs` is the optional flag of the source, false when absent. */
  datatype Tile = Tile(ch: char, walkable: bool, isStairs: bool)

  const WALL: Tile := Tile('#', false, false)
  const FLOOR: Tile := Tile('.', true, false)
  const STAIRS: Tile := Tile('>', true, true)

  /** A MAP_HEIGHT x MAP_WIDTH grid, indexed [y][x] as the source indexes it. */
  predicate IsGrid<T>(g: seq<seq<T>>) {
    |g| == MAP_HEIGHT && forall y | 0 <= y < MAP_HEIGHT :: |g[y]| == MAP_WIDTH
  }

  /** A grid with every cell set to `v` (the `new Array(MAP_WIDTH).fill(v)` rows). */
  function Filled<T>(v: T): (g: seq<seq<T>>)
    ensures IsGrid(g)
    ensures forall y, x | 0 <= y < MAP_HEIGHT && 0 <= x < MAP_WIDTH :: g[y][x] == v
  {
    seq(MAP_HEIGHT, _ => seq(MAP_WIDTH, _ => v))
  }

  /** The grid after the assignment `g[y][x] = v`. */
  function SetCell<T>(g: seq<seq<T>>, x: int, y: int, v: T): (r: seq<seq<T>>)
    requires IsGrid(g) && InBounds(x, y)
    ensures IsGrid(r)
    ensures forall yy, xx | 0 <= yy < MAP_HEIGHT && 0 <= xx < MAP_WIDTH ::
              r[yy][xx] == if yy == y && xx == x then v else g[yy][xx]
  {
    g[y := g[y][x := v]]
  }

  /** Entity kinds as a tagged variant; display char, colour and id are left out. */
  datatype Entity =
    | Enemy(pos: Position, name: string, hp: int, maxHp: int)
    | Item(pos: Position, name: string)
    | StairsDown(pos: Position)

  type PlayerId = string

  datatype Stats = Stats(
    kills: nat,
    damageDealt: int,
    damageTaken: int,
    itemsCollected: nat,
    stepsWalked: nat,
    deepestDepth: int,
    killedBy: string)

  /** The stats record of a new or respawned player. */
  const FRESH_STATS: Stats := Stats(0, 0, 0, 0, 0, 1, "")

  const START_HP: int := 20

  datatype PlayerState = PlayerState(
    id: PlayerId,
    name: string,
    pos: Position,
    hp: int,
    maxHp: int,
    explored: seq<seq<bool>>,
    stats: Stats,
    dead: bool)

  /** Log entries as opaque tokens carrying the values the source formats into text. */
  datatype Msg =
    | Welcome | MoveHint | StairsHint
    | Awaken | NewJourney
    | Entered(who: string) | Left(who: string)
    | PassBy(who: string) | PassedBy(who: string)
    | Hit(foe: string, amount: int) | Killed(foe: string)
    | HitBy(foe: string, amount: int) | Slain(foe: string)
    | PickedUp(what: string) | Restored(amount: int)
    | DescendTo(depth: int) | Descended(who: string) | Arrived(who: string)

  /** No element occurs twice: the first is not among the rest, which are distinct. */
  predicate Distinct<T(==)>(s: seq<T>)
    decreases |s|
  {
    |s| == 0 || (s[0] !in s[1..] && Distinct(s[1..]))
  }

  /** Appending a value not yet present keeps the elements distinct. */
  lemma {:induction false} DistinctSnoc<T>(s: seq<T>, v: T)
    requires Distinct(s) && v !in s
    ensures Distinct(s + [v])
    decreases |s|
  {
    if |s| > 0 {
      assert (s + [v])[1..] == s[1..] + [v];
      assert forall x | x in s[1..] :: x in s;
      DistinctSnoc(s[1..], v);
    }
  }

  /** In distinct elements the last one is not among the others, which are distinct too. */
  lemma {:induction false} DistinctInit<T>(s: seq<T>)
    requires Distinct(s) && |s| > 0
    ensures s[|s| - 1] !in s[..|s| - 1] && Distinct(s[..|s| - 1])
    decreases |s|
  {
    if |s| > 1 {
      DistinctInit(s[1..]);
      assert s[1..][..|s| - 2] == s[1..|s| - 1];
      assert s[..|s| - 1] == [s[0]] + s[1..|s| - 1];
      assert s[..|s| - 1][1..] == s[1..|s| - 1];
    }
  }

  /** `Array.prototype.filter`: the elements satisfying `keep`, in their order. */
  function Where<T(==,!new)>(s: seq<T>, keep: T -> bool): (r: seq<T>)
    ensures |r| <= |s|
    ensures forall v :: v in r <==> v in s && keep(v)
    ensures Distinct(s) ==> Distinct(r)
    decreases |s|
  {
    if s == [] then []
    else
      var rest := Where(s[1..], keep);
      assert forall v :: v in s <==> v == s[0] || v in s[1..];
      if keep(s[0]) then [s[0]] + rest else rest
  }

  /** `s` without the occurrences of `v`: what `Map.prototype.delete` does to
      the insertion order of the keys. */
  function Without<T(==,!new)>(s: seq<T>, v: T): (r: seq<T>)
    ensures |r| <= |s|
    ensures forall u :: u in r <==> u in s && u != v
    ensures Distinct(s) ==> Distinct(r)
    decreases |s|
  {
    if s == [] then []
    else
      var rest := Without(s[1..], v);
      assert forall u :: u in s <==> u == s[0] || u in s[1..];
      if s[0] != v then [s[0]] + rest else rest
  }

  function Abs(n: int): nat {
    if n < 0 then -n else n
  }

  /** `Math.sign` on integers. */
  function Sign(n: int): (s: int)
    ensures s == -1 || s == 0 || s == 1
    ensures (s == 0 <==> n == 0) && (s < 0 <==> n < 0)
  {
    if n < 0 then -1 else if n > 0 then 1 else 0
  }

  function Min(a: int, b: int): int {
    if a < b then a else b
  }

  function Max(a: int, b: int): int {
    if a < b then b else a
  }
}
