/** The AI player (server/aiBot.ts): a bot that joins the world as an ordinary
    player and, once per tick, remembers where it stood, notices when it is
    stuck or pacing back and forth, picks a target by a fixed priority and
    steps toward it, acting on the world only through `movePlayer`.

    `Math.random()` draws are the fields of a `Draws` value, each a real in
    [0, 1) (plus the two combat draws `movePlayer` takes); a comparison
    `Math.random() < 0.3` becomes `d.stairs < 0.3`. The fractions of `maxHp`
    the source compares `hp` with are written in integer arithmetic. */
module Bot {
  import opened Types
  import opened Visibility
  import opened Dungeon
  import opened World
  import MessageLog

  /** The names a bot is given, one picked at random. */
  const AI_NAMES: seq<string> :=
    ["Gandalf_AI", "Conan_AI", "Elric_AI", "Bilbo_AI", "Aragorn_AI", "Merlin_AI", "Drizzt_AI", "Raistlin_AI"]

  /** How many positions the bot remembers. */
  const HISTORY: int := 12

  /** The eight directions of `escapeCorner`, in its order. */
  const DIRS: seq<(int, int)> := [(0, -1), (0, 1), (-1, 0), (1, 0), (-1, -1), (-1, 1), (1, -1), (1, 1)]

  /** The random draws of one tick: the 30% stairs coin, the 50% coin that
      orders a diagonal approach, the pick among walkable escape cells, and
      the two combat draws of the move. */
  datatype Draws = Draws(stairs: real, order: real, pick: real, hitRoll: int, backRoll: int)

  predicate Fair(d: Draws) {
    && 0.0 <= d.stairs < 1.0 && 0.0 <= d.order < 1.0 && 0.0 <= d.pick < 1.0
    && 0 <= d.hitRoll < 5 && 0 <= d.backRoll < 3
  }

  /** `Math.floor(draw * n)`: an index below `n`. */
  function Pick(draw: real, n: int): (i: int)
    requires 0.0 <= draw < 1.0 && n > 0
    ensures 0 <= i < n
  {
    var r := draw * n as real;
    assert r < n as real by { assert (1.0 - draw) * n as real > 0.0; }
    r.Floor
  }

  /** The bot's own state, as a value: the current target, the stuck counter,
      the last position and the recent positions, oldest first. */
  datatype Memory = Memory(target: Option<Position>, stuck: int, lastPos: Position, recent: seq<Position>)

  // ---------------------------------------------------------------- history

  /** The history after `recentPositions.push(p)` and, past HISTORY entries,
      one `shift()`. */
  function Remember(h: seq<Position>, p: Position): (r: seq<Position>)
    ensures |h| <= HISTORY ==> |r| == Min(|h| + 1, HISTORY)
    ensures |r| > 0 && r[|r| - 1] == p
    ensures |r| <= |h| + 1 && r == (h + [p])[|h| + 1 - |r|..]
  {
    var pushed := h + [p];
    if |pushed| > HISTORY then pushed[1..] else pushed
  }

  /** The cell is among the last four recorded positions (the test
      `recentPositions.slice(-4).some(...)`). */
  predicate InLastFour(h: seq<Position>, p: Position) {
    exists i | 0 <= i < |h| && |h| - 4 <= i :: h[i] == p
  }

  /** The distinct cells of `s` (the set of `"x,y"` keys of the source). */
  function VisitedCells(s: seq<Position>): set<Position> {
    set p | p in s
  }

  /** `recentPositions.slice(-8)`, for a history of at least 8 entries. */
  function LastEight(h: seq<Position>): seq<Position>
    requires |h| >= 8
  {
    h[|h| - 8..]
  }

  /** `detectOscillation`: at least 8 positions are recorded and the last 8
      cover at most 3 distinct cells. */
  function DetectOscillation(h: seq<Position>): bool {
    if |h| < 8 then false else |VisitedCells(LastEight(h))| <= 3
  }

  /** How often `p` occurs in `s`. */
  function Count(s: seq<Position>, p: Position): nat
    decreases |s|
  {
    if s == [] then 0 else (if s[0] == p then 1 else 0) + Count(s[1..], p)
  }

  /** Distinct positions are as many cells as entries. */
  lemma {:induction false} DistinctCells(s: seq<Position>)
    requires Distinct(s)
    ensures |VisitedCells(s)| == |s|
    decreases |s|
  {
    if s != [] {
      DistinctCells(s[1..]);
      assert VisitedCells(s) == {s[0]} + VisitedCells(s[1..]);
      assert s[0] !in VisitedCells(s[1..]);
    }
  }

  /** A bot whose last 8 positions are all different is not oscillating. */
  lemma FreshWalkNotOscillating(h: seq<Position>)
    requires |h| >= 8 && Distinct(LastEight(h))
    ensures !DetectOscillation(h)
  {
    DistinctCells(LastEight(h));
  }

  /** Removing every occurrence of `v` removes `Count(s, v)` entries and leaves
      the other counts alone. */
  lemma {:induction false} WithoutCount(s: seq<Position>, v: Position)
    ensures |Without(s, v)| + Count(s, v) == |s|
    ensures Count(Without(s, v), v) == 0
    ensures forall p | p != v :: Count(Without(s, v), p) == Count(s, p)
    decreases |s|
  {
    if s != [] {
      WithoutCount(s[1..], v);
      if s[0] != v {
        assert ([s[0]] + Without(s[1..], v))[1..] == Without(s[1..], v);
      }
    }
  }

  /** When no cell occurs more than twice, there are at least half as many
      cells as entries. */
  lemma {:induction false} Spread(s: seq<Position>)
    requires forall p :: Count(s, p) <= 2
    ensures |s| <= 2 * |VisitedCells(s)|
    decreases |s|
  {
    if s != [] {
      var v := s[0];
      var t := Without(s, v);
      WithoutCount(s, v);
      assert Count(s, v) >= 1;
      forall p
        ensures Count(t, p) <= 2
      {
        if p != v {
          assert Count(t, p) == Count(s, p);
        }
      }
      Spread(t);
      assert VisitedCells(t) == VisitedCells(s) - {v};
      assert v in VisitedCells(s);
    }
  }

  /** An oscillating bot has been on one cell at least three times among its
      last 8 positions. */
  lemma OscillationRevisits(h: seq<Position>)
    requires DetectOscillation(h)
    ensures |h| >= 8 && exists p :: Count(LastEight(h), p) >= 3
  {
    var last := LastEight(h);
    if forall p :: Count(last, p) <= 2 {
      Spread(last);
      assert false;
    }
  }

  // ------------------------------------------------------------ moveToward

  /** The cell one step from `p` in direction `m`. */
  function Shift(p: Position, m: (int, int)): Position {
    Position(p.x + m.0, p.y + m.1)
  }

  /** The step in direction `m` from `from` lands on the map on a walkable cell. */
  predicate Open(tiles: seq<seq<Tile>>, from: Position, m: (int, int))
    requires IsGrid(tiles)
  {
    Walkable(tiles, Shift(from, m))
  }

  /** The candidate steps of `moveToward` for the signs (`dx`, `dy`), not both
      zero, in the order tried; `xFirst` is the coin that orders a diagonal
      approach. */
  function Moves(dx: int, dy: int, xFirst: bool): seq<(int, int)> {
    if dx != 0 && dy != 0 then
      if xFirst then [(dx, 0), (0, dy), (dx, dy)] else [(0, dy), (dx, 0), (dx, dy)]
    else if dx != 0 then [(dx, 0), (dx, 1), (dx, -1), (0, 1), (0, -1)]
    else [(0, dy), (1, dy), (-1, dy), (1, 0), (-1, 0)]
  }

  /** A pass of `moveToward` takes the step `m`: it is open and, in the first
      pass (`firstPass`), it does not lead back onto one of the last four cells. */
  predicate Takes(tiles: seq<seq<Tile>>, from: Position, h: seq<Position>, firstPass: bool, m: (int, int))
    requires IsGrid(tiles)
  {
    Open(tiles, from, m) && !(firstPass && InLastFour(h, Shift(from, m)))
  }

  /** The index of the first candidate a pass takes, or -1. */
  function FirstTaken(tiles: seq<seq<Tile>>, from: Position, h: seq<Position>, firstPass: bool,
                      ms: seq<(int, int)>): (i: int)
    requires IsGrid(tiles)
    ensures -1 <= i < |ms|
    ensures 0 <= i ==> Takes(tiles, from, h, firstPass, ms[i]) &&
                       forall j | 0 <= j < i :: !Takes(tiles, from, h, firstPass, ms[j])
    ensures i == -1 ==> forall j | 0 <= j < |ms| :: !Takes(tiles, from, h, firstPass, ms[j])
    decreases |ms|
  {
    if ms == [] then -1
    else if Takes(tiles, from, h, firstPass, ms[0]) then 0
    else
      var k := FirstTaken(tiles, from, h, firstPass, ms[1..]);
      assert forall j | 1 <= j < |ms| :: ms[j] == ms[1..][j - 1];
      if k == -1 then -1 else k + 1
  }

  /** The index of a candidate taken after none before it is the first taken. */
  lemma FirstTakenAt(tiles: seq<seq<Tile>>, from: Position, h: seq<Position>, firstPass: bool,
                     ms: seq<(int, int)>, i: int)
    requires IsGrid(tiles) && 0 <= i <= |ms|
    requires forall j | 0 <= j < i :: !Takes(tiles, from, h, firstPass, ms[j])
    requires i < |ms| ==> Takes(tiles, from, h, firstPass, ms[i])
    ensures FirstTaken(tiles, from, h, firstPass, ms) == if i < |ms| then i else -1
  {
  }

  /** The step `moveToward` issues from `from` toward `to`, with history `h`
      and the ordering coin `order`: none when already there; else the first
      open candidate off the last four cells, else the first open one. (The
      source also accepts a recent cell when `moves.indexOf([mx, my])` is the
      last index, but `indexOf` compares a firstPass array by identity and never
      finds it.) */
  function TowardStep(tiles: seq<seq<Tile>>, from: Position, to: Position, h: seq<Position>,
                      order: real): Option<(int, int)>
    requires IsGrid(tiles)
  {
    var dx, dy := Sign(to.x - from.x), Sign(to.y - from.y);
    if dx == 0 && dy == 0 then None
    else
      var ms := Moves(dx, dy, order < 0.5);
      var i := FirstTaken(tiles, from, h, true, ms);
      if i >= 0 then Some(ms[i])
      else
        var j := FirstTaken(tiles, from, h, false, ms);
        if j >= 0 then Some(ms[j]) else None
  }

  /** What `moveToward` promises: no step when already at the target; a step
      exactly when some candidate is open; the step is an open candidate and
      one of the eight neighbours; and it leads back onto a recent cell only
      when every open candidate does. */
  lemma TowardStepChoice(tiles: seq<seq<Tile>>, from: Position, to: Position, h: seq<Position>, order: real)
    requires IsGrid(tiles)
    ensures var r := TowardStep(tiles, from, to, h, order);
            var ms := Moves(Sign(to.x - from.x), Sign(to.y - from.y), order < 0.5);
            && (from == to ==> r.None?)
            && (r.Some? <==> from != to && exists j | 0 <= j < |ms| :: Open(tiles, from, ms[j]))
            && (r.Some? ==> r.value in ms && r.value in DIRS && Open(tiles, from, r.value))
            && (r.Some? && InLastFour(h, Shift(from, r.value)) ==>
                  forall j | 0 <= j < |ms| && Open(tiles, from, ms[j]) :: InLastFour(h, Shift(from, ms[j])))
  {
    var r := TowardStep(tiles, from, to, h, order);
    var dx, dy := Sign(to.x - from.x), Sign(to.y - from.y);
    if dx != 0 || dy != 0 {
      var ms := Moves(dx, dy, order < 0.5);
      var i := FirstTaken(tiles, from, h, true, ms);
      var j := FirstTaken(tiles, from, h, false, ms);
      if i >= 0 {
        assert Open(tiles, from, ms[i]);
      } else if j >= 0 {
        assert Open(tiles, from, ms[j]);
      }
      assert forall k | 0 <= k < |ms| :: ms[k] in DIRS;
    }
  }

  // ----------------------------------------------------------- escapeCorner

  /** The openness `escapeCorner` gives cell `c`: its walkable neighbours, less
      3 when it is among the last four positions. */
  function Openness(tiles: seq<seq<Tile>>, h: seq<Position>, c: Position): int
    requires IsGrid(tiles)
  {
    OpenCount(tiles, c, DIRS) - (if InLastFour(h, c) then 3 else 0)
  }

  /** `bestDir` and `bestOpenness` after the loop of `escapeCorner` has looked
      at the directions `ds`: the first open direction whose cell is strictly
      more open than everything before it and than -1. */
  function Best(tiles: seq<seq<Tile>>, pos: Position, h: seq<Position>, ds: seq<(int, int)>): (r: (Option<(int, int)>, int))
    requires IsGrid(tiles)
    decreases |ds|
  {
    if ds == [] then (None, -1)
    else
      var before := Best(tiles, pos, h, ds[..|ds| - 1]);
      var d := ds[|ds| - 1];
      if Open(tiles, pos, d) && Openness(tiles, h, Shift(pos, d)) > before.1 then
        (Some(d), Openness(tiles, h, Shift(pos, d)))
      else
        before
  }

  /** One more direction of the loop of `escapeCorner`. */
  lemma BestNext(tiles: seq<seq<Tile>>, pos: Position, h: seq<Position>, i: int)
    requires IsGrid(tiles) && 0 <= i < |DIRS|
    ensures var before := Best(tiles, pos, h, DIRS[..i]);
            var c := Shift(pos, DIRS[i]);
            Best(tiles, pos, h, DIRS[..i + 1]) ==
              if Open(tiles, pos, DIRS[i]) && Openness(tiles, h, c) > before.1 then (Some(DIRS[i]), Openness(tiles, h, c))
              else before
  {
    assert DIRS[..i + 1][..i] == DIRS[..i];
  }

  /** The loop of `escapeCorner` keeps the most open direction seen: an open
      one, as open as every open direction, and the first of those; none only
      while no open direction beats -1. */
  lemma {:induction false} BestIsMostOpen(tiles: seq<seq<Tile>>, pos: Position, h: seq<Position>, ds: seq<(int, int)>)
    requires IsGrid(tiles)
    ensures var r := Best(tiles, pos, h, ds);
            && r.1 >= -1 && (r.0.None? ==> r.1 == -1)
            && (r.0.Some? ==> r.0.value in ds && Open(tiles, pos, r.0.value) &&
                              r.1 == Openness(tiles, h, Shift(pos, r.0.value)))
            && (forall j | 0 <= j < |ds| && Open(tiles, pos, ds[j]) :: Openness(tiles, h, Shift(pos, ds[j])) <= r.1)
            && (r.0.Some? ==> exists k | 0 <= k < |ds| :: ds[k] == r.0.value &&
                                forall j | 0 <= j < k && Open(tiles, pos, ds[j]) ::
                                  Openness(tiles, h, Shift(pos, ds[j])) < r.1)
    decreases |ds|
  {
    if ds != [] {
      var init := ds[..|ds| - 1];
      BestIsMostOpen(tiles, pos, h, init);
      assert forall j | 0 <= j < |init| :: init[j] == ds[j];
      var before := Best(tiles, pos, h, init);
      var d := ds[|ds| - 1];
      if Open(tiles, pos, d) && Openness(tiles, h, Shift(pos, d)) > before.1 {
        assert ds[|ds| - 1] == d;
      } else if before.0.Some? {
        var k :| 0 <= k < |init| && init[k] == before.0.value &&
                 forall j | 0 <= j < k && Open(tiles, pos, init[j]) :: Openness(tiles, h, Shift(pos, init[j])) < before.1;
        assert ds[k] == before.0.value;
      }
    }
  }

  /** The open directions among `ds`, in order (the `dirs.filter` of the fallback). */
  function OpenDirs(tiles: seq<seq<Tile>>, pos: Position, ds: seq<(int, int)>): (r: seq<(int, int)>)
    requires IsGrid(tiles)
    ensures forall m :: m in r <==> m in ds && Open(tiles, pos, m)
    decreases |ds|
  {
    if ds == [] then []
    else
      var rest := OpenDirs(tiles, pos, ds[1..]);
      assert forall m :: m in ds <==> m == ds[0] || m in ds[1..];
      if Open(tiles, pos, ds[0]) then [ds[0]] + rest else rest
  }

  /** The step `escapeCorner` issues from `pos` with history `h`: the most open
      direction when one beats -1, else a walkable one picked by `pick`. */
  function EscapeStep(tiles: seq<seq<Tile>>, pos: Position, h: seq<Position>, pick: real): Option<(int, int)>
    requires IsGrid(tiles) && 0.0 <= pick < 1.0
  {
    var best := Best(tiles, pos, h, DIRS);
    if best.0.Some? then best.0
    else
      var walkable := OpenDirs(tiles, pos, DIRS);
      if |walkable| > 0 then Some(walkable[Pick(pick, |walkable|)]) else None
  }

  /** What `escapeCorner` promises: it steps exactly when some neighbour is
      open, always onto an open neighbour; when a neighbour's openness beats
      -1 it takes the most open one, the first in direction order on a tie. */
  lemma EscapeStepChoice(tiles: seq<seq<Tile>>, pos: Position, h: seq<Position>, pick: real)
    requires IsGrid(tiles) && 0.0 <= pick < 1.0
    ensures var r := EscapeStep(tiles, pos, h, pick);
            && (r.Some? <==> exists j | 0 <= j < |DIRS| :: Open(tiles, pos, DIRS[j]))
            && (r.Some? ==> r.value in DIRS && Open(tiles, pos, r.value))
            && ((exists j | 0 <= j < |DIRS| :: Open(tiles, pos, DIRS[j]) && Openness(tiles, h, Shift(pos, DIRS[j])) > -1) ==>
                  r.Some? &&
                  forall j | 0 <= j < |DIRS| && Open(tiles, pos, DIRS[j]) ::
                    Openness(tiles, h, Shift(pos, DIRS[j])) <= Openness(tiles, h, Shift(pos, r.value)))
  {
    var best := Best(tiles, pos, h, DIRS);
    BestIsMostOpen(tiles, pos, h, DIRS);
    var walkable := OpenDirs(tiles, pos, DIRS);
    if best.0.None? && |walkable| > 0 {
      var i := Pick(pick, |walkable|);
      assert walkable[i] in walkable;
    }
    if exists j | 0 <= j < |DIRS| :: Open(tiles, pos, DIRS[j]) {
      var j :| 0 <= j < |DIRS| && Open(tiles, pos, DIRS[j]);
      assert DIRS[j] in walkable;
    }
  }

  // ------------------------------------------------- findUnexploredTarget

  /** Manhattan distance from `p` to (x, y). */
  function Dist(p: Position, x: int, y: int): int {
    Abs(x - p.x) + Abs(y - p.y)
  }

  /** A cell the exploration scan accepts: odd coordinates inside the border,
      not yet explored, walkable, and more than 2 steps away. */
  predicate Unexplored(p: PlayerState, tiles: seq<seq<Tile>>, x: int, y: int)
    requires IsGrid(tiles) && IsGrid(p.explored)
  {
    && 1 <= x < MAP_WIDTH - 1 && 1 <= y < MAP_HEIGHT - 1 && x % 2 == 1 && y % 2 == 1
    && !p.explored[y][x] && tiles[y][x].walkable && Dist(p.pos, x, y) > 2
  }

  /** `c` is no farther from `at` than (x, y), and on a tie comes first in row-major order. */
  predicate Nearest(at: Position, c: Position, x: int, y: int) {
    Dist(at, c.x, c.y) < Dist(at, x, y) ||
    (Dist(at, c.x, c.y) == Dist(at, x, y) && (c.y < y || (c.y == y && c.x <= x)))
  }

  /** What `findUnexploredTarget` returns: the nearest accepted cell, the first
      in scan order on a tie; the central search's cell when there is none. */
  ghost predicate ExploreTarget(p: PlayerState, tiles: seq<seq<Tile>>, entities: seq<Entity>, t: Position)
    requires IsGrid(tiles) && IsGrid(p.explored)
  {
    && (forall y, x | Unexplored(p, tiles, x, y) :: Unexplored(p, tiles, t.x, t.y) && Nearest(p.pos, t, x, y))
    && ((forall y, x | 0 <= y < MAP_HEIGHT && 0 <= x < MAP_WIDTH :: !Unexplored(p, tiles, x, y)) ==>
          CentralPick(tiles, entities, t))
  }

  // ------------------------------------------------------ target priority

  /** What the bot looks for among the entities it can see. */
  datatype Goal = Potion | Foe | Loot | Exit

  /** `visible[p.y][p.x]`, for a cell on the map. */
  predicate VisibleAt(visible: seq<seq<bool>>, p: Position)
    requires IsGrid(visible)
  {
    InBounds(p.x, p.y) && visible[p.y][p.x]
  }

  /** The tests of the `find` calls in `tick`, from the bot standing at `at`:
      a visible health potion; a visible enemy within 3 on both axes; a
      visible item within 5; the visible stairs. */
  predicate Wanted(e: Entity, g: Goal, visible: seq<seq<bool>>, at: Position)
    requires IsGrid(visible)
  {
    && VisibleAt(visible, e.pos)
    && match g
       case Potion => e.Item? && e.name == "Health Potion"
       case Foe => e.Enemy? && Abs(e.pos.x - at.x) <= 3 && Abs(e.pos.y - at.y) <= 3
       case Loot => e.Item? && Abs(e.pos.x - at.x) <= 5 && Abs(e.pos.y - at.y) <= 5
       case Exit => e.StairsDown?
  }

  /** `entities.find(...)` for the goal `g`: the first wanted entity. */
  function FirstWanted(es: seq<Entity>, g: Goal, visible: seq<seq<bool>>, at: Position): (r: Option<Entity>)
    requires IsGrid(visible)
    ensures r.Some? ==> exists i | 0 <= i < |es| :: es[i] == r.value && Wanted(es[i], g, visible, at) &&
                          forall j | 0 <= j < i :: !Wanted(es[j], g, visible, at)
    ensures r.None? <==> forall i | 0 <= i < |es| :: !Wanted(es[i], g, visible, at)
    decreases |es|
  {
    if es == [] then None
    else if Wanted(es[0], g, visible, at) then Some(es[0])
    else
      var r := FirstWanted(es[1..], g, visible, at);
      assert forall j | 1 <= j < |es| :: es[j] == es[1..][j - 1];
      r
  }

  /** `hp < maxHp * 0.3` */
  predicate Low(p: PlayerState) {
    p.hp * 10 < p.maxHp * 3
  }

  /** `hp > maxHp * 0.3` */
  predicate Hearty(p: PlayerState) {
    p.hp * 10 > p.maxHp * 3
  }

  /** Some entity of `es` is wanted for the goal `g`. */
  predicate AnyWanted(es: seq<Entity>, g: Goal, visible: seq<seq<bool>>, at: Position)
    requires IsGrid(visible)
  {
    exists i | 0 <= i < |es| :: Wanted(es[i], g, visible, at)
  }

  /** The target after the priority rules of `tick`, from the current target:
      none here means the bot goes exploring. A weak bot turns to the first
      visible potion, even away from its target; otherwise a bot without a
      target takes a nearby enemy when hearty, else a nearby item, else on the
      30% coin the stairs. */
  function Aim(target: Option<Position>, p: PlayerState, es: seq<Entity>, visible: seq<seq<bool>>,
               stairs: real): (r: Option<Position>)
    requires IsGrid(visible)
    ensures Low(p) && AnyWanted(es, Potion, visible, p.pos) ==>
              r == Some(FirstWanted(es, Potion, visible, p.pos).value.pos)
    ensures target.Some? && !(Low(p) && AnyWanted(es, Potion, visible, p.pos)) ==>
              r == target
    ensures target.None? && !(Low(p) && AnyWanted(es, Potion, visible, p.pos)) ==>
              if Hearty(p) && AnyWanted(es, Foe, visible, p.pos) then
                r == Some(FirstWanted(es, Foe, visible, p.pos).value.pos)
              else if AnyWanted(es, Loot, visible, p.pos) then
                r == Some(FirstWanted(es, Loot, visible, p.pos).value.pos)
              else if stairs < 0.3 && AnyWanted(es, Exit, visible, p.pos) then
                r == Some(FirstWanted(es, Exit, visible, p.pos).value.pos)
              else
                r.None?
    ensures r.Some? && r != target ==> exists i | 0 <= i < |es| :: es[i].pos == r.value && VisibleAt(visible, es[i].pos)
  {
    var potion := if Low(p) then FirstWanted(es, Potion, visible, p.pos) else None;
    var t := if potion.Some? then Some(potion.value.pos) else target;
    if t.Some? then t
    else
      var foe := FirstWanted(es, Foe, visible, p.pos);
      var loot := FirstWanted(es, Loot, visible, p.pos);
      var exit := FirstWanted(es, Exit, visible, p.pos);
      if foe.Some? && Hearty(p) then Some(foe.value.pos)
      else if loot.Some? then Some(loot.value.pos)
      else if exit.Some? && stairs < 0.3 then Some(exit.value.pos)
      else None
  }

  // ------------------------------------------------------------------ tick

  /** The memory after the first lines of `tick`: the position is pushed onto
      the history, and the stuck counter counts another tick on the same cell
      or restarts at 0. */
  function Recorded(m: Memory, pos: Position): Memory {
    Memory(m.target, if pos == m.lastPos then m.stuck + 1 else 0, pos, Remember(m.recent, pos))
  }

  /** The goals the priority rules of `tick` allow a bot with the recorded
      memory `m`, standing as `p0` on a level with `tiles` and `entities`:
      the target they give, or the exploration target when they give none. */
  ghost predicate GoalFor(m: Memory, p0: PlayerState, tiles: seq<seq<Tile>>, entities: seq<Entity>,
                          sight: Sight, d: Draws, goal: Position)
    requires IsGrid(tiles) && IsGrid(p0.explored)
  {
    var aim := Aim(m.target, p0, entities, Revealed(Filled(false), tiles, sight(p0.pos)), d.stairs);
    && (aim.Some? ==> goal == aim.value)
    && (aim.None? ==> ExploreTarget(p0, tiles, entities, goal))
  }

  /** The memory and the step of a tick before the move, from the recorded
      memory `m` at `pos`: stuck for a third tick, or oscillating, the bot
      drops its target and escapes; otherwise it keeps `goal` as its target and
      steps toward it, or drops it and escapes when no step leads there. */
  function Plan(m: Memory, tiles: seq<seq<Tile>>, pos: Position, d: Draws, goal: Position): (Memory, Option<(int, int)>)
    requires IsGrid(tiles) && Fair(d)
  {
    var escape := EscapeStep(tiles, pos, m.recent, d.pick);
    if m.stuck > 2 then (m.(target := None, stuck := 0), escape)
    else if DetectOscillation(m.recent) then (m.(target := None, recent := []), escape)
    else
      var toward := TowardStep(tiles, pos, goal, m.recent, d.order);
      if toward.Some? then (m.(target := Some(goal)), toward) else (m.(target := None), escape)
  }

  /** The last lines of `tick`: a bot standing on its target (at `after`, past
      the move) drops it. */
  function DropReached(m: Memory, after: Position): Memory {
    if m.target == Some(after) then m.(target := None) else m
  }

  /** The bot pursues a goal in this tick: neither stuck for a third tick nor
      oscillating. */
  predicate Pursuing(m: Memory) {
    m.stuck <= 2 && !DetectOscillation(m.recent)
  }

  /** One tick, from the memory `m0` to `m1`, of a bot whose player stood as
      `p0` on a level with `tiles` and `entities`: the position is recorded,
      the step is planned toward `goal` (one the priority rules allow, when the
      bot pursues one), issued, and the target is dropped once the bot stands
      on it (at `after`). `step` is the one move issued. */
  ghost predicate Ticked(m0: Memory, m1: Memory, p0: PlayerState, tiles: seq<seq<Tile>>, entities: seq<Entity>,
                         sight: Sight, d: Draws, goal: Position, after: Position, step: Option<(int, int)>)
    requires IsGrid(tiles) && IsGrid(p0.explored) && Fair(d)
  {
    var m := Recorded(m0, p0.pos);
    var plan := Plan(m, tiles, p0.pos, d, goal);
    && (Pursuing(m) ==> GoalFor(m, p0, tiles, entities, sight, d, goal))
    && step == plan.1
    && m1 == DropReached(plan.0, after)
  }

  /** The steps of a tick, one at a time, make up `Ticked`. */
  lemma TickedOf(m0: Memory, m: Memory, mid: Memory, m1: Memory, p0: PlayerState, tiles: seq<seq<Tile>>,
                 entities: seq<Entity>, sight: Sight, d: Draws, goal: Position, after: Position,
                 step: Option<(int, int)>)
    requires IsGrid(tiles) && IsGrid(p0.explored) && Fair(d)
    requires m == Recorded(m0, p0.pos)
    requires Pursuing(m) ==> GoalFor(m, p0, tiles, entities, sight, d, goal)
    requires (mid, step) == Plan(m, tiles, p0.pos, d, goal)
    requires m1 == DropReached(mid, after)
    ensures Ticked(m0, m1, p0, tiles, entities, sight, d, goal, after, step)
  {
  }

  /** A tick keeps the history within HISTORY entries and the stuck counter
      within 0..2, issues at most one move, always onto an open neighbouring
      cell, and keeps a target only when it stepped toward it and has not
      reached it. */
  lemma TickedBounds(m0: Memory, m1: Memory, p0: PlayerState, tiles: seq<seq<Tile>>, entities: seq<Entity>,
                     sight: Sight, d: Draws, goal: Position, after: Position, step: Option<(int, int)>)
    requires IsGrid(tiles) && IsGrid(p0.explored) && Fair(d)
    requires Ticked(m0, m1, p0, tiles, entities, sight, d, goal, after, step)
    requires |m0.recent| <= HISTORY && 0 <= m0.stuck
    ensures |m1.recent| <= HISTORY && 0 <= m1.stuck <= 2 && m1.lastPos == p0.pos
    ensures step.Some? ==> step.value in DIRS && Open(tiles, p0.pos, step.value)
    ensures m1.target.Some? ==> m1.target.value == goal && goal != after && step.Some?
  {
    var h := Remember(m0.recent, p0.pos);
    EscapeStepChoice(tiles, p0.pos, h, d.pick);
    TowardStepChoice(tiles, p0.pos, goal, h, d.order);
  }

  /** A tick that pursues a goal steps toward it whenever some candidate step
      of `moveToward` is open, and escapes only when none is. */
  lemma PursuitSteps(m0: Memory, m1: Memory, p0: PlayerState, tiles: seq<seq<Tile>>, entities: seq<Entity>,
                     sight: Sight, d: Draws, goal: Position, after: Position, step: Option<(int, int)>)
    requires IsGrid(tiles) && IsGrid(p0.explored) && Fair(d)
    requires Ticked(m0, m1, p0, tiles, entities, sight, d, goal, after, step)
    requires Pursuing(Recorded(m0, p0.pos)) && goal != p0.pos
    ensures var ms := Moves(Sign(goal.x - p0.pos.x), Sign(goal.y - p0.pos.y), d.order < 0.5);
            (exists j | 0 <= j < |ms| :: Open(tiles, p0.pos, ms[j])) ==> step.Some? && step.value in ms
  {
    TowardStepChoice(tiles, p0.pos, goal, Remember(m0.recent, p0.pos), d.order);
  }

  class AIBot {
    const id: PlayerId
    const name: string
    const world: GameWorld
    var target: Option<Position>
    var stuckCounter: int
    var lastPos: Position
    /** The last positions, oldest first. */
    var recentPositions: seq<Position>

    ghost predicate Valid()
      reads this, world
    {
      world.Valid() && |recentPositions| <= HISTORY && 0 <= stuckCounter <= 2
    }

    ghost function State(): Memory
      reads this
    {
      Memory(target, stuckCounter, lastPos, recentPositions)
    }

    /** The bot joins `world` as a player with the id `id` (made from the clock
        and a random number in the source) and a name picked by `nameDraw`,
        on an open cell of level 1. */
    constructor (world: GameWorld, id: PlayerId, nameDraw: real)
      requires world.Valid() && 0.0 <= nameDraw < 1.0
      modifies world`players, world`playerDepths, world`order, world`messageLog
      ensures Valid() && this.world == world && this.id == id
      ensures name == AI_NAMES[Pick(nameDraw, |AI_NAMES|)]
      ensures State() == Memory(None, 0, Position(-1, -1), [])
      ensures id in world.players && world.playerDepths[id] == 1
      // what `addPlayer(id, name, true)` does to the world
      ensures world.order == if id in old(world.order) then old(world.order) else old(world.order) + [id]
      ensures world.players == old(world.players)[id := world.players[id]]
      ensures world.playerDepths == old(world.playerDepths)[id := 1]
      ensures world.players[id] ==
                Seen(PlayerState(id, name, world.players[id].pos, START_HP, START_HP, Filled(false), FRESH_STATS, false),
                     world.levels[1].tiles, world.sight)
      ensures SpawnCell(world.levels[1].tiles, world.levels[1].entities, world.players[id].pos, true)
      ensures world.messageLog == MessageLog.Broadcast(old(world.messageLog)[id := [Welcome, MoveHint, StairsHint]],
                                                       world.playerDepths, world.order, 1, Entered(name), id)
    {
      this.world := world;
      this.id := id;
      name := AI_NAMES[Pick(nameDraw, |AI_NAMES|)];
      target := None;
      stuckCounter := 0;
      lastPos := Position(-1, -1);
      recentPositions := [];
      new;
      var player := world.AddPlayer(id, name, true);
    }

    /** One of the two loops of `moveToward` over `moves`: the first move onto
        a walkable cell of the map, skipping, in the first pass (`firstPass`),
        those that lead back onto one of the last four positions. */
    method Scan(from: Position, moves: seq<(int, int)>, tiles: seq<seq<Tile>>, firstPass: bool)
      returns (step: Option<(int, int)>)
      requires IsGrid(tiles)
      ensures var i := FirstTaken(tiles, from, recentPositions, firstPass, moves);
              step == if i >= 0 then Some(moves[i]) else None
    {
      for i := 0 to |moves|
        invariant forall j | 0 <= j < i :: !Takes(tiles, from, recentPositions, firstPass, moves[j])
      {
        var (mx, my) := moves[i];
        var nx, ny := from.x + mx, from.y + my;
        if nx >= 0 && nx < MAP_WIDTH && ny >= 0 && ny < MAP_HEIGHT && tiles[ny][nx].walkable {
          // `moves.indexOf([mx, my])` never finds a freshly built array
          var isRecent := firstPass && InLastFour(recentPositions, Position(nx, ny));
          if !isRecent {
            FirstTakenAt(tiles, from, recentPositions, firstPass, moves, i);
            return Some((mx, my));
          }
        }
      }
      FirstTakenAt(tiles, from, recentPositions, firstPass, moves, |moves|);
      return None;
    }

    /** The step of `moveToward(from, to, level)` (the move itself is issued by the caller). */
    method ChooseToward(from: Position, to: Position, tiles: seq<seq<Tile>>, order: real)
      returns (step: Option<(int, int)>)
      requires IsGrid(tiles)
      ensures step == TowardStep(tiles, from, to, recentPositions, order)
    {
      var dx, dy := Sign(to.x - from.x), Sign(to.y - from.y);
      if dx == 0 && dy == 0 {
        return None;
      }
      var moves := Moves(dx, dy, order < 0.5);
      step := Scan(from, moves, tiles, true);
      if step.None? {
        step := Scan(from, moves, tiles, false);
      }
    }

    /** The inner loop of `escapeCorner`: how many of the eight neighbours of
        `c` are on the map and walkable. */
    method CountOpenAround(c: Position, tiles: seq<seq<Tile>>) returns (openness: int)
      requires IsGrid(tiles)
      ensures openness == OpenCount(tiles, c, DIRS)
    {
      openness := 0;
      for j := 0 to |DIRS|
        invariant openness == OpenCount(tiles, c, DIRS[..j])
      {
        var (ddx, ddy) := DIRS[j];
        var nnx, nny := c.x + ddx, c.y + ddy;
        if nnx >= 0 && nnx < MAP_WIDTH && nny >= 0 && nny < MAP_HEIGHT && tiles[nny][nnx].walkable {
          openness := openness + 1;
        }
        assert DIRS[..j + 1][..j] == DIRS[..j];
      }
      assert DIRS[..|DIRS|] == DIRS;
    }

    /** The body of the loop of `escapeCorner` for the direction `dir`:
        whether it leads onto a walkable cell of the map and, when it does,
        the openness of that cell. */
    method RateEscape(pos: Position, dir: (int, int), tiles: seq<seq<Tile>>) returns (open: bool, openness: int)
      requires IsGrid(tiles)
      ensures open == Open(tiles, pos, dir)
      ensures open ==> openness == Openness(tiles, recentPositions, Shift(pos, dir))
    {
      var (dx, dy) := dir;
      var nx, ny := pos.x + dx, pos.y + dy;
      if nx < 0 || nx >= MAP_WIDTH || ny < 0 || ny >= MAP_HEIGHT {
        return false, 0;
      }
      if !tiles[ny][nx].walkable {
        return false, 0;
      }
      var isRecent := InLastFour(recentPositions, Position(nx, ny));
      openness := CountOpenAround(Position(nx, ny), tiles);
      if isRecent {
        openness := openness - 3;
      }
      open := true;
    }

    /** The step of `escapeCorner(pos, level)` for the draw `pick` (the move
        itself is issued by the caller). */
    method ChooseEscape(pos: Position, tiles: seq<seq<Tile>>, pick: real) returns (step: Option<(int, int)>)
      requires IsGrid(tiles) && 0.0 <= pick < 1.0
      ensures step == EscapeStep(tiles, pos, recentPositions, pick)
    {
      var bestDir: Option<(int, int)> := None;
      var bestOpenness := -1;
      for i := 0 to |DIRS|
        invariant (bestDir, bestOpenness) == Best(tiles, pos, recentPositions, DIRS[..i])
      {
        BestNext(tiles, pos, recentPositions, i);
        var open, openness := RateEscape(pos, DIRS[i], tiles);
        if open && openness > bestOpenness {
          bestOpenness := openness;
          bestDir := Some(DIRS[i]);
        }
      }
      assert DIRS[..|DIRS|] == DIRS;
      if bestDir.Some? {
        step := bestDir;
      } else {
        var walkable := OpenDirs(tiles, pos, DIRS);
        if |walkable| > 0 {
          step := Some(walkable[Pick(pick, |walkable|)]);
        } else {
          step := None;
        }
      }
    }

    /** The inner loop of `findUnexploredTarget` over row `y`: `closest`
        becomes the nearest accepted cell of the rows scanned so far, the
        first in scan order on a tie. */
    method ScanRow(player: PlayerState, tiles: seq<seq<Tile>>, y: int, closest0: Option<Position>, closestDist0: int)
      returns (closest: Option<Position>, closestDist: int)
      requires IsGrid(player.explored) && IsGrid(tiles) && 1 <= y < MAP_HEIGHT - 1 && y % 2 == 1
      requires closest0.Some? ==> Unexplored(player, tiles, closest0.value.x, closest0.value.y) &&
                                  closestDist0 == Dist(player.pos, closest0.value.x, closest0.value.y) &&
                                  closest0.value.y < y
      requires forall yy, xx | Unexplored(player, tiles, xx, yy) && yy < y ::
                 closest0.Some? && Nearest(player.pos, closest0.value, xx, yy)
      ensures closest.Some? ==> Unexplored(player, tiles, closest.value.x, closest.value.y) &&
                                closestDist == Dist(player.pos, closest.value.x, closest.value.y) &&
                                closest.value.y <= y
      ensures forall yy, xx | Unexplored(player, tiles, xx, yy) && yy < y + 2 ::
                closest.Some? && Nearest(player.pos, closest.value, xx, yy)
    {
      closest, closestDist := closest0, closestDist0;
      var x := 1;
      while x < MAP_WIDTH - 1
        invariant 1 <= x <= MAP_WIDTH - 1 && x % 2 == 1
        invariant closest.Some? ==> Unexplored(player, tiles, closest.value.x, closest.value.y) &&
                                    closestDist == Dist(player.pos, closest.value.x, closest.value.y)
        invariant closest.Some? ==> closest.value.y < y || (closest.value.y == y && closest.value.x < x)
        invariant forall yy, xx | Unexplored(player, tiles, xx, yy) && (yy < y || (yy == y && xx < x)) ::
                    closest.Some? && Nearest(player.pos, closest.value, xx, yy)
      {
        assert !Unexplored(player, tiles, x + 1, y);
        if !player.explored[y][x] && tiles[y][x].walkable {
          var dist := Abs(x - player.pos.x) + Abs(y - player.pos.y);
          assert dist == Dist(player.pos, x, y);
          if (closest.None? || dist < closestDist) && dist > 2 {
            closestDist := dist;
            closest := Some(Position(x, y));
          }
        }
        x := x + 2;
      }
    }

    /** `findUnexploredTarget`: the row-major scan of the odd cells inside the
        border for the nearest unexplored walkable one more than 2 steps away,
        else the level's central empty cell. */
    method FindUnexploredTarget(player: PlayerState, level: DungeonLevel) returns (t: Position)
      requires IsGrid(player.explored) && IsGrid(level.tiles)
      ensures ExploreTarget(player, level.tiles, level.entities, t)
    {
      // `closestDist` stands for the source's Infinity while `closest` is none
      var closest: Option<Position> := None;
      var closestDist := 0;
      var y := 1;
      while y < MAP_HEIGHT - 1
        invariant 1 <= y <= MAP_HEIGHT - 1 && y % 2 == 1
        invariant closest.Some? ==> Unexplored(player, level.tiles, closest.value.x, closest.value.y) &&
                                    closestDist == Dist(player.pos, closest.value.x, closest.value.y)
        invariant closest.Some? ==> closest.value.y < y
        invariant forall yy, xx | Unexplored(player, level.tiles, xx, yy) && yy < y ::
                    closest.Some? && Nearest(player.pos, closest.value, xx, yy)
      {
        closest, closestDist := ScanRow(player, level.tiles, y, closest, closestDist);
        y := y + 2;
      }
      if closest.None? {
        t := level.GetCentralEmptyPos();
      } else {
        t := closest.value;
      }
    }

    /** The last lines of `tick`: the step issued through `movePlayer`, then
        the target dropped when the bot stands on it. */
    method Finish(step: Option<(int, int)>, d: Draws) returns (moved: bool)
      requires world.Valid() && Fair(d)
      modifies this`target, world`players, world`playerDepths, world`messageLog, world`levels
      modifies if id in world.playerDepths && world.playerDepths[id] in world.levels
               then {world.levels[world.playerDepths[id]]} else {}
      ensures world.Valid() && world.players.Keys == old(world.players.Keys)
      ensures id in old(world.players) ==> old(PlayerAt(world.levels, world.players, world.playerDepths, id, world.sight))
      ensures id in old(world.players) ==> State() == DropReached(old(State()), world.players[id].pos)
      ensures recentPositions == old(recentPositions) && stuckCounter == old(stuckCounter)
      ensures moved ==> step.Some?
      ensures step.Some? && id in old(world.players) ==>
                (moved <==> MayMove(old(world.players[id]), old(world.levels[world.playerDepths[id]].tiles),
                                    step.value.0, step.value.1))
      ensures !moved ==> unchanged(world) && forall k | k in world.levels :: unchanged(world.levels[k])
      ensures moved ==> world.Moved(old(world.levels), old(world.Entities()), old(world.playerDepths),
                                    old(world.players), old(world.messageLog),
                                    id, step.value.0, step.value.1, d.hitRoll, d.backRoll)
    {
      moved := Issue(step, d);
      label issued:
      // `player.pos` is read again, after the move has updated it
      if id in world.players && target == Some(world.players[id].pos) {
        target := None;
      }
      assert unchanged@issued(world);
      assert forall k | k in world.levels :: unchanged@issued(world.levels[k]);
    }

    /** `movePlayer(this.id, mx, my)` for the bot's step, when there is one:
        the world takes the move exactly as `movePlayer` does when its guard
        lets it through, and is left alone otherwise. */
    method Issue(step: Option<(int, int)>, d: Draws) returns (moved: bool)
      requires world.Valid() && Fair(d)
      modifies world`players, world`playerDepths, world`messageLog, world`levels
      modifies if id in world.playerDepths && world.playerDepths[id] in world.levels
               then {world.levels[world.playerDepths[id]]} else {}
      ensures world.Valid() && world.players.Keys == old(world.players.Keys)
      ensures id in old(world.players) ==> old(PlayerAt(world.levels, world.players, world.playerDepths, id, world.sight))
      ensures unchanged(this)
      ensures moved ==> step.Some?
      ensures step.Some? && id in old(world.players) ==>
                (moved <==> MayMove(old(world.players[id]), old(world.levels[world.playerDepths[id]].tiles),
                                    step.value.0, step.value.1))
      ensures !moved ==> unchanged(world) && forall k | k in world.levels :: unchanged(world.levels[k])
      ensures moved ==> world.Moved(old(world.levels), old(world.Entities()), old(world.playerDepths),
                                    old(world.players), old(world.messageLog),
                                    id, step.value.0, step.value.1, d.hitRoll, d.backRoll)
    {
      if id in world.players {
        Holds(world, id);
      }
      moved := false;
      if step.Some? {
        moved := world.MovePlayer(id, step.value.0, step.value.1, d.hitRoll, d.backRoll);
      }
    }

    /** The first lines of `tick`: record the position `pos` in the history
        and advance or restart the stuck counter. */
    method Record(pos: Position)
      requires |recentPositions| <= HISTORY && 0 <= stuckCounter <= 2
      modifies this`recentPositions, this`stuckCounter, this`lastPos
      ensures State() == Recorded(old(State()), pos)
      ensures |recentPositions| <= HISTORY && 0 <= stuckCounter <= 3
    {
      recentPositions := recentPositions + [pos];
      if |recentPositions| > HISTORY {
        recentPositions := recentPositions[1..];
      }
      assert recentPositions == Remember(old(recentPositions), pos);
      if pos == lastPos {
        stuckCounter := stuckCounter + 1;
      } else {
        stuckCounter := 0;
      }
      lastPos := pos;
    }

    /** The priority rules of `tick` and the step toward the target they give
        (the exploration target when they give none), or the escape when no
        step leads there. */
    method Pursue(player: PlayerState, level: DungeonLevel, d: Draws) returns (step: Option<(int, int)>, ghost goal: Position)
      requires WellFormedSight(world.sight) && IsGrid(level.tiles) && IsGrid(player.explored) && Fair(d)
      modifies this`target
      ensures GoalFor(old(State()), player, level.tiles, level.entities, world.sight, d, goal)
      ensures var toward := TowardStep(level.tiles, player.pos, goal, recentPositions, d.order);
              if toward.Some? then target == Some(goal) && step == toward
              else target.None? && step == EscapeStep(level.tiles, player.pos, recentPositions, d.pick)
    {
      var pos := player.pos;
      var visible := world.ComputeVisible(pos, level);
      if Low(player) {
        var potion := FirstWanted(level.entities, Potion, visible, pos);
        if potion.Some? {
          target := Some(potion.value.pos);
        }
      }
      if target.None? {
        var nearbyEnemy := FirstWanted(level.entities, Foe, visible, pos);
        var nearbyItem := FirstWanted(level.entities, Loot, visible, pos);
        var stairs := FirstWanted(level.entities, Exit, visible, pos);
        if nearbyEnemy.Some? && Hearty(player) {
          target := Some(nearbyEnemy.value.pos);
        } else if nearbyItem.Some? {
          target := Some(nearbyItem.value.pos);
        } else if stairs.Some? && d.stairs < 0.3 {
          target := Some(stairs.value.pos);
        } else {
          var t := FindUnexploredTarget(player, level);
          target := Some(t);
        }
      }
      var aim := target.value;
      goal := aim;
      step := ChooseToward(pos, aim, level.tiles, d.order);
      if step.None? {
        target := None;
        step := ChooseEscape(pos, level.tiles, d.pick);
      }
    }

    /** The step of `tick` once the position is recorded: the escape when
        stuck for a third tick or oscillating, else the pursuit. */
    method Decide(player: PlayerState, level: DungeonLevel, d: Draws) returns (step: Option<(int, int)>, ghost goal: Position)
      requires WellFormedSight(world.sight) && IsGrid(level.tiles) && IsGrid(player.explored) && Fair(d)
      modifies this`target, this`recentPositions, this`stuckCounter
      ensures Pursuing(old(State())) ==> GoalFor(old(State()), player, level.tiles, level.entities, world.sight, d, goal)
      ensures (State(), step) == Plan(old(State()), level.tiles, player.pos, d, goal)
    {
      var pos := player.pos;
      goal := pos;
      if stuckCounter > 2 {
        target := None;
        stuckCounter := 0;
        step := ChooseEscape(pos, level.tiles, d.pick);
        return;
      }
      var isOscillating := |recentPositions| >= 8 && DetectOscillation(recentPositions);
      if isOscillating {
        target := None;
        step := ChooseEscape(pos, level.tiles, d.pick);
        recentPositions := [];
        return;
      }
      step, goal := Pursue(player, level, d);
    }

    /** The lines of `tick` before the move: the position recorded, then the
        escape or the pursuit decided. */
    method Think(player: PlayerState, level: DungeonLevel, d: Draws) returns (step: Option<(int, int)>, ghost goal: Position)
      requires WellFormedSight(world.sight) && IsGrid(level.tiles) && IsGrid(player.explored) && Fair(d)
      requires |recentPositions| <= HISTORY && 0 <= stuckCounter <= 2
      modifies this`target, this`recentPositions, this`stuckCounter, this`lastPos
      ensures var m := Recorded(old(State()), player.pos);
              && (Pursuing(m) ==> GoalFor(m, player, level.tiles, level.entities, world.sight, d, goal))
              && (State(), step) == Plan(m, level.tiles, player.pos, d, goal)
      ensures |recentPositions| <= HISTORY && 0 <= stuckCounter <= 2
    {
      Record(player.pos);
      step, goal := Decide(player, level, d);
    }

    /** `tick`: nothing for a bot whose player or depth is gone; otherwise the
        memory update and the step `Ticked` describes, the step issued through
        `movePlayer`. */
    method Tick(d: Draws) returns (step: Option<(int, int)>, moved: bool, ghost goal: Position)
      requires Valid() && Fair(d)
      modifies this, world`players, world`playerDepths, world`messageLog, world`levels
      modifies if id in world.playerDepths && world.playerDepths[id] in world.levels
               then {world.levels[world.playerDepths[id]]} else {}
      ensures Valid()
      ensures id !in old(world.players) ==> step.None? && !moved && unchanged(this) && unchanged(world)
      ensures !moved ==> unchanged(world) && forall k | k in world.levels :: unchanged(world.levels[k])
      ensures id in old(world.players) ==>
                && old(PlayerAt(world.levels, world.players, world.playerDepths, id, world.sight))
                && id in world.players
                && Ticked(old(State()), State(), old(world.players[id]),
                          old(world.levels[world.playerDepths[id]].tiles),
                          old(world.levels[world.playerDepths[id]].entities),
                          world.sight, d, goal, world.players[id].pos, step)
      ensures step.Some? && id in old(world.players) ==>
                (moved <==> MayMove(old(world.players[id]), old(world.levels[world.playerDepths[id]].tiles),
                                    step.value.0, step.value.1))
      ensures moved ==> step.Some? &&
                        world.Moved(old(world.levels), old(world.Entities()), old(world.playerDepths),
                                    old(world.players), old(world.messageLog),
                                    id, step.value.0, step.value.1, d.hitRoll, d.backRoll)
    {
      if id !in world.players || id !in world.playerDepths {
        return None, false, lastPos;
      }
      Holds(world, id);
      var player := world.players[id];
      var depth := world.playerDepths[id];
      // the bot's level exists, so `getOrCreateLevel` only looks it up
      var level := world.levels[depth];
      ghost var m0, entities := State(), level.entities;
      step, goal := Think(player, level, d);
      ghost var mid := State();
      moved := Finish(step, d);
      TickedOf(m0, Recorded(m0, player.pos), mid, State(), player, level.tiles, entities, world.sight, d, goal, world.players[id].pos, step);
    }
  }
}
