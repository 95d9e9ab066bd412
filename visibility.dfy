/** Field of view (server/game.ts:497-528 and 579-604): rays are cast every 3
    degrees from the viewer, out to FOV_RADIUS samples; each sample is rounded
    to a cell and marked; a ray stops on leaving the map, and stops right after
    marking the first cell that is not walkable.

    The rounded sample cells come from floating-point `Math.cos`, `Math.sin`
    and `Math.round`, which are not modelled: a `Sight` gives, for every viewer
    cell, the cells of its RAY_COUNT rays. Because `Math.round(px + t)` is
    `px + Math.round(t)` only up to floating-point rounding, a `Sight` is a
    function of the viewer cell rather than one table of offsets. */
module Visibility {
  import opened Types

  /** Angles 0, 3, ..., 357 degrees. */
  const RAY_COUNT: int := 120

  type Sight = Position -> seq<seq<Position>>

  /** Every viewer gets RAY_COUNT rays of FOV_RADIUS samples; the first sample
      (r = 0, before any step) is the viewer's own cell. */
  ghost predicate WellFormedSight(sight: Sight) {
    forall p: Position :: RaysFrom(sight(p), p)
  }

  ghost predicate RaysFrom(rays: seq<seq<Position>>, p: Position) {
    WellFormedRays(rays) && forall i | 0 <= i < |rays| :: rays[i][0] == p
  }

  predicate WellFormedRays(rays: seq<seq<Position>>) {
    |rays| == RAY_COUNT && forall i | 0 <= i < |rays| :: |rays[i]| == FOV_RADIUS
  }

  predicate Walkable(tiles: seq<seq<Tile>>, c: Position)
    requires IsGrid(tiles)
  {
    OnMap(c) && tiles[c.y][c.x].walkable
  }

  /** The samples of `ray` from index `r` on that get marked. */
  function ReachFrom(ray: seq<Position>, tiles: seq<seq<Tile>>, r: nat): seq<Position>
    requires IsGrid(tiles)
    decreases |ray| - r
  {
    if r >= |ray| || !OnMap(ray[r]) then []
    else if !tiles[ray[r].y][ray[r].x].walkable then [ray[r]]
    else [ray[r]] + ReachFrom(ray, tiles, r + 1)
  }

  /** The cells one ray marks. */
  function Reach(ray: seq<Position>, tiles: seq<seq<Tile>>): seq<Position>
    requires IsGrid(tiles)
  {
    ReachFrom(ray, tiles, 0)
  }

  /** The stopping rule: what a ray marks is a prefix of its samples, all on the
      map, all walkable but possibly the last; it is cut short only by a sample
      off the map or right after a sample that is not walkable. */
  lemma {:induction false} ReachFromShape(ray: seq<Position>, tiles: seq<seq<Tile>>, r: nat)
    requires IsGrid(tiles) && r <= |ray|
    ensures var s := ReachFrom(ray, tiles, r);
      && r + |s| <= |ray|
      && s == ray[r..r + |s|]
      && (forall k | 0 <= k < |s| :: OnMap(s[k]))
      && (forall k | 0 <= k < |s| - 1 :: Walkable(tiles, s[k]))
      && (r + |s| < |ray| ==>
            !OnMap(ray[r + |s|]) || (|s| > 0 && !Walkable(tiles, s[|s| - 1])))
    decreases |ray| - r
  {
    if r < |ray| && OnMap(ray[r]) && tiles[ray[r].y][ray[r].x].walkable {
      ReachFromShape(ray, tiles, r + 1);
      var rest := ReachFrom(ray, tiles, r + 1);
      assert ReachFrom(ray, tiles, r) == [ray[r]] + rest;
      var n := r + 1 + |rest|;
      assert ray[r..n] == [ray[r]] + ray[r + 1..n] by {
        assert forall k | 0 <= k < n - r :: ray[r..n][k] == ray[r + k];
      }
    }
  }

  lemma ReachShape(ray: seq<Position>, tiles: seq<seq<Tile>>)
    requires IsGrid(tiles)
    ensures var s := Reach(ray, tiles);
      && |s| <= |ray|
      && s == ray[..|s|]
      && (forall k | 0 <= k < |s| :: OnMap(s[k]))
      && (forall k | 0 <= k < |s| - 1 :: Walkable(tiles, s[k]))
      && (|s| < |ray| ==> !OnMap(ray[|s|]) || (|s| > 0 && !Walkable(tiles, s[|s| - 1])))
  {
    ReachFromShape(ray, tiles, 0);
  }

  /** The cell (x, y) is marked by one of the first `n` rays. */
  ghost predicate SeenBy(rays: seq<seq<Position>>, n: nat, tiles: seq<seq<Tile>>, x: int, y: int)
    requires IsGrid(tiles) && n <= |rays|
    decreases n
  {
    n > 0 && (SeenBy(rays, n - 1, tiles, x, y) || Position(x, y) in Reach(rays[n - 1], tiles))
  }

  /** The cells the whole fan of rays marks. */
  ghost predicate InView(rays: seq<seq<Position>>, tiles: seq<seq<Tile>>, x: int, y: int)
    requires IsGrid(tiles)
  {
    SeenBy(rays, |rays|, tiles, x, y)
  }

  lemma {:induction false} SeenByIff(rays: seq<seq<Position>>, n: nat, tiles: seq<seq<Tile>>, x: int, y: int)
    requires IsGrid(tiles) && n <= |rays|
    ensures SeenBy(rays, n, tiles, x, y) <==>
              exists i | 0 <= i < n :: Position(x, y) in Reach(rays[i], tiles)
    decreases n
  {
    if n > 0 {
      SeenByIff(rays, n - 1, tiles, x, y);
      if Position(x, y) in Reach(rays[n - 1], tiles) {
        assert exists i | 0 <= i < n :: Position(x, y) in Reach(rays[i], tiles);
      }
    }
  }

  /** `grid` with every cell the rays mark set to true. */
  ghost function Revealed(grid: seq<seq<bool>>, tiles: seq<seq<Tile>>, rays: seq<seq<Position>>): (g: seq<seq<bool>>)
    requires IsGrid(grid) && IsGrid(tiles)
    ensures IsGrid(g)
  {
    seq(MAP_HEIGHT, y requires 0 <= y < MAP_HEIGHT =>
      seq(MAP_WIDTH, x requires 0 <= x < MAP_WIDTH => grid[y][x] || InView(rays, tiles, x, y)))
  }

  /** Casting only ever sets cells to true; a cell goes from false to true
      exactly when some ray marks it. */
  lemma RevealedMonotone(grid: seq<seq<bool>>, tiles: seq<seq<Tile>>, rays: seq<seq<Position>>, x: int, y: int)
    requires IsGrid(grid) && IsGrid(tiles) && InBounds(x, y)
    ensures grid[y][x] ==> Revealed(grid, tiles, rays)[y][x]
    ensures Revealed(grid, tiles, rays)[y][x] && !grid[y][x] ==>
              exists i | 0 <= i < |rays| :: Position(x, y) in Reach(rays[i], tiles)
  {
    SeenByIff(rays, |rays|, tiles, x, y);
  }

  /** The first sample of every ray is the viewer's cell, so a viewer on the
      map always sees its own cell. */
  lemma ViewerSeesOwnCell(rays: seq<seq<Position>>, tiles: seq<seq<Tile>>, p: Position)
    requires IsGrid(tiles) && RaysFrom(rays, p) && OnMap(p)
    ensures InView(rays, tiles, p.x, p.y)
  {
    var last := rays[|rays| - 1];
    assert Reach(last, tiles)[0] == p;
  }

  /** The marking loop of one ray (the inner `for r` loop of both ray casters). */
  method CastRay(grid: seq<seq<bool>>, tiles: seq<seq<Tile>>, ray: seq<Position>) returns (g: seq<seq<bool>>)
    requires IsGrid(grid) && IsGrid(tiles) && |ray| == FOV_RADIUS
    ensures IsGrid(g)
    ensures forall y, x | 0 <= y < MAP_HEIGHT && 0 <= x < MAP_WIDTH ::
              g[y][x] == (grid[y][x] || Position(x, y) in Reach(ray, tiles))
  {
    g := grid;
    var r := 0;
    while r < FOV_RADIUS
      invariant 0 <= r <= FOV_RADIUS
      invariant IsGrid(g)
      invariant Reach(ray, tiles) == ray[..r] + ReachFrom(ray, tiles, r)
      invariant forall y, x | 0 <= y < MAP_HEIGHT && 0 <= x < MAP_WIDTH ::
                  g[y][x] == (grid[y][x] || Position(x, y) in ray[..r])
    {
      var c := ray[r];
      if !InBounds(c.x, c.y) {
        return;
      }
      g := SetCell(g, c.x, c.y, true);
      assert ray[..r + 1] == ray[..r] + [c];
      if !tiles[c.y][c.x].walkable {
        return;
      }
      r := r + 1;
    }
  }

  /** Casts all rays into `grid`: `computeVisible` starts from an all-false
      grid, `updatePlayerFOV` from the player's explored grid. */
  method CastRays(grid: seq<seq<bool>>, tiles: seq<seq<Tile>>, rays: seq<seq<Position>>) returns (g: seq<seq<bool>>)
    requires IsGrid(grid) && IsGrid(tiles) && WellFormedRays(rays)
    ensures g == Revealed(grid, tiles, rays)
    ensures forall y, x | 0 <= y < MAP_HEIGHT && 0 <= x < MAP_WIDTH ::
              g[y][x] == (grid[y][x] || InView(rays, tiles, x, y))
  {
    g := grid;
    for a := 0 to RAY_COUNT
      invariant IsGrid(g)
      invariant forall y, x | 0 <= y < MAP_HEIGHT && 0 <= x < MAP_WIDTH ::
                  g[y][x] == (grid[y][x] || SeenBy(rays, a, tiles, x, y))
    {
      g := CastRay(g, tiles, rays[a]);
    }
    var want := Revealed(grid, tiles, rays);
    forall y | 0 <= y < MAP_HEIGHT ensures g[y] == want[y] {
      assert |g[y]| == |want[y]|;
    }
  }
}
