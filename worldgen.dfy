/**
 * The world generator: the screen grid `cells` and the tile grid `tiles`,
 * mutated in place phase by phase. Every phase states what it does to a
 * snapshot of the grids in terms of the value-level definitions of the
 * other modules.
 */
module Worldgen {
  import opened Wrappers
  import opened Rand
  import opened Tiles
  import opened Screens
  import opened Maze
  import opened Themes
  import opened Desert
  import opened Layout
  import opened Normalize
  import opened Shore

  class Generator {
    /** Screens across and down. */
    const width: nat
    const height: nat
    const cells: array2<Screen>
    const tiles: array2<Tile>
    const rng: Random
    const terrain: Terrain

    ghost predicate Valid()
    {
      cells.Length0 == width && cells.Length1 == height &&
      tiles.Length0 == width * ScreenWidth && tiles.Length1 == height * ScreenHeight
    }

    /**
     * `new Worldgen(width, height)`: walled-in unthemed screens and a tile grid
     * of nulls. Every edge is WALL, which is the grid the maze builder grows
     * its tree on.
     */
    constructor (width: nat, height: nat, rng: Random, terrain: Terrain)
      ensures this.width == width && this.height == height
      ensures this.rng == rng && this.terrain == terrain
      ensures Valid() && fresh(cells) && fresh(tiles)
      ensures forall x, y :: 0 <= x < width && 0 <= y < height ==> cells[x, y] == EmptyScreen
      ensures forall x, y :: 0 <= x < width * ScreenWidth && 0 <= y < height * ScreenHeight ==>
        tiles[x, y] == Unset
      ensures width > 0 ==> WellFormed(Snap()) && AllWalled(Snap())
    {
      this.width := width;
      this.height := height;
      this.rng := rng;
      this.terrain := terrain;
      cells := new Screen[width, height]((x, y) => EmptyScreen);
      tiles := new Tile[width * ScreenWidth, height * ScreenHeight]((x, y) => Unset);
      new;
      if width > 0 {
        var m := Snap();
        forall p, d | In(m, p)
          ensures At(m, p).EdgeOf(d) == Wall
        {
          assert m[p.x][p.y] == cells[p.x, p.y];
        }
      }
    }

    /** The screen grid as a value, `Snap()[x][y] == cells[x, y]`. */
    ghost function Snap(): (m: ScreenMap)
      requires Valid() && width > 0
      reads this, cells
      ensures |m| == width && Height(m) == height && Rect(m)
      ensures forall x, y :: 0 <= x < width && 0 <= y < height ==> m[x][y] == cells[x, y]
    {
      SomeMapShows();
      var m :| Shows(m); m
    }

    lemma {:induction false} SomeMapShows()
      requires Valid() && width > 0
      ensures exists m :: Shows(m)
    {
      var m := seq(width, x requires 0 <= x < width reads cells =>
        seq(height, y requires 0 <= y < height reads cells => cells[x, y]));
      assert Shows(m);
    }

    /** m is the screen grid, screen by screen: `Snap() == m` without unfolding `Snap`. */
    ghost predicate Shows(m: ScreenMap)
      requires Valid()
      reads this, cells
    {
      |m| == width && Rect(m) && Height(m) == height &&
      forall x, y :: 0 <= x < width && 0 <= y < height ==> m[x][y] == cells[x, y]
    }

    /** The current grid is the map m exactly when they agree screen by screen. */
    lemma SnapIs(m: ScreenMap)
      requires Valid() && width > 0
      requires |m| == width && forall x :: 0 <= x < width ==> |m[x]| == height
      requires forall x, y :: 0 <= x < width && 0 <= y < height ==> cells[x, y] == m[x][y]
      ensures Snap() == m
    {
      var s := Snap();
      forall x | 0 <= x < width
        ensures s[x] == m[x]
      {
      }
    }

    /**
     * `connectScreens(p, d)`: draws the edge kind, writes it on both facing
     * edges, and returns the neighbour the Java code moves `p` to.
     */
    method ConnectScreens(p: Point, d: Dir) returns (q: Point, k: Edge)
      requires Valid() && width > 0 && In(Snap(), p) && In(Snap(), Step(p, d))
      modifies cells, rng
      ensures q == Step(p, d) && k != Wall
      ensures exists roll :: roll < 7 && k == PathType(roll, p, width, height)
      ensures rng.drawn == old(rng.drawn) + 1
      ensures Snap() == Connect(old(Snap()), p, d, k)
    {
      ghost var m := Snap();
      var roll := rng.NextInt(7);
      k := PathType(roll, p, width, height);
      q := Step(p, d);
      cells[q.x, q.y] := cells[q.x, q.y].WithEdge(Opposite(d), k);
      cells[p.x, p.y] := cells[p.x, p.y].WithEdge(d, k);
      var m' := Connect(m, p, d, k);
      forall x, y | 0 <= x < width && 0 <= y < height
        ensures cells[x, y] == m'[x][y]
      {
        assert At(m', Point(x, y)) == m'[x][y];
      }
      SnapIs(m');
    }

    ghost function AllCells(): set<Point>
    {
      set x, y | 0 <= x < width && 0 <= y < height :: Point(x, y)
    }

    predicate InGrid(q: Point)
    {
      0 <= q.x < width && 0 <= q.y < height
    }

    /** The `connected` marks are exactly the ghost set `marked`. */
    ghost predicate Synced(connected: array2<bool>, marked: set<Point>)
      reads this, connected
    {
      connected.Length0 == width && connected.Length1 == height &&
      forall x, y :: 0 <= x < width && 0 <= y < height ==> (connected[x, y] <==> Point(x, y) in marked)
    }

    /** `connected[c] = true`, keeping the marks equal to the ghost set. */
    method Mark(connected: array2<bool>, ghost marked: set<Point>, c: Point) returns (ghost marked': set<Point>)
      requires Valid() && width > 0 && Synced(connected, marked) && marked <= AllCells() && InGrid(c)
      modifies connected
      ensures Synced(connected, marked') && marked' == marked + {c}
      ensures marked' <= AllCells() && AllCells() - marked' <= AllCells() - marked
      ensures c !in marked ==> AllCells() - marked' < AllCells() - marked
      ensures Snap() == old(Snap())
    {
      connected[c.x, c.y] := true;
      marked' := marked + {c};
      assert c == Point(c.x, c.y);
      forall x, y | 0 <= x < width && 0 <= y < height
        ensures connected[x, y] <==> Point(x, y) in marked'
      {
        if Point(x, y) != c {
          assert connected[x, y] == old(connected[x, y]);
        }
      }
    }

    /** The possible directions from p: in-grid neighbours not yet marked. */
    method FreeDirections(connected: array2<bool>, ghost marked: set<Point>, p: Point)
      returns (options: seq<Dir>)
      requires Synced(connected, marked) && InGrid(p)
      ensures forall d :: d in options <==> InGrid(Step(p, d)) && Step(p, d) !in marked
    {
      options := Options(
        p.x + 1 < width && !connected[p.x + 1, p.y],
        p.x - 1 >= 0 && !connected[p.x - 1, p.y],
        p.y + 1 < height && !connected[p.x, p.y + 1],
        p.y - 1 >= 0 && !connected[p.x, p.y - 1]);
      forall d
        ensures d in options <==> InGrid(Step(p, d)) && Step(p, d) !in marked
      {
        var r := Step(p, d);
        if InGrid(r) {
          assert connected[r.x, r.y] <==> Point(r.x, r.y) in marked;
        }
        match d
        case E =>
        case W =>
        case S =>
        case N =>
      }
    }

    /**
     * Marks p, connects it toward `dir` and marks the neighbour reached: the
     * state changes of a productive round, stated against the map m before it.
     */
    method ConnectMarked(ghost m: ScreenMap, connected: array2<bool>, ghost marked: set<Point>,
                         p: Point, dir: Dir)
      returns (q: Point, k: Edge, ghost marked': set<Point>)
      requires Valid() && width > 0 && m == Snap()
      requires Synced(connected, marked) && marked <= AllCells()
      requires In(m, p) && In(m, Step(p, dir)) && Step(p, dir) !in marked
      modifies cells, rng, connected
      ensures q == Step(p, dir) && k != Wall && Snap() == Connect(m, p, dir, k)
      ensures Synced(connected, marked') && marked' == marked + {p, q}
      ensures marked' <= AllCells() && AllCells() - marked' < AllCells() - marked
    {
      ghost var marked1 := Mark(connected, marked, p);
      q, k := ConnectScreens(p, dir);
      marked' := Mark(connected, marked1, q);
    }

    /**
     * The productive half of a round: p has free neighbours `options`, of which
     * the j-th was drawn. p goes back on the worklist when it has more than one,
     * is connected to the drawn one, and both are marked; the neighbour is
     * appended.
     */
    method Extend(ghost m0: ScreenMap, ghost m: ScreenMap, connected: array2<bool>,
                  ghost marked: set<Point>, ghost path: seq<Point>, ghost i: nat,
                  rest: seq<Point>, p: Point, options: seq<Dir>, j: nat, start: Point,
                  ghost links: seq<(Point, Dir)>)
      returns (path': seq<Point>, ghost m': ScreenMap, ghost marked': set<Point>, ghost links': seq<(Point, Dir)>)
      requires Valid() && width > 0 && m == Snap()
      requires Synced(connected, marked) && marked <= AllCells()
      requires MazeShape(m0, m, start, marked, path) && TreeSoFar(m0, m, start, marked, links)
      requires i < |path| && p == path[i] && rest == RemovedAt(path, i)
      requires forall d :: d in options <==> In(m, Step(p, d)) && Step(p, d) !in marked
      requires j < |options|
      modifies cells, rng, connected
      ensures m' == Snap() && Synced(connected, marked') && marked' <= AllCells()
      ensures MazeShape(m0, m', start, marked', path') && TreeSoFar(m0, m', start, marked', links')
      ensures AllCells() - marked' < AllCells() - marked
      ensures links' == links + [(p, options[j])] && marked' == marked + {p, Step(p, options[j])}
    {
      var dir := options[j];
      assert dir in options;
      var q, k;
      q, k, marked' := ConnectMarked(m, connected, marked, p, dir);
      m' := Connect(m, p, dir, k);
      path' := rest + (if |options| > 1 then [p] else []) + [q];
      MazeShapeAfterConnectScreens(m0, m, start, marked, path, rest, i, p, options, dir, k, marked', path');
      assert p in path;
      TreeAfterConnect(m0, m, start, marked, links, p, dir, k);
      links' := links + [(p, dir)];
    }

    /**
     * One round of the worklist loop: remove a random entry p; if some
     * neighbour is unconnected, extend the maze from p, otherwise drop p.
     */
    method MazeRound(ghost m0: ScreenMap, ghost m: ScreenMap, connected: array2<bool>,
                     ghost marked: set<Point>, path: seq<Point>, start: Point, ghost links: seq<(Point, Dir)>)
      returns (path': seq<Point>, ghost m': ScreenMap, ghost marked': set<Point>, ghost links': seq<(Point, Dir)>)
      requires Valid() && width > 0 && path != [] && m == Snap()
      requires Synced(connected, marked) && marked <= AllCells()
      requires MazeShape(m0, m, start, marked, path) && TreeSoFar(m0, m, start, marked, links)
      modifies cells, rng, connected
      ensures m' == Snap() && Synced(connected, marked') && marked' <= AllCells()
      ensures MazeShape(m0, m', start, marked', path') && TreeSoFar(m0, m', start, marked', links')
      ensures AllCells() - marked' < AllCells() - marked || (marked' == marked && |path'| < |path|)
      ensures (m' == m && marked' == marked && links' == links && |path'| < |path|) ||
              (|links'| == |links| + 1 && links'[..|links|] == links && Target(links'[|links|]) !in marked &&
               marked' == marked + {links'[|links|].0, Target(links'[|links|])})
    {
      assert forall c :: In(m, c) <==> InGrid(c);
      var i := rng.NextInt(|path|);
      var p := path[i];
      var rest := RemovedAt(path, i);
      assert In(m, p);
      var options := FreeDirections(connected, marked, p);
      if |options| > 0 {
        var j := rng.NextInt(|options|);
        path', m', marked', links' := Extend(m0, m, connected, marked, path, i, rest, p, options, j, start, links);
        assert links'[..|links|] == links;
      } else {
        path', m', marked', links' := rest, m, marked, links;
        MazeShapeAfterDeadEnd(m0, m, start, marked, path, rest, i, p);
      }
    }

    /**
     * `makePerfectMazeWithCells`: a random-removal worklist. Each productive
     * step connects a worklist screen to an unconnected neighbour, which the
     * ghost `links` record. At the end every screen is reachable from every
     * other, no edge has been closed, no theme or flag has changed, and the
     * links are a spanning tree rooted at the drawn start: width * height - 1
     * of them, each reaching a different screen. On the all-WALL grid the
     * constructor leaves, the openings are exactly the links.
     */
    method MakePerfectMaze() returns (ghost start: Point, ghost links: seq<(Point, Dir)>)
      requires Valid() && width > 0 && height > 0 && WellFormed(Snap())
      modifies cells, rng
      ensures WellFormed(Snap()) && Connected(Snap())
      ensures OpenIncl(old(Snap()), Snap()) && EdgesOnly(old(Snap()), Snap())
      ensures InGrid(start) && SpanningTree(old(Snap()), Snap(), start, links)
      ensures |links| == width * height - 1
      ensures AllWalled(old(Snap())) ==> OnlyOpens(old(Snap()), Snap())
      ensures AllWalled(old(Snap())) ==> forall p, d :: Open(Snap(), p, d) <==> Joins(links, p, d)
    {
      ghost var m0 := Snap();
      var connected := new bool[width, height]((x, y) => false);
      ghost var marked: set<Point> := {};
      var sx := rng.NextInt(width);
      var sy := rng.NextInt(height);
      var first := Point(sx, sy);
      start := first;
      var path := [first];
      ReachRefl(m0, first);
      ghost var m := m0;
      links := [];
      while path != []
        invariant m == Snap() && Synced(connected, marked) && marked <= AllCells()
        invariant MazeShape(m0, m, start, marked, path) && TreeSoFar(m0, m, start, marked, links)
        decreases AllCells() - marked, |path|
      {
        path, m, marked, links := MazeRound(m0, m, connected, marked, path, first, links);
      }
      MazeDone(m, start, marked);
      TreeDone(m0, m, start, marked, links);
      TreeCount(m0, m, start, links);
      if AllWalled(m0) {
        TreeOnlyLinks(m0, m, start, links);
      }
    }
  
    /** The `possibleDirections` of the extra-connections pass: in-grid neighbours behind a WALL edge. */
    method WallDirections(p: Point) returns (options: seq<Dir>)
      requires Valid() && width > 0 && InGrid(p)
      ensures forall d :: d in options <==> In(Snap(), Step(p, d)) && At(Snap(), p).EdgeOf(d) == Wall
    {
      var s := cells[p.x, p.y];
      options := Options(
        p.x + 1 < width && s.eEdge == Wall,
        p.x - 1 >= 0 && s.wEdge == Wall,
        p.y + 1 < height && s.sEdge == Wall,
        p.y - 1 >= 0 && s.nEdge == Wall);
      forall d
        ensures d in options <==> In(Snap(), Step(p, d)) && At(Snap(), p).EdgeOf(d) == Wall
      {
        match d
        case E =>
        case W =>
        case S =>
        case N =>
      }
    }

    /** `connectScreens` across a WALL edge, keeping the extra-connections invariant. */
    method OpenWall(ghost m0: ScreenMap, ghost m: ScreenMap, p: Point, dir: Dir) returns (ghost m': ScreenMap)
      requires Valid() && width > 0 && m == Snap() && Widened(m0, m)
      requires In(m, p) && In(m, Step(p, dir)) && At(m, p).EdgeOf(dir) == Wall
      modifies cells, rng
      ensures m' == Snap() && Widened(m0, m')
      ensures rng.drawn == old(rng.drawn) + 1
    {
      var q, k := ConnectScreens(p, dir);
      m' := Connect(m, p, dir, k);
      ExtraStep(m0, m, p, dir, k);
    }

    /** One iteration of `addExtraConnectionsToCells`: a random screen, and a WALL edge of it if it has one. */
    method ExtraRound(ghost m0: ScreenMap, ghost m: ScreenMap) returns (ghost m': ScreenMap)
      requires Valid() && width > 0 && height > 0 && m == Snap() && Widened(m0, m)
      modifies cells, rng
      ensures m' == Snap() && Widened(m0, m')
      ensures old(rng.drawn) + 2 <= rng.drawn <= old(rng.drawn) + 4
    {
      var x := rng.NextInt(width);
      var y := rng.NextInt(height);
      var p := Point(x, y);
      var options := WallDirections(p);
      if |options| > 0 {
        var j := rng.NextInt(|options|);
        var dir := options[j];
        assert dir in options;
        m' := OpenWall(m0, m, p, dir);
      } else {
        m' := m;
      }
    }

    /**
     * `addExtraConnectionsToCells`: max(width, height) rounds, each opening at
     * most one WALL edge between two in-grid screens. Openings are only ever
     * added, so a connected map stays connected.
     */
    method AddExtraConnections()
      requires Valid() && width > 0 && height > 0 && WellFormed(Snap())
      modifies cells, rng
      ensures Widened(old(Snap()), Snap())
      ensures Connected(old(Snap())) ==> Connected(Snap())
      ensures var rounds := if width > height then width else height;
        old(rng.drawn) + 2 * rounds <= rng.drawn <= old(rng.drawn) + 4 * rounds
    {
      ghost var m0 := Snap();
      ghost var m := m0;
      WidenedRefl(m0);
      var total := if width > height then width else height;
      ghost var rounds := 0;
      while total > 0
        invariant m == Snap() && Widened(m0, m)
        invariant total >= 0 && total + rounds == if width > height then width else height
        invariant old(rng.drawn) + 2 * rounds <= rng.drawn <= old(rng.drawn) + 4 * rounds
      {
        total := total - 1;
        m := ExtraRound(m0, m);
        rounds := rounds + 1;
      }
      if Connected(m0) {
        WidenedConnected(m0, m);
      }
    }
  
    // ---- Themes ----

    /** A `Tile[][] themes` buffer the size of the screen grid; None is the Java null. */
    ghost predicate ThemeGrid(themes: array2<Option<Tile>>)
    {
      themes.Length0 == width && themes.Length1 == height
    }

    /** The screens of the buffer that hold a theme. */
    ghost function Themed(themes: array2<Option<Tile>>): set<Point>
      reads this, themes
    {
      set x, y | 0 <= x < width && 0 <= y < height && 0 <= x < themes.Length0 && 0 <= y < themes.Length1 &&
        themes[x, y].Some? :: Point(x, y)
    }

    /** Every theme in the buffer is one of the wall kinds the seeds carry. */
    ghost predicate ThemeWalls(themes: array2<Option<Tile>>)
      requires ThemeGrid(themes)
      reads this, themes
    {
      forall x, y :: 0 <= x < width && 0 <= y < height && themes[x, y].Some? ==> IsThemeWall(themes[x, y].value)
    }

    /**
     * Every open edge of an in-grid screen leads to an in-grid screen, stated
     * edge by edge so that it mentions no neighbour.
     */
    ghost predicate OpenInGrid()
      requires Valid()
      reads this, cells
    {
      forall x, y :: 0 <= x < width && 0 <= y < height ==>
        (cells[x, y].nEdge != Wall ==> y > 0) && (cells[x, y].sEdge != Wall ==> y < height - 1) &&
        (cells[x, y].wEdge != Wall ==> x > 0) && (cells[x, y].eEdge != Wall ==> x < width - 1)
    }

    lemma {:induction false} OpenNeighbourInGrid(p: Point, d: Dir)
      requires Valid() && OpenInGrid() && InGrid(p) && cells[p.x, p.y].EdgeOf(d) != Wall
      ensures InGrid(Step(p, d))
    {
      match d
      case N =>
      case S =>
      case W =>
      case E =>
    }

    /** A walled-in outer border is what keeps the neighbour lookups of the theme pass in range. */
    lemma {:induction false} WellFormedOpenInGrid()
      requires Valid() && width > 0 && WellFormed(Snap())
      ensures OpenInGrid()
    {
      var m := Snap();
      forall x, y | 0 <= x < width && 0 <= y < height
        ensures (cells[x, y].nEdge != Wall ==> y > 0) && (cells[x, y].sEdge != Wall ==> y < height - 1) &&
          (cells[x, y].wEdge != Wall ==> x > 0) && (cells[x, y].eEdge != Wall ==> x < width - 1)
      {
        var p := Point(x, y);
        assert At(m, p) == cells[x, y];
        assert !In(m, Step(p, N)) ==> At(m, p).EdgeOf(N) == Wall;
        assert !In(m, Step(p, S)) ==> At(m, p).EdgeOf(S) == Wall;
        assert !In(m, Step(p, W)) ==> At(m, p).EdgeOf(W) == Wall;
        assert !In(m, Step(p, E)) ==> At(m, p).EdgeOf(E) == Wall;
      }
    }

    /** Screen p can take the theme of its neighbour toward d: the edge is open and the neighbour is themed. */
    ghost predicate Feeds(themes: array2<Option<Tile>>, p: Point, d: Dir)
      requires Valid() && ThemeGrid(themes) && InGrid(p)
      reads this, cells, themes
    {
      var q := Step(p, d);
      cells[p.x, p.y].EdgeOf(d) != Wall && InGrid(q) && themes[q.x, q.y].Some?
    }

    ghost function NeighbourTheme(themes: array2<Option<Tile>>, p: Point, d: Dir): Option<Tile>
      requires Valid() && ThemeGrid(themes) && InGrid(p) && InGrid(Step(p, d))
      reads this, themes
    {
      themes[Step(p, d).x, Step(p, d).y]
    }

    /**
     * What one pass of `spreadThemesOnce` leaves in the new buffer for screen
     * p: a themed screen keeps its theme; an unthemed one gets a theme exactly
     * when some open edge leads to a themed neighbour, and then it is one of
     * those neighbours' themes.
     */
    ghost predicate SpreadCell(themes: array2<Option<Tile>>, p: Point, t: Option<Tile>)
      requires Valid() && ThemeGrid(themes) && InGrid(p)
      reads this, cells, themes
    {
      if themes[p.x, p.y].Some? then t == themes[p.x, p.y]
      else
        (t.Some? <==> exists d :: Feeds(themes, p, d)) &&
        (t.Some? ==> exists d :: Feeds(themes, p, d) && t == NeighbourTheme(themes, p, d))
    }

    /** order[i] is the last direction among the first n of order that feeds p. */
    ghost predicate LastFeeder(themes: array2<Option<Tile>>, p: Point, order: seq<Dir>, i: nat, n: nat)
      requires Valid() && ThemeGrid(themes) && InGrid(p) && i < n <= |order|
      reads this, cells, themes
    {
      Feeds(themes, p, order[i]) && forall j :: i < j < n ==> !Feeds(themes, p, order[j])
    }

    /**
     * The inner loop of `spreadThemesOnce` for an unthemed screen: every
     * direction of the shuffled order whose edge is open and whose neighbour
     * is themed overwrites the result, so the last such direction wins.
     */
    method Inherit(themes: array2<Option<Tile>>, p: Point, order: seq<Dir>) returns (t: Option<Tile>)
      requires Valid() && OpenInGrid() && ThemeGrid(themes) && InGrid(p)
      ensures t.None? <==> forall j :: 0 <= j < |order| ==> !Feeds(themes, p, order[j])
      ensures t.Some? ==>
        (exists i :: 0 <= i < |order| && LastFeeder(themes, p, order, i, |order|) &&
           t == NeighbourTheme(themes, p, order[i]))
    {
      t := None;
      ghost var last: int := -1;
      for k := 0 to |order|
        invariant -1 <= last < k && (t.None? <==> last == -1)
        invariant last == -1 ==> forall j :: 0 <= j < k ==> !Feeds(themes, p, order[j])
        invariant last >= 0 ==> LastFeeder(themes, p, order, last, k) && t == NeighbourTheme(themes, p, order[last])
      {
        var d := order[k];
        var q := Step(p, d);
        if cells[p.x, p.y].EdgeOf(d) != Wall {
          OpenNeighbourInGrid(p, d);
        }
        if cells[p.x, p.y].EdgeOf(d) != Wall && themes[q.x, q.y].Some? {
          t := themes[q.x, q.y];
          last := k;
        }
      }
    }

    lemma {:induction false} EveryDirIn(order: seq<Dir>, d: Dir)
      requires multiset(order) == multiset(Dirs)
      ensures d in order
    {
      assert d in multiset(Dirs);
    }

    /** One unthemed screen of a pass: shuffle the directions, then inherit. */
    method SpreadCellOnce(themes: array2<Option<Tile>>, p: Point, directions: seq<Dir>)
      returns (t: Option<Tile>, directions': seq<Dir>)
      requires Valid() && OpenInGrid() && ThemeGrid(themes) && InGrid(p)
      requires themes[p.x, p.y].None? && multiset(directions) == multiset(Dirs)
      modifies rng
      ensures SpreadCell(themes, p, t) && multiset(directions') == multiset(Dirs)
    {
      directions' := rng.Shuffle(directions);
      t := Inherit(themes, p, directions');
      forall d
        ensures d in directions'
      {
        EveryDirIn(directions', d);
      }
      if t.Some? {
        ghost var i :| 0 <= i < |directions'| && LastFeeder(themes, p, directions', i, |directions'|) &&
          t == NeighbourTheme(themes, p, directions'[i]);
        assert Feeds(themes, p, directions'[i]);
      } else {
        forall d
          ensures !Feeds(themes, p, d)
        {
          var j :| 0 <= j < |directions'| && directions'[j] == d;
        }
      }
    }

    /** The inner loop of `spreadThemesOnce`: column x of the new buffer. */
    method SpreadColumn(themes: array2<Option<Tile>>, themes2: array2<Option<Tile>>, x: nat,
                        directions: seq<Dir>) returns (directions': seq<Dir>)
      requires Valid() && OpenInGrid() && ThemeGrid(themes) && ThemeGrid(themes2) && themes2 != themes
      requires x < width && multiset(directions) == multiset(Dirs)
      modifies rng, themes2
      ensures multiset(directions') == multiset(Dirs)
      ensures forall y :: 0 <= y < height ==> SpreadCell(themes, Point(x, y), themes2[x, y])
      ensures forall x', y :: 0 <= x' < width && x' != x && 0 <= y < height ==> themes2[x', y] == old(themes2[x', y])
    {
      directions' := directions;
      for y := 0 to height
        invariant multiset(directions') == multiset(Dirs)
        invariant forall y' :: 0 <= y' < y ==> SpreadCell(themes, Point(x, y'), themes2[x, y'])
        invariant forall x', y :: 0 <= x' < width && x' != x && 0 <= y < height ==> themes2[x', y] == old(themes2[x', y])
      {
        if themes[x, y].Some? {
          themes2[x, y] := themes[x, y];
        } else {
          var t;
          t, directions' := SpreadCellOnce(themes, Point(x, y), directions');
          themes2[x, y] := t;
        }
      }
    }

    /**
     * `spreadThemesOnce`: a fresh buffer in which every screen is as
     * `SpreadCell` says. The directions list is reshuffled for every
     * unthemed screen and stays a permutation of N, S, W, E.
     */
    method SpreadThemesOnce(themes: array2<Option<Tile>>) returns (themes2: array2<Option<Tile>>)
      requires Valid() && OpenInGrid() && ThemeGrid(themes)
      modifies rng
      ensures fresh(themes2) && ThemeGrid(themes2)
      ensures forall x, y :: 0 <= x < width && 0 <= y < height ==> SpreadCell(themes, Point(x, y), themes2[x, y])
    {
      themes2 := new Option<Tile>[width, height]((x, y) => None);
      var directions := Dirs;
      for x := 0 to width
        invariant multiset(directions) == multiset(Dirs)
        invariant forall x', y' :: 0 <= x' < x && 0 <= y' < height ==>
          SpreadCell(themes, Point(x', y'), themes2[x', y'])
      {
        directions := SpreadColumn(themes, themes2, x, directions);
      }
    }
  
    lemma {:induction false} ThemedAll(themes: array2<Option<Tile>>)
      requires ThemeGrid(themes)
      ensures Themed(themes) <= AllCells()
      ensures Themed(themes) == AllCells() <==>
        (forall x, y :: 0 <= x < width && 0 <= y < height ==> themes[x, y].Some?)
    {
      if forall x, y :: 0 <= x < width && 0 <= y < height ==> themes[x, y].Some? {
        forall c | c in AllCells()
          ensures c in Themed(themes)
        {
          assert themes[c.x, c.y].Some?;
        }
      }
      if Themed(themes) == AllCells() {
        forall x, y | 0 <= x < width && 0 <= y < height
          ensures themes[x, y].Some?
        {
          assert Point(x, y) in AllCells();
        }
      }
    }

    /** A pass keeps every theme already placed, and places only seed walls. */
    lemma {:induction false} SpreadKeeps(themes: array2<Option<Tile>>, themes2: array2<Option<Tile>>)
      requires Valid() && ThemeGrid(themes) && ThemeGrid(themes2)
      requires forall x, y :: 0 <= x < width && 0 <= y < height ==> SpreadCell(themes, Point(x, y), themes2[x, y])
      ensures forall x, y :: 0 <= x < width && 0 <= y < height && themes[x, y].Some? ==> themes2[x, y] == themes[x, y]
      ensures ThemeWalls(themes) ==> ThemeWalls(themes2)
    {
      if ThemeWalls(themes) {
        forall x, y | 0 <= x < width && 0 <= y < height && themes2[x, y].Some?
          ensures IsThemeWall(themes2[x, y].value)
        {
          var c := Point(x, y);
          assert SpreadCell(themes, c, themes2[x, y]);
          if themes[x, y].None? {
            var d :| Feeds(themes, c, d) && themes2[x, y] == NeighbourTheme(themes, c, d);
          }
        }
      }
    }

    /**
     * On a connected, walled-in map a pass over a partly themed buffer themes
     * at least one more screen: the progress measure of
     * `spreadThemesUntilComplete`.
     */
    lemma {:induction false} SpreadGrows(m: ScreenMap, themes: array2<Option<Tile>>, themes2: array2<Option<Tile>>)
      requires Valid() && Shows(m) && WellFormed(m) && Connected(m)
      requires ThemeGrid(themes) && ThemeGrid(themes2)
      requires forall x, y :: 0 <= x < width && 0 <= y < height ==> SpreadCell(themes, Point(x, y), themes2[x, y])
      ensures Themed(themes) <= Themed(themes2) <= AllCells()
      ensures Themed(themes) != {} && Themed(themes) != AllCells() ==>
        AllCells() - Themed(themes2) < AllCells() - Themed(themes)
    {
      var T := Themed(themes);
      ThemedAll(themes);
      ThemedAll(themes2);
      forall c | c in T
        ensures c in Themed(themes2)
      {
        assert SpreadCell(themes, c, themes2[c.x, c.y]);
      }
      if T != {} && T != AllCells() {
        var q := FrontierScreen(m, themes);
        assert SpreadCell(themes, q, themes2[q.x, q.y]);
        assert q in Themed(themes2);
      }
    }

    /** An unthemed screen with an open edge to a themed one exists while the buffer is partly themed. */
    lemma {:induction false} FrontierScreen(m: ScreenMap, themes: array2<Option<Tile>>) returns (q: Point)
      requires Valid() && Shows(m) && WellFormed(m) && Connected(m) && ThemeGrid(themes)
      requires Themed(themes) != {} && Themed(themes) != AllCells()
      ensures InGrid(q) && themes[q.x, q.y].None? && exists d :: Feeds(themes, q, d)
    {
      var T := Themed(themes);
      ThemedAll(themes);
      var a :| a in T;
      var b :| b in AllCells() && b !in T;
      var d;
      q, d := FrontierInward(m, T, a, b);
      assert At(m, q) == cells[q.x, q.y];
      assert Step(q, d) in T;
      assert Feeds(themes, q, d);
    }

    /** The counting loop of `spreadThemesUntilComplete`: zero exactly when every screen is themed. */
    method CountUnthemed(themes: array2<Option<Tile>>) returns (n: nat)
      requires ThemeGrid(themes)
      ensures n == 0 <==> forall x, y :: 0 <= x < width && 0 <= y < height ==> themes[x, y].Some?
    {
      n := 0;
      for x := 0 to width
        invariant n == 0 <==> forall x', y' :: 0 <= x' < x && 0 <= y' < height ==> themes[x', y'].Some?
      {
        for y := 0 to height
          invariant n == 0 <==>
            (forall x', y' :: 0 <= x' < x && 0 <= y' < height ==> themes[x', y'].Some?) &&
            (forall y' :: 0 <= y' < y ==> themes[x, y'].Some?)
        {
          if themes[x, y].None? {
            n := n + 1;
          }
        }
      }
    }

    /** `placeThemes`: every themed screen takes its theme as its wall; nothing else changes. */
    method PlaceThemes(themes: array2<Option<Tile>>)
      requires Valid() && width > 0 && ThemeGrid(themes)
      modifies cells
      ensures forall x, y :: 0 <= x < width && 0 <= y < height ==>
        cells[x, y] == if themes[x, y].Some? then old(cells[x, y]).(defaultWall := themes[x, y]) else old(cells[x, y])
      ensures EdgesKept(old(Snap()), Snap())
    {
      ghost var m := Snap();
      for x := 0 to width
        invariant forall x', y :: 0 <= x' < width && 0 <= y < height ==>
          cells[x', y] == if x' < x && themes[x', y].Some? then old(cells[x', y]).(defaultWall := themes[x', y])
                          else old(cells[x', y])
      {
        for y := 0 to height
          invariant forall x', y' :: 0 <= x' < width && 0 <= y' < height ==>
            cells[x', y'] == if (x' < x || (x' == x && y' < y)) && themes[x', y'].Some?
                             then old(cells[x', y']).(defaultWall := themes[x', y']) else old(cells[x', y'])
        {
          if themes[x, y].Some? {
            cells[x, y] := cells[x, y].(defaultWall := themes[x, y]);
          }
        }
      }
      forall p | In(m, p)
        ensures SameEdges(At(m, p), At(Snap(), p))
      {
        assert At(m, p) == old(cells[p.x, p.y]);
      }
    }

    /** One iteration of the do-while loop of `spreadThemesUntilComplete`: a pass, then the count. */
    method SpreadPass(ghost m: ScreenMap, cur: array2<Option<Tile>>) returns (next: array2<Option<Tile>>, n: nat)
      requires Valid() && Shows(m) && WellFormed(m) && Connected(m) && OpenInGrid()
      requires ThemeGrid(cur) && Themed(cur) != {} && ThemeWalls(cur)
      modifies rng
      ensures fresh(next) && ThemeGrid(next) && Themed(next) != {} && ThemeWalls(next)
      ensures forall x, y :: 0 <= x < width && 0 <= y < height && cur[x, y].Some? ==> next[x, y] == cur[x, y]
      ensures n == 0 <==> forall x, y :: 0 <= x < width && 0 <= y < height ==> next[x, y].Some?
      ensures Themed(cur) != AllCells() ==> AllCells() - Themed(next) < AllCells() - Themed(cur)
    {
      next := SpreadThemesOnce(cur);
      n := CountUnthemed(next);
      SpreadKeeps(cur, next);
      SpreadGrows(m, cur, next);
      ghost var seed :| seed in Themed(cur);
      assert seed in Themed(next);
    }

    /**
     * The do-while loop of `spreadThemesUntilComplete`. On a connected,
     * walled-in map with at least one seed every pass themes another screen,
     * so the loop ends, with every screen themed by a seed wall and the seeds
     * keeping their own.
     */
    method SpreadLoop(ghost m: ScreenMap, themes: array2<Option<Tile>>) returns (cur: array2<Option<Tile>>)
      requires Valid() && Shows(m) && WellFormed(m) && Connected(m) && OpenInGrid()
      requires ThemeGrid(themes) && Themed(themes) != {} && ThemeWalls(themes)
      modifies rng
      ensures ThemeGrid(cur) && ThemeWalls(cur)
      ensures forall x, y :: 0 <= x < width && 0 <= y < height ==> cur[x, y].Some?
      ensures forall x, y :: 0 <= x < width && 0 <= y < height && themes[x, y].Some? ==> cur[x, y] == themes[x, y]
    {
      var n;
      cur, n := SpreadPass(m, themes);
      while n > 0
        invariant ThemeGrid(cur) && Themed(cur) != {} && ThemeWalls(cur)
        invariant forall x, y :: 0 <= x < width && 0 <= y < height && themes[x, y].Some? ==> cur[x, y] == themes[x, y]
        invariant n == 0 <==> forall x, y :: 0 <= x < width && 0 <= y < height ==> cur[x, y].Some?
        decreases AllCells() - Themed(cur)
      {
        ThemedAll(cur);
        cur, n := SpreadPass(m, cur);
      }
    }

    /**
     * `spreadThemesUntilComplete`: passes until no screen is unthemed, then
     * `placeThemes`. On a connected, walled-in map with at least one seed
     * every pass themes another screen, so the loop ends; every screen then
     * has a seed wall, the seeds keep their own, and no edge or flag changes.
     */
    method SpreadThemesUntilComplete(themes: array2<Option<Tile>>)
      requires Valid() && width > 0 && height > 0 && WellFormed(Snap()) && Connected(Snap())
      requires ThemeGrid(themes) && Themed(themes) != {} && ThemeWalls(themes)
      modifies rng, cells
      ensures EdgesKept(old(Snap()), Snap())
      ensures forall x, y :: 0 <= x < width && 0 <= y < height ==>
        cells[x, y].defaultWall.Some? && IsThemeWall(cells[x, y].defaultWall.value) &&
        cells[x, y] == old(cells[x, y]).(defaultWall := cells[x, y].defaultWall)
      ensures forall x, y :: 0 <= x < width && 0 <= y < height && themes[x, y].Some? ==>
        cells[x, y].defaultWall == themes[x, y]
    {
      ghost var m0 := Snap();
      WellFormedOpenInGrid();
      assert Shows(m0);
      var cur := SpreadLoop(m0, themes);
      PlaceThemes(cur);
    }
  

    /**
     * One round of the seed loop of `addThemesToCells`: draw a screen, and
     * seed it with `theme` if it is still unthemed, else draw again. The Java
     * loop retries without bound; here at most `fuel` draws of a position are made.
     */
    method PlaceSeed(themes: array2<Option<Tile>>, theme: Tile, fuel: nat) returns (placed: Option<Point>)
      requires Valid() && width > 0 && height > 0 && ThemeGrid(themes)
      modifies rng, themes
      ensures placed.Some? ==> InGrid(placed.value) && old(themes[placed.value.x, placed.value.y]).None?
      ensures forall x, y :: 0 <= x < width && 0 <= y < height ==>
        themes[x, y] == if placed == Some(Point(x, y)) then Some(theme) else old(themes[x, y])
      ensures fuel > 0 && (forall x, y :: 0 <= x < width && 0 <= y < height ==> old(themes[x, y]).None?) ==>
        placed.Some?
      ensures placed.None? ==> rng.drawn == old(rng.drawn) + 2 * fuel
      ensures fuel > 0 ==> old(rng.drawn) + 2 <= rng.drawn <= old(rng.drawn) + 2 * fuel
    {
      placed := None;
      var tries := 0;
      while tries < fuel && placed.None?
        invariant tries <= fuel && (tries == 0 ==> placed.None?)
        invariant placed.Some? ==> InGrid(placed.value) && old(themes[placed.value.x, placed.value.y]).None?
        invariant forall x, y :: 0 <= x < width && 0 <= y < height ==>
          themes[x, y] == if placed == Some(Point(x, y)) then Some(theme) else old(themes[x, y])
        invariant tries > 0 && (forall x, y :: 0 <= x < width && 0 <= y < height ==> old(themes[x, y]).None?) ==>
          placed.Some?
        invariant rng.drawn == old(rng.drawn) + 2 * tries
      {
        var x := rng.NextInt(width);
        var y := rng.NextInt(height);
        if themes[x, y].None? {
          themes[x, y] := Some(theme);
          placed := Some(Point(x, y));
        }
        tries := tries + 1;
      }
    }

    /**
     * The seed loop of `addThemesToCells`: the fourteen seeds of `ThemeSeeds`
     * in order, each on a screen no earlier seed took. Every themed screen
     * carries one of the seeds, and the first seed always finds a screen.
     */
    method SeedThemes(themes: array2<Option<Tile>>, fuel: nat) returns (ghost first: Point)
      requires Valid() && width > 0 && height > 0 && ThemeGrid(themes) && fuel > 0
      requires forall x, y :: 0 <= x < width && 0 <= y < height ==> themes[x, y].None?
      modifies rng, themes
      ensures InGrid(first) && themes[first.x, first.y] == Some(ThemeSeeds[0])
      ensures forall x, y :: 0 <= x < width && 0 <= y < height && themes[x, y].Some? ==>
        themes[x, y].value in ThemeSeeds
    {
      var placed := PlaceSeed(themes, ThemeSeeds[0], fuel);
      first := placed.value;
      for i := 1 to |ThemeSeeds|
        invariant InGrid(first) && themes[first.x, first.y] == Some(ThemeSeeds[0])
        invariant forall x, y :: 0 <= x < width && 0 <= y < height && themes[x, y].Some? ==>
          themes[x, y].value in ThemeSeeds
      {
        placed := PlaceSeed(themes, ThemeSeeds[i], fuel);
      }
    }

    /**
     * `setThemeGround`: every screen gets the ground family of its wall theme.
     * The Java switch on a null wall throws, so every screen must have one.
     */
    method SetThemeGround()
      requires Valid() && width > 0
      requires forall x, y :: 0 <= x < width && 0 <= y < height ==> cells[x, y].defaultWall.Some?
      modifies cells
      ensures forall x, y :: 0 <= x < width && 0 <= y < height ==>
        old(cells[x, y]).defaultWall.Some? && cells[x, y] == ThemeGround(old(cells[x, y]))
      ensures EdgesKept(old(Snap()), Snap())
    {
      ghost var m := Snap();
      for x := 0 to width
        invariant forall x', y :: 0 <= x' < width && 0 <= y < height ==>
          old(cells[x', y]).defaultWall.Some? &&
          cells[x', y] == if x' < x then ThemeGround(old(cells[x', y])) else old(cells[x', y])
      {
        for y := 0 to height
          invariant forall x', y' :: 0 <= x' < width && 0 <= y' < height ==>
            old(cells[x', y']).defaultWall.Some? &&
            cells[x', y'] == if x' < x || (x' == x && y' < y) then ThemeGround(old(cells[x', y'])) else old(cells[x', y'])
        {
          cells[x, y] := ThemeGround(cells[x, y]);
        }
      }
      forall p | In(m, p)
        ensures SameEdges(At(m, p), At(Snap(), p))
      {
        assert At(m, p) == old(cells[p.x, p.y]);
      }
    }

    /** Every seed of `ThemeSeeds` is a theme wall. */
    lemma {:induction false} SeedsAreThemeWalls(themes: array2<Option<Tile>>)
      requires ThemeGrid(themes)
      requires forall x, y :: 0 <= x < width && 0 <= y < height && themes[x, y].Some? ==>
        themes[x, y].value in ThemeSeeds
      ensures ThemeWalls(themes)
    {
      forall x, y | 0 <= x < width && 0 <= y < height && themes[x, y].Some?
        ensures IsThemeWall(themes[x, y].value)
      {
        var i :| 0 <= i < |ThemeSeeds| && ThemeSeeds[i] == themes[x, y].value;
      }
    }

    /**
     * `addThemesToCells`: seed, spread until every screen has a theme wall,
     * then set each screen's ground. Every screen ends with a theme wall and
     * the matching ground; no edge and no flag changes, so the maze stays
     * walled in, mirrored and connected.
     */
    method AddThemes(fuel: nat)
      requires Valid() && width > 0 && height > 0 && WellFormed(Snap()) && Connected(Snap()) && fuel > 0
      modifies rng, cells
      ensures EdgesKept(old(Snap()), Snap()) && WellFormed(Snap()) && Connected(Snap())
      ensures forall x, y :: 0 <= x < width && 0 <= y < height ==>
        ThemedScreen(cells[x, y]) && SameFlags(old(cells[x, y]), cells[x, y])
    {
      ghost var m0 := Snap();
      var themes := new Option<Tile>[width, height]((x, y) => None);
      ghost var first := SeedThemes(themes, fuel);
      assert first in Themed(themes);
      SeedsAreThemeWalls(themes);
      SpreadThemesUntilComplete(themes);
      ghost var m1 := Snap();
      label grounding:
      SetThemeGround();
      forall x, y | 0 <= x < width && 0 <= y < height
        ensures ThemedScreen(cells[x, y]) && SameFlags(old(cells[x, y]), cells[x, y])
      {
        ThemeGroundThemed(old@grounding(cells[x, y]));
      }
      EdgesKeptTrans(m0, m1, Snap());
      EdgesKeptStructure(m0, Snap());
    }
  

    // ---- Desert ----

    /** The writes of `addDesertToCells` at the origin (x, y), screen by screen. */
    method PaintDesert(x: int, y: int)
      requires Valid() && 0 <= x && x + 1 < width && 0 <= y && y + 1 < height
      modifies cells
      ensures forall i, j :: 0 <= i < width && 0 <= j < height ==>
        cells[i, j] == DesertAt(old(cells[i, j]), x, y, Point(i, j))
    {
      cells[x, y] := Sand(cells[x, y]).(sEdge := Wide, eEdge := Wide);
      cells[x + 1, y] := Sand(cells[x + 1, y]).(sEdge := Wide, wEdge := Wide);
      cells[x, y + 1] := Sand(cells[x, y + 1]).(nEdge := Wide, eEdge := Wide);
      cells[x + 1, y + 1] := Sand(cells[x + 1, y + 1]).(nEdge := Wide, wEdge := Wide);
    }

    /**
     * `addDesertToCells`, with the origin drawn by the corrected formula so
     * that the whole 2×2 block lies in the grid: the grid becomes
     * `Desert(old grid, x, y)`.
     */
    method AddDesert() returns (x: int, y: int)
      requires Valid() && width >= 3 && height >= 3
      modifies cells, rng
      ensures 1 <= x && x + 1 < width && 1 <= y && y + 1 < height
      ensures rng.drawn == old(rng.drawn) + 2
      ensures Snap() == DesertBlock(old(Snap()), x, y)
    {
      ghost var m := Snap();
      var r := rng.NextDouble();
      x := DesertOrigin(r, width);
      r := rng.NextDouble();
      y := DesertOrigin(r, height);
      PaintDesert(x, y);
      ghost var m' := DesertBlock(m, x, y);
      forall i, j | 0 <= i < width && 0 <= j < height
        ensures cells[i, j] == m'[i][j]
      {
        assert At(m', Point(i, j)) == m'[i][j];
      }
      SnapIs(m');
    }
  

    // ---- Tiles ----

    /** The tiles of screen (sx, sy). */
    function ScreenBox(sx: int, sy: int): (b: Box)
      ensures forall i, j :: b.Has(i, j) <==>
        sx * ScreenWidth <= i < sx * ScreenWidth + ScreenWidth && sy * ScreenHeight <= j < sy * ScreenHeight + ScreenHeight
    {
      Box(sx * ScreenWidth, sy * ScreenHeight, ScreenWidth, ScreenHeight)
    }

    /**
     * `clear(x, y, w, h, tile)`: the variation of `tile` on every tile of the
     * box [x, x+w) × [y, y+h) that lies in the grid; no other tile changes.
     */
    method Clear(x: int, y: int, w: int, h: int, tile: Tile)
      requires Valid()
      modifies tiles
      ensures forall i, j :: 0 <= i < tiles.Length0 && 0 <= j < tiles.Length1 ==>
        tiles[i, j] == if Box(x, y, w, h).Has(i, j) then terrain.variation(tile, i, j) else old(tiles[i, j])
    {
      var x2 := x;
      while x2 < x + w
        invariant x <= x2 && (x2 <= x + w || x2 == x)
        invariant forall i, j :: 0 <= i < tiles.Length0 && 0 <= j < tiles.Length1 ==>
          tiles[i, j] == if Box(x, y, x2 - x, h).Has(i, j) then terrain.variation(tile, i, j) else old(tiles[i, j])
      {
        var y2 := y;
        while y2 < y + h
          invariant y <= y2 && (y2 <= y + h || y2 == y)
          invariant forall i, j :: 0 <= i < tiles.Length0 && 0 <= j < tiles.Length1 ==>
            tiles[i, j] == if Box(x, y, x2 - x, h).Has(i, j) || (i == x2 && y <= j < y2)
                           then terrain.variation(tile, i, j) else old(tiles[i, j])
        {
          if x2 >= 0 && y2 >= 0 && x2 < tiles.Length0 && y2 < tiles.Length1 {
            tiles[x2, y2] := terrain.variation(tile, x2, y2);
          }
          y2 := y2 + 1;
        }
        x2 := x2 + 1;
      }
    }

    /** `getRandomWall`: one entry of the wall table, so always a theme wall. */
    method GetRandomWall() returns (t: Tile)
      modifies rng
      ensures t in RandomWalls && IsThemeWall(t)
      ensures rng.drawn == old(rng.drawn) + 1
    {
      var k := rng.NextInt(|RandomWalls|);
      t := RandomWall(k);
    }

    /** The local wall variant of `addMap`: the theme wall two times in three, else a random wall; then a rare statue. */
    method DrawLocal(wall: Tile) returns (local: Tile)
      modifies rng
      ensures local == wall || local == Statue || local in RandomWalls
      ensures old(rng.drawn) + 2 <= rng.drawn <= old(rng.drawn) + 3
    {
      var r := rng.NextDouble();
      if r < 0.66 {
        local := wall;
      } else {
        local := GetRandomWall();
      }
      r := rng.NextDouble();
      if r < 0.025 {
        local := Statue;
      }
    }

    /** The special tile of `addMap`: a statue one time in ten, else the floor or the wall evenly. */
    method DrawSpecial(floor: Tile, wall: Tile) returns (special: Tile)
      modifies rng
      ensures special == Statue || special == floor || special == wall
      ensures old(rng.drawn) + 1 <= rng.drawn <= old(rng.drawn) + 2
    {
      var r := rng.NextDouble();
      if r < 0.10 {
        special := Statue;
      } else {
        r := rng.NextDouble();
        special := if r < 0.50 then floor else wall;
      }
    }

    /**
     * The draws `addMap` makes before stamping: the local wall variant, the
     * special tile, and the white-wall overrides. Floor and wall are the
     * screen's theme.
     */
    method DrawPalette(sx: int, sy: int, specific: Tile) returns (pal: Palette)
      requires Valid() && 0 <= sx < width && 0 <= sy < height
      requires cells[sx, sy].defaultGround.Some? && cells[sx, sy].defaultWall.Some?
      modifies rng
      ensures pal.floor == cells[sx, sy].defaultGround.value && pal.wall == cells[sx, sy].defaultWall.value
      ensures pal.wall == WhiteWall ==>
        pal.local == StatueWhite && pal.special == StatueWhite && pal.bridge == WhiteTile1 &&
        pal.specific == if specific == Water1 || specific == Lava1 || specific == Bridge then specific else StatueWhite
      ensures pal.wall != WhiteWall ==>
        pal.bridge == Bridge && pal.specific == specific &&
        (pal.local == pal.wall || pal.local == Statue || pal.local in RandomWalls) &&
        (pal.special == Statue || pal.special == pal.floor || pal.special == pal.wall)
      ensures old(rng.drawn) + 3 <= rng.drawn <= old(rng.drawn) + 5
    {
      var floor := cells[sx, sy].defaultGround.value;
      var wall := cells[sx, sy].defaultWall.value;
      var local := DrawLocal(wall);
      var special := DrawSpecial(floor, wall);
      if wall == WhiteWall {
        var keep := specific == Water1 || specific == Lava1 || specific == Bridge;
        pal := Palette(floor, wall, StatueWhite, StatueWhite, if keep then specific else StatueWhite, WhiteTile1);
      } else {
        pal := Palette(floor, wall, local, special, specific, Bridge);
      }
    }

    /**
     * The stamping loop of `addMap`: character x + 19y of the stencil decides
     * tile (x, y) of the screen; no tile outside the screen changes.
     */
    method Stamp(sx: int, sy: int, data: seq<char>, pal: Palette)
      requires Valid() && 0 <= sx < width && 0 <= sy < height && |data| == ScreenWidth * ScreenHeight
      modifies tiles
      ensures forall i, j :: 0 <= i < tiles.Length0 && 0 <= j < tiles.Length1 ==>
        tiles[i, j] ==
          if ScreenBox(sx, sy).Has(i, j)
          then StencilTile(data[StencilIndex(i - sx * ScreenWidth, j - sy * ScreenHeight)], pal, terrain.variation,
                           old(tiles[i, j]), i, j)
          else old(tiles[i, j])
    {
      var mx, my := sx * ScreenWidth, sy * ScreenHeight;
      for x := 0 to ScreenWidth
        invariant forall i, j :: 0 <= i < tiles.Length0 && 0 <= j < tiles.Length1 ==>
          tiles[i, j] ==
            if Box(mx, my, x, ScreenHeight).Has(i, j)
            then StencilTile(data[StencilIndex(i - mx, j - my)], pal, terrain.variation, old(tiles[i, j]), i, j)
            else old(tiles[i, j])
      {
        for y := 0 to ScreenHeight
          invariant forall i, j :: 0 <= i < tiles.Length0 && 0 <= j < tiles.Length1 ==>
            tiles[i, j] ==
              if Box(mx, my, x, ScreenHeight).Has(i, j) || (i == mx + x && my <= j < my + y)
              then StencilTile(data[StencilIndex(i - mx, j - my)], pal, terrain.variation, old(tiles[i, j]), i, j)
              else old(tiles[i, j])
        {
          var c := data[StencilIndex(x, y)];
          if Writes(c) {
            tiles[mx + x, my + y] := StencilTile(c, pal, terrain.variation, tiles[mx + x, my + y], mx + x, my + y);
          }
        }
      }
    }

    /**
     * `addMap(sx, sy, data, specificTile)` for a 171-character stencil: draw
     * the palette, then stamp. Blanks keep their tile, every '&' gets the
     * palette's one special tile, and nothing outside the screen changes.
     */
    method AddMap(sx: int, sy: int, data: seq<char>, specific: Tile) returns (pal: Palette)
      requires Valid() && 0 <= sx < width && 0 <= sy < height && |data| == ScreenWidth * ScreenHeight
      requires cells[sx, sy].defaultGround.Some? && cells[sx, sy].defaultWall.Some?
      modifies rng, tiles
      ensures pal.floor == cells[sx, sy].defaultGround.value && pal.wall == cells[sx, sy].defaultWall.value
      ensures pal.wall == WhiteWall ==>
        pal.local == StatueWhite && pal.special == StatueWhite && pal.bridge == WhiteTile1 &&
        pal.specific == if specific == Water1 || specific == Lava1 || specific == Bridge then specific else StatueWhite
      ensures pal.wall != WhiteWall ==>
        pal.bridge == Bridge && pal.specific == specific &&
        (pal.local == pal.wall || pal.local == Statue || pal.local in RandomWalls) &&
        (pal.special == Statue || pal.special == pal.floor || pal.special == pal.wall)
      ensures old(rng.drawn) + 3 <= rng.drawn <= old(rng.drawn) + 5
      ensures forall i, j :: 0 <= i < tiles.Length0 && 0 <= j < tiles.Length1 ==>
        tiles[i, j] ==
          if ScreenBox(sx, sy).Has(i, j)
          then StencilTile(data[StencilIndex(i - sx * ScreenWidth, j - sy * ScreenHeight)], pal, terrain.variation,
                           old(tiles[i, j]), i, j)
          else old(tiles[i, j])
    {
      pal := DrawPalette(sx, sy, specific);
      Stamp(sx, sy, data, pal);
    }

    /** One side of `convertEdgesToCenter`, written as the Java writes it: the screen's edge, then its neighbour's. */
    method CenterSide(p: Point, d: Dir)
      requires Valid() && width > 0 && InGrid(p) && BorderWalls(Snap())
      modifies cells
      ensures Snap() == CenterEdge(old(Snap()), p, d)
    {
      ghost var m := Snap();
      assert At(m, p) == cells[p.x, p.y];
      if cells[p.x, p.y].EdgeOf(d) != Wall {
        CenterEdgeFacts(m, p, d);
        var q := Step(p, d);
        StepBack(p, d);
        cells[p.x, p.y] := cells[p.x, p.y].WithEdge(d, Center);
        cells[q.x, q.y] := cells[q.x, q.y].WithEdge(Opposite(d), Center);
        ghost var m' := Connect(m, p, d, Center);
        ConnectWrites(m, p, d, Center);
        forall x, y | 0 <= x < width && 0 <= y < height
          ensures cells[x, y] == m'[x][y]
        {
          assert At(m', Point(x, y)) == m'[x][y];
          assert At(m, Point(x, y)) == m[x][y];
        }
        SnapIs(m');
      }
    }

    /**
     * `convertEdgesToCenter(sx, sy)`: the grid becomes `CenterEdges` of the old
     * one, which keeps it well formed with the same openings.
     */
    method ConvertEdgesToCenter(sx: int, sy: int)
      requires Valid() && 0 <= sx < width && 0 <= sy < height && BorderWalls(Snap())
      modifies cells
      ensures Snap() == CenterEdges(old(Snap()), Point(sx, sy))
    {
      var p := Point(sx, sy);
      CenterSide(p, N);
      CenterSide(p, E);
      CenterSide(p, S);
      CenterSide(p, W);
    }

    /** Tile (i, j) lies in the cut `addBorderOpenings` makes on side d of screen (sx, sy) whose edges are those of s. */
    predicate InSide(s: Screen, sx: int, sy: int, d: Dir, i: int, j: int)
    {
      var b := OpeningBox(d, s.EdgeOf(d));
      b.Some? && b.value.Shift(sx * ScreenWidth, sy * ScreenHeight).Has(i, j)
    }

    /** Tile (i, j) lies in one of the four cuts. */
    predicate InOpening(s: Screen, sx: int, sy: int, i: int, j: int)
    {
      InSide(s, sx, sy, N, i, j) || InSide(s, sx, sy, S, i, j) ||
      InSide(s, sx, sy, W, i, j) || InSide(s, sx, sy, E, i, j)
    }

    /** One of the four `if` chains of `addBorderOpenings`: clear the cut of side d to the screen's ground. */
    method OpenSide(sx: int, sy: int, d: Dir)
      requires Valid() && 0 <= sx < width && 0 <= sy < height
      requires cells[sx, sy].EdgeOf(d) != Wall ==> cells[sx, sy].defaultGround.Some?
      modifies tiles
      ensures forall i, j :: 0 <= i < tiles.Length0 && 0 <= j < tiles.Length1 ==>
        tiles[i, j] == if InSide(cells[sx, sy], sx, sy, d, i, j)
                       then terrain.variation(cells[sx, sy].defaultGround.value, i, j) else old(tiles[i, j])
    {
      match OpeningBox(d, cells[sx, sy].EdgeOf(d))
      case None =>
      case Some(b) =>
        var c := b.Shift(sx * ScreenWidth, sy * ScreenHeight);
        Clear(c.x, c.y, c.w, c.h, cells[sx, sy].defaultGround.value);
    }

    /**
     * `addBorderOpenings(sx, sy)`: every open edge gets its cut cleared to
     * ground, north, south, west, east; a tile in two cuts gets the same
     * ground either way, and no tile outside the cuts changes.
     */
    method AddBorderOpenings(sx: int, sy: int)
      requires Valid() && 0 <= sx < width && 0 <= sy < height
      requires Openings(cells[sx, sy]) > 0 ==> cells[sx, sy].defaultGround.Some?
      modifies tiles
      ensures forall i, j :: 0 <= i < tiles.Length0 && 0 <= j < tiles.Length1 ==>
        tiles[i, j] == if InOpening(cells[sx, sy], sx, sy, i, j)
                       then terrain.variation(cells[sx, sy].defaultGround.value, i, j) else old(tiles[i, j])
    {
      OpenSide(sx, sy, N);
      OpenSide(sx, sy, S);
      OpenSide(sx, sy, W);
      OpenSide(sx, sy, E);
    }

    /** The cuts of a screen lie inside it. */
    lemma {:induction false} OpeningsInScreen(s: Screen, sx: int, sy: int, i: int, j: int)
      requires InOpening(s, sx, sy, i, j)
      ensures ScreenBox(sx, sy).Has(i, j)
    {
      if !InSide(s, sx, sy, N, i, j) && !InSide(s, sx, sy, S, i, j) && !InSide(s, sx, sy, W, i, j) {
        assert InSide(s, sx, sy, E, i, j);
      }
    }

    // ---- Quarter walls ----

    /** The five tiles at and around the centre of screen (sx, sy), as `addExtraQuarterScreenOfWalls` lists them. */
    const CenterOffsets: seq<(int, int)> := [(0, 0), (0, -1), (0, 1), (-1, 0), (1, 0)]

    /** How many of the first n centre tiles differ from the ground (an unset ground is null). */
    ghost function Blockers(sx: int, sy: int, n: nat): (k: nat)
      requires Valid() && 0 <= sx < width && 0 <= sy < height && n <= |CenterOffsets|
      reads this, cells, tiles
      ensures k <= n
    {
      if n == 0 then 0
      else
        var (dx, dy) := CenterOffsets[n - 1];
        var i, j := sx * ScreenWidth + HalfWidth + dx, sy * ScreenHeight + HalfHeight + dy;
        Blockers(sx, sy, n - 1) + if tiles[i, j] != OrNull(cells[sx, sy].defaultGround) then 1 else 0
    }

    /** The `centerBlockers` loop. */
    method CenterBlockers(sx: int, sy: int) returns (count: nat)
      requires Valid() && 0 <= sx < width && 0 <= sy < height
      ensures count == Blockers(sx, sy, |CenterOffsets|) && count <= 5
    {
      count := 0;
      for n := 0 to |CenterOffsets|
        invariant count == Blockers(sx, sy, n)
      {
        var (dx, dy) := CenterOffsets[n];
        if tiles[sx * ScreenWidth + HalfWidth + dx, sy * ScreenHeight + HalfHeight + dy]
           != OrNull(cells[sx, sy].defaultGround) {
          count := count + 1;
        }
      }
    }

    /** One quadrant of `addExtraQuarterScreenOfWalls`: a one-in-ten draw, then the edge rule. */
    method TryQuarter(sx: int, sy: int, q: nat) returns (filled: bool)
      requires Valid() && 0 <= sx < width && 0 <= sy < height && q < 4
      requires cells[sx, sy].defaultWall.Some?
      modifies rng, tiles
      ensures filled ==> QuarterAllowed(cells[sx, sy], q)
      ensures rng.drawn == old(rng.drawn) + 1
      ensures forall i, j :: 0 <= i < tiles.Length0 && 0 <= j < tiles.Length1 ==>
        tiles[i, j] == if filled && QuarterBox(q).Shift(sx * ScreenWidth, sy * ScreenHeight).Has(i, j)
                       then terrain.variation(cells[sx, sy].defaultWall.value, i, j) else old(tiles[i, j])
    {
      var r := rng.NextDouble();
      filled := r < 0.1 && QuarterAllowed(cells[sx, sy], q);
      if filled {
        var b := QuarterBox(q).Shift(sx * ScreenWidth, sy * ScreenHeight);
        Clear(b.x, b.y, b.w, b.h, cells[sx, sy].defaultWall.value);
      }
    }

    /** Tile (i, j) lies in one of the listed quadrants of screen (sx, sy). */
    predicate InQuarters(qs: seq<nat>, sx: int, sy: int, i: int, j: int)
    {
      if qs == [] then false
      else
        var q := qs[|qs| - 1];
        InQuarters(qs[..|qs| - 1], sx, sy, i, j) ||
        (q < 4 && QuarterBox(q).Shift(sx * ScreenWidth, sy * ScreenHeight).Has(i, j))
    }

    /** Against the grid `orig`, exactly the tiles of the listed quadrants hold the variation of `wall`. */
    ghost predicate Quartered(orig: seq<seq<Tile>>, qs: seq<nat>, sx: int, sy: int, wall: Tile)
      reads tiles
    {
      |orig| == tiles.Length0 && (forall i :: 0 <= i < |orig| ==> |orig[i]| == tiles.Length1) &&
      forall i, j :: 0 <= i < tiles.Length0 && 0 <= j < tiles.Length1 ==>
        tiles[i, j] == if InQuarters(qs, sx, sy, i, j) then terrain.variation(wall, i, j) else orig[i][j]
    }

    /** `TryQuarter` with the quadrants walled so far: quadrant q joins them exactly when it is hit. */
    method QuarterStep(sx: int, sy: int, q: nat, ghost orig: seq<seq<Tile>>, ghost qs: seq<nat>) returns (hit: bool)
      requires Valid() && 0 <= sx < width && 0 <= sy < height && q < 4
      requires cells[sx, sy].defaultWall.Some? && Quartered(orig, qs, sx, sy, cells[sx, sy].defaultWall.value)
      modifies rng, tiles
      ensures hit ==> QuarterAllowed(cells[sx, sy], q)
      ensures rng.drawn == old(rng.drawn) + 1
      ensures Quartered(orig, if hit then qs + [q] else qs, sx, sy, cells[sx, sy].defaultWall.value)
    {
      hit := TryQuarter(sx, sy, q);
      QuartersGrow(qs, q, sx, sy);
    }

    /** One more quadrant adds exactly its box to the walled tiles. */
    lemma {:induction false} QuartersGrow(qs: seq<nat>, q: nat, sx: int, sy: int)
      ensures forall i, j :: InQuarters(qs + [q], sx, sy, i, j) <==>
        InQuarters(qs, sx, sy, i, j) || (q < 4 && QuarterBox(q).Shift(sx * ScreenWidth, sy * ScreenHeight).Has(i, j))
    {
      assert (qs + [q])[..|qs|] == qs;
    }

    /**
     * `addExtraQuarterScreenOfWalls(sx, sy)`: on a screen that allows it, each
     * quadrant in turn may be walled; when more than two of the five centre
     * tiles are not ground, the first walled quadrant is the last. The result
     * lists the walled quadrants in order; every one is allowed by the edge
     * rule, and only their tiles change, to the screen's wall.
     */
    method AddExtraQuarterScreenOfWalls(sx: int, sy: int) returns (filled: seq<nat>)
      requires Valid() && 0 <= sx < width && 0 <= sy < height
      requires cells[sx, sy].canAddQuarterSection ==> cells[sx, sy].defaultWall.Some?
      modifies rng, tiles
      ensures !cells[sx, sy].canAddQuarterSection ==> filled == []
      ensures forall k :: 0 <= k < |filled| ==> filled[k] < 4 && QuarterAllowed(cells[sx, sy], filled[k])
      ensures forall k, k' :: 0 <= k < k' < |filled| ==> filled[k] < filled[k']
      ensures old(Blockers(sx, sy, |CenterOffsets|)) > 2 ==> |filled| <= 1
      ensures !cells[sx, sy].canAddQuarterSection ==> rng.drawn == old(rng.drawn)
      ensures cells[sx, sy].canAddQuarterSection ==>
        rng.drawn == old(rng.drawn) + if old(Blockers(sx, sy, |CenterOffsets|)) > 2 && |filled| == 1 then filled[0] + 1 else 4
      ensures forall i, j :: 0 <= i < tiles.Length0 && 0 <= j < tiles.Length1 ==>
        tiles[i, j] == if InQuarters(filled, sx, sy, i, j)
                       then terrain.variation(cells[sx, sy].defaultWall.value, i, j) else old(tiles[i, j])
    {
      filled := [];
      if !cells[sx, sy].canAddQuarterSection {
        return;
      }
      var blockers := CenterBlockers(sx, sy);
      filled := QuarterLoop(sx, sy, blockers > 2);
    }

    /** The four tries of `addExtraQuarterScreenOfWalls`, stopping after the first hit when `allowOnlyOnce`. */
    method QuarterLoop(sx: int, sy: int, allowOnlyOnce: bool) returns (filled: seq<nat>)
      requires Valid() && 0 <= sx < width && 0 <= sy < height && cells[sx, sy].defaultWall.Some?
      modifies rng, tiles
      ensures forall k :: 0 <= k < |filled| ==> filled[k] < 4 && QuarterAllowed(cells[sx, sy], filled[k])
      ensures forall k, k' :: 0 <= k < k' < |filled| ==> filled[k] < filled[k']
      ensures allowOnlyOnce ==> |filled| <= 1
      ensures allowOnlyOnce && |filled| == 1 ==> rng.drawn == old(rng.drawn) + filled[0] + 1
      ensures !(allowOnlyOnce && |filled| == 1) ==> rng.drawn == old(rng.drawn) + 4
      ensures forall i, j :: 0 <= i < tiles.Length0 && 0 <= j < tiles.Length1 ==>
        tiles[i, j] == if InQuarters(filled, sx, sy, i, j)
                       then terrain.variation(cells[sx, sy].defaultWall.value, i, j) else old(tiles[i, j])
    {
      ghost var orig := TileGrid();
      filled := [];
      var wall := cells[sx, sy].defaultWall.value;
      for q := 0 to 4
        invariant forall k :: 0 <= k < |filled| ==> filled[k] < q && QuarterAllowed(cells[sx, sy], filled[k])
        invariant forall k, k' :: 0 <= k < k' < |filled| ==> filled[k] < filled[k']
        invariant allowOnlyOnce ==> |filled| == 0
        invariant rng.drawn == old(rng.drawn) + q
        invariant Quartered(orig, filled, sx, sy, wall)
      {
        var hit := QuarterStep(sx, sy, q, orig, filled);
        if hit {
          filled := filled + [q];
        }
        if hit && allowOnlyOnce {
          return;
        }
      }
    }

    /**
     * Quarter walls never block a narrow border cut: a tile of the CENTER,
     * TOP_LEFT or BOTTOM_RIGHT cut of an open edge lies in no quadrant the
     * edge rule allowed.
     */
    lemma {:induction false} QuartersSpareCuts(s: Screen, filled: seq<nat>, sx: int, sy: int, d: Dir, i: int, j: int)
      requires forall k :: 0 <= k < |filled| ==> filled[k] < 4 && QuarterAllowed(s, filled[k])
      requires s.EdgeOf(d) != Wide && InSide(s, sx, sy, d, i, j)
      ensures !InQuarters(filled, sx, sy, i, j)
    {
      if filled != [] {
        var q := filled[|filled| - 1];
        QuartersSpareCuts(s, filled[..|filled| - 1], sx, sy, d, i, j);
        QuarterSparesOpenings(s, q, d, i - sx * ScreenWidth, j - sy * ScreenHeight);
      }
    }

    // ---- Shoreline ----

    /** The flag writes of one started step of the shoreline walk, standing on screen (sx, sy) of side d. */
    method RaiseShoreFlags(d: Dir, sx: int, sy: int)
      requires Valid() && 0 <= sx < width && 0 <= sy < height
      modifies cells
      ensures forall x, y :: 0 <= x < width && 0 <= y < height ==>
        cells[x, y] == FlagsAt(width, height, d, sx, sy, Point(x, y), old(cells[x, y]))
    {
      var next := NextAlong(d, sx, sy);
      FlagsElsewhere(width, height, d, sx, sy);
      FlagScreen(d, sx, sy, Point(sx, sy));
      if 0 <= next.x < width && 0 <= next.y < height {
        FlagScreen(d, sx, sy, next);
      }
    }

    /** The flag writes of a step from (sx, sy) on side d that fall on screen p. */
    method FlagScreen(d: Dir, sx: int, sy: int, p: Point)
      requires Valid() && InGrid(p)
      modifies cells
      ensures forall x, y :: 0 <= x < width && 0 <= y < height ==>
        cells[x, y] == if Point(x, y) == p then FlagsAt(width, height, d, sx, sy, p, old(cells[x, y])) else old(cells[x, y])
    {
      cells[p.x, p.y] := FlagsAt(width, height, d, sx, sy, p, cells[p.x, p.y]);
    }

    /**
     * One pass of the `addShoreLineToTiles` loop from walker k: paint and
     * flag the screen if the walk has started, move on, and paint the corner
     * when the move turns one.
     */
    method ShoreStep(k: Walker, started: bool) returns (k': Walker)
      requires Valid() && width > 0 && height > 0 && OnShore(width, height, k)
      modifies tiles, cells
      ensures k' == Advance(width, height, k) && OnShore(width, height, k')
      ensures forall x, y :: 0 <= x < width && 0 <= y < height ==>
        cells[x, y] == if started then ShoreFlags(width, height, k, Point(x, y), old(cells[x, y])) else old(cells[x, y])
      ensures forall i, j :: 0 <= i < tiles.Length0 && 0 <= j < tiles.Length1 ==>
        tiles[i, j] == if Paints(width, height, k, started, i, j) then terrain.variation(Water1, i, j) else old(tiles[i, j])
    {
      AdvanceOnShore(width, height, k);
      if started {
        var b := ShoreBox(width, height, k);
        Clear(b.x, b.y, b.w, b.h, Water1);
        WalkerScreen(width, height, k);
        RaiseShoreFlags(k.dir, k.x / ScreenWidth, k.y / ScreenHeight);
      }
      k' := Advance(width, height, k);
      if k'.dir != k.dir && (started || k.dir == W) {
        var c := CornerBox(width, height, k.dir);
        Clear(c.x, c.y, c.w, c.h, Water1);
      }
    }

    /**
     * `addShoreLineToTiles`: walk clockwise round the world from the middle of
     * the north side of screen (0, 0), skip a random number of screens, then
     * paint a random number of them. Every tile that changes becomes water
     * and lies within four tiles of the world's border, and every shore flag
     * raised belongs to a screen on the border it names; nothing else about
     * a screen changes.
     */
    method AddShoreLine()
      requires Valid() && width > 0 && height > 0
      modifies rng, tiles, cells
      ensures rng.drawn == old(rng.drawn) + 2
      ensures forall i, j :: 0 <= i < tiles.Length0 && 0 <= j < tiles.Length1 ==>
        tiles[i, j] == old(tiles[i, j]) ||
        (NearBorder(width, height, i, j) && tiles[i, j] == terrain.variation(Water1, i, j))
      ensures forall x, y :: 0 <= x < width && 0 <= y < height ==>
        ShoreCell(width, height, Point(x, y), old(cells[x, y]), cells[x, y])
    {
      var r := rng.NextDouble();
      var start := Trunc(r * (width + height) as real * 2.0);
      r := rng.NextDouble();
      var length := 5 + JavaHalf(Trunc(r * ((width + height - 5) as real)));
      var started := false;
      var k := Start;
      AdvanceOnShore(width, height, k);
      while length > 0
        invariant OnShore(width, height, k)
        invariant !started ==> start >= 0
        invariant rng.drawn == old(rng.drawn) + 2
        invariant forall i, j :: 0 <= i < tiles.Length0 && 0 <= j < tiles.Length1 ==>
          tiles[i, j] == old(tiles[i, j]) ||
          (NearBorder(width, height, i, j) && tiles[i, j] == terrain.variation(Water1, i, j))
        invariant forall x, y :: 0 <= x < width && 0 <= y < height ==>
          ShoreCell(width, height, Point(x, y), old(cells[x, y]), cells[x, y])
        decreases if started then 0 else 1, if started then 0 else start, length
      {
        if !started {
          start := start - 1;
          started := start < 1;
        }
        label step:
        var k0 := k;
        k := ShoreStep(k, started);
        forall x, y | 0 <= x < width && 0 <= y < height
          ensures ShoreCell(width, height, Point(x, y), old(cells[x, y]), cells[x, y])
        {
          var p := Point(x, y);
          if started {
            ShoreFlagsOnBorder(width, height, k0, p, old@step(cells[x, y]));
            ShoreCellTrans(width, height, p, old(cells[x, y]), old@step(cells[x, y]), cells[x, y]);
          }
        }
        if started {
          length := length - 1;
        }
      }
    }

    // ---- Lake, river and bridges ----

    /** `changeDirection`: keep the heading two times in three, else take a drawn heading unless it reverses. */
    method ChangeDirection(dir: Dir) returns (d: Dir)
      modifies rng
      ensures d != Opposite(dir)
      ensures d == dir || rng.drawn == old(rng.drawn) + 2
      ensures old(rng.drawn) + 1 <= rng.drawn <= old(rng.drawn) + 2
    {
      var r := rng.NextDouble();
      if r < 0.66 {
        d := dir;
      } else {
        var k := rng.NextInt(|Dirs|);
        d := Turn(dir, Dirs[k]);
      }
    }

    /** Tile (tx, ty) of the screen interior lies in the crossing pattern a bridge needs. */
    predicate IsBridgeCandidate(tx: int, ty: int)
      requires Valid() && 1 <= tx < tiles.Length0 - 1 && 1 <= ty < tiles.Length1 - 1
      reads this, tiles
    {
      BridgePattern(terrain, tiles[tx, ty], tiles[tx, ty - 1], tiles[tx, ty + 1], tiles[tx - 1, ty], tiles[tx + 1, ty])
    }

    /** Tile p lies inside screen (sx, sy), off its outermost ring. */
    predicate Interior(sx: int, sy: int, p: Point)
    {
      sx * ScreenWidth + 1 <= p.x < sx * ScreenWidth + ScreenWidth - 1 &&
      sy * ScreenHeight + 1 <= p.y < sy * ScreenHeight + ScreenHeight - 1
    }

    /** The order `getBridgeCandidates` visits tiles in: column by column, top to bottom. */
    predicate Before(p: Point, q: Point)
    {
      p.x < q.x || (p.x == q.x && p.y < q.y)
    }

    /**
     * `getBridgeCandidates(sx, sy)`: exactly the interior tiles of the screen
     * that fit the crossing pattern, each once, in visiting order.
     */
    method GetBridgeCandidates(sx: int, sy: int) returns (cands: seq<Point>)
      requires Valid() && 0 <= sx < width && 0 <= sy < height
      ensures forall p :: p in cands ==> Interior(sx, sy, p)
      ensures forall p :: Interior(sx, sy, p) ==> (p in cands <==> IsBridgeCandidate(p.x, p.y))
      ensures forall i, j :: 0 <= i < j < |cands| ==> Before(cands[i], cands[j])
    {
      var mx, my := sx * ScreenWidth, sy * ScreenHeight;
      cands := [];
      for rx := 1 to ScreenWidth - 1
        invariant forall p :: p in cands ==> Interior(sx, sy, p) && p.x < mx + rx
        invariant forall p :: Interior(sx, sy, p) && p.x < mx + rx ==> (p in cands <==> IsBridgeCandidate(p.x, p.y))
        invariant forall i, j :: 0 <= i < j < |cands| ==> Before(cands[i], cands[j])
      {
        for ry := 1 to ScreenHeight - 1
          invariant forall p :: p in cands ==> Interior(sx, sy, p) && Before(p, Point(mx + rx, my + ry))
          invariant forall p :: Interior(sx, sy, p) && Before(p, Point(mx + rx, my + ry)) ==>
            (p in cands <==> IsBridgeCandidate(p.x, p.y))
          invariant forall i, j :: 0 <= i < j < |cands| ==> Before(cands[i], cands[j])
        {
          if IsBridgeCandidate(mx + rx, my + ry) {
            cands := cands + [Point(mx + rx, my + ry)];
          }
        }
      }
    }

    /**
     * `addBridge(sx, sy)`: when screen (sx, sy) has crossing tiles, one drawn
     * among them becomes a bridge and no other tile changes; when it has
     * none, nothing changes and nothing is drawn.
     */
    method AddBridge(sx: int, sy: int) returns (placed: Option<Point>)
      requires Valid() && 0 <= sx < width && 0 <= sy < height
      modifies rng, tiles
      ensures placed.None? <==> forall p :: Interior(sx, sy, p) ==> !old(IsBridgeCandidate(p.x, p.y))
      ensures placed.Some? ==> Interior(sx, sy, placed.value) && old(IsBridgeCandidate(placed.value.x, placed.value.y))
      ensures forall i, j :: 0 <= i < tiles.Length0 && 0 <= j < tiles.Length1 ==>
        tiles[i, j] == if placed == Some(Point(i, j)) then Bridge else old(tiles[i, j])
      ensures rng.drawn == old(rng.drawn) + if placed.Some? then 1 else 0
    {
      var cands := GetBridgeCandidates(sx, sy);
      if |cands| == 0 {
        placed := None;
        return;
      }
      var k := rng.NextInt(|cands|);
      var p := cands[k];
      tiles[p.x, p.y] := Bridge;
      placed := Some(p);
    }

    /**
     * The edge test of `addRiver` on the screen s it leaves heading d: a
     * bridge is tried after a vertical move when the west edge is open or the
     * south edge is TOP_LEFT, after a horizontal move when the north edge is
     * open or the east edge is TOP_LEFT.
     */
    predicate BridgeEdge(s: Screen, d: Dir)
    {
      if d == N || d == S then s.wEdge != Wall || s.sEdge == TopLeft
      else s.nEdge != Wall || s.eEdge == TopLeft
    }

    /** Tile (i, j) is inside a screen that one of the moves left by laying a bridge. */
    predicate BridgeSite(moves: seq<(Point, Dir)>, laid: seq<bool>, i: int, j: int)
      decreases |moves|
    {
      |moves| > 0 && |laid| > 0 &&
      ((laid[|laid| - 1] && Interior(moves[|moves| - 1].0.x, moves[|moves| - 1].0.y, Point(i, j))) ||
       BridgeSite(moves[..|moves| - 1], laid[..|laid| - 1], i, j))
    }

    /** One more move adds its channel to the river and, when it laid one, its screen to the bridge sites. */
    lemma {:induction false} RiverGrows(moves: seq<(Point, Dir)>, laid: seq<bool>, p: Point, d: Dir, b: bool, ox: int, oy: int)
      ensures forall i, j :: InRiver(moves + [(p, d)], ox, oy, i, j) <==>
        Channel(p, ox, oy, d).Has(i, j) || InRiver(moves, ox, oy, i, j)
      ensures forall i, j :: BridgeSite(moves + [(p, d)], laid + [b], i, j) <==>
        (b && Interior(p.x, p.y, Point(i, j))) || BridgeSite(moves, laid, i, j)
    {
      assert (moves + [(p, d)])[..|moves|] == moves;
      assert (laid + [b])[..|laid|] == laid;
    }

    /** The tile grid as a value. */
    ghost function TileGrid(): (g: seq<seq<Tile>>)
      reads tiles
      ensures |g| == tiles.Length0 && forall i :: 0 <= i < |g| ==> |g[i]| == tiles.Length1
      ensures forall i, j :: 0 <= i < tiles.Length0 && 0 <= j < tiles.Length1 ==> g[i][j] == tiles[i, j]
    {
      seq(tiles.Length0, i requires 0 <= i < tiles.Length0 reads tiles =>
        seq(tiles.Length1, j requires 0 <= j < tiles.Length1 reads tiles => tiles[i, j]))
    }

    /** Against the grid `orig`, every changed tile is river water or a laid bridge. */
    ghost predicate Painted(orig: seq<seq<Tile>>, moves: seq<(Point, Dir)>, laid: seq<bool>, ox: int, oy: int)
      reads tiles
    {
      |orig| == tiles.Length0 && (forall i :: 0 <= i < |orig| ==> |orig[i]| == tiles.Length1) &&
      forall i, j :: 0 <= i < tiles.Length0 && 0 <= j < tiles.Length1 ==>
        tiles[i, j] == orig[i][j] ||
        (InRiver(moves, ox, oy, i, j) && tiles[i, j] == terrain.variation(Water1, i, j)) ||
        (BridgeSite(moves, laid, i, j) && tiles[i, j] == Bridge)
    }

    /** Every tile of every channel of the moves is water or a bridge. */
    ghost predicate Covered(moves: seq<(Point, Dir)>, ox: int, oy: int)
      reads tiles
    {
      forall k, i, j :: 0 <= k < |moves| && 0 <= i < tiles.Length0 && 0 <= j < tiles.Length1 && Channel(moves[k].0, ox, oy, moves[k].1).Has(i, j)
        ==> tiles[i, j] == terrain.variation(Water1, i, j) || tiles[i, j] == Bridge
    }

    /** Where a river that started at `start` stands after the moves. */
    function RiverEnd(start: Point, moves: seq<(Point, Dir)>): Point
    {
      if |moves| == 0 then start else Step(moves[|moves| - 1].0, moves[|moves| - 1].1)
    }

    /**
     * One move of `addRiver` from screen (x, y) heading dir: the channel
     * toward the next screen becomes water, and then, when the edge test
     * allows it, one crossing tile inside screen (x, y) becomes a bridge.
     * Nothing else changes. Returns the new position and the bridge laid.
     */
    method RiverStep(x: int, y: int, ox: int, oy: int, dir: Dir) returns (x': int, y': int, placed: Option<Point>)
      requires Valid() && 0 <= x < width && 0 <= y < height
      modifies rng, tiles
      ensures Point(x', y') == Step(Point(x, y), dir)
      ensures placed.Some? ==> BridgeEdge(cells[x, y], dir) && Interior(x, y, placed.value)
      ensures BridgeEdge(cells[x, y], dir) && placed.None? ==>
        forall p :: Interior(x, y, p) ==> !IsBridgeCandidate(p.x, p.y)
      ensures rng.drawn == old(rng.drawn) + if placed.Some? then 1 else 0
      ensures forall i, j :: 0 <= i < tiles.Length0 && 0 <= j < tiles.Length1 ==>
        tiles[i, j] == if placed == Some(Point(i, j)) then Bridge
                       else if Channel(Point(x, y), ox, oy, dir).Has(i, j) then terrain.variation(Water1, i, j)
                       else old(tiles[i, j])
    {
      var next := Step(Point(x, y), dir);
      x', y' := next.x, next.y;
      var b := Channel(Point(x, y), ox, oy, dir);
      Clear(b.x, b.y, b.w, b.h, Water1);
      if BridgeEdge(cells[x, y], dir) {
        placed := AddBridge(x, y);
      } else {
        placed := None;
      }
    }

    /**
     * The moves form a walk from `start`: each leaves the screen the walk has
     * reached, inside the grid, and none reverses the heading before it.
     */
    predicate Walk(start: Point, moves: seq<(Point, Dir)>)
      decreases |moves|
    {
      |moves| == 0 ||
      (var before := moves[..|moves| - 1];
       var last := moves[|moves| - 1];
       Walk(start, before) && InGrid(last.0) && last.0 == RiverEnd(start, before) &&
       (|before| > 0 ==> last.1 != Opposite(before[|before| - 1].1)))
    }

    /** A walk starts at `start`, stays in the grid and chains from screen to neighbouring screen without reversing. */
    lemma {:induction false} WalkFacts(start: Point, moves: seq<(Point, Dir)>)
      requires Walk(start, moves)
      ensures |moves| > 0 ==> moves[0].0 == start
      ensures forall k :: 0 <= k < |moves| ==> InGrid(moves[k].0)
      ensures forall k :: 0 < k < |moves| ==>
        moves[k].0 == Step(moves[k - 1].0, moves[k - 1].1) && moves[k].1 != Opposite(moves[k - 1].1)
      decreases |moves|
    {
      if |moves| > 0 {
        var before := moves[..|moves| - 1];
        WalkFacts(start, before);
        forall k | 0 < k < |moves|
          ensures moves[k].0 == Step(moves[k - 1].0, moves[k - 1].1) && moves[k].1 != Opposite(moves[k - 1].1)
        {
          if k < |moves| - 1 {
            assert moves[k] == before[k] && moves[k - 1] == before[k - 1];
          }
        }
        if |before| > 0 {
          assert moves[0] == before[0];
        }
      }
    }

    /** `RiverStep` with the river so far: the step keeps `Painted` and `Covered` for the longer river. */
    method RiverMove(x: int, y: int, ox: int, oy: int, dir: Dir, ghost orig: seq<seq<Tile>>, ghost moves: seq<(Point, Dir)>, ghost laid: seq<bool>)
      returns (x': int, y': int, ghost laidNow: bool)
      requires Valid() && 0 <= x < width && 0 <= y < height
      requires Painted(orig, moves, laid, ox, oy) && Covered(moves, ox, oy)
      modifies rng, tiles
      ensures Point(x', y') == Step(Point(x, y), dir)
      ensures laidNow ==> BridgeEdge(cells[x, y], dir)
      ensures rng.drawn == old(rng.drawn) + if laidNow then 1 else 0
      ensures Painted(orig, moves + [(Point(x, y), dir)], laid + [laidNow], ox, oy)
      ensures Covered(moves + [(Point(x, y), dir)], ox, oy)
    {
      var placed;
      x', y', placed := RiverStep(x, y, ox, oy, dir);
      laidNow := placed.Some?;
      var moves', laid' := moves + [(Point(x, y), dir)], laid + [laidNow];
      RiverGrows(moves, laid, Point(x, y), dir, laidNow, ox, oy);
      forall i, j | 0 <= i < tiles.Length0 && 0 <= j < tiles.Length1
        ensures tiles[i, j] == orig[i][j] ||
          (InRiver(moves', ox, oy, i, j) && tiles[i, j] == terrain.variation(Water1, i, j)) ||
          (BridgeSite(moves', laid', i, j) && tiles[i, j] == Bridge)
      {
        if tiles[i, j] != old(tiles[i, j]) {
          assert placed == Some(Point(i, j)) || Channel(Point(x, y), ox, oy, dir).Has(i, j);
        }
      }
      forall k, i, j | 0 <= k < |moves'| && 0 <= i < tiles.Length0 && 0 <= j < tiles.Length1 && Channel(moves'[k].0, ox, oy, moves'[k].1).Has(i, j)
        ensures tiles[i, j] == terrain.variation(Water1, i, j) || tiles[i, j] == Bridge
      {
        if k < |moves| {
          assert moves'[k] == moves[k];
        }
      }
    }

    /**
     * `addRiver(x, y, ox, oy)`: from a drawn heading, wander screen by screen,
     * changing heading now and then but never reversing, until the walk
     * leaves the grid. Each move clears its channel and may lay a bridge on
     * the screen it leaves, only where the edge test allows; the screens
     * themselves do not change. The walk is cut off after `fuel` moves. The
     * result lists the moves, each as the screen left and the heading taken:
     * they start at (x0, y0), chain from screen to neighbouring screen, and
     * stop outside the grid unless the fuel ran out first. `laid` says which
     * moves laid a bridge.
     */
    method AddRiver(x0: int, y0: int, ox: int, oy: int, fuel: nat) returns (moves: seq<(Point, Dir)>, ghost laid: seq<bool>)
      requires Valid()
      modifies rng, tiles
      ensures |moves| <= fuel && |laid| == |moves|
      ensures |moves| > 0 ==> moves[0].0 == Point(x0, y0)
      ensures forall k :: 0 <= k < |moves| ==> InGrid(moves[k].0)
      ensures forall k :: 0 < k < |moves| ==>
        moves[k].0 == Step(moves[k - 1].0, moves[k - 1].1) && moves[k].1 != Opposite(moves[k - 1].1)
      ensures |moves| < fuel ==> !InGrid(RiverEnd(Point(x0, y0), moves))
      ensures forall k :: 0 <= k < |moves| && laid[k] ==> InGrid(moves[k].0) && BridgeEdge(cells[moves[k].0.x, moves[k].0.y], moves[k].1)
      ensures old(rng.drawn) + 1 + |moves| <= rng.drawn <= old(rng.drawn) + 3 + 3 * |moves|
      ensures Covered(moves, ox, oy)
      ensures forall i, j :: 0 <= i < tiles.Length0 && 0 <= j < tiles.Length1 ==>
        tiles[i, j] == old(tiles[i, j]) ||
        (InRiver(moves, ox, oy, i, j) && tiles[i, j] == terrain.variation(Water1, i, j)) ||
        (BridgeSite(moves, laid, i, j) && tiles[i, j] == Bridge)
    {
      ghost var orig := TileGrid();
      var k := rng.NextInt(|Dirs|);
      moves, laid := RiverWalk(x0, y0, ox, oy, fuel, Dirs[k], orig);
      WalkFacts(Point(x0, y0), moves);
      forall i, j | 0 <= i < tiles.Length0 && 0 <= j < tiles.Length1
        ensures tiles[i, j] == old(tiles[i, j]) ||
          (InRiver(moves, ox, oy, i, j) && tiles[i, j] == terrain.variation(Water1, i, j)) ||
          (BridgeSite(moves, laid, i, j) && tiles[i, j] == Bridge)
      {
        assert orig[i][j] == old(tiles[i, j]);
      }
    }

    /** The loop of `addRiver` from (x0, y0) with first heading `dir`, against the grid `orig` it started from. */
    method RiverWalk(x0: int, y0: int, ox: int, oy: int, fuel: nat, dir: Dir, ghost orig: seq<seq<Tile>>)
      returns (moves: seq<(Point, Dir)>, ghost laid: seq<bool>)
      requires Valid() && Painted(orig, [], [], ox, oy)
      modifies rng, tiles
      ensures |moves| <= fuel && |laid| == |moves|
      ensures Walk(Point(x0, y0), moves)
      ensures |moves| < fuel ==> !InGrid(RiverEnd(Point(x0, y0), moves))
      ensures forall k :: 0 <= k < |moves| && laid[k] ==> InGrid(moves[k].0) && BridgeEdge(cells[moves[k].0.x, moves[k].0.y], moves[k].1)
      ensures old(rng.drawn) + |moves| <= rng.drawn <= old(rng.drawn) + 2 + 3 * |moves|
      ensures Painted(orig, moves, laid, ox, oy) && Covered(moves, ox, oy)
    {
      var x, y, heading := x0, y0, dir;
      moves, laid := [], [];
      while |moves| < fuel && x >= 0 && y >= 0 && x < width + 1 && y < height + 1
        invariant |moves| <= fuel && |laid| == |moves|
        invariant Point(x, y) == RiverEnd(Point(x0, y0), moves)
        invariant Walk(Point(x0, y0), moves) && (|moves| > 0 ==> moves[|moves| - 1].1 == heading)
        invariant forall k :: 0 <= k < |moves| && laid[k] ==> InGrid(moves[k].0) && BridgeEdge(cells[moves[k].0.x, moves[k].0.y], moves[k].1)
        invariant old(rng.drawn) + |moves| <= rng.drawn <= old(rng.drawn) + 3 * |moves|
        invariant Painted(orig, moves, laid, ox, oy) && Covered(moves, ox, oy)
        decreases fuel - |moves|
      {
        heading := ChangeDirection(heading);
        if x < 0 || y < 0 || x >= width || y >= height {
          break;
        }
        var here := Point(x, y);
        ghost var b;
        x, y, b := RiverMove(x, y, ox, oy, heading, orig, moves, laid);
        ghost var before := moves;
        moves, laid := moves + [(here, heading)], laid + [b];
        assert moves[..|moves| - 1] == before;
      }
    }

    /** The four flag writes of `addLakeToTiles` round the corner of screen (x, y). */
    method AddLakeFlags(x: int, y: int)
      requires Valid() && 1 <= x < width && 1 <= y < height
      modifies cells
      ensures forall a, b :: 0 <= a < width && 0 <= b < height ==>
        cells[a, b] == LakeFlags(x, y, Point(a, b), old(cells[a, b]))
    {
      SetLakeFlag(x, y, Point(x - 1, y - 1));
      SetLakeFlag(x, y, Point(x, y - 1));
      SetLakeFlag(x, y, Point(x, y));
      SetLakeFlag(x, y, Point(x - 1, y));
      forall a, b | 0 <= a < width && 0 <= b < height
        ensures cells[a, b] == LakeFlags(x, y, Point(a, b), old(cells[a, b]))
      {
        LakeFlagsFaceCorner(x, y, Point(a, b), old(cells[a, b]));
      }
    }

    /** The lake's flag write on screen p. */
    method SetLakeFlag(x: int, y: int, p: Point)
      requires Valid() && InGrid(p)
      modifies cells
      ensures forall a, b :: 0 <= a < width && 0 <= b < height ==>
        cells[a, b] == if Point(a, b) == p then LakeFlags(x, y, p, old(cells[a, b])) else old(cells[a, b])
    {
      cells[p.x, p.y] := LakeFlags(x, y, p, cells[p.x, p.y]);
    }

    /**
     * `addLakeToTiles`: pick an inner corner of the screen grid, flood the
     * 18 × 8 tiles round it, flag the four screens that share it, and run a
     * river from it. The lake stays water (a bridge may cross it), and every
     * other tile that changes is the river's water or one of its bridges.
     */
    method AddLake(fuel: nat) returns (x: int, y: int, river: seq<(Point, Dir)>, ghost laid: seq<bool>)
      requires Valid() && width >= 2 && height >= 2
      modifies rng, tiles, cells
      ensures 1 <= x < width && 1 <= y < height
      ensures forall a, b :: 0 <= a < width && 0 <= b < height ==>
        cells[a, b] == LakeFlags(x, y, Point(a, b), old(cells[a, b]))
      ensures |river| > 0 ==> river[0].0 == Point(x, y)
      ensures old(rng.drawn) + 3 + |river| <= rng.drawn <= old(rng.drawn) + 5 + 3 * |river|
      ensures forall i, j :: 0 <= i < tiles.Length0 && 0 <= j < tiles.Length1 && LakeBox(x, y).Has(i, j) ==>
        tiles[i, j] == terrain.variation(Water1, i, j) || tiles[i, j] == Bridge
      ensures forall i, j :: 0 <= i < tiles.Length0 && 0 <= j < tiles.Length1 && !LakeBox(x, y).Has(i, j) ==>
        tiles[i, j] == old(tiles[i, j]) ||
        (InRiver(river, 2, 2, i, j) && tiles[i, j] == terrain.variation(Water1, i, j)) ||
        (BridgeSite(river, laid, i, j) && tiles[i, j] == Bridge)
    {
      var r := rng.NextDouble();
      x := LakeIndex(r, width);
      r := rng.NextDouble();
      y := LakeIndex(r, height);
      var lake := LakeBox(x, y);
      Clear(lake.x, lake.y, lake.w, lake.h, Water1);
      AddLakeFlags(x, y);
      river, laid := AddRiver(x, y, 2, 2, fuel);
    }

    /** `(int)(Math.random() * (n - 2) + 1)`: an inner grid line. */
    static function LakeIndex(r: Unit, n: nat): (k: int)
      requires n >= 2
      ensures 1 <= k < n
      ensures n >= 3 ==> k <= n - 2
    {
      if n == 2 then
        assert r * (n - 2) as real + 1.0 == 1.0; Trunc(r * (n - 2) as real + 1.0)
      else
        ProductBelow(r, (n - 2) as real); Trunc(r * (n - 2) as real + 1.0)
    }
  }
}
