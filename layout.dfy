/**
 * Where things go inside one 19×9 screen of tiles: the border openings that
 * `addBorderOpenings` cuts for each edge kind, the four quadrants of
 * `addExtraQuarterScreenOfWalls`, the stencil alphabet of `addMap`, the
 * dead-end test and the river's turn rule. All positions are local to the
 * screen, (0, 0) being its north-west tile.
 */
module Layout {
  import opened Wrappers
  import opened Tiles
  import opened Screens

  /** Tiles per screen, across and down. */
  const ScreenWidth := 19
  const ScreenHeight := 9

  /** The rectangle [x, x+w) × [y, y+h) that `clear(x, y, w, h, tile)` fills. */
  datatype Box = Box(x: int, y: int, w: int, h: int)
  {
    predicate Has(i: int, j: int) {
      x <= i < x + w && y <= j < y + h
    }

    /** The same box moved by (dx, dy). */
    function Shift(dx: int, dy: int): (r: Box)
      ensures forall i, j :: r.Has(i, j) <==> Has(i - dx, j - dy)
    {
      Box(x + dx, y + dy, w, h)
    }
  }

  /** Where along a border of `len` tiles an opening of kind k starts, and how long it is. */
  function Span(k: Edge, len: int): Option<(int, int)>
  {
    match k
    case Wall => None
    case Center => Some((len / 2, 1))
    case TopLeft => Some((len / 3, 1))
    case BottomRight => Some((len / 3 * 2 - 1, 1))
    case Wide => Some((1, len - 2))
  }

  /**
   * `addBorderOpenings`: the two-tile-deep cut on side d of a screen for an
   * edge of kind k. Every non-WALL edge gets one, lying inside the screen
   * against the side it opens; WALL gets none.
   */
  function OpeningBox(d: Dir, k: Edge): (r: Option<Box>)
    ensures r.Some? <==> k != Wall
    ensures r.Some? ==>
      0 < r.value.w && 0 < r.value.h && 0 <= r.value.x && r.value.x + r.value.w <= ScreenWidth &&
      0 <= r.value.y && r.value.y + r.value.h <= ScreenHeight &&
      (d == N ==> r.value.y == 0) && (d == S ==> r.value.y + r.value.h == ScreenHeight) &&
      (d == W ==> r.value.x == 0) && (d == E ==> r.value.x + r.value.w == ScreenWidth)
  {
    match Span(k, if d == N || d == S then ScreenWidth else ScreenHeight)
    case None => None
    case Some((a, n)) =>
      Some(match d
        case N => Box(a, 0, n, 2)
        case S => Box(a, ScreenHeight - 2, n, 2)
        case W => Box(0, a, 2, n)
        case E => Box(ScreenWidth - 2, a, 2, n))
  }

  /**
   * Facing sides cut at the same place: the south cut of a screen and the
   * north cut of the screen below cover the same columns, and likewise for
   * west and east rows, so a mirrored edge gives one straight corridor.
   */
  lemma {:induction false} OpeningsAlign(d: Dir, k: Edge)
    requires k != Wall
    ensures OpeningBox(d, k).Some? && OpeningBox(Opposite(d), k).Some?
    ensures d == N || d == S ==>
      OpeningBox(d, k).value.x == OpeningBox(Opposite(d), k).value.x &&
      OpeningBox(d, k).value.w == OpeningBox(Opposite(d), k).value.w
    ensures d == W || d == E ==>
      OpeningBox(d, k).value.y == OpeningBox(Opposite(d), k).value.y &&
      OpeningBox(d, k).value.h == OpeningBox(Opposite(d), k).value.h
  {
  }

  /** The three narrow kinds cut at three different places on a side. */
  lemma {:induction false} NarrowOpeningsApart(d: Dir, k: Edge, k': Edge, i: int, j: int)
    requires k in {Center, TopLeft, BottomRight} && k' in {Center, TopLeft, BottomRight} && k != k'
    ensures !(OpeningBox(d, k).value.Has(i, j) && OpeningBox(d, k').value.Has(i, j))
  {
  }

  /** Half a screen, rounded down: the quadrant size and the centre column and row. */
  const HalfWidth := ScreenWidth / 2
  const HalfHeight := ScreenHeight / 2

  /**
   * The quadrants of `addExtraQuarterScreenOfWalls` in the order they are
   * tried: NW, NE, SE, SW. Each lies inside the screen and off its centre
   * column and centre row.
   */
  function QuarterBox(q: nat): (b: Box)
    requires q < 4
    ensures 0 <= b.x && b.x + b.w <= ScreenWidth && 0 <= b.y && b.y + b.h <= ScreenHeight
    ensures b.w == HalfWidth && b.h == HalfHeight
    ensures b.x + b.w <= HalfWidth || HalfWidth < b.x
    ensures b.y + b.h <= HalfHeight || HalfHeight < b.y
  {
    if q == 0 then Box(0, 0, HalfWidth, HalfHeight)
    else if q == 1 then Box(HalfWidth + 1, 0, HalfWidth, HalfHeight)
    else if q == 2 then Box(HalfWidth + 1, HalfHeight + 1, HalfWidth, HalfHeight)
    else Box(0, HalfHeight + 1, HalfWidth, HalfHeight)
  }

  /** A quadrant may be walled only if neither edge it touches has its narrow opening on that quadrant's side. */
  predicate QuarterAllowed(s: Screen, q: nat)
    requires q < 4
  {
    if q == 0 then s.nEdge != TopLeft && s.wEdge != TopLeft
    else if q == 1 then s.nEdge != BottomRight && s.eEdge != TopLeft
    else if q == 2 then s.sEdge != BottomRight && s.eEdge != BottomRight
    else s.sEdge != TopLeft && s.wEdge != BottomRight
  }

  /** Two different quadrants share no tile. */
  lemma {:induction false} QuartersApart(q: nat, q': nat, i: int, j: int)
    requires q < 4 && q' < 4 && q != q'
    ensures !(QuarterBox(q).Has(i, j) && QuarterBox(q').Has(i, j))
  {
  }

  /**
   * A quadrant the edge rule allows covers no tile of a narrow opening; a
   * WIDE opening keeps at least its middle tile, on the centre column or row.
   */
  lemma {:induction false} QuarterSparesOpenings(s: Screen, q: nat, d: Dir, i: int, j: int)
    requires q < 4 && QuarterAllowed(s, q) && s.EdgeOf(d) != Wall
    ensures s.EdgeOf(d) != Wide ==> !(QuarterBox(q).Has(i, j) && OpeningBox(d, s.EdgeOf(d)).value.Has(i, j))
    ensures s.EdgeOf(d) == Wide ==>
      var b := OpeningBox(d, Wide).value;
      (d == N || d == S ==> b.Has(HalfWidth, b.y)) && (d == W || d == E ==> b.Has(b.x, HalfHeight))
  {
  }

  /** The position of local tile (x, y) in a stencil string, row after row. */
  function StencilIndex(x: int, y: int): (k: nat)
    requires 0 <= x < ScreenWidth && 0 <= y < ScreenHeight
    ensures k < ScreenWidth * ScreenHeight
    ensures k % ScreenWidth == x && k / ScreenWidth == y
  {
    x + y * ScreenWidth
  }

  /** A ground or wall field as the Java reference compares it: an unset field is null, like an unset tile. */
  function OrNull(t: Option<Tile>): Tile
  {
    if t.Some? then t.value else Unset
  }

  /** The tiles one `addMap` call draws with: resolved once per call, before any character is read. */
  datatype Palette = Palette(floor: Tile, wall: Tile, local: Tile, special: Tile, specific: Tile, bridge: Tile)

  /**
   * What character c of a stencil puts at tile (i, j) that held `prev`: the
   * seven characters of the `addMap` switch, and no change for anything else
   * (the blank ' ' among them).
   */
  function StencilTile(c: char, pal: Palette, variation: (Tile, int, int) -> Tile, prev: Tile, i: int, j: int): (t: Tile)
    ensures !Writes(c) ==> t == prev
    ensures c == '&' ==> t == pal.special
    ensures c == 't' ==> t == pal.specific
  {
    match c
    case '.' => variation(pal.floor, i, j)
    case '#' => variation(pal.wall, i, j)
    case 'x' => variation(pal.local, i, j)
    case '~' => variation(Water1, i, j)
    case '&' => pal.special
    case 't' => pal.specific
    case '=' => variation(pal.bridge, i, j)
    case _ => prev
  }

  /** The stencil characters that write a tile. */
  predicate Writes(c: char) {
    c in {'.', '#', 'x', '~', '&', 't', '='}
  }

  /**
   * A blank (or any unknown character) keeps the tile; every '&' of one call
   * gets the same tile wherever it is; 't' gets the caller's tile; the others
   * take the variation of their palette entry at that position.
   */
  lemma {:induction false} StencilTileCases(c: char, pal: Palette, variation: (Tile, int, int) -> Tile,
                                            prev: Tile, i: int, j: int, prev': Tile, i': int, j': int)
    ensures !Writes(c) ==> StencilTile(c, pal, variation, prev, i, j) == prev
    ensures c == '&' ==> StencilTile(c, pal, variation, prev, i, j) == StencilTile(c, pal, variation, prev', i', j')
    ensures c == 't' ==> StencilTile(c, pal, variation, prev, i, j) == pal.specific
    ensures Writes(c) && c != '&' && c != 't' ==>
      exists base :: StencilTile(c, pal, variation, prev, i, j) == variation(base, i, j) &&
        base in {pal.floor, pal.wall, pal.local, Water1, pal.bridge}
  {
    if Writes(c) && c != '&' && c != 't' {
      var base :=
        if c == '.' then pal.floor else if c == '#' then pal.wall else if c == 'x' then pal.local
        else if c == '~' then Water1 else pal.bridge;
      assert StencilTile(c, pal, variation, prev, i, j) == variation(base, i, j);
    }
  }

  /** How many of the four edges are open. */
  function Openings(s: Screen): (n: nat)
    ensures n <= 4
  {
    (if s.nEdge != Wall then 1 else 0) + (if s.eEdge != Wall then 1 else 0) +
    (if s.sEdge != Wall then 1 else 0) + (if s.wEdge != Wall then 1 else 0)
  }

  /** `isDeadEnd`: exactly one open edge. */
  predicate IsDeadEnd(s: Screen)
    ensures IsDeadEnd(s) ==> s.nEdge != Wall || s.eEdge != Wall || s.sEdge != Wall || s.wEdge != Wall
  {
    Openings(s) == 1
  }

  /** A dead end is a screen with one open direction and every other one walled. */
  lemma {:induction false} DeadEndOneWay(s: Screen)
    ensures IsDeadEnd(s) <==> exists d :: s.EdgeOf(d) != Wall && forall e :: e != d ==> s.EdgeOf(e) == Wall
  {
    if IsDeadEnd(s) {
      var d := if s.nEdge != Wall then N else if s.eEdge != Wall then E else if s.sEdge != Wall then S else W;
      assert s.EdgeOf(d) != Wall && forall e :: e != d ==> s.EdgeOf(e) == Wall;
    }
    if exists d :: s.EdgeOf(d) != Wall && forall e :: e != d ==> s.EdgeOf(e) == Wall {
      var d :| s.EdgeOf(d) != Wall && forall e :: e != d ==> s.EdgeOf(e) == Wall;
      assert s.EdgeOf(N) == s.nEdge && s.EdgeOf(S) == s.sEdge && s.EdgeOf(W) == s.wEdge && s.EdgeOf(E) == s.eEdge;
    }
  }

  /** The second half of `changeDirection`: take the drawn direction unless it reverses `dir`. */
  function Turn(dir: Dir, drawn: Dir): (r: Dir)
    ensures r != Opposite(dir)
    ensures r == drawn || (r == dir && drawn == Opposite(dir))
  {
    if drawn != Opposite(dir) then drawn else dir
  }

  /** The tile a river follows through screen p: the screen's north-west tile moved by (ox, oy). */
  function Anchor(p: Point, ox: int, oy: int): Point
  {
    Point(p.x * ScreenWidth + ox, p.y * ScreenHeight + oy)
  }

  /** The tile t tiles from a in direction d. */
  function Toward(a: Point, d: Dir, t: int): Point
  {
    match d
    case N => Point(a.x, a.y - t)
    case S => Point(a.x, a.y + t)
    case W => Point(a.x - t, a.y)
    case E => Point(a.x + t, a.y)
  }

  /** Tiles between the anchors of two neighbouring screens in direction d. */
  function Stride(d: Dir): int
  {
    if d == N || d == S then ScreenHeight else ScreenWidth
  }

  /**
   * The strip of water one `addRiver` move clears when it leaves screen p
   * heading d: one tile wide, running from the anchor of p for a whole
   * screen toward the anchor of the next screen. Moves north and west also
   * cover that next anchor; moves south and east stop one tile short of it.
   */
  function Channel(p: Point, ox: int, oy: int, d: Dir): (b: Box)
    ensures d == N || d == S ==> b.w == 1 && b.h == Stride(d) + (if d == N then 1 else 0)
    ensures d == W || d == E ==> b.h == 1 && b.w == Stride(d) + (if d == W then 1 else 0)
    ensures forall t :: 0 <= t < Stride(d) ==> b.Has(Toward(Anchor(p, ox, oy), d, t).x, Toward(Anchor(p, ox, oy), d, t).y)
    ensures d == N || d == W ==> b.Has(Anchor(Step(p, d), ox, oy).x, Anchor(Step(p, d), ox, oy).y)
  {
    var a := Anchor(p, ox, oy);
    match d
    case N => Box(a.x, (p.y - 1) * ScreenHeight + oy, 1, ScreenHeight + 1)
    case S => Box(a.x, a.y, 1, ScreenHeight)
    case W => Box((p.x - 1) * ScreenWidth + ox, a.y, ScreenWidth + 1, 1)
    case E => Box(a.x, a.y, ScreenWidth, 1)
  }

  /** Tile (i, j) lies in the channel of one of the moves, each given as the screen left and the heading. */
  predicate InRiver(moves: seq<(Point, Dir)>, ox: int, oy: int, i: int, j: int)
    decreases |moves|
  {
    |moves| > 0 &&
    (Channel(moves[|moves| - 1].0, ox, oy, moves[|moves| - 1].1).Has(i, j) || InRiver(moves[..|moves| - 1], ox, oy, i, j))
  }

  /**
   * The bridge rule of `addLocationIfTileIsBridgeCandidate` on a water tile
   * c and its four neighbours: water above and below with ground left and
   * right, or ground above and below with water left and right.
   */
  predicate BridgePattern(t: Terrain, c: Tile, up: Tile, down: Tile, left: Tile, right: Tile)
    ensures BridgePattern(t, c, up, down, left, right) ==> t.isWater(c) && (t.isWater(up) || t.isWater(left))
  {
    t.isWater(c) &&
    ((t.isWater(up) && t.isWater(down) && t.isGround(left) && t.isGround(right)) ||
     (t.isGround(up) && t.isGround(down) && t.isWater(left) && t.isWater(right)))
  }
}
