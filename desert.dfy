/**
 * The desert enclave of `addDesertToCells`: a 2×2 block of screens rethemed
 * as desert, joined by WIDE openings on its four inner edges and closed to
 * quarter-wall decoration.
 */
module Desert {
  import opened Wrappers
  import opened Rand
  import opened Tiles
  import opened Screens
  import opened Maze

  /** The block origin as written, `(int)(Math.random() * len - 2) + 1`: the cast binds before `+ 1` and after `- 2`. */
  function DesertOriginAsWritten(r: Unit, len: nat): int
  {
    Trunc(r * len as real - 2.0) + 1
  }

  /** A draw of exactly 0.0 puts the block at index -1, outside the grid. */
  lemma {:induction false} DesertOriginAsWrittenAtZero(len: nat)
    ensures DesertOriginAsWritten(0.0, len) == -1
  {
    assert 0.0 * len as real - 2.0 == -2.0;
  }

  /**
   * On a grid two screens across, every draw above one half gives origin 1,
   * so the block's second column or row is index 2, outside the grid.
   */
  lemma {:induction false} DesertOriginAsWrittenAtTwo(r: Unit)
    requires r > 0.5
    ensures DesertOriginAsWritten(r, 2) == 1
  {
    var v := r * 2 as real - 2.0;
    assert -1.0 < v < 0.0;
  }

  /** For len >= 3 every other draw gives an origin in [0, len-2], which touches the border at 0. */
  lemma {:induction false} DesertOriginAsWrittenRange(r: Unit, len: nat)
    requires len >= 3 && r > 0.0
    ensures 0 <= DesertOriginAsWritten(r, len) <= len - 2
  {
    ProductBelow(r, len as real);
    var v := r * len as real - 2.0;
    assert -2.0 < v < len as real - 2.0;
  }

  /** The corrected origin `(int)(Math.random() * (len - 2)) + 1`, the form the lake placement uses. */
  function DesertOrigin(r: Unit, len: nat): (x: int)
    requires len >= 3
    ensures 1 <= x && x + 1 <= len - 1
  {
    Scale(r, len - 2) + 1
  }

  /** The screens of the block whose north-west corner is (x, y). */
  predicate InBlock(x: int, y: int, p: Point)
  {
    x <= p.x <= x + 1 && y <= p.y <= y + 1
  }

  /** A desert screen: sand ground, brown rock walls, no quarter walls. */
  function Sand(s: Screen): (r: Screen)
    ensures SameEdges(s, r)
  {
    s.(canAddQuarterSection := false, defaultGround := Some(DesertSand1), defaultWall := Some(BrownRock))
  }

  /**
   * What `addDesertToCells` with the origin (x, y) makes of screen p: a block
   * screen opens WIDE toward the block's other row and other column.
   */
  function DesertAt(s: Screen, x: int, y: int, p: Point): Screen
  {
    if InBlock(x, y, p) then
      Sand(s).(nEdge := if p.y == y + 1 then Wide else s.nEdge,
               sEdge := if p.y == y then Wide else s.sEdge,
               wEdge := if p.x == x + 1 then Wide else s.wEdge,
               eEdge := if p.x == x then Wide else s.eEdge)
    else s
  }

  /** `addDesertToCells` with the origin (x, y), on the whole grid. */
  function DesertBlock(m: ScreenMap, x: int, y: int): (m': ScreenMap)
    requires Rect(m) && 0 <= x && x + 1 < |m| && 0 <= y && y + 1 < Height(m)
    ensures SameShape(m, m')
    ensures forall p :: In(m, p) ==> At(m', p) == DesertAt(At(m, p), x, y, p)
  {
    seq(|m|, i requires 0 <= i < |m| =>
      seq(Height(m), j requires 0 <= j < Height(m) => DesertAt(m[i][j], x, y, Point(i, j))))
  }

  /**
   * Screen by screen: the block is desert, every other screen is untouched,
   * and no flag other than the quarter-wall permission changes.
   */
  lemma {:induction false} DesertScreens(m: ScreenMap, x: int, y: int, p: Point)
    requires Rect(m) && 0 <= x && x + 1 < |m| && 0 <= y && y + 1 < Height(m) && In(m, p)
    ensures !InBlock(x, y, p) ==> At(DesertBlock(m, x, y), p) == At(m, p)
    ensures InBlock(x, y, p) ==>
      At(DesertBlock(m, x, y), p).defaultGround == Some(DesertSand1) &&
      At(DesertBlock(m, x, y), p).defaultWall == Some(BrownRock) &&
      !At(DesertBlock(m, x, y), p).canAddQuarterSection &&
      SameWater(At(m, p), At(DesertBlock(m, x, y), p))
  {
    DesertAtScreen(At(m, p), x, y, p);
  }

  lemma {:induction false} DesertAtScreen(s: Screen, x: int, y: int, p: Point)
    ensures !InBlock(x, y, p) ==> DesertAt(s, x, y, p) == s
    ensures InBlock(x, y, p) ==>
      DesertAt(s, x, y, p).defaultGround == Some(DesertSand1) &&
      DesertAt(s, x, y, p).defaultWall == Some(BrownRock) &&
      !DesertAt(s, x, y, p).canAddQuarterSection &&
      SameWater(s, DesertAt(s, x, y, p))
  {
  }

  /** The eight shore flags agree. */
  predicate SameWater(a: Screen, b: Screen) {
    a.nWater == b.nWater && a.sWater == b.sWater && a.wWater == b.wWater && a.eWater == b.eWater &&
    a.neWater == b.neWater && a.nwWater == b.nwWater && a.seWater == b.seWater && a.swWater == b.swWater
  }

  /** Edge by edge: an edge between two block screens is WIDE, every other edge keeps its kind. */
  lemma {:induction false} DesertEdge(m: ScreenMap, x: int, y: int, p: Point, e: Dir)
    requires Rect(m) && 0 <= x && x + 1 < |m| && 0 <= y && y + 1 < Height(m) && In(m, p)
    ensures At(DesertBlock(m, x, y), p).EdgeOf(e) ==
      if InBlock(x, y, p) && InBlock(x, y, Step(p, e)) then Wide else At(m, p).EdgeOf(e)
  {
  }

  /** The block keeps edges mirrored and the border walled, and closes no opening. */
  lemma {:induction false} DesertWellFormed(m: ScreenMap, x: int, y: int)
    requires WellFormed(m) && 0 <= x && x + 1 < |m| && 0 <= y && y + 1 < Height(m)
    ensures WellFormed(DesertBlock(m, x, y)) && OpenIncl(m, DesertBlock(m, x, y))
  {
    var m' := DesertBlock(m, x, y);
    forall p, d | In(m', p) && In(m', Step(p, d))
      ensures At(m', p).EdgeOf(d) == At(m', Step(p, d)).EdgeOf(Opposite(d))
    {
      StepBack(p, d);
      DesertEdge(m, x, y, p, d);
      DesertEdge(m, x, y, Step(p, d), Opposite(d));
    }
    forall p, d | In(m', p) && !In(m', Step(p, d))
      ensures At(m', p).EdgeOf(d) == Wall
    {
      DesertEdge(m, x, y, p, d);
    }
    forall p, d | Open(m, p, d)
      ensures Open(m', p, d)
    {
      DesertEdge(m, x, y, p, d);
    }
  }

  /** So a connected map stays connected. */
  lemma {:induction false} DesertConnected(m: ScreenMap, x: int, y: int)
    requires WellFormed(m) && Connected(m) && 0 <= x && x + 1 < |m| && 0 <= y && y + 1 < Height(m)
    ensures Connected(DesertBlock(m, x, y))
  {
    DesertWellFormed(m, x, y);
    ConnectedMono(m, DesertBlock(m, x, y));
  }
}
