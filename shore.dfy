/**
 * The walker of `addShoreLineToTiles`: it circles the world clockwise along
 * its border, one screen per step, and once started paints a four-tile-deep
 * band of water on the border side of each screen it passes and raises that
 * screen's shore flags. Also the lake of `addLakeToTiles`, which sits on the
 * corner four screens share.
 */
module Shore {
  import opened Screens
  import opened Layout

  /** Heading and tile position of the walker. */
  datatype Walker = Walker(dir: Dir, x: int, y: int)

  /** The position the walk starts from: the middle of the north side of screen (0, 0). */
  const Start := Walker(N, HalfWidth, 0)

  /**
   * Where the walker can be on a world of w × h screens: on the north side
   * at the middle column of a screen, on the east side four tiles in at the
   * middle row, on the south side four tiles in one column right of the
   * middle, on the west side one row below the middle.
   */
  predicate OnShore(w: nat, h: nat, k: Walker)
  {
    var tw, th := w * ScreenWidth, h * ScreenHeight;
    match k.dir
    case N => k.y == 0 && k.x % ScreenWidth == HalfWidth && 0 <= k.x < tw
    case E => k.x == tw - 4 && k.y % ScreenHeight == HalfHeight && 0 <= k.y < th
    case S => k.y == th - 4 && k.x % ScreenWidth == HalfWidth + 1 && 0 <= k.x < tw
    case W => k.x == 0 && k.y % ScreenHeight == HalfHeight + 1 && 0 <= k.y < th
  }

  /** One move: a screen onward, or round the corner onto the next side when that would leave the world. */
  function Advance(w: nat, h: nat, k: Walker): (k': Walker)
    ensures k'.dir == k.dir || k'.dir == Clockwise(k.dir)
  {
    var tw, th := w * ScreenWidth, h * ScreenHeight;
    match k.dir
    case N => if k.x + ScreenWidth > tw then Walker(E, tw - 4, HalfHeight) else k.(x := k.x + ScreenWidth)
    case E => if k.y + ScreenHeight > th then Walker(S, tw - HalfWidth, th - 4) else k.(y := k.y + ScreenHeight)
    case S => if k.x - ScreenWidth < 0 then Walker(W, 0, th - HalfHeight) else k.(x := k.x - ScreenWidth)
    case W => if k.y - ScreenHeight < 0 then Start else k.(y := k.y - ScreenHeight)
  }

  /** The walker starts on the shore and every move keeps it there, turning clockwise at the corners. */
  lemma {:induction false} AdvanceOnShore(w: nat, h: nat, k: Walker)
    requires w > 0 && h > 0 && OnShore(w, h, k)
    ensures OnShore(w, h, Start)
    ensures OnShore(w, h, Advance(w, h, k))
    ensures Advance(w, h, k).dir == k.dir || Advance(w, h, k).dir == Clockwise(k.dir)
  {
    match k.dir
    case N => AdvanceAcross(w, h, k);
    case E => AdvanceDown(w, h, k);
    case S => AdvanceAcross(w, h, k);
    case W => AdvanceDown(w, h, k);
  }

  /** The moves along the north and south sides. */
  lemma {:induction false} AdvanceAcross(w: nat, h: nat, k: Walker)
    requires w > 0 && h > 0 && OnShore(w, h, k) && (k.dir == N || k.dir == S)
    ensures OnShore(w, h, Advance(w, h, k))
  {
    var tw := w * ScreenWidth;
    assert tw % ScreenWidth == 0;
    if k.dir == S && k.x - ScreenWidth < 0 {
      var th := h * ScreenHeight;
      assert (th - HalfHeight) % ScreenHeight == HalfHeight + 1;
    }
  }

  /** The moves along the east and west sides. */
  lemma {:induction false} AdvanceDown(w: nat, h: nat, k: Walker)
    requires w > 0 && h > 0 && OnShore(w, h, k) && (k.dir == E || k.dir == W)
    ensures OnShore(w, h, Advance(w, h, k))
  {
    var th := h * ScreenHeight;
    assert th % ScreenHeight == 0;
    if k.dir == E && k.y + ScreenHeight > th {
      var tw := w * ScreenWidth;
      assert (tw - HalfWidth) % ScreenWidth == HalfWidth + 1;
    }
  }

  /** The next heading clockwise. */
  function Clockwise(d: Dir): Dir
  {
    match d
    case N => E
    case E => S
    case S => W
    case W => N
  }

  /** The move turns a corner. */
  predicate Turns(w: nat, h: nat, k: Walker)
  {
    Advance(w, h, k).dir != k.dir
  }

  /** Tile (i, j) lies within four tiles of the border of a world of w × h screens. */
  predicate NearBorder(w: nat, h: nat, i: int, j: int)
  {
    i < 4 || j < 4 || i >= w * ScreenWidth - 4 || j >= h * ScreenHeight - 4
  }

  /** The band one step paints: a screen's length of the border side, four tiles deep. */
  function ShoreBox(w: nat, h: nat, k: Walker): (b: Box)
    requires OnShore(w, h, k)
    ensures forall i, j :: b.Has(i, j) ==> NearBorder(w, h, i, j)
  {
    match k.dir
    case N => Box(k.x, k.y, ScreenWidth, 4)
    case E => Box(k.x, k.y, 4, ScreenHeight)
    case S => Box(k.x - ScreenWidth, k.y, ScreenWidth, 4)
    case W => Box(k.x, k.y - ScreenHeight, 4, ScreenHeight)
  }

  /** The patch painted when the walker turns the corner at the end of side d. */
  function CornerBox(w: nat, h: nat, d: Dir): (b: Box)
    ensures forall i, j :: b.Has(i, j) ==> NearBorder(w, h, i, j)
  {
    var tw, th := w * ScreenWidth, h * ScreenHeight;
    match d
    case N => Box(tw - 4, 0, 4, HalfHeight)
    case E => Box(tw - HalfWidth, th - 4, HalfWidth, 4)
    case S => Box(0, th - HalfHeight, 4, HalfHeight)
    case W => Box(0, 0, HalfWidth, 4)
  }

  /**
   * The tiles one step paints. The band needs the walk to have started; so
   * do the corners, except the north-west one, which the west side paints
   * unconditionally.
   */
  predicate Paints(w: nat, h: nat, k: Walker, started: bool, i: int, j: int)
    requires OnShore(w, h, k)
  {
    (started && ShoreBox(w, h, k).Has(i, j)) ||
    ((started || k.dir == W) && Turns(w, h, k) && CornerBox(w, h, k.dir).Has(i, j))
  }

  /** The screen the walker stands on is in the grid, on the side it walks. */
  lemma {:induction false} WalkerScreen(w: nat, h: nat, k: Walker)
    requires w > 0 && h > 0 && OnShore(w, h, k)
    ensures 0 <= k.x / ScreenWidth < w && 0 <= k.y / ScreenHeight < h
    ensures k.dir == N ==> k.y / ScreenHeight == 0
    ensures k.dir == E ==> k.x / ScreenWidth == w - 1
    ensures k.dir == S ==> k.y / ScreenHeight == h - 1
    ensures k.dir == W ==> k.x / ScreenWidth == 0
  {
    match k.dir
    case N =>
    case E =>
      assert k.x == (w - 1) * ScreenWidth + 15;
    case S =>
      assert k.y == (h - 1) * ScreenHeight + 5;
    case W =>
  }

  /** What one started step does to the flags of screen p (whose value was s). */
  function ShoreFlags(w: nat, h: nat, k: Walker, p: Point, s: Screen): Screen
  {
    FlagsAt(w, h, k.dir, k.x / ScreenWidth, k.y / ScreenHeight, p, s)
  }

  /**
   * The flag writes of one step on side d from screen (sx, sy): the two
   * flags of its own side and one corner flag of the next screen along
   * (flags are only ever set to true, so each is its old value or the step's
   * write).
   */
  function FlagsAt(w: nat, h: nat, d: Dir, sx: int, sy: int, p: Point, s: Screen): Screen
  {
    var own := p == Point(sx, sy);
    s.(nWater := s.nWater || (d == N && own),
       neWater := s.neWater || (d == N && own) || (d == E && p == Point(sx, sy + 1) && sy + 1 < h),
       eWater := s.eWater || (d == E && own),
       seWater := s.seWater || (d == E && own) || (d == S && p == Point(sx - 1, sy) && sx > 0),
       sWater := s.sWater || (d == S && own),
       swWater := s.swWater || (d == S && own) || (d == W && p == Point(sx, sy - 1) && sy > 0),
       wWater := s.wWater || (d == W && own),
       nwWater := s.nwWater || (d == W && own) || (d == N && p == Point(sx + 1, sy) && sx + 1 < w))
  }

  /** The screen after (sx, sy) along side d, whose corner flag a step on (sx, sy) also raises. */
  function NextAlong(d: Dir, sx: int, sy: int): Point
  {
    match d
    case N => Point(sx + 1, sy)
    case E => Point(sx, sy + 1)
    case S => Point(sx - 1, sy)
    case W => Point(sx, sy - 1)
  }

  /** A step on (sx, sy) touches that screen and the next one along, and no other. */
  lemma {:induction false} FlagsElsewhere(w: nat, h: nat, d: Dir, sx: int, sy: int)
    ensures forall p, s :: p != Point(sx, sy) && p != NextAlong(d, sx, sy) ==> FlagsAt(w, h, d, sx, sy, p, s) == s
    ensures forall s :: !(0 <= NextAlong(d, sx, sy).x < w && 0 <= NextAlong(d, sx, sy).y < h) && 0 <= sx < w && 0 <= sy < h ==>
      FlagsAt(w, h, d, sx, sy, NextAlong(d, sx, sy), s) == s
  {
  }

  /** Flag b is flag a, or it was raised on a screen where `here` holds. */
  predicate Raised(a: bool, b: bool, here: bool)
  {
    a == b || (b && here)
  }

  /**
   * Screen p of a w × h grid went from s to s' by shore painting: edges,
   * theme and quarter-wall permission are kept, and each flag only went up,
   * and only on a screen of the border it names (north on the top row, the
   * north-east corner flag on the top row or the east column, and so on).
   */
  predicate ShoreCell(w: nat, h: nat, p: Point, s: Screen, s': Screen)
  {
    SameEdges(s, s') && SameTheme(s, s') && s.canAddQuarterSection == s'.canAddQuarterSection &&
    Raised(s.nWater, s'.nWater, p.y == 0) && Raised(s.eWater, s'.eWater, p.x == w - 1) &&
    Raised(s.sWater, s'.sWater, p.y == h - 1) && Raised(s.wWater, s'.wWater, p.x == 0) &&
    Raised(s.neWater, s'.neWater, p.y == 0 || p.x == w - 1) &&
    Raised(s.nwWater, s'.nwWater, p.y == 0 || p.x == 0) &&
    Raised(s.seWater, s'.seWater, p.y == h - 1 || p.x == w - 1) &&
    Raised(s.swWater, s'.swWater, p.y == h - 1 || p.x == 0)
  }

  /** One step of the walker only raises flags on the border it walks. */
  lemma {:induction false} ShoreFlagsOnBorder(w: nat, h: nat, k: Walker, p: Point, s: Screen)
    requires w > 0 && h > 0 && OnShore(w, h, k)
    ensures ShoreCell(w, h, p, s, ShoreFlags(w, h, k, p, s))
  {
    WalkerScreen(w, h, k);
    FlagsOnBorder(w, h, k.dir, k.x / ScreenWidth, k.y / ScreenHeight, p, s);
  }

  /** `FlagsAt` from a screen on side d only raises flags on the borders they name. */
  lemma {:induction false} FlagsOnBorder(w: nat, h: nat, d: Dir, sx: int, sy: int, p: Point, s: Screen)
    requires 0 <= sx < w && 0 <= sy < h
    requires (d == N ==> sy == 0) && (d == E ==> sx == w - 1) && (d == S ==> sy == h - 1) && (d == W ==> sx == 0)
    ensures ShoreCell(w, h, p, s, FlagsAt(w, h, d, sx, sy, p, s))
  {
  }

  /** Shore painting composes: two rounds of it are one. */
  lemma {:induction false} ShoreCellTrans(w: nat, h: nat, p: Point, s: Screen, s': Screen, s'': Screen)
    requires ShoreCell(w, h, p, s, s') && ShoreCell(w, h, p, s', s'')
    ensures ShoreCell(w, h, p, s, s'')
  {
  }

  /** The water `addLakeToTiles` clears round the corner tile (19x, 9y), shared by screens (x-1, y-1) to (x, y). */
  function LakeBox(x: int, y: int): Box
  {
    Box(x * ScreenWidth - HalfWidth, y * ScreenHeight - HalfHeight, ScreenWidth - 2 + 1, ScreenHeight - 2 + 1)
  }

  /**
   * A lake on an inner corner lies in the world and within the four screens
   * round that corner, and reaches into each of them.
   */
  lemma {:induction false} LakeOnCorner(w: nat, h: nat, x: int, y: int, i: int, j: int)
    requires 1 <= x < w && 1 <= y < h
    ensures LakeBox(x, y).Has(i, j) ==>
      0 <= i < w * ScreenWidth && 0 <= j < h * ScreenHeight &&
      x - 1 <= i / ScreenWidth <= x && y - 1 <= j / ScreenHeight <= y
    ensures LakeBox(x, y).Has(x * ScreenWidth - 1, y * ScreenHeight - 1) && LakeBox(x, y).Has(x * ScreenWidth, y * ScreenHeight - 1)
    ensures LakeBox(x, y).Has(x * ScreenWidth - 1, y * ScreenHeight) && LakeBox(x, y).Has(x * ScreenWidth, y * ScreenHeight)
  {
    if LakeBox(x, y).Has(i, j) {
      assert (x - 1) * ScreenWidth <= i < (x + 1) * ScreenWidth;
      assert (y - 1) * ScreenHeight <= j < (y + 1) * ScreenHeight;
      DivBetween(i, ScreenWidth, x - 1);
      DivBetween(j, ScreenHeight, y - 1);
    }
  }

  /** A value between two consecutive multiples past m·n divides to m or m + 1. */
  lemma {:induction false} DivBetween(a: int, n: int, m: int)
    requires 0 < n && 0 <= m && m * n <= a < (m + 2) * n
    ensures m <= a / n <= m + 1
  {
    var q := a / n;
    assert a == q * n + a % n && 0 <= a % n < n;
    if q < m {
      MulMono(q, m - 1, n);
      assert false;
    } else if q > m + 1 {
      MulMono(m + 2, q, n);
      assert false;
    }
  }

  lemma {:induction false} MulMono(a: int, b: int, n: int)
    requires a <= b && 0 <= n
    ensures a * n <= b * n
  {
    assert b * n - a * n == (b - a) * n;
  }

  /** The lake's flags on screen p: each of the four screens round the corner gets the corner flag that faces it. */
  function LakeFlags(x: int, y: int, p: Point, s: Screen): Screen
  {
    s.(seWater := s.seWater || p == Point(x - 1, y - 1),
       swWater := s.swWater || p == Point(x, y - 1),
       nwWater := s.nwWater || p == Point(x, y),
       neWater := s.neWater || p == Point(x - 1, y))
  }

  /** The lake raises only corner flags, only on the four screens round its corner, and each facing the corner. */
  lemma {:induction false} LakeFlagsFaceCorner(x: int, y: int, p: Point, s: Screen)
    ensures SameEdges(s, LakeFlags(x, y, p, s)) && SameTheme(s, LakeFlags(x, y, p, s))
    ensures !(x - 1 <= p.x <= x && y - 1 <= p.y <= y) ==> LakeFlags(x, y, p, s) == s
    ensures LakeFlags(x, y, p, s).seWater != s.seWater ==> p.x + 1 == x && p.y + 1 == y
    ensures LakeFlags(x, y, p, s).swWater != s.swWater ==> p.x == x && p.y + 1 == y
    ensures LakeFlags(x, y, p, s).nwWater != s.nwWater ==> p.x == x && p.y == y
    ensures LakeFlags(x, y, p, s).neWater != s.neWater ==> p.x + 1 == x && p.y == y
  {
  }
}
