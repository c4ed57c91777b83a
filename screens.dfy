/**
 * The coarse screen grid: directions, points, the edge kinds between screens,
 * the per-screen record (`WorldScreen`) and the structural predicates the
 * generator keeps: mirrored edges, walled outer border, connectivity.
 */
module Screens {
  import opened Wrappers
  import opened Tiles

  datatype Dir = N | S | W | E

  /** The direction string "NSWE" indexed by the river's random draws. */
  const Dirs: seq<Dir> := [N, S, W, E]

  function Opposite(d: Dir): (r: Dir)
    ensures r != d
  {
    match d
    case N => S
    case S => N
    case W => E
    case E => W
  }

  datatype Point = Point(x: int, y: int)

  /** The neighbour one screen (or tile) away; north is smaller y. */
  function Step(p: Point, d: Dir): Point
  {
    match d
    case N => Point(p.x, p.y - 1)
    case S => Point(p.x, p.y + 1)
    case W => Point(p.x - 1, p.y)
    case E => Point(p.x + 1, p.y)
  }

  lemma {:induction false} StepBack(p: Point, d: Dir)
    ensures Step(Step(p, d), Opposite(d)) == p
  {
  }

  /** Whether and where an opening exists in the border two screens share. */
  datatype Edge = Wall | Center | TopLeft | BottomRight | Wide

  /** One `WorldScreen`: four edges, its theme, the quarter-wall permission and eight shore flags. */
  datatype Screen = Screen(
    nEdge: Edge, sEdge: Edge, wEdge: Edge, eEdge: Edge,
    defaultGround: Option<Tile>, defaultWall: Option<Tile>,
    canAddQuarterSection: bool,
    nWater: bool, sWater: bool, wWater: bool, eWater: bool,
    neWater: bool, nwWater: bool, seWater: bool, swWater: bool)
  {
    function EdgeOf(d: Dir): Edge {
      match d
      case N => nEdge
      case S => sEdge
      case W => wEdge
      case E => eEdge
    }

    function WithEdge(d: Dir, k: Edge): (r: Screen)
      ensures r.EdgeOf(d) == k
      ensures forall d' :: d' != d ==> r.EdgeOf(d') == EdgeOf(d')
      ensures SameTheme(this, r) && SameFlags(this, r)
    {
      match d
      case N => this.(nEdge := k)
      case S => this.(sEdge := k)
      case W => this.(wEdge := k)
      case E => this.(eEdge := k)
    }
  }

  /** A screen as the constructor of the generator creates it: walled in, unthemed. */
  const EmptyScreen: Screen :=
    Screen(Wall, Wall, Wall, Wall, None, None, true,
           false, false, false, false, false, false, false, false)

  predicate SameEdges(a: Screen, b: Screen) {
    a.nEdge == b.nEdge && a.sEdge == b.sEdge && a.wEdge == b.wEdge && a.eEdge == b.eEdge
  }

  predicate SameTheme(a: Screen, b: Screen) {
    a.defaultGround == b.defaultGround && a.defaultWall == b.defaultWall
  }

  predicate SameFlags(a: Screen, b: Screen) {
    a.canAddQuarterSection == b.canAddQuarterSection &&
    a.nWater == b.nWater && a.sWater == b.sWater && a.wWater == b.wWater && a.eWater == b.eWater &&
    a.neWater == b.neWater && a.nwWater == b.nwWater && a.seWater == b.seWater && a.swWater == b.swWater
  }

  /** A snapshot of the screen grid, indexed `m[x][y]` like the Java `cells[x][y]`. */
  type ScreenMap = seq<seq<Screen>>

  function Height(m: ScreenMap): nat {
    if |m| == 0 then 0 else |m[0]|
  }

  ghost predicate Rect(m: ScreenMap) {
    forall x :: 0 <= x < |m| ==> |m[x]| == Height(m)
  }

  predicate In(m: ScreenMap, p: Point) {
    0 <= p.x < |m| && 0 <= p.y < Height(m)
  }

  function At(m: ScreenMap, p: Point): Screen
    requires Rect(m) && In(m, p)
  {
    m[p.x][p.y]
  }

  ghost predicate SameShape(m: ScreenMap, m': ScreenMap) {
    Rect(m) && Rect(m') && |m| == |m'| && Height(m) == Height(m')
  }

  /** Screen p has a non-WALL edge toward an in-grid neighbour in direction d. */
  ghost predicate Open(m: ScreenMap, p: Point, d: Dir)
    requires Rect(m)
  {
    In(m, p) && In(m, Step(p, d)) && At(m, p).EdgeOf(d) != Wall
  }

  /** Two adjacent screens agree on the kind of their shared edge. */
  ghost predicate Mirrored(m: ScreenMap)
    requires Rect(m)
  {
    forall p, d :: In(m, p) && In(m, Step(p, d)) ==>
      At(m, p).EdgeOf(d) == At(m, Step(p, d)).EdgeOf(Opposite(d))
  }

  /** Every edge on the outer border of the map is WALL. */
  ghost predicate BorderWalls(m: ScreenMap)
    requires Rect(m)
  {
    forall p, d :: In(m, p) && !In(m, Step(p, d)) ==> At(m, p).EdgeOf(d) == Wall
  }

  ghost predicate WellFormed(m: ScreenMap) {
    Rect(m) && Mirrored(m) && BorderWalls(m)
  }

  /** Every edge open in m is still open in m'. */
  ghost predicate OpenIncl(m: ScreenMap, m': ScreenMap) {
    SameShape(m, m') && forall p, d :: Open(m, p, d) ==> Open(m', p, d)
  }

  ghost predicate Linked(m: ScreenMap, a: Point, b: Point)
    requires Rect(m)
  {
    exists d :: Open(m, a, d) && Step(a, d) == b
  }

  /** A walk through the grid that only crosses non-WALL edges. */
  ghost predicate IsPath(m: ScreenMap, ps: seq<Point>)
    requires Rect(m)
  {
    |ps| > 0 &&
    (forall i :: 0 <= i < |ps| ==> In(m, ps[i])) &&
    (forall i, j :: 0 <= i && j == i + 1 && j < |ps| ==> Linked(m, ps[i], ps[j]))
  }

  ghost predicate Reach(m: ScreenMap, a: Point, b: Point)
    requires Rect(m)
  {
    exists ps {:trigger IsPath(m, ps)} :: IsPath(m, ps) && ps[0] == a && ps[|ps| - 1] == b
  }

  /** Every screen can be reached from every other one through openings. */
  ghost predicate Connected(m: ScreenMap)
    requires Rect(m)
  {
    forall a, b {:trigger Reach(m, a, b)} :: In(m, a) && In(m, b) ==> Reach(m, a, b)
  }

  lemma {:induction false} ReachRefl(m: ScreenMap, a: Point)
    requires Rect(m) && In(m, a)
    ensures Reach(m, a, a)
  {
    assert IsPath(m, [a]);
  }

  lemma {:induction false} ReachStep(m: ScreenMap, a: Point, b: Point, d: Dir)
    requires Rect(m) && Reach(m, a, b) && Open(m, b, d)
    ensures Reach(m, a, Step(b, d))
  {
    var ps :| IsPath(m, ps) && ps[0] == a && ps[|ps| - 1] == b;
    var qs := ps + [Step(b, d)];
    assert Linked(m, qs[|ps| - 1], qs[|ps|]);
    assert IsPath(m, qs);
  }

  lemma {:induction false} ReachTrans(m: ScreenMap, a: Point, b: Point, c: Point)
    requires Rect(m) && Reach(m, a, b) && Reach(m, b, c)
    ensures Reach(m, a, c)
  {
    var ps :| IsPath(m, ps) && ps[0] == a && ps[|ps| - 1] == b;
    var qs :| IsPath(m, qs) && qs[0] == b && qs[|qs| - 1] == c;
    var rs := ps + qs[1..];
    forall i | 0 <= i < |rs| - 1
      ensures Linked(m, rs[i], rs[i + 1])
    {
      if i < |ps| - 1 {
        assert rs[i] == ps[i] && rs[i + 1] == ps[i + 1];
      } else {
        assert rs[i] == qs[i - |ps| + 1] && rs[i + 1] == qs[i - |ps| + 2];
      }
    }
    assert IsPath(m, rs);
  }

  /** Opening more edges never disconnects anything. */
  lemma {:induction false} ReachMono(m: ScreenMap, m': ScreenMap, a: Point, b: Point)
    requires OpenIncl(m, m') && Reach(m, a, b)
    ensures Reach(m', a, b)
  {
    var ps :| IsPath(m, ps) && ps[0] == a && ps[|ps| - 1] == b;
    forall i | 0 <= i < |ps| - 1
      ensures Linked(m', ps[i], ps[i + 1])
    {
      assert Linked(m, ps[i], ps[i + 1]);
      var d :| Open(m, ps[i], d) && Step(ps[i], d) == ps[i + 1];
      assert Open(m', ps[i], d);
    }
    assert IsPath(m', ps);
  }

  lemma {:induction false} ConnectedMono(m: ScreenMap, m': ScreenMap)
    requires OpenIncl(m, m') && Connected(m)
    ensures Connected(m')
  {
    forall a, b | In(m', a) && In(m', b)
      ensures Reach(m', a, b)
    {
      ReachMono(m, m', a, b);
    }
  }

  /** With mirrored edges every opening can be crossed both ways. */
  lemma {:induction false} ReachSym(m: ScreenMap, a: Point, b: Point)
    requires Rect(m) && Mirrored(m) && Reach(m, a, b)
    ensures Reach(m, b, a)
  {
    var ps :| IsPath(m, ps) && ps[0] == a && ps[|ps| - 1] == b;
    var n := |ps|;
    var rs := seq(n, i requires 0 <= i < n => ps[n - 1 - i]);
    forall i | 0 <= i < n - 1
      ensures Linked(m, rs[i], rs[i + 1])
    {
      var j := n - 2 - i;
      assert Linked(m, ps[j], ps[j + 1]);
      var d :| Open(m, ps[j], d) && Step(ps[j], d) == ps[j + 1];
      StepBack(ps[j], d);
      assert Open(m, ps[j + 1], Opposite(d));
    }
    assert IsPath(m, rs);
  }

  /** Reaching every screen from one screen is enough for full connectivity. */
  lemma {:induction false} ConnectedFrom(m: ScreenMap, s: Point)
    requires WellFormed(m) && In(m, s)
    requires forall c :: In(m, c) ==> Reach(m, s, c)
    ensures Connected(m)
  {
    forall a, b | In(m, a) && In(m, b)
      ensures Reach(m, a, b)
    {
      ReachSym(m, s, a);
      ReachTrans(m, a, s, b);
    }
  }

  /** A set of screens closed under crossing openings holds everything reachable from its members. */
  lemma {:induction false} ReachStaysIn(m: ScreenMap, T: set<Point>, a: Point, b: Point)
    requires Rect(m) && a in T && Reach(m, a, b)
    requires forall p, d :: p in T && Open(m, p, d) ==> Step(p, d) in T
    ensures b in T
  {
    var ps :| IsPath(m, ps) && ps[0] == a && ps[|ps| - 1] == b;
    var i := 0;
    while i < |ps| - 1
      invariant 0 <= i < |ps| && ps[i] in T
    {
      assert Linked(m, ps[i], ps[i + 1]);
      i := i + 1;
    }
  }

  /**
   * If some screen of a connected map is in T and some is not, an opening
   * leads out of T: the frontier the theme flood fill advances across.
   */
  lemma {:induction false} Frontier(m: ScreenMap, T: set<Point>, a: Point, b: Point)
    requires Rect(m) && Connected(m) && In(m, a) && In(m, b) && a in T && b !in T
    ensures exists p, d :: p in T && Open(m, p, d) && Step(p, d) !in T
  {
    if forall p, d :: p in T && Open(m, p, d) ==> Step(p, d) in T {
      ReachStaysIn(m, T, a, b);
    }
  }

  /** m' has m's shape and every screen keeps its four edges; themes and flags may differ. */
  ghost predicate EdgesKept(m: ScreenMap, m': ScreenMap) {
    SameShape(m, m') && forall p :: In(m, p) ==> SameEdges(At(m, p), At(m', p))
  }

  lemma {:induction false} SameEdgesOf(a: Screen, b: Screen, d: Dir)
    requires SameEdges(a, b)
    ensures a.EdgeOf(d) == b.EdgeOf(d)
  {
  }

  /** A pass that writes only themes and flags keeps the map well formed and connected. */
  lemma {:induction false} EdgesKeptStructure(m: ScreenMap, m': ScreenMap)
    requires EdgesKept(m, m')
    ensures WellFormed(m) ==> WellFormed(m')
    ensures Connected(m) ==> Connected(m')
  {
    forall p, d | In(m', p)
      ensures At(m', p).EdgeOf(d) == At(m, p).EdgeOf(d)
    {
      SameEdgesOf(At(m, p), At(m', p), d);
    }
    assert OpenIncl(m, m');
    if Connected(m) {
      ConnectedMono(m, m');
    }
  }

  lemma {:induction false} EdgesKeptTrans(m1: ScreenMap, m2: ScreenMap, m3: ScreenMap)
    requires EdgesKept(m1, m2) && EdgesKept(m2, m3)
    ensures EdgesKept(m1, m3)
  {
    forall p | In(m1, p)
      ensures SameEdges(At(m1, p), At(m3, p))
    {
      assert In(m2, p);
    }
  }

  /**
   * The frontier seen from outside: on a connected, walled-in map some screen
   * outside T has an opening into T.
   */
  lemma {:induction false} FrontierInward(m: ScreenMap, T: set<Point>, a: Point, b: Point) returns (q: Point, d: Dir)
    requires WellFormed(m) && Connected(m) && In(m, a) && In(m, b) && a in T && b !in T
    ensures In(m, q) && q !in T && Open(m, q, d) && Step(q, d) in T
  {
    Frontier(m, T, a, b);
    var p, e :| p in T && Open(m, p, e) && Step(p, e) !in T;
    q, d := Step(p, e), Opposite(e);
    StepBack(p, e);
  }
}
