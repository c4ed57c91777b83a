/**
 * The value-level meaning of the maze phases: `connectScreens` as a function
 * on screen-map snapshots, the edge kind it draws, and the facts the maze
 * builder and the extra-connections pass rely on.
 */
module Maze {
  import opened Screens

  /**
   * The edge kind `connectScreens` uses for a draw `roll` in 0..6 (0: TOP_LEFT,
   * 1: BOTTOM_RIGHT, 2: WIDE, else CENTER), demoted to CENTER when the
   * source screen p is on the top/left (resp. bottom/right) border of a w x h map.
   */
  function PathType(roll: nat, p: Point, w: int, h: int): (k: Edge)
    requires roll < 7
    ensures k != Wall
    ensures k == TopLeft <==> roll == 0 && p.x != 0 && p.y != 0
    ensures k == BottomRight <==> roll == 1 && p.x != w - 1 && p.y != h - 1
    ensures k == Wide <==> roll == 2
  {
    var k := if roll == 0 then TopLeft else if roll == 1 then BottomRight
             else if roll == 2 then Wide else Center;
    if p.x == 0 && k == TopLeft then Center
    else if p.y == 0 && k == TopLeft then Center
    else if p.x == w - 1 && k == BottomRight then Center
    else if p.y == h - 1 && k == BottomRight then Center
    else k
  }

  /** The position of a direction in the order the builders test them: E, W, S, N. */
  function Rank(d: Dir): nat {
    match d
    case E => 0
    case W => 1
    case S => 2
    case N => 3
  }

  /**
   * The `possibleDirections` string: the directions whose test passed,
   * each once, in the order E, W, S, N.
   */
  function Options(east: bool, west: bool, south: bool, north: bool): (ds: seq<Dir>)
    ensures E in ds <==> east
    ensures W in ds <==> west
    ensures S in ds <==> south
    ensures N in ds <==> north
    ensures forall i, j :: 0 <= i < j < |ds| ==> Rank(ds[i]) < Rank(ds[j])
  {
    (if east then [E] else []) + (if west then [W] else []) +
    (if south then [S] else []) + (if north then [N] else [])
  }

  /** The map with screen p replaced by s. */
  function Put(m: ScreenMap, p: Point, s: Screen): (m': ScreenMap)
    requires Rect(m) && In(m, p)
    ensures SameShape(m, m')
    ensures At(m', p) == s
    ensures forall q :: In(m, q) && q != p ==> At(m', q) == At(m, q)
  {
    m[p.x := m[p.x][p.y := s]]
  }

  lemma {:induction false} StepInjective(p: Point, d: Dir, d': Dir)
    requires Step(p, d) == Step(p, d')
    ensures d == d'
  {
  }

  /** `connectScreens(p, d)` with kind k: the neighbour's facing edge, then p's edge. */
  function Connect(m: ScreenMap, p: Point, d: Dir, k: Edge): (m': ScreenMap)
    requires Rect(m) && In(m, p) && In(m, Step(p, d))
    ensures SameShape(m, m')
    ensures At(m', p).EdgeOf(d) == k && At(m', Step(p, d)).EdgeOf(Opposite(d)) == k
  {
    StepMoves(p, d);
    var q := Step(p, d);
    var m1 := Put(m, q, At(m, q).WithEdge(Opposite(d), k));
    Put(m1, p, At(m1, p).WithEdge(d, k))
  }

  /** Exactly the two facing edges change, both to k; nothing else in the map changes. */
  lemma {:induction false} ConnectWrites(m: ScreenMap, p: Point, d: Dir, k: Edge)
    requires Rect(m) && In(m, p) && In(m, Step(p, d))
    ensures var m' := Connect(m, p, d, k); var q := Step(p, d);
      && At(m', p).EdgeOf(d) == k
      && At(m', q).EdgeOf(Opposite(d)) == k
      && (forall d' :: d' != d ==> At(m', p).EdgeOf(d') == At(m, p).EdgeOf(d'))
      && (forall d' :: d' != Opposite(d) ==> At(m', q).EdgeOf(d') == At(m, q).EdgeOf(d'))
      && SameTheme(At(m', p), At(m, p)) && SameFlags(At(m', p), At(m, p))
      && SameTheme(At(m', q), At(m, q)) && SameFlags(At(m', q), At(m, q))
      && (forall r :: In(m, r) && r != p && r != q ==> At(m', r) == At(m, r))
  {
    var q := Step(p, d);
    var m1 := Put(m, q, At(m, q).WithEdge(Opposite(d), k));
    assert p != q by {
      match d
      case N =>
      case S =>
      case W =>
      case E =>
    }
    assert At(m1, p) == At(m, p);
    var m' := Put(m1, p, At(m, p).WithEdge(d, k));
    assert m' == Connect(m, p, d, k);
    assert At(m', q) == At(m, q).WithEdge(Opposite(d), k);
  }

  lemma {:induction false} OppositeInvolutive(d: Dir)
    ensures Opposite(Opposite(d)) == d
  {
  }

  /** One edge pair of the map after a connection still agrees. */
  lemma {:induction false} ConnectMirroredAt(m: ScreenMap, p: Point, d: Dir, k: Edge, r: Point, e: Dir)
    requires WellFormed(m) && In(m, p) && In(m, Step(p, d)) && In(m, r) && In(m, Step(r, e))
    ensures At(Connect(m, p, d, k), r).EdgeOf(e) ==
            At(Connect(m, p, d, k), Step(r, e)).EdgeOf(Opposite(e))
  {
    var m' := Connect(m, p, d, k);
    var q := Step(p, d);
    var s := Step(r, e);
    ConnectWrites(m, p, d, k);
    StepBack(r, e);
    StepBack(p, d);
    assert At(m, r).EdgeOf(e) == At(m, s).EdgeOf(Opposite(e));
    if r == p && e == d {
    } else if r == q && e == Opposite(d) {
    } else {
      assert At(m', r).EdgeOf(e) == At(m, r).EdgeOf(e) by {
        if r == p {
          assert e != d;
        } else if r == q {
          assert e != Opposite(d);
        }
      }
      assert At(m', s).EdgeOf(Opposite(e)) == At(m, s).EdgeOf(Opposite(e)) by {
        OppositeInvolutive(e);
        if s == p {
          assert Opposite(e) != d;
        } else if s == q {
          assert Opposite(e) != Opposite(d);
        }
      }
    }
  }

  /** A new connection keeps edges mirrored and the outer border walled. */
  lemma {:induction false} ConnectWellFormed(m: ScreenMap, p: Point, d: Dir, k: Edge)
    requires WellFormed(m) && In(m, p) && In(m, Step(p, d))
    ensures WellFormed(Connect(m, p, d, k))
  {
    var m' := Connect(m, p, d, k);
    forall r, e | In(m', r) && In(m', Step(r, e))
      ensures At(m', r).EdgeOf(e) == At(m', Step(r, e)).EdgeOf(Opposite(e))
    {
      ConnectMirroredAt(m, p, d, k, r, e);
    }
    ConnectWrites(m, p, d, k);
    forall r, e | In(m', r) && !In(m', Step(r, e))
      ensures At(m', r).EdgeOf(e) == Wall
    {
      StepBack(p, d);
    }
  }

  /** A connection with a non-WALL kind opens p toward d and closes nothing. */
  lemma {:induction false} ConnectOpenIncl(m: ScreenMap, p: Point, d: Dir, k: Edge)
    requires Rect(m) && In(m, p) && In(m, Step(p, d)) && k != Wall
    ensures OpenIncl(m, Connect(m, p, d, k))
    ensures Open(Connect(m, p, d, k), p, d)
  {
    var m' := Connect(m, p, d, k);
    ConnectWrites(m, p, d, k);
    forall r, e | Open(m, r, e)
      ensures Open(m', r, e)
    {
    }
  }

  /** Every edge that changes was WALL and becomes non-WALL. */
  ghost predicate OnlyOpens(m: ScreenMap, m': ScreenMap)
    requires SameShape(m, m')
  {
    forall p, d :: In(m, p) && At(m', p).EdgeOf(d) != At(m, p).EdgeOf(d) ==>
      At(m, p).EdgeOf(d) == Wall && At(m', p).EdgeOf(d) != Wall
  }

  /** No theme and no flag changes anywhere. */
  ghost predicate EdgesOnly(m: ScreenMap, m': ScreenMap)
    requires SameShape(m, m')
  {
    forall p :: In(m, p) ==> SameTheme(At(m, p), At(m', p)) && SameFlags(At(m, p), At(m', p))
  }

  lemma {:induction false} OnlyOpensTrans(m1: ScreenMap, m2: ScreenMap, m3: ScreenMap)
    requires SameShape(m1, m2) && SameShape(m2, m3)
    requires OnlyOpens(m1, m2) && OnlyOpens(m2, m3)
    requires EdgesOnly(m1, m2) && EdgesOnly(m2, m3)
    ensures SameShape(m1, m3) && OnlyOpens(m1, m3) && EdgesOnly(m1, m3)
  {
  }

  lemma {:induction false} EdgesOnlyTrans(m1: ScreenMap, m2: ScreenMap, m3: ScreenMap)
    requires SameShape(m1, m2) && SameShape(m2, m3)
    requires EdgesOnly(m1, m2) && EdgesOnly(m2, m3)
    ensures SameShape(m1, m3) && EdgesOnly(m1, m3)
  {
    forall p | In(m1, p)
      ensures SameTheme(At(m1, p), At(m3, p)) && SameFlags(At(m1, p), At(m3, p))
    {
      assert In(m2, p);
    }
  }

  /** Connecting across a WALL edge of a well-formed map only turns WALL edges into openings. */
  lemma {:induction false} ConnectOnlyOpens(m: ScreenMap, p: Point, d: Dir, k: Edge)
    requires WellFormed(m) && In(m, p) && In(m, Step(p, d)) && k != Wall
    requires At(m, p).EdgeOf(d) == Wall
    ensures OnlyOpens(m, Connect(m, p, d, k)) && EdgesOnly(m, Connect(m, p, d, k))
  {
    ConnectWrites(m, p, d, k);
    var m' := Connect(m, p, d, k);
    var q := Step(p, d);
    assert At(m, q).EdgeOf(Opposite(d)) == Wall;
    forall r, e | In(m, r) && At(m', r).EdgeOf(e) != At(m, r).EdgeOf(e)
      ensures At(m, r).EdgeOf(e) == Wall && At(m', r).EdgeOf(e) != Wall
    {
      assert (r == p && e == d) || (r == q && e == Opposite(d));
    }
  }

  lemma {:induction false} WalkRow(m: ScreenMap, T: set<Point>, p: Point, tx: int)
    requires Rect(m) && In(m, p) && p in T && 0 <= tx < |m|
    requires forall r, d :: r in T && In(m, r) && In(m, Step(r, d)) ==> Step(r, d) in T
    ensures Point(tx, p.y) in T
    decreases if tx > p.x then tx - p.x else p.x - tx
  {
    if tx > p.x {
      WalkRow(m, T, Step(p, E), tx);
    } else if tx < p.x {
      WalkRow(m, T, Step(p, W), tx);
    }
  }

  lemma {:induction false} WalkColumn(m: ScreenMap, T: set<Point>, p: Point, ty: int)
    requires Rect(m) && In(m, p) && p in T && 0 <= ty < Height(m)
    requires forall r, d :: r in T && In(m, r) && In(m, Step(r, d)) ==> Step(r, d) in T
    ensures Point(p.x, ty) in T
    decreases if ty > p.y then ty - p.y else p.y - ty
  {
    if ty > p.y {
      WalkColumn(m, T, Step(p, S), ty);
    } else if ty < p.y {
      WalkColumn(m, T, Step(p, N), ty);
    }
  }

  /** A non-empty set of screens closed under grid adjacency is the whole grid. */
  lemma {:induction false} Flood(m: ScreenMap, T: set<Point>, s: Point)
    requires Rect(m) && In(m, s) && s in T
    requires forall r, d :: r in T && In(m, r) && In(m, Step(r, d)) ==> Step(r, d) in T
    ensures forall p :: In(m, p) ==> p in T
  {
    forall p | In(m, p)
      ensures p in T
    {
      WalkRow(m, T, s, p.x);
      WalkColumn(m, T, Point(p.x, s.y), p.y);
    }
  }

  /**
   * One productive iteration of the maze builder: once p (marked, or the
   * start) has been opened toward its neighbour, every marked screen, p and
   * the neighbour are reachable from the start.
   */
  lemma {:induction false} MazeStepReach(m: ScreenMap, m': ScreenMap, start: Point, marked: set<Point>, p: Point, d: Dir)
    requires Rect(m) && In(m, start) && OpenIncl(m, m') && Open(m', p, d)
    requires forall c :: c in marked ==> Reach(m, start, c)
    requires p in marked || p == start
    ensures forall c :: c in marked + {p, Step(p, d)} ==> Reach(m', start, c)
  {
    forall c | c in marked
      ensures Reach(m', start, c)
    {
      ReachMono(m, m', start, c);
    }
    if p == start {
      ReachRefl(m', start);
    } else {
      ReachMono(m, m', start, p);
    }
    ReachStep(m', start, p, d);
  }

  /**
   * The worklist invariant of the maze builder: every screen that is marked
   * connected (or is the start) and still has an unmarked neighbour waits in
   * the worklist.
   */
  ghost predicate FrontierListed(m: ScreenMap, start: Point, marked: set<Point>, path: seq<Point>)
  {
    forall c, d :: (c in marked || c == start) && In(m, Step(c, d)) && Step(c, d) !in marked ==>
      c in path
  }

  /**
   * A productive round keeps the worklist invariant: p is put back when it had
   * another free neighbour, and the newly connected neighbour is appended.
   */
  lemma {:induction false} FrontierAfterConnect(m: ScreenMap, start: Point, marked: set<Point>, path: seq<Point>,
                             i: nat, p: Point, options: seq<Dir>, dir: Dir, path': seq<Point>)
    requires FrontierListed(m, start, marked, path)
    requires i < |path| && p == path[i]
    requires forall d :: d in options <==> In(m, Step(p, d)) && Step(p, d) !in marked
    requires dir in options
    requires path' == RemovedAt(path, i) + (if |options| > 1 then [p] else []) + [Step(p, dir)]
    ensures FrontierListed(m, start, marked + {p, Step(p, dir)}, path')
  {
    RemoveAt(path, i);
    var rest := RemovedAt(path, i);
    var q := Step(p, dir);
    forall c, d | (c in marked + {p, q} || c == start) && In(m, Step(c, d)) && Step(c, d) !in marked + {p, q}
      ensures c in path'
    {
      if c == q {
        assert path'[|path'| - 1] == q;
      } else if c == p && |options| > 1 {
        assert path'[|rest|] == p;
      } else if c != p {
        assert c in rest;
      }
    }
  }

  /** A round that finds no free neighbour keeps the worklist invariant without p. */
  lemma {:induction false} FrontierAfterDeadEnd(m: ScreenMap, start: Point, marked: set<Point>, path: seq<Point>,
                             i: nat, p: Point)
    requires FrontierListed(m, start, marked, path)
    requires i < |path| && p == path[i]
    requires forall d :: !(In(m, Step(p, d)) && Step(p, d) !in marked)
    ensures FrontierListed(m, start, marked, RemovedAt(path, i))
  {
    RemoveAt(path, i);
  }

  /**
   * When the worklist is empty every screen is marked or is the start, so
   * every screen is reachable from the start.
   */
  lemma {:induction false} MazeDone(m: ScreenMap, start: Point, marked: set<Point>)
    requires WellFormed(m) && In(m, start)
    requires FrontierListed(m, start, marked, [])
    requires forall c :: c in marked ==> Reach(m, start, c)
    ensures forall c :: In(m, c) ==> c in marked || c == start
    ensures Connected(m)
  {
    var T := marked + {start};
    forall r, d | r in T && In(m, r) && In(m, Step(r, d))
      ensures Step(r, d) in T
    {
    }
    Flood(m, T, start);
    ReachRefl(m, start);
    ConnectedFrom(m, start);
  }

  lemma {:induction false} ConnectEdgesOnly(m: ScreenMap, p: Point, d: Dir, k: Edge)
    requires Rect(m) && In(m, p) && In(m, Step(p, d))
    ensures EdgesOnly(m, Connect(m, p, d, k))
  {
    ConnectWrites(m, p, d, k);
  }

  /**
   * The value-level part of the maze builder's loop invariant, with the
   * starting map m0, the current map m, the marked screens and the worklist.
   */
  ghost predicate MazeShape(m0: ScreenMap, m: ScreenMap, start: Point, marked: set<Point>, path: seq<Point>)
  {
    WellFormed(m) && MazeProgress(m0, m, start, marked, path)
  }

  /** The part of `MazeShape` that does not depend on the edges being mirrored and walled in. */
  ghost predicate MazeProgress(m0: ScreenMap, m: ScreenMap, start: Point, marked: set<Point>, path: seq<Point>)
  {
    OpenIncl(m0, m) && EdgesOnly(m0, m) && In(m, start) &&
    (forall c :: c in marked ==> In(m, c)) &&
    (forall c :: c in path ==> In(m, c) && (c in marked || c == start)) &&
    (forall c :: c in marked ==> Reach(m, start, c)) &&
    FrontierListed(m, start, marked, path)
  }

  /** `list.remove(i)` on the worklist: the list without its entry at index i, order kept. */
  function RemovedAt(s: seq<Point>, i: nat): (r: seq<Point>)
    requires i < |s|
    ensures |r| == |s| - 1
  {
    if i == 0 then s[1..] else [s[0]] + RemovedAt(s[1..], i - 1)
  }

  /** Removing the entry at index i keeps the others in order and moves the later ones down. */
  lemma {:induction false} RemovedAtIndex(s: seq<Point>, i: nat)
    requires i < |s|
    ensures forall k :: 0 <= k < i ==> RemovedAt(s, i)[k] == s[k]
    ensures forall k :: i <= k < |s| - 1 ==> RemovedAt(s, i)[k] == s[k + 1]
  {
    if i > 0 {
      RemovedAtIndex(s[1..], i - 1);
    }
  }

  /** Removing an entry loses only that entry and adds nothing. */
  lemma {:induction false} RemoveAt(s: seq<Point>, i: nat)
    requires i < |s|
    ensures forall c :: c in RemovedAt(s, i) ==> c in s
    ensures forall c :: c in s && c != s[i] ==> c in RemovedAt(s, i)
  {
    RemovedAtIndex(s, i);
    var r := RemovedAt(s, i);
    forall c | c in r
      ensures c in s
    {
      var k :| 0 <= k < |r| && r[k] == c;
      if k >= i {
        assert s[k + 1] == c;
      }
    }
    forall c | c in s && c != s[i]
      ensures c in r
    {
      var k :| 0 <= k < |s| && s[k] == c;
      if k < i {
        assert r[k] == c;
      } else {
        assert r[k - 1] == c;
      }
    }
  }

  /** The worklist after a productive round holds only in-grid screens that are marked or the start. */
  lemma {:induction false} WorklistAfterConnect(m: ScreenMap, m': ScreenMap, start: Point, marked: set<Point>,
                             path: seq<Point>, i: nat, again: bool, q: Point, path': seq<Point>)
    requires forall c :: c in path ==> In(m, c) && (c in marked || c == start)
    requires i < |path| && In(m, q)
    requires forall c :: In(m', c) == In(m, c)
    requires path' == RemovedAt(path, i) + (if again then [path[i]] else []) + [q]
    ensures forall c :: c in path' ==> In(m', c) && (c in marked + {path[i], q} || c == start)
  {
    RemoveAt(path, i);
  }

  /** The worklist after a dead-end round. */
  lemma {:induction false} WorklistAfterDeadEnd(m: ScreenMap, start: Point, marked: set<Point>, path: seq<Point>, i: nat)
    requires forall c :: c in path ==> In(m, c) && (c in marked || c == start)
    requires i < |path|
    ensures forall c :: c in RemovedAt(path, i) ==> In(m, c) && (c in marked || c == start)
  {
    RemoveAt(path, i);
  }

  /**
   * A productive round of the maze builder keeps the invariant: m' is any
   * well-formed map that keeps every opening of m and themes and flags, and
   * opens p toward its chosen neighbour.
   */
  lemma {:induction false} MazeShapeAfterConnect(m0: ScreenMap, m: ScreenMap, m': ScreenMap, start: Point,
                              marked: set<Point>, path: seq<Point>, rest: seq<Point>, i: nat, p: Point,
                              options: seq<Dir>, dir: Dir, marked': set<Point>, path': seq<Point>)
    requires MazeProgress(m0, m, start, marked, path)
    requires OpenIncl(m, m') && EdgesOnly(m, m') && Open(m', p, dir)
    requires i < |path| && p == path[i] && rest == RemovedAt(path, i)
    requires forall d :: d in options <==> In(m, Step(p, d)) && Step(p, d) !in marked
    requires dir in options
    requires marked' == marked + {p, Step(p, dir)}
    requires path' == rest + (if |options| > 1 then [p] else []) + [Step(p, dir)]
    ensures MazeProgress(m0, m', start, marked', path')
  {
    var q := Step(p, dir);
    assert p in path;
    OpenInclTrans(m0, m, m');
    EdgesOnlyTrans(m0, m, m');
    MazeStepReach(m, m', start, marked, p, dir);
    FrontierAfterConnect(m, start, marked, path, i, p, options, dir, path');
    FrontierSameShape(m, m', start, marked', path');
    WorklistAfterConnect(m, m', start, marked, path, i, |options| > 1, q, path');
    MarkedSameShape(m, m', marked, p, q, marked');
  }

  lemma {:induction false} OpenInclTrans(m1: ScreenMap, m2: ScreenMap, m3: ScreenMap)
    requires OpenIncl(m1, m2) && OpenIncl(m2, m3)
    ensures OpenIncl(m1, m3)
  {
  }

  /** The worklist condition depends on the map only through its shape. */
  lemma {:induction false} FrontierSameShape(m: ScreenMap, m': ScreenMap, start: Point, marked: set<Point>, path: seq<Point>)
    requires SameShape(m, m') && FrontierListed(m, start, marked, path)
    ensures FrontierListed(m', start, marked, path)
  {
    forall c, d | (c in marked || c == start) && In(m', Step(c, d)) && Step(c, d) !in marked
      ensures c in path
    {
      assert In(m, Step(c, d));
    }
  }

  lemma {:induction false} MarkedSameShape(m: ScreenMap, m': ScreenMap, marked: set<Point>, p: Point, q: Point,
                        marked': set<Point>)
    requires SameShape(m, m') && (forall c :: c in marked ==> In(m, c)) && In(m, p) && In(m, q)
    requires marked' == marked + {p, q}
    ensures forall c :: c in marked' ==> In(m', c)
  {
  }

  /** A round that finds no free neighbour keeps the invariant without p in the worklist. */
  lemma {:induction false} MazeShapeAfterDeadEnd(m0: ScreenMap, m: ScreenMap, start: Point, marked: set<Point>,
                              path: seq<Point>, rest: seq<Point>, i: nat, p: Point)
    requires MazeShape(m0, m, start, marked, path)
    requires i < |path| && p == path[i] && rest == RemovedAt(path, i)
    requires forall d :: !(In(m, Step(p, d)) && Step(p, d) !in marked)
    ensures MazeShape(m0, m, start, marked, rest)
  {
    FrontierAfterDeadEnd(m, start, marked, path, i, p);
    WorklistAfterDeadEnd(m, start, marked, path, i);
  }

  /** A productive round of the maze builder, stated on the map `connectScreens` leaves behind. */
  lemma {:induction false} MazeShapeAfterConnectScreens(m0: ScreenMap, m: ScreenMap, start: Point, marked: set<Point>,
                                     path: seq<Point>, rest: seq<Point>, i: nat, p: Point,
                                     options: seq<Dir>, dir: Dir, k: Edge, marked': set<Point>,
                                     path': seq<Point>)
    requires MazeShape(m0, m, start, marked, path) && k != Wall
    requires i < |path| && p == path[i] && rest == RemovedAt(path, i)
    requires forall d :: d in options <==> In(m, Step(p, d)) && Step(p, d) !in marked
    requires dir in options
    requires marked' == marked + {p, Step(p, dir)}
    requires path' == rest + (if |options| > 1 then [p] else []) + [Step(p, dir)]
    ensures MazeShape(m0, Connect(m, p, dir, k), start, marked', path')
  {
    ConnectWellFormed(m, p, dir, k);
    ConnectOpenIncl(m, p, dir, k);
    ConnectEdgesOnly(m, p, dir, k);
    MazeShapeAfterConnect(m0, m, Connect(m, p, dir, k), start, marked, path, rest, i, p, options, dir,
                          marked', path');
  }

  /** The screen a maze link `(p, d)` leads to: the neighbour of p toward d. */
  function Target(l: (Point, Dir)): Point
  {
    Step(l.0, l.1)
  }

  /** The screens reached by the links. */
  ghost function Targets(links: seq<(Point, Dir)>): set<Point>
  {
    set k | 0 <= k < |links| :: Target(links[k])
  }

  /** The edge of p toward d is one of the links, seen from either of its two screens. */
  predicate Joins(links: seq<(Point, Dir)>, p: Point, d: Dir)
    decreases |links|
  {
    |links| > 0 &&
    (Joins(links[..|links| - 1], p, d) ||
     (links[|links| - 1] == (p, d)) ||
     (Target(links[|links| - 1]) == p && links[|links| - 1].1 == Opposite(d)))
  }

  /** Every edge on every screen is WALL: the grid `new Worldgen` starts from. */
  ghost predicate AllWalled(m: ScreenMap)
    requires Rect(m)
  {
    forall p, d :: In(m, p) ==> At(m, p).EdgeOf(d) == Wall
  }

  /**
   * The links form a spanning tree of m rooted at start: each link leaves the
   * start or the target of an earlier link, every screen but the start is the
   * target of exactly one link, and the openings of m are those of m0 plus the
   * links.
   */
  ghost predicate SpanningTree(m0: ScreenMap, m: ScreenMap, start: Point, links: seq<(Point, Dir)>)
    requires SameShape(m0, m)
  {
    (forall k :: 0 <= k < |links| ==> In(m, links[k].0) && In(m, Target(links[k]))) &&
    (forall k :: 0 <= k < |links| ==> links[k].0 == start || links[k].0 in Targets(links[..k])) &&
    (forall j, k :: 0 <= j < k < |links| ==> Target(links[j]) != Target(links[k])) &&
    (forall c :: In(m, c) ==> (c in Targets(links) <==> c != start)) &&
    (forall p, d :: Open(m, p, d) <==> Open(m0, p, d) || Joins(links, p, d))
  }

  /**
   * The maze builder's tree so far: the links made by its productive rounds
   * reach exactly the marked screens other than the start, and the start is
   * marked once the first link is made.
   */
  ghost predicate TreeSoFar(m0: ScreenMap, m: ScreenMap, start: Point, marked: set<Point>, links: seq<(Point, Dir)>)
  {
    SameShape(m0, m) &&
    (start in marked <==> links != []) &&
    marked - {start} == Targets(links) &&
    (forall k :: 0 <= k < |links| ==> In(m, links[k].0) && In(m, Target(links[k]))) &&
    (forall k :: 0 <= k < |links| ==> links[k].0 == start || links[k].0 in Targets(links[..k])) &&
    (forall j, k :: 0 <= j < k < |links| ==> Target(links[j]) != Target(links[k])) &&
    (forall p, d :: Open(m, p, d) <==> Open(m0, p, d) || Joins(links, p, d))
  }

  lemma {:induction false} StepMoves(p: Point, d: Dir)
    ensures Step(p, d) != p
  {
    match d
    case N =>
    case S =>
    case W =>
    case E =>
  }

  /** One more link adds its target, and exactly its edge, seen from both ends. */
  lemma {:induction false} LinksGrow(links: seq<(Point, Dir)>, l: (Point, Dir))
    ensures Targets(links + [l]) == Targets(links) + {Target(l)}
    ensures forall k :: 0 <= k <= |links| ==> (links + [l])[..k] == links[..k]
    ensures forall p, d :: Joins(links + [l], p, d) <==>
      Joins(links, p, d) || l == (p, d) || (Target(l) == p && l.1 == Opposite(d))
  {
    var ls := links + [l];
    assert ls[..|ls| - 1] == links;
    forall c | c in Targets(ls)
      ensures c in Targets(links) + {Target(l)}
    {
      var k :| 0 <= k < |ls| && Target(ls[k]) == c;
      if k < |links| {
        assert ls[k] == links[k];
      }
    }
    forall c | c in Targets(links)
      ensures c in Targets(ls)
    {
      var k :| 0 <= k < |links| && Target(links[k]) == c;
      assert ls[k] == links[k];
    }
    assert ls[|links|] == l;
  }

  /** A productive round adds the link from p to its fresh neighbour and keeps the tree. */
  lemma {:induction false} TreeAfterConnect(m0: ScreenMap, m: ScreenMap, start: Point, marked: set<Point>,
                                            links: seq<(Point, Dir)>, p: Point, d: Dir, k: Edge)
    requires TreeSoFar(m0, m, start, marked, links) && k != Wall
    requires In(m, p) && In(m, Step(p, d)) && Step(p, d) !in marked
    requires p in marked || p == start
    ensures TreeSoFar(m0, Connect(m, p, d, k), start, marked + {p, Step(p, d)}, links + [(p, d)])
  {
    var q := Step(p, d);
    var ls := links + [(p, d)];
    LinksGrow(links, (p, d));
    assert q != start by {
      if links == [] {
        assert p !in marked - {start};
        StepMoves(p, d);
      }
    }
    LinkOrder(links, start, marked, p, d);
    OpenAfterConnect(m0, m, links, p, d, k);
  }

  /** The new link leaves the start or an old target and reaches a screen no old link reached. */
  lemma {:induction false} LinkOrder(links: seq<(Point, Dir)>, start: Point, marked: set<Point>, p: Point, d: Dir)
    requires marked - {start} == Targets(links) && Step(p, d) !in marked
    requires p in marked || p == start
    requires forall k :: 0 <= k < |links| ==> links[k].0 == start || links[k].0 in Targets(links[..k])
    requires forall j, k :: 0 <= j < k < |links| ==> Target(links[j]) != Target(links[k])
    ensures var ls := links + [(p, d)];
      && (forall k :: 0 <= k < |ls| ==> ls[k].0 == start || ls[k].0 in Targets(ls[..k]))
      && (forall j, k :: 0 <= j < k < |ls| ==> Target(ls[j]) != Target(ls[k]))
  {
    var ls := links + [(p, d)];
    LinksGrow(links, (p, d));
    forall j | 0 <= j < |ls|
      ensures ls[j].0 == start || ls[j].0 in Targets(ls[..j])
    {
      if j < |links| {
        assert ls[j] == links[j];
      }
    }
    forall i, j | 0 <= i < j < |ls|
      ensures Target(ls[i]) != Target(ls[j])
    {
      assert ls[i] == links[i];
      if j < |links| {
        assert ls[j] == links[j];
      } else {
        assert Target(links[i]) in Targets(links);
      }
    }
  }

  /** After the connection the openings are the old ones plus the new link, from both ends. */
  lemma {:induction false} OpenAfterConnect(m0: ScreenMap, m: ScreenMap, links: seq<(Point, Dir)>, p: Point, d: Dir, k: Edge)
    requires SameShape(m0, m) && k != Wall && In(m, p) && In(m, Step(p, d))
    requires forall r, e :: Open(m, r, e) <==> Open(m0, r, e) || Joins(links, r, e)
    ensures forall r, e :: Open(Connect(m, p, d, k), r, e) <==> Open(m0, r, e) || Joins(links + [(p, d)], r, e)
  {
    var q := Step(p, d);
    var m' := Connect(m, p, d, k);
    LinksGrow(links, (p, d));
    ConnectWrites(m, p, d, k);
    StepBack(p, d);
    forall r, e
      ensures Open(m', r, e) <==> Open(m0, r, e) || Joins(links + [(p, d)], r, e)
    {
      if (r == p && e == d) || (r == q && e == Opposite(d)) {
        assert Open(m', r, e);
      } else {
        assert Open(m', r, e) <==> Open(m, r, e);
      }
    }
  }

  /** Once every screen is marked or the start, the tree spans the whole map. */
  lemma {:induction false} TreeDone(m0: ScreenMap, m: ScreenMap, start: Point, marked: set<Point>,
                                    links: seq<(Point, Dir)>)
    requires TreeSoFar(m0, m, start, marked, links)
    requires forall c :: In(m, c) ==> c in marked || c == start
    ensures SpanningTree(m0, m, start, links)
  {
    forall c | In(m, c)
      ensures c in Targets(links) <==> c != start
    {
      if c in Targets(links) {
        assert c in marked - {start};
      }
    }
  }

  /** The screens of a w x h grid. */
  ghost function Cells(w: nat, h: nat): set<Point>
  {
    set x, y | 0 <= x < w && 0 <= y < h :: Point(x, y)
  }

  ghost function Column(x: int, h: nat): set<Point>
  {
    set y | 0 <= y < h :: Point(x, y)
  }

  lemma {:induction false} ColumnCard(x: int, h: nat)
    ensures |Column(x, h)| == h
  {
    if h == 0 {
      assert Column(x, h) == {};
    } else {
      ColumnCard(x, h - 1);
      assert Column(x, h) == Column(x, h - 1) + {Point(x, h - 1)};
    }
  }

  /** A w x h grid has w * h screens. */
  lemma {:induction false} CellsCard(w: nat, h: nat)
    ensures |Cells(w, h)| == w * h
  {
    if w == 0 {
      assert Cells(w, h) == {};
    } else {
      CellsCard(w - 1, h);
      ColumnCard(w - 1, h);
      CellsSplit(w, h);
      assert |Cells(w, h)| == |Cells(w - 1, h)| + |Column(w - 1, h)|;
      assert w * h == (w - 1) * h + h;
    }
  }

  /** The last column of a w x h grid is disjoint from the rest. */
  lemma {:induction false} CellsSplit(w: nat, h: nat)
    requires w > 0
    ensures Cells(w, h) == Cells(w - 1, h) + Column(w - 1, h)
    ensures Cells(w - 1, h) !! Column(w - 1, h)
  {
    forall c | c in Cells(w, h)
      ensures c in Cells(w - 1, h) + Column(w - 1, h)
    {
      if c.x < w - 1 {
        assert c == Point(c.x, c.y);
      } else {
        assert c in Column(w - 1, h);
      }
    }
  }

  /** Links with pairwise different targets reach as many screens as there are links. */
  lemma {:induction false} TargetsCard(links: seq<(Point, Dir)>)
    requires forall j, k :: 0 <= j < k < |links| ==> Target(links[j]) != Target(links[k])
    ensures |Targets(links)| == |links|
  {
    if |links| > 0 {
      var pre := links[..|links| - 1];
      var l := links[|links| - 1];
      assert pre + [l] == links;
      forall j, k | 0 <= j < k < |pre|
        ensures Target(pre[j]) != Target(pre[k])
      {
        assert pre[j] == links[j] && pre[k] == links[k];
      }
      TargetsCard(pre);
      LinksGrow(pre, l);
      assert Target(l) !in Targets(pre);
    }
  }

  /** A spanning tree of a w x h map has w * h - 1 links. */
  lemma {:induction false} TreeCount(m0: ScreenMap, m: ScreenMap, start: Point, links: seq<(Point, Dir)>)
    requires SameShape(m0, m) && In(m, start) && SpanningTree(m0, m, start, links)
    ensures |links| == |m| * Height(m) - 1
  {
    var all := Cells(|m|, Height(m));
    forall c | c in Targets(links)
      ensures c in all - {start}
    {
      var k :| 0 <= k < |links| && Target(links[k]) == c;
      assert In(m, c);
      assert c == Point(c.x, c.y);
    }
    forall c | c in all - {start}
      ensures c in Targets(links)
    {
      assert In(m, c);
    }
    assert Targets(links) == all - {start};
    TargetsCard(links);
    CellsCard(|m|, Height(m));
    assert start in all;
  }

  /** Built on a grid with every edge WALL, the openings are exactly the links, and only WALL edges changed. */
  lemma {:induction false} TreeOnlyLinks(m0: ScreenMap, m: ScreenMap, start: Point, links: seq<(Point, Dir)>)
    requires SameShape(m0, m) && AllWalled(m0) && SpanningTree(m0, m, start, links)
    ensures forall p, d :: Open(m, p, d) <==> Joins(links, p, d)
    ensures OnlyOpens(m0, m)
  {
  }

  /**
   * The invariant of the extra-connections pass relative to the map m0 it
   * started from: still mirrored and walled in, every opening kept, only WALL
   * edges changed (and to non-WALL kinds), themes and flags untouched.
   */
  ghost predicate Widened(m0: ScreenMap, m: ScreenMap)
  {
    WellFormed(m) && OpenIncl(m0, m) && OnlyOpens(m0, m) && EdgesOnly(m0, m)
  }

  lemma {:induction false} WidenedRefl(m: ScreenMap)
    requires WellFormed(m)
    ensures Widened(m, m)
  {
  }

  /** One extra connection across a WALL edge keeps the pass invariant. */
  lemma {:induction false} ExtraStep(m0: ScreenMap, m: ScreenMap, p: Point, d: Dir, k: Edge)
    requires Widened(m0, m) && In(m, p) && In(m, Step(p, d)) && k != Wall
    requires At(m, p).EdgeOf(d) == Wall
    ensures Widened(m0, Connect(m, p, d, k))
  {
    var m' := Connect(m, p, d, k);
    ConnectWellFormed(m, p, d, k);
    ConnectOpenIncl(m, p, d, k);
    ConnectOnlyOpens(m, p, d, k);
    OpenInclTrans(m0, m, m');
    OnlyOpensTrans(m0, m, m');
  }

  /** The pass never disconnects: a connected map stays connected. */
  lemma {:induction false} WidenedConnected(m0: ScreenMap, m: ScreenMap)
    requires Widened(m0, m) && Connected(m0)
    ensures Connected(m)
  {
    ConnectedMono(m0, m);
  }
}
