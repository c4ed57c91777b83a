/**
 * `convertEdgesToCenter` as a function on screen-map snapshots: after a
 * stencil is stamped, every open edge of the screen, and the facing edge of
 * its neighbour, becomes CENTER.
 */
module Normalize {
  import opened Screens
  import opened Maze
  import opened Layout

  /** One side of `convertEdgesToCenter`: an open edge and its facing edge become CENTER; a WALL stays. */
  function CenterEdge(m: ScreenMap, p: Point, d: Dir): (m': ScreenMap)
    requires Rect(m) && BorderWalls(m) && In(m, p)
    ensures SameShape(m, m') && BorderWalls(m')
    ensures At(m', p).EdgeOf(d) == if At(m, p).EdgeOf(d) == Wall then Wall else Center
    ensures forall e :: e != d ==> At(m', p).EdgeOf(e) == At(m, p).EdgeOf(e)
    ensures OpenIncl(m, m')
    ensures Mirrored(m) ==> Mirrored(m') && OpenIncl(m', m)
  {
    if At(m, p).EdgeOf(d) != Wall then
      var m' := Connect(m, p, d, Center);
      ConnectWrites(m, p, d, Center);
      ConnectOpenIncl(m, p, d, Center);
      CenterEdgeFacts(m, p, d);
      m'
    else
      m
  }

  /** The facts about a real conversion that `CenterEdge` states, proved on `Connect`. */
  lemma {:induction false} CenterEdgeFacts(m: ScreenMap, p: Point, d: Dir)
    requires Rect(m) && BorderWalls(m) && In(m, p) && At(m, p).EdgeOf(d) != Wall
    ensures In(m, Step(p, d))
    ensures BorderWalls(Connect(m, p, d, Center))
    ensures Mirrored(m) ==> Mirrored(Connect(m, p, d, Center)) && OpenIncl(Connect(m, p, d, Center), m)
  {
    var q := Step(p, d);
    var m' := Connect(m, p, d, Center);
    ConnectWrites(m, p, d, Center);
    StepBack(p, d);
    forall r, e | In(m', r) && !In(m', Step(r, e))
      ensures At(m', r).EdgeOf(e) == Wall
    {
      UnchangedEdge(m, p, d, r, e);
    }
    if Mirrored(m) {
      ConnectWellFormed(m, p, d, Center);
      forall r, e | Open(m', r, e)
        ensures Open(m, r, e)
      {
        if r == q && e == Opposite(d) {
          assert At(m, q).EdgeOf(Opposite(d)) == At(m, p).EdgeOf(d);
        } else if !(r == p && e == d) {
          UnchangedEdge(m, p, d, r, e);
        }
      }
    }
  }

  /** An edge other than the two facing ones keeps its kind under `Connect`. */
  lemma {:induction false} UnchangedEdge(m: ScreenMap, p: Point, d: Dir, r: Point, e: Dir)
    requires Rect(m) && In(m, p) && In(m, Step(p, d)) && In(m, r)
    requires !(r == p && e == d) && !(r == Step(p, d) && e == Opposite(d))
    ensures At(Connect(m, p, d, Center), r).EdgeOf(e) == At(m, r).EdgeOf(e)
  {
    ConnectWrites(m, p, d, Center);
  }

  /** `convertEdgesToCenter` on screen p: north, east, south, west in turn. */
  function CenterEdges(m: ScreenMap, p: Point): (m': ScreenMap)
    requires Rect(m) && BorderWalls(m) && In(m, p)
    ensures SameShape(m, m') && BorderWalls(m')
  {
    CenterEdge(CenterEdge(CenterEdge(CenterEdge(m, p, N), p, E), p, S), p, W)
  }

  /**
   * After the conversion every edge of p is WALL where it was WALL and
   * CENTER where it was open, so p is a dead end exactly when it was one.
   */
  lemma {:induction false} CenterEdgesAtScreen(m: ScreenMap, p: Point)
    requires Rect(m) && BorderWalls(m) && In(m, p)
    ensures forall d :: At(CenterEdges(m, p), p).EdgeOf(d) == if At(m, p).EdgeOf(d) == Wall then Wall else Center
    ensures IsDeadEnd(At(CenterEdges(m, p), p)) == IsDeadEnd(At(m, p))
  {
    var m1 := CenterEdge(m, p, N);
    var m2 := CenterEdge(m1, p, E);
    var m3 := CenterEdge(m2, p, S);
    var m4 := CenterEdge(m3, p, W);
    forall d
      ensures At(m4, p).EdgeOf(d) == if At(m, p).EdgeOf(d) == Wall then Wall else Center
    {
      var k := At(m, p).EdgeOf(d);
      match d
      case N =>
        assert At(m1, p).EdgeOf(N) == if k == Wall then Wall else Center;
        assert At(m4, p).EdgeOf(N) == At(m3, p).EdgeOf(N) == At(m2, p).EdgeOf(N) == At(m1, p).EdgeOf(N);
      case E =>
        assert At(m1, p).EdgeOf(E) == k;
        assert At(m2, p).EdgeOf(E) == if k == Wall then Wall else Center;
        assert At(m4, p).EdgeOf(E) == At(m3, p).EdgeOf(E) == At(m2, p).EdgeOf(E);
      case S =>
        assert At(m2, p).EdgeOf(S) == At(m1, p).EdgeOf(S) == k;
        assert At(m3, p).EdgeOf(S) == if k == Wall then Wall else Center;
        assert At(m4, p).EdgeOf(S) == At(m3, p).EdgeOf(S);
      case W =>
        assert At(m3, p).EdgeOf(W) == At(m2, p).EdgeOf(W) == At(m1, p).EdgeOf(W) == k;
    }
    var s, s' := At(m, p), At(m4, p);
    assert s.nEdge == s.EdgeOf(N) && s.sEdge == s.EdgeOf(S) && s.wEdge == s.EdgeOf(W) && s.eEdge == s.EdgeOf(E);
    assert s'.nEdge == s'.EdgeOf(N) && s'.sEdge == s'.EdgeOf(S) && s'.wEdge == s'.EdgeOf(W) && s'.eEdge == s'.EdgeOf(E);
  }

  /**
   * The conversion opens nothing new and closes nothing; on a well-formed map
   * the result is well formed, and connected exactly when the map was.
   */
  lemma {:induction false} CenterEdgesStructure(m: ScreenMap, p: Point)
    requires Rect(m) && BorderWalls(m) && In(m, p)
    ensures OpenIncl(m, CenterEdges(m, p))
    ensures WellFormed(m) ==> WellFormed(CenterEdges(m, p)) && OpenIncl(CenterEdges(m, p), m)
    ensures WellFormed(m) ==> (Connected(m) <==> Connected(CenterEdges(m, p)))
  {
    var m1 := CenterEdge(m, p, N);
    var m2 := CenterEdge(m1, p, E);
    var m3 := CenterEdge(m2, p, S);
    var m4 := CenterEdge(m3, p, W);
    OpenInclTrans(m, m1, m2);
    OpenInclTrans(m, m2, m3);
    OpenInclTrans(m, m3, m4);
    if WellFormed(m) {
      OpenInclTrans(m4, m3, m2);
      OpenInclTrans(m4, m2, m1);
      OpenInclTrans(m4, m1, m);
      if Connected(m) {
        ConnectedMono(m, m4);
      }
      if Connected(m4) {
        ConnectedMono(m4, m);
      }
    }
  }
}
