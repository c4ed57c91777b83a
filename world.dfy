/**
 * The playing field: a tile grid with an item grid beside it, the list of
 * items kept in step with that grid, the creatures, and the per-turn water
 * shift and survivor filter.
 */
module Worlds {
  import opened Wrappers
  import opened Tiles
  import opened Screens
  import opened Creatures

  /** An item lying on the ground; only its identity matters here. */
  class Item {
  }

  /** How far `itemsNear` looks, in tiles along each axis. */
  const NearRadius := 9

  /** Column-major order of positions, the order `itemsNear` scans in. */
  predicate Precedes(p: Point, q: Point) {
    p.x < q.x || (p.x == q.x && p.y < q.y)
  }

  /** The items in one cell, as a bag. */
  function Bag(o: Option<Item>): multiset<Item> {
    if o.Some? then multiset{o.value} else multiset{}
  }

  /** `List.remove(Object)`: drop the first occurrence of v, if any. */
  function RemoveFirst<T(==)>(s: seq<T>, v: T): (r: seq<T>)
    ensures v !in s ==> r == s
    ensures v in s ==> |r| == |s| - 1
    ensures multiset(r) == multiset(s) - multiset{v}
  {
    if |s| == 0 then s
    else
      assert s == [s[0]] + s[1..];
      if s[0] == v then s[1..] else [s[0]] + RemoveFirst(s[1..], v)
  }

  /** The element removed is the first v: everything before it and after it stays, in order. */
  lemma {:induction false} RemoveFirstAt<T>(s: seq<T>, v: T, i: nat)
    requires i < |s| && s[i] == v && forall k :: 0 <= k < i ==> s[k] != v
    ensures RemoveFirst(s, v) == s[..i] + s[i + 1..]
    decreases i
  {
    assert s == [s[0]] + s[1..];
    if i > 0 {
      var t := s[1..];
      RemoveFirstAt(t, v, i - 1);
      assert RemoveFirst(s, v) == [s[0]] + (t[..i - 1] + t[i..]);
      assert s[..i] == [s[0]] + t[..i - 1];
      assert s[i + 1..] == t[i..];
    }
  }

  /** The creatures with hearts left, in their original order. */
  function Alive(cs: seq<Creature>): (r: seq<Creature>)
    reads cs
    ensures |r| <= |cs|
    ensures forall c :: c in r ==> c in cs && c.hearts > 0
  {
    if |cs| == 0 then []
    else Alive(cs[..|cs| - 1]) + (if cs[|cs| - 1].hearts > 0 then [cs[|cs| - 1]] else [])
  }

  /** A creature survives exactly when it was listed and has hearts left. */
  lemma {:induction false} AliveMembers(cs: seq<Creature>, c: Creature)
    ensures c in Alive(cs) <==> c in cs && c.hearts > 0
  {
    if |cs| > 0 {
      var front := cs[..|cs| - 1];
      assert cs == front + [cs[|cs| - 1]];
      AliveMembers(front, c);
    }
  }

  /** Filtering a list in two parts gives the two filtered parts, in order. */
  lemma {:induction false} AliveAppend(a: seq<Creature>, b: seq<Creature>)
    ensures Alive(a + b) == Alive(a) + Alive(b)
    decreases |b|
  {
    if |b| == 0 {
      assert a + b == a;
    } else {
      var front := b[..|b| - 1];
      assert (a + b)[..|a + b| - 1] == a + front;
      AliveAppend(a, front);
    }
  }

  /** The index of the first creature standing at p, if any. */
  function FirstAt(cs: seq<Creature>, p: Point): (r: Option<nat>)
    reads cs
    ensures r.None? <==> forall k :: 0 <= k < |cs| ==> cs[k].position != p
    ensures r.Some? ==>
      r.value < |cs| && cs[r.value].position == p && forall k :: 0 <= k < r.value ==> cs[k].position != p
  {
    if |cs| == 0 then None
    else if cs[0].position == p then Some(0)
    else
      match FirstAt(cs[1..], p)
      case None => None
      case Some(k) => Some(k + 1)
  }

  /**
   * One step of `updateWater` at (x, y): a tile that is not water stays; a
   * water tile takes its eastern neighbour's tile if that is water, and is
   * reset to the variation of WATER1 otherwise (also on the last column).
   */
  function Flow(t: Terrain, x: int, y: int, here: Tile, east: Option<Tile>): (r: Tile)
    ensures !t.isWater(here) ==> r == here
    ensures t.isWater(here) ==> r == t.variation(Water1, x, y) || (east == Some(r) && t.isWater(r))
  {
    if !t.isWater(here) then here
    else if east.Some? && t.isWater(east.value) then east.value
    else t.variation(Water1, x, y)
  }

  /**
   * What the water shift does and does not do: dry tiles are never touched,
   * and when the variation of WATER1 is water, a water tile stays water, so
   * the pass moves the water's look and never its extent.
   */
  lemma {:induction false} FlowKeepsWater(t: Terrain, x: int, y: int, here: Tile, east: Option<Tile>)
    ensures !t.isWater(here) ==> Flow(t, x, y, here, east) == here
    ensures t.isWater(here) && east.Some? && t.isWater(east.value) ==> Flow(t, x, y, here, east) == east.value
    ensures t.isWater(here) && (east.None? || !t.isWater(east.value)) ==> Flow(t, x, y, here, east) == t.variation(Water1, x, y)
    ensures t.isWater(t.variation(Water1, x, y)) ==> (t.isWater(Flow(t, x, y, here, east)) <==> t.isWater(here))
  {
  }

  class World {
    const tiles: array2<Tile>
    const items: array2<Option<Item>>
    var itemList: seq<Item>
    var creatures: seq<Creature>
    const terrain: Terrain

    /** The item grid has the tile grid's shape, which has at least one column. */
    ghost predicate Valid()
      reads this
    {
      tiles.Length0 == items.Length0 && tiles.Length1 == items.Length1 && tiles.Length0 > 0
    }

    constructor (tiles: array2<Tile>, terrain: Terrain)
      requires tiles.Length0 > 0
      ensures Valid() && this.tiles == tiles && this.terrain == terrain
      ensures fresh(items) && forall i, j :: 0 <= i < items.Length0 && 0 <= j < items.Length1 ==> items[i, j].None?
      ensures itemList == [] && creatures == []
    {
      this.tiles := tiles;
      this.terrain := terrain;
      items := new Option<Item>[tiles.Length0, tiles.Length1]((i, j) => None);
      itemList := [];
      creatures := [];
    }

    predicate InBounds(x: int, y: int)
      reads this
    {
      0 <= x < tiles.Length0 && 0 <= y < tiles.Length1
    }

    /** `tile`: the grid's tile inside the world, OUT_OF_BOUNDS outside it. */
    function TileAt(x: int, y: int): (t: Tile)
      reads this, tiles
      ensures !InBounds(x, y) ==> t == OutOfBounds
      ensures InBounds(x, y) ==> t == tiles[x, y]
    {
      if x < 0 || x >= tiles.Length0 || y < 0 || y >= tiles.Length1 then OutOfBounds else tiles[x, y]
    }

    /** While no cell holds OUT_OF_BOUNDS itself, `tile` answers it exactly for the positions outside. */
    lemma {:induction false} OutOfBoundsExactly(x: int, y: int)
      requires forall i, j :: 0 <= i < tiles.Length0 && 0 <= j < tiles.Length1 ==> tiles[i, j] != OutOfBounds
      ensures TileAt(x, y) == OutOfBounds <==> !InBounds(x, y)
    {
    }

    /** `item`: the item on a cell inside the world, none outside it. */
    function ItemAt(x: int, y: int): (o: Option<Item>)
      requires Valid()
      reads this, items
      ensures !InBounds(x, y) ==> o.None?
      ensures InBounds(x, y) ==> o == items[x, y]
    {
      if x < 0 || x >= tiles.Length0 || y < 0 || y >= tiles.Length1 then None else items[x, y]
    }

    /** `creature`: the first listed creature standing on (x, y), or null. */
    method CreatureAt(x: int, y: int) returns (c: Creature?)
      ensures FirstAt(creatures, Point(x, y)).None? ==> c == null
      ensures FirstAt(creatures, Point(x, y)).Some? ==> c == creatures[FirstAt(creatures, Point(x, y)).value]
    {
      var i := 0;
      while i < |creatures|
        invariant i <= |creatures|
        invariant forall k :: 0 <= k < i ==> creatures[k].position != Point(x, y)
      {
        if creatures[i].position == Point(x, y) {
          return creatures[i];
        }
        i := i + 1;
      }
      return null;
    }

    /** `setTile`: one cell of the grid changes. */
    method SetTile(tile: Tile, x: int, y: int)
      requires InBounds(x, y)
      modifies tiles
      ensures TileAt(x, y) == tile
      ensures forall i, j :: 0 <= i < tiles.Length0 && 0 <= j < tiles.Length1 && (i != x || j != y) ==>
        tiles[i, j] == old(tiles[i, j])
    {
      tiles[x, y] := tile;
    }

    /**
     * `removeItem`: an empty cell stays empty; otherwise the cell is emptied
     * and the first listed occurrence of its item is dropped, so the list
     * loses exactly what the grid lost.
     */
    method RemoveItem(x: int, y: int)
      requires Valid() && InBounds(x, y)
      modifies items, this`itemList
      ensures items[x, y].None?
      ensures itemList == if old(items[x, y]).Some? then RemoveFirst(old(itemList), old(items[x, y]).value) else old(itemList)
      ensures multiset(itemList) == old(multiset(itemList)) - Bag(old(items[x, y]))
      ensures forall i, j :: 0 <= i < items.Length0 && 0 <= j < items.Length1 && (i != x || j != y) ==>
        items[i, j] == old(items[i, j])
    {
      if items[x, y].None? {
        return;
      }
      itemList := RemoveFirst(itemList, items[x, y].value);
      items[x, y] := None;
    }

    /**
     * `add(item, x, y)`: no item or a position outside the world changes
     * nothing. Otherwise the item replaces whatever lay there, in the grid and
     * in the list, and is listed last.
     */
    method AddItem(item: Option<Item>, x: int, y: int)
      requires Valid()
      modifies items, this`itemList
      ensures item.None? || !InBounds(x, y) ==>
        itemList == old(itemList) && forall i, j :: 0 <= i < items.Length0 && 0 <= j < items.Length1 ==> items[i, j] == old(items[i, j])
      ensures item.Some? && InBounds(x, y) ==>
        items[x, y] == item &&
        itemList == (if old(items[x, y]).Some? then RemoveFirst(old(itemList), old(items[x, y]).value) else old(itemList)) + [item.value] &&
        multiset(itemList) == old(multiset(itemList)) - Bag(old(items[x, y])) + Bag(item) &&
        forall i, j :: 0 <= i < items.Length0 && 0 <= j < items.Length1 && (i != x || j != y) ==> items[i, j] == old(items[i, j])
    {
      if item.None? || x < 0 || y < 0 || x >= items.Length0 || y >= items.Length1 {
        return;
      }
      RemoveItem(x, y);
      items[x, y] := item;
      itemList := itemList + [item.value];
    }

    /**
     * `updateWater`, columns west to east and each column north to south:
     * every tile becomes `Flow` of its own pre-pass tile and its eastern
     * neighbour's pre-pass tile, since that neighbour is visited later.
     */
    method UpdateWater()
      modifies tiles
      ensures forall i, j :: 0 <= i < tiles.Length0 && 0 <= j < tiles.Length1 ==>
        tiles[i, j] == Flow(terrain, i, j, old(tiles[i, j]), if i + 1 < tiles.Length0 then Some(old(tiles[i + 1, j])) else None)
    {
      var x := 0;
      while x < tiles.Length0
        invariant 0 <= x <= tiles.Length0
        invariant forall i, j :: 0 <= i < x && 0 <= j < tiles.Length1 ==>
          tiles[i, j] == Flow(terrain, i, j, old(tiles[i, j]), if i + 1 < tiles.Length0 then Some(old(tiles[i + 1, j])) else None)
        invariant forall i, j :: x <= i < tiles.Length0 && 0 <= j < tiles.Length1 ==> tiles[i, j] == old(tiles[i, j])
      {
        FlowColumn(x);
        x := x + 1;
      }
    }

    /** One column of `updateWater`; the columns east of it are still as before the pass. */
    method FlowColumn(x: int)
      requires 0 <= x < tiles.Length0
      modifies tiles
      ensures forall j :: 0 <= j < tiles.Length1 ==>
        tiles[x, j] == Flow(terrain, x, j, old(tiles[x, j]), if x + 1 < tiles.Length0 then Some(old(tiles[x + 1, j])) else None)
      ensures forall i, j :: 0 <= i < tiles.Length0 && 0 <= j < tiles.Length1 && i != x ==> tiles[i, j] == old(tiles[i, j])
    {
      var y := 0;
      while y < tiles.Length1
        invariant 0 <= y <= tiles.Length1
        invariant forall j :: 0 <= j < y ==>
          tiles[x, j] == Flow(terrain, x, j, old(tiles[x, j]), if x + 1 < tiles.Length0 then Some(old(tiles[x + 1, j])) else None)
        invariant forall i, j :: 0 <= i < tiles.Length0 && 0 <= j < tiles.Length1 && (i != x || j >= y) ==> tiles[i, j] == old(tiles[i, j])
      {
        if terrain.isWater(tiles[x, y]) {
          if x < tiles.Length0 - 1 && terrain.isWater(tiles[x + 1, y]) {
            tiles[x, y] := tiles[x + 1, y];
          } else {
            tiles[x, y] := terrain.variation(Water1, x, y);
          }
        }
        y := y + 1;
      }
    }

    /** A cell within `NearRadius` of p along both axes. */
    predicate Near(p: Point, q: Point) {
      -NearRadius <= q.x - p.x <= NearRadius && -NearRadius <= q.y - p.y <= NearRadius
    }

    /** Whether the scan at offset (ox, oy) has already passed q. */
    predicate ScannedBefore(p: Point, q: Point, ox: int, oy: int) {
      q.x - p.x < ox || (q.x - p.x == ox && q.y - p.y < oy)
    }

    /**
     * `itemsNear`: every item within nine tiles of the creature along both
     * axes, with its position, each once and in column-major order, and
     * nothing else.
     */
    method ItemsNear(c: Creature) returns (near: seq<(Item, Point)>)
      requires Valid()
      ensures forall e :: e in near ==>
        InBounds(e.1.x, e.1.y) && Near(c.position, e.1) && items[e.1.x, e.1.y] == Some(e.0)
      ensures forall i, j :: InBounds(i, j) && Near(c.position, Point(i, j)) && items[i, j].Some? ==>
        (items[i, j].value, Point(i, j)) in near
      ensures forall a, b :: 0 <= a < b < |near| ==> Precedes(near[a].1, near[b].1)
    {
      var p := c.position;
      near := [];
      var ox := -NearRadius;
      while ox < NearRadius + 1
        invariant -NearRadius <= ox <= NearRadius + 1
        invariant forall e :: e in near ==>
          InBounds(e.1.x, e.1.y) && Near(p, e.1) && items[e.1.x, e.1.y] == Some(e.0) && ScannedBefore(p, e.1, ox, -NearRadius)
        invariant forall i, j :: InBounds(i, j) && Near(p, Point(i, j)) && items[i, j].Some? && ScannedBefore(p, Point(i, j), ox, -NearRadius) ==>
          (items[i, j].value, Point(i, j)) in near
        invariant forall a, b :: 0 <= a < b < |near| ==> Precedes(near[a].1, near[b].1)
      {
        near := ScanColumn(p, ox, near);
        ox := ox + 1;
      }
    }

    /** One column of `itemsNear`'s scan, at offset ox, appended to what the earlier columns found. */
    method ScanColumn(p: Point, ox: int, found: seq<(Item, Point)>) returns (near: seq<(Item, Point)>)
      requires Valid() && -NearRadius <= ox <= NearRadius
      requires forall e :: e in found ==>
        InBounds(e.1.x, e.1.y) && Near(p, e.1) && items[e.1.x, e.1.y] == Some(e.0) && ScannedBefore(p, e.1, ox, -NearRadius)
      requires forall a, b :: 0 <= a < b < |found| ==> Precedes(found[a].1, found[b].1)
      ensures forall e :: e in near ==>
        InBounds(e.1.x, e.1.y) && Near(p, e.1) && items[e.1.x, e.1.y] == Some(e.0) && ScannedBefore(p, e.1, ox + 1, -NearRadius)
      ensures forall e :: e in found ==> e in near
      ensures forall i, j :: i == p.x + ox && InBounds(i, j) && Near(p, Point(i, j)) && items[i, j].Some? ==>
        (items[i, j].value, Point(i, j)) in near
      ensures forall a, b :: 0 <= a < b < |near| ==> Precedes(near[a].1, near[b].1)
    {
      near := found;
      var oy := -NearRadius;
      var x := p.x + ox;
      while oy < NearRadius + 1
        invariant -NearRadius <= oy <= NearRadius + 1
        invariant forall e :: e in near ==>
          InBounds(e.1.x, e.1.y) && Near(p, e.1) && items[e.1.x, e.1.y] == Some(e.0) && ScannedBefore(p, e.1, ox, oy)
        invariant forall e :: e in found ==> e in near
        invariant forall j :: InBounds(x, j) && Near(p, Point(x, j)) && j - p.y < oy && items[x, j].Some? ==>
          (items[x, j].value, Point(x, j)) in near
        invariant forall a, b :: 0 <= a < b < |near| ==> Precedes(near[a].1, near[b].1)
      {
        var y := p.y + oy;
        if 0 <= x && 0 <= y && x < items.Length0 && y < items.Length1 && items[x, y].Some? {
          near := near + [(items[x, y].value, Point(x, y))];
        }
        oy := oy + 1;
      }
    }

    /** The survivor filter at the end of `update`: the creatures with hearts left, in order. */
    method RemoveDead()
      modifies this`creatures
      ensures creatures == Alive(old(creatures))
    {
      var stillAlive := [];
      var i := 0;
      while i < |creatures|
        invariant i <= |creatures|
        invariant stillAlive == Alive(creatures[..i])
      {
        assert creatures[..i + 1][..i] == creatures[..i];
        if creatures[i].hearts > 0 {
          stillAlive := stillAlive + [creatures[i]];
        }
        i := i + 1;
      }
      assert creatures[..i] == creatures;
      creatures := stillAlive;
    }
  }
}
