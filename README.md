# iryrwarosh world generation, world and creatures, in Dafny

This project models three classes of the iryrwarosh roguelike and proves what they promise.

- **`Worldgen`** builds the overworld in place. It works on a grid of screens (`cells`, each a `WorldScreen` with four edges, a theme, a quarter-wall permission and eight shore flags) and on the grid of tiles beneath them (`tiles`, 19 × 9 tiles per screen). The phases modelled are:
  - a perfect maze of screen connections (a spanning tree of the screen grid), then a few extra connections;
  - theme seeding and spreading, and the matching ground per theme;
  - the 2 × 2 desert block;
  - stencil stamping (`addMap`), the dead-end test and `convertEdgesToCenter`;
  - the border openings cut for each edge and the rectangle `clear`;
  - the quarter walls;
  - the shoreline walk, the lake, the river and its bridges.
- **`World`** is the playing field. It covers the bounds-checked tile and item lookups, the item list kept in step with the item grid, the first creature at a position, the water shift of each turn, the item scan round a creature and the survivor filter.
- **`Creature`** covers its own bookkeeping: hearts, rupees, friendliness, what it may enter, hiding and the text shown when it kills the player.

The grids are Dafny `array2`s mutated by methods of the `Worldgen.Generator` and `Worlds.World` classes. A `WorldScreen` is a datatype value stored in its cell. Structural facts about the screen grid are stated on its snapshot, `Generator.Snap()`, a `seq<seq<Screen>>`. That snapshot is reasoned about by pure functions and lemmas in the modules `Screens`, `Maze`, `Normalize`, `Desert`, `Themes`, `Layout` and `Shore`.

Other choices:

- **Randomness:** `Math.random()` is the `Rand.Random` object, a stream of draws in [0, 1). The drawing primitives, the single-step methods, the desert, the palette, `addMap`, the quarter walls, the river and the lake state how many draws they take. The maze and theme loops do not (see "Left out").
- **Tiles:** the `Tile` enum's categories and `variation(x, y)` are a `Terrain` record of functions, passed in.
- **Messages:** the messages a creature publishes become an event log.

Files: `wrappers.dfy`, `rand.dfy`, `tiles.dfy`, `screens.dfy`, `maze.dfy`, `themes.dfy`, `desert.dfy`, `layout.dfy`, `normalize.dfy`, `shore.dfy`, `worldgen.dfy`, `world.dfy`, `creature.dfy`.

## Model

| member | source | states |
|---|---|---|
| Rand.Random.NextDouble | src/iryrwarosh/Worldgen.java:1644 | `Math.random()` returns the next draw of the stream and advances it by one |
| Rand.Random.NextInt | src/iryrwarosh/Worldgen.java:1454 | `(int)(Math.random() * n)` is an index below n, and takes one draw |
| Rand.Random.Shuffle | src/iryrwarosh/Worldgen.java:196-203 | `Collections.shuffle` returns a permutation of the directions |
| Rand.Trunc | src/iryrwarosh/Worldgen.java:1505 | the `(int)` cast of a real truncates toward zero, for both signs |
| Tiles.GroundFor | src/iryrwarosh/Worldgen.java:243-258 | a wall has a ground exactly when it is one of the eight theme walls: brown walls get brown dirt, green and pine get green dirt, white gets white dirt |
| Tiles.RandomWall | src/iryrwarosh/Worldgen.java:1448-1454 | every entry of `getRandomWall`'s table is a theme wall with a ground |
| Maze.PathType | src/iryrwarosh/Worldgen.java:111-126 | the edge kind of `connectScreens` is never WALL. TOP_LEFT is rolled on 0 except on the west column or top row (which get CENTER), BOTTOM_RIGHT on 1 except on the east column or bottom row, WIDE on 2 |
| Maze.Options | src/iryrwarosh/Worldgen.java:51-61 | the direction string lists E, W, S, N exactly when their conditions hold, in that order |
| Maze.Connect | src/iryrwarosh/Worldgen.java:128-149 | after `connectScreens` the edge of p toward d and the facing edge of its neighbour both have kind k; the grid keeps its shape |
| Maze.ConnectWrites | src/iryrwarosh/Worldgen.java:128-149 | `connectScreens` sets the edge of p toward d and the facing edge of its neighbour to the same kind; no other edge and no other field of any screen changes |
| Maze.ConnectWellFormed | src/iryrwarosh/Worldgen.java:128-149 | connecting two in-grid screens keeps every edge mirrored and the outer border walled |
| Maze.ConnectOpenIncl | src/iryrwarosh/Worldgen.java:128-149 | a non-WALL connection closes nothing and opens p toward d |
| Maze.MazeDone | src/iryrwarosh/Worldgen.java:46-76 | once the worklist is empty, every screen is marked or is the start, and every screen is reachable from the start through open edges |
| Maze.TreeAfterConnect | src/iryrwarosh/Worldgen.java:63-75 | a productive round adds the link from p to its unmarked neighbour and keeps the tree invariant: the links reach exactly the marked screens other than the start, each leaves the start or an earlier link's target, no two reach the same screen, and the openings are the starting ones plus the links |
| Maze.LinkOrder | src/iryrwarosh/Worldgen.java:63-75 | the new link leaves the start or a screen an earlier link reached, and reaches a screen no earlier link reached |
| Maze.OpenAfterConnect | src/iryrwarosh/Worldgen.java:128-149 | after the connection the open edges are the earlier ones plus the new link, seen from both of its screens |
| Maze.TreeDone | src/iryrwarosh/Worldgen.java:46-76 | when every screen is marked or the start, the links are a spanning tree rooted at the start: every screen but the start is reached by exactly one link |
| Maze.TreeCount | src/iryrwarosh/Worldgen.java:38-77 | a spanning tree of a W × H grid has exactly W·H − 1 links |
| Maze.TreeOnlyLinks | src/iryrwarosh/Worldgen.java:15-22 | built on the all-WALL grid of `new Worldgen`, the open edges are exactly the links, and only WALL edges changed |
| Maze.MazeShapeAfterConnect | src/iryrwarosh/Worldgen.java:63-75 | a productive round keeps the loop invariant: screens marked connected are reachable, and the worklist holds every marked screen that still has an unmarked neighbour |
| Maze.FrontierAfterConnect | src/iryrwarosh/Worldgen.java:66-74 | re-adding p when other directions remain and adding the neighbour keeps every frontier screen listed |
| Maze.FrontierAfterDeadEnd | src/iryrwarosh/Worldgen.java:47-63 | dropping a screen with no unmarked neighbour keeps every frontier screen listed |
| Maze.ExtraStep | src/iryrwarosh/Worldgen.java:102-106 | opening a WALL edge of the grid keeps the map well formed, only widens it, and touches edges only |
| Maze.WidenedConnected | src/iryrwarosh/Worldgen.java:79-108 | a map widened from a connected map is connected |
| Screens.EdgesKeptStructure | src/iryrwarosh/Worldgen.java:231-260 | a pass that changes no edge keeps a well-formed map well formed and a connected map connected |
| Worldgen.Generator.constructor | src/iryrwarosh/Worldgen.java:15-22 | `new Worldgen(width, height)`: every screen is an empty walled-in screen, every tile is null; the screen map is well formed and every edge is WALL |
| Worldgen.Generator.ConnectScreens | src/iryrwarosh/Worldgen.java:110-150 | the screen map becomes `Connect` of the old one with a non-WALL kind from `PathType`; the returned point is the neighbour (the Java mutates p into it); one draw |
| Worldgen.Generator.FreeDirections | src/iryrwarosh/Worldgen.java:49-61 | a direction is offered exactly when it leads to an in-grid screen not yet marked connected |
| Worldgen.Generator.Mark | src/iryrwarosh/Worldgen.java:69-73 | marking adds the screen to the connected set and shrinks the unmarked set when the screen was new |
| Worldgen.Generator.MazeRound | src/iryrwarosh/Worldgen.java:47-75 | one round keeps the maze and tree invariants; it either leaves map, marks and links unchanged and shortens the worklist, or appends exactly one link, whose target was unmarked, and marks its two screens |
| Worldgen.Generator.MakePerfectMaze | src/iryrwarosh/Worldgen.java:38-77 | the maze terminates and leaves the map well formed and connected, with no opening closed and no theme or flag changed. The links it made form a spanning tree rooted at the drawn start: W·H − 1 links, each to a different screen, each leaving the start or an earlier target. The openings are the old ones plus the links, so on an all-WALL grid they are exactly the links and only WALL edges changed |
| Worldgen.Generator.WallDirections | src/iryrwarosh/Worldgen.java:88-100 | a direction is offered exactly when it leads into the grid through a WALL edge |
| Worldgen.Generator.AddExtraConnections | src/iryrwarosh/Worldgen.java:79-108 | max(W, H) rounds only turn WALL edges into open ones; a connected map stays connected; each round takes 2 to 4 draws |
| Worldgen.Generator.Inherit | src/iryrwarosh/Worldgen.java:205-224 | an unthemed screen takes the theme of the last direction, in shuffled order, whose edge is open and whose neighbour is themed; none if no direction feeds it |
| Worldgen.Generator.SpreadCellOnce | src/iryrwarosh/Worldgen.java:200-224 | one cell of a spreading pass follows `SpreadCell`, and the direction list stays a permutation of N, S, W, E |
| Worldgen.Generator.SpreadThemesOnce | src/iryrwarosh/Worldgen.java:194-229 | the new buffer keeps every themed screen's theme and fills unthemed screens only from open themed neighbours of the old buffer |
| Worldgen.Generator.SpreadKeeps | src/iryrwarosh/Worldgen.java:200-201 | a pass keeps every theme already placed, and spreads only theme walls |
| Worldgen.Generator.SpreadGrows | src/iryrwarosh/Worldgen.java:194-229 | on a connected map with some but not all screens themed, a pass themes at least one more screen |
| Worldgen.Generator.FrontierScreen | src/iryrwarosh/Worldgen.java:205-224 | on such a map some unthemed screen has an open edge to a themed one |
| Worldgen.Generator.CountUnthemed | src/iryrwarosh/Worldgen.java:182-187 | the count is zero exactly when every screen is themed |
| Worldgen.Generator.SpreadLoop | src/iryrwarosh/Worldgen.java:179-189 | the do-while loop terminates with every screen themed, keeping the seeded themes |
| Worldgen.Generator.PlaceThemes | src/iryrwarosh/Worldgen.java:231-238 | each themed screen's wall becomes its theme and nothing else changes |
| Worldgen.Generator.SpreadThemesUntilComplete | src/iryrwarosh/Worldgen.java:176-192 | every screen ends with a theme-wall wall, the seeded screens with their seeds, and no edge changes |
| Worldgen.Generator.PlaceSeed | src/iryrwarosh/Worldgen.java:161-169 | a seed lands only on an unthemed in-grid screen; on an empty grid it always lands |
| Worldgen.Generator.SeedThemes | src/iryrwarosh/Worldgen.java:154-170 | the first seed is placed and every placed theme is one of the fourteen seeds |
| Worldgen.Generator.SetThemeGround | src/iryrwarosh/Worldgen.java:240-260 | each screen's ground becomes `GroundFor` of its wall; edges are kept |
| Themes.ThemeGround | src/iryrwarosh/Worldgen.java:243-258 | a theme-wall screen gets that wall's ground; any other screen is unchanged |
| Worldgen.Generator.AddThemes | src/iryrwarosh/Worldgen.java:152-174 | every screen ends themed (a theme wall and its ground), with edges, connectivity and flags kept |
| Desert.DesertOriginAsWrittenAtZero | src/iryrwarosh/Worldgen.java:263-264 | the block origin as written is -1 for a draw of 0.0 |
| Desert.DesertOriginAsWrittenAtTwo | src/iryrwarosh/Worldgen.java:263-266 | on a grid two screens across (or down), every draw above one half gives origin 1, so the block's second column or row would be index 2, outside the grid |
| Desert.DesertOriginAsWrittenRange | src/iryrwarosh/Worldgen.java:263-264 | for len ≥ 3, every draw other than 0.0 gives an origin in [0, len-2] |
| Desert.DesertOrigin | src/iryrwarosh/Worldgen.java:263-264 | the corrected origin lies in [1, len-2], so the 2 × 2 block stays inside the grid: it never touches the west or north border, and its second column or row may be the east or south border |
| Desert.DesertBlock | src/iryrwarosh/Worldgen.java:266-288 | the desert pass rewrites each screen by `DesertAt` and keeps the grid's shape |
| Desert.DesertScreens | src/iryrwarosh/Worldgen.java:266-288 | the four block screens get DESERT_SAND1 ground, BROWN_ROCK walls and no quarter walls; the shore flags stay; other screens are untouched |
| Desert.DesertEdge | src/iryrwarosh/Worldgen.java:269-288 | an edge between two block screens is WIDE on both sides; every other edge keeps its kind |
| Desert.DesertWellFormed | src/iryrwarosh/Worldgen.java:262-289 | the block keeps edges mirrored and the border walled, and closes no opening |
| Desert.DesertConnected | src/iryrwarosh/Worldgen.java:262-289 | a connected map stays connected |
| Worldgen.Generator.PaintDesert | src/iryrwarosh/Worldgen.java:266-288 | the cells become `DesertAt` of their old values |
| Worldgen.Generator.AddDesert | src/iryrwarosh/Worldgen.java:262-289 | with the corrected origin the block lies inside the grid, off the west and north border (it may reach the east or south border); the map becomes `DesertBlock`; two draws |
| Layout.StencilIndex | src/iryrwarosh/Worldgen.java:1434 | `x + y * screenWidth` addresses a 171-character stencil, and its column and row are recovered by `%` and `/` |
| Layout.StencilTile | src/iryrwarosh/Worldgen.java:1434-1443 | a character outside the switch (the blank among them) keeps the tile; '&' writes the palette's special tile and 't' the caller's tile |
| Layout.StencilTileCases | src/iryrwarosh/Worldgen.java:1434-1443 | a blank keeps the tile; every '&' in one call gets the same tile; 't' gets the caller's tile; the other characters give the variation of a palette entry |
| Worldgen.Generator.ScreenBox | src/iryrwarosh/Worldgen.java:1413-1414 | the box of screen (sx, sy) is exactly the tiles [19sx, 19sx+19) × [9sy, 9sy+9) |
| Worldgen.Generator.GetRandomWall | src/iryrwarosh/Worldgen.java:1447-1455 | the wall is one of the table's theme walls; one draw |
| Worldgen.Generator.DrawLocal | src/iryrwarosh/Worldgen.java:1417-1420 | the local wall is the screen's wall, a statue or a table wall; 2 or 3 draws |
| Worldgen.Generator.DrawSpecial | src/iryrwarosh/Worldgen.java:1422 | the special tile is a statue, the floor or the wall; 1 or 2 draws |
| Worldgen.Generator.DrawPalette | src/iryrwarosh/Worldgen.java:1413-1430 | the floor and wall come from the screen; on WHITE_WALL screens the local and special tiles are white statues and the bridge is WHITE_TILE1, and a specific tile other than water, lava or bridge becomes a white statue; elsewhere the bridge is BRIDGE and the specific tile is kept |
| Worldgen.Generator.Stamp | src/iryrwarosh/Worldgen.java:1432-1444 | each tile of the screen's box becomes `StencilTile` of its stencil character; no tile outside the box changes |
| Worldgen.Generator.AddMap | src/iryrwarosh/Worldgen.java:1412-1445 | `addMap` draws the palette, then stamps: it writes only inside the screen, with the floor and wall of that screen; on a WHITE_WALL screen the local and special tiles are white statues, the bridge WHITE_TILE1 and the specific tile kept only for water, lava or a bridge; elsewhere the bridge is BRIDGE, the specific tile is the caller's, the local wall is the wall, a statue or a table wall, and the special tile a statue, the floor or the wall; 3 to 5 draws |
| Layout.IsDeadEnd | src/iryrwarosh/Worldgen.java:352-359 | a dead end has an open edge |
| Layout.DeadEndOneWay | src/iryrwarosh/Worldgen.java:352-359 | `isDeadEnd` holds exactly when one edge is open and the other three are WALL |
| Normalize.CenterEdge | src/iryrwarosh/Worldgen.java:627-642 | one side: an open edge and its facing edge become CENTER, a WALL stays, the other sides are kept, and mirroring is preserved |
| Normalize.CenterEdgesAtScreen | src/iryrwarosh/Worldgen.java:626-643 | after the conversion each edge of the screen is WALL where it was WALL and CENTER where it was open, so the dead-end test gives the same answer |
| Normalize.CenterEdgesStructure | src/iryrwarosh/Worldgen.java:626-643 | the conversion opens and closes nothing, keeps a well-formed map well formed, and keeps it connected exactly when it was |
| Worldgen.Generator.CenterSide | src/iryrwarosh/Worldgen.java:627-630 | the in-place writes for one side give `CenterEdge` of the old map |
| Worldgen.Generator.ConvertEdgesToCenter | src/iryrwarosh/Worldgen.java:626-643 | the in-place conversion gives `CenterEdges` of the old map |
| Worldgen.Generator.Clear | src/iryrwarosh/Worldgen.java:1495-1500 | exactly the tiles inside both the rectangle and the grid become the variation of the tile; all others are unchanged |
| Layout.OpeningBox | src/iryrwarosh/Worldgen.java:1457-1493 | every non-WALL edge kind cuts a two-tile-deep opening that lies inside the screen against the side it opens (offsets 19/2, 19/3, 19/3*2-1 and 9/2, 9/3, 9/3*2-1); WALL cuts none |
| Layout.OpeningsAlign | src/iryrwarosh/Worldgen.java:1458-1492 | the cut on one side and the cut on the facing side of the neighbour cover the same columns (or rows), so a mirrored edge gives a straight corridor |
| Layout.NarrowOpeningsApart | src/iryrwarosh/Worldgen.java:1458-1463 | the three narrow kinds cut at three different places |
| Worldgen.Generator.OpenSide | src/iryrwarosh/Worldgen.java:1458-1465 | one side's cut becomes the screen's ground variation; nothing else changes |
| Worldgen.Generator.AddBorderOpenings | src/iryrwarosh/Worldgen.java:1457-1493 | exactly the tiles in the four cuts become the ground variation |
| Worldgen.Generator.OpeningsInScreen | src/iryrwarosh/Worldgen.java:1457-1493 | every cut lies inside the screen's own box |
| Layout.QuarterBox | src/iryrwarosh/Worldgen.java:1715-1733 | the four quadrants are 9 × 4, inside the screen and off its centre column and row |
| Layout.QuartersApart | src/iryrwarosh/Worldgen.java:1715-1733 | two quadrants never share a tile |
| Layout.QuarterSparesOpenings | src/iryrwarosh/Worldgen.java:1714-1732 | a quadrant the edge rule allows covers no tile of a narrow opening, and a WIDE opening keeps its middle tile |
| Worldgen.Generator.CenterBlockers | src/iryrwarosh/Worldgen.java:1706-1710 | the count is the number of the five centre tiles that differ from the screen's ground (null when unset) |
| Worldgen.Generator.TryQuarter | src/iryrwarosh/Worldgen.java:1714-1718 | a quadrant is walled only where the edge rule allows it; the draw is always taken |
| Worldgen.Generator.QuarterLoop | src/iryrwarosh/Worldgen.java:1712-1736 | the walled quadrants are allowed, in increasing order, and at most one when only one is allowed; exactly their tiles become wall; one draw per quadrant tried: four, or up to the first hit when only one is allowed |
| Worldgen.Generator.AddExtraQuarterScreenOfWalls | src/iryrwarosh/Worldgen.java:1699-1737 | nothing is walled where quarter sections are off; more than two centre blockers allow at most one quadrant; exactly the walled quadrants' tiles change; no draw where quarter sections are off, otherwise one per quadrant tried |
| Worldgen.Generator.QuartersGrow | src/iryrwarosh/Worldgen.java:1712-1736 | walling one more quadrant adds exactly its box to the walled tiles |
| Worldgen.Generator.QuartersSpareCuts | src/iryrwarosh/Worldgen.java:1714-1736 | no walled quadrant covers a tile of a narrow border opening |
| Shore.Advance | src/iryrwarosh/Worldgen.java:1547-1601 | one move of the shore walker keeps its heading or turns it clockwise |
| Shore.AdvanceOnShore | src/iryrwarosh/Worldgen.java:1538-1603 | the walker starts on the shore, every move keeps it on the shore, and it turns only clockwise |
| Shore.AdvanceAcross | src/iryrwarosh/Worldgen.java:1547-1553 | the moves along the north and south sides, round their corners, stay on the shore |
| Shore.AdvanceDown | src/iryrwarosh/Worldgen.java:1563-1569 | the moves along the east and west sides, round their corners, stay on the shore |
| Shore.ShoreBox | src/iryrwarosh/Worldgen.java:1541-1589 | the band one step paints lies within four tiles of the world's border |
| Shore.CornerBox | src/iryrwarosh/Worldgen.java:1549-1597 | each corner patch lies within four tiles of the world's border |
| Shore.WalkerScreen | src/iryrwarosh/Worldgen.java:1535-1536 | the screen under the walker is in the grid, on the side it walks |
| Shore.FlagsElsewhere | src/iryrwarosh/Worldgen.java:1542-1593 | a step touches the flags of its own screen and the next screen along, and no other |
| Shore.ShoreFlagsOnBorder | src/iryrwarosh/Worldgen.java:1540-1594 | a step only raises flags, and only on screens of the border each flag names |
| Shore.ShoreCellTrans | src/iryrwarosh/Worldgen.java:31-32 | shore painting composes, so running the shoreline twice keeps the same per-screen guarantee |
| Worldgen.Generator.RaiseShoreFlags | src/iryrwarosh/Worldgen.java:1542-1593 | the cells become `FlagsAt` of their old values for the walker's side and screen |
| Worldgen.Generator.ShoreStep | src/iryrwarosh/Worldgen.java:1532-1603 | one iteration moves the walker by `Advance`; once started it paints the band and raises the flags; the corner patch is painted on a turn (the north-west one even before the start) |
| Worldgen.Generator.AddShoreLine | src/iryrwarosh/Worldgen.java:1521-1607 | the walk terminates and takes two draws; every tile it changes lies within four tiles of the border and becomes water; every screen satisfies `ShoreCell` |
| Worldgen.Generator.ChangeDirection | src/iryrwarosh/Worldgen.java:1643-1655 | the new direction never reverses the old one; it changes only when the second draw was taken |
| Layout.Turn | src/iryrwarosh/Worldgen.java:1647-1652 | the drawn direction is taken unless it is the reverse of the current one |
| Worldgen.Generator.GetBridgeCandidates | src/iryrwarosh/Worldgen.java:1667-1691 | the candidates are exactly the interior tiles of the screen that match the bridge pattern, in scan order |
| Worldgen.Generator.AddBridge | src/iryrwarosh/Worldgen.java:1657-1665 | no bridge exactly when there is no candidate; otherwise one candidate becomes BRIDGE and nothing else changes |
| Layout.Channel | src/iryrwarosh/Worldgen.java:1618-1639 | the channel of one move is one tile wide and a screen long (one tile longer going north or west), runs from the screen's anchor tile toward the heading, and reaches the next screen's anchor going north or west |
| Layout.BridgePattern | src/iryrwarosh/Worldgen.java:1677-1691 | the crossing test `IsBridgeCandidate` applies to a tile and its four neighbours: a candidate is a water tile with water above or to its left (water on one axis, ground on the other) |
| Worldgen.Generator.RiverStep | src/iryrwarosh/Worldgen.java:1615-1639 | one move steps one screen in its heading; every tile of the channel becomes the variation of WATER1, except that a bridge laid on it wins; a bridge is laid only under the edge test on the screen left and only on a crossing tile inside it, and is missing only when that screen has no crossing tile; no other tile changes; one draw per bridge |
| Worldgen.Generator.RiverGrows | src/iryrwarosh/Worldgen.java:1612-1640 | one more move adds exactly its channel to the river's tiles, and its screen to the bridge sites exactly when it laid a bridge |
| Worldgen.Generator.WalkFacts | src/iryrwarosh/Worldgen.java:1612-1640 | the moves start at the river's source, stay in the grid, and each leaves the screen the previous one reached without reversing its heading |
| Worldgen.Generator.RiverWalk | src/iryrwarosh/Worldgen.java:1612-1640 | the loop of `addRiver`: its moves form a walk from the source that ends outside the grid unless the fuel ran out; bridges only under the edge test; against the starting grid only the channels' water and the bridges change, and every channel tile is water or a bridge; one to three draws per move, plus up to two for the final heading change |
| Worldgen.Generator.AddRiver | src/iryrwarosh/Worldgen.java:1609-1641 | the moves chain from the source, never reverse, and stop only on leaving the grid (or at the fuel bound); every tile of every channel is water or a bridge; every other change is a bridge inside a screen left under the edge test; 1 + n to 3 + 3n draws for n moves |
| Shore.LakeOnCorner | src/iryrwarosh/Worldgen.java:1508-1511 | a lake on an inner corner lies in the world, within the four screens round that corner, and covers a tile of each |
| Shore.LakeFlagsFaceCorner | src/iryrwarosh/Worldgen.java:1513-1516 | the four corner flags are raised only on the screens that face the corner, each the flag pointing at it |
| Worldgen.Generator.AddLakeFlags | src/iryrwarosh/Worldgen.java:1513-1516 | the cells become `LakeFlags` of their old values |
| Worldgen.Generator.LakeIndex | src/iryrwarosh/Worldgen.java:1505-1506 | `(int)(Math.random() * (n - 2) + 1)` is an inner grid line, and not the last one when n ≥ 3 |
| Worldgen.Generator.AddLake | src/iryrwarosh/Worldgen.java:1502-1519 | the lake is water (or a bridge) over its whole box, the four facing flags are raised, the river starts at the lake's corner, and every other change is that river's water or one of its bridges; 3 + n to 5 + 3n draws for a river of n moves |
| Worlds.World.constructor | src/iryrwarosh/World.java:23-30 | the item grid has the tile grid's shape and starts empty, as do both lists |
| Worlds.World.TileAt | src/iryrwarosh/World.java:36-41 | `tile` is OUT_OF_BOUNDS outside the world and the grid's tile inside it |
| Worlds.World.OutOfBoundsExactly | src/iryrwarosh/World.java:36-41 | while no cell holds OUT_OF_BOUNDS, `tile` answers OUT_OF_BOUNDS exactly for the positions outside |
| Worlds.World.ItemAt | src/iryrwarosh/World.java:43-48 | `item` is null outside the world and the cell's item inside it |
| Worlds.FirstAt | src/iryrwarosh/World.java:50-56 | the first index of a creature standing on p: none exactly when no creature stands there |
| Worlds.World.CreatureAt | src/iryrwarosh/World.java:50-56 | `creature` returns the first listed creature on the position, or null when there is none |
| Worlds.World.SetTile | src/iryrwarosh/World.java:200-202 | `tile` then answers the new tile there, and no other cell changes |
| Worlds.RemoveFirst | src/iryrwarosh/World.java:191 | `List.remove` drops one occurrence of the item if there is one: the bag loses exactly that item |
| Worlds.RemoveFirstAt | src/iryrwarosh/World.java:191 | the occurrence dropped is the first, and the rest of the list keeps its order |
| Worlds.World.RemoveItem | src/iryrwarosh/World.java:188-194 | an empty cell changes nothing; otherwise the cell is emptied and the list loses exactly the item the cell held; no other cell changes |
| Worlds.World.AddItem | src/iryrwarosh/World.java:163-174 | a null item or a position outside the world changes nothing; otherwise the item replaces the cell's previous item in the grid and in the list, and is listed last |
| Worlds.Flow | src/iryrwarosh/World.java:114-120 | a dry tile is left alone; a water tile becomes WATER1's variation or its east neighbour's tile, which is then water |
| Worlds.FlowKeepsWater | src/iryrwarosh/World.java:111-122 | dry tiles never change; a water tile takes a watery east neighbour's tile or else WATER1's variation; while that variation is water, water stays water |
| Worlds.World.UpdateWater | src/iryrwarosh/World.java:111-122 | every tile becomes `Flow` of its own pre-pass tile and its east neighbour's pre-pass tile, because columns are visited west to east |
| Worlds.World.FlowColumn | src/iryrwarosh/World.java:113-121 | one column is shifted and every other column is untouched |
| Worlds.World.ItemsNear | src/iryrwarosh/World.java:222-238 | the pairs are exactly the in-world cells within nine tiles on both axes that hold an item, each once, in column-major order |
| Worlds.World.ScanColumn | src/iryrwarosh/World.java:225-235 | one column of the scan appends that column's items in order and keeps the earlier ones |
| Worlds.Alive | src/iryrwarosh/World.java:89-95 | the survivors are listed creatures with hearts left, and no more of them than there were creatures |
| Worlds.AliveMembers | src/iryrwarosh/World.java:89-95 | a creature survives exactly when it was listed and has hearts left |
| Worlds.AliveAppend | src/iryrwarosh/World.java:89-95 | the filter keeps the original order: filtering a concatenation concatenates the filtered parts |
| Worlds.World.RemoveDead | src/iryrwarosh/World.java:89-95 | the creature list becomes `Alive` of the old list |
| Creatures.Creature.constructor | src/iryrwarosh/Creature.java:105-111 | a new creature has full hearts, its raw maximum equal to its hit points, no rupees and no traits |
| Creatures.Creature.RecoverHearts | src/iryrwarosh/Creature.java:506-508 | hearts become min(hearts + amount, raw maxHearts), never above the raw maximum, never lower for a non-negative amount |
| Creatures.Creature.GainRupees | src/iryrwarosh/Creature.java:545-547 | rupees become min(rupees + amount, 255) and never exceed 255 |
| Creatures.Damage | src/iryrwarosh/Creature.java:515-518 | a hit worth more than one loses one heart of its worth when the creature has EXTRA_DEFENSE; any other hit gets through whole |
| Creatures.LossBounds | src/iryrwarosh/Creature.java:510-529 | a creature below one heart loses nothing; a standing one loses exactly the hit, or the hit less one when it has EXTRA_DEFENSE and the hit is worth more than one; so a hit never heals, and a hit of at least one costs at least one heart |
| Creatures.Creature.LoseHearts | src/iryrwarosh/Creature.java:510-529 | nothing happens to a creature already down; otherwise it loses the hit less the block, and the cause of death is recorded exactly when this hit brings it below one heart; the published messages are recorded in order |
| Creatures.Spend | src/iryrwarosh/Creature.java:553-558 | the purse never goes negative, and what it could not pay is exactly the debt |
| Creatures.Creature.LoseRupees | src/iryrwarosh/Creature.java:549-560 | only the player pays; the purse becomes the spent amount, floored at zero; a shortfall becomes an equal `loseHearts` with the creature itself as attacker |
| Creatures.LowerSame | src/iryrwarosh/Creature.java:208 | two glyphs have the same lower case exactly when they are equal or one is the capital of the other |
| Creatures.Creature.IsFriendlyTo | src/iryrwarosh/Creature.java:204-209 | friendliness only ever joins two humans or two non-humans |
| Creatures.Creature.FriendlyFacts | src/iryrwarosh/Creature.java:204-209 | two humans are friendly exactly when they are the same creature; any other pair exactly when their glyphs agree ignoring case; so friendliness is mutual, every creature is friendly to itself, and a human is never friendly to a non-human |
| Creatures.Creature.CanEnter | src/iryrwarosh/Creature.java:113-124 | a tile can be entered exactly when the creature is a walker and it is ground, a swimmer and it is swimmable, or a flier and it is flyable; so a creature with none of the three traits can enter nothing |
| Creatures.Article | src/iryrwarosh/Creature.java:252-259 | no article for an upper-case name, "an " for a lower-case vowel, "a " otherwise |
| Creatures.SlainByText | src/iryrwarosh/Creature.java:250-262 | the text is the prefix, then the article, then the whole name |
| Creatures.SlainByTextCases | src/iryrwarosh/Creature.java:250-262 | the three spellings of the death text |
| Creatures.Creature.IsHidden | src/iryrwarosh/Creature.java:423-425 | a creature is hidden exactly when it stands at (-100, -100), so a hidden creature is off every world |
| Creatures.Creature.Hide | src/iryrwarosh/Creature.java:413-421 | on a tile one cannot hide in nothing changes; otherwise the old position is saved, a Hid message is published and the creature is hidden |

## Left out

- `Math.random()` is a stream of draws held by `Rand.Random`. Contracts state the range of each draw and, where listed in the Model table, how many draws a method takes. They never state which value a draw had, so distributions are not modelled.
- Draw counts are not stated for the loops `MazeRound`, `MakePerfectMaze`, `SpreadCellOnce`, `SpreadThemesOnce`, `SpreadLoop`, `SpreadThemesUntilComplete`, `SeedThemes` and `AddThemes` of `Worldgen.Generator`: how many draws they take depends on the drawn values and on the grid, and only their effect on the grids is stated.
- Double arithmetic such as `Math.random() * n` is modelled as an exact product of reals followed by `Trunc`. IEEE double rounding is not modelled, so a product that rounds across an integer in the source is not captured.
- Worldgen.Generator.AddDesert: requires a grid at least 3 screens across and down. The corrected origin needs that much room for a 2 × 2 block off the west and north border. The source has no such guard: on a grid 2 across or down it throws for every draw above one half (see "Findings"), and on a grid 1 across or down for every draw.
- Rand.Random.Shuffle: takes its swaps from the same stream as `Math.random()`. `Collections.shuffle` uses a `Random` of its own, so in the source a shuffle does not move the `Math.random()` stream; here it advances it by n - 1 draws.
- Rand.Random.NextInt: states only `k < n` and the draw count, not `k == (int)(r * n)` for the draw r.
- Worldgen.Generator.PlaceSeed: the rejection loop of theme seeding has no bound in the source (it never ends on a grid of fewer than 14 screens). It takes a fuel argument, and the seeding states what it does when a seed lands.
- Worldgen.Generator.SeedThemes: under the same fuel, only the first seed is guaranteed to land.
- Worldgen.Generator.AddThemes: takes the same fuel.
- Worldgen.Generator.AddRiver: the river's random walk has no bound in the source. It takes a fuel argument, and the path length is at most that fuel.
- Worldgen.Generator.AddRiver: over the whole walk it states that bridges are laid only under the edge test, not that one is laid whenever the screen left has a crossing tile at that moment; `RiverStep` states that for each move. The draw count is a range, since each heading change takes one or two draws.
- Worldgen.Generator.AddLake: takes the river's fuel.
- Worldgen.Generator.AddShoreLine: states the relation each tile and screen keeps, not the exact painted band, which depends on the drawn start and length.
- `setTiles`, `setTilesForScreen`, the stencil catalogue of the `setTiles*Screen` methods and `setDeadEndTiles` are not part of this model. `AddMap` takes any 171-character stencil in their place.
- The orchestration in `build` and `addExtraQuarterScreenWallsToTiles` are not modelled; each phase is modelled with the preconditions it needs.
- Worldgen.Generator.AddMap: requires the screen's ground and wall to be set. The source would stamp `null.variation` and fail otherwise.
- Worldgen.Generator.AddBorderOpenings: requires the ground to be set where an edge is open, for the same reason.
- Worldgen.Generator.AddExtraQuarterScreenOfWalls: requires the wall to be set where quarter sections are allowed, for the same reason.
- The `Tile` enum (its categories and `variation`) is not part of this model. It is the `Terrain` parameter, whose functions are total: they say nothing about the `null` tiles of an unstamped grid.
- Worlds.World.AddItem: `item.onCollide` with the creature standing there is foreign code and is left out.
- Worlds.World.RemoveItem: `List.remove` compares items with `equals`. `Item` is not part of this model, so items are compared by identity.
- The item list is not kept in step with the grid as a global invariant, because the random `add(Item)` and `addToScreen` can put one item on two cells. Each operation instead states how the list changes with its cell.
- The random placement loops (`add(Creature)`, `add(Item)`, `addToScreen`), `updateLava`, projectiles and the per-creature `update` calls in `World.update` are not modelled.
- Creatures.Creature.IsFriendlyTo: `Character.toLowerCase` is modelled on ASCII letters only; other characters are their own lower case.
- Creatures.Article: `Character.isUpperCase` is modelled on ASCII letters only.
- Creatures.Creature.Hide: takes the tile under the creature as a parameter. The world lookup `world.tile(position.x, position.y)` is not repeated, because the creature module cannot import the world module.
- Creatures.Creature.LoseHearts: records its messages in the creature's own log. The global `MessageBus` and the AI's handling are left out, and so is the right-hand item in `BlockSomeDamage`.
- `hasTrait` consults the items in the creature's hands. The set of traits stands for the creature's own and its items' traits together; items are not modelled.
- Creatures.Creature.constructor: takes the starting position, which the source sets later, when the world places the creature; the colour is not modelled.
- Java's `int` arithmetic on hearts and rupees is unbounded here: no overflow is modelled.

## Findings

| source | as written | input that shows it | evidently intended | confidence | as-written member | corrected member |
|---|---|---|---|---|---|---|
| src/iryrwarosh/Worldgen.java:263-264 | `(int)(Math.random() * cells.length - 2) + 1` subtracts 2 before the cast, so for len ≥ 3 the origin ranges over [-1, len-2], and for len = 2 over {-1, 0, 1} | a draw of 0.0 gives x = -1, and `cells[-1][y]` throws; on a grid 2 screens across, every draw above 1/2 gives x = 1, and `cells[x+1]`, that is `cells[2]`, throws; for len ≥ 3, draws below 1/len give x = 0, a block on the west or north border, which no corrected origin touches | `(int)(Math.random() * (cells.length - 2)) + 1`, as the lake does at line 1505: an origin in [1, len-2], so the 2 × 2 block lies inside the grid, off the west and north border (its second column or row may be the east or south border) | high for the -1 and the len = 2 cases (not executed) | Desert.DesertOriginAsWrittenAtZero, Desert.DesertOriginAsWrittenAtTwo | Desert.DesertOrigin |
