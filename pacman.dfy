/**
 * PacManGame without its Swing parts: the board is built from a fixed tile
 * map; walls, pellets and ghosts are blocks (axis-aligned rectangles with a
 * start position, a direction and a velocity); Pac-Man eats pellets, loses a
 * life on touching a ghost, and the board is reloaded when it is cleared.
 *
 * A block is a value here. The source keeps blocks in hash sets; the model
 * keeps them in sequences in the order the map is scanned, and iterates over
 * them in that order.
 */
module PacMan {
  import opened Basics
  import opened Events
  import opened Core

  const Name: string := "PacMan"
  const Version: string := "1.0"
  const RowCount: nat := 21
  const ColumnCount: nat := 19
  const TileSize: int := 24
  const BoardWidth: int := ColumnCount * TileSize
  const InitialLives: int := 3
  const PelletScore: int := 10
  /** The row on which a ghost moving sideways is turned upwards. */
  const GhostTurnRow: nat := 9

  /** The four directions a block can take. */
  const Directions: string := "UDLR"

  /** Row r of the board layout, top row first. */
  function TileRow(r: int): (row: string) {
    if r == 0 then "XXXXXXXXXXXXXXXXXXX"
    else if r == 1 then "X        X        X"
    else if r == 2 then "X XX XXX X XXX XX X"
    else if r == 3 then "X                 X"
    else if r == 4 then "X XX X XXXXX X XX X"
    else if r == 5 then "X    X       X    X"
    else if r == 6 then "XXXX XXXX XXXX XXXX"
    else if r == 7 then "OOOX X       X XOOO"
    else if r == 8 then "XXXX X XXrXX X XXXX"
    else if r == 9 then "O       bpo       O"
    else if r == 10 then "XXXX X XXXXX X XXXX"
    else if r == 11 then "OOOX X       X XOOO"
    else if r == 12 then "XXXX X XXXXX X XXXX"
    else if r == 13 then "X        X        X"
    else if r == 14 then "X XX XXX X XXX XX X"
    else if r == 15 then "X  X     P     X  X"
    else if r == 16 then "XX X X XXXXX X X XX"
    else if r == 17 then "X    X   X   X    X"
    else if r == 18 then "X XXXXXX X XXXXXX X"
    else if r == 19 then "X                 X"
    else "XXXXXXXXXXXXXXXXXXX"
  }

  /** The source's `tileMap` array: 'X' wall, 'b'/'o'/'p'/'r' ghosts, 'P' Pac-Man, ' ' pellet, 'O' nothing. */
  const TileMap: seq<string> := seq(21, TileRow)

  /** Every row of the map has the board's width. */
  predicate WellShaped(tm: seq<string>) {
    |tm| == RowCount && forall r :: 0 <= r < |tm| ==> |tm[r]| == ColumnCount
  }

  lemma TileMapWellShaped()
    ensures WellShaped(TileMap)
  {
  }

  /** A rectangle at (x, y), its start position, direction and velocity. */
  datatype Block = Block(x: int, y: int, width: int, height: int,
                         startX: int, startY: int, direction: char, velocityX: int, velocityY: int)

  /** The constructor: start position = position, direction 'U', at rest. */
  function NewBlock(x: int, y: int, width: int, height: int): (b: Block)
    ensures b.x == b.startX == x && b.y == b.startY == y && b.width == width && b.height == height
    ensures b.direction == 'U' && b.velocityX == 0 && b.velocityY == 0
  {
    Block(x, y, width, height, x, y, 'U', 0, 0)
  }

  /** `collision`: the interiors of the two rectangles overlap. */
  predicate Collision(a: Block, b: Block) {
    a.x < b.x + b.width && a.x + a.width > b.x && a.y < b.y + b.height && a.y + a.height > b.y
  }

  /** Overlap is symmetric. */
  lemma CollisionSymmetric(a: Block, b: Block)
    ensures Collision(a, b) <==> Collision(b, a)
  {
  }

  /**
   * Overlap is strict: rectangles that only share an edge do not collide, and
   * a block of positive size collides with itself.
   */
  lemma CollisionStrict(a: Block, b: Block)
    ensures b.x == a.x + a.width ==> !Collision(a, b)
    ensures b.y == a.y + a.height ==> !Collision(a, b)
    ensures a.width > 0 && a.height > 0 ==> Collision(a, a)
  {
  }

  /** The block touches some block of s. */
  predicate HitsAny(b: Block, s: seq<Block>) {
    exists i :: 0 <= i < |s| && Collision(b, s[i])
  }

  /** The block's position moved by (dx, dy). */
  function Shift(b: Block, dx: int, dy: int): (moved: Block) {
    b.(x := b.x + dx, y := b.y + dy)
  }

  /** `updateVelocity`: a quarter tile per tick along the block's direction. */
  function UpdateVelocity(b: Block): (r: Block)
    ensures r.x == b.x && r.y == b.y && r.direction == b.direction
    ensures r.width == b.width && r.height == b.height && r.startX == b.startX && r.startY == b.startY
    ensures b.direction == 'U' ==> r.velocityX == 0 && r.velocityY == -6
    ensures b.direction == 'D' ==> r.velocityX == 0 && r.velocityY == 6
    ensures b.direction == 'L' ==> r.velocityX == -6 && r.velocityY == 0
    ensures b.direction == 'R' ==> r.velocityX == 6 && r.velocityY == 0
    ensures b.direction !in Directions ==> r == b
  {
    if b.direction == 'U' then b.(velocityX := 0, velocityY := -TileSize / 4)
    else if b.direction == 'D' then b.(velocityX := 0, velocityY := TileSize / 4)
    else if b.direction == 'L' then b.(velocityX := -TileSize / 4, velocityY := 0)
    else if b.direction == 'R' then b.(velocityX := TileSize / 4, velocityY := 0)
    else b
  }

  /** A block of one of the four directions moves along exactly one axis. */
  lemma VelocityOneAxis(b: Block)
    requires b.direction in Directions
    ensures var r := UpdateVelocity(b);
      (r.velocityX == 0) != (r.velocityY == 0) && (r.velocityX == 0 || r.velocityX == 6 || r.velocityX == -6)
      && (r.velocityY == 0 || r.velocityY == 6 || r.velocityY == -6)
  {
  }

  /** The block's velocity is the one its direction gives. */
  predicate Steady(b: Block) {
    b.direction in Directions && UpdateVelocity(b) == b
  }

  /**
   * The loop of `updateDirection` over the walls, from the moved block on: each
   * wall the block overlaps undoes one step at the current velocity and puts
   * back the previous direction and its velocity.
   */
  function RevertPass(b: Block, prev: char, walls: seq<Block>): (reverted: Block)
    decreases |walls|
  {
    if walls == [] then b
    else
      var b' := if Collision(b, walls[0]) then UpdateVelocity(Shift(b, -b.velocityX, -b.velocityY).(direction := prev)) else b;
      RevertPass(b', prev, walls[1..])
  }

  /** The block after taking direction d and one step in it. */
  function Stepped(b: Block, d: char): (stepped: Block) {
    var turned := UpdateVelocity(b.(direction := d));
    Shift(turned, turned.velocityX, turned.velocityY)
  }

  /** `updateDirection(d)`: turn, step, and let the walls undo the step. */
  function Turned(b: Block, d: char, walls: seq<Block>): (turned: Block) {
    RevertPass(Stepped(b, d), b.direction, walls)
  }

  /** A block that overlaps no wall goes through the pass untouched. */
  lemma {:induction false} RevertPassIdle(b: Block, prev: char, walls: seq<Block>)
    requires !HitsAny(b, walls)
    ensures RevertPass(b, prev, walls) == b
    decreases |walls|
  {
    if walls != [] {
      HitsNoneTail(b, walls);
      RevertPassIdle(b, prev, walls[1..]);
    }
  }

  /** `b` overlaps no wall of `walls[1..]` when it overlaps none of `walls`. */
  lemma HitsNoneTail(b: Block, walls: seq<Block>)
    requires walls != [] && !HitsAny(b, walls)
    ensures !HitsAny(b, walls[1..])
  {
    forall i | 0 <= i < |walls[1..]| ensures !Collision(b, walls[1..][i]) {
      assert walls[1..][i] == walls[i + 1];
    }
  }

  /**
   * A block m that overlaps some wall, one step back along its velocity from a
   * place b that overlaps none: the pass puts it back at b with b's direction.
   */
  lemma {:induction false} RevertPassBack(m: Block, b: Block, walls: seq<Block>)
    requires !HitsAny(b, walls) && HitsAny(m, walls)
    requires UpdateVelocity(Shift(m, -m.velocityX, -m.velocityY).(direction := b.direction)) == b
    ensures RevertPass(m, b.direction, walls) == b
    decreases |walls|
  {
    HitsNoneTail(b, walls);
    if Collision(m, walls[0]) {
      RevertPassIdle(b, b.direction, walls[1..]);
    } else {
      assert HitsAny(m, walls[1..]) by {
        var i :| 0 <= i < |walls| && Collision(m, walls[i]);
        assert i > 0 && walls[1..][i - 1] == walls[i];
      }
      RevertPassBack(m, b, walls[1..]);
    }
  }

  /**
   * `updateDirection` when the step runs into no wall: the block takes the new
   * direction and the step.
   */
  lemma TurnFree(b: Block, d: char, walls: seq<Block>)
    requires !HitsAny(Stepped(b, d), walls)
    ensures Turned(b, d, walls) == Stepped(b, d)
    ensures Turned(b, d, walls).direction == d
  {
    RevertPassIdle(Stepped(b, d), b.direction, walls);
  }

  /**
   * `updateDirection` when the step runs into a wall: a block that overlapped
   * no wall and moved at its direction's velocity stays exactly as it was.
   */
  lemma TurnBlocked(b: Block, d: char, walls: seq<Block>)
    requires Steady(b) && !HitsAny(b, walls)
    requires HitsAny(Stepped(b, d), walls)
    ensures Turned(b, d, walls) == b
  {
    var m := Stepped(b, d);
    assert Shift(m, -m.velocityX, -m.velocityY).(direction := b.direction)
      == b.(velocityX := m.velocityX, velocityY := m.velocityY);
    RevertPassBack(m, b, walls);
  }

  /** `Block.reset`: back to the start position; direction and velocity are kept. */
  function Reset(b: Block): (r: Block)
    ensures r.x == b.startX && r.y == b.startY
    ensures r == b.(x := b.startX, y := b.startY)
  {
    b.(x := b.startX, y := b.startY)
  }

  /** What a tile of the map stands for. */
  datatype TileKind = WallTile | GhostTile | PacmanTile | FoodTile | EmptyTile

  function KindOf(ch: char): (k: TileKind)
    ensures k == WallTile <==> ch == 'X'
    ensures k == GhostTile <==> ch in "bopr"
    ensures k == PacmanTile <==> ch == 'P'
    ensures k == FoodTile <==> ch == ' '
  {
    if ch == 'X' then WallTile
    else if ch == 'b' || ch == 'o' || ch == 'p' || ch == 'r' then GhostTile
    else if ch == 'P' then PacmanTile
    else if ch == ' ' then FoodTile
    else EmptyTile
  }

  /** The block `loadMap` makes for a tile of kind k in row r, column c. */
  function TileBlock(k: TileKind, r: int, c: int): (b: Block)
    ensures k == FoodTile ==> b == NewBlock(c * TileSize + 10, r * TileSize + 10, 4, 4)
    ensures k != FoodTile ==> b == NewBlock(c * TileSize, r * TileSize, TileSize, TileSize)
  {
    if k == FoodTile then NewBlock(c * TileSize + 10, r * TileSize + 10, 4, 4)
    else NewBlock(c * TileSize, r * TileSize, TileSize, TileSize)
  }

  /** The blocks of kind k the scan makes from the first n tiles of row r. */
  function RowBlocks(row: string, r: int, n: nat, k: TileKind): (blocks: seq<Block>)
    requires n <= |row|
  {
    if n == 0 then []
    else RowBlocks(row, r, n - 1, k) + (if KindOf(row[n - 1]) == k then [TileBlock(k, r, n - 1)] else [])
  }

  /** The blocks of kind k the scan makes from the first n rows, in row-major order. */
  function MapBlocks(tm: seq<string>, n: nat, k: TileKind): (blocks: seq<Block>)
    requires n <= |tm|
  {
    if n == 0 then [] else MapBlocks(tm, n - 1, k) + RowBlocks(tm[n - 1], n - 1, |tm[n - 1]|, k)
  }

  /** Pac-Man after scanning the first n tiles of row r: the block of the last 'P', else p. */
  function RowPacman(row: string, r: int, n: nat, p: Block): (pacman: Block)
    requires n <= |row|
  {
    if n == 0 then p
    else if row[n - 1] == 'P' then TileBlock(PacmanTile, r, n - 1)
    else RowPacman(row, r, n - 1, p)
  }

  /** Pac-Man after scanning the first n rows. */
  function MapPacman(tm: seq<string>, n: nat, p: Block): (pacman: Block)
    requires n <= |tm|
  {
    if n == 0 then p else RowPacman(tm[n - 1], n - 1, |tm[n - 1]|, MapPacman(tm, n - 1, p))
  }

  /** A tile of kind k sits at row r, column c of the first n tiles of row. */
  lemma {:induction false} RowBlocksMembers(row: string, r: int, n: nat, k: TileKind, x: Block)
    requires n <= |row|
    ensures x in RowBlocks(row, r, n, k) <==> exists c :: 0 <= c < n && KindOf(row[c]) == k && x == TileBlock(k, r, c)
  {
    if n > 0 {
      RowBlocksMembers(row, r, n - 1, k, x);
      if KindOf(row[n - 1]) == k && x == TileBlock(k, r, n - 1) {
        assert x in RowBlocks(row, r, n, k);
      }
    }
  }

  /**
   * `loadMap`: the blocks of kind k are exactly the ones made for the tiles of
   * kind k, each at its row and column.
   */
  lemma {:induction false} MapBlocksMembers(tm: seq<string>, n: nat, k: TileKind, x: Block)
    requires n <= |tm|
    ensures x in MapBlocks(tm, n, k) <==>
      exists r, c :: 0 <= r < n && 0 <= c < |tm[r]| && KindOf(tm[r][c]) == k && x == TileBlock(k, r, c)
  {
    if n > 0 {
      MapBlocksMembers(tm, n - 1, k, x);
      RowBlocksMembers(tm[n - 1], n - 1, |tm[n - 1]|, k, x);
      if x in RowBlocks(tm[n - 1], n - 1, |tm[n - 1]|, k) {
        var c :| 0 <= c < |tm[n - 1]| && KindOf(tm[n - 1][c]) == k && x == TileBlock(k, n - 1, c);
        assert 0 <= n - 1 < n && KindOf(tm[n - 1][c]) == k && x == TileBlock(k, n - 1, c);
      }
      if exists r, c :: 0 <= r < n && 0 <= c < |tm[r]| && KindOf(tm[r][c]) == k && x == TileBlock(k, r, c) {
        var r, c :| 0 <= r < n && 0 <= c < |tm[r]| && KindOf(tm[r][c]) == k && x == TileBlock(k, r, c);
        if r == n - 1 {
          assert x in RowBlocks(tm[n - 1], n - 1, |tm[n - 1]|, k);
        } else {
          assert x in MapBlocks(tm, n - 1, k);
        }
      }
    }
  }

  /** Pac-Man is made at a 'P' tile of the row, or left as p when the row has none. */
  lemma {:induction false} RowPacmanAt(row: string, r: int, n: nat, p: Block)
    requires n <= |row|
    ensures (exists c :: 0 <= c < n && row[c] == 'P') ==>
      exists c :: 0 <= c < n && row[c] == 'P' && RowPacman(row, r, n, p) == TileBlock(PacmanTile, r, c)
    ensures (forall c :: 0 <= c < n ==> row[c] != 'P') ==> RowPacman(row, r, n, p) == p
  {
    if n > 0 {
      RowPacmanAt(row, r, n - 1, p);
    }
  }

  /** A fresh board puts Pac-Man on the 'P' of row 15, column 9. */
  lemma PacmanStart(p: Block)
    ensures MapPacman(TileMap, RowCount, p) == TileBlock(PacmanTile, 15, 9)
  {
    TileMapWellShaped();
    forall r, j | 15 < r < RowCount && 0 <= j < |TileMap[r]| ensures TileMap[r][j] != 'P' {
      assert TileMap[r] == TileRow(r);
    }
    assert TileMap[15] == TileRow(15);
    MapPacmanLast(TileMap, RowCount, 15, 9, p);
  }

  /**
   * Pac-Man ends up at the last 'P' of the first n rows in row-major order,
   * the one at row r, column c.
   */
  lemma {:induction false} MapPacmanLast(tm: seq<string>, n: nat, r: nat, c: nat, p: Block)
    requires r < n <= |tm| && c < |tm[r]| && tm[r][c] == 'P'
    requires forall j :: c < j < |tm[r]| ==> tm[r][j] != 'P'
    requires forall r', j :: r < r' < n && 0 <= j < |tm[r']| ==> tm[r'][j] != 'P'
    ensures MapPacman(tm, n, p) == TileBlock(PacmanTile, r, c)
  {
    if n - 1 == r {
      RowPacmanLast(tm[r], r, |tm[r]|, c, MapPacman(tm, r, p));
    } else {
      MapPacmanLast(tm, n - 1, r, c, p);
      RowPacmanAt(tm[n - 1], n - 1, |tm[n - 1]|, MapPacman(tm, n - 1, p));
    }
  }

  /** The row's last 'P' among its first n tiles decides where Pac-Man is. */
  lemma {:induction false} RowPacmanLast(row: string, r: int, n: nat, c: nat, p: Block)
    requires c < n <= |row| && row[c] == 'P'
    requires forall j :: c < j < n ==> row[j] != 'P'
    ensures RowPacman(row, r, n, p) == TileBlock(PacmanTile, r, c)
  {
    if n - 1 > c {
      RowPacmanLast(row, r, n - 1, c, p);
    }
  }

  /**
   * The `loadMap` scan: rows top to bottom, tiles left to right, one block
   * per wall, ghost and space tile, Pac-Man at the 'P'. It changes nothing.
   */
  method ScanMap(tm: seq<string>, p0: Block) returns (walls: seq<Block>, foods: seq<Block>, ghosts: seq<Block>, pacman: Block)
    requires WellShaped(tm)
    ensures walls == MapBlocks(tm, RowCount, WallTile)
    ensures foods == MapBlocks(tm, RowCount, FoodTile)
    ensures ghosts == MapBlocks(tm, RowCount, GhostTile)
    ensures pacman == MapPacman(tm, RowCount, p0)
  {
    walls, foods, ghosts, pacman := [], [], [], p0;
    for r := 0 to RowCount
      invariant walls == MapBlocks(tm, r, WallTile)
      invariant foods == MapBlocks(tm, r, FoodTile)
      invariant ghosts == MapBlocks(tm, r, GhostTile)
      invariant pacman == MapPacman(tm, r, p0)
    {
      var w, f, g, p := ScanRow(tm[r], r, pacman);
      walls, foods, ghosts, pacman := walls + w, foods + f, ghosts + g, p;
    }
  }

  /** The inner loop of the `loadMap` scan: one row, left to right. */
  method ScanRow(row: string, r: int, p0: Block) returns (walls: seq<Block>, foods: seq<Block>, ghosts: seq<Block>, pacman: Block)
    requires |row| == ColumnCount
    ensures walls == RowBlocks(row, r, |row|, WallTile)
    ensures foods == RowBlocks(row, r, |row|, FoodTile)
    ensures ghosts == RowBlocks(row, r, |row|, GhostTile)
    ensures pacman == RowPacman(row, r, |row|, p0)
  {
    walls, foods, ghosts, pacman := [], [], [], p0;
    for c := 0 to ColumnCount
      invariant walls == RowBlocks(row, r, c, WallTile)
      invariant foods == RowBlocks(row, r, c, FoodTile)
      invariant ghosts == RowBlocks(row, r, c, GhostTile)
      invariant pacman == RowPacman(row, r, c, p0)
    {
      var k := KindOf(row[c]);
      if k == WallTile {
        walls := walls + [TileBlock(k, r, c)];
      } else if k == GhostTile {
        ghosts := ghosts + [TileBlock(k, r, c)];
      } else if k == PacmanTile {
        pacman := TileBlock(k, r, c);
      } else if k == FoodTile {
        foods := foods + [TileBlock(k, r, c)];
      }
    }
  }

  /**
   * The loop of `updateDirection`: the block turns to d and steps, then every
   * wall it overlaps undoes a step and puts the previous direction back.
   */
  method UpdateDirection(b: Block, d: char, walls: seq<Block>) returns (r: Block)
    ensures r == Turned(b, d, walls)
  {
    var prev := b.direction;
    r := UpdateVelocity(b.(direction := d));
    r := Shift(r, r.velocityX, r.velocityY);
    for k := 0 to |walls|
      invariant RevertPass(r, prev, walls[k..]) == Turned(b, d, walls)
    {
      assert walls[k..][1..] == walls[k + 1..];
      if Collision(r, walls[k]) {
        r := Shift(r, -r.velocityX, -r.velocityY);
        r := r.(direction := prev);
        r := UpdateVelocity(r);
      }
    }
  }

  /** The block took `updateDirection` with one of the four directions, drawn at random. */
  ghost predicate TurnedSomeWay(after: Block, before: Block, walls: seq<Block>) {
    exists d :: d in Directions && after == Turned(before, d, walls)
  }

  /** Two random turns, one after the other. */
  ghost predicate TurnedTwice(after: Block, before: Block, walls: seq<Block>) {
    exists t :: TurnedSomeWay(t, before, walls) && TurnedSomeWay(after, t, walls)
  }

  /** Every ghost turns a random way, as the constructor and `resetGame` do. */
  method TurnAll(ghosts: seq<Block>, walls: seq<Block>) returns (r: seq<Block>)
    ensures |r| == |ghosts|
    ensures forall j :: 0 <= j < |r| ==> TurnedSomeWay(r[j], ghosts[j], walls)
  {
    r := ghosts;
    for k := 0 to |ghosts|
      invariant |r| == |ghosts|
      invariant forall j :: 0 <= j < k ==> TurnedSomeWay(r[j], ghosts[j], walls)
      invariant forall j :: k <= j < |r| ==> r[j] == ghosts[j]
    {
      assert 'U' in Directions;
      var d :| d in Directions;
      var t := UpdateDirection(r[k], d, walls);
      r := r[k := t];
    }
  }

  /** Every block back at its start: the `reset` of each ghost in `resetPositions`. */
  function ResetEach(gs: seq<Block>): (r: seq<Block>)
    ensures |r| == |gs| && forall j :: 0 <= j < |r| ==> r[j] == Reset(gs[j])
  {
    seq(|gs|, j requires 0 <= j < |gs| => Reset(gs[j]))
  }

  /** Pac-Man's step: one step at its velocity, taken back when it overlaps a wall. */
  function PacmanStep(p: Block, walls: seq<Block>): (stepped: Block) {
    var moved := Shift(p, p.velocityX, p.velocityY);
    if HitsAny(moved, walls) then p else moved
  }

  /** The horizontal bounds of the board that a ghost may not touch. */
  predicate OffBoard(g: Block) {
    g.x <= 0 || g.x + g.width >= BoardWidth
  }

  /** Four random directions, one per wall the ghost's pass visits. */
  predicate AllDirections(ds: string) {
    forall k :: 0 <= k < |ds| ==> ds[k] in Directions
  }

  /**
   * The wall loop of a ghost's move: at each wall, if the ghost overlaps it or
   * touches a side of the board, the step is taken back and the ghost turns
   * the way ds gives for that wall.
   */
  function GhostPass(g: Block, ws: seq<Block>, ds: string, walls: seq<Block>): (passed: Block)
    requires |ds| == |ws|
    decreases |ws|
  {
    if ws == [] then g
    else
      var g' := if Collision(g, ws[0]) || OffBoard(g) then Turned(Shift(g, -g.velocityX, -g.velocityY), ds[0], walls) else g;
      GhostPass(g', ws[1..], ds[1..], walls)
  }

  /** A ghost on row 9 that moves sideways turns upwards first. */
  function RowRule(g: Block, walls: seq<Block>): (ruled: Block) {
    if g.y == TileSize * GhostTurnRow && g.direction != 'U' && g.direction != 'D' then Turned(g, 'U', walls) else g
  }

  /** A ghost's move in `move`: the row rule, one step, and the wall loop. */
  ghost predicate Roamed(after: Block, before: Block, walls: seq<Block>) {
    var g := RowRule(before, walls);
    exists ds :: |ds| == |walls| && AllDirections(ds)
      && after == GhostPass(Shift(g, g.velocityX, g.velocityY), walls, ds, walls)
  }

  /** A ghost that overlaps no wall and stays clear of the sides keeps its place, whatever is drawn. */
  lemma {:induction false} GhostPassIdle(g: Block, ws: seq<Block>, ds: string, walls: seq<Block>)
    requires |ds| == |ws| && !HitsAny(g, ws) && !OffBoard(g)
    ensures GhostPass(g, ws, ds, walls) == g
    decreases |ws|
  {
    if ws != [] {
      HitsNoneTail(g, ws);
      GhostPassIdle(g, ws[1..], ds[1..], walls);
    }
  }

  /** A ghost whose step is free of walls and of the sides takes that step. */
  lemma RoamFree(after: Block, before: Block, walls: seq<Block>)
    requires Roamed(after, before, walls)
    requires var g := RowRule(before, walls); var m := Shift(g, g.velocityX, g.velocityY);
      !HitsAny(m, walls) && !OffBoard(m)
    ensures var g := RowRule(before, walls); after == Shift(g, g.velocityX, g.velocityY)
  {
    var g := RowRule(before, walls);
    var ds :| |ds| == |walls| && AllDirections(ds)
      && after == GhostPass(Shift(g, g.velocityX, g.velocityY), walls, ds, walls);
    GhostPassIdle(Shift(g, g.velocityX, g.velocityY), walls, ds, walls);
  }

  /** The ghost's pass, with the random directions drawn before it. */
  method MoveGhost(g: Block, walls: seq<Block>) returns (r: Block)
    ensures Roamed(r, g, walls)
  {
    r := g;
    if r.y == TileSize * GhostTurnRow && r.direction != 'U' && r.direction != 'D' {
      r := UpdateDirection(r, 'U', walls);
    }
    r := Shift(r, r.velocityX, r.velocityY);
    assert AllDirections(seq(|walls|, _ => 'U'));
    var ds :| |ds| == |walls| && AllDirections(ds);
    ghost var start := r;
    for k := 0 to |walls|
      invariant GhostPass(r, walls[k..], ds[k..], walls) == GhostPass(start, walls, ds, walls)
    {
      assert walls[k..][1..] == walls[k + 1..] && ds[k..][1..] == ds[k + 1..];
      if Collision(r, walls[k]) || r.x <= 0 || r.x + r.width >= BoardWidth {
        r := Shift(r, -r.velocityX, -r.velocityY);
        r := UpdateDirection(r, ds[k], walls);
      }
    }
  }

  /** How many pellets of foods Pac-Man overlaps. */
  function PelletHits(p: Block, foods: seq<Block>): (n: nat)
    ensures n <= |foods|
  {
    if foods == [] then 0
    else PelletHits(p, foods[..|foods| - 1]) + (if Collision(p, foods[|foods| - 1]) then 1 else 0)
  }

  /** The last pellet Pac-Man overlaps: the one `move` removes. */
  function LastPellet(p: Block, foods: seq<Block>): (k: Option<nat>)
    ensures k.Some? ==> k.value < |foods|
  {
    if foods == [] then None
    else if Collision(p, foods[|foods| - 1]) then Some(|foods| - 1)
    else LastPellet(p, foods[..|foods| - 1])
  }

  /**
   * Pac-Man scores exactly when it overlaps some pellet, and then the pellet
   * removed is one it overlaps, with none it overlaps after it.
   */
  lemma {:induction false} PelletFacts(p: Block, foods: seq<Block>)
    ensures PelletHits(p, foods) == 0 <==> forall j :: 0 <= j < |foods| ==> !Collision(p, foods[j])
    ensures LastPellet(p, foods).None? <==> PelletHits(p, foods) == 0
    ensures LastPellet(p, foods).Some? ==>
      var k := LastPellet(p, foods).value;
      Collision(p, foods[k]) && forall j :: k < j < |foods| ==> !Collision(p, foods[j])
  {
    if foods != [] {
      var front := foods[..|foods| - 1];
      PelletFacts(p, front);
      assert forall j :: 0 <= j < |front| ==> front[j] == foods[j];
    }
  }

  /**
   * One round of a notification: each listener of ls in list order called
   * through handler h with one event object, of kind t, for game `name`, with
   * score s.
   */
  ghost predicate Round(ds: seq<Delivery>, ls: seq<ListenerId>, h: Handler, t: EventType, name: string, s: int) {
    |ds| == |ls|
    && forall j :: 0 <= j < |ds| ==>
      ds[j].listener == ls[j] && ds[j].handler == h && ds[j].event == ds[0].event
      && ds[j].event.eventType == t && ds[j].event.gameName == name && ds[j].event.score == s
  }

  /**
   * The deliveries of n scoring pellets, starting from score s0: n
   * SCORE_UPDATED rounds to ls, the r-th of them (from 1) carrying s0 + 10r.
   */
  ghost predicate PelletRounds(ds: seq<Delivery>, ls: seq<ListenerId>, s0: int, n: nat)
    decreases n
  {
    if n == 0 then ds == []
    else
      |ls| <= |ds| && PelletRounds(ds[..|ds| - |ls|], ls, s0, n - 1)
      && Round(ds[|ds| - |ls|..], ls, OnScoreUpdated, ScoreUpdated, Name, s0 + PelletScore * n)
  }

  /** One more scoring pellet adds one SCORE_UPDATED round with the raised score. */
  lemma PelletRoundsNext(ds: seq<Delivery>, ls: seq<ListenerId>, s0: int, n: nat, e: GameEvent)
    requires PelletRounds(ds, ls, s0, n)
    requires e.eventType == ScoreUpdated && e.gameName == Name && e.score == s0 + PelletScore * (n + 1)
    ensures PelletRounds(ds + Fanout(ls, OnScoreUpdated, e), ls, s0, n + 1)
  {
    var all := ds + Fanout(ls, OnScoreUpdated, e);
    assert all[..|all| - |ls|] == ds;
    assert all[|all| - |ls|..] == Fanout(ls, OnScoreUpdated, e);
  }

  /** n rounds to ls are n times as many deliveries as listeners. */
  lemma {:induction false} PelletRoundsLength(ds: seq<Delivery>, ls: seq<ListenerId>, s0: int, n: nat)
    requires PelletRounds(ds, ls, s0, n)
    ensures |ds| == n * |ls|
    decreases n
  {
    if n > 0 {
      PelletRoundsLength(ds[..|ds| - |ls|], ls, s0, n - 1);
      assert n * |ls| == (n - 1) * |ls| + |ls|;
    }
  }

  /**
   * In round r (from 0) of the pellet deliveries, the j-th call goes to the
   * j-th listener, through `onScoreUpdated`, with a SCORE_UPDATED event
   * carrying s0 + 10(r + 1).
   */
  lemma {:induction false} PelletRoundsAt(ds: seq<Delivery>, ls: seq<ListenerId>, s0: int, n: nat, r: nat, j: nat)
    requires PelletRounds(ds, ls, s0, n) && r < n && j < |ls|
    ensures r * |ls| + j < |ds|
    ensures var d := ds[r * |ls| + j];
      d.listener == ls[j] && d.handler == OnScoreUpdated && d.event.eventType == ScoreUpdated
      && d.event.gameName == Name && d.event.score == s0 + PelletScore * (r + 1)
    decreases n
  {
    var front := ds[..|ds| - |ls|];
    PelletRoundsLength(front, ls, s0, n - 1);
    assert n * |ls| == (n - 1) * |ls| + |ls|;
    PelletRoundsLength(ds, ls, s0, n);
    if r == n - 1 {
      assert ds[r * |ls| + j] == ds[|ds| - |ls|..][j];
    } else {
      PelletRoundsAt(front, ls, s0, n - 1, r, j);
      assert (r + 1) * |ls| <= (n - 1) * |ls| by {
        assert (n - 1) * |ls| == (r + 1) * |ls| + (n - 2 - r) * |ls|;
      }
      assert r * |ls| + j < (r + 1) * |ls|;
      assert ds[r * |ls| + j] == front[r * |ls| + j];
    }
  }

  /**
   * What a tick that does not end the game adds to the log `before`: n pellet
   * rounds from score s0, then, when the board was cleared, one GAME_FINISHED
   * round through `onGameFinished` carrying the score reached.
   */
  ghost predicate TickLog(ds: seq<Delivery>, before: seq<Delivery>, ls: seq<ListenerId>, s0: int, n: nat, cleared: bool) {
    |before| <= |ds| && ds[..|before|] == before
    && if !cleared then PelletRounds(ds[|before|..], ls, s0, n)
       else
         |ls| <= |ds| - |before| && PelletRounds(ds[|before|..|ds| - |ls|], ls, s0, n)
         && Round(ds[|ds| - |ls|..], ls, OnGameFinished, GameFinished, Name, s0 + PelletScore * n)
  }

  /** Before any pellet, the log of a tick has gained nothing. */
  lemma TickLogStart(before: seq<Delivery>, ls: seq<ListenerId>, s0: int)
    ensures TickLog(before, before, ls, s0, 0, false)
  {
    assert before[..|before|] == before;
    assert before[|before|..] == [];
  }

  /** One more scoring pellet adds its SCORE_UPDATED round to the log of a tick. */
  lemma TickLogNext(ds: seq<Delivery>, before: seq<Delivery>, ls: seq<ListenerId>, s0: int, n: nat, e: GameEvent)
    requires TickLog(ds, before, ls, s0, n, false)
    requires e.eventType == ScoreUpdated && e.gameName == Name && e.score == s0 + PelletScore * (n + 1)
    ensures TickLog(ds + Fanout(ls, OnScoreUpdated, e), before, ls, s0, n + 1, false)
  {
    var all := ds + Fanout(ls, OnScoreUpdated, e);
    assert all[..|before|] == before;
    assert all[|before|..] == ds[|before|..] + Fanout(ls, OnScoreUpdated, e);
    PelletRoundsNext(ds[|before|..], ls, s0, n, e);
  }

  /** The log of a tick that leaves pellets holds n rounds to ls after `before`. */
  lemma TickLogLength(ds: seq<Delivery>, before: seq<Delivery>, ls: seq<ListenerId>, s0: int, n: nat)
    requires TickLog(ds, before, ls, s0, n, false)
    ensures |ds| == |before| + n * |ls|
  {
    PelletRoundsLength(ds[|before|..], ls, s0, n);
  }

  /** A GAME_FINISHED round after the pellet rounds makes the log of a cleared board. */
  lemma TickLogCleared(mid: seq<Delivery>, before: seq<Delivery>, ls: seq<ListenerId>, s0: int, n: nat, e: GameEvent)
    requires TickLog(mid, before, ls, s0, n, false)
    requires e.eventType == GameFinished && e.gameName == Name && e.score == s0 + PelletScore * n
    ensures TickLog(mid + Fanout(ls, OnGameFinished, e), before, ls, s0, n, true)
  {
    var ds := mid + Fanout(ls, OnGameFinished, e);
    assert ds[..|before|] == mid[..|before|];
    assert ds[|before|..|ds| - |ls|] == mid[|before|..];
    assert ds[|ds| - |ls|..] == Fanout(ls, OnGameFinished, e);
  }

  /**
   * With listeners present, a tick that clears the board sends something, and
   * its last delivery is the GAME_FINISHED event with the score reached.
   */
  lemma ClearedTickFinishes(ds: seq<Delivery>, before: seq<Delivery>, ls: seq<ListenerId>, s0: int, n: nat)
    requires TickLog(ds, before, ls, s0, n, true) && ls != []
    ensures |ds| > |before|
    ensures ds[|ds| - 1].listener == ls[|ls| - 1] && ds[|ds| - 1].handler == OnGameFinished
    ensures ds[|ds| - 1].event.eventType == GameFinished && ds[|ds| - 1].event.score == s0 + PelletScore * n
  {
    var last := ds[|ds| - |ls|..];
    assert ds[|ds| - 1] == last[|ls| - 1];
  }

  /** Counting one more pellet. */
  lemma PelletStep(p: Block, foods: seq<Block>, k: nat)
    requires k < |foods|
    ensures PelletHits(p, foods[..k + 1]) == PelletHits(p, foods[..k]) + if Collision(p, foods[k]) then 1 else 0
    ensures LastPellet(p, foods[..k + 1]) == if Collision(p, foods[k]) then Some(k) else LastPellet(p, foods[..k])
  {
    assert foods[..k + 1][..k] == foods[..k];
  }

  /** The pellets left after `foods.remove(foodEaten)`; removing null removes nothing. */
  function RemovePellet(foods: seq<Block>, k: Option<nat>): (r: seq<Block>)
    requires k.Some? ==> k.value < |foods|
    ensures k.None? ==> r == foods
    ensures k.Some? ==> |r| == |foods| - 1 && r == foods[..k.value] + foods[k.value + 1..]
  {
    if k.None? then foods else foods[..k.value] + foods[k.value + 1..]
  }

  /** One pellet pass removes a pellet exactly when it scores, and never more than one. */
  lemma PelletPass(p: Block, foods: seq<Block>)
    ensures var left := RemovePellet(foods, LastPellet(p, foods));
      (PelletHits(p, foods) == 0 ==> left == foods)
      && (PelletHits(p, foods) > 0 ==> |left| == |foods| - 1 && multiset(left) + multiset{foods[LastPellet(p, foods).value]} == multiset(foods))
  {
    PelletFacts(p, foods);
    var k := LastPellet(p, foods);
    if k.Some? {
      assert foods == foods[..k.value] + [foods[k.value]] + foods[k.value + 1..];
    }
  }

  /** A score raised by a number of pellets has grown by a multiple of the pellet score. */
  lemma StepsOfPellets(before: int, after: int, hits: nat)
    requires after == before + PelletScore * hits
    ensures before <= after && (after - before) % PelletScore == 0
  {
  }

  /** What the ghost loop of `move` changes: the ghosts, Pac-Man and the lives. */
  datatype Chase = Chase(ghosts: seq<Block>, pacman: Block, lives: int)

  /**
   * One turn of the ghost loop, for ghost i, that does not end the game: when
   * the ghost touches Pac-Man a life goes and the positions reset, every
   * ghost turning a random way; then ghost i moves.
   */
  ghost predicate GhostTurn(after: Chase, before: Chase, i: nat, walls: seq<Block>) {
    i < |before.ghosts| && |after.ghosts| == |before.ghosts|
    && if Collision(before.ghosts[i], before.pacman) then
      before.lives > 1 && after.lives == before.lives - 1
      && after.pacman == Reset(before.pacman).(velocityX := 0, velocityY := 0)
      && (exists mid: seq<Block> ::
            |mid| == |before.ghosts|
            && (forall j :: 0 <= j < |mid| ==> TurnedSomeWay(mid[j], Reset(before.ghosts[j]), walls))
            && after.ghosts == mid[i := after.ghosts[i]] && Roamed(after.ghosts[i], mid[i], walls))
    else
      after.lives == before.lives && after.pacman == before.pacman
      && after.ghosts == before.ghosts[i := after.ghosts[i]] && Roamed(after.ghosts[i], before.ghosts[i], walls)
  }

  /** The first n turns of the ghost loop, none of which ended the game. */
  ghost predicate GhostsRun(after: Chase, before: Chase, n: nat, walls: seq<Block>)
    decreases n, 0
  {
    if n == 0 then after == before else RunThen(after, before, n - 1, walls)
  }

  /** The first k turns, then turn k. */
  ghost predicate RunThen(after: Chase, before: Chase, k: nat, walls: seq<Block>)
    decreases k, 1
  {
    exists mid :: GhostsRun(mid, before, k, walls) && GhostTurn(after, mid, k, walls)
  }

  /** A turn that does not end the game keeps the ghosts and costs at most one life, never the last. */
  lemma TurnLives(after: Chase, before: Chase, i: nat, walls: seq<Block>)
    requires GhostTurn(after, before, i, walls)
    ensures |after.ghosts| == |before.ghosts|
    ensures after.lives == before.lives || (before.lives > 1 && after.lives == before.lives - 1)
  {
  }

  /** The state before the last turn of a run that took at least one turn. */
  lemma RunLast(after: Chase, before: Chase, n: nat, walls: seq<Block>) returns (mid: Chase)
    requires n > 0 && GhostsRun(after, before, n, walls)
    ensures GhostsRun(mid, before, n - 1, walls) && GhostTurn(after, mid, n - 1, walls)
  {
    assert RunThen(after, before, n - 1, walls);
    mid :| GhostsRun(mid, before, n - 1, walls) && GhostTurn(after, mid, n - 1, walls);
  }

  /**
   * The whole ghost loop: either every ghost had its turn, or at ghost k, with
   * one life left, the ghost touched Pac-Man and the loop stopped there with
   * no lives and the positions as they were.
   */
  ghost predicate GhostLoop(after: Chase, before: Chase, caught: bool, walls: seq<Block>) {
    if caught then
      exists k: nat, mid :: k < |before.ghosts| && GhostsRun(mid, before, k, walls) && k < |mid.ghosts|
        && Collision(mid.ghosts[k], mid.pacman) && mid.lives == 1 && after == mid.(lives := 0)
    else GhostsRun(after, before, |before.ghosts|, walls)
  }

  /**
   * Turns that do not end the game keep the ghosts, cost at most one life
   * each and never the last one.
   */
  lemma {:induction false} GhostsRunLives(after: Chase, before: Chase, n: nat, walls: seq<Block>)
    requires GhostsRun(after, before, n, walls)
    ensures |after.ghosts| == |before.ghosts|
    ensures before.lives - n <= after.lives <= before.lives
    ensures before.lives >= 1 ==> after.lives >= 1
    decreases n
  {
    if n > 0 {
      var mid := RunLast(after, before, n, walls);
      TurnLives(after, mid, n - 1, walls);
      GhostsRunLives(mid, before, n - 1, walls);
    }
  }

  /**
   * The ghost loop of a game with lives ends with none exactly when a ghost
   * caught Pac-Man on the last life, and otherwise costs at most one life per
   * ghost.
   */
  lemma GhostLoopLives(after: Chase, before: Chase, caught: bool, walls: seq<Block>)
    requires GhostLoop(after, before, caught, walls) && before.lives >= 1
    ensures caught <==> after.lives == 0
    ensures before.lives - |before.ghosts| <= after.lives <= before.lives
    ensures |after.ghosts| == |before.ghosts|
  {
    if caught {
      var k: nat, mid :| k < |before.ghosts| && GhostsRun(mid, before, k, walls) && k < |mid.ghosts|
        && Collision(mid.ghosts[k], mid.pacman) && mid.lives == 1 && after == mid.(lives := 0);
      GhostsRunLives(mid, before, k, walls);
    } else {
      GhostsRunLives(after, before, |before.ghosts|, walls);
    }
  }

  /** The arrow keys; any other key is OtherKey. */
  datatype Key = UpKey | DownKey | LeftKey | RightKey | OtherKey

  /** The direction an arrow key asks for. */
  function KeyDirection(key: Key): (d: char)
    requires !key.OtherKey?
    ensures d in Directions
  {
    match key
    case UpKey => 'U'
    case DownKey => 'D'
    case LeftKey => 'L'
    case RightKey => 'R'
  }

  class PacManGame {
    const core: GameCore
    /** The board layout, one string per row. */
    const tileMap: seq<string>
    var walls: seq<Block>
    var foods: seq<Block>
    var ghosts: seq<Block>
    var pacman: Block
    var score: int
    var lives: int
    var gameOver: bool
    /** Whether the game loop's timer is started. */
    var timerRunning: bool

    /**
     * The score is the one the game has reported; a lost game has no lives and
     * is stopped; a running one has lives left; the timer runs exactly while
     * the game does.
     */
    ghost predicate Valid()
      reads this, core
    {
      core.Valid() && core.gameName == Name && core.currentScore == score
      && tileMap == TileMap && WellShaped(tileMap)
      && 0 <= lives <= InitialLives
      && (gameOver ==> lives == 0 && !core.isRunning)
      && (core.isRunning ==> !gameOver && lives > 0)
      && timerRunning == core.isRunning
    }

    /** The single instance: the board loaded, each ghost turned a random way, three lives, not running. */
    constructor ()
      ensures Valid() && fresh(core) && tileMap == TileMap
      ensures walls == MapBlocks(tileMap, RowCount, WallTile) && foods == MapBlocks(tileMap, RowCount, FoodTile)
      ensures pacman == TileBlock(PacmanTile, 15, 9)
      ensures var g := MapBlocks(tileMap, RowCount, GhostTile);
        |ghosts| == |g| && forall j :: 0 <= j < |ghosts| ==> TurnedSomeWay(ghosts[j], g[j], walls)
      ensures score == 0 && lives == InitialLives && !gameOver && !timerRunning
      ensures !core.isRunning && core.listeners == [] && core.delivered == []
    {
      core := new GameCore(Name);
      tileMap := TileMap;
      walls, foods, ghosts, pacman := [], [], [], NewBlock(0, 0, 0, 0);
      score, lives, gameOver, timerRunning := 0, InitialLives, false, false;
      new;
      TileMapWellShaped();
      LoadMap();
      PacmanStart(NewBlock(0, 0, 0, 0));
      ghosts := TurnAll(ghosts, walls);
    }

    /** `loadMap`: the board as the scan makes it; where the map has no 'P', Pac-Man stays. */
    method LoadMap()
      requires WellShaped(tileMap)
      modifies this
      ensures walls == MapBlocks(tileMap, RowCount, WallTile) && foods == MapBlocks(tileMap, RowCount, FoodTile)
      ensures ghosts == MapBlocks(tileMap, RowCount, GhostTile) && pacman == MapPacman(tileMap, RowCount, old(pacman))
      ensures score == old(score) && lives == old(lives) && gameOver == old(gameOver) && timerRunning == old(timerRunning)
    {
      walls, foods, ghosts, pacman := ScanMap(tileMap, pacman);
    }

    /**
     * `resetPositions`: Pac-Man back at its start and at rest; each ghost back
     * at its start and turned a random way.
     */
    method ResetPositions()
      modifies this
      ensures pacman == Reset(old(pacman)).(velocityX := 0, velocityY := 0)
      ensures |ghosts| == |old(ghosts)|
      ensures forall j :: 0 <= j < |ghosts| ==> TurnedSomeWay(ghosts[j], Reset(old(ghosts)[j]), walls)
      ensures walls == old(walls) && foods == old(foods)
      ensures score == old(score) && lives == old(lives) && gameOver == old(gameOver) && timerRunning == old(timerRunning)
    {
      pacman := Reset(pacman);
      pacman := pacman.(velocityX := 0, velocityY := 0);
      ghosts := TurnAll(ResetEach(ghosts), walls);
    }

    /**
     * `resetGame`: score 0, three lives, not over, reported score 0; the board
     * reloaded, positions reset and every ghost turned a random way once more.
     */
    method ResetGame()
      requires Valid()
      modifies this, core
      ensures Valid()
      ensures score == 0 && lives == InitialLives && !gameOver && core.currentScore == 0
      ensures walls == MapBlocks(tileMap, RowCount, WallTile) && foods == MapBlocks(tileMap, RowCount, FoodTile)
      ensures pacman == Reset(MapPacman(tileMap, RowCount, old(pacman))).(velocityX := 0, velocityY := 0)
      ensures var g := MapBlocks(tileMap, RowCount, GhostTile);
        |ghosts| == |g| && forall j :: 0 <= j < |ghosts| ==> TurnedTwice(ghosts[j], Reset(g[j]), walls)
      ensures core.isRunning == old(core.isRunning) && timerRunning == old(timerRunning)
      ensures core.listeners == old(core.listeners) && core.delivered == old(core.delivered)
    {
      score := 0;
      lives := InitialLives;
      gameOver := false;
      core.currentScore := 0;
      LoadMap();
      ghost var g := ghosts;
      ResetPositions();
      ghost var g1 := ghosts;
      ghosts := TurnAll(ghosts, walls);
      forall j | 0 <= j < |ghosts| ensures TurnedTwice(ghosts[j], Reset(g[j]), walls) {
        assert TurnedSomeWay(g1[j], Reset(g[j]), walls) && TurnedSomeWay(ghosts[j], g1[j], walls);
      }
    }
  
    /** `startGame`: only when not running: reset, run, start the timer and announce GAME_STARTED. */
    method StartGame()
      requires Valid()
      modifies this, core
      ensures Valid() && core.listeners == old(core.listeners)
      ensures old(core.isRunning) ==> unchanged(this, core)
      ensures !old(core.isRunning) ==>
        core.isRunning && timerRunning && score == 0 && lives == InitialLives && !gameOver
        && walls == MapBlocks(tileMap, RowCount, WallTile) && foods == MapBlocks(tileMap, RowCount, FoodTile)
        && pacman == Reset(MapPacman(tileMap, RowCount, old(pacman))).(velocityX := 0, velocityY := 0)
        && (var g := MapBlocks(tileMap, RowCount, GhostTile);
            |ghosts| == |g| && forall j :: 0 <= j < |ghosts| ==> TurnedTwice(ghosts[j], Reset(g[j]), walls))
        && fresh(core.lastEvent) && core.Announced(old(core.delivered), OnGameStateChanged, GameStarted, 0)
    {
      if !core.isRunning {
        ResetGame();
        core.isRunning := true;
        timerRunning := true;
        core.NotifyGameStateChanged(GameStarted);
      }
    }

    /** `pauseGame`: when running, the timer and the game stop and GAME_PAUSED goes out. */
    method PauseGame()
      requires Valid()
      modifies this, core
      ensures Valid() && core.listeners == old(core.listeners) && !core.isRunning
      ensures walls == old(walls) && foods == old(foods) && ghosts == old(ghosts) && pacman == old(pacman)
      ensures score == old(score) && lives == old(lives) && gameOver == old(gameOver)
      ensures !old(core.isRunning) ==> unchanged(this, core)
      ensures old(core.isRunning) ==>
        !timerRunning && fresh(core.lastEvent) && core.Announced(old(core.delivered), OnGameStateChanged, GamePaused, score)
    {
      if core.isRunning {
        timerRunning := false;
        core.isRunning := false;
        core.NotifyGameStateChanged(GamePaused);
      }
    }

    /** `restartGame`: a reset, then a start when not running, else the timer kept going; the game ends up running. */
    method RestartGame()
      requires Valid()
      modifies this, core
      ensures Valid() && core.isRunning && timerRunning && core.listeners == old(core.listeners)
      ensures score == 0 && lives == InitialLives && !gameOver
      ensures walls == MapBlocks(tileMap, RowCount, WallTile) && foods == MapBlocks(tileMap, RowCount, FoodTile)
      ensures pacman == Reset(MapPacman(tileMap, RowCount, old(pacman))).(velocityX := 0, velocityY := 0)
      ensures var g := MapBlocks(tileMap, RowCount, GhostTile);
        |ghosts| == |g| && forall j :: 0 <= j < |ghosts| ==> TurnedTwice(ghosts[j], Reset(g[j]), walls)
      ensures old(core.isRunning) ==> core.delivered == old(core.delivered)
      ensures !old(core.isRunning) ==>
        fresh(core.lastEvent) && core.Announced(old(core.delivered), OnGameStateChanged, GameStarted, 0)
    {
      PacmanStart(pacman);
      ResetGame();
      if !core.isRunning {
        PacmanStart(pacman);
        StartGame();
      } else {
        timerRunning := true;
      }
    }

    /** `stopGame`: the timer and the game stop and GAME_FINISHED goes out as a state change. */
    method StopGame()
      requires Valid()
      modifies this, core
      ensures Valid() && core.listeners == old(core.listeners) && !core.isRunning && !timerRunning
      ensures walls == old(walls) && foods == old(foods) && ghosts == old(ghosts) && pacman == old(pacman)
      ensures score == old(score) && lives == old(lives) && gameOver == old(gameOver)
      ensures fresh(core.lastEvent) && core.Announced(old(core.delivered), OnGameStateChanged, EventType.GameFinished, score)
    {
      timerRunning := false;
      core.isRunning := false;
      core.NotifyGameStateChanged(EventType.GameFinished);
    }

    /** The first part of `move`: Pac-Man steps, and steps back at the first wall it overlaps. */
    method MovePacman()
      modifies this
      ensures pacman == PacmanStep(old(pacman), walls)
      ensures walls == old(walls) && foods == old(foods) && ghosts == old(ghosts)
      ensures score == old(score) && lives == old(lives) && gameOver == old(gameOver) && timerRunning == old(timerRunning)
    {
      var moved := Shift(pacman, pacman.velocityX, pacman.velocityY);
      var p := moved;
      var k := 0;
      while k < |walls|
        invariant 0 <= k <= |walls|
        invariant p == moved && forall j :: 0 <= j < k ==> !Collision(moved, walls[j])
      {
        if Collision(p, walls[k]) {
          p := Shift(p, -p.velocityX, -p.velocityY);
          break;
        }
        k := k + 1;
      }
      pacman := p;
    }

    /**
     * A ghost's check in `move`: overlapping Pac-Man costs a life; the last
     * life ends the game (over, stopped, GAME_FINISHED with the score); any
     * other resets the positions.
     */
    method CatchCheck(i: nat) returns (caught: bool)
      requires Valid() && core.isRunning && i < |ghosts|
      modifies this, core
      ensures Valid() && core.listeners == old(core.listeners)
      ensures walls == old(walls) && foods == old(foods) && score == old(score) && |ghosts| == |old(ghosts)|
      ensures caught <==> Collision(old(ghosts)[i], old(pacman)) && old(lives) == 1
      ensures !Collision(old(ghosts)[i], old(pacman)) ==> unchanged(this, core)
      ensures caught ==>
        lives == 0 && gameOver && !core.isRunning && !timerRunning && ghosts == old(ghosts) && pacman == old(pacman)
        && fresh(core.lastEvent) && core.Announced(old(core.delivered), OnGameFinished, EventType.GameFinished, score)
      ensures Collision(old(ghosts)[i], old(pacman)) && old(lives) > 1 ==>
        lives == old(lives) - 1 && core.isRunning && !gameOver && core.delivered == old(core.delivered)
        && pacman == Reset(old(pacman)).(velocityX := 0, velocityY := 0)
        && forall j :: 0 <= j < |ghosts| ==> TurnedSomeWay(ghosts[j], Reset(old(ghosts)[j]), walls)
    {
      caught := false;
      if Collision(ghosts[i], pacman) {
        lives := lives - 1;
        if lives == 0 {
          gameOver := true;
          timerRunning := false;
          core.isRunning := false;
          core.currentScore := score;
          core.NotifyGameFinished(score);
          caught := true;
          return;
        }
        ResetPositions();
      }
    }

    /** A ghost's move in `move`, after its check. */
    method Roam(i: nat)
      requires i < |ghosts|
      modifies this
      ensures |ghosts| == |old(ghosts)| && ghosts == old(ghosts)[i := ghosts[i]]
      ensures Roamed(ghosts[i], old(ghosts)[i], walls)
      ensures walls == old(walls) && foods == old(foods) && pacman == old(pacman)
      ensures score == old(score) && lives == old(lives) && gameOver == old(gameOver) && timerRunning == old(timerRunning)
    {
      var g := MoveGhost(ghosts[i], walls);
      ghosts := ghosts[i := g];
    }

    /**
     * The ghost loop of `move`: each ghost is checked and moved in turn, and
     * the loop stops when the last life is lost. At most one life per ghost
     * goes.
     */
    method MoveGhosts() returns (caught: bool)
      requires Valid() && core.isRunning
      modifies this, core
      ensures Valid() && core.listeners == old(core.listeners)
      ensures walls == old(walls) && foods == old(foods) && score == old(score) && |ghosts| == |old(ghosts)|
      ensures old(lives) - |ghosts| <= lives <= old(lives)
      ensures GhostLoop(Chase(ghosts, pacman, lives), Chase(old(ghosts), old(pacman), old(lives)), caught, walls)
      ensures caught ==>
        lives == 0 && gameOver && !core.isRunning
        && fresh(core.lastEvent) && core.Announced(old(core.delivered), OnGameFinished, EventType.GameFinished, score)
      ensures !caught ==> core.isRunning && lives > 0 && core.delivered == old(core.delivered)
    {
      for i := 0 to |ghosts|
        invariant Valid() && core.isRunning && core.listeners == old(core.listeners)
        invariant walls == old(walls) && foods == old(foods) && score == old(score) && |ghosts| == |old(ghosts)|
        invariant old(lives) - i <= lives <= old(lives)
        invariant core.delivered == old(core.delivered)
        invariant GhostsRun(Chase(ghosts, pacman, lives), Chase(old(ghosts), old(pacman), old(lives)), i, walls)
      {
        ghost var before := Chase(ghosts, pacman, lives);
        caught := CatchCheck(i);
        if caught {
          assert Chase(ghosts, pacman, lives) == before.(lives := 0);
          return;
        }
        ghost var mid := ghosts;
        Roam(i);
        assert GhostTurn(Chase(ghosts, pacman, lives), before, i, walls);
      }
      caught := false;
    }

    /**
     * The pellet loop of `move`: ten points and one SCORE_UPDATED per pellet
     * Pac-Man overlaps, in order; eaten is the last of them.
     */
    method ScorePellets() returns (s: int, eaten: Option<nat>)
      requires core.Valid() && core.gameName == Name && core.currentScore == score
      modifies core
      ensures core.Valid() && core.currentScore == s
      ensures core.listeners == old(core.listeners) && core.isRunning == old(core.isRunning)
      ensures s == score + PelletScore * PelletHits(pacman, foods)
      ensures eaten == LastPellet(pacman, foods)
      ensures |core.delivered| == |old(core.delivered)| + PelletHits(pacman, foods) * |core.listeners|
      ensures TickLog(core.delivered, old(core.delivered), core.listeners, score, PelletHits(pacman, foods), false)
    {
      eaten := None;
      s := score;
      ghost var rounds: nat := 0;
      TickLogStart(core.delivered, core.listeners, score);
      for k := 0 to |foods|
        invariant core.Valid() && core.currentScore == s
        invariant core.listeners == old(core.listeners) && core.isRunning == old(core.isRunning)
        invariant rounds == PelletHits(pacman, foods[..k])
        invariant s == score + PelletScore * rounds
        invariant eaten == LastPellet(pacman, foods[..k])
        invariant TickLog(core.delivered, old(core.delivered), core.listeners, score, rounds, false)
      {
        PelletStep(pacman, foods, k);
        if Collision(pacman, foods[k]) {
          eaten := Some(k);
          s := ScorePellet(s, old(core.delivered), rounds);
          rounds := rounds + 1;
        }
      }
      assert foods[..|foods|] == foods;
      TickLogLength(core.delivered, old(core.delivered), core.listeners, score, rounds);
    }

    /**
     * One touched pellet in the loop of `move`: ten more points, reported to
     * every listener in one more SCORE_UPDATED round.
     */
    method ScorePellet(s: int, ghost before: seq<Delivery>, ghost rounds: nat) returns (raised: int)
      requires core.Valid() && core.gameName == Name && core.currentScore == s
      requires s == score + PelletScore * rounds
      requires TickLog(core.delivered, before, core.listeners, score, rounds, false)
      modifies core
      ensures raised == s + PelletScore
      ensures core.Valid() && core.currentScore == raised
      ensures core.listeners == old(core.listeners) && core.isRunning == old(core.isRunning)
      ensures TickLog(core.delivered, before, core.listeners, score, rounds + 1, false)
    {
      raised := s + PelletScore;
      ghost var mid := core.delivered;
      core.NotifyScoreUpdated(raised);
      TickLogNext(mid, before, core.listeners, score, rounds, core.lastEvent);
    }

    /** The pellet part of `move`: the score rises by ten per pellet touched, and the last one touched goes. */
    method EatPellets()
      requires Valid()
      modifies this, core
      ensures Valid() && core.listeners == old(core.listeners) && core.isRunning == old(core.isRunning)
      ensures walls == old(walls) && ghosts == old(ghosts) && pacman == old(pacman)
      ensures lives == old(lives) && gameOver == old(gameOver) && timerRunning == old(timerRunning)
      ensures score == old(score) + PelletScore * PelletHits(pacman, old(foods))
      ensures foods == RemovePellet(old(foods), LastPellet(pacman, old(foods)))
      ensures |core.delivered| == |old(core.delivered)| + PelletHits(pacman, old(foods)) * |core.listeners|
      ensures TickLog(core.delivered, old(core.delivered), core.listeners, old(score), PelletHits(pacman, old(foods)), false)
    {
      var s, eaten := ScorePellets();
      score := s;
      foods := RemovePellet(foods, eaten);
    }

    /**
     * The end of `move` when no pellet is left: the board is reloaded, the
     * positions reset, and GAME_FINISHED goes out with the score, which is
     * kept; the game goes on running.
     */
    method LevelCleared()
      requires Valid()
      modifies this, core
      ensures Valid() && core.listeners == old(core.listeners) && core.isRunning == old(core.isRunning)
      ensures score == old(score) && lives == old(lives) && gameOver == old(gameOver) && timerRunning == old(timerRunning)
      ensures walls == MapBlocks(tileMap, RowCount, WallTile) && foods == MapBlocks(tileMap, RowCount, FoodTile)
      ensures pacman == Reset(MapPacman(tileMap, RowCount, old(pacman))).(velocityX := 0, velocityY := 0)
      ensures var g := MapBlocks(tileMap, RowCount, GhostTile);
        |ghosts| == |g| && forall j :: 0 <= j < |ghosts| ==> TurnedSomeWay(ghosts[j], Reset(g[j]), walls)
      ensures fresh(core.lastEvent) && core.Announced(old(core.delivered), OnGameFinished, EventType.GameFinished, score)
    {
      LoadMap();
      ResetPositions();
      core.NotifyGameFinished(score);
      core.currentScore := score;
    }

    /** The rest of `move` once the ghosts have moved: the pellets, then a new board when none is left. */
    method EndTick()
      requires Valid() && core.isRunning
      modifies this, core
      ensures Valid() && core.listeners == old(core.listeners) && core.isRunning
      ensures lives == old(lives) && !gameOver
      ensures score == old(score) + PelletScore * PelletHits(old(pacman), old(foods))
      ensures var left := RemovePellet(old(foods), LastPellet(old(pacman), old(foods)));
        (left != [] ==> foods == left && ghosts == old(ghosts) && pacman == old(pacman) && walls == old(walls))
        && (left == [] ==>
          walls == MapBlocks(tileMap, RowCount, WallTile) && foods == MapBlocks(tileMap, RowCount, FoodTile)
          && pacman == Reset(MapPacman(tileMap, RowCount, old(pacman))).(velocityX := 0, velocityY := 0)
          && (var g := MapBlocks(tileMap, RowCount, GhostTile);
              |ghosts| == |g| && forall j :: 0 <= j < |ghosts| ==> TurnedSomeWay(ghosts[j], Reset(g[j]), walls)))
      ensures TickLog(core.delivered, old(core.delivered), core.listeners, old(score), PelletHits(old(pacman), old(foods)),
        RemovePellet(old(foods), LastPellet(old(pacman), old(foods))) == [])
    {
      ghost var n := PelletHits(pacman, foods);
      EatPellets();
      if foods == [] {
        ghost var mid := core.delivered;
        LevelCleared();
        TickLogCleared(mid, old(core.delivered), core.listeners, old(score), n, core.lastEvent);
      }
    }

    /**
     * `move`, one tick of the game loop: nothing unless running; then
     * Pac-Man, the ghosts, the pellets and, when the board is empty, a new
     * board. Lives only go down, the score only up, in steps of ten.
     */
    method Move() returns (ghost chase: Chase, ghost caught: bool)
      requires Valid()
      modifies this, core
      ensures Valid() && core.listeners == old(core.listeners)
      ensures !old(core.isRunning) ==> unchanged(this, core)
      ensures lives <= old(lives) && old(score) <= score && (score - old(score)) % PelletScore == 0
      ensures old(core.isRunning) && !core.isRunning ==> gameOver && lives == 0 && score == old(score)
      ensures old(core.isRunning) ==>
        GhostLoop(chase, Chase(old(ghosts), PacmanStep(old(pacman), old(walls)), old(lives)), caught, old(walls))
      ensures old(core.isRunning) && caught ==>
        ghosts == chase.ghosts && pacman == chase.pacman && lives == 0 && gameOver && !core.isRunning
        && score == old(score) && foods == old(foods)
        && fresh(core.lastEvent) && core.Announced(old(core.delivered), OnGameFinished, EventType.GameFinished, score)
      ensures old(core.isRunning) && !caught ==>
        lives == chase.lives && core.isRunning && !gameOver
        && score == old(score) + PelletScore * PelletHits(chase.pacman, old(foods))
        && var left := RemovePellet(old(foods), LastPellet(chase.pacman, old(foods)));
        TickLog(core.delivered, old(core.delivered), core.listeners, old(score), PelletHits(chase.pacman, old(foods)), left == [])
        && (left != [] ==> foods == left && ghosts == chase.ghosts && pacman == chase.pacman && walls == old(walls))
        && (left == [] ==>
          walls == MapBlocks(tileMap, RowCount, WallTile) && foods == MapBlocks(tileMap, RowCount, FoodTile)
          && pacman == Reset(MapPacman(tileMap, RowCount, chase.pacman)).(velocityX := 0, velocityY := 0)
          && (var g := MapBlocks(tileMap, RowCount, GhostTile);
              |ghosts| == |g| && forall j :: 0 <= j < |ghosts| ==> TurnedSomeWay(ghosts[j], Reset(g[j]), walls)))
    {
      chase, caught := Chase(ghosts, pacman, lives), false;
      if !core.isRunning || gameOver {
        return;
      }
      chase, caught := Tick();
    }

    /** The tick of `move` while the game runs: Pac-Man, the ghosts, then the pellets unless the game ended. */
    method Tick() returns (ghost chase: Chase, ghost caught: bool)
      requires Valid() && core.isRunning && !gameOver
      modifies this, core
      ensures Valid() && core.listeners == old(core.listeners)
      ensures lives <= old(lives) && old(score) <= score && (score - old(score)) % PelletScore == 0
      ensures !core.isRunning ==> gameOver && lives == 0 && score == old(score)
      ensures GhostLoop(chase, Chase(old(ghosts), PacmanStep(old(pacman), old(walls)), old(lives)), caught, old(walls))
      ensures caught ==>
        ghosts == chase.ghosts && pacman == chase.pacman && lives == 0 && gameOver && !core.isRunning
        && score == old(score) && foods == old(foods)
        && fresh(core.lastEvent) && core.Announced(old(core.delivered), OnGameFinished, EventType.GameFinished, score)
      ensures !caught ==>
        lives == chase.lives && core.isRunning && !gameOver
        && score == old(score) + PelletScore * PelletHits(chase.pacman, old(foods))
        && var left := RemovePellet(old(foods), LastPellet(chase.pacman, old(foods)));
        TickLog(core.delivered, old(core.delivered), core.listeners, old(score), PelletHits(chase.pacman, old(foods)), left == [])
        && (left != [] ==> foods == left && ghosts == chase.ghosts && pacman == chase.pacman && walls == old(walls))
        && (left == [] ==>
          walls == MapBlocks(tileMap, RowCount, WallTile) && foods == MapBlocks(tileMap, RowCount, FoodTile)
          && pacman == Reset(MapPacman(tileMap, RowCount, chase.pacman)).(velocityX := 0, velocityY := 0)
          && (var g := MapBlocks(tileMap, RowCount, GhostTile);
              |ghosts| == |g| && forall j :: 0 <= j < |ghosts| ==> TurnedSomeWay(ghosts[j], Reset(g[j]), walls)))
    {
      MovePacman();
      var lost := MoveGhosts();
      chase, caught := Chase(ghosts, pacman, lives), lost;
      if lost {
        return;
      }
      ghost var hits := PelletHits(pacman, foods);
      EndTick();
      StepsOfPellets(old(score), score, hits);
    }

    /** `keyReleased`: while running, an arrow key turns Pac-Man by `updateDirection`; other keys do nothing. */
    method KeyReleased(key: Key)
      requires Valid()
      modifies this
      ensures Valid()
      ensures !old(core.isRunning) || key.OtherKey? ==> unchanged(this)
      ensures old(core.isRunning) && !key.OtherKey? ==> pacman == Turned(old(pacman), KeyDirection(key), walls)
      ensures walls == old(walls) && foods == old(foods) && ghosts == old(ghosts)
      ensures score == old(score) && lives == old(lives) && gameOver == old(gameOver) && timerRunning == old(timerRunning)
    {
      if !core.isRunning || gameOver {
        return;
      }
      if !key.OtherKey? {
        pacman := UpdateDirection(pacman, KeyDirection(key), walls);
      }
    }
  }
}
