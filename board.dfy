/** The board engine of src/board.ts: building the board, placing bombs, the
    adjacent-bomb numbers, the flood-fill reveal, the sanitized copy and the
    counting helpers. */
module Board {
  import opened Wrappers
  import opened Types

  // ---------------------------------------------------------------------------
  // Grid geometry
  // ---------------------------------------------------------------------------

  /** The number of columns, read from the first row as `board[0].length` does. */
  function Columns(g: Grid): nat {
    if |g| == 0 then 0 else |g[0]|
  }

  /** Every row is as long as the first one. */
  predicate IsGrid(g: Grid) {
    forall i :: 0 <= i < |g| ==> |g[i]| == Columns(g)
  }

  /** The bounds test of the source: `row >= 0 && row < board.length && column >= 0
      && column < board[0].length`. */
  predicate InBounds(g: Grid, r: int, c: int) {
    0 <= r < |g| && 0 <= c < Columns(g)
  }

  predicate SameShape(g: Grid, h: Grid) {
    |g| == |h| && Columns(g) == Columns(h)
  }

  /** `|i - r| <= 1 && |j - c| <= 1`: the 3x3 block centred on (r, c). */
  predicate InZone(r: int, c: int, i: int, j: int) {
    -1 <= i - r <= 1 && -1 <= j - c <= 1
  }

  /** (i, j) is one of the 8 neighbours of (r, c). */
  predicate Adjacent(r: int, c: int, i: int, j: int) {
    InZone(r, c, i, j) && (i != r || j != c)
  }

  /** JavaScript truthiness of `tile.isSafe`: an erased (`undefined`) flag is falsy,
      so every test `!tile.isSafe` of the source treats such a tile as a bomb. */
  predicate Safe(t: Tile) {
    t.isSafe == Some(true)
  }

  // ---------------------------------------------------------------------------
  // Sets of cells, used to state counts
  // ---------------------------------------------------------------------------

  ghost function MineCells(g: Grid): set<(int, int)>
    requires IsGrid(g)
  {
    set i, j | 0 <= i < |g| && 0 <= j < Columns(g) && !Safe(g[i][j]) :: (i, j)
  }

  ghost function HiddenCells(g: Grid): set<(int, int)>
    requires IsGrid(g)
  {
    set i, j | 0 <= i < |g| && 0 <= j < Columns(g) && !g[i][j].isRevealed :: (i, j)
  }

  ghost function SafeHiddenCells(g: Grid): set<(int, int)>
    requires IsGrid(g)
  {
    set i, j | 0 <= i < |g| && 0 <= j < Columns(g) && Safe(g[i][j]) && !g[i][j].isRevealed :: (i, j)
  }

  /** The cells a bomb may still go on when (r, c) was clicked: safe ones outside
      the 3x3 block around the click. */
  ghost function CandidateCells(g: Grid, r: int, c: int): set<(int, int)>
    requires IsGrid(g)
  {
    set i, j | 0 <= i < |g| && 0 <= j < Columns(g) && Safe(g[i][j]) && !InZone(r, c, i, j) :: (i, j)
  }

  /** The in-bounds neighbours of (r, c) that are bombs. */
  ghost function MineNeighbors(g: Grid, r: int, c: int): set<(int, int)>
    requires IsGrid(g)
  {
    set i, j | r - 1 <= i <= r + 1 && c - 1 <= j <= c + 1 && Adjacent(r, c, i, j)
                && InBounds(g, i, j) && !Safe(g[i][j]) :: (i, j)
  }

  // ---------------------------------------------------------------------------
  // instantiateSafeBoard
  // ---------------------------------------------------------------------------

  /** The tile `instantiateSafeBoard` puts at (r, c). */
  function SafeTile(r: int, c: int): Tile {
    Tile(r, c, Some(true), false, Some(0))
  }

  /** g is a rows x columns board of fresh safe tiles, each knowing its own place. */
  ghost predicate IsSafeBoard(g: Grid, rows: nat, columns: nat) {
    && |g| == rows
    && (forall i :: 0 <= i < rows ==> |g[i]| == columns)
    && (forall i, j :: 0 <= i < rows && 0 <= j < columns ==> g[i][j] == SafeTile(i, j))
  }

  // ---------------------------------------------------------------------------
  // calculateDisplayNum, getNeighborBombCount
  // ---------------------------------------------------------------------------

  /** 1 if (r, c) is on the board and holds a bomb, else 0. */
  function GetNeighborBombCount(g: Grid, r: int, c: int): (n: int)
    requires IsGrid(g)
    ensures n == 1 <==> (r, c) in MineCells(g)
    ensures n == 0 <==> (r, c) !in MineCells(g)
  {
    if !InBounds(g, r, c) then 0
    else if Safe(g[r][c]) then 0 else 1
  }

  /** -1 for a bomb, otherwise the sum over the eight directions, in the source's order
      N, NE, E, SE, S, SW, W, NW. */
  function CalculateDisplayNum(g: Grid, r: int, c: int): (d: int)
    requires IsGrid(g) && InBounds(g, r, c)
    ensures d == -1 <==> (r, c) in MineCells(g)
    ensures 0 <= d <= 8 <==> (r, c) !in MineCells(g)
  {
    if !Safe(g[r][c]) then -1
    else
      GetNeighborBombCount(g, r - 1, c) +
      GetNeighborBombCount(g, r - 1, c + 1) +
      GetNeighborBombCount(g, r, c + 1) +
      GetNeighborBombCount(g, r + 1, c + 1) +
      GetNeighborBombCount(g, r + 1, c) +
      GetNeighborBombCount(g, r + 1, c - 1) +
      GetNeighborBombCount(g, r, c - 1) +
      GetNeighborBombCount(g, r - 1, c - 1)
  }

  /** The cell (i, j) as a one-element set if it is an in-bounds bomb, else empty. */
  ghost function BombAt(g: Grid, i: int, j: int): set<(int, int)>
    requires IsGrid(g)
  {
    if InBounds(g, i, j) && !Safe(g[i][j]) then {(i, j)} else {}
  }

  /** Adding a cell not yet counted adds what getNeighborBombCount says about it. */
  lemma AddBombAt(a: set<(int, int)>, g: Grid, i: int, j: int)
    requires IsGrid(g) && (i, j) !in a
    ensures |a + BombAt(g, i, j)| == |a| + GetNeighborBombCount(g, i, j)
  {
    if InBounds(g, i, j) && !Safe(g[i][j]) {
      assert a + BombAt(g, i, j) == a + {(i, j)};
    } else {
      assert a + BombAt(g, i, j) == a;
    }
  }

  /** The eight neighbour directions, in calculateDisplayNum's order. */
  ghost function NeighborBombsByDirection(g: Grid, r: int, c: int): set<(int, int)>
    requires IsGrid(g)
  {
    BombAt(g, r - 1, c) + BombAt(g, r - 1, c + 1) + BombAt(g, r, c + 1) + BombAt(g, r + 1, c + 1)
    + BombAt(g, r + 1, c) + BombAt(g, r + 1, c - 1) + BombAt(g, r, c - 1) + BombAt(g, r - 1, c - 1)
  }

  lemma MineNeighborsInDirections(g: Grid, r: int, c: int)
    requires IsGrid(g)
    ensures MineNeighbors(g, r, c) <= NeighborBombsByDirection(g, r, c)
  {
    forall p | p in MineNeighbors(g, r, c) ensures p in NeighborBombsByDirection(g, r, c) {
      var (i, j) := p;
      if i == r - 1 && j == c { assert p in BombAt(g, r - 1, c); }
      else if i == r - 1 && j == c + 1 { assert p in BombAt(g, r - 1, c + 1); }
      else if i == r && j == c + 1 { assert p in BombAt(g, r, c + 1); }
      else if i == r + 1 && j == c + 1 { assert p in BombAt(g, r + 1, c + 1); }
      else if i == r + 1 && j == c { assert p in BombAt(g, r + 1, c); }
      else if i == r + 1 && j == c - 1 { assert p in BombAt(g, r + 1, c - 1); }
      else if i == r && j == c - 1 { assert p in BombAt(g, r, c - 1); }
      else { assert i == r - 1 && j == c - 1; assert p in BombAt(g, r - 1, c - 1); }
    }
  }

  lemma DirectionsInMineNeighbors(g: Grid, r: int, c: int)
    requires IsGrid(g)
    ensures NeighborBombsByDirection(g, r, c) <= MineNeighbors(g, r, c)
  {
    BombAtIsMineNeighbor(g, r, c, r - 1, c);
    BombAtIsMineNeighbor(g, r, c, r - 1, c + 1);
    BombAtIsMineNeighbor(g, r, c, r, c + 1);
    BombAtIsMineNeighbor(g, r, c, r + 1, c + 1);
    BombAtIsMineNeighbor(g, r, c, r + 1, c);
    BombAtIsMineNeighbor(g, r, c, r + 1, c - 1);
    BombAtIsMineNeighbor(g, r, c, r, c - 1);
    BombAtIsMineNeighbor(g, r, c, r - 1, c - 1);
  }

  /** A bomb at a neighbour (i, j) of (r, c) is one of its mine neighbours. */
  lemma BombAtIsMineNeighbor(g: Grid, r: int, c: int, i: int, j: int)
    requires IsGrid(g) && Adjacent(r, c, i, j)
    ensures BombAt(g, i, j) <= MineNeighbors(g, r, c)
  {
    if InBounds(g, i, j) && !Safe(g[i][j]) {
      assert (i, j) in MineNeighbors(g, r, c);
    }
  }

  lemma NotInBombAt(g: Grid, p: (int, int), i: int, j: int)
    requires IsGrid(g) && p != (i, j)
    ensures p !in BombAt(g, i, j)
  {
  }

  /** Counting the eight directions one by one: no cell is counted twice. */
  lemma CountByDirection(g: Grid, r: int, c: int)
    requires IsGrid(g)
    ensures |NeighborBombsByDirection(g, r, c)|
         == GetNeighborBombCount(g, r - 1, c) + GetNeighborBombCount(g, r - 1, c + 1)
          + GetNeighborBombCount(g, r, c + 1) + GetNeighborBombCount(g, r + 1, c + 1)
          + GetNeighborBombCount(g, r + 1, c) + GetNeighborBombCount(g, r + 1, c - 1)
          + GetNeighborBombCount(g, r, c - 1) + GetNeighborBombCount(g, r - 1, c - 1)
  {
    var s0: set<(int, int)> := {};
    var s1 := s0 + BombAt(g, r - 1, c);
    var s2 := s1 + BombAt(g, r - 1, c + 1);
    var s3 := s2 + BombAt(g, r, c + 1);
    var s4 := s3 + BombAt(g, r + 1, c + 1);
    var s5 := s4 + BombAt(g, r + 1, c);
    var s6 := s5 + BombAt(g, r + 1, c - 1);
    var s7 := s6 + BombAt(g, r, c - 1);
    var s8 := s7 + BombAt(g, r - 1, c - 1);
    AddBombAt(s0, g, r - 1, c);
    NotInBombAt(g, (r - 1, c + 1), r - 1, c);
    AddBombAt(s1, g, r - 1, c + 1);
    NotInBombAt(g, (r, c + 1), r - 1, c);
    NotInBombAt(g, (r, c + 1), r - 1, c + 1);
    AddBombAt(s2, g, r, c + 1);
    NotInBombAt(g, (r + 1, c + 1), r - 1, c);
    NotInBombAt(g, (r + 1, c + 1), r - 1, c + 1);
    NotInBombAt(g, (r + 1, c + 1), r, c + 1);
    AddBombAt(s3, g, r + 1, c + 1);
    NotInBombAt(g, (r + 1, c), r - 1, c);
    NotInBombAt(g, (r + 1, c), r - 1, c + 1);
    NotInBombAt(g, (r + 1, c), r, c + 1);
    NotInBombAt(g, (r + 1, c), r + 1, c + 1);
    AddBombAt(s4, g, r + 1, c);
    NotInBombAt(g, (r + 1, c - 1), r - 1, c);
    NotInBombAt(g, (r + 1, c - 1), r - 1, c + 1);
    NotInBombAt(g, (r + 1, c - 1), r, c + 1);
    NotInBombAt(g, (r + 1, c - 1), r + 1, c + 1);
    NotInBombAt(g, (r + 1, c - 1), r + 1, c);
    AddBombAt(s5, g, r + 1, c - 1);
    NotInBombAt(g, (r, c - 1), r - 1, c);
    NotInBombAt(g, (r, c - 1), r - 1, c + 1);
    NotInBombAt(g, (r, c - 1), r, c + 1);
    NotInBombAt(g, (r, c - 1), r + 1, c + 1);
    NotInBombAt(g, (r, c - 1), r + 1, c);
    NotInBombAt(g, (r, c - 1), r + 1, c - 1);
    AddBombAt(s6, g, r, c - 1);
    NotInBombAt(g, (r - 1, c - 1), r - 1, c);
    NotInBombAt(g, (r - 1, c - 1), r - 1, c + 1);
    NotInBombAt(g, (r - 1, c - 1), r, c + 1);
    NotInBombAt(g, (r - 1, c - 1), r + 1, c + 1);
    NotInBombAt(g, (r - 1, c - 1), r + 1, c);
    NotInBombAt(g, (r - 1, c - 1), r + 1, c - 1);
    NotInBombAt(g, (r - 1, c - 1), r, c - 1);
    AddBombAt(s7, g, r - 1, c - 1);
    assert s8 == NeighborBombsByDirection(g, r, c);
  }

  /** The number calculateDisplayNum gives a safe tile is the number of bombs among its
      in-bounds neighbours; a bomb gets -1. So the number is always in -1..8. */
  lemma DisplayNumCountsNeighborMines(g: Grid, r: int, c: int)
    requires IsGrid(g) && InBounds(g, r, c)
    ensures CalculateDisplayNum(g, r, c) == if Safe(g[r][c]) then |MineNeighbors(g, r, c)| else -1
    ensures -1 <= CalculateDisplayNum(g, r, c) <= 8
  {
    MineNeighborsInDirections(g, r, c);
    DirectionsInMineNeighbors(g, r, c);
    CountByDirection(g, r, c);
    assert MineNeighbors(g, r, c) == NeighborBombsByDirection(g, r, c);
  }

  /** Two boards of the same shape agree on which tiles are bombs. */
  ghost predicate SameBombs(g: Grid, h: Grid)
    requires IsGrid(g) && IsGrid(h)
  {
    SameShape(g, h) && forall i, j :: InBounds(g, i, j) ==> Safe(g[i][j]) == Safe(h[i][j])
  }

  /** calculateDisplayNum reads only the bomb layout. */
  lemma DisplayNumReadsOnlyBombs(g: Grid, h: Grid, r: int, c: int)
    requires IsGrid(g) && IsGrid(h) && SameBombs(g, h) && InBounds(g, r, c)
    ensures CalculateDisplayNum(g, r, c) == CalculateDisplayNum(h, r, c)
  {
    NeighborCountReadsOnlyBombs(g, h, r - 1, c);
    NeighborCountReadsOnlyBombs(g, h, r - 1, c + 1);
    NeighborCountReadsOnlyBombs(g, h, r, c + 1);
    NeighborCountReadsOnlyBombs(g, h, r + 1, c + 1);
    NeighborCountReadsOnlyBombs(g, h, r + 1, c);
    NeighborCountReadsOnlyBombs(g, h, r + 1, c - 1);
    NeighborCountReadsOnlyBombs(g, h, r, c - 1);
    NeighborCountReadsOnlyBombs(g, h, r - 1, c - 1);
  }

  /** getNeighborBombCount reads only the bomb layout. */
  lemma NeighborCountReadsOnlyBombs(g: Grid, h: Grid, i: int, j: int)
    requires IsGrid(g) && IsGrid(h) && SameBombs(g, h)
    ensures GetNeighborBombCount(g, i, j) == GetNeighborBombCount(h, i, j)
  {
    assert InBounds(g, i, j) == InBounds(h, i, j);
  }

  /** g' is g with the bombs flipped on some candidate cells for a click at (r, c):
      every changed tile was safe, lies outside the 3x3 block around the click, and
      differs only in `isSafe`, now false. */
  ghost predicate PlacesBombsOnly(g: Grid, g': Grid, r: int, c: int)
    requires IsGrid(g) && IsGrid(g')
  {
    SameShape(g, g') &&
    forall i, j :: InBounds(g, i, j) ==>
      g'[i][j] == g[i][j] ||
      (Safe(g[i][j]) && !InZone(r, c, i, j) && g'[i][j] == g[i][j].(isSafe := Some(false)))
  }

  /** The tile calculateDisplayNums leaves at (i, j). */
  ghost function Numbered(g: Grid, i: int, j: int): Tile
    requires IsGrid(g) && InBounds(g, i, j)
  {
    g[i][j].(displayNum := Some(CalculateDisplayNum(g, i, j)))
  }

  /** Numbering every tile changes no tile's `isSafe`, so the mines stay where they are. */
  lemma NumberingKeepsMines(placed: Grid, armed: Grid)
    requires IsGrid(placed) && IsGrid(armed) && SameShape(placed, armed)
    requires forall i, j :: InBounds(armed, i, j) ==> armed[i][j] == Numbered(placed, i, j)
    ensures MineCells(armed) == MineCells(placed)
  {
  }

  // ---------------------------------------------------------------------------
  // updateTileAndNeighbors: specification
  // ---------------------------------------------------------------------------

  /** The neighbour offsets in the order updateTileAndNeighbors visits them:
      N, NE, NW, S, SE, SW, E, W. */
  const Offsets: seq<(int, int)> := [(-1, 0), (-1, 1), (-1, -1), (1, 0), (1, 1), (1, -1), (0, 1), (0, -1)]

  /** The flood fill would reveal (r, c) if called on it: the tile exists, is hidden
      and is safe. Otherwise the call returns the board untouched. */
  predicate Enterable(g: Grid, r: int, c: int)
    requires IsGrid(g)
  {
    InBounds(g, r, c) && !g[r][c].isRevealed && Safe(g[r][c])
  }

  /** g' is g with some hidden safe tiles revealed, and no other change. */
  ghost predicate RevealsOnly(g: Grid, g': Grid)
    requires IsGrid(g) && IsGrid(g')
  {
    SameShape(g, g') &&
    forall i, j :: InBounds(g, i, j) ==>
      g'[i][j] == g[i][j] ||
      (!g[i][j].isRevealed && Safe(g[i][j]) && g'[i][j] == g[i][j].(isRevealed := true))
  }

  /** Revealing tiles changes no tile's `isSafe`, so the mines stay where they are. */
  lemma RevealsOnlyKeepsMines(g: Grid, g': Grid)
    requires IsGrid(g) && IsGrid(g') && RevealsOnly(g, g')
    ensures MineCells(g') == MineCells(g)
  {
  }

  ghost predicate NewlyRevealed(g: Grid, g': Grid, i: int, j: int)
    requires IsGrid(g) && IsGrid(g') && SameShape(g, g')
  {
    InBounds(g, i, j) && !g[i][j].isRevealed && g'[i][j].isRevealed
  }

  /** Every neighbour of (i, j) is off the board, revealed or a bomb. */
  ghost predicate NeighborsSettled(g: Grid, i: int, j: int)
    requires IsGrid(g)
  {
    forall p, q :: Adjacent(i, j, p, q) ==> !Enterable(g, p, q)
  }

  /** Around every tile revealed between g and g' that shows 0, except (r, c), every
      neighbour is revealed or a bomb. */
  ghost predicate ZeroClosedExcept(g: Grid, g': Grid, r: int, c: int)
    requires IsGrid(g) && IsGrid(g') && SameShape(g, g')
  {
    forall i, j :: NewlyRevealed(g, g', i, j) && (i != r || j != c) && g'[i][j].displayNum == Some(0) ==>
      NeighborsSettled(g', i, j)
  }

  /** Around every tile revealed between g and g' that shows 0, every neighbour is
      revealed or a bomb: the fill stopped only at numbered tiles and bombs. */
  ghost predicate ZeroClosed(g: Grid, g': Grid)
    requires IsGrid(g) && IsGrid(g') && SameShape(g, g')
  {
    forall i, j :: NewlyRevealed(g, g', i, j) && g'[i][j].displayNum == Some(0) ==>
      NeighborsSettled(g', i, j)
  }

  /** Every tile revealed between g and g', except (r, c), borders a tile revealed
      between them that shows 0: the fill spreads only through zeros. */
  ghost predicate SpreadsThroughZeros(g: Grid, g': Grid, r: int, c: int)
    requires IsGrid(g) && IsGrid(g') && SameShape(g, g')
  {
    forall i, j :: NewlyRevealed(g, g', i, j) && (i != r || j != c) ==>
      exists p, q :: Adjacent(p, q, i, j) && NewlyRevealed(g, g', p, q) && g'[p][q].displayNum == Some(0)
  }

  /** (p.0, p.1) is on g and shows 0. */
  ghost predicate ShowsZero(g: Grid, p: (int, int))
    requires IsGrid(g)
  {
    InBounds(g, p.0, p.1) && g[p.0][p.1].displayNum == Some(0)
  }

  /** `order` lists the tiles revealed between g and g', starting at (r, c), and
      every later one, order[k], borders the earlier one order[from[k]], which shows 0:
      `from` records which zero's recursion revealed each tile. */
  ghost predicate RevealOrder(g: Grid, g': Grid, r: int, c: int, order: seq<(int, int)>, from: seq<int>)
    requires IsGrid(g) && IsGrid(g') && SameShape(g, g')
  {
    && |from| == |order|
    && (forall p :: p in order <==> NewlyRevealed(g, g', p.0, p.1))
    && (|order| > 0 ==> order[0] == (r, c))
    && forall k :: 0 < k < |order| ==> ChainLink(g', order, from, k)
  }

  /** order[k] borders order[from[k]], which comes earlier and shows 0 on g. */
  ghost predicate ChainLink(g: Grid, order: seq<(int, int)>, from: seq<int>, k: int)
    requires IsGrid(g) && |from| == |order| && 0 <= k < |order|
  {
    && 0 <= from[k] < k
    && Adjacent(order[from[k]].0, order[from[k]].1, order[k].0, order[k].1)
    && ShowsZero(g, order[from[k]])
  }

  /** Every tile revealed between g and g' was reached from (r, c) through revealed
      zeros: the revealed region is connected to the target. */
  ghost predicate ReachedFromTarget(g: Grid, g': Grid, r: int, c: int)
    requires IsGrid(g) && IsGrid(g') && SameShape(g, g')
  {
    exists order, from :: RevealOrder(g, g', r, c, order, from)
  }

  /** What one call of updateTileAndNeighbors at (r, c) does to g, giving g': only
      hidden safe tiles are revealed; an off-board, revealed or unsafe target changes
      nothing; otherwise the target is revealed, alone when it does not show 0;
      afterwards the target cannot be entered again; around every newly revealed 0
      nothing safe stays hidden; and every other newly revealed tile was reached
      from the target through newly revealed zeros. */
  ghost predicate FloodFilled(g: Grid, g': Grid, r: int, c: int)
    requires IsGrid(g) && IsGrid(g')
  {
    && RevealsOnly(g, g')
    && (!Enterable(g, r, c) ==> g' == g)
    && (Enterable(g, r, c) ==> g'[r][c].isRevealed)
    && (Enterable(g, r, c) && g[r][c].displayNum != Some(0) ==>
          g' == g[r := g[r][c := g[r][c].(isRevealed := true)]])
    && !Enterable(g', r, c)
    && ZeroClosed(g, g')
    && ReachedFromTarget(g, g', r, c)
  }

  /** A reveal order from (r, c) gives every other newly revealed tile a newly
      revealed neighbour that shows 0: the fill spreads only through zeros. */
  lemma ReachedSpreads(g: Grid, g': Grid, r: int, c: int)
    requires IsGrid(g) && IsGrid(g') && SameShape(g, g')
    requires ReachedFromTarget(g, g', r, c)
    ensures SpreadsThroughZeros(g, g', r, c)
  {
    var order: seq<(int, int)>, from: seq<int> :| RevealOrder(g, g', r, c, order, from);
    forall i, j | NewlyRevealed(g, g', i, j) && (i != r || j != c)
      ensures exists p, q :: Adjacent(p, q, i, j) && NewlyRevealed(g, g', p, q) && g'[p][q].displayNum == Some(0)
    {
      assert (i, j) in order;
      var k: int :| 0 <= k < |order| && order[k] == (i, j);
      assert ChainLink(g', order, from, k);
      assert order[from[k]] in order;
    }
  }

  /** A second flood fill from the same tile changes nothing. */
  lemma FloodFillIdempotent(g: Grid, g': Grid, h: Grid, r: int, c: int)
    requires IsGrid(g) && IsGrid(g') && IsGrid(h)
    requires FloodFilled(g, g', r, c) && FloodFilled(g', h, r, c)
    ensures h == g'
  {
  }

  /** The board the server mutates in place: a list of rows of tiles. */
  class GameBoard {
    var tiles: Grid

    ghost predicate Valid()
      reads this
    {
      IsGrid(tiles)
    }

    /** instantiateSafeBoard: rows x columns tiles, each safe, hidden, numbered 0,
        and carrying its own row and column. */
    constructor InstantiateSafeBoard(rows: nat, columns: nat)
      ensures Valid() && IsSafeBoard(tiles, rows, columns)
    {
      var board: Grid := [];
      for row := 0 to rows
        invariant |board| == row
        invariant forall i :: 0 <= i < row ==> |board[i]| == columns
        invariant forall i, j :: 0 <= i < row && 0 <= j < columns ==> board[i][j] == SafeTile(i, j)
      {
        board := board + [[]];
        for column := 0 to columns
          invariant |board| == row + 1 && |board[row]| == column
          invariant forall i :: 0 <= i < row ==> |board[i]| == columns
          invariant forall i, j :: 0 <= i < row && 0 <= j < columns ==> board[i][j] == SafeTile(i, j)
          invariant forall j :: 0 <= j < column ==> board[row][j] == SafeTile(row, j)
        {
          board := board[row := board[row] + [Tile(row, column, Some(true), false, Some(0))]];
        }
      }
      tiles := board;
    }

    /** The clone of a stored board that a move works on. */
    constructor FromGrid(g: Grid)
      requires IsGrid(g)
      ensures Valid() && tiles == g
    {
      tiles := g;
    }

    /** calculateDisplayNums: every tile gets calculateDisplayNum's value; nothing
        else changes. */
    method CalculateDisplayNums()
      requires Valid()
      modifies this
      ensures Valid() && SameShape(old(tiles), tiles)
      ensures forall i, j :: InBounds(tiles, i, j) ==> tiles[i][j] == Numbered(old(tiles), i, j)
    {
      ghost var g0 := tiles;
      for row := 0 to |tiles|
        invariant IsGrid(tiles) && SameShape(g0, tiles)
        invariant forall i, j :: InBounds(tiles, i, j) ==>
                    tiles[i][j] == if i < row then Numbered(g0, i, j) else g0[i][j]
      {
        for column := 0 to Columns(tiles)
          invariant IsGrid(tiles) && SameShape(g0, tiles)
          invariant forall i, j :: InBounds(tiles, i, j) ==>
                      tiles[i][j] == if i < row || (i == row && j < column) then Numbered(g0, i, j) else g0[i][j]
        {
          assert SameBombs(g0, tiles);
          DisplayNumReadsOnlyBombs(g0, tiles, row, column);
          tiles := tiles[row := tiles[row][column := tiles[row][column].(displayNum := Some(CalculateDisplayNum(tiles, row, column)))]];
        }
      }
    }

    /** addBombsToBoard: turns exactly numBombs candidate tiles into bombs. Each round
        picks a cell the random draw may hit and that passes the source's test; draws
        that fail it change nothing and are not modelled. The source's loop only ends
        when there are enough candidates, hence the precondition. */
    method AddBombsToBoard(row: int, column: int, numBombs: nat)
      requires Valid() && |tiles| > 0 && numBombs <= |CandidateCells(tiles, row, column)|
      modifies this
      ensures Valid()
      ensures PlacesBombsOnly(old(tiles), tiles, row, column)
      ensures |MineCells(tiles)| == |MineCells(old(tiles))| + numBombs
    {
      ghost var g0 := tiles;
      var bombsLeft: nat := numBombs;
      while bombsLeft > 0
        invariant IsGrid(tiles) && PlacesBombsOnly(g0, tiles, row, column)
        invariant bombsLeft <= |CandidateCells(tiles, row, column)|
        invariant |MineCells(tiles)| + bombsLeft == |MineCells(g0)| + numBombs
      {
        ghost var p :| p in CandidateCells(tiles, row, column);
        assert InBounds(tiles, p.0, p.1) && Safe(tiles[p.0][p.1]) && !InZone(row, column, p.0, p.1);
        // a cell on the board, safe, and not the clicked tile or one of its neighbours
        var bombRow: int, bombColumn: int :|
          && 0 <= bombRow < |tiles| && 0 <= bombColumn < |tiles[0]|
          && tiles[bombRow][bombColumn].isSafe == Some(true)
          && (bombRow - row > 1 || row - bombRow > 1 || bombColumn - column > 1 || column - bombColumn > 1);
        ghost var before := tiles;
        tiles := tiles[bombRow := tiles[bombRow][bombColumn := tiles[bombRow][bombColumn].(isSafe := Some(false))]];
        FlipBomb(before, tiles, row, column, bombRow, bombColumn);
        PlacesBombsOnlyTrans(g0, before, tiles, row, column);
        bombsLeft := bombsLeft - 1;
      }
    }

    /** updateTileAndNeighbors: reveals the clicked tile if it exists, is hidden and is
        safe (a bomb only raises an alert), and when it shows 0 repeats itself on the
        eight neighbours. */
    method UpdateTileAndNeighbors(row: int, column: int)
      requires Valid()
      modifies this
      decreases HiddenCells(tiles)
      ensures Valid() && FloodFilled(old(tiles), tiles, row, column)
    {
      if row < 0 || column < 0 || row >= |tiles| || column >= Columns(tiles) {
        LeftAlone(tiles, row, column);
        return;
      }
      if tiles[row][column].isRevealed {
        LeftAlone(tiles, row, column);
        return;
      }
      if tiles[row][column].isSafe != Some(true) {
        LeftAlone(tiles, row, column);
        return;
      }
      ghost var g0 := tiles;
      tiles := tiles[row := tiles[row][column := tiles[row][column].(isRevealed := true)]];
      RevealOne(g0, tiles, row, column);
      if tiles[row][column].displayNum == Some(0) {
        OnlyTargetRevealed(g0, tiles, row, column);
        TargetRevealed(g0, tiles, row, column);
        ghost var order, from := [(row, column)], [0];
        for k := 0 to |Offsets|
          invariant IsGrid(tiles) && FillProgress(g0, tiles, row, column, k, order, from)
        {
          ghost var before := tiles;
          UpdateTileAndNeighbors(row + Offsets[k].0, column + Offsets[k].1);
          order, from := FillNext(g0, before, tiles, row, column, k, order, from);
        }
        FillDone(g0, tiles, row, column, order, from);
      } else {
        RevealedAlone(g0, tiles, row, column);
      }
    }

    /** revealBombSpots: sets `isRevealed` on the tile at each listed tile's row and
        column, and changes nothing else. */
    method RevealBombSpots(bombSpots: seq<Tile>)
      requires Valid() && forall t :: t in bombSpots ==> InBounds(tiles, t.row, t.column)
      modifies this
      ensures Valid() && SameShape(old(tiles), tiles)
      ensures forall i, j :: InBounds(tiles, i, j) ==>
                tiles[i][j] == if (i, j) in Coordinates(bombSpots) then old(tiles)[i][j].(isRevealed := true)
                               else old(tiles)[i][j]
    {
      ghost var g0 := tiles;
      for k := 0 to |bombSpots|
        invariant IsGrid(tiles) && SameShape(g0, tiles)
        invariant forall i, j :: InBounds(tiles, i, j) ==>
                    tiles[i][j] == if (i, j) in Coordinates(bombSpots[..k]) then g0[i][j].(isRevealed := true)
                                   else g0[i][j]
      {
        var bomb := bombSpots[k];
        assert bombSpots[..k + 1] == bombSpots[..k] + [bomb];
        assert InBounds(tiles, bomb.row, bomb.column);
        ghost var before := tiles;
        tiles := tiles[bomb.row := tiles[bomb.row][bomb.column := tiles[bomb.row][bomb.column].(isRevealed := true)]];
        assert IsGrid(tiles) by {
          forall i | 0 <= i < |tiles| ensures |tiles[i]| == Columns(tiles) {
            assert Columns(tiles) == Columns(before);
          }
        }
      }
      assert bombSpots[..|bombSpots|] == bombSpots;
    }
  }

  /** Flipping one candidate cell turns one candidate into one bomb. */
  lemma FlipBomb(g: Grid, g': Grid, r: int, c: int, i: int, j: int)
    requires IsGrid(g) && InBounds(g, i, j) && Safe(g[i][j]) && !InZone(r, c, i, j)
    requires g' == g[i := g[i][j := g[i][j].(isSafe := Some(false))]]
    ensures IsGrid(g') && SameShape(g, g')
    ensures PlacesBombsOnly(g, g', r, c)
    ensures |CandidateCells(g', r, c)| == |CandidateCells(g, r, c)| - 1
    ensures |MineCells(g')| == |MineCells(g)| + 1
  {
    assert IsGrid(g') by {
      forall k | 0 <= k < |g'| ensures |g'[k]| == Columns(g') {
        assert Columns(g') == Columns(g);
      }
    }
    assert (i, j) in CandidateCells(g, r, c) && (i, j) !in MineCells(g);
    assert CandidateCells(g', r, c) == CandidateCells(g, r, c) - {(i, j)};
    assert MineCells(g') == MineCells(g) + {(i, j)};
  }

  /** PlacesBombsOnly composes. */
  lemma PlacesBombsOnlyTrans(g: Grid, h: Grid, k: Grid, r: int, c: int)
    requires IsGrid(g) && IsGrid(h) && IsGrid(k)
    requires PlacesBombsOnly(g, h, r, c) && PlacesBombsOnly(h, k, r, c)
    ensures PlacesBombsOnly(g, k, r, c)
  {
  }

  /** Revealing the hidden safe tile (r, c) alone. */
  lemma RevealOne(g: Grid, g': Grid, r: int, c: int)
    requires IsGrid(g) && Enterable(g, r, c)
    requires g' == g[r := g[r][c := g[r][c].(isRevealed := true)]]
    ensures IsGrid(g') && SameShape(g, g') && RevealsOnly(g, g')
    ensures (r, c) in HiddenCells(g) && HiddenCells(g') == HiddenCells(g) - {(r, c)}
    ensures forall i, j :: NewlyRevealed(g, g', i, j) ==> i == r && j == c
  {
    assert IsGrid(g') by {
      forall k | 0 <= k < |g'| ensures |g'[k]| == Columns(g') {
        assert Columns(g') == Columns(g);
      }
    }
    assert HiddenCells(g') == HiddenCells(g) - {(r, c)};
  }

  /** When only (r, c) was revealed, the fill is closed except perhaps at (r, c),
      and closed outright unless (r, c) shows 0. */
  lemma OnlyTargetRevealed(g: Grid, g': Grid, r: int, c: int)
    requires IsGrid(g) && IsGrid(g') && SameShape(g, g')
    requires forall i, j :: NewlyRevealed(g, g', i, j) ==> i == r && j == c
    ensures ZeroClosedExcept(g, g', r, c)
    ensures InBounds(g, r, c) && g'[r][c].displayNum != Some(0) ==> ZeroClosed(g, g')
  {
  }

  /** What holds after the recursive calls on the first k neighbours of the zero
      (r, c), revealed on top of g0. */
  ghost predicate FillInvariant(g0: Grid, g: Grid, r: int, c: int, k: int)
    requires IsGrid(g0) && IsGrid(g)
  {
    && RevealsOnly(g0, g)
    && InBounds(g, r, c) && !g0[r][c].isRevealed && g[r][c].isRevealed && g[r][c].displayNum == Some(0)
    && HiddenCells(g) <= HiddenCells(g0) - {(r, c)}
    && 0 <= k <= |Offsets|
    && (forall m :: 0 <= m < k ==> !Enterable(g, r + Offsets[m].0, c + Offsets[m].1))
    && ZeroClosedExcept(g0, g, r, c)
  }

  /** The recursive call on neighbour k keeps FillInvariant. */
  lemma FillStep(g0: Grid, g: Grid, h: Grid, r: int, c: int, k: int)
    requires IsGrid(g0) && IsGrid(g) && IsGrid(h)
    requires FillInvariant(g0, g, r, c, k) && k < |Offsets|
    requires RevealsOnly(g, h) && ZeroClosed(g, h)
    requires !Enterable(h, r + Offsets[k].0, c + Offsets[k].1)
    ensures FillInvariant(g0, h, r, c, k + 1)
  {
    RevealsOnlyTrans(g0, g, h);
    RevealsOnlyHidden(g, h);
    RevealsKeepSettled(g, h);
    ZeroClosedStep(g0, g, h, r, c);
    forall m | 0 <= m < k + 1 ensures !Enterable(h, r + Offsets[m].0, c + Offsets[m].1) {
      if m < k {
        assert !Enterable(g, r + Offsets[m].0, c + Offsets[m].1);
      }
    }
  }

  lemma NothingRevealed(g: Grid, r: int, c: int)
    requires IsGrid(g)
    ensures RevealOrder(g, g, r, c, [], [])
  {
  }

  lemma TargetRevealed(g: Grid, g': Grid, r: int, c: int)
    requires IsGrid(g) && IsGrid(g') && InBounds(g, r, c) && !g[r][c].isRevealed
    requires g' == g[r := g[r][c := g[r][c].(isRevealed := true)]]
    ensures SameShape(g, g') && RevealOrder(g, g', r, c, [(r, c)], [0])
  {
    assert Columns(g') == Columns(g);
  }

  /** A tile revealed between g0 and h was revealed between g0 and g or between g and h. */
  lemma NewlyRevealedSplit(g0: Grid, g: Grid, h: Grid)
    requires IsGrid(g0) && IsGrid(g) && IsGrid(h)
    requires RevealsOnly(g0, g) && RevealsOnly(g, h)
    ensures forall i, j :: NewlyRevealed(g0, h, i, j) <==> NewlyRevealed(g0, g, i, j) || NewlyRevealed(g, h, i, j)
  {
    forall i, j | InBounds(g0, i, j)
      ensures NewlyRevealed(g0, h, i, j) <==> NewlyRevealed(g0, g, i, j) || NewlyRevealed(g, h, i, j)
    {
      assert g[i][j] == g0[i][j] || (!g0[i][j].isRevealed && g[i][j] == g0[i][j].(isRevealed := true));
      assert h[i][j] == g[i][j] || (!g[i][j].isRevealed && h[i][j] == g[i][j].(isRevealed := true));
    }
  }

  /** The parents of `order + next`: those of order, then the first tile of next
      hangs on the target, tile 0, and the later ones on their parents shifted by
      |order|. */
  ghost function Graft(from: seq<int>, next: seq<int>): (f: seq<int>)
    ensures |f| == |from| + |next|
    ensures forall k :: 0 <= k < |from| ==> f[k] == from[k]
    ensures |next| > 0 ==> f[|from|] == 0
    ensures forall k :: 0 < k < |next| ==> f[|from| + k] == next[k] + |from|
  {
    from + seq(|next|, i requires 0 <= i < |next| => if i == 0 then 0 else next[i] + |from|)
  }

  /** The tiles a recursive call on the neighbour (p, q) reveals extend the reveal
      order: the first borders the zero (r, c), the rest chain as they did. */
  lemma OrderStep(g0: Grid, g: Grid, h: Grid, r: int, c: int, p: int, q: int,
                  order: seq<(int, int)>, from: seq<int>, next: seq<(int, int)>, nextFrom: seq<int>)
    requires IsGrid(g0) && IsGrid(g) && IsGrid(h)
    requires RevealsOnly(g0, g) && RevealsOnly(g, h)
    requires RevealOrder(g0, g, r, c, order, from) && |order| > 0
    requires ShowsZero(g, (r, c)) && Adjacent(r, c, p, q)
    requires RevealOrder(g, h, p, q, next, nextFrom)
    ensures RevealOrder(g0, h, r, c, order + next, Graft(from, nextFrom))
  {
    var s := order + next;
    assert s[0] == (r, c);
    NewlyRevealedSplit(g0, g, h);
    forall x ensures x in s <==> NewlyRevealed(g0, h, x.0, x.1) {
      assert x in s <==> x in order || x in next;
    }
    OrderChain(g, h, r, c, p, q, order, from, next, nextFrom);
  }

  /** In `order + next` every tile after the first hangs on an earlier zero of h. */
  lemma OrderChain(g: Grid, h: Grid, r: int, c: int, p: int, q: int,
                   order: seq<(int, int)>, from: seq<int>, next: seq<(int, int)>, nextFrom: seq<int>)
    requires IsGrid(g) && IsGrid(h) && RevealsOnly(g, h)
    requires |from| == |order| > 0 && order[0] == (r, c)
    requires forall k :: 0 < k < |order| ==> ChainLink(g, order, from, k)
    requires ShowsZero(g, (r, c)) && Adjacent(r, c, p, q)
    requires |nextFrom| == |next| && (|next| > 0 ==> next[0] == (p, q))
    requires forall k :: 0 < k < |next| ==> ChainLink(h, next, nextFrom, k)
    ensures forall k :: 0 < k < |order + next| ==> ChainLink(h, order + next, Graft(from, nextFrom), k)
  {
    var s, f := order + next, Graft(from, nextFrom);
    forall k | 0 < k < |s| ensures ChainLink(h, s, f, k) {
      if k < |order| {
        assert ChainLink(g, order, from, k);
        ShowsZeroKept(g, h, order[from[k]]);
      } else if k == |order| {
        ShowsZeroKept(g, h, (r, c));
        assert s[k] == next[0];
      } else {
        assert ChainLink(h, next, nextFrom, k - |order|);
        assert s[k] == next[k - |order|] && s[f[k]] == next[nextFrom[k - |order|]];
      }
    }
  }

  /** Revealing tiles keeps every revealed 0 showing 0. */
  lemma ShowsZeroKept(g: Grid, h: Grid, p: (int, int))
    requires IsGrid(g) && IsGrid(h) && RevealsOnly(g, h) && ShowsZero(g, p)
    ensures ShowsZero(h, p)
  {
  }

  /** FillInvariant together with the order in which the tiles were revealed. */
  ghost predicate FillProgress(g0: Grid, g: Grid, r: int, c: int, k: int, order: seq<(int, int)>, from: seq<int>)
    requires IsGrid(g0) && IsGrid(g)
  {
    FillInvariant(g0, g, r, c, k) && RevealOrder(g0, g, r, c, order, from) && |order| > 0
  }

  /** The recursive call on neighbour k keeps FillProgress, with the tiles it
      revealed appended to the order. */
  lemma FillNext(g0: Grid, g: Grid, h: Grid, r: int, c: int, k: int, order: seq<(int, int)>, from: seq<int>)
    returns (order': seq<(int, int)>, from': seq<int>)
    requires IsGrid(g0) && IsGrid(g) && IsGrid(h)
    requires FillProgress(g0, g, r, c, k, order, from) && k < |Offsets|
    requires FloodFilled(g, h, r + Offsets[k].0, c + Offsets[k].1)
    ensures FillProgress(g0, h, r, c, k + 1, order', from')
  {
    FillStep(g0, g, h, r, c, k);
    OffsetAdjacent(r, c, k);
    order', from' := FillNextOrder(g0, g, h, r, c, k, r + Offsets[k].0, c + Offsets[k].1, order, from);
  }

  /** Each of the eight offsets leads to a neighbour. */
  lemma OffsetAdjacent(r: int, c: int, k: int)
    requires 0 <= k < |Offsets|
    ensures Adjacent(r, c, r + Offsets[k].0, c + Offsets[k].1)
  {
  }

  /** The order so far extended by the tiles the call on the neighbour (p, q) revealed. */
  lemma FillNextOrder(g0: Grid, g: Grid, h: Grid, r: int, c: int, k: int, p: int, q: int,
                      order: seq<(int, int)>, from: seq<int>)
    returns (order': seq<(int, int)>, from': seq<int>)
    requires IsGrid(g0) && IsGrid(g) && IsGrid(h)
    requires FillInvariant(g0, h, r, c, k + 1)
    requires RevealsOnly(g0, g) && RevealOrder(g0, g, r, c, order, from) && |order| > 0
    requires ShowsZero(g, (r, c)) && Adjacent(r, c, p, q)
    requires FloodFilled(g, h, p, q)
    ensures FillProgress(g0, h, r, c, k + 1, order', from')
  {
    var next: seq<(int, int)>, nextFrom: seq<int> :| RevealOrder(g, h, p, q, next, nextFrom);
    OrderStep(g0, g, h, r, c, p, q, order, from, next, nextFrom);
    order', from' := order + next, Graft(from, nextFrom);
  }

  /** After all eight neighbours the zero (r, c) is settled as well. */
  lemma FillDone(g0: Grid, g: Grid, r: int, c: int, order: seq<(int, int)>, from: seq<int>)
    requires IsGrid(g0) && IsGrid(g) && FillProgress(g0, g, r, c, |Offsets|, order, from)
    ensures FloodFilled(g0, g, r, c)
  {
    SettledFromOffsets(g, r, c);
    assert g[r][c] == g0[r][c].(isRevealed := true);
  }

  /** A target the fill cannot enter leaves the board as it is. */
  lemma LeftAlone(g: Grid, r: int, c: int)
    requires IsGrid(g) && !Enterable(g, r, c)
    ensures FloodFilled(g, g, r, c)
  {
    NothingRevealed(g, r, c);
  }

  /** A target that does not show 0 is revealed alone. */
  lemma RevealedAlone(g: Grid, g': Grid, r: int, c: int)
    requires IsGrid(g) && IsGrid(g') && Enterable(g, r, c) && g[r][c].displayNum != Some(0)
    requires g' == g[r := g[r][c := g[r][c].(isRevealed := true)]]
    ensures FloodFilled(g, g', r, c)
  {
    RevealOne(g, g', r, c);
    OnlyTargetRevealed(g, g', r, c);
    TargetRevealed(g, g', r, c);
  }

  lemma RevealsOnlyTrans(g: Grid, h: Grid, k: Grid)
    requires IsGrid(g) && IsGrid(h) && IsGrid(k)
    requires RevealsOnly(g, h) && RevealsOnly(h, k)
    ensures RevealsOnly(g, k)
  {
  }

  /** Revealing never hides a tile again. */
  lemma RevealsOnlyHidden(g: Grid, h: Grid)
    requires IsGrid(g) && IsGrid(h) && RevealsOnly(g, h)
    ensures HiddenCells(h) <= HiddenCells(g)
  {
  }

  /** A tile the fill would not enter stays that way. */
  lemma RevealsKeepSettled(g: Grid, h: Grid)
    requires IsGrid(g) && IsGrid(h) && RevealsOnly(g, h)
    ensures forall p, q :: !Enterable(g, p, q) ==> !Enterable(h, p, q)
  {
  }

  /** One recursive call keeps the closure property of the tiles revealed so far. */
  lemma ZeroClosedStep(g0: Grid, g: Grid, h: Grid, r: int, c: int)
    requires IsGrid(g0) && IsGrid(g) && IsGrid(h)
    requires RevealsOnly(g0, g) && RevealsOnly(g, h)
    requires ZeroClosedExcept(g0, g, r, c) && ZeroClosed(g, h)
    ensures ZeroClosedExcept(g0, h, r, c)
  {
    RevealsKeepSettled(g, h);
    forall i, j | NewlyRevealed(g0, h, i, j) && (i != r || j != c) && h[i][j].displayNum == Some(0)
      ensures NeighborsSettled(h, i, j)
    {
      if !NewlyRevealed(g0, g, i, j) {
        assert NewlyRevealed(g, h, i, j);
      }
    }
  }

  /** The eight offsets reach every neighbour. */
  lemma SettledFromOffsets(g: Grid, r: int, c: int)
    requires IsGrid(g)
    requires forall m :: 0 <= m < |Offsets| ==> !Enterable(g, r + Offsets[m].0, c + Offsets[m].1)
    ensures NeighborsSettled(g, r, c)
  {
    forall p, q | Adjacent(r, c, p, q) ensures !Enterable(g, p, q) {
      var m := if p == r - 1 && q == c then 0
               else if p == r - 1 && q == c + 1 then 1
               else if p == r - 1 then 2
               else if p == r + 1 && q == c then 3
               else if p == r + 1 && q == c + 1 then 4
               else if p == r + 1 then 5
               else if q == c + 1 then 6
               else 7;
      assert p == r + Offsets[m].0 && q == c + Offsets[m].1;
    }
  }

  /** The places the listed tiles say they are at. */
  ghost function Coordinates(spots: seq<Tile>): set<(int, int)> {
    set t | t in spots :: (t.row, t.column)
  }

  /** Every tile carries its own row and column, as instantiateSafeBoard made it. */
  ghost predicate WellIndexed(g: Grid)
    requires IsGrid(g)
  {
    forall i, j :: InBounds(g, i, j) ==> g[i][j].row == i && g[i][j].column == j
  }

  // ---------------------------------------------------------------------------
  // isBombSpot
  // ---------------------------------------------------------------------------

  /** isBombSpot: `!board[row][column].isSafe`. */
  function IsBombSpot(board: Grid, row: int, column: int): (isBomb: bool)
    requires IsGrid(board) && InBounds(board, row, column)
    ensures isBomb <==> (row, column) in MineCells(board)
  {
    !Safe(board[row][column])
  }

  // ---------------------------------------------------------------------------
  // generateSanitizedBoard
  // ---------------------------------------------------------------------------

  /** What a client may see of one tile. */
  function SanitizeTile(t: Tile): Tile {
    if t.isRevealed then t else t.(displayNum := None, isSafe := None)
  }

  /** The client's view of a board: revealed tiles exactly as they are; hidden tiles
      without their bomb flag and number, everything else kept. */
  function Sanitize(g: Grid): (s: Grid)
    ensures |s| == |g| && forall i :: 0 <= i < |g| ==> |s[i]| == |g[i]|
    ensures forall i, j :: 0 <= i < |g| && 0 <= j < |g[i]| && g[i][j].isRevealed ==> s[i][j] == g[i][j]
    ensures forall i, j :: 0 <= i < |g| && 0 <= j < |g[i]| && !g[i][j].isRevealed ==>
              && s[i][j].isSafe == None && s[i][j].displayNum == None && !s[i][j].isRevealed
              && s[i][j].row == g[i][j].row && s[i][j].column == g[i][j].column
  {
    seq(|g|, i requires 0 <= i < |g| => seq(|g[i]|, j requires 0 <= j < |g[i]| => SanitizeTile(g[i][j])))
  }

  /** Two boards with the same rows of the same lengths and the same tiles are equal. */
  lemma GridExtensionality(g: Grid, h: Grid)
    requires |g| == |h| && forall i :: 0 <= i < |g| ==> |g[i]| == |h[i]|
    requires forall i, j :: 0 <= i < |g| && 0 <= j < |g[i]| ==> g[i][j] == h[i][j]
    ensures g == h
  {
    forall i | 0 <= i < |g| ensures g[i] == h[i] {
      assert |g[i]| == |h[i]|;
    }
  }

  /** Sanitizing a sanitized board changes nothing. */
  lemma SanitizeIdempotent(g: Grid)
    ensures Sanitize(Sanitize(g)) == Sanitize(g)
  {
    GridExtensionality(Sanitize(Sanitize(g)), Sanitize(g));
  }

  /** generateSanitizedBoard: works on a copy (the value `board` is never changed)
      and erases `displayNum` and `isSafe` on every hidden tile of the copy. */
  method GenerateSanitizedBoard(board: Grid) returns (sanitizedBoard: Grid)
    requires IsGrid(board)
    ensures sanitizedBoard == Sanitize(board)
  {
    sanitizedBoard := board;
    for row := 0 to |sanitizedBoard|
      invariant |sanitizedBoard| == |board| && forall i :: 0 <= i < |board| ==> |sanitizedBoard[i]| == |board[i]|
      invariant forall i, j :: InBounds(board, i, j) ==>
                  sanitizedBoard[i][j] == if i < row then SanitizeTile(board[i][j]) else board[i][j]
    {
      for column := 0 to Columns(sanitizedBoard)
        invariant |sanitizedBoard| == |board| && forall i :: 0 <= i < |board| ==> |sanitizedBoard[i]| == |board[i]|
        invariant forall i, j :: InBounds(board, i, j) ==>
                    sanitizedBoard[i][j] == if i < row || (i == row && j < column) then SanitizeTile(board[i][j]) else board[i][j]
      {
        var spot := sanitizedBoard[row][column];
        if !spot.isRevealed {
          sanitizedBoard := sanitizedBoard[row := sanitizedBoard[row][column := spot.(displayNum := None, isSafe := None)]];
        }
      }
    }
    GridExtensionality(sanitizedBoard, Sanitize(board));
  }

  // ---------------------------------------------------------------------------
  // getNumSafeSpotsLeft
  // ---------------------------------------------------------------------------

  /** The safe hidden cells before (r, c) in row-major order. */
  ghost function SafeHiddenBefore(g: Grid, r: int, c: int): set<(int, int)>
    requires IsGrid(g)
  {
    set i, j | 0 <= i < |g| && 0 <= j < Columns(g) && (i < r || (i == r && j < c))
                && Safe(g[i][j]) && !g[i][j].isRevealed :: (i, j)
  }

  lemma SafeHiddenBeforeNext(g: Grid, r: int, c: int)
    requires IsGrid(g) && InBounds(g, r, c)
    ensures SafeHiddenBefore(g, r, c + 1)
         == SafeHiddenBefore(g, r, c) + (if Safe(g[r][c]) && !g[r][c].isRevealed then {(r, c)} else {})
    ensures (r, c) !in SafeHiddenBefore(g, r, c)
  {
  }

  lemma SafeHiddenBeforeRow(g: Grid, r: int)
    requires IsGrid(g)
    ensures SafeHiddenBefore(g, r, Columns(g)) == SafeHiddenBefore(g, r + 1, 0)
    ensures SafeHiddenBefore(g, |g|, 0) == SafeHiddenCells(g)
  {
  }

  /** getNumSafeSpotsLeft: the number of safe tiles not yet revealed. */
  method GetNumSafeSpotsLeft(board: Grid) returns (numSpots: nat)
    requires IsGrid(board)
    ensures numSpots == |SafeHiddenCells(board)|
  {
    numSpots := 0;
    for row := 0 to |board|
      invariant numSpots == |SafeHiddenBefore(board, row, 0)|
    {
      for column := 0 to Columns(board)
        invariant numSpots == |SafeHiddenBefore(board, row, column)|
      {
        SafeHiddenBeforeNext(board, row, column);
        var spot := board[row][column];
        if spot.isSafe == Some(true) && !spot.isRevealed {
          numSpots := numSpots + 1;
        }
      }
      SafeHiddenBeforeRow(board, row);
    }
    SafeHiddenBeforeRow(board, |board|);
  }

  /** No safe spot is left exactly when every safe tile is revealed: the win signal. */
  lemma NoSafeSpotsLeftMeansCleared(g: Grid)
    requires IsGrid(g)
    ensures |SafeHiddenCells(g)| == 0 <==> forall i, j :: InBounds(g, i, j) && Safe(g[i][j]) ==> g[i][j].isRevealed
  {
    if |SafeHiddenCells(g)| == 0 {
      forall i, j | InBounds(g, i, j) && Safe(g[i][j]) ensures g[i][j].isRevealed {
        assert (i, j) !in SafeHiddenCells(g);
      }
    } else {
      var p :| p in SafeHiddenCells(g);
    }
  }

  // ---------------------------------------------------------------------------
  // getBombSpots
  // ---------------------------------------------------------------------------

  /** The tiles of g row after row. */
  function RowMajor(g: Grid): seq<Tile> {
    if |g| == 0 then [] else RowMajor(g[..|g| - 1]) + g[|g| - 1]
  }

  /** The bombs of s, in order. */
  function BombsIn(s: seq<Tile>): seq<Tile> {
    if |s| == 0 then [] else BombsIn(s[..|s| - 1]) + (if Safe(s[|s| - 1]) then [] else [s[|s| - 1]])
  }

  lemma {:induction false} BombsInConcat(s: seq<Tile>, t: seq<Tile>)
    ensures BombsIn(s + t) == BombsIn(s) + BombsIn(t)
  {
    if |t| == 0 {
      assert s + t == s;
    } else {
      assert (s + t)[..|s + t| - 1] == s + t[..|t| - 1];
      BombsInConcat(s, t[..|t| - 1]);
    }
  }

  /** getBombSpots: the bomb tiles, row after row, left to right. */
  method GetBombSpots(board: Grid) returns (bombSpots: seq<Tile>)
    requires IsGrid(board)
    ensures bombSpots == BombsIn(RowMajor(board))
  {
    bombSpots := [];
    for row := 0 to |board|
      invariant bombSpots == BombsIn(RowMajor(board[..row]))
    {
      for column := 0 to Columns(board)
        invariant bombSpots == BombsIn(RowMajor(board[..row])) + BombsIn(board[row][..column])
      {
        assert board[row][..column + 1][..column] == board[row][..column];
        var spot := board[row][column];
        if spot.isSafe != Some(true) {
          bombSpots := bombSpots + [spot];
        }
      }
      assert board[row][..Columns(board)] == board[row];
      assert board[..row + 1][..row] == board[..row];
      BombsInConcat(RowMajor(board[..row]), board[row]);
    }
    assert board[..|board|] == board;
  }

  lemma {:induction false} BombsInMembers(s: seq<Tile>)
    ensures forall t :: t in BombsIn(s) <==> t in s && !Safe(t)
  {
    if |s| > 0 {
      BombsInMembers(s[..|s| - 1]);
      assert s == s[..|s| - 1] + [s[|s| - 1]];
    }
  }

  lemma {:induction false} RowMajorMembers(g: Grid)
    requires IsGrid(g)
    ensures forall t :: t in RowMajor(g) <==> exists i, j :: InBounds(g, i, j) && g[i][j] == t
  {
    if |g| > 0 {
      var h := g[..|g| - 1];
      assert IsGrid(h) by {
        forall i | 0 <= i < |h| ensures |h[i]| == Columns(h) {
          assert |h| > 0 ==> Columns(h) == Columns(g);
        }
      }
      RowMajorMembers(h);
      forall t ensures t in RowMajor(g) <==> exists i, j :: InBounds(g, i, j) && g[i][j] == t {
        if t in RowMajor(h) {
          var i, j :| InBounds(h, i, j) && h[i][j] == t;
          assert InBounds(g, i, j) && g[i][j] == t;
        } else if t in g[|g| - 1] {
          var j :| 0 <= j < |g[|g| - 1]| && g[|g| - 1][j] == t;
          assert InBounds(g, |g| - 1, j);
        }
        if exists i, j :: InBounds(g, i, j) && g[i][j] == t {
          var i, j :| InBounds(g, i, j) && g[i][j] == t;
          if i < |g| - 1 {
            assert InBounds(h, i, j) && h[i][j] == t;
          } else {
            assert t in g[|g| - 1];
          }
        }
      }
    }
  }

  /** On a board whose tiles know their place, the spots getBombSpots lists are at
      exactly the bomb cells, so revealBombSpots reveals every bomb and nothing else. */
  lemma BombSpotsAreTheBombs(g: Grid)
    requires IsGrid(g) && WellIndexed(g)
    ensures Coordinates(BombsIn(RowMajor(g))) == MineCells(g)
    ensures forall t :: t in BombsIn(RowMajor(g)) ==> InBounds(g, t.row, t.column)
  {
    BombsInMembers(RowMajor(g));
    RowMajorMembers(g);
    forall p | p in MineCells(g) ensures p in Coordinates(BombsIn(RowMajor(g))) {
      var (i, j) := p;
      assert g[i][j] in RowMajor(g);
      assert g[i][j] in BombsIn(RowMajor(g));
    }
  }

  // ---------------------------------------------------------------------------
  // Room for the mines on a fresh board
  // ---------------------------------------------------------------------------

  ghost function Rect(rows: int, columns: int): set<(int, int)> {
    set i, j | 0 <= i < rows && 0 <= j < columns :: (i, j)
  }

  ghost function RowCells(r: int, columns: int): set<(int, int)> {
    set j | 0 <= j < columns :: (r, j)
  }

  lemma {:induction false} RowCellsSize(r: int, columns: nat)
    ensures |RowCells(r, columns)| == columns
  {
    if columns > 0 {
      RowCellsSize(r, columns - 1);
      assert RowCells(r, columns) == RowCells(r, columns - 1) + {(r, columns - 1)};
    }
  }

  lemma {:induction false} RectSize(rows: nat, columns: nat)
    ensures |Rect(rows, columns)| == rows * columns
  {
    if rows == 0 {
      assert Rect(rows, columns) == {};
    } else {
      RectSize(rows - 1, columns);
      RowCellsSize(rows - 1, columns);
      RectLastRow(rows, columns);
      assert (rows - 1) * columns + columns == rows * columns;
    }
  }

  lemma RectLastRow(rows: int, columns: int)
    requires rows > 0
    ensures Rect(rows, columns) == Rect(rows - 1, columns) + RowCells(rows - 1, columns)
    ensures Rect(rows - 1, columns) !! RowCells(rows - 1, columns)
  {
    forall p | p in Rect(rows, columns) ensures p in Rect(rows - 1, columns) + RowCells(rows - 1, columns) {
      var (i, j) := p;
      if i == rows - 1 {
        assert p in RowCells(rows - 1, columns);
      }
    }
  }

  lemma {:induction false} ElementsSize<T>(s: seq<T>)
    ensures |set x | x in s| <= |s|
  {
    if |s| > 0 {
      ElementsSize(s[1..]);
      assert (set x | x in s) == {s[0]} + (set x | x in s[1..]);
    }
  }

  /** The cells i, j with InZone(r, c, i, j). */
  ghost function Zone(r: int, c: int): set<(int, int)> {
    set i, j | r - 1 <= i <= r + 1 && c - 1 <= j <= c + 1 :: (i, j)
  }

  /** The 3x3 block around (r, c) has at most nine cells. */
  lemma ZoneSize(r: int, c: int)
    ensures |Zone(r, c)| <= 9
  {
    var block := [(r - 1, c - 1), (r - 1, c), (r - 1, c + 1),
                  (r, c - 1), (r, c), (r, c + 1),
                  (r + 1, c - 1), (r + 1, c), (r + 1, c + 1)];
    ElementsSize(block);
    var elements := set x | x in block;
    assert Zone(r, c) <= elements;
    assert elements == Zone(r, c) + (elements - Zone(r, c));
  }

  /** On a fresh rows x columns board every cell outside the clicked tile's block may
      take a mine, so at least rows * columns - 9 of them are available. */
  lemma SafeBoardHasRoom(g: Grid, rows: nat, columns: nat, r: int, c: int)
    requires IsSafeBoard(g, rows, columns)
    ensures IsGrid(g)
    ensures |CandidateCells(g, r, c)| >= rows * columns - 9
  {
    if rows == 0 {
      assert g == [];
      RectSize(rows, columns);
    } else {
      assert Columns(g) == columns;
      assert CandidateCells(g, r, c) == Rect(rows, columns) - Zone(r, c);
      RectSize(rows, columns);
      ZoneSize(r, c);
    }
  }

  /** A fresh board has no mines. */
  lemma SafeBoardHasNoMines(g: Grid, rows: nat, columns: nat)
    requires IsSafeBoard(g, rows, columns)
    ensures IsGrid(g) && MineCells(g) == {}
  {
    if rows > 0 {
      assert Columns(g) == columns;
    }
  }

  /** After mines are placed on a fresh board for a click at (r, c), the clicked
      tile and its neighbours are safe, so the clicked tile is numbered 0 and the
      first click always opens an area. */
  lemma FirstClickOpens(g: Grid, placed: Grid, rows: nat, columns: nat, r: int, c: int)
    requires IsSafeBoard(g, rows, columns) && IsGrid(placed) && InBounds(g, r, c)
    requires PlacesBombsOnly(g, placed, r, c)
    ensures forall i, j :: InBounds(placed, i, j) && InZone(r, c, i, j) ==> Safe(placed[i][j])
    ensures Safe(placed[r][c]) && CalculateDisplayNum(placed, r, c) == 0
  {
    assert Columns(g) == columns;
    forall i, j | InBounds(placed, i, j) && InZone(r, c, i, j) ensures Safe(placed[i][j]) {
      assert placed[i][j] == g[i][j];
    }
    DisplayNumCountsNeighborMines(placed, r, c);
    assert MineNeighbors(placed, r, c) == {};
  }
}
