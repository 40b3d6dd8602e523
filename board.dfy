/**
 * The 4x4 board of 2048 as a value, and the meaning of a whole move and of
 * placing a new tile on it.
 *
 * A move in direction d treats the board as four lines. Line i, offset j is
 * the cell Coord(d, i, j): offset 0 is the cell at the edge the tiles slide
 * toward. Every line is slid independently (LineMerge.Slide).
 */
module Board {
  import opened LineMerge

  /** The side of the board. */
  const BoardSize: nat := 4

  /** The chance that a new tile is a 4 rather than a 2 is 1 in this. */
  const ChanceToGet4Divider: nat := 8

  /** Row-major board contents; 0 is an empty cell. */
  type Grid = g: seq<seq<int>> | |g| == BoardSize && forall r :: 0 <= r < |g| ==> |g[r]| == BoardSize
    witness [[0, 0, 0, 0], [0, 0, 0, 0], [0, 0, 0, 0], [0, 0, 0, 0]]

  /** The four moves, in the order of their integer codes 0, 1, 2, 3. */
  datatype Direction = Up | Right | Down | Left

  /** The (row, column) cell at offset j of line i for a move in direction d. */
  function Coord(d: Direction, i: nat, j: nat): (rc: (nat, nat))
    requires i < BoardSize && j < BoardSize
    ensures rc.0 < BoardSize && rc.1 < BoardSize
  {
    match d
    case Up => (j, i)
    case Down => (BoardSize - j - 1, i)
    case Left => (i, j)
    case Right => (i, BoardSize - j - 1)
  }

  /** The (line, offset) pair of cell (r, c) for direction d: the inverse of Coord. */
  function Locate(d: Direction, r: nat, c: nat): (lo: (nat, nat))
    requires r < BoardSize && c < BoardSize
    ensures lo.0 < BoardSize && lo.1 < BoardSize
    ensures Coord(d, lo.0, lo.1) == (r, c)
  {
    match d
    case Up => (c, r)
    case Down => (c, BoardSize - r - 1)
    case Left => (r, c)
    case Right => (r, BoardSize - c - 1)
  }

  /** Coord and Locate are inverse both ways, so distinct (line, offset) pairs are distinct cells. */
  lemma LocateCoord(d: Direction, i: nat, j: nat)
    requires i < BoardSize && j < BoardSize
    ensures Locate(d, Coord(d, i, j).0, Coord(d, i, j).1) == (i, j)
  {
  }

  lemma CoordInjective(d: Direction, i: nat, j: nat, i': nat, j': nat)
    requires i < BoardSize && j < BoardSize && i' < BoardSize && j' < BoardSize
    ensures Coord(d, i, j) == Coord(d, i', j') <==> i == i' && j == j'
  {
    LocateCoord(d, i, j);
    LocateCoord(d, i', j');
  }

  function Cell(g: Grid, rc: (nat, nat)): (v: int)
    requires rc.0 < BoardSize && rc.1 < BoardSize
  {
    g[rc.0][rc.1]
  }

  /** Line i of g for direction d, read from the near edge. */
  function LineOf(g: Grid, d: Direction, i: nat): (s: seq<int>)
    requires i < BoardSize
    ensures |s| == BoardSize
    ensures forall j :: 0 <= j < BoardSize ==> s[j] == Cell(g, Coord(d, i, j))
  {
    seq(BoardSize, j requires 0 <= j < BoardSize => Cell(g, Coord(d, i, j)))
  }

  /** The board after a move in direction d: every line slid toward the near edge. */
  function MoveBoard(g: Grid, d: Direction): (h: Grid)
  {
    seq(BoardSize, r requires 0 <= r < BoardSize =>
      seq(BoardSize, c requires 0 <= c < BoardSize =>
        var lo := Locate(d, r, c);
        Slide(LineOf(g, d, lo.0))[lo.1]))
  }

  /** The points scored by the first n lines of a move. */
  function LinesScore(g: Grid, d: Direction, n: nat): (score: int)
    requires n <= BoardSize
  {
    if n == 0 then 0 else LinesScore(g, d, n - 1) + SlideScore(LineOf(g, d, n - 1))
  }

  /** The points a move in direction d scores. */
  function MoveScore(g: Grid, d: Direction): (score: int)
  {
    LinesScore(g, d, BoardSize)
  }

  /** g with the cell (r, c) set to v. */
  function Place(g: Grid, r: nat, c: nat, v: int): (g': Grid)
    requires r < BoardSize && c < BoardSize
    ensures g'[r][c] == v
  {
    g[r := g[r][c := v]]
  }

  /** Placing a value leaves every other cell as it was. */
  lemma PlaceOthers(g: Grid, r: nat, c: nat, v: int)
    requires r < BoardSize && c < BoardSize
    ensures forall r', c' :: 0 <= r' < BoardSize && 0 <= c' < BoardSize && (r', c') != (r, c) ==>
      Place(g, r, c, v)[r'][c'] == g[r'][c']
  {
  }

  /** The value of a new tile, given the roll of a die with ChanceToGet4Divider faces. */
  function SpawnValue(roll: int): (v: int)
    ensures v == 2 || v == 4
    ensures v == 4 <==> roll == 0
  {
    if roll == 0 then 4 else 2
  }

  /** Every cell is empty or holds a power of two at least 2. */
  predicate AllTiles(g: Grid)
  {
    forall r, c :: 0 <= r < BoardSize && 0 <= c < BoardSize ==> IsCell(g[r][c])
  }

  /** The empty board the game starts from. */
  function EmptyGrid(): (g: Grid)
    ensures forall r, c :: 0 <= r < BoardSize && 0 <= c < BoardSize ==> g[r][c] == 0
  {
    seq(BoardSize, _ => seq(BoardSize, _ => 0))
  }

  // ---------------------------------------------------------------------
  // Lines of a moved board
  // ---------------------------------------------------------------------

  /** After a move, line i of the board is the slide of the old line i. */
  lemma MoveLine(g: Grid, d: Direction, i: nat)
    requires i < BoardSize
    ensures LineOf(MoveBoard(g, d), d, i) == Slide(LineOf(g, d, i))
  {
    forall j | 0 <= j < BoardSize
      ensures LineOf(MoveBoard(g, d), d, i)[j] == Slide(LineOf(g, d, i))[j]
    {
      LocateCoord(d, i, j);
    }
  }

  /**
   * The per-line promises of a move: its tiles are contiguous at the near
   * edge, their sum is unchanged, and the tile count drops by the merges.
   */
  lemma MoveLineProperties(g: Grid, d: Direction, i: nat)
    requires i < BoardSize
    ensures IsCompacted(LineOf(MoveBoard(g, d), d, i))
    ensures Sum(LineOf(MoveBoard(g, d), d, i)) == Sum(LineOf(g, d, i))
    ensures CountTiles(LineOf(MoveBoard(g, d), d, i)) == CountTiles(LineOf(g, d, i)) - Merges(NonZero(LineOf(g, d, i)))
  {
    MoveLine(g, d, i);
    SlideCompacted(LineOf(g, d, i));
    SlideConservesSum(LineOf(g, d, i));
    SlideCountsMerges(LineOf(g, d, i));
  }

  /** Every cell lies on exactly one line for each direction. */
  lemma AllTilesLines(g: Grid, d: Direction)
    ensures AllTiles(g) <==> forall i :: 0 <= i < BoardSize ==> AllCells(LineOf(g, d, i))
  {
    if forall i :: 0 <= i < BoardSize ==> AllCells(LineOf(g, d, i)) {
      forall r, c | 0 <= r < BoardSize && 0 <= c < BoardSize ensures IsCell(g[r][c]) {
        var lo := Locate(d, r, c);
        assert LineOf(g, d, lo.0)[lo.1] == g[r][c];
      }
    }
  }

  // ---------------------------------------------------------------------
  // Powers of two and the score
  // ---------------------------------------------------------------------

  /** A move keeps every cell empty or a power of two at least 2. */
  lemma MoveKeepsTiles(g: Grid, d: Direction)
    requires AllTiles(g)
    ensures AllTiles(MoveBoard(g, d))
  {
    AllTilesLines(g, d);
    forall i | 0 <= i < BoardSize ensures AllCells(LineOf(MoveBoard(g, d), d, i)) {
      MoveLine(g, d, i);
      SlideCells(LineOf(g, d, i));
    }
    AllTilesLines(MoveBoard(g, d), d);
  }

  lemma {:induction false} LinesScoreNonNegative(g: Grid, d: Direction, n: nat)
    requires n <= BoardSize
    requires forall i :: 0 <= i < BoardSize ==> AllCells(LineOf(g, d, i))
    ensures LinesScore(g, d, n) >= 0
  {
    if n > 0 {
      LinesScoreNonNegative(g, d, n - 1);
      SlideScoreBounds(LineOf(g, d, n - 1));
    }
  }

  /** On a legal board a move never lowers the score. */
  lemma MoveScoreNonNegative(g: Grid, d: Direction)
    requires AllTiles(g)
    ensures MoveScore(g, d) >= 0
  {
    AllTilesLines(g, d);
    LinesScoreNonNegative(g, d, BoardSize);
  }

  /** On legal lines the first n lines score nothing exactly when none of them merges. */
  lemma {:induction false} LinesScoreZero(g: Grid, d: Direction, n: nat)
    requires n <= BoardSize
    requires forall i :: 0 <= i < BoardSize ==> AllCells(LineOf(g, d, i))
    ensures LinesScore(g, d, n) == 0 <==> forall i :: 0 <= i < n ==> Merges(NonZero(LineOf(g, d, i))) == 0
  {
    if n > 0 {
      LinesScoreZero(g, d, n - 1);
      LinesScoreNonNegative(g, d, n - 1);
      SlideScoreBounds(LineOf(g, d, n - 1));
    }
  }

  /** On a legal board a move scores nothing exactly when no line has a merge. */
  lemma MoveScoreZero(g: Grid, d: Direction)
    requires AllTiles(g)
    ensures MoveScore(g, d) == 0 <==> forall i :: 0 <= i < BoardSize ==> Merges(NonZero(LineOf(g, d, i))) == 0
  {
    AllTilesLines(g, d);
    LinesScoreZero(g, d, BoardSize);
  }

  /** A new tile of value 2 or 4 on a legal board leaves it legal. */
  lemma PlaceKeepsTiles(g: Grid, r: nat, c: nat, roll: int)
    requires r < BoardSize && c < BoardSize
    requires AllTiles(g)
    ensures AllTiles(Place(g, r, c, SpawnValue(roll)))
  {
    assert IsPow2(4) by { assert IsPow2(4 / 2); }
  }

  // ---------------------------------------------------------------------
  // No-op moves
  // ---------------------------------------------------------------------

  /** Two boards are equal when all their lines for one direction are. */
  lemma GridFromLines(g: Grid, h: Grid, d: Direction)
    requires forall i :: 0 <= i < BoardSize ==> LineOf(g, d, i) == LineOf(h, d, i)
    ensures g == h
  {
    forall r | 0 <= r < BoardSize ensures g[r] == h[r] {
      forall c | 0 <= c < BoardSize ensures g[r][c] == h[r][c] {
        var lo := Locate(d, r, c);
        assert LineOf(g, d, lo.0)[lo.1] == LineOf(h, d, lo.0)[lo.1];
      }
    }
  }

  /**
   * A move changes nothing exactly when every line is already compacted and
   * has no tile with an equal neighbour; such a move scores nothing.
   */
  lemma MoveNoOp(g: Grid, d: Direction)
    ensures MoveBoard(g, d) == g <==>
      forall i :: 0 <= i < BoardSize ==> IsCompacted(LineOf(g, d, i)) && NoEqualNeighbours(LineOf(g, d, i))
    ensures MoveBoard(g, d) == g ==> MoveScore(g, d) == 0
  {
    forall i | 0 <= i < BoardSize
      ensures LineOf(MoveBoard(g, d), d, i) == LineOf(g, d, i)
          <==> IsCompacted(LineOf(g, d, i)) && NoEqualNeighbours(LineOf(g, d, i))
    {
      MoveLine(g, d, i);
      SlideFixpoint(LineOf(g, d, i));
    }
    if forall i :: 0 <= i < BoardSize ==> IsCompacted(LineOf(g, d, i)) && NoEqualNeighbours(LineOf(g, d, i)) {
      GridFromLines(MoveBoard(g, d), g, d);
    }
    if MoveBoard(g, d) == g {
      NoOpScore(g, d, BoardSize);
    }
  }

  lemma {:induction false} NoOpScore(g: Grid, d: Direction, n: nat)
    requires n <= BoardSize
    requires forall i :: 0 <= i < BoardSize ==> IsCompacted(LineOf(g, d, i)) && NoEqualNeighbours(LineOf(g, d, i))
    ensures LinesScore(g, d, n) == 0
  {
    if n > 0 {
      NoOpScore(g, d, n - 1);
      SlideFixpoint(LineOf(g, d, n - 1));
    }
  }

  /**
   * Repeating a move with no new tile in between changes the board exactly
   * when the first move left some tile next to an equal one.
   */
  lemma MoveTwice(g: Grid, d: Direction)
    ensures MoveBoard(MoveBoard(g, d), d) == MoveBoard(g, d) <==>
      forall i :: 0 <= i < BoardSize ==> NoEqualNeighbours(LineOf(MoveBoard(g, d), d, i))
  {
    var h := MoveBoard(g, d);
    forall i | 0 <= i < BoardSize ensures IsCompacted(LineOf(h, d, i)) {
      MoveLineProperties(g, d, i);
    }
    MoveNoOp(h, d);
  }

  // ---------------------------------------------------------------------
  // A whole-board example
  // ---------------------------------------------------------------------

  const RightExample: Grid := [[0, 2, 0, 2], [0, 0, 0, 0], [0, 0, 0, 0], [0, 0, 0, 0]]

  /** The top row [0, 2, 0, 2] moved right becomes [0, 0, 0, 4]. */
  lemma MoveRightExample()
    ensures MoveBoard(RightExample, Right)[0] == [0, 0, 0, 4]
  {
    assert LineOf(RightExample, Right, 0) == [2, 0, 2, 0];
    SlideSpacedPair();
    MoveLine(RightExample, Right, 0);
  }

  /** That move scores 4: only the top row merges. */
  lemma MoveRightExampleScore()
    ensures MoveScore(RightExample, Right) == 4
  {
    assert LineOf(RightExample, Right, 0) == [2, 0, 2, 0];
    SlideSpacedPair();
    forall i | 1 <= i < BoardSize ensures SlideScore(LineOf(RightExample, Right, i)) == 0 {
      assert LineOf(RightExample, Right, i) == [0, 0, 0, 0];
      AllZero([0, 0, 0, 0]);
    }
  }
}
