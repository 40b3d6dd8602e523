/**
 * The game state of 2048: a 4x4 board of cells updated in place and the
 * running score, with the move engine and the tile spawner.
 */
module Game {
  import opened LineMerge
  import opened Board

  datatype Option<T> = None | Some(value: T)

  /** The move selected by a key of the main loop; any other key is ignored. */
  function KeyDirection(key: char): (d: Option<Direction>)
    ensures d.None? <==> key !in {'w', 's', 'a', 'd'}
    ensures d == Some(Up) <==> key == 'w'
    ensures d == Some(Down) <==> key == 's'
    ensures d == Some(Left) <==> key == 'a'
    ensures d == Some(Right) <==> key == 'd'
  {
    match key
    case 'w' => Some(Up)
    case 's' => Some(Down)
    case 'a' => Some(Left)
    case 'd' => Some(Right)
    case _ => None
  }

  /**
   * The cell at offset k of a line part-way through a move: the first |m|
   * offsets hold the merged tiles m, offsets up to j have been emptied, and
   * offsets from j on still hold the old line.
   */
  function InLine(line: seq<int>, m: seq<int>, j: nat, k: nat): (v: int)
    requires k < |line|
  {
    if k < |m| then m[k] else if k < j then 0 else line[k]
  }

  /**
   * What cell (r, c) holds while a move in direction d from board g0 toward
   * board g1 is at offset j of line i (whose old contents are line), having
   * placed the merged tiles m: the lines before i are done, the lines after
   * i untouched.
   */
  function Expected(g0: Grid, g1: Grid, line: seq<int>, d: Direction, i: nat, j: nat, m: seq<int>, r: nat, c: nat): (v: int)
    requires |line| == BoardSize && r < BoardSize && c < BoardSize
  {
    var lo := Locate(d, r, c);
    if lo.0 < i then g1[r][c]
    else if lo.0 > i then g0[r][c]
    else InLine(line, m, j, lo.1)
  }

  ghost predicate Progress(g: Grid, g0: Grid, g1: Grid, line: seq<int>, d: Direction, i: nat, j: nat, m: seq<int>)
    requires |line| == BoardSize
  {
    forall r, c {:trigger Expected(g0, g1, line, d, i, j, m, r, c)} ::
      0 <= r < BoardSize && 0 <= c < BoardSize ==> g[r][c] == Expected(g0, g1, line, d, i, j, m, r, c)
  }

  lemma ProgressStart(g0: Grid, g1: Grid, d: Direction)
    ensures Progress(g0, g0, g1, LineOf(g0, d, 0), d, 0, 0, [])
  {
    var line := LineOf(g0, d, 0);
    forall r, c | 0 <= r < BoardSize && 0 <= c < BoardSize
      ensures g0[r][c] == Expected(g0, g1, line, d, 0, 0, [], r, c)
    {
      var lo := Locate(d, r, c);
      if lo.0 == 0 {
        assert line[lo.1] == g0[r][c];
      }
    }
  }

  lemma ProgressAt(g: Grid, g0: Grid, g1: Grid, line: seq<int>, d: Direction, i: nat, j: nat, m: seq<int>, k: nat)
    requires |line| == BoardSize && i < BoardSize && k < BoardSize
    requires Progress(g, g0, g1, line, d, i, j, m)
    ensures Cell(g, Coord(d, i, k)) == InLine(line, m, j, k)
  {
    LocateCoord(d, i, k);
    var rc := Coord(d, i, k);
    assert g[rc.0][rc.1] == Expected(g0, g1, line, d, i, j, m, rc.0, rc.1);
  }

  /** An empty cell at offset j is passed over. */
  lemma ProgressSkip(g: Grid, g0: Grid, g1: Grid, line: seq<int>, d: Direction, i: nat, j: nat, m: seq<int>)
    requires |line| == BoardSize && j < BoardSize && |m| <= j
    requires Progress(g, g0, g1, line, d, i, j, m)
    requires line[j] == 0
    ensures Progress(g, g0, g1, line, d, i, j + 1, m)
  {
    forall r, c | 0 <= r < BoardSize && 0 <= c < BoardSize
      ensures g[r][c] == Expected(g0, g1, line, d, i, j + 1, m, r, c)
    {
      assert g[r][c] == Expected(g0, g1, line, d, i, j, m, r, c);
    }
  }

  lemma InLineMerge(line: seq<int>, m: seq<int>, j: nat, x: int, k: nat)
    requires k < |line| && 0 < |m| <= j
    ensures InLine(line, MergeStep(m, true, x), j + 1, k) ==
      if k == |m| - 1 then 2 * x else if k == j then 0 else InLine(line, m, j, k)
  {
  }

  lemma InLinePush(line: seq<int>, m: seq<int>, j: nat, x: int, k: nat)
    requires k < |line| && |m| <= j
    ensures InLine(line, MergeStep(m, false, x), j + 1, k) ==
      if k == |m| then x else if k == j then 0 else InLine(line, m, j, k)
  {
  }

  /** The tile x at offset j merges into the last placed tile, which doubles; its own cell is emptied. */
  lemma ProgressMerge(g: Grid, g0: Grid, g1: Grid, line: seq<int>, d: Direction, i: nat, j: nat, m: seq<int>, x: int)
    requires |line| == BoardSize && i < BoardSize && j < BoardSize && 0 < |m| <= j
    requires Progress(g, g0, g1, line, d, i, j, m)
    requires line[j] == x
    ensures var a, b := Coord(d, i, |m| - 1), Coord(d, i, j);
      Progress(Place(Place(g, a.0, a.1, 2 * x), b.0, b.1, 0), g0, g1, line, d, i, j + 1, MergeStep(m, true, x))
  {
    var a, b := Coord(d, i, |m| - 1), Coord(d, i, j);
    var g' := Place(Place(g, a.0, a.1, 2 * x), b.0, b.1, 0);
    var m' := MergeStep(m, true, x);
    LocateCoord(d, i, |m| - 1);
    LocateCoord(d, i, j);
    forall r, c | 0 <= r < BoardSize && 0 <= c < BoardSize
      ensures g'[r][c] == Expected(g0, g1, line, d, i, j + 1, m', r, c)
    {
      var lo := Locate(d, r, c);
      assert g[r][c] == Expected(g0, g1, line, d, i, j, m, r, c);
      if lo.0 == i {
        InLineMerge(line, m, j, x, lo.1);
        if lo.1 == j {
          assert (r, c) == b;
        } else if lo.1 == |m| - 1 {
          assert (r, c) == a;
        } else {
          assert (r, c) != a && (r, c) != b;
        }
      } else {
        assert (r, c) != a && (r, c) != b;
      }
    }
  }

  /** The tile x at offset j moves to the write cursor at offset |m|. */
  lemma ProgressPush(g: Grid, g0: Grid, g1: Grid, line: seq<int>, d: Direction, i: nat, j: nat, m: seq<int>, x: int)
    requires |line| == BoardSize && i < BoardSize && j < BoardSize && |m| <= j
    requires Progress(g, g0, g1, line, d, i, j, m)
    requires line[j] == x
    ensures var a, b := Coord(d, i, j), Coord(d, i, |m|);
      Progress(Place(Place(g, a.0, a.1, 0), b.0, b.1, x), g0, g1, line, d, i, j + 1, MergeStep(m, false, x))
  {
    var a, b := Coord(d, i, j), Coord(d, i, |m|);
    var g' := Place(Place(g, a.0, a.1, 0), b.0, b.1, x);
    var m' := MergeStep(m, false, x);
    LocateCoord(d, i, |m|);
    LocateCoord(d, i, j);
    forall r, c | 0 <= r < BoardSize && 0 <= c < BoardSize
      ensures g'[r][c] == Expected(g0, g1, line, d, i, j + 1, m', r, c)
    {
      var lo := Locate(d, r, c);
      assert g[r][c] == Expected(g0, g1, line, d, i, j, m, r, c);
      if lo.0 == i {
        InLinePush(line, m, j, x, lo.1);
        if lo.1 == |m| {
          assert (r, c) == b;
        } else if lo.1 == j {
          assert (r, c) == a;
        } else {
          assert (r, c) != a && (r, c) != b;
        }
      } else {
        assert (r, c) != a && (r, c) != b;
      }
    }
  }

  /** Two boards in progress on the same line i agree on every cell outside line i. */
  lemma ProgressOffLine(g: Grid, h: Grid, g0: Grid, g1: Grid, line: seq<int>, d: Direction, i: nat, j: nat, m: seq<int>, j': nat, m': seq<int>)
    requires |line| == BoardSize
    requires Progress(g, g0, g1, line, d, i, j, m) && Progress(h, g0, g1, line, d, i, j', m')
    ensures forall r, c :: 0 <= r < BoardSize && 0 <= c < BoardSize && Locate(d, r, c).0 != i ==> g[r][c] == h[r][c]
  {
    forall r, c | 0 <= r < BoardSize && 0 <= c < BoardSize && Locate(d, r, c).0 != i
      ensures g[r][c] == h[r][c]
    {
      assert g[r][c] == Expected(g0, g1, line, d, i, j, m, r, c);
      assert h[r][c] == Expected(g0, g1, line, d, i, j', m', r, c);
    }
  }

  /** A cell of line i once the line has been scanned to its end holds what the move leaves there. */
  lemma LineDone(g0: Grid, d: Direction, i: nat, r: nat, c: nat)
    requires r < BoardSize && c < BoardSize && Locate(d, r, c).0 == i
    ensures InLine(LineOf(g0, d, i), Merge(NonZero(LineOf(g0, d, i))), BoardSize, Locate(d, r, c).1) == MoveBoard(g0, d)[r][c]
  {
  }

  /** Once line i has been scanned to its end it holds its slide, and line i + 1 starts. */
  lemma ProgressNextLine(g: Grid, g0: Grid, d: Direction, i: nat)
    requires i + 1 < BoardSize
    requires Progress(g, g0, MoveBoard(g0, d), LineOf(g0, d, i), d, i, BoardSize, Merge(NonZero(LineOf(g0, d, i))))
    ensures Progress(g, g0, MoveBoard(g0, d), LineOf(g0, d, i + 1), d, i + 1, 0, [])
  {
    var line, line' := LineOf(g0, d, i), LineOf(g0, d, i + 1);
    var g1 := MoveBoard(g0, d);
    forall r, c | 0 <= r < BoardSize && 0 <= c < BoardSize
      ensures g[r][c] == Expected(g0, g1, line', d, i + 1, 0, [], r, c)
    {
      assert g[r][c] == Expected(g0, g1, line, d, i, BoardSize, Merge(NonZero(line)), r, c);
      var lo := Locate(d, r, c);
      if lo.0 == i {
        LineDone(g0, d, i, r, c);
      } else if lo.0 == i + 1 {
        assert line'[lo.1] == g0[r][c];
      }
    }
  }

  /** Once the last line has been scanned to its end the board is the moved board. */
  lemma ProgressDone(g: Grid, g0: Grid, d: Direction)
    requires Progress(g, g0, MoveBoard(g0, d), LineOf(g0, d, BoardSize - 1), d, BoardSize - 1, BoardSize,
                      Merge(NonZero(LineOf(g0, d, BoardSize - 1))))
    ensures g == MoveBoard(g0, d)
  {
    var g1 := MoveBoard(g0, d);
    forall r | 0 <= r < BoardSize ensures g[r] == g1[r] {
      forall c | 0 <= c < BoardSize ensures g[r][c] == g1[r][c] {
        var line := LineOf(g0, d, BoardSize - 1);
        assert g[r][c] == Expected(g0, g1, line, d, BoardSize - 1, BoardSize, Merge(NonZero(line)), r, c);
        if Locate(d, r, c).0 == BoardSize - 1 {
          LineDone(g0, d, BoardSize - 1, r, c);
        }
      }
    }
  }

  /**
   * Where the pass of a move over line i stands after offsets 0 to j - 1,
   * with g the board and score the score at that point: the write cursor
   * emptyJ is where the next tile goes, and lastRef is the cell of the last
   * tile placed while that tile may still merge, which it may only once;
   * base is the score before the line.
   */
  ghost predicate ScanState(g: Grid, score: int, g0: Grid, d: Direction, i: nat, j: nat,
                            lastRef: Option<(nat, nat)>, emptyJ: nat, base: int)
  {
    i < BoardSize && j <= BoardSize &&
    var line := LineOf(g0, d, i);
    var tiles := NonZero(line[..j]);
    emptyJ == |Merge(tiles)| <= j &&
    lastRef == (if Open(tiles) then Some(Coord(d, i, emptyJ - 1)) else None) &&
    Progress(g, g0, MoveBoard(g0, d), line, d, i, j, Merge(tiles)) &&
    score == base + MergeScore(tiles)
  }

  /** The facts every step starts from: the cell at offset j holds the line's entry j and lastRef holds the last merged tile. */
  lemma ScanFacts(g: Grid, score: int, g0: Grid, d: Direction, i: nat, j: nat, lastRef: Option<(nat, nat)>, emptyJ: nat, base: int)
    requires j < BoardSize && ScanState(g, score, g0, d, i, j, lastRef, emptyJ, base)
    ensures var line := LineOf(g0, d, i); var tiles := NonZero(line[..j]);
      Cell(g, Coord(d, i, j)) == line[j] &&
      NonZero(line[..j + 1]) == (if line[j] != 0 then tiles + [line[j]] else tiles) &&
      (lastRef.Some? ==> Open(tiles) && Cell(g, lastRef.value) == Last(Merge(tiles)))
  {
    var line := LineOf(g0, d, i);
    var tiles := NonZero(line[..j]);
    ProgressAt(g, g0, MoveBoard(g0, d), line, d, i, j, Merge(tiles), j);
    assert line[..j + 1] == line[..j] + [line[j]];
    NonZeroSnoc(line[..j], line[j]);
    if lastRef.Some? {
      ProgressAt(g, g0, MoveBoard(g0, d), line, d, i, j, Merge(tiles), emptyJ - 1);
    }
  }

  /** An empty cell at offset j is passed over. */
  lemma ScanSkip(g: Grid, score: int, g0: Grid, d: Direction, i: nat, j: nat, lastRef: Option<(nat, nat)>, emptyJ: nat, base: int)
    requires j < BoardSize && ScanState(g, score, g0, d, i, j, lastRef, emptyJ, base)
    requires Cell(g, Coord(d, i, j)) == 0
    ensures ScanState(g, score, g0, d, i, j + 1, lastRef, emptyJ, base)
  {
    var line := LineOf(g0, d, i);
    ScanFacts(g, score, g0, d, i, j, lastRef, emptyJ, base);
    ProgressSkip(g, g0, MoveBoard(g0, d), line, d, i, j, Merge(NonZero(line[..j])));
  }

  /** A tile at offset j equal to the last placed tile, which may still merge, merges into it. */
  lemma ScanMerge(g: Grid, score: int, g0: Grid, d: Direction, i: nat, j: nat, lastRef: Option<(nat, nat)>, emptyJ: nat, base: int)
    requires j < BoardSize && ScanState(g, score, g0, d, i, j, lastRef, emptyJ, base)
    requires Cell(g, Coord(d, i, j)) != 0 && lastRef.Some? && Cell(g, lastRef.value) == Cell(g, Coord(d, i, j))
    ensures var num, from, into := Cell(g, Coord(d, i, j)), Coord(d, i, j), lastRef.value;
      ScanState(Place(Place(g, into.0, into.1, num * 2), from.0, from.1, 0), score + num * 2,
                g0, d, i, j + 1, None, emptyJ, base)
  {
    var line := LineOf(g0, d, i);
    var tiles := NonZero(line[..j]);
    var num := line[j];
    ScanFacts(g, score, g0, d, i, j, lastRef, emptyJ, base);
    MergeSnoc(tiles, num);
    assert MergesWithLast(tiles, num);
    var tiles' := NonZero(line[..j + 1]);
    assert tiles' == tiles + [num];
    assert Merge(tiles') == MergeStep(Merge(tiles), true, num) && |Merge(tiles')| == emptyJ;
    assert !Open(tiles') && MergeScore(tiles') == MergeScore(tiles) + 2 * num;
    ProgressMerge(g, g0, MoveBoard(g0, d), line, d, i, j, Merge(tiles), num);
  }

  /** Any other tile at offset j moves to the write cursor and becomes the last placed tile. */
  lemma ScanPush(g: Grid, score: int, g0: Grid, d: Direction, i: nat, j: nat, lastRef: Option<(nat, nat)>, emptyJ: nat, base: int)
    requires j < BoardSize && ScanState(g, score, g0, d, i, j, lastRef, emptyJ, base)
    requires Cell(g, Coord(d, i, j)) != 0 && !(lastRef.Some? && Cell(g, lastRef.value) == Cell(g, Coord(d, i, j)))
    ensures emptyJ < BoardSize
    ensures var num, from, to := Cell(g, Coord(d, i, j)), Coord(d, i, j), Coord(d, i, emptyJ);
      ScanState(Place(Place(g, from.0, from.1, 0), to.0, to.1, num), score,
                g0, d, i, j + 1, Some(to), emptyJ + 1, base)
  {
    var line := LineOf(g0, d, i);
    var tiles := NonZero(line[..j]);
    var num := line[j];
    ScanFacts(g, score, g0, d, i, j, lastRef, emptyJ, base);
    MergeSnoc(tiles, num);
    assert !MergesWithLast(tiles, num);
    var tiles' := NonZero(line[..j + 1]);
    assert tiles' == tiles + [num];
    assert Merge(tiles') == MergeStep(Merge(tiles), false, num) && |Merge(tiles')| == emptyJ + 1;
    assert Open(tiles') && MergeScore(tiles') == MergeScore(tiles);
    ProgressPush(g, g0, MoveBoard(g0, d), line, d, i, j, Merge(tiles), num);
  }

  class GameState {
    var board: array2<int>
    var score: int
    /** The board's contents as a value. */
    ghost var Cells: Grid

    ghost predicate Valid()
      reads this`board, this`Cells, board
    {
      board.Length0 == BoardSize && board.Length1 == BoardSize &&
      forall r, c :: 0 <= r < BoardSize && 0 <= c < BoardSize ==> board[r, c] == Cells[r][c]
    }

    /** A new game: an empty board and no points. */
    constructor ()
      ensures Valid() && fresh(board)
      ensures Cells == EmptyGrid() && score == 0
    {
      board := new int[BoardSize, BoardSize]((r, c) => 0);
      score := 0;
      Cells := EmptyGrid();
    }

    /** Writes v to the cell the reference rc points to. */
    method Store(rc: (nat, nat), v: int)
      requires Valid() && rc.0 < BoardSize && rc.1 < BoardSize
      modifies this`Cells, board
      ensures Valid()
      ensures Cells == Place(old(Cells), rc.0, rc.1, v)
    {
      board[rc.0, rc.1] := v;
      Cells := Place(Cells, rc.0, rc.1, v);
    }

    /** The tile num at from merges into the equal tile at into, which doubles and scores. */
    method MergeTiles(from: (nat, nat), into: (nat, nat), num: int)
      requires Valid() && from.0 < BoardSize && from.1 < BoardSize && into.0 < BoardSize && into.1 < BoardSize
      modifies this`score, this`Cells, board
      ensures Valid()
      ensures Cells == Place(Place(old(Cells), into.0, into.1, num * 2), from.0, from.1, 0)
      ensures score == old(score) + num * 2
    {
      Store(into, num * 2);
      score := score + num * 2;
      Store(from, 0);
    }

    /** The tile num at from moves to the empty cell at to. */
    method ShiftTile(from: (nat, nat), to: (nat, nat), num: int)
      requires Valid() && from.0 < BoardSize && from.1 < BoardSize && to.0 < BoardSize && to.1 < BoardSize
      modifies this`Cells, board
      ensures Valid()
      ensures Cells == Place(Place(old(Cells), from.0, from.1, 0), to.0, to.1, num)
    {
      Store(from, 0);
      Store(to, num);
    }

    /**
     * Slides every line toward the edge d points to, merging equal
     * neighbours pairwise from that edge, and adds the merged values to the
     * score.
     */
    method Move(d: Direction)
      requires Valid()
      modifies this`score, this`Cells, board
      ensures Valid()
      ensures Cells == MoveBoard(old(Cells), d)
      ensures score == old(score) + MoveScore(old(Cells), d)
      ensures AllTiles(old(Cells)) ==> AllTiles(Cells) && score >= old(score)
    {
      ghost var g0 := Cells;
      ProgressStart(g0, MoveBoard(g0, d), d);
      for i := 0 to BoardSize
        invariant Valid()
        invariant i < BoardSize ==> Progress(Cells, g0, MoveBoard(g0, d), LineOf(g0, d, i), d, i, 0, [])
        invariant i == BoardSize ==> Cells == MoveBoard(g0, d)
        invariant score == old(score) + LinesScore(g0, d, i)
      {
        SlideLine(d, i, g0);
        if i + 1 < BoardSize {
          ProgressNextLine(Cells, g0, d, i);
        } else {
          ProgressDone(Cells, g0, d);
        }
      }
      if AllTiles(g0) {
        MoveKeepsTiles(g0, d);
        MoveScoreNonNegative(g0, d);
      }
    }

    /**
     * One pass of Move over line i, offsets 0 to BoardSize - 1 from the edge
     * d points to.
     */
    method SlideLine(d: Direction, i: nat, ghost g0: Grid)
      requires Valid() && i < BoardSize
      requires Progress(Cells, g0, MoveBoard(g0, d), LineOf(g0, d, i), d, i, 0, [])
      modifies this`score, this`Cells, board
      ensures Valid()
      ensures Progress(Cells, g0, MoveBoard(g0, d), LineOf(g0, d, i), d, i, BoardSize, Merge(NonZero(LineOf(g0, d, i))))
      ensures score == old(score) + SlideScore(LineOf(g0, d, i))
      ensures forall r, c :: 0 <= r < BoardSize && 0 <= c < BoardSize && Locate(d, r, c).0 != i ==> Cells[r][c] == old(Cells)[r][c]
    {
      ghost var line := LineOf(g0, d, i);
      var lastRef: Option<(nat, nat)> := None;
      var emptyJ: nat := 0;
      assert line[..0] == [];
      for j := 0 to BoardSize
        invariant Scanned(d, i, g0, j, lastRef, emptyJ, old(score))
      {
        lastRef, emptyJ := SlideStep(d, i, j, lastRef, emptyJ, g0, old(score));
      }
      assert line[..BoardSize] == line;
      ProgressOffLine(Cells, old(Cells), g0, MoveBoard(g0, d), line, d, i, BoardSize, Merge(NonZero(line)), 0, []);
    }

    /** The state of the pass over line i (see ScanState) together with the board's representation. */
    ghost predicate Scanned(d: Direction, i: nat, g0: Grid, j: nat, lastRef: Option<(nat, nat)>, emptyJ: nat, base: int)
      reads this`board, this`Cells, this`score, board
    {
      Valid() && ScanState(Cells, score, g0, d, i, j, lastRef, emptyJ, base)
    }

    /** The cell at offset j of line i: skipped when empty, else merged into the last tile or moved to the cursor. */
    method SlideStep(d: Direction, i: nat, j: nat, lastRef: Option<(nat, nat)>, emptyJ: nat, ghost g0: Grid, ghost base: int)
      returns (lastRef': Option<(nat, nat)>, emptyJ': nat)
      requires j < BoardSize && Scanned(d, i, g0, j, lastRef, emptyJ, base)
      modifies this`score, this`Cells, board
      ensures Scanned(d, i, g0, j + 1, lastRef', emptyJ', base)
    {
      var numRef := Coord(d, i, j);
      var emptyJRef := Coord(d, i, emptyJ);
      var num := board[numRef.0, numRef.1];
      if num == 0 {
        ScanSkip(Cells, score, g0, d, i, j, lastRef, emptyJ, base);
        return lastRef, emptyJ;
      }
      if lastRef.Some? && board[lastRef.value.0, lastRef.value.1] == num {
        // merge adjacent equal tiles
        ScanMerge(Cells, score, g0, d, i, j, lastRef, emptyJ, base);
        MergeTiles(numRef, lastRef.value, num);
        lastRef', emptyJ' := None, emptyJ;
      } else {
        if num != 0 {
          // move the tile to the side
          ScanPush(Cells, score, g0, d, i, j, lastRef, emptyJ, base);
          ShiftTile(numRef, emptyJRef, num);
          lastRef', emptyJ' := Some(emptyJRef), emptyJ + 1;
        } else {
          // empty cells were skipped above
          assert false;
        }
      }
    }

    /**
     * Places a new tile on an empty cell. draws is the stream of cells
     * the random generator proposes; occupied ones are rejected until an
     * empty one comes up; roll (a number below ChanceToGet4Divider) makes
     * the tile a 4 when it is 0 and a 2 otherwise. Returns the index of the
     * draw that was used.
     */
    method RandomlyPlaceNewNum(draws: seq<(nat, nat)>, roll: int) returns (k: nat)
      requires Valid()
      requires forall m :: 0 <= m < |draws| ==> draws[m].0 < BoardSize && draws[m].1 < BoardSize
      requires exists m :: 0 <= m < |draws| && Cells[draws[m].0][draws[m].1] == 0
      requires 0 <= roll < ChanceToGet4Divider
      modifies this`Cells, board
      ensures Valid()
      ensures k < |draws|
      ensures forall m :: 0 <= m < k ==> old(Cells)[draws[m].0][draws[m].1] != 0
      ensures old(Cells)[draws[k].0][draws[k].1] == 0
      ensures Cells == Place(old(Cells), draws[k].0, draws[k].1, SpawnValue(roll))
      ensures AllTiles(old(Cells)) ==> AllTiles(Cells)
    {
      k := 0;
      while true
        invariant Valid() && Cells == old(Cells)
        invariant k < |draws|
        invariant forall m :: 0 <= m < k ==> Cells[draws[m].0][draws[m].1] != 0
        invariant exists m :: k <= m < |draws| && Cells[draws[m].0][draws[m].1] == 0
        decreases |draws| - k
      {
        var (i, j) := draws[k];
        if board[i, j] == 0 {
          if roll == 0 {
            // the chance to get a 4
            Store((i, j), 4);
          } else {
            Store((i, j), 2);
          }
          break;
        }
        k := k + 1;
      }
      if AllTiles(old(Cells)) {
        PlaceKeepsTiles(old(Cells), draws[k].0, draws[k].1, roll);
      }
    }
  }
}
