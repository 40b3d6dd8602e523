# 2048 board engine in Dafny

A model of the board engine of a terminal 2048 game. The game state is
a 4x4 board of tiles and a score. A move in one of four directions
slides every line toward one edge: equal neighbours merge pairwise from
that edge, and each merged tile counts only once. Every merge adds the
doubled value to the score. After each key press a new tile (a 2, or a 4
with chance 1 in 8) appears on a random empty cell.

The project has three modules:

- `LineMerge` (`line_merge.dfy`) is the meaning of a move on one line,
  as pure functions on `seq<int>`. `Slide(s)` is
  `Merge(NonZero(s)) + Zeros(..)`: keep the tiles in order, merge equal
  neighbours pairwise from the near edge, pad with empty cells.
  `SlideScore` is the points scored. The lemmas prove compaction,
  conservation of the sum, the tile count, the score bounds, closure
  under powers of two, when a slide is a no-op, and when a second slide
  changes nothing. `MergeSnoc` is the one-tile-at-a-time form the move
  loop follows.
- `Board` (`board.dfy`) is the board as a value (`Grid`), with the four
  directions. `Coord(d, i, j)` is the cell at offset `j` of line `i`,
  counted from the edge the tiles slide toward. `Locate` is its inverse.
  `LineOf`, `MoveBoard` and `MoveScore` give a whole move; `Place` and
  `SpawnValue` give the new tile. Lemmas lift the line properties to the
  board.
- `Game` (`game.dfy`) is the game state as a class. `board` is an
  `array2<int>` that is updated in place, `score` is an `int`, and a
  ghost field `Cells` mirrors the board as a `Grid`.
  - `Move` runs the nested loops with the write cursor `emptyJ` and the
    last-tile reference `lastRef`. It is proved to leave exactly
    `MoveBoard(old(Cells), d)` and to add exactly
    `MoveScore(old(Cells), d)`.
  - `RandomlyPlaceNewNum` is the rejection loop of the spawner.

`BoardSize` (4) and `ChanceToGet4Divider` (8) are the constants of
2048.go:15-16. `MoveBoard` is pinned down by `MoveLine`, `MoveScore` by
`MoveScoreNonNegative` and `MoveScoreZero`, and `MergeScore`, `Merges` and
`SlideScore` by `MergeScoreBounds` and `SlideScoreBounds`.
`Direction` lists the moves in the order of their integer codes up = 0,
right = 1, down = 2 and left = 3 (2048.go:63-68). The pointers of the original (`numRef`, `emptyJRef` and
`lastNonZeroRef`) become (row, column) pairs. A nil `lastNonZeroRef`
becomes `None`. The random generator is replaced by parameters: `draws`
is the sequence of cells it proposes, and `roll` is the result of the
1-in-8 die.

## Model

| member | source | states |
|---|---|---|
| LineMerge.NonZero | 2048.go:98-101 | the tiles of a line, that is the cells the scan does not skip, are never 0, are exactly the non-zero values of the line, and are no more than the line's cells |
| LineMerge.Merge | 2048.go:102-114 | the pairwise merge of the tiles is no longer than the tiles and is non-empty when there is a tile |
| LineMerge.Slide | 2048.go:77-121 | a line after a move has as many cells as before |
| LineMerge.MergeStep | 2048.go:102-114 | one tile either doubles the last placed tile (the length is unchanged) or is appended after it (the length grows by one) |
| LineMerge.MergeSnoc | 2048.go:102-114 | one more tile x merges into the last placed tile exactly when that tile has not merged yet and equals x. It then doubles that tile, scores 2x and closes it; otherwise x is placed after it and stays open |
| LineMerge.SlideCompacted | 2048.go:108-114 | after a move the tiles of a line are contiguous at the near edge, and offset k holds a tile exactly when k is below the number of merged tiles |
| LineMerge.SumMerge | 2048.go:102-107 | merging keeps the sum of the tile values |
| LineMerge.SlideConservesSum | 2048.go:102-114 | a move keeps the sum of the values of each line |
| LineMerge.MergeLength | 2048.go:102-107 | merged tiles plus merges equal the tiles before |
| LineMerge.NonZeroSlide | 2048.go:108-114 | the tiles of a slid line are the merged tiles, in order |
| LineMerge.SlideCountsMerges | 2048.go:102-114 | the number of tiles drops by exactly the number of merges |
| LineMerge.SlideFourEqual | 2048.go:102-107 | [2,2,2,2] becomes [4,4,0,0] and scores 8: a merged tile does not merge again |
| LineMerge.SlideGapThenPair | 2048.go:99-107 | [2,0,2,2] becomes [4,2,0,0] and scores 4 |
| LineMerge.SlideTwoPairs | 2048.go:102-107 | [2,2,4,4] becomes [4,8,0,0] and scores 12 |
| LineMerge.SlideSpacedPair | 2048.go:99-107 | [2,0,2,0] becomes [4,0,0,0] and scores 4: empty cells between equal tiles do not stop a merge |
| LineMerge.MergeScoreBounds | 2048.go:104-105 | for tiles that are powers of two the score is at least 4 per merge, and it is 0 exactly when nothing merges |
| LineMerge.SlideScoreBounds | 2048.go:104-105 | on a legal line a move scores at least 0, and 0 exactly when nothing merges |
| LineMerge.MergeNonZero | 2048.go:104 | merging tiles never produces an empty cell |
| LineMerge.MergePow2 | 2048.go:104 | merging powers of two gives powers of two |
| LineMerge.SlideCells | 2048.go:104-112 | a legal line (each cell 0 or a power of two at least 2) is legal after a move |
| LineMerge.MergeNoPairs | 2048.go:102-114 | tiles with no equal neighbours are left as they are and score nothing |
| LineMerge.MergePairShortens | 2048.go:102-107 | an equal neighbouring pair among the tiles makes the merge shorter |
| LineMerge.CompactedSplit | 2048.go:108-114 | a compacted line is its tiles followed by empty cells |
| LineMerge.SlideFixpoint | 2048.go:99-118 | a move leaves a line unchanged exactly when the line is compacted and has no equal neighbouring tiles, and such a line scores 0 |
| LineMerge.SlideTwice | 2048.go:99-118 | a second move in the same direction changes a line exactly when equal neighbours are left after the first |
| Board.Coord | 2048.go:84-97 | offset j of line i is (j, i) for up, (N-1-j, i) for down, (i, j) for left and (i, N-1-j) for right, always on the board |
| Board.Locate | 2048.go:84-97 | cell (r, c) is offset Locate(d, r, c).1 of line Locate(d, r, c).0, both on the board: the inverse of Coord |
| Board.CoordInjective | 2048.go:84-97 | distinct (line, offset) pairs are distinct cells, so the lines of a direction do not overlap |
| Board.LineOf | 2048.go:84-98 | entry j of line i is the cell Coord(d, i, j) |
| Board.MoveLine | 2048.go:77-121 | line i of the moved board is the slide of line i of the old board |
| Board.MoveLineProperties | 2048.go:102-114 | after a move each line is compacted, keeps its sum, and loses one tile per merge |
| Board.GridFromLines | 2048.go:78-82 | two boards that agree on every line of a direction are equal |
| Board.MoveKeepsTiles | 2048.go:104 | a legal board (every cell 0 or a power of two at least 2) stays legal after a move |
| Board.LinesScoreNonNegative | 2048.go:105 | on legal lines the points of the first n lines are at least 0 |
| Board.MoveScoreNonNegative | 2048.go:105 | on a legal board a move never lowers the score |
| Board.LinesScoreZero | 2048.go:104-105 | on legal lines the first n lines score nothing exactly when none of them has a merge |
| Board.MoveScoreZero | 2048.go:104-105 | MoveScore, the points of a whole move, is 0 on a legal board exactly when no line has a merge |
| Board.MoveNoOp | 2048.go:99-118 | a move leaves the board unchanged exactly when every line is compacted without equal neighbours, and then scores 0 |
| Board.NoOpScore | 2048.go:104-105 | lines that are compacted with no equal neighbours score nothing |
| Board.MoveTwice | 2048.go:99-118 | repeating a move without a new tile changes the board exactly when some line has equal neighbours left |
| Board.MoveRightExample | 2048.go:95-96 | moving right turns the row [0,2,0,2] into [0,0,0,4] |
| Board.MoveRightExampleScore | 2048.go:104-105 | that move scores 4 |
| Board.Place | 2048.go:129-131 | the chosen cell holds the new value |
| Board.PlaceOthers | 2048.go:129-131 | placing a tile changes no other cell |
| Board.SpawnValue | 2048.go:128-132 | a new tile is 2 or 4, and 4 exactly when the die shows 0 |
| Board.PlaceKeepsTiles | 2048.go:128-132 | a legal board stays legal when a new tile is placed |
| Board.EmptyGrid | 2048.go:139 | a new game's board is all empty cells |
| Game.KeyDirection | 2048.go:148-157 | w, s, a and d select up, down, left and right; every other key selects no move |
| Game.ProgressStart | 2048.go:78-82 | before the first line is scanned the board is the old board |
| Game.ProgressSkip | 2048.go:99-101 | an empty cell is passed over without changing the board |
| Game.ProgressMerge | 2048.go:102-107 | a merge doubles the last placed tile, empties the current cell, and leaves the rest of the board in progress for offset j + 1 |
| Game.ProgressPush | 2048.go:108-114 | a tile moved to the cursor leaves the board in progress for offset j + 1, also when the cursor is the tile's own cell |
| Game.ProgressOffLine | 2048.go:84-97 | scanning line i changes no cell outside line i |
| Game.ProgressNextLine | 2048.go:78-82 | a fully scanned line holds its slide, and the next line starts untouched |
| Game.ProgressDone | 2048.go:78-121 | after the last line the board is the moved board |
| Game.ScanSkip | 2048.go:99-101 | an empty cell keeps the cursor, the last-tile reference and the score, and advances the scan |
| Game.ScanMerge | 2048.go:102-107 | a tile equal to an open last tile merges into it, scores twice its value and clears the reference, so the merged tile cannot merge again |
| Game.ScanPush | 2048.go:108-114 | any other tile moves to the cursor, which advances, and becomes the last tile |
| Game.GameState.constructor | 2048.go:23-26 | a new game state has an empty board and score 0 |
| Game.GameState.Store | 2048.go:103-112 | a write through a cell reference changes the board in place, at that cell only |
| Game.GameState.MergeTiles | 2048.go:102-106 | the last placed tile doubles, the score grows by the doubled value and the current cell is emptied |
| Game.GameState.ShiftTile | 2048.go:108-112 | the current cell is emptied, then the tile is written at the cursor |
| Game.GameState.Move | 2048.go:77-121 | the board becomes MoveBoard(old board, d) and the score grows by MoveScore(old board, d); a legal board stays legal and the score does not drop |
| Game.GameState.SlideLine | 2048.go:79-120 | scanning line i from the near edge leaves that line slid, scores its SlideScore and changes no other line |
| Game.GameState.SlideStep | 2048.go:83-119 | one offset of the scan, whether skipped, merged or moved, keeps the scan invariant (ScanState) |
| Game.GameState.RandomlyPlaceNewNum | 2048.go:123-136 | the first proposed cell that is empty receives SpawnValue(roll), every earlier proposal was occupied, nothing else changes, and a legal board stays legal |

## Left out

- `drawBoard` (2048.go:30-59), `colorPalette` (2048.go:28) and `enableColor` (2048.go:19): terminal output only, with a palette index computed through floating-point `math.Log2`.
- `main` (2048.go:138-160): the endless loop, `fmt.Scanf` and the printing are I/O. Only the key-to-direction choice is modelled, as `Game.KeyDirection` over a `char`.
- Game.GameState.RandomlyPlaceNewNum: `rand.Intn` is replaced by the parameters `draws` (the cells the generator proposes) and `roll` (the result of `rand.Intn(chanceToGet4Divider)`). Probabilities and uniformity are not modelled.
- Game.GameState.RandomlyPlaceNewNum: it requires that some proposed cell is empty. On a full board the original loops forever; a loop that never ends is outside this model.
- Game.GameState.Move: tiles and the score are unbounded integers. Go's fixed-width `int` (32 or 64 bits, depending on the platform; `squareNumber` is `int`) wraps around, which no reachable game comes near.
- Game.GameState.Move: the direction is the datatype `Direction`, so there is no value outside 0..3. In the original such a value would leave `numRef` nil and panic at 2048.go:98; every call passes one of the four constants.
- Game.GameState.Move: the inner loop body (2048.go:83-119) is the method `SlideStep` and the inner loop (2048.go:79-120) is `SlideLine`. The `continue` at 2048.go:100 is an early return from `SlideStep`. The order of the stores is kept, so the aliasing of `numRef` and `emptyJRef` when `j == emptyJ` behaves as in the original.
- The dead `else` branch at 2048.go:115-117 (`lastNonZeroRef = numRef` for an empty cell) is proved unreachable with `assert false`, since empty cells were already skipped.
- The reset of the local `num` at 2048.go:106 is not modelled: `num` is not read again in that iteration.
- Win and lose detection and other board sizes: the original has none.
