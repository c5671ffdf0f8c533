/** BlobGoal.score and _undiscovered_blob_size of goal.py: the flood fill
    over a mutable `visited` grid and the scan that runs it from every
    cell, proved against the blob specification of module Blob. */
module FloodFill {
  import opened Blocks
  import opened Grids
  import opened Blob

  /** _undiscovered_blob_size: the number of cells of the blob of pos that
      were unvisited, marking them 1 and marking 0 the cells of another
      colour it runs into. A position off the grid returns 0 and changes
      nothing; a cell of another colour is marked 0 and returns 0; a target
      cell already visited returns 0. */
  method UndiscoveredBlobSize(t: Colour, pos: Cell, board: Grid, visited: array2<int>) returns (size: int)
    requires IsSquare(board, |board|)
    requires visited.Length0 == |board| && visited.Length1 == |board|
    requires Consistent(board, t, Snap(visited))
    modifies visited
    decreases Unvisited(Snap(visited)), 2
    ensures FillDone(board, t, pos, old(Snap(visited)), Snap(visited), size)
    ensures if !InGrid(|board|, pos) then size == 0 && unchanged(visited)
      else if !IsTarget(board, t, pos) then
        size == 0 && Snap(visited) == old(Snap(visited))[pos := 0] && visited[pos.0, pos.1] == 0
      else if old(visited[pos.0, pos.1]) != -1 then size == 0 && unchanged(visited)
      else size >= 1 && visited[pos.0, pos.1] == 1
    ensures Marked(old(Snap(visited)), Snap(visited)) == UndiscoveredBlob(board, t, old(Snap(visited)), pos)
    ensures size == |UndiscoveredBlob(board, t, old(Snap(visited)), pos)|
  {
    ghost var s0 := Snap(visited);
    var clm, row := pos.0, pos.1;
    size := 0;
    if clm >= |board| || row >= |board| || clm < 0 || row < 0 {
      NothingFilled(board, t, pos, s0);
    } else if board[clm][row] != t {
      MarkOtherColour(pos, visited);
      MarkOther(board, t, pos, s0, Snap(visited));
    } else if visited[clm, row] != -1 {
      NothingFilled(board, t, pos, s0);
    } else {
      size := FillFrom(t, pos, board, visited);
    }
    FillIsUndiscovered(board, t, pos, s0, Snap(visited), size);
  }

  /** The second branch of _undiscovered_blob_size: pos is a cell of
      another colour, which is marked 0. */
  method MarkOtherColour(pos: Cell, visited: array2<int>)
    requires 0 <= pos.0 < visited.Length0 && 0 <= pos.1 < visited.Length1
    modifies visited
    ensures Snap(visited) == old(Snap(visited))[pos := 0]
    ensures visited[pos.0, pos.1] == 0
  {
    visited[pos.0, pos.1] := 0;
  }

  /** The first step of the last branch: pos is an unvisited cell of the
      target colour, which is marked 1. */
  method MarkTarget(pos: Cell, visited: array2<int>)
    requires 0 <= pos.0 < visited.Length0 && 0 <= pos.1 < visited.Length1
    modifies visited
    ensures Snap(visited) == old(Snap(visited))[pos := 1]
    ensures visited[pos.0, pos.1] == 1
  {
    visited[pos.0, pos.1] := 1;
  }

  /** The last branch of _undiscovered_blob_size: pos is an unvisited cell
      of the target colour; mark it 1 and add the fills from its four
      neighbours, right, left, below and above, to its own 1. */
  method FillFrom(t: Colour, pos: Cell, board: Grid, visited: array2<int>) returns (size: int)
    requires IsSquare(board, |board|)
    requires visited.Length0 == |board| && visited.Length1 == |board|
    requires Consistent(board, t, Snap(visited))
    requires IsTarget(board, t, pos) && visited[pos.0, pos.1] == -1
    modifies visited
    decreases Unvisited(Snap(visited)), 1
    ensures FillDone(board, t, pos, old(Snap(visited)), Snap(visited), size)
    ensures size >= 1 && visited[pos.0, pos.1] == 1
    ensures Marked(old(Snap(visited)), Snap(visited)) == UndiscoveredBlob(board, t, old(Snap(visited)), pos)
    ensures size == |UndiscoveredBlob(board, t, old(Snap(visited)), pos)|
  {
    ghost var s0 := Snap(visited);
    MarkTarget(pos, visited);
    StartFill(board, t, pos, s0, Snap(visited));
    size := 1;
    for i := 0 to 4
      invariant Partial(board, t, pos, s0, Snap(visited), size, i)
    {
      size := FillNeighbour(t, pos, board, visited, s0, size, i);
    }
    FinishFill(board, t, pos, s0, Snap(visited), size);
    assert pos in Marked(s0, Snap(visited));
    FillIsUndiscovered(board, t, pos, s0, Snap(visited), size);
  }

  /** One step of the fill from pos: the fill from its i-th neighbour, whose
      size is added to the size so far. */
  method FillNeighbour(t: Colour, pos: Cell, board: Grid, visited: array2<int>,
                       ghost s0: map<Cell, int>, size: int, i: nat) returns (size': int)
    requires IsSquare(board, |board|)
    requires visited.Length0 == |board| && visited.Length1 == |board|
    requires i < 4 && Partial(board, t, pos, s0, Snap(visited), size, i)
    modifies visited
    decreases Unvisited(s0), 0
    ensures Partial(board, t, pos, s0, Snap(visited), size', i + 1)
  {
    ghost var s := Snap(visited);
    PartialShrinks(board, t, pos, s0, s, size, i);
    var k := UndiscoveredBlobSize(t, Neighbour(pos, i), board, visited);
    ExtendFill(board, t, pos, s0, s, Snap(visited), size, i, k);
    size' := size + k;
  }

  // ---------------------------------------------------------------------
  // The scan of BlobGoal.score

  /** BlobGoal.score: flattens the board and returns the size of its
      largest blob of colour t. */
  method BlobScore(t: Colour, board: Block) returns (score: int)
    requires WellFormed(board)
    ensures IsLargestBlob(Flatten(board), t, score)
  {
    var g := Flatten(board);
    score := GridBlobScore(t, g);
  }

  /** The scan of BlobGoal.score on the flattened grid: a visited grid all
      -1, one flood fill from every cell column by column, and the largest
      size found. */
  method GridBlobScore(t: Colour, g: Grid) returns (score: int)
    requires |g| >= 1 && IsSquare(g, |g|)
    ensures IsLargestBlob(g, t, score)
  {
    var n := |g|;
    var visited := new int[n, n]((c, r) => -1);
    var scores: seq<int> := [];
    ScanStart(g, t, Snap(visited));
    for c := 0 to n
      invariant ScanInv(g, t, Snap(visited), scores)
      invariant Scanned(Snap(visited), c, 0)
      invariant c > 0 ==> |scores| >= 1
    {
      scores := ScanColumn(t, g, visited, c, scores);
    }
    ScanEnd(g, t, Snap(visited), scores);
    score := Max(scores);
  }

  /** The inner loop of the scan: one flood fill from each cell of column
      c, top to bottom, each size appended to the scores. */
  method ScanColumn(t: Colour, g: Grid, visited: array2<int>, c: int, scores: seq<int>)
    returns (scores': seq<int>)
    requires IsSquare(g, |g|) && 0 <= c < |g|
    requires visited.Length0 == |g| && visited.Length1 == |g|
    requires ScanInv(g, t, Snap(visited), scores) && Scanned(Snap(visited), c, 0)
    modifies visited
    ensures ScanInv(g, t, Snap(visited), scores') && Scanned(Snap(visited), c + 1, 0)
    ensures |scores'| == |scores| + |g|
  {
    scores' := scores;
    for r := 0 to |g|
      invariant ScanInv(g, t, Snap(visited), scores')
      invariant Scanned(Snap(visited), c, r)
      invariant |scores'| == |scores| + r
    {
      ghost var s := Snap(visited);
      var k := UndiscoveredBlobSize(t, (c, r), g, visited);
      ScanStep(g, t, (c, r), s, Snap(visited), scores', k);
      ScannedStep(s, Snap(visited), c, r);
      scores' := scores' + [k];
    }
    ScannedColumn(g, t, Snap(visited), c);
  }
}
