# Blocky: goals and players, modelled in Dafny

This project models the scoring and player logic of Blocky, a game played on
a square board. The board is a quad-tree of blocks: a leaf has a colour, and
an interior block has four quadrant children, numbered 0 = top-right,
1 = top-left, 2 = bottom-left and 3 = bottom-right.

Each player has a goal with a target colour:

- a **perimeter goal** counts the target-coloured unit cells on the outer
  edge of the board, with corners counted twice;
- a **blob goal** is the size of the largest side-connected region of the
  target colour.

The model follows `goal.py` and `player.py`.

- `blocks.dfy` (module `Blocks`) holds the read-only shape of a block, its
  well-formedness, the half-open containment rule and the tiling of
  quadrants.
- `flatten.dfy` (module `Grids`) holds `_combine` and `_flatten`. They are
  functions on `seq<seq<Colour>>`. `g[c][r]` is column `c`, row `r`.
- `perimeter.dfy` (module `Perimeter`) holds `_boundary_score` and
  `PerimeterGoal.score`.
  - Both are methods with the source's counting loops.
  - They are proved equal to `SideHits`, an independent definition: walk the
    four sides of the board and count target cells.
- `blob.dfy` (module `Blob`) defines blobs independently of the search. A
  blob is the set of cells reachable by a path of side-adjacent target
  cells. The module also holds the invariants of the flood fill and the
  lemmas about the largest blob.
- `flood_fill.dfy` (module `FloodFill`) holds `BlobGoal.score` and
  `_undiscovered_blob_size`.
  - `visited` is an `array2<int>` holding -1, 0 or 1. The recursive flood fill
    updates it in place.
  - The scan records every fill's size in a sequence and takes its maximum.
  - The result is proved to be the size of the largest blob.
- `goals.dfy` (module `Goals`) holds the two kinds of goal, `Goal.score`,
  `_select_colour` and `generate_goals`.
- `players.dfy` (module `Players`) holds:
  - `_get_block` and `_create_move`;
  - the three player classes, whose fields are updated by `process_event`
    and `generate_move`;
  - the smart player's selection loop, with its score dictionary;
  - `create_players`.
- `fixtures.dfy` (module `Fixtures`) restates the reference boards of
  `example_tests.py` and the values those tests expect.

Colours are RGB triples. The palette `COLOUR_LIST` and the key bindings
`KEY_ACTION` are parameters.

## Model

| member | source | states |
|---|---|---|
| Blocks.WellFormed | example_tests.py:39-55 | the representation invariant of a block: a block has no colour exactly when it has four children, and a block at the maximum depth is a coloured leaf |
| Blocks.Contains | player.py:96-100 | the half-open containment test: only a block of positive size contains a pixel, and the pixel one block width to the right of, or below, a contained pixel is outside the block |
| Grids.Side | goal.py:96 | `grid_size`: the side of a block's grid, 2^(maxDepth - level), is at least one cell |
| Grids.Combine | goal.py:68-77 | the result has one column per index of the inputs, and column i is column i of the first grid followed by column i of the second |
| Grids.Uniform | goal.py:97-107 | the grid of a leaf is n by n, and every cell is the leaf's colour |
| Grids.Flatten | goal.py:80-115 | the grid of a well-formed block is square, with side 2^(maxDepth - level) |
| Grids.ChildSides | goal.py:96 | the children of an interior block are one level down, and each child's grid has half the parent's side |
| Grids.FlattenLeaf | goal.py:97-107 | on a leaf, every cell of the grid is the leaf's colour |
| Grids.QuadrantCell | goal.py:113-114 | an interior block's grid is 2h by 2h. Its left half is the top-left child's columns over the bottom-left child's, and its right half is the top-right child's over the bottom-right child's |
| Grids.QuadrantSquare | goal.py:113-114 | combining four h by h quadrant grids gives a 2h by 2h grid |
| Grids.StackedCell | goal.py:74-76 | a combined column holds the top grid's cell above row h and the bottom grid's cell from row h on |
| Grids.FlattenCell | goal.py:108-115 | every cell of the flattened grid is the colour of the leaf found by walking down the quadrants that contain that cell (`ColourAt`) |
| Perimeter.BoundaryScore | goal.py:177-191 | a one-cell column scores 4 per match. A longer column scores its matches plus one more for each matching end |
| Perimeter.GridPerimeterScore | goal.py:164-175 | the loop over the middle columns plus the two boundary columns gives the four-sides count `SideHits` of the grid |
| Perimeter.MiddleScore | goal.py:168-173 | the loop over the middle columns counts the target cells at the top and at the bottom of every column strictly between the first and the last |
| Perimeter.PerimeterScore | goal.py:156-175 | the perimeter score of a board is the four-sides count of its flattened grid |
| Perimeter.PerimeterParts | goal.py:168-175 | on a board of side 2 or more, the four-sides count splits into the two boundary columns (ends counted twice) and the top and bottom cells of the middle columns |
| Perimeter.SideHitsBounds | goal.py:156-163 | the perimeter score lies between 0 and 4 times the side of the board |
| Perimeter.SideHitsOneCell | goal.py:166-167 | a 1x1 board scores 4 when its cell has the target colour and 0 otherwise |
| Perimeter.HitsAppend | goal.py:169-173 | counting matches is additive over concatenation |
| Blob.ReachSymmetric | goal.py:204-206 | side-connection through target cells is symmetric |
| Blob.ReachTransitive | goal.py:204-206 | side-connection through target cells is transitive |
| Blob.SameComponent | goal.py:204-208 | two connected cells have the same blob |
| Blob.ComponentAtMost | goal.py:213-219 | no blob has more cells than the board |
| FloodFill.UndiscoveredBlobSize | goal.py:241-284 | the cells newly marked 1 are exactly the blob of pos made of cells never visited before the call (`UndiscoveredBlob`: target cells that were -1, reached from pos through such cells), and the result is its size. By case: (1) a position off the board returns 0 and leaves `visited` unchanged; (2) a cell of another colour is marked 0, returns 0, and no other mark changes; (3) a visited target cell returns 0 and changes nothing; (4) an unvisited target cell is marked 1 and the result is at least 1. In every case no mark goes back to -1, 1 marks only target cells and 0 only other cells, the newly marked cells have all their neighbours visited, and the only marks that change are those of pos, of the cells newly marked 1 and of their neighbours |
| FloodFill.MarkOtherColour | goal.py:269-271 | the cell of another colour is marked 0 and no other mark changes |
| FloodFill.MarkTarget | goal.py:274-275 | the unvisited target cell is marked 1 and no other mark changes |
| FloodFill.FillFrom | goal.py:274-284 | marking pos and filling from its four neighbours marks pos 1; the cells newly marked 1 are exactly the blob of pos among the cells never visited before, and the result, at least 1, is their number; the only marks that change are those of pos, of the cells newly marked 1 and of their neighbours |
| FloodFill.FillNeighbour | goal.py:276-283 | filling from one more neighbour keeps the partial-fill invariant: the marked cells stay in the blob of pos, their count is the running size, and one more neighbour is settled |
| Blob.ExtendFill | goal.py:276-283 | the cells a neighbour's fill marks join the cells marked from pos, and their count adds to the size |
| Blob.ConnectedGrows | goal.py:276-283 | the cells a neighbour's fill marks are reached from pos through marked cells, so every cell marked from pos still is |
| Blob.FillIsUndiscovered | goal.py:244-246 | a finished fill from pos has marked exactly the blob of pos among the cells never visited before it, and its size is the number of those cells |
| Blob.FreshWalkMarked | goal.py:276-283 | a walk through never-visited target cells that starts at a marked cell ends at a marked cell, once every marked cell has its neighbours visited |
| Blob.ChangedNearGrows | goal.py:276-283 | the marks a neighbour's fill changes lie next to the cells marked from pos, so the fill from pos still changes only pos, its newly marked cells and their neighbours |
| Blob.FillIsComponent | goal.py:241-284 | started from marks where every cell marked 1 has its neighbours visited, a fill that marks pos marks exactly the blob of pos |
| FloodFill.ScanColumn | goal.py:236-238 | after a column of calls, every cell of the column is visited. Every recorded score is 0 or a blob size, and every cell marked 1 has its blob's size recorded |
| Blob.ScanEnd | goal.py:235-239 | once every cell is visited, the maximum of the recorded scores is the largest blob size |
| Blob.Max | goal.py:239 | Python's max: an element of the list that is at least every element |
| FloodFill.GridBlobScore | goal.py:220-239 | the scan of the grid returns the size of the largest blob of the target colour, or 0 when the colour is absent |
| FloodFill.BlobScore | goal.py:213-239 | the blob score of a board is the largest blob of its flattened grid |
| Blob.LargestBlobUnique | goal.py:213-219 | the largest blob size of a grid is unique |
| Blob.LargestBlobBounds | goal.py:213-219 | the blob score lies between 0 and n*n, and is 0 when the colour does not occur |
| Blob.UniformBlob | goal.py:213-219 | on a board entirely of the target colour, the blob score is n*n |
| Goals.Score | goal.py:135-140 | a goal's score is the four-sides count for a perimeter goal and the largest blob for a blob goal, and it is never negative |
| Goals.FirstIndex | goal.py:36 | the position of the first occurrence of x |
| Goals.RemoveFirst | goal.py:36 | list.remove takes out one element: the length drops by one and the multiset loses one x |
| Goals.SelectColour | goal.py:31-37 | the chosen colour is in the pool, and the new pool is the old one with that colour's first occurrence removed |
| Goals.GenerateGoals | goal.py:40-65 | numGoals goals, all perimeter goals or all blob goals. Their colours are drawn without replacement from the palette, and are pairwise distinct when the palette is |
| Goals.DrawnDistinct | goal.py:43-45 | colours drawn without replacement from a palette without repeats are pairwise distinct |
| Players.GetBlock | player.py:96-112 | None when the block does not contain the point. Otherwise the result contains the point, is the block or a descendant, and is at the requested level or a leaf |
| Players.FirstFound | player.py:108-112 | the loop over the children gives a block containing the point that lies inside one of the children |
| Players.FirstFoundSome | player.py:108-111 | if some child answers, the loop answers |
| Players.FirstFoundAt | player.py:108-111 | the loop returns the answer of the first child that answers |
| Players.GetBlockTotal | player.py:99-106 | on a well-formed tree whose quadrants tile their parent, every point of the root finds a block, and asking at the root's level returns the root |
| Players.GetBlockLevel | player.py:71-74 | when asked for a level at or below the block's own, the block found is never deeper than that level |
| Players.CreateMove | player.py:161-166 | the move acts on the given block |
| Players.CreateMoveRoundTrip | player.py:161-166 | the move carries back exactly the action and block it was made from |
| Players.HumanPlayer.constructor | player.py:246-255 | a new human player is at level 0 with no desired action |
| Players.HumanPlayer.ProcessEvent | player.py:268-281 | a bound key sets the desired action; W moves one level up but never above 0, S one level down, and both clear the action; any other event changes nothing; the level stays non-negative |
| Players.LevelUp | player.py:277 | max(0, level - 1) |
| Players.HumanPlayer.GenerateMove | player.py:283-298 | returns None, with the state unchanged, exactly when there is no block under the mouse or no desired action; otherwise it returns the desired action on that block and clears the action |
| Players.RandomPlayer.constructor | player.py:322-326 | a new random player waits |
| Players.RandomPlayer.ProcessEvent | player.py:334-338 | a left click, and only a left click, lets the player move |
| Players.RandomPlayer.GenerateMove | player.py:340-355 | returns None while waiting; otherwise it returns the generated move and waits again |
| Players.Best | player.py:415-425 | the best score: at least the original score and every trial score, and equal to one of them |
| Players.LastWith | player.py:422 | the last trial with a given score: later trials have other scores |
| Players.ChosenMove | player.py:426-431 | a pass on the whole board when no trial beats the original score. Otherwise the move of the last trial with the best score, which beats the original score and is at least every trial score. When no trial passes, the choice is a pass exactly when no trial beats the original score |
| Players.PrefixStep | player.py:418-425 | one more trial updates the best score and the last trial of each score as the loop body does |
| Players.SelectMove | player.py:414-431 | the loop over the trials, with its score dictionary and running best, returns `ChosenMove` |
| Players.SmartPlayer.constructor | player.py:375-384 | a new smart player waits, with the given difficulty |
| Players.SmartPlayer.ProcessEvent | player.py:392-396 | a left click, and only a left click, lets the player move |
| Players.SmartPlayer.GenerateMove | player.py:398-431 | returns None while waiting. Otherwise it returns the move `ChosenMove` picks against the goal's score on the board, and waits again |
| Players.CreatePlayers | player.py:36-59 | the players are numHuman humans, then numRandom random players, then one smart player per difficulty, in that order, numbered 0, 1, .... Their goals are of one kind, with colours drawn from the palette, pairwise distinct when the palette is |
| Fixtures.Board16Shape | example_tests.py:72-88 | board_16x16 is well formed and its quadrants tile |
| Fixtures.FlattenTopRight16 | example_tests.py:84-86 | the split top-right quadrant of board_16x16 flattens to a 2x2 grid |
| Fixtures.FlattenBoard16 | example_tests.py:553-563 | board_16x16 flattens to flattened_board_16x16 |
| Fixtures.FlattenSmallLeaf | goal.py:97-107 | leaves at the two lowest levels flatten to 1x1 and 2x2 grids of their colour |
| Fixtures.PerimeterBoard16 | example_tests.py:627-638 | the perimeter scores of board_16x16 for the four colours are 2, 5, 4 and 5 |
| Fixtures.LocateTopLeft16 | example_tests.py:512-518 | at (0, 0), level 0 finds the board and level 1 finds child 1 |
| Fixtures.LocateTopRight16 | example_tests.py:520-529 | at (749, 0), levels 0, 1 and 2 find the board, child 0 and its child 0 |
| Fixtures.LocateBottomLeft16 | example_tests.py:530-533 | at (0, 749), levels 0, 1 and 2 find the board, child 2 and child 2 again, since child 2 is a leaf |
| Fixtures.LocateMiddle2 | example_tests.py:535-538 | at (375, 375) on board_2x2, level 1 finds child 3 |
| Fixtures.UnitBoard | example_tests.py:565-576 | the single-leaf board has a blob score of 1 for its own colour and 0 for any other, and a perimeter score of 4 and 0 |

## Left out

- The mutating methods of `Block` (`smash`, `swap`, `rotate`, `combine`,
  `paint`, `create_copy`, child sizes and positions). `block.py` is not part
  of this model. Blocks are read-only values with a well-formedness
  predicate.
  - `Tiles` assumes each interior block is covered by four children of one
    size h, with 2h at least the parent's size. It does not assume exact
    halving.
  - The swap and rotate fixtures are not restated.
- `_generate_move_and_block` and `_get_random_block` are not modelled. They
  are random rejection loops over the unseen `Block` methods, with random
  floats. Each trial of the random and smart players enters as a parameter:
  - the random player's move;
  - for the smart player, a sequence of (score, move) trials.
  
  How a trial's score arises from applying its move to a copy of the board is
  not modelled.
- Players.SmartPlayer.GenerateMove: the source scores the board and a fresh
  copy of it. The copy gives the same score, so the model starts the running
  best at the original score. The copy itself is not modelled.
- Players.SmartPlayer.GenerateMove: requires exactly `difficulty` trials,
  one per loop iteration of the source.
- Randomness: `random.choice` in `_select_colour` and in the goal kind of
  `generate_goals` is an arbitrary choice (`:|`). Probabilities are not
  modelled.
- pygame:
  - the mouse position is a parameter of the human player's `GenerateMove`;
  - events are a small datatype (key down with a key, mouse button down with
    a button, anything else);
  - `get_selected_block` is folded into `GenerateMove`.
- Actions: the action names and directions of `actions.py` are an abstract
  `Action` (PASS or a named action with an optional direction). `KEY_ACTION`
  is a parameter of the human player.
- Rendering, the goal description strings, `colour_name`, and the
  `python_ta` main blocks.
- FloodFill.UndiscoveredBlobSize: the source makes four recursive calls in the
  order right, left, below, above. The model makes the same calls in the
  same order, as a loop over `Neighbour(pos, i)` for i = 0..3 in
  `FillFrom`.
- Fixtures: only board_16x16, board_2x2 and the single-leaf board are
  restated. These expectations are not:
  - the blob scores on board_16x16, board_4x4_3, board_2x2 and board_2x2_2
    (example_tests.py:578-625); only the single-leaf board's blob score is
    restated;
  - the perimeter scores on board_2x2, board_4x4_3 and board_2x2_2
    (example_tests.py:653-690);
  - the locator on board_2x2_2 (example_tests.py:540-544).
