# Sudoku engine, modelled in Dafny

This project models the engine of a small Python Sudoku program (`sudoku.py`) and proves what its
functions compute. The engine covers:

- parsing a puzzle text into a 9x9 grid of characters (`create_grid`, `group`);
- reading a row, a column or a 3x3 block (`get_row`, `get_col`, `get_block`);
- the constraint step (`find_empty_positions`, `find_possible_values`);
- the depth-first backtracking solver `solve`;
- the two validators `check_solution` and `check_grid`;
- the puzzle generator `generate_sudoku` with its helpers `generate_swap`, `swap_rows`,
  `swap_columns` and its in-place transpose.

A grid is a `seq<seq<char>>` with '.' for an empty cell. The empty sequence stands for the falsy
grid: `[]`, which `solve` rejects at `if not grid`, and `[]` or `None`, which `check_solution` and
`check_grid` reject with `if not grid`.

The modules follow the program's parts:

- `Grids` (grids.dfy): positions, rows, columns, blocks, the accessors, and "consistent" (no
  group repeats a non-'.' value) with its pairwise form "peers differ".
- `Parsing` (parsing.dfy): `group` and `create_grid`.
- `Constraints` (constraints.dfy): the first empty cell and the candidate digits.
- `Solver` (solver.dfy): `solve` as a function, and the loop over sorted candidates as a
  recursive helper.
- `Validation` (validation.dfy): the two validators, as methods with the source's nested loops and
  early returns.
- `Generator` (generator.dfy): the generator. Its random draws are parameters. The grid it
  mutates is an `array<seq<char>>` of nine rows, updated in place. Each transpose or swap is a
  `Move`, described by the cell each target cell takes its value from (`Origin`). The methods are
  proved against `Apply`/`ApplyAll` of those moves.
- `Wrappers` (wrappers.dfy): the `Option` type.

Points where the code behaves differently from an idealised Sudoku engine, modelled as written:

- **The seed digit.** The seed value of cell (i, j) is `v % 10 + v // 10` with
  `v = j + 3 * (i % 3) + i // 3`. So (0, 0) gets '0', which is not one of the digits '1'..'9', and
  row 0, column 0 and the top-left block hold no '9'. Every group of the full seed still holds nine
  distinct characters, and `check_solution` only tests set size and the absence of '.'. So a full
  generated grid, '0' included, passes it.
- **Carving and shuffling.** `generate_sudoku` writes the kept seed cells first and shuffles the
  carved grid afterwards. The shuffle only moves cells, so it keeps the filled count and keeps
  every group free of repeats.
- **Grouping.** `group(values, 9)` cuts `range(9)` slices of width 9, whatever the length. 90
  values give 9 rows and drop the last 9. 0 values give 9 empty rows, not None.
- **Negative N.** `positions[:min(N, 81)]` counts a negative end from the back, so N = -1 keeps 80
  cells.

## Model

| member | source | states |
|---|---|---|
| Parsing.Slice | sudoku.py:39 | Python's `s[lo:hi]` with both ends clamped to the length: the exact slice when `hi` fits, empty when `lo` is past the end |
| Parsing.Group | sudoku.py:37-39 | `group` gives None exactly when n does not divide the length, and otherwise exactly n slices |
| Parsing.GroupRow | sudoku.py:39 | slice k of `group` is `values[k*n:(k+1)*n]`, both ends cut at the length |
| Parsing.GroupPrefix | sudoku.py:37-39 | the first m slices laid end to end are the first m*n values (all of them if fewer): `group` never reorders, drops early or invents values |
| Parsing.GroupSquare | sudoku.py:37-39 | with at least n*n values, every slice has n values and together they are the first n*n values |
| Parsing.KeepCellChars | sudoku.py:17 | the kept characters are those of the text that are in "123456789.", each as many times as in the text, and no others |
| Parsing.KeepCellCharsConcat | sudoku.py:17 | filtering keeps text order: the filter of a + b is the filter of a followed by the filter of b |
| Parsing.CreateGrid | sudoku.py:16-19 | `create_grid` gives None iff the number of cell characters in the text is not a multiple of 9 (80 or 82, say); with exactly 81 it gives a 9x9 grid whose rows concatenate to those characters in text order |
| Parsing.CreateGridOfNoCells | sudoku.py:16-19 | text with no cell characters gives nine empty rows, not None |
| Grids.GetRow | sudoku.py:42-43 | `get_row` returns the 9 cells of the row of `pos`, in column order |
| Grids.GetCol | sudoku.py:45-49 | `get_col` fills 9 slots with cell i of column `pos.col` in slot i, which is the column |
| Grids.GetBlock | sudoku.py:52-61 | `get_block` fills the 9 slots with the 3x3 block containing `pos`, in block-local row-major order |
| Grids.CellInItsGroups | sudoku.py:42-61 | the cell at `pos` occurs in its row, its column and its block, at the slot each accessor puts it |
| Grids.EmptyCells | sudoku.py:85-88 | the set of empty cells is exactly the in-grid positions holding '.'; each recursive call of `solve` fills one of them, so its size is the search's termination measure |
| Grids.FilledCells | sudoku.py:119-128 | the set of filled cells is exactly the in-grid positions not holding '.' |
| Grids.ConsistentIffPeersDiffer | sudoku.py:106-117 | no group repeats a non-'.' value iff every filled cell differs from every other cell sharing its row, column or block (both directions) |
| Grids.PeerValuesDiffer | sudoku.py:106-117 | in a consistent grid a filled cell differs from each of its peers |
| Grids.Place | sudoku.py:86-87 | writing d at `pos` of a copy changes that cell to d and no other |
| Grids.PlaceFillsOneCell | sudoku.py:86-87 | filling an empty cell removes exactly that cell from the empty ones, so one fewer is empty |
| Constraints.FirstEmptyFrom | sudoku.py:63-67 | the scan from index k finds a '.' at or after k with none between k and it, or reports none from k on |
| Constraints.FirstEmpty | sudoku.py:63-67 | the first empty cell in row-major order: a '.' with no '.' before it; None iff the grid has no '.' |
| Constraints.FindEmptyPositions | sudoku.py:63-67 | the nested scan with early return finds the first '.' in row-major order and is None iff there is none |
| Constraints.FirstDotIsUnique | sudoku.py:63-67 | any '.' with no '.' before it is the cell the scan returns |
| Constraints.PossibleValues | sudoku.py:70-71 | d is a candidate iff d is one of '1'..'9' and occurs in none of the row, column and block of `pos` |
| Constraints.AllDigitsOnEmptyGrid | sudoku.py:70-71 | on an all-'.' grid every cell may take all nine digits |
| Constraints.KeepIn | sudoku.py:82-83 | the members of a set in the order of a reference sequence: same membership, ascending if the order is |
| Constraints.Ascending | sudoku.py:82-83 | `sorted(list(candidates))` holds exactly the candidates, strictly ascending, and is empty iff there are none |
| Solver.Solve | sudoku.py:74-89 | a returned grid is full (no '.'), keeps every filled cell of the input and has a digit in every cell that was empty; `solve([])` gives None |
| Solver.TryCandidates | sudoku.py:85-89 | the first candidate whose recursive solve succeeds gives a full extension of the grid, with that candidate at `pos` |
| Solver.TryCandidatesStep | sudoku.py:85-89 | one turn of the loop: the first candidate's result when its recursive call succeeds, otherwise the loop over the remaining candidates |
| Solver.TryCandidatesFails | sudoku.py:85-89 | the candidate loop gives None exactly when the recursive call fails for every candidate (both directions) |
| Solver.TryCandidatesFirstSuccess | sudoku.py:85-89 | the loop returns the result of the first candidate k whose recursive call succeeds, every candidate before k having failed; with no success it gives None |
| Solver.CandidatesArePossible | sudoku.py:82-84 | every entry of the sorted candidate list is a possible value, hence a digit |
| Solver.FillLowersEmptyCount | sudoku.py:86-88 | each recursive call gets one empty cell fewer, which bounds the recursion depth by the number of '.' cells |
| Solver.ExtendsThroughPlace | sudoku.py:86-89 | a completion of the copy with d at `pos` is a completion of the original grid with d at `pos` |
| Solver.SolveReturnsFullGrid | sudoku.py:75-81 | a non-empty grid without '.' comes back unchanged, with no validity check |
| Solver.SolveRejectsFalsyGrid | sudoku.py:76-77 | `solve([])`, the empty grid, gives None |
| Solver.SolveDeadEnd | sudoku.py:82-84 | if the first empty cell has no candidate, solve gives None |
| Solver.PeerValueSeen | sudoku.py:70-71 | the value of any peer of `pos` occurs in the row, column or block `find_possible_values` subtracts |
| Solver.PlaceCandidateKeepsConsistency | sudoku.py:82-87 | writing a possible value into a cell keeps a consistent grid consistent |
| Solver.SolveFindsValidSolution | sudoku.py:74-89 | from a consistent grid, whatever solve returns is full and consistent, which is what `check_solution` accepts |
| Solver.TryFindsValidSolution | sudoku.py:85-89 | from a consistent grid, whatever the candidate loop returns is consistent |
| Solver.PlaceShrinksCandidates | sudoku.py:70-71 | writing a value into an empty cell leaves every cell's candidates the same or fewer |
| Solver.SolveFailsOnDeadCell | sudoku.py:74-89 | if any empty cell, not only the first, has no candidate, solve gives None |
| Solver.TryFailsOnDeadCell | sudoku.py:85-89 | the candidate loop gives None while some other empty cell has no candidate |
| Solver.SolveAndCheck | sudoku.py:74-104 | `check_solution(solve(grid))`: true only when solve found a grid, and on a consistent non-empty grid true exactly when it did |
| Validation.CountDots | sudoku.py:111 | the number of '.' cells (the multiplicity of '.'), at most the length, and 0 iff there is no '.' |
| Validation.NoRepeatsCons | sudoku.py:110 | a group has no repeat iff its tail has none and its head is '.' or absent from the tail |
| Validation.DistinctNonDotsCons | sudoku.py:110 | one more cell in front adds one distinct non-'.' value iff it is new and not '.', and adds one '.' iff it is '.' |
| Validation.DistinctNonDots | sudoku.py:110 | distinct non-'.' values never outnumber non-'.' cells, and equal them iff no non-'.' value repeats |
| Validation.GroupSolved | sudoku.py:96 | the group test of `check_solution`; on 9 cells, "set of size 9 without '.'" holds iff there is no '.' and no repeat |
| Validation.GroupConsistent | sudoku.py:111 | the group test of `check_grid`; on 9 cells, `len(set(s) - {'.'}) == 9 - (number of '.')` holds iff no non-'.' value repeats |
| Validation.DotInBox | sudoku.py:93-95 | a '.' in a block is a '.' in the grid |
| Validation.CheckSolution | sudoku.py:91-104 | true iff the grid is non-empty, has no '.', and no row, column or block repeats a value |
| Validation.BlocksPass | sudoku.py:108-110 | the block loop of `check_grid` passes iff none of the 9 blocks repeats a non-'.' value |
| Validation.BlockPasses | sudoku.py:109-110 | the test on the block with corner (3*br, 3*bc) passes iff that block repeats no non-'.' value |
| Validation.LinesPass | sudoku.py:112-116 | the row and column loop passes iff no row and no column repeats a non-'.' value |
| Validation.CheckGrid | sudoku.py:106-117 | False on the falsy grid or an inconsistent one, otherwise None; never True |
| Generator.GenerateSwap | sudoku.py:130-134 | the first index is the drawn one; for n a multiple of 3 the partner is in [0, n), different, and in the same group of three |
| Generator.GenerateSwapReachesEveryPair | sudoku.py:130-134 | every ordered pair of distinct indices of one group of three can be drawn |
| Generator.IsSymmetry | sudoku.py:149-176 | defines the moves that map groups onto groups: the transpose, a swap of two lines of one band or stack, a swap of two bands or two stacks; each is in range |
| Generator.Origin | sudoku.py:136-154 | an in-range move takes each cell's value from a cell of the grid |
| Generator.OriginInvolution | sudoku.py:136-154 | transpose and every swap undo themselves |
| Generator.Apply | sudoku.py:136-154 | after a move each cell holds the value of its origin cell, and the grid stays 9x9 |
| Generator.SwapInGroup | sudoku.py:132-134 | swapping two lines of one group of three keeps every line in its group |
| Generator.SwapGroups | sudoku.py:164-176 | swapping two groups of three moves a line to the same place in the other group |
| Generator.TransposeKeepsPeers | sudoku.py:149-154 | the transpose sends cells sharing a row, column or block to cells sharing one |
| Generator.RowSwapKeepsPeers | sudoku.py:136-140 | a swap of two rows of one band sends peers to peers |
| Generator.ColumnSwapKeepsPeers | sudoku.py:142-147 | a swap of two columns of one stack sends peers to peers |
| Generator.BandSwapKeepsPeers | sudoku.py:164-169 | a swap of two bands sends peers to peers |
| Generator.StackSwapKeepsPeers | sudoku.py:171-176 | a swap of two stacks sends peers to peers |
| Generator.SymmetryKeepsPeers | sudoku.py:149-176 | every move the generator makes sends peers to peers |
| Generator.SymmetryKeepsConsistency | sudoku.py:149-176 | every such move keeps every row, column and block of a grid free of repeats |
| Generator.MovedSetSize | sudoku.py:136-154 | a move sends a set of cells to a set of the same size |
| Generator.FilledCellsMove | sudoku.py:136-154 | the filled cells after a move are the images of the filled cells before it |
| Generator.MoveKeepsFilledCount | sudoku.py:136-154 | a move keeps the number of filled cells |
| Generator.AllSymmetries | sudoku.py:156-176 | defines a run of such moves; every move of the run is in range |
| Generator.ApplyAll | sudoku.py:149-176 | a run of moves applied in order keeps the grid 9x9 |
| Generator.ApplyAllStep | sudoku.py:156-176 | one more move is applied after the earlier ones |
| Generator.ApplyAllConcat | sudoku.py:149-176 | applying two runs one after the other is applying their concatenation |
| Generator.MoveKeepsNoDots | sudoku.py:136-154 | a move keeps a grid free of '.' |
| Generator.MovesKeepFilledCount | sudoku.py:149-176 | the whole shuffle keeps the number of filled cells |
| Generator.MovesKeepNoDots | sudoku.py:149-176 | the whole shuffle keeps a full grid full |
| Generator.SymmetriesKeepConsistency | sudoku.py:149-176 | the whole shuffle keeps every group of a grid free of repeats |
| Generator.MoveKeepsValue | sudoku.py:136-154 | a move carries the value of a cell to the cell that takes its value from it |
| Generator.MovesKeepValue | sudoku.py:149-176 | a value present in the grid before the shuffle is still present after it |
| Generator.ThreeSwapsSwapGroups | sudoku.py:166-176 | the three index swaps of a band or stack swap, composed, swap two groups of three |
| Generator.ThreeRowOrigins | sudoku.py:166-169 | the three row swaps of a band swap, composed, take each cell from where the band swap does |
| Generator.ThreeColumnOrigins | sudoku.py:173-176 | the three column swaps of a stack swap, composed, take each cell from where the stack swap does |
| Generator.ThreeRowSwapsSwapBands | sudoku.py:164-169 | the three `swap_rows` calls of one iteration swap two whole bands |
| Generator.ThreeColumnSwapsSwapStacks | sudoku.py:171-176 | the three `swap_columns` calls of one iteration swap two whole stacks |
| Generator.DrawnMove | sudoku.py:156-176 | the move of one loop iteration is a symmetry |
| Generator.DrawnMoves | sudoku.py:156-176 | one symmetry per draw of the loop |
| Generator.LineMoves | sudoku.py:149-162 | the optional transpose, the row swaps and the column swaps are all symmetries |
| Generator.BlockMoves | sudoku.py:164-176 | the band swaps and the stack swaps are all symmetries |
| Generator.Moves | sudoku.py:149-176 | the whole shuffle, in source order, is a run of symmetries |
| Generator.SeedNumber | sudoku.py:128 | the seed number of a cell lies in 0..16 |
| Generator.Seed | sudoku.py:128 | the seed character of a cell is one of '0'..'9' |
| Generator.SeedDigitRange | sudoku.py:128 | `v % 10 + v // 10` of a seed number is a single digit, 0 only for v = 0 |
| Generator.SeedZeroOnlyAtOrigin | sudoku.py:128 | the seed is '0' at (0, 0) and nowhere else |
| Generator.SeedPeersDiffer | sudoku.py:128 | no two cells of one row, column or block get the same seed value |
| Generator.SeedNumbersOfPeers | sudoku.py:128 | peers get seed numbers that differ and are not nine apart |
| Generator.SeedNumbersApart | sudoku.py:128 | with rows written as band and offset, peer seed numbers differ by neither 0 nor 9 |
| Generator.SeedDigits | sudoku.py:128 | seed numbers that are neither equal nor nine apart give different digits |
| Generator.Carve | sudoku.py:124-128 | after carving, a cell holds its seed value iff its index was kept, '.' otherwise |
| Generator.CarveConsistent | sudoku.py:124-128 | the carved grid repeats no value in any row, column or block |
| Generator.CellOf | sudoku.py:126-127 | position k stands for cell (k // 9, k % 9), whose row-major index is k |
| Generator.CellsOfSize | sudoku.py:125-127 | distinct positions stand for as many distinct cells |
| Generator.CarveFilledCount | sudoku.py:123-128 | carving at distinct positions fills exactly as many cells as positions are kept |
| Generator.CarveEverything | sudoku.py:124-128 | keeping all 81 positions leaves no '.' |
| Generator.KeptCount | sudoku.py:120-123 | `positions[:min(N, 81)]` keeps min(N, 81) for N >= 0 and 81 + N (at least 0) for N < 0 |
| Generator.Generated | sudoku.py:119-178 | the grid `generate_sudoku` returns for the given random choices is 9x9 |
| Generator.GeneratedIsValid | sudoku.py:119-178 | the puzzle has exactly min(N, 81) filled cells, repeats no value in any group, and is full when N >= 81 |
| Generator.FullGeneratedHasZero | sudoku.py:128 | with N >= 81 the puzzle still contains the seed's '0' somewhere |
| Generator.SwapRows | sudoku.py:136-140 | `swap_rows` makes the grid the row swap of the old grid |
| Generator.SwapColumns | sudoku.py:142-147 | `swap_columns` makes the grid the column swap of the old grid |
| Generator.TransposeInPlace | sudoku.py:149-154 | the in-place loop over the cells above the diagonal leaves the transpose of the old grid |
| Generator.SwapBands | sudoku.py:166-169 | one band-loop iteration makes the grid the band swap of the old grid |
| Generator.SwapStacks | sudoku.py:173-176 | one stack-loop iteration makes the grid the stack swap of the old grid |
| Generator.ShuffleRows | sudoku.py:156-158 | the row loop applies one in-band row swap per draw, in order |
| Generator.ShuffleColumns | sudoku.py:160-162 | the column loop applies one in-stack column swap per draw, in order |
| Generator.ShuffleBands | sudoku.py:164-169 | the band loop applies one band swap per draw, in order |
| Generator.ShuffleStacks | sudoku.py:171-176 | the stack loop applies one stack swap per draw, in order |
| Generator.CarveGrid | sudoku.py:124-128 | the carving loop gives a fresh 9x9 grid equal to `Carve` of the kept positions |
| Generator.ShuffleLines | sudoku.py:149-162 | the transpose and the row and column loops apply their moves to the grid, in order |
| Generator.ShuffleBlocks | sudoku.py:164-176 | the band and stack loops apply their moves to the grid, in order |
| Generator.Shuffle | sudoku.py:149-176 | the whole shuffle applies all its moves to the grid, in source order |
| Generator.GenerateSudoku | sudoku.py:119-178 | returns `Generated` for its random choices: 9x9, exactly min(N, 81) filled cells, no repeats in any group, full when N >= 81 |
| Generator.FullPuzzlePassesCheck | sudoku.py:119-178 | a full generated puzzle passes `check_solution` although it contains '0' |

## Left out

- `read_sudoku` (sudoku.py:8-13), `display` (sudoku.py:22-34), the `__main__` block and main.py: file I/O and console output.
- Python's `random`: the shuffle of the 81 positions, the transpose flag and every `randint` in `generate_swap` and the four loop counts are parameters. They are constrained to the values `random` can return: a permutation of 0..80, a flag, and one to five valid draws per loop.
- `deepcopy` in `solve` is not modelled as object copying. Grids are values, so a branch's write cannot reach the caller's grid.
- Generator.SwapRows: `swap_rows` swaps two row list references. Here the grid is an array of nine row values and the slots trade values, so aliasing between rows is not modelled. The source's rows are distinct lists, so there is none to model.
- The accessors, the constraint step, the solver and the validators require a 9x9 grid and an in-grid position; other shapes are not modelled. On them the source does not always fail:
  - `solve` on the nine empty rows that `create_grid` returns for text without cell characters (Parsing.CreateGridOfNoCells) finds no '.', because the inner `range(len(grid[0]))` at sudoku.py:65 is empty. It then returns that grid as its solution at sudoku.py:81.
  - `find_empty_positions` scans any grid whose rows are at least as long as row 0, and `get_row` returns any row whose index is in range.
  - Elsewhere an index past the end of a row or column raises IndexError, and a negative index reads from the end.
- Parsing.Group: requires n > 0. The source raises on n = 0; for negative n it returns None unless -n divides the length, and then an empty list. It only ever calls `group` with 9.
- Python's `None` and `[]` (the falsy grids) are both the empty sequence for `check_solution` and `check_grid`, which return False on either. `check_grid`'s False/None result is `Option<bool>`, with `None` for Python's `None`.
- Solver.Solve: `solve(None)` raises a TypeError in the source, because `find_empty_positions` (sudoku.py:64) takes `len(None)`. The model's empty sequence is `solve([])` only, which returns None at sudoku.py:77; the raising call is not modelled.
- The solver's contracts do not say that a solution is unique, nor that None means no completion exists. The source promises neither.
- `get_block` works with its block size hard-coded at 3, as the source does. The commented-out square-root computation is not modelled.
