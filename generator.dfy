/**
  `generate_sudoku`: carve a puzzle out of a closed-form seed grid, then
  shuffle it in place with an optional transpose, swaps of rows or columns
  inside a band or stack, and swaps of whole bands or stacks.

  The random choices are parameters: the shuffled list of the 81 positions,
  the transpose flag and, for each of the four swap loops, the draws of
  `generate_swap` (one to five of them, as `randint(1, 5)` allows).
*/
module Generator {
  import opened Grids
  import Validation

  // ---------------------------------------------------------------------
  // generate_swap

  /**
    The two draws one call of `generate_swap(n)` makes: `first` is
    `randint(0, n - 1)`, `second` the draw of the branch then taken
    (`randint(1, 2)`, or `randint(0, 1)` as the exponent of -1).
  */
  datatype SwapDraw = SwapDraw(first: int, second: int)

  predicate ValidDraw(n: int, d: SwapDraw) {
    && 0 <= d.first < n
    && (if d.first % 3 == 1 then 0 <= d.second <= 1 else 1 <= d.second <= 2)
  }

  /**
    `generate_swap(n)`: a pair (i, j) of distinct indices that, when n is a
    multiple of 3, lie in [0, n) and in the same group of three.
  */
  function GenerateSwap(n: int, d: SwapDraw): (pair: (int, int))
    requires ValidDraw(n, d)
    ensures pair.0 == d.first
    ensures n % 3 == 0 ==> 0 <= pair.1 < n && pair.1 != pair.0 && pair.1 / 3 == pair.0 / 3
  {
    var i := d.first;
    if i % 3 == 0 then (i, i + d.second)
    else if i % 3 == 1 then (i, i + (if d.second == 0 then 1 else -1))
    else (i, i - d.second)
  }

  /** Every pair of distinct indices in one group of three can come out of `generate_swap`. */
  lemma GenerateSwapReachesEveryPair(n: int, i: int, j: int)
    requires n % 3 == 0 && 0 <= i < n && 0 <= j < n && i != j && i / 3 == j / 3
    ensures exists d :: ValidDraw(n, d) && GenerateSwap(n, d) == (i, j)
  {
    var d := if i % 3 == 1 then SwapDraw(i, if j == i + 1 then 0 else 1)
             else if i % 3 == 0 then SwapDraw(i, j - i)
             else SwapDraw(i, i - j);
    assert ValidDraw(n, d) && GenerateSwap(n, d) == (i, j);
  }

  // ---------------------------------------------------------------------
  // Moves: what the transpose and the swaps do to the cells

  datatype Move =
    | Transpose
    | RowSwap(i: int, j: int)
    | ColumnSwap(i: int, j: int)
    | BandSwap(a: int, b: int)
    | StackSwap(a: int, b: int)

  predicate InRange(m: Move) {
    match m
    case Transpose => true
    case RowSwap(i, j) => 0 <= i < 9 && 0 <= j < 9
    case ColumnSwap(i, j) => 0 <= i < 9 && 0 <= j < 9
    case BandSwap(a, b) => 0 <= a < 3 && 0 <= b < 3
    case StackSwap(a, b) => 0 <= a < 3 && 0 <= b < 3
  }

  /**
    The moves that map rows, columns and blocks onto rows, columns and
    blocks: the transpose, swaps inside one band or stack, and swaps of
    whole bands or stacks.
  */
  predicate IsSymmetry(m: Move)
    ensures IsSymmetry(m) ==> InRange(m)
  {
    && InRange(m)
    && (m.RowSwap? ==> m.i / 3 == m.j / 3)
    && (m.ColumnSwap? ==> m.i / 3 == m.j / 3)
  }

  function Swap(x: int, i: int, j: int): int {
    if x == i then j else if x == j then i else x
  }

  /** The cell whose value the move brings to `p`. */
  function Origin(m: Move, p: Pos): (o: Pos)
    ensures InRange(m) && InGrid(p) ==> InGrid(o)
  {
    match m
    case Transpose => Pos(p.col, p.row)
    case RowSwap(i, j) => Pos(Swap(p.row, i, j), p.col)
    case ColumnSwap(i, j) => Pos(p.row, Swap(p.col, i, j))
    case BandSwap(a, b) => Pos(3 * Swap(p.row / 3, a, b) + p.row % 3, p.col)
    case StackSwap(a, b) => Pos(p.row, 3 * Swap(p.col / 3, a, b) + p.col % 3)
  }

  /** Every move undoes itself. */
  lemma OriginInvolution(m: Move, p: Pos)
    requires InRange(m) && InGrid(p)
    ensures Origin(m, Origin(m, p)) == p
  {
    BoxSlot(p);
  }

  /** The grid after the move. */
  function Apply(g: seq<seq<char>>, m: Move): (r: seq<seq<char>>)
    requires IsGrid(g) && InRange(m)
    ensures IsGrid(r)
    ensures forall p {:trigger At(r, p)} :: InGrid(p) ==> At(r, p) == At(g, Origin(m, p))
  {
    seq(9, row requires 0 <= row < 9 =>
      seq(9, col requires 0 <= col < 9 => At(g, Origin(m, Pos(row, col)))))
  }

  /** A swap of two lines of one group of three keeps every line in its group. */
  lemma SwapInGroup(x: int, i: int, j: int)
    requires 0 <= x < 9 && 0 <= i < 9 && 0 <= j < 9 && i / 3 == j / 3
    ensures 0 <= Swap(x, i, j) < 9 && Swap(x, i, j) / 3 == x / 3
  {
  }

  /** A swap of two groups of three moves a line to the same place in the other group. */
  lemma SwapGroups(x: int, a: int, b: int)
    requires 0 <= x < 9 && 0 <= a < 3 && 0 <= b < 3
    ensures var y := 3 * Swap(x / 3, a, b) + x % 3; 0 <= y < 9 && y / 3 == Swap(x / 3, a, b) && y % 3 == x % 3
  {
  }

  lemma TransposeKeepsPeers(p: Pos, q: Pos)
    requires InGrid(p) && InGrid(q) && Peers(p, q)
    ensures Peers(Origin(Transpose, p), Origin(Transpose, q))
  {
  }

  lemma RowSwapKeepsPeers(i: int, j: int, p: Pos, q: Pos)
    requires 0 <= i < 9 && 0 <= j < 9 && i / 3 == j / 3 && InGrid(p) && InGrid(q) && Peers(p, q)
    ensures Peers(Origin(RowSwap(i, j), p), Origin(RowSwap(i, j), q))
  {
    SwapInGroup(p.row, i, j);
    SwapInGroup(q.row, i, j);
  }

  lemma ColumnSwapKeepsPeers(i: int, j: int, p: Pos, q: Pos)
    requires 0 <= i < 9 && 0 <= j < 9 && i / 3 == j / 3 && InGrid(p) && InGrid(q) && Peers(p, q)
    ensures Peers(Origin(ColumnSwap(i, j), p), Origin(ColumnSwap(i, j), q))
  {
    SwapInGroup(p.col, i, j);
    SwapInGroup(q.col, i, j);
  }

  lemma BandSwapKeepsPeers(a: int, b: int, p: Pos, q: Pos)
    requires 0 <= a < 3 && 0 <= b < 3 && InGrid(p) && InGrid(q) && Peers(p, q)
    ensures Peers(Origin(BandSwap(a, b), p), Origin(BandSwap(a, b), q))
  {
    var po, qo := Origin(BandSwap(a, b), p), Origin(BandSwap(a, b), q);
    SwapGroups(p.row, a, b);
    SwapGroups(q.row, a, b);
    assert po.row / 3 == Swap(p.row / 3, a, b) && po.row % 3 == p.row % 3 && po.col == p.col;
    assert qo.row / 3 == Swap(q.row / 3, a, b) && qo.row % 3 == q.row % 3 && qo.col == q.col;
    BoxSlot(p);
    BoxSlot(q);
    assert (po.row / 3 == qo.row / 3) == (p.row / 3 == q.row / 3);
  }

  lemma StackSwapKeepsPeers(a: int, b: int, p: Pos, q: Pos)
    requires 0 <= a < 3 && 0 <= b < 3 && InGrid(p) && InGrid(q) && Peers(p, q)
    ensures Peers(Origin(StackSwap(a, b), p), Origin(StackSwap(a, b), q))
  {
    var po, qo := Origin(StackSwap(a, b), p), Origin(StackSwap(a, b), q);
    SwapGroups(p.col, a, b);
    SwapGroups(q.col, a, b);
    assert po.col / 3 == Swap(p.col / 3, a, b) && po.col % 3 == p.col % 3 && po.row == p.row;
    assert qo.col / 3 == Swap(q.col / 3, a, b) && qo.col % 3 == q.col % 3 && qo.row == q.row;
    BoxSlot(p);
    BoxSlot(q);
    assert (po.col / 3 == qo.col / 3) == (p.col / 3 == q.col / 3);
  }

  /** A symmetry sends peers to peers. */
  lemma SymmetryKeepsPeers(m: Move, p: Pos, q: Pos)
    requires IsSymmetry(m) && InGrid(p) && InGrid(q) && Peers(p, q)
    ensures Peers(Origin(m, p), Origin(m, q))
  {
    match m
    case Transpose => TransposeKeepsPeers(p, q);
    case RowSwap(i, j) => RowSwapKeepsPeers(i, j, p, q);
    case ColumnSwap(i, j) => ColumnSwapKeepsPeers(i, j, p, q);
    case BandSwap(a, b) => BandSwapKeepsPeers(a, b, p, q);
    case StackSwap(a, b) => StackSwapKeepsPeers(a, b, p, q);
  }

  /** A symmetry keeps every row, column and block of a grid free of repeats. */
  lemma SymmetryKeepsConsistency(g: seq<seq<char>>, m: Move)
    requires IsGrid(g) && IsSymmetry(m) && Consistent(g)
    ensures Consistent(Apply(g, m))
  {
    var g' := Apply(g, m);
    ConsistentIffPeersDiffer(g);
    forall p, q | InGrid(p) && InGrid(q) && Peers(p, q) && At(g', p) != '.'
      ensures At(g', p) != At(g', q)
    {
      SymmetryKeepsPeers(m, p, q);
    }
    ConsistentIffPeersDiffer(g');
  }

  /** A move sends a set of cells to a set of cells of the same size. */
  lemma {:induction false} MovedSetSize(s: set<Pos>, m: Move)
    requires InRange(m) && forall p :: p in s ==> InGrid(p)
    ensures |set p | p in s :: Origin(m, p)| == |s|
    decreases |s|
  {
    if s != {} {
      var x :| x in s;
      var rest := s - {x};
      MovedSetSize(rest, m);
      assert (set p | p in s :: Origin(m, p)) == (set p | p in rest :: Origin(m, p)) + {Origin(m, x)};
      if Origin(m, x) in (set p | p in rest :: Origin(m, p)) {
        var y :| y in rest && Origin(m, y) == Origin(m, x);
        OriginInvolution(m, x);
        OriginInvolution(m, y);
      }
    }
  }

  /** The filled cells after a move are where the move sends the filled cells before it. */
  lemma FilledCellsMove(g: seq<seq<char>>, m: Move)
    requires IsGrid(g) && InRange(m)
    ensures FilledCells(Apply(g, m)) == set p | p in FilledCells(g) :: Origin(m, p)
  {
    var g' := Apply(g, m);
    var image := set p | p in FilledCells(g) :: Origin(m, p);
    forall p | p in FilledCells(g') ensures p in image {
      OriginInvolution(m, p);
      assert Origin(m, p) in FilledCells(g);
    }
    forall p | p in image ensures p in FilledCells(g') {
      var o :| o in FilledCells(g) && p == Origin(m, o);
      OriginInvolution(m, o);
    }
  }

  /** Every move only moves cells: the number of filled cells stays the same. */
  lemma MoveKeepsFilledCount(g: seq<seq<char>>, m: Move)
    requires IsGrid(g) && InRange(m)
    ensures |FilledCells(Apply(g, m))| == |FilledCells(g)|
  {
    FilledCellsMove(g, m);
    MovedSetSize(FilledCells(g), m);
  }

  predicate AllInRange(moves: seq<Move>) {
    forall k :: 0 <= k < |moves| ==> InRange(moves[k])
  }

  predicate AllSymmetries(moves: seq<Move>)
    ensures AllSymmetries(moves) ==> AllInRange(moves)
  {
    forall k :: 0 <= k < |moves| ==> IsSymmetry(moves[k])
  }

  /** Moves applied in order. */
  function ApplyAll(g: seq<seq<char>>, moves: seq<Move>): (r: seq<seq<char>>)
    requires IsGrid(g) && AllInRange(moves)
    ensures IsGrid(r)
  {
    if moves == [] then g
    else Apply(ApplyAll(g, moves[..|moves| - 1]), moves[|moves| - 1])
  }

  /** One more move is applied after the others. */
  lemma ApplyAllStep(g: seq<seq<char>>, moves: seq<Move>, m: Move)
    requires IsGrid(g) && AllInRange(moves) && InRange(m)
    ensures AllInRange(moves + [m])
    ensures ApplyAll(g, moves + [m]) == Apply(ApplyAll(g, moves), m)
  {
    assert (moves + [m])[..|moves|] == moves;
  }

  /** Applying two runs of moves one after the other applies their concatenation. */
  lemma {:induction false} ApplyAllConcat(g: seq<seq<char>>, first: seq<Move>, second: seq<Move>)
    requires IsGrid(g) && AllInRange(first) && AllInRange(second)
    ensures AllInRange(first + second)
    ensures ApplyAll(g, first + second) == ApplyAll(ApplyAll(g, first), second)
  {
    if second == [] {
      assert first + second == first;
    } else {
      var init, last := second[..|second| - 1], second[|second| - 1];
      assert AllInRange(init);
      ApplyAllConcat(g, first, init);
      assert first + second == (first + init) + [last];
      ApplyAllStep(g, first + init, last);
      ApplyAllStep(ApplyAll(g, first), init, last);
      assert init + [last] == second;
    }
  }

  /** Every move keeps a grid free of '.'. */
  lemma MoveKeepsNoDots(g: seq<seq<char>>, m: Move)
    requires IsGrid(g) && InRange(m) && NoDots(g)
    ensures NoDots(Apply(g, m))
  {
    var g' := Apply(g, m);
    forall r, c | 0 <= r < 9 && 0 <= c < 9 ensures g'[r][c] != '.' {
      assert At(g', Pos(r, c)) == At(g, Origin(m, Pos(r, c)));
    }
  }

  /** A run of moves keeps the number of filled cells. */
  lemma {:induction false} MovesKeepFilledCount(g: seq<seq<char>>, moves: seq<Move>)
    requires IsGrid(g) && AllInRange(moves)
    ensures |FilledCells(ApplyAll(g, moves))| == |FilledCells(g)|
  {
    if moves != [] {
      var init := moves[..|moves| - 1];
      MovesKeepFilledCount(g, init);
      MoveKeepsFilledCount(ApplyAll(g, init), moves[|moves| - 1]);
    }
  }

  /** A run of moves keeps a grid free of '.'. */
  lemma {:induction false} MovesKeepNoDots(g: seq<seq<char>>, moves: seq<Move>)
    requires IsGrid(g) && AllInRange(moves) && NoDots(g)
    ensures NoDots(ApplyAll(g, moves))
  {
    if moves != [] {
      var init := moves[..|moves| - 1];
      MovesKeepNoDots(g, init);
      MoveKeepsNoDots(ApplyAll(g, init), moves[|moves| - 1]);
    }
  }

  /** A run of symmetries keeps every group of a grid free of repeats. */
  lemma {:induction false} SymmetriesKeepConsistency(g: seq<seq<char>>, moves: seq<Move>)
    requires IsGrid(g) && AllSymmetries(moves) && Consistent(g)
    ensures Consistent(ApplyAll(g, moves))
  {
    if moves != [] {
      var init := moves[..|moves| - 1];
      assert AllSymmetries(init);
      SymmetriesKeepConsistency(g, init);
      SymmetryKeepsConsistency(ApplyAll(g, init), moves[|moves| - 1]);
    }
  }

  /** A move puts the value of cell q at the cell that takes its value from q. */
  lemma MoveKeepsValue(g: seq<seq<char>>, m: Move, q: Pos)
    requires IsGrid(g) && InRange(m) && InGrid(q)
    ensures InGrid(Origin(m, q)) && At(Apply(g, m), Origin(m, q)) == At(g, q)
  {
    OriginInvolution(m, q);
  }

  /** A value present somewhere in the grid is still present after a run of moves. */
  lemma {:induction false} MovesKeepValue(g: seq<seq<char>>, moves: seq<Move>, q: Pos)
    requires IsGrid(g) && AllInRange(moves) && InGrid(q)
    ensures exists p :: InGrid(p) && At(ApplyAll(g, moves), p) == At(g, q)
  {
    if moves == [] {
      assert At(ApplyAll(g, moves), q) == At(g, q);
    } else {
      var init, last := moves[..|moves| - 1], moves[|moves| - 1];
      MovesKeepValue(g, init, q);
      var h := ApplyAll(g, init);
      var p :| InGrid(p) && At(h, p) == At(g, q);
      MoveKeepsValue(h, last, p);
      assert At(ApplyAll(g, moves), Origin(last, p)) == At(g, q);
    }
  }

  /** Index by index, three swaps of matching members of two groups of three swap the groups. */
  lemma ThreeSwapsSwapGroups(x: int, a: int, b: int)
    requires 0 <= x < 9 && 0 <= a < 3 && 0 <= b < 3
    ensures Swap(Swap(Swap(x, 3 * a + 2, 3 * b + 2), 3 * a + 1, 3 * b + 1), 3 * a, 3 * b)
         == 3 * Swap(x / 3, a, b) + x % 3
  {
  }

  /** Two grids that agree on every cell are equal. */
  lemma SameCells(g: seq<seq<char>>, h: seq<seq<char>>)
    requires IsGrid(g) && IsGrid(h)
    requires forall p :: InGrid(p) ==> At(g, p) == At(h, p)
    ensures g == h
  {
    forall r | 0 <= r < 9 ensures g[r] == h[r] {
      forall c | 0 <= c < 9 ensures g[r][c] == h[r][c] {
        assert At(g, Pos(r, c)) == At(h, Pos(r, c));
      }
    }
  }

  /** Where three row swaps, one per row of two bands, take a cell from. */
  lemma ThreeRowOrigins(a: int, b: int, p: Pos)
    requires 0 <= a < 3 && 0 <= b < 3 && InGrid(p)
    ensures Origin(RowSwap(3 * a, 3 * b), Origin(RowSwap(3 * a + 1, 3 * b + 1), Origin(RowSwap(3 * a + 2, 3 * b + 2), p)))
         == Origin(BandSwap(a, b), p)
  {
    ThreeSwapsSwapGroups(p.row, a, b);
  }

  /** Where three column swaps, one per column of two stacks, take a cell from. */
  lemma ThreeColumnOrigins(a: int, b: int, p: Pos)
    requires 0 <= a < 3 && 0 <= b < 3 && InGrid(p)
    ensures Origin(ColumnSwap(3 * a, 3 * b), Origin(ColumnSwap(3 * a + 1, 3 * b + 1), Origin(ColumnSwap(3 * a + 2, 3 * b + 2), p)))
         == Origin(StackSwap(a, b), p)
  {
    ThreeSwapsSwapGroups(p.col, a, b);
  }

  /** The three `swap_rows` calls of a band swap, one after the other, swap the two bands. */
  lemma ThreeRowSwapsSwapBands(g: seq<seq<char>>, a: int, b: int)
    requires IsGrid(g) && 0 <= a < 3 && 0 <= b < 3
    ensures Apply(Apply(Apply(g, RowSwap(3 * a, 3 * b)), RowSwap(3 * a + 1, 3 * b + 1)), RowSwap(3 * a + 2, 3 * b + 2))
         == Apply(g, BandSwap(a, b))
  {
    var m1, m2, m3 := RowSwap(3 * a, 3 * b), RowSwap(3 * a + 1, 3 * b + 1), RowSwap(3 * a + 2, 3 * b + 2);
    var g1 := Apply(g, m1);
    var g2 := Apply(g1, m2);
    var g3 := Apply(g2, m3);
    var want := Apply(g, BandSwap(a, b));
    forall p | InGrid(p) ensures At(g3, p) == At(want, p) {
      ThreeRowOrigins(a, b, p);
      assert At(g3, p) == At(g2, Origin(m3, p)) == At(g1, Origin(m2, Origin(m3, p)));
    }
    SameCells(g3, want);
  }

  /** The three `swap_columns` calls of a stack swap, one after the other, swap the two stacks. */
  lemma ThreeColumnSwapsSwapStacks(g: seq<seq<char>>, a: int, b: int)
    requires IsGrid(g) && 0 <= a < 3 && 0 <= b < 3
    ensures Apply(Apply(Apply(g, ColumnSwap(3 * a, 3 * b)), ColumnSwap(3 * a + 1, 3 * b + 1)), ColumnSwap(3 * a + 2, 3 * b + 2))
         == Apply(g, StackSwap(a, b))
  {
    var m1, m2, m3 := ColumnSwap(3 * a, 3 * b), ColumnSwap(3 * a + 1, 3 * b + 1), ColumnSwap(3 * a + 2, 3 * b + 2);
    var g1 := Apply(g, m1);
    var g2 := Apply(g1, m2);
    var g3 := Apply(g2, m3);
    var want := Apply(g, StackSwap(a, b));
    forall p | InGrid(p) ensures At(g3, p) == At(want, p) {
      ThreeColumnOrigins(a, b, p);
      assert At(g3, p) == At(g2, Origin(m3, p)) == At(g1, Origin(m2, Origin(m3, p)));
    }
    SameCells(g3, want);
  }

  // ---------------------------------------------------------------------
  // The moves each swap loop makes

  datatype Kind = Rows | Columns | Bands | Stacks

  /** The argument of `generate_swap` in the loop of that kind. */
  function Width(kind: Kind): int {
    if kind == Rows || kind == Columns then 9 else 3
  }

  /** One to five draws, each one `generate_swap(n)` could make. */
  predicate ValidDraws(n: int, ds: seq<SwapDraw>) {
    1 <= |ds| <= 5 && forall k :: 0 <= k < |ds| ==> ValidDraw(n, ds[k])
  }

  /** The move one iteration of the loop of that kind makes. */
  function DrawnMove(kind: Kind, d: SwapDraw): (m: Move)
    requires ValidDraw(Width(kind), d)
    ensures IsSymmetry(m)
  {
    var pair := GenerateSwap(Width(kind), d);
    match kind
    case Rows => RowSwap(pair.0, pair.1)
    case Columns => ColumnSwap(pair.0, pair.1)
    case Bands => BandSwap(pair.0, pair.1)
    case Stacks => StackSwap(pair.0, pair.1)
  }

  function DrawnMoves(kind: Kind, ds: seq<SwapDraw>): (moves: seq<Move>)
    requires forall k :: 0 <= k < |ds| ==> ValidDraw(Width(kind), ds[k])
    ensures AllSymmetries(moves) && |moves| == |ds|
  {
    seq(|ds|, k requires 0 <= k < |ds| => DrawnMove(kind, ds[k]))
  }

  /** All moves of `generate_sudoku`, in the order it makes them. */
  function Moves(transpose: bool, rowDraws: seq<SwapDraw>, columnDraws: seq<SwapDraw>,
                 bandDraws: seq<SwapDraw>, stackDraws: seq<SwapDraw>): (moves: seq<Move>)
    requires ValidDraws(9, rowDraws) && ValidDraws(9, columnDraws)
    requires ValidDraws(3, bandDraws) && ValidDraws(3, stackDraws)
    ensures AllSymmetries(moves)
  {
    LineMoves(transpose, rowDraws, columnDraws) + BlockMoves(bandDraws, stackDraws)
  }

  /** The optional transpose, the row swaps, then the column swaps. */
  function LineMoves(transpose: bool, rowDraws: seq<SwapDraw>, columnDraws: seq<SwapDraw>): (moves: seq<Move>)
    requires ValidDraws(9, rowDraws) && ValidDraws(9, columnDraws)
    ensures AllSymmetries(moves)
  {
    (if transpose then [Transpose] else []) + DrawnMoves(Rows, rowDraws) + DrawnMoves(Columns, columnDraws)
  }

  /** The band swaps, then the stack swaps. */
  function BlockMoves(bandDraws: seq<SwapDraw>, stackDraws: seq<SwapDraw>): (moves: seq<Move>)
    requires ValidDraws(3, bandDraws) && ValidDraws(3, stackDraws)
    ensures AllSymmetries(moves)
  {
    DrawnMoves(Bands, bandDraws) + DrawnMoves(Stacks, stackDraws)
  }

  // ---------------------------------------------------------------------
  // The seed grid and the carving

  /** The number the seed formula starts from, in 0..16. */
  function SeedNumber(p: Pos): (v: int)
    requires InGrid(p)
    ensures 0 <= v <= 16
  {
    p.col + 3 * (p.row % 3) + p.row / 3
  }

  /**
    The seed value of a cell: the decimal digit of `v % 10 + v // 10` for the
    seed number v, so numbers nine apart share a value, and (0, 0) gets '0'.
  */
  function Seed(p: Pos): (d: char)
    requires InGrid(p)
    ensures '0' <= d <= '9'
  {
    var v := SeedNumber(p);
    SeedDigitRange(v);
    ('0' as int + v % 10 + v / 10) as char
  }

  lemma SeedDigitRange(v: int)
    requires 0 <= v <= 16
    ensures 0 <= v % 10 + v / 10 <= 9
    ensures v % 10 + v / 10 == 0 <==> v == 0
  {
  }

  /** The seed puts '0', which is not a sudoku digit, at (0, 0) and nowhere else. */
  lemma SeedZeroOnlyAtOrigin(p: Pos)
    requires InGrid(p)
    ensures Seed(p) == '0' <==> p == Pos(0, 0)
  {
    SeedDigitRange(SeedNumber(p));
  }

  /** No two peers share a seed value. */
  lemma SeedPeersDiffer(p: Pos, q: Pos)
    requires InGrid(p) && InGrid(q) && Peers(p, q)
    ensures Seed(p) != Seed(q)
  {
    SeedNumbersOfPeers(p, q);
    SeedDigits(SeedNumber(p), SeedNumber(q));
  }

  /** Peers get seed numbers that differ, and not by 9. */
  lemma SeedNumbersOfPeers(p: Pos, q: Pos)
    requires InGrid(p) && InGrid(q) && Peers(p, q)
    ensures var v, w := SeedNumber(p), SeedNumber(q); v != w && v - w != 9 && w - v != 9
  {
    var band1, off1, band2, off2 := p.row / 3, p.row % 3, q.row / 3, q.row % 3;
    assert p.row == 3 * band1 + off1 && q.row == 3 * band2 + off2;
    assert band1 != band2 || off1 != off2 || p.col != q.col;
    assert (band1 == band2 && off1 == off2) || p.col == q.col || (band1 == band2 && p.col / 3 == q.col / 3);
    SeedNumbersApart(band1, off1, p.col, band2, off2, q.col);
  }

  /**
    Seed numbers of two peers, with a row written as 3 * band + offset: they
    are neither equal nor nine apart.
  */
  lemma SeedNumbersApart(band1: int, off1: int, col1: int, band2: int, off2: int, col2: int)
    requires 0 <= band1 < 3 && 0 <= off1 < 3 && 0 <= col1 < 9
    requires 0 <= band2 < 3 && 0 <= off2 < 3 && 0 <= col2 < 9
    requires band1 != band2 || off1 != off2 || col1 != col2
    requires (band1 == band2 && off1 == off2) || col1 == col2 || (band1 == band2 && col1 / 3 == col2 / 3)
    ensures var d := (col1 + 3 * off1 + band1) - (col2 + 3 * off2 + band2); d != 0 && d != 9 && d != -9
  {
  }

  /** Seed numbers give the same value only when equal or nine apart. */
  lemma SeedDigits(v: int, w: int)
    requires 0 <= v <= 16 && 0 <= w <= 16
    requires v != w && v - w != 9 && w - v != 9
    ensures v % 10 + v / 10 != w % 10 + w / 10
  {
  }

  /** The grid after the carving loop: the seed value where a kept position points, '.' elsewhere. */
  function Carve(kept: set<int>): (g: seq<seq<char>>)
    ensures IsGrid(g)
    ensures forall p {:trigger At(g, p)} :: InGrid(p) ==> At(g, p) == if Index(p) in kept then Seed(p) else '.'
  {
    seq(9, i requires 0 <= i < 9 =>
      seq(9, j requires 0 <= j < 9 => if 9 * i + j in kept then Seed(Pos(i, j)) else '.'))
  }

  /** Carving keeps every row, column and block free of repeats. */
  lemma CarveConsistent(kept: set<int>)
    ensures Consistent(Carve(kept))
  {
    var g := Carve(kept);
    forall p, q | InGrid(p) && InGrid(q) && Peers(p, q) && At(g, p) != '.'
      ensures At(g, p) != At(g, q)
    {
      SeedPeersDiffer(p, q);
    }
    ConsistentIffPeersDiffer(g);
  }

  /** The cell a position of `positions` stands for. */
  function CellOf(k: int): (p: Pos)
    requires 0 <= k < 81
    ensures InGrid(p) && Index(p) == k
  {
    Pos(k / 9, k % 9)
  }

  /** Distinct positions stand for distinct cells. */
  lemma {:induction false} CellsOfSize(s: seq<int>)
    requires forall k :: 0 <= k < |s| ==> 0 <= s[k] < 81
    requires forall k, l :: 0 <= k < l < |s| ==> s[k] != s[l]
    ensures |set k | k in s :: CellOf(k)| == |s|
  {
    if s != [] {
      var init, last := s[..|s| - 1], s[|s| - 1];
      CellsOfSize(init);
      assert (set k | k in s :: CellOf(k)) == (set k | k in init :: CellOf(k)) + {CellOf(last)};
    }
  }

  /** Carving at distinct positions fills exactly as many cells as positions are kept. */
  lemma CarveFilledCount(kept: seq<int>)
    requires forall k :: 0 <= k < |kept| ==> 0 <= kept[k] < 81
    requires forall k, l :: 0 <= k < l < |kept| ==> kept[k] != kept[l]
    ensures |FilledCells(Carve(Elems(kept)))| == |kept|
  {
    var g := Carve(Elems(kept));
    var cells := set k | k in kept :: CellOf(k);
    forall p | p in FilledCells(g) ensures p in cells {
      assert CellOf(Index(p)) == p;
    }
    assert FilledCells(g) == cells;
    CellsOfSize(kept);
  }

  /** Keeping every position leaves no '.'. */
  lemma CarveEverything(kept: set<int>)
    requires forall k :: 0 <= k < 81 ==> k in kept
    ensures NoDots(Carve(kept))
  {
    var g := Carve(kept);
    forall i, j | 0 <= i < 9 && 0 <= j < 9 ensures g[i][j] != '.' {
      assert At(g, Pos(i, j)) == Seed(Pos(i, j));
    }
  }

  /** What `random.shuffle(list(range(81)))` can return. */
  predicate IsShuffle(positions: seq<int>) {
    && |positions| == 81
    && (forall k :: 0 <= k < 81 ==> 0 <= positions[k] < 81)
    && (forall k, l :: 0 <= k < l < 81 ==> positions[k] != positions[l])
    && (forall k :: 0 <= k < 81 ==> k in positions)
  }

  /**
    How many positions `positions[:min(N, 81)]` keeps out of 81: min(N, 81)
    for N >= 0, and, as Python counts a negative end from the back, 81 + N
    (never below 0) for N < 0.
  */
  function KeptCount(n: int): (count: nat)
    ensures count <= 81
    ensures n >= 0 ==> count == if n < 81 then n else 81
    ensures n < 0 ==> count == if n < -81 then 0 else 81 + n
  {
    var m := if n < 81 then n else 81;
    if m >= 0 then m else if m >= -81 then 81 + m else 0
  }

  // ---------------------------------------------------------------------
  // The whole generator, as a function of its random choices

  /** The grid `generate_sudoku(n)` returns for the given random choices. */
  function Generated(n: int, positions: seq<int>, transpose: bool, rowDraws: seq<SwapDraw>,
                     columnDraws: seq<SwapDraw>, bandDraws: seq<SwapDraw>, stackDraws: seq<SwapDraw>): (g: seq<seq<char>>)
    requires IsShuffle(positions)
    requires ValidDraws(9, rowDraws) && ValidDraws(9, columnDraws)
    requires ValidDraws(3, bandDraws) && ValidDraws(3, stackDraws)
    ensures IsGrid(g)
  {
    ApplyAll(Carve(Elems(positions[..KeptCount(n)])),
             Moves(transpose, rowDraws, columnDraws, bandDraws, stackDraws))
  }

  /**
    The generated puzzle has exactly min(n, 81) filled cells (for n >= 0),
    repeats no value in a row, column or block, and is full when n >= 81.
  */
  lemma GeneratedIsValid(n: int, positions: seq<int>, transpose: bool, rowDraws: seq<SwapDraw>,
                         columnDraws: seq<SwapDraw>, bandDraws: seq<SwapDraw>, stackDraws: seq<SwapDraw>)
    requires IsShuffle(positions)
    requires ValidDraws(9, rowDraws) && ValidDraws(9, columnDraws)
    requires ValidDraws(3, bandDraws) && ValidDraws(3, stackDraws)
    ensures |FilledCells(Generated(n, positions, transpose, rowDraws, columnDraws, bandDraws, stackDraws))| == KeptCount(n)
    ensures Consistent(Generated(n, positions, transpose, rowDraws, columnDraws, bandDraws, stackDraws))
    ensures n >= 81 ==> NoDots(Generated(n, positions, transpose, rowDraws, columnDraws, bandDraws, stackDraws))
  {
    var prefix := positions[..KeptCount(n)];
    var kept := Elems(prefix);
    var moves := Moves(transpose, rowDraws, columnDraws, bandDraws, stackDraws);
    CarveFilledCount(prefix);
    MovesKeepFilledCount(Carve(kept), moves);
    CarveConsistent(kept);
    SymmetriesKeepConsistency(Carve(kept), moves);
    if n >= 81 {
      assert prefix == positions;
      CarveEverything(kept);
      MovesKeepNoDots(Carve(kept), moves);
    }
  }

  /** With n >= 81 the generated grid still holds the seed's '0' somewhere. */
  lemma FullGeneratedHasZero(n: int, positions: seq<int>, transpose: bool, rowDraws: seq<SwapDraw>,
                             columnDraws: seq<SwapDraw>, bandDraws: seq<SwapDraw>, stackDraws: seq<SwapDraw>)
    requires n >= 81 && IsShuffle(positions)
    requires ValidDraws(9, rowDraws) && ValidDraws(9, columnDraws)
    requires ValidDraws(3, bandDraws) && ValidDraws(3, stackDraws)
    ensures exists p :: InGrid(p) && At(Generated(n, positions, transpose, rowDraws, columnDraws, bandDraws, stackDraws), p) == '0'
  {
    var kept := Elems(positions[..KeptCount(n)]);
    assert positions[..KeptCount(n)] == positions;
    assert 0 in kept;
    var origin := Pos(0, 0);
    SeedZeroOnlyAtOrigin(origin);
    assert At(Carve(kept), origin) == '0';
    MovesKeepValue(Carve(kept), Moves(transpose, rowDraws, columnDraws, bandDraws, stackDraws), origin);
  }

  // ---------------------------------------------------------------------
  // The grid as the generator mutates it: an array of nine rows

  predicate IsBoard(grid: array<seq<char>>)
    reads grid
  {
    grid.Length == 9 && IsGrid(grid[..])
  }

  /** `swap_rows(grid, (i, j))`: the two row slots trade their rows. */
  method SwapRows(grid: array<seq<char>>, i: int, j: int)
    requires IsBoard(grid) && 0 <= i < 9 && 0 <= j < 9
    modifies grid
    ensures IsBoard(grid)
    ensures grid[..] == Apply(old(grid[..]), RowSwap(i, j))
  {
    ghost var before := grid[..];
    var tmp := grid[i];
    grid[i] := grid[j];
    grid[j] := tmp;
    ghost var want := Apply(before, RowSwap(i, j));
    forall r | 0 <= r < 9 ensures grid[r] == want[r] {
      forall c | 0 <= c < 9 ensures grid[r][c] == want[r][c] {
        assert At(want, Pos(r, c)) == At(before, Origin(RowSwap(i, j), Pos(r, c)));
      }
    }
  }

  /** `swap_columns(grid, (i, j))`: row by row, the cells of columns i and j trade places. */
  method SwapColumns(grid: array<seq<char>>, i: int, j: int)
    requires IsBoard(grid) && 0 <= i < 9 && 0 <= j < 9
    modifies grid
    ensures IsBoard(grid)
    ensures grid[..] == Apply(old(grid[..]), ColumnSwap(i, j))
  {
    ghost var before := grid[..];
    ghost var want := Apply(before, ColumnSwap(i, j));
    for k := 0 to 9
      invariant forall r :: 0 <= r < k ==> grid[r] == want[r]
      invariant forall r :: k <= r < 9 ==> grid[r] == before[r]
    {
      var tmp := grid[k][i];
      grid[k] := grid[k][i := grid[k][j]];
      grid[k] := grid[k][j := tmp];
      forall c | 0 <= c < 9 ensures grid[k][c] == want[k][c] {
        assert At(want, Pos(k, c)) == At(before, Origin(ColumnSwap(i, j), Pos(k, c)));
      }
    }
  }

  /** Cells the transpose loop has already swapped when it reaches (i, j). */
  predicate Swapped(r: int, c: int, i: int, j: int) {
    r < i || c < i || (r == i && i < c < j) || (c == i && i < r < j)
  }

  /** The transpose loop: every cell above the diagonal trades places with its mirror. */
  method TransposeInPlace(grid: array<seq<char>>)
    requires IsBoard(grid)
    modifies grid
    ensures IsBoard(grid)
    ensures grid[..] == Apply(old(grid[..]), Transpose)
  {
    ghost var before := grid[..];
    for i := 0 to 9
      invariant IsBoard(grid)
      invariant forall r, c {:trigger grid[r][c]} :: 0 <= r < 9 && 0 <= c < 9 ==>
        grid[r][c] == if Swapped(r, c, i, i + 1) then before[c][r] else before[r][c]
    {
      for j := i + 1 to 9
        invariant IsBoard(grid)
        invariant forall r, c {:trigger grid[r][c]} :: 0 <= r < 9 && 0 <= c < 9 ==>
          grid[r][c] == if Swapped(r, c, i, j) then before[c][r] else before[r][c]
      {
        var tmp := grid[i][j];
        grid[i] := grid[i][j := grid[j][i]];
        grid[j] := grid[j][i := tmp];
      }
    }
    ghost var want := Apply(before, Transpose);
    forall r | 0 <= r < 9 ensures grid[r] == want[r] {
      forall c | 0 <= c < 9 ensures grid[r][c] == want[r][c] {
        assert At(want, Pos(r, c)) == At(before, Pos(c, r));
      }
    }
  }

  /** The moves of the first c draws, then the move of draw c. */
  lemma DrawnMovesStep(kind: Kind, ds: seq<SwapDraw>, c: int)
    requires forall k :: 0 <= k < |ds| ==> ValidDraw(Width(kind), ds[k])
    requires 0 <= c < |ds|
    ensures DrawnMoves(kind, ds[..c + 1]) == DrawnMoves(kind, ds[..c]) + [DrawnMove(kind, ds[c])]
  {
  }

  /** A fill of the carving loop adds its position to the carved ones. */
  lemma CarveStep(kept: set<int>, pos: int)
    requires 0 <= pos < 81
    ensures Carve(kept + {pos}) == Place(Carve(kept), CellOf(pos), Seed(CellOf(pos)))
  {
    var g, g' := Carve(kept + {pos}), Place(Carve(kept), CellOf(pos), Seed(CellOf(pos)));
    forall r | 0 <= r < 9 ensures g[r] == g'[r] {
      forall c | 0 <= c < 9 ensures g[r][c] == g'[r][c] {
        assert At(g, Pos(r, c)) == At(g', Pos(r, c));
      }
    }
  }

  /** The row-swap loop: each draw swaps two rows of one band. */
  method ShuffleRows(grid: array<seq<char>>, draws: seq<SwapDraw>)
    requires IsBoard(grid) && ValidDraws(9, draws)
    modifies grid
    ensures IsBoard(grid)
    ensures grid[..] == ApplyAll(old(grid[..]), DrawnMoves(Rows, draws))
  {
    ghost var start := grid[..];
    for c := 0 to |draws|
      invariant IsBoard(grid)
      invariant grid[..] == ApplyAll(start, DrawnMoves(Rows, draws[..c]))
    {
      var pair := GenerateSwap(9, draws[c]);
      SwapRows(grid, pair.0, pair.1);
      DrawnMovesStep(Rows, draws, c);
      ApplyAllStep(start, DrawnMoves(Rows, draws[..c]), DrawnMove(Rows, draws[c]));
    }
    assert draws[..|draws|] == draws;
  }

  /** The column-swap loop: each draw swaps two columns of one stack. */
  method ShuffleColumns(grid: array<seq<char>>, draws: seq<SwapDraw>)
    requires IsBoard(grid) && ValidDraws(9, draws)
    modifies grid
    ensures IsBoard(grid)
    ensures grid[..] == ApplyAll(old(grid[..]), DrawnMoves(Columns, draws))
  {
    ghost var start := grid[..];
    for c := 0 to |draws|
      invariant IsBoard(grid)
      invariant grid[..] == ApplyAll(start, DrawnMoves(Columns, draws[..c]))
    {
      var pair := GenerateSwap(9, draws[c]);
      SwapColumns(grid, pair.0, pair.1);
      DrawnMovesStep(Columns, draws, c);
      ApplyAllStep(start, DrawnMoves(Columns, draws[..c]), DrawnMove(Columns, draws[c]));
    }
    assert draws[..|draws|] == draws;
  }

  /** The body of the band-swap loop: three `swap_rows` calls, one per row of the bands. */
  method SwapBands(grid: array<seq<char>>, i: int, j: int)
    requires IsBoard(grid) && 0 <= i < 3 && 0 <= j < 3
    modifies grid
    ensures IsBoard(grid)
    ensures grid[..] == Apply(old(grid[..]), BandSwap(i, j))
  {
    ghost var before := grid[..];
    SwapRows(grid, i * 3, j * 3);
    SwapRows(grid, i * 3 + 1, j * 3 + 1);
    SwapRows(grid, i * 3 + 2, j * 3 + 2);
    ThreeRowSwapsSwapBands(before, i, j);
  }

  /** The body of the stack-swap loop: three `swap_columns` calls, one per column of the stacks. */
  method SwapStacks(grid: array<seq<char>>, i: int, j: int)
    requires IsBoard(grid) && 0 <= i < 3 && 0 <= j < 3
    modifies grid
    ensures IsBoard(grid)
    ensures grid[..] == Apply(old(grid[..]), StackSwap(i, j))
  {
    ghost var before := grid[..];
    SwapColumns(grid, i * 3, j * 3);
    SwapColumns(grid, i * 3 + 1, j * 3 + 1);
    SwapColumns(grid, i * 3 + 2, j * 3 + 2);
    ThreeColumnSwapsSwapStacks(before, i, j);
  }

  /** The band-swap loop: each draw swaps two bands, one row triple at a time. */
  method ShuffleBands(grid: array<seq<char>>, draws: seq<SwapDraw>)
    requires IsBoard(grid) && ValidDraws(3, draws)
    modifies grid
    ensures IsBoard(grid)
    ensures grid[..] == ApplyAll(old(grid[..]), DrawnMoves(Bands, draws))
  {
    ghost var start := grid[..];
    for c := 0 to |draws|
      invariant IsBoard(grid)
      invariant grid[..] == ApplyAll(start, DrawnMoves(Bands, draws[..c]))
    {
      var pair := GenerateSwap(3, draws[c]);
      SwapBands(grid, pair.0, pair.1);
      DrawnMovesStep(Bands, draws, c);
      ApplyAllStep(start, DrawnMoves(Bands, draws[..c]), DrawnMove(Bands, draws[c]));
    }
    assert draws[..|draws|] == draws;
  }

  /** The stack-swap loop: each draw swaps two stacks, one column triple at a time. */
  method ShuffleStacks(grid: array<seq<char>>, draws: seq<SwapDraw>)
    requires IsBoard(grid) && ValidDraws(3, draws)
    modifies grid
    ensures IsBoard(grid)
    ensures grid[..] == ApplyAll(old(grid[..]), DrawnMoves(Stacks, draws))
  {
    ghost var start := grid[..];
    for c := 0 to |draws|
      invariant IsBoard(grid)
      invariant grid[..] == ApplyAll(start, DrawnMoves(Stacks, draws[..c]))
    {
      var pair := GenerateSwap(3, draws[c]);
      SwapStacks(grid, pair.0, pair.1);
      DrawnMovesStep(Stacks, draws, c);
      ApplyAllStep(start, DrawnMoves(Stacks, draws[..c]), DrawnMove(Stacks, draws[c]));
    }
    assert draws[..|draws|] == draws;
  }

  /** The carving loop: a grid of '.', then the seed value at every kept position. */
  method CarveGrid(kept: seq<int>) returns (grid: array<seq<char>>)
    requires forall k :: 0 <= k < |kept| ==> 0 <= kept[k] < 81
    ensures fresh(grid) && IsBoard(grid)
    ensures grid[..] == Carve(Elems(kept))
  {
    grid := new seq<char>[9](_ => seq(9, _ => '.'));
    assert grid[..] == Carve({}) by {
      var empty := Carve({});
      forall r | 0 <= r < 9 ensures grid[r] == empty[r] {
        forall c | 0 <= c < 9 ensures grid[r][c] == empty[r][c] {
          assert At(empty, Pos(r, c)) == '.';
        }
      }
    }
    assert Elems(kept[..0]) == {};
    for k := 0 to |kept|
      invariant IsBoard(grid)
      invariant grid[..] == Carve(Elems(kept[..k]))
    {
      var pos := kept[k];
      var i, j := pos / 9, pos % 9;
      ghost var before := grid[..];
      grid[i] := grid[i][j := Seed(Pos(i, j))];
      assert grid[..] == Place(before, CellOf(pos), Seed(CellOf(pos)));
      CarveStep(Elems(kept[..k]), pos);
      assert Elems(kept[..k + 1]) == Elems(kept[..k]) + {pos} by {
        assert kept[..k + 1] == kept[..k] + [pos];
      }
    }
    assert kept[..|kept|] == kept;
  }

  /** The optional transpose, then the four swap loops. */
  method Shuffle(grid: array<seq<char>>, transpose: bool, rowDraws: seq<SwapDraw>,
                 columnDraws: seq<SwapDraw>, bandDraws: seq<SwapDraw>, stackDraws: seq<SwapDraw>)
    requires IsBoard(grid)
    requires ValidDraws(9, rowDraws) && ValidDraws(9, columnDraws)
    requires ValidDraws(3, bandDraws) && ValidDraws(3, stackDraws)
    modifies grid
    ensures IsBoard(grid)
    ensures grid[..] == ApplyAll(old(grid[..]), Moves(transpose, rowDraws, columnDraws, bandDraws, stackDraws))
  {
    ghost var start := grid[..];
    ShuffleLines(grid, transpose, rowDraws, columnDraws);
    ShuffleBlocks(grid, bandDraws, stackDraws);
    ApplyAllConcat(start, LineMoves(transpose, rowDraws, columnDraws), BlockMoves(bandDraws, stackDraws));
  }

  /** The optional transpose, then the row and the column swap loops. */
  method ShuffleLines(grid: array<seq<char>>, transpose: bool, rowDraws: seq<SwapDraw>, columnDraws: seq<SwapDraw>)
    requires IsBoard(grid)
    requires ValidDraws(9, rowDraws) && ValidDraws(9, columnDraws)
    modifies grid
    ensures IsBoard(grid)
    ensures grid[..] == ApplyAll(old(grid[..]), LineMoves(transpose, rowDraws, columnDraws))
  {
    ghost var start := grid[..];
    ghost var done: seq<Move> := if transpose then [Transpose] else [];
    if transpose {
      TransposeInPlace(grid);
      assert done == [] + [Transpose];
      ApplyAllStep(start, [], Transpose);
    }
    assert grid[..] == ApplyAll(start, done) && AllInRange(done);
    ghost var rows := DrawnMoves(Rows, rowDraws);
    ShuffleRows(grid, rowDraws);
    ApplyAllConcat(start, done, rows);
    ghost var columns := DrawnMoves(Columns, columnDraws);
    ShuffleColumns(grid, columnDraws);
    ApplyAllConcat(start, done + rows, columns);
    assert LineMoves(transpose, rowDraws, columnDraws) == done + rows + columns;
  }

  /** The band swap loop, then the stack swap loop. */
  method ShuffleBlocks(grid: array<seq<char>>, bandDraws: seq<SwapDraw>, stackDraws: seq<SwapDraw>)
    requires IsBoard(grid)
    requires ValidDraws(3, bandDraws) && ValidDraws(3, stackDraws)
    modifies grid
    ensures IsBoard(grid)
    ensures grid[..] == ApplyAll(old(grid[..]), BlockMoves(bandDraws, stackDraws))
  {
    ghost var start := grid[..];
    ShuffleBands(grid, bandDraws);
    ShuffleStacks(grid, stackDraws);
    ApplyAllConcat(start, DrawnMoves(Bands, bandDraws), DrawnMoves(Stacks, stackDraws));
  }

  /**
    `generate_sudoku(n)`: keep the first min(n, 81) shuffled positions, write
    the seed value into each, optionally transpose, then run the four swap
    loops. The result is the grid `Generated` describes, so it has exactly
    min(n, 81) filled cells, repeats no value in any row, column or block,
    and is full when n >= 81.
  */
  method GenerateSudoku(n: int, positions: seq<int>, transpose: bool, rowDraws: seq<SwapDraw>,
                        columnDraws: seq<SwapDraw>, bandDraws: seq<SwapDraw>, stackDraws: seq<SwapDraw>)
    returns (puzzle: seq<seq<char>>)
    requires IsShuffle(positions)
    requires ValidDraws(9, rowDraws) && ValidDraws(9, columnDraws)
    requires ValidDraws(3, bandDraws) && ValidDraws(3, stackDraws)
    ensures puzzle == Generated(n, positions, transpose, rowDraws, columnDraws, bandDraws, stackDraws)
    ensures IsGrid(puzzle)
    ensures |FilledCells(puzzle)| == KeptCount(n)
    ensures Consistent(puzzle)
    ensures n >= 81 ==> NoDots(puzzle)
  {
    var m := if n < 81 then n else 81;
    var kept := if m >= 0 then positions[..m] else if m >= -81 then positions[..81 + m] else [];
    assert kept == positions[..KeptCount(n)];
    var grid := CarveGrid(kept);
    Shuffle(grid, transpose, rowDraws, columnDraws, bandDraws, stackDraws);
    puzzle := grid[..];
    GeneratedIsValid(n, positions, transpose, rowDraws, columnDraws, bandDraws, stackDraws);
  }

  /**
    A full puzzle (n = 81) passes `check_solution`, although it holds the
    character '0', which is not one of the digits '1'..'9'.
  */
  method FullPuzzlePassesCheck(positions: seq<int>, transpose: bool, rowDraws: seq<SwapDraw>,
                               columnDraws: seq<SwapDraw>, bandDraws: seq<SwapDraw>, stackDraws: seq<SwapDraw>)
    returns (puzzle: seq<seq<char>>, ok: bool)
    requires IsShuffle(positions)
    requires ValidDraws(9, rowDraws) && ValidDraws(9, columnDraws)
    requires ValidDraws(3, bandDraws) && ValidDraws(3, stackDraws)
    ensures ok
    ensures IsGrid(puzzle) && exists p :: InGrid(p) && At(puzzle, p) == '0'
  {
    puzzle := GenerateSudoku(81, positions, transpose, rowDraws, columnDraws, bandDraws, stackDraws);
    ok := Validation.CheckSolution(puzzle);
    FullGeneratedHasZero(81, positions, transpose, rowDraws, columnDraws, bandDraws, stackDraws);
  }
}
