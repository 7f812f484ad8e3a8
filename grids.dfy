/**
  The 9x9 grid, cell positions and the three kinds of groups (row, column,
  3x3 block), with the accessors `get_row`, `get_col` and `get_block`.

  A grid is a sequence of rows of characters; '.' marks an empty cell.
  The empty sequence `[]` stands for the falsy grid that several operations
  test for with `if not grid`.
*/
module Grids {

  /** A cell position: (row, column), both 0-indexed. */
  datatype Pos = Pos(row: int, col: int)

  predicate InGrid(p: Pos) {
    0 <= p.row < 9 && 0 <= p.col < 9
  }

  /** Exactly 9 rows of 9 cells. */
  predicate IsGrid(g: seq<seq<char>>) {
    |g| == 9 && forall i :: 0 <= i < 9 ==> |g[i]| == 9
  }

  function At(g: seq<seq<char>>, p: Pos): char
    requires IsGrid(g) && InGrid(p)
  {
    g[p.row][p.col]
  }

  /** Position of a cell in row-major order. */
  function Index(p: Pos): int {
    9 * p.row + p.col
  }

  /** The set of values of a sequence, Python's `set(s)`. */
  function Elems<T>(s: seq<T>): set<T> {
    set x | x in s
  }

  /** Column `c`, top to bottom. */
  function Column(g: seq<seq<char>>, c: int): seq<char>
    requires IsGrid(g) && 0 <= c < 9
  {
    seq(9, i requires 0 <= i < 9 => g[i][c])
  }

  /** The 3x3 block in band `br` and stack `bc`, in block-local row-major order. */
  function Box(g: seq<seq<char>>, br: int, bc: int): seq<char>
    requires IsGrid(g) && 0 <= br < 3 && 0 <= bc < 3
  {
    seq(9, k requires 0 <= k < 9 => g[3 * br + k / 3][3 * bc + k % 3])
  }

  /** `get_row`: the row that holds `pos`. */
  function GetRow(grid: seq<seq<char>>, pos: Pos): (row: seq<char>)
    requires IsGrid(grid) && 0 <= pos.row < 9
    ensures |row| == 9
    ensures forall j :: 0 <= j < 9 ==> row[j] == At(grid, Pos(pos.row, j))
  {
    grid[pos.row]
  }

  /** `get_col`: fills a list of `len(grid)` slots with the column of `pos`. */
  method GetCol(grid: seq<seq<char>>, pos: Pos) returns (col: seq<char>)
    requires IsGrid(grid) && 0 <= pos.col < 9
    ensures |col| == 9
    ensures forall i :: 0 <= i < 9 ==> col[i] == grid[i][pos.col]
    ensures col == Column(grid, pos.col)
  {
    var res := new char[|grid|];
    for i := 0 to |grid|
      invariant forall k :: 0 <= k < i ==> res[k] == grid[k][pos.col]
    {
      res[i] := grid[i][pos.col];
    }
    col := res[..];
  }

  /** `get_block` (with its block size n fixed at 3): fills a list of `len(grid[0])` slots with the 3x3 block around `pos`. */
  method GetBlock(grid: seq<seq<char>>, pos: Pos) returns (block: seq<char>)
    requires IsGrid(grid) && InGrid(pos)
    ensures block == Box(grid, pos.row / 3, pos.col / 3)
  {
    var y := pos.row / 3;
    var x := pos.col / 3;
    var res := new char[|grid[0]|];
    ghost var box := Box(grid, y, x);
    for i := 0 to 3
      invariant forall k :: 0 <= k < 3 * i ==> res[k] == box[k]
    {
      for j := 0 to 3
        invariant forall k :: 0 <= k < 3 * i + j ==> res[k] == box[k]
      {
        assert (i * 3 + j) / 3 == i && (i * 3 + j) % 3 == j;
        assert box[i * 3 + j] == grid[y * 3 + i][x * 3 + j];
        res[i * 3 + j] := grid[y * 3 + i][x * 3 + j];
      }
    }
    block := res[..];
  }

  /** The cell at `pos` is one of the values of its row, its column and its block. */
  lemma CellInItsGroups(g: seq<seq<char>>, pos: Pos)
    requires IsGrid(g) && InGrid(pos)
    ensures GetRow(g, pos)[pos.col] == At(g, pos)
    ensures Column(g, pos.col)[pos.row] == At(g, pos)
    ensures Box(g, pos.row / 3, pos.col / 3)[3 * (pos.row % 3) + pos.col % 3] == At(g, pos)
  {
    BoxSlot(pos);
  }

  /** Where a cell sits inside its block. */
  lemma BoxSlot(p: Pos)
    requires InGrid(p)
    ensures (3 * (p.row % 3) + p.col % 3) / 3 == p.row % 3
    ensures (3 * (p.row % 3) + p.col % 3) % 3 == p.col % 3
    ensures 3 * (p.row / 3) + p.row % 3 == p.row
    ensures 3 * (p.col / 3) + p.col % 3 == p.col
  {
  }

  /** The cell that sits at slot `k` of block (br, bc). */
  function BoxCell(br: int, bc: int, k: int): (p: Pos)
    requires 0 <= br < 3 && 0 <= bc < 3 && 0 <= k < 9
    ensures InGrid(p) && p.row / 3 == br && p.col / 3 == bc
    ensures p.row % 3 == k / 3 && p.col % 3 == k % 3
  {
    Pos(3 * br + k / 3, 3 * bc + k % 3)
  }

  /** No '.' anywhere (vacuously true of `[]`). */
  predicate NoDots(g: seq<seq<char>>) {
    forall i, j :: 0 <= i < |g| && 0 <= j < |g[i]| ==> g[i][j] != '.'
  }

  /** The empty cells of a grid. */
  function EmptyCells(g: seq<seq<char>>): (cells: set<Pos>)
    requires IsGrid(g)
    ensures forall p {:trigger p in cells} {:trigger At(g, p)} :: p in cells <==> InGrid(p) && At(g, p) == '.'
  {
    set i, j | 0 <= i < 9 && 0 <= j < 9 && g[i][j] == '.' :: Pos(i, j)
  }

  /** The filled (non-'.') cells of a grid. */
  function FilledCells(g: seq<seq<char>>): (cells: set<Pos>)
    requires IsGrid(g)
    ensures forall p {:trigger p in cells} {:trigger At(g, p)} :: p in cells <==> InGrid(p) && At(g, p) != '.'
  {
    set i, j | 0 <= i < 9 && 0 <= j < 9 && g[i][j] != '.' :: Pos(i, j)
  }

  /** No non-'.' value occurs twice in a group. */
  predicate NoRepeats(s: seq<char>) {
    forall p, q :: 0 <= p < |s| && 0 <= q < |s| && p != q && s[p] != '.' ==> s[p] != s[q]
  }

  /** Every row, column and block is free of repeated non-'.' values. */
  predicate Consistent(g: seq<seq<char>>)
    requires IsGrid(g)
  {
    && (forall i :: 0 <= i < 9 ==> NoRepeats(g[i]))
    && (forall c :: 0 <= c < 9 ==> NoRepeats(Column(g, c)))
    && (forall br, bc :: 0 <= br < 3 && 0 <= bc < 3 ==> NoRepeats(Box(g, br, bc)))
  }

  /** Two distinct cells that share a row, a column or a block. */
  predicate Peers(p: Pos, q: Pos) {
    && p != q
    && (p.row == q.row || p.col == q.col || (p.row / 3 == q.row / 3 && p.col / 3 == q.col / 3))
  }

  /** Pairwise form of consistency: a filled cell differs from all its peers. */
  ghost predicate PeersDiffer(g: seq<seq<char>>)
    requires IsGrid(g)
  {
    forall p, q :: InGrid(p) && InGrid(q) && Peers(p, q) && At(g, p) != '.' ==> At(g, p) != At(g, q)
  }

  lemma ConsistentIffPeersDiffer(g: seq<seq<char>>)
    requires IsGrid(g)
    ensures Consistent(g) <==> PeersDiffer(g)
  {
    if Consistent(g) {
      forall p, q | InGrid(p) && InGrid(q) && Peers(p, q) && At(g, p) != '.'
        ensures At(g, p) != At(g, q)
      {
        PeerValuesDiffer(g, p, q);
      }
    }
    if PeersDiffer(g) {
      PeersDifferInRows(g);
      PeersDifferInColumns(g);
      PeersDifferInBoxes(g);
    }
  }

  /** In a consistent grid, a filled cell differs from each of its peers. */
  lemma PeerValuesDiffer(g: seq<seq<char>>, p: Pos, q: Pos)
    requires IsGrid(g) && Consistent(g) && InGrid(p) && InGrid(q) && Peers(p, q) && At(g, p) != '.'
    ensures At(g, p) != At(g, q)
  {
    if p.row == q.row {
      assert NoRepeats(g[p.row]);
      assert g[p.row][p.col] == At(g, p) && g[p.row][q.col] == At(g, q);
    } else if p.col == q.col {
      var col := Column(g, p.col);
      assert NoRepeats(col);
      assert col[p.row] == At(g, p) && col[q.row] == At(g, q);
    } else {
      assert NoRepeats(Box(g, p.row / 3, p.col / 3));
      BoxPeerValuesDiffer(g, p, q);
    }
  }

  lemma BoxPeerValuesDiffer(g: seq<seq<char>>, p: Pos, q: Pos)
    requires IsGrid(g) && InGrid(p) && InGrid(q) && p != q && At(g, p) != '.'
    requires p.row / 3 == q.row / 3 && p.col / 3 == q.col / 3
    requires NoRepeats(Box(g, p.row / 3, p.col / 3))
    ensures At(g, p) != At(g, q)
  {
    var b := Box(g, p.row / 3, p.col / 3);
    BoxSlot(p);
    BoxSlot(q);
    var kp := 3 * (p.row % 3) + p.col % 3;
    var kq := 3 * (q.row % 3) + q.col % 3;
    assert 0 <= kp < 9 && 3 * (p.row / 3) + kp / 3 == p.row && 3 * (p.col / 3) + kp % 3 == p.col;
    assert 0 <= kq < 9 && 3 * (p.row / 3) + kq / 3 == q.row && 3 * (p.col / 3) + kq % 3 == q.col;
    assert b[kp] == At(g, p);
    assert b[kq] == At(g, q);
    assert kp / 3 != kq / 3 || kp % 3 != kq % 3;
  }

  lemma PeersDifferInRows(g: seq<seq<char>>)
    requires IsGrid(g) && PeersDiffer(g)
    ensures forall i :: 0 <= i < 9 ==> NoRepeats(g[i])
  {
    forall i | 0 <= i < 9 ensures NoRepeats(g[i]) {
      forall p, q | 0 <= p < 9 && 0 <= q < 9 && p != q && g[i][p] != '.'
        ensures g[i][p] != g[i][q]
      {
        assert Peers(Pos(i, p), Pos(i, q));
      }
    }
  }

  lemma PeersDifferInColumns(g: seq<seq<char>>)
    requires IsGrid(g) && PeersDiffer(g)
    ensures forall c :: 0 <= c < 9 ==> NoRepeats(Column(g, c))
  {
    forall c | 0 <= c < 9 ensures NoRepeats(Column(g, c)) {
      var col := Column(g, c);
      forall p, q | 0 <= p < 9 && 0 <= q < 9 && p != q && col[p] != '.'
        ensures col[p] != col[q]
      {
        assert Peers(Pos(p, c), Pos(q, c));
      }
    }
  }

  lemma PeersDifferInBoxes(g: seq<seq<char>>)
    requires IsGrid(g) && PeersDiffer(g)
    ensures forall br, bc :: 0 <= br < 3 && 0 <= bc < 3 ==> NoRepeats(Box(g, br, bc))
  {
    forall br, bc | 0 <= br < 3 && 0 <= bc < 3 ensures NoRepeats(Box(g, br, bc)) {
      PeersDifferInBox(g, br, bc);
    }
  }

  lemma PeersDifferInBox(g: seq<seq<char>>, br: int, bc: int)
    requires IsGrid(g) && PeersDiffer(g) && 0 <= br < 3 && 0 <= bc < 3
    ensures NoRepeats(Box(g, br, bc))
  {
    var b := Box(g, br, bc);
    forall p, q | 0 <= p < 9 && 0 <= q < 9 && p != q && b[p] != '.'
      ensures b[p] != b[q]
    {
      var u, v := BoxCell(br, bc, p), BoxCell(br, bc, q);
      assert b[p] == At(g, u) && b[q] == At(g, v);
      assert p / 3 != q / 3 || p % 3 != q % 3;
      assert Peers(u, v);
    }
  }

  /** `grid[pos.row][pos.col] = d` applied to a copy. */
  function Place(g: seq<seq<char>>, pos: Pos, d: char): (r: seq<seq<char>>)
    requires IsGrid(g) && InGrid(pos)
    ensures IsGrid(r) && At(r, pos) == d
    ensures forall q {:trigger At(r, q)} :: InGrid(q) && q != pos ==> At(r, q) == At(g, q)
  {
    g[pos.row := g[pos.row][pos.col := d]]
  }

  /** Filling an empty cell removes exactly that cell from the empty ones. */
  lemma PlaceFillsOneCell(g: seq<seq<char>>, pos: Pos, d: char)
    requires IsGrid(g) && InGrid(pos) && At(g, pos) == '.' && d != '.'
    ensures EmptyCells(Place(g, pos, d)) == EmptyCells(g) - {pos}
    ensures |EmptyCells(Place(g, pos, d))| == |EmptyCells(g)| - 1
  {
    var g' := Place(g, pos, d);
    forall p | p in EmptyCells(g') ensures p in EmptyCells(g) - {pos} {
      assert InGrid(p) && At(g', p) == '.';
    }
    forall p | p in EmptyCells(g) - {pos} ensures p in EmptyCells(g') {
      assert InGrid(p) && At(g', p) == '.';
    }
    assert pos in EmptyCells(g);
  }
}
