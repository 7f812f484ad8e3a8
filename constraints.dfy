/**
  The constraint step: `find_empty_positions` (the first empty cell in
  row-major order) and `find_possible_values` (the digits a cell may take).
*/
module Constraints {
  import opened Wrappers
  import opened Grids

  /** The digits '1'..'9', Python's `set([str(i) for i in range(1, 10)])`. */
  const Digits: set<char> := {'1', '2', '3', '4', '5', '6', '7', '8', '9'}

  /** The same digits in ascending order. */
  function DigitOrder(): seq<char> {
    seq(9, i requires 0 <= i < 9 => ('1' as int + i) as char)
  }

  /** The first '.' at or after row-major index k. */
  function FirstEmptyFrom(g: seq<seq<char>>, k: int): (r: Option<Pos>)
    requires IsGrid(g) && 0 <= k <= 81
    ensures r.Some? ==> InGrid(r.value) && At(g, r.value) == '.' && k <= Index(r.value)
    ensures r.Some? ==> forall q {:trigger At(g, q)} :: InGrid(q) && k <= Index(q) < Index(r.value) ==> At(g, q) != '.'
    ensures r.None? ==> forall q {:trigger At(g, q)} :: InGrid(q) && k <= Index(q) ==> At(g, q) != '.'
    decreases 81 - k
  {
    if k == 81 then None
    else
      var p := Pos(k / 9, k % 9);
      CellAtIndex(k);
      if At(g, p) == '.' then Some(p)
      else FirstEmptyFrom(g, k + 1)
  }

  /** Row-major index `k` names exactly one cell. */
  lemma CellAtIndex(k: int)
    requires 0 <= k < 81
    ensures InGrid(Pos(k / 9, k % 9)) && Index(Pos(k / 9, k % 9)) == k
    ensures forall q :: InGrid(q) && Index(q) == k ==> q == Pos(k / 9, k % 9)
  {
    forall q | InGrid(q) && Index(q) == k ensures q == Pos(k / 9, k % 9) {
      IndexInjective(q, Pos(k / 9, k % 9));
    }
  }

  /** The first empty cell in row-major order, or None when there is none. */
  function FirstEmpty(g: seq<seq<char>>): (r: Option<Pos>)
    requires g == [] || IsGrid(g)
    ensures r.Some? ==> IsGrid(g) && InGrid(r.value) && At(g, r.value) == '.'
    ensures r.Some? ==> forall q {:trigger At(g, q)} :: InGrid(q) && Index(q) < Index(r.value) ==> At(g, q) != '.'
    ensures r.None? <==> NoDots(g)
  {
    if g == [] then None
    else
      var r := FirstEmptyFrom(g, 0);
      assert r.None? ==> NoDots(g) by {
        if r.None? {
          forall i, j | 0 <= i < 9 && 0 <= j < 9 ensures g[i][j] != '.' {
            var q := Pos(i, j);
            assert InGrid(q) && 0 <= Index(q);
            assert At(g, q) != '.';
          }
        }
      }
      assert r.Some? ==> !NoDots(g) by {
        if r.Some? {
          var q := r.value;
          assert g[q.row][q.col] == '.';
        }
      }
      r
  }

  /** `find_empty_positions`: a row-major scan that stops at the first '.'. */
  method FindEmptyPositions(grid: seq<seq<char>>) returns (r: Option<Pos>)
    requires grid == [] || IsGrid(grid)
    ensures r.Some? ==> IsGrid(grid) && InGrid(r.value) && At(grid, r.value) == '.'
    ensures r.Some? ==> forall q {:trigger At(grid, q)} :: InGrid(q) && Index(q) < Index(r.value) ==> At(grid, q) != '.'
    ensures r.None? <==> NoDots(grid)
    ensures r == FirstEmpty(grid)
  {
    var i := 0;
    while i < |grid|
      invariant 0 <= i <= |grid|
      invariant forall a, b :: 0 <= a < i && 0 <= b < |grid[a]| ==> grid[a][b] != '.'
    {
      var j := 0;
      while j < |grid[0]|
        invariant 0 <= j <= |grid[0]|
        invariant forall b :: 0 <= b < j ==> grid[i][b] != '.'
      {
        if grid[i][j] == '.' {
          r := Some(Pos(i, j));
          FirstDotIsUnique(grid, Pos(i, j));
          return;
        }
        j := j + 1;
      }
      i := i + 1;
    }
    r := None;
  }

  /** A '.' with no '.' before it in row-major order is what FirstEmpty finds. */
  lemma FirstDotIsUnique(g: seq<seq<char>>, p: Pos)
    requires IsGrid(g) && InGrid(p) && At(g, p) == '.'
    requires forall q {:trigger At(g, q)} :: InGrid(q) && Index(q) < Index(p) ==> At(g, q) != '.'
    ensures FirstEmpty(g) == Some(p)
  {
    assert !NoDots(g) by {
      assert g[p.row][p.col] == '.';
    }
    var q := FirstEmpty(g).value;
    assert !(Index(p) < Index(q));
    assert !(Index(q) < Index(p));
    IndexInjective(p, q);
  }

  lemma IndexInjective(p: Pos, q: Pos)
    requires InGrid(p) && InGrid(q) && Index(p) == Index(q)
    ensures p == q
  {
  }

  /**
    `find_possible_values`: the digits absent from the row, the column and the
    block of `pos`.
  */
  function PossibleValues(grid: seq<seq<char>>, pos: Pos): (vals: set<char>)
    requires IsGrid(grid) && InGrid(pos)
    ensures vals <= Digits
    ensures forall d {:trigger d in vals} :: d in vals <==>
      && d in Digits
      && d !in GetRow(grid, pos)
      && d !in Column(grid, pos.col)
      && d !in Box(grid, pos.row / 3, pos.col / 3)
  {
    Digits - (Elems(Box(grid, pos.row / 3, pos.col / 3) + GetRow(grid, pos) + Column(grid, pos.col)) - {'.'})
  }

  /** On a grid of only '.', every cell may take all nine digits. */
  lemma AllDigitsOnEmptyGrid(g: seq<seq<char>>, pos: Pos)
    requires IsGrid(g) && InGrid(pos)
    requires forall i, j :: 0 <= i < 9 && 0 <= j < 9 ==> g[i][j] == '.'
    ensures PossibleValues(g, pos) == Digits
  {
    var seen := Box(g, pos.row / 3, pos.col / 3) + GetRow(g, pos) + Column(g, pos.col);
    assert forall x :: x in seen ==> x == '.';
    assert Elems(seen) - {'.'} == {};
  }

  predicate Increasing(s: seq<char>) {
    forall p, q :: 0 <= p < q < |s| ==> s[p] < s[q]
  }

  /** The members of `s`, in the order they take in `order`. */
  function KeepIn(order: seq<char>, s: set<char>): (r: seq<char>)
    ensures forall d :: d in r <==> d in order && d in s
    ensures Increasing(order) ==> Increasing(r)
  {
    if order == [] then []
    else
      var rest := KeepIn(order[1..], s);
      var r := (if order[0] in s then [order[0]] else []) + rest;
      assert Increasing(order) ==> Increasing(r) by {
        if Increasing(order) && order[0] in s {
          assert forall d :: d in rest ==> order[0] < d;
          forall p, q | 0 <= p < q < |r| ensures r[p] < r[q] {
            if p > 0 {
              assert r[p] == rest[p - 1] && r[q] == rest[q - 1];
            } else {
              assert r[q] in rest;
            }
          }
        }
      }
      r
  }

  /** `sorted(list(cands))` for a set of digits: its members, ascending. */
  function Ascending(cands: set<char>): (r: seq<char>)
    requires cands <= Digits
    ensures forall d :: d in r <==> d in cands
    ensures Increasing(r)
    ensures |r| == 0 <==> cands == {}
  {
    assert forall d :: d in Digits ==> d in DigitOrder() by {
      forall d | d in Digits ensures d in DigitOrder() {
        assert DigitOrder()[d as int - '1' as int] == d;
      }
    }
    var r := KeepIn(DigitOrder(), cands);
    assert cands != {} ==> |r| > 0 by {
      if cands != {} {
        var d :| d in cands;
        assert d in r;
      }
    }
    assert |r| > 0 ==> r[0] in cands;
    r
  }
}
