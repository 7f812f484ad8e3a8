/**
  The two validators. `check_solution` wants each of the 27 groups to hold 9
  distinct values, none of them '.'; `check_grid` wants no repeated non-'.'
  value in any group and, having no final `return`, answers False or None.
  Both test a group through the size of its set of values; the lemmas here
  turn those size tests into "no repeats" and "no '.'".
*/
module Validation {
  import opened Wrappers
  import opened Grids

  /** `sum(1 for e in s if e == '.')`. */
  function CountDots(s: seq<char>): (n: nat)
    ensures n <= |s|
    ensures n == 0 <==> '.' !in s
    ensures n == multiset(s)['.']
  {
    if s == [] then 0
    else
      assert s == [s[0]] + s[1..];
      (if s[0] == '.' then 1 else 0) + CountDots(s[1..])
  }

  lemma NoRepeatsCons(s: seq<char>)
    requires |s| > 0
    ensures NoRepeats(s) <==> NoRepeats(s[1..]) && (s[0] == '.' || s[0] !in s[1..])
  {
    var t := s[1..];
    if NoRepeats(s) {
      forall p, q | 0 <= p < |t| && 0 <= q < |t| && p != q && t[p] != '.' ensures t[p] != t[q] {
        assert t[p] == s[p + 1] && t[q] == s[q + 1];
      }
    }
    if NoRepeats(t) && (s[0] == '.' || s[0] !in t) {
      forall p, q | 0 <= p < |s| && 0 <= q < |s| && p != q && s[p] != '.' ensures s[p] != s[q] {
        if p == 0 {
          assert s[q] == t[q - 1];
        } else if q == 0 {
          assert s[p] == t[p - 1];
        } else {
          assert s[p] == t[p - 1] && s[q] == t[q - 1];
        }
      }
    }
  }

  /** Adding a cell in front adds one distinct non-'.' value exactly when it is new and not '.'. */
  lemma DistinctNonDotsCons(s: seq<char>)
    requires |s| > 0
    ensures var t := s[1..];
      |Elems(s) - {'.'}| == |Elems(t) - {'.'}| + (if s[0] != '.' && s[0] !in t then 1 else 0)
    ensures CountDots(s) == (if s[0] == '.' then 1 else 0) + CountDots(s[1..])
  {
    if s[0] == '.' || s[0] in s[1..] {
      OldFrontCell(s);
    } else {
      NewFrontCell(s);
    }
  }

  lemma OldFrontCell(s: seq<char>)
    requires |s| > 0 && (s[0] == '.' || s[0] in s[1..])
    ensures Elems(s) - {'.'} == Elems(s[1..]) - {'.'}
  {
    assert s == [s[0]] + s[1..];
  }

  lemma NewFrontCell(s: seq<char>)
    requires |s| > 0 && s[0] != '.' && s[0] !in s[1..]
    ensures |Elems(s) - {'.'}| == |Elems(s[1..]) - {'.'}| + 1
  {
    var before := Elems(s[1..]) - {'.'};
    assert s == [s[0]] + s[1..];
    assert Elems(s) - {'.'} == before + {s[0]};
    assert s[0] !in before;
  }

  /**
    The distinct non-'.' values of a sequence are at most its non-'.' cells,
    and exactly as many precisely when no non-'.' value repeats.
  */
  lemma {:induction false} DistinctNonDots(s: seq<char>)
    ensures |Elems(s) - {'.'}| <= |s| - CountDots(s)
    ensures |Elems(s) - {'.'}| == |s| - CountDots(s) <==> NoRepeats(s)
  {
    if s == [] {
      assert Elems(s) == {};
    } else {
      DistinctNonDots(s[1..]);
      DistinctNonDotsCons(s);
      NoRepeatsCons(s);
    }
  }

  /**
    The group test of `check_solution`: `len(set(s)) == 9 and '.' not in set(s)`.
    On a group of 9 it means: no '.' and no repeated value.
  */
  predicate GroupSolved(s: seq<char>)
    ensures |s| == 9 ==> (GroupSolved(s) <==> '.' !in s && NoRepeats(s))
  {
    DistinctNonDots(s);
    assert '.' !in s ==> Elems(s) - {'.'} == Elems(s);
    |Elems(s)| == 9 && '.' !in Elems(s)
  }

  /**
    The group test of `check_grid`: `len(set(s) - {'.'}) == 9 - (number of '.')`.
    On a group of 9 it means: no repeated non-'.' value.
  */
  predicate GroupConsistent(s: seq<char>)
    ensures |s| == 9 ==> (GroupConsistent(s) <==> NoRepeats(s))
  {
    DistinctNonDots(s);
    |Elems(s) - {'.'}| == 9 - CountDots(s)
  }

  /** A '.' in a block is a '.' in the grid. */
  lemma DotInBox(g: seq<seq<char>>, br: int, bc: int)
    requires IsGrid(g) && 0 <= br < 3 && 0 <= bc < 3 && '.' in Box(g, br, bc)
    ensures !NoDots(g)
  {
    var k :| 0 <= k < 9 && Box(g, br, bc)[k] == '.';
    assert g[3 * br + k / 3][3 * bc + k % 3] == '.';
  }

  /**
    `check_solution`: true exactly when the grid is non-empty, has no '.',
    and no row, column or block repeats a value.
  */
  method CheckSolution(solution: seq<seq<char>>) returns (ok: bool)
    requires solution == [] || IsGrid(solution)
    ensures ok <==> solution != [] && NoDots(solution) && Consistent(solution)
  {
    if solution == [] {
      return false;
    }
    for i := 0 to 3
      invariant forall br, bc :: 0 <= br < i && 0 <= bc < 3 ==>
        '.' !in Box(solution, br, bc) && NoRepeats(Box(solution, br, bc))
    {
      for j := 0 to 3
        invariant forall br, bc :: 0 <= br < i && 0 <= bc < 3 ==>
          '.' !in Box(solution, br, bc) && NoRepeats(Box(solution, br, bc))
        invariant forall bc :: 0 <= bc < j ==>
          '.' !in Box(solution, i, bc) && NoRepeats(Box(solution, i, bc))
      {
        var corner := Pos(i * 3, j * 3);
        assert corner.row / 3 == i && corner.col / 3 == j;
        var block := GetBlock(solution, corner);
        if !GroupSolved(block) {
          if '.' in block {
            DotInBox(solution, i, j);
          }
          return false;
        }
      }
    }
    for i := 0 to 9
      invariant forall r :: 0 <= r < i ==> '.' !in solution[r] && NoRepeats(solution[r])
      invariant forall c :: 0 <= c < i ==> '.' !in Column(solution, c) && NoRepeats(Column(solution, c))
    {
      var row := GetRow(solution, Pos(i, 0));
      var col := GetCol(solution, Pos(0, i));
      if !GroupSolved(row) {
        if '.' in row {
          var k :| 0 <= k < 9 && row[k] == '.';
          assert solution[i][k] == '.';
        }
        return false;
      }
      if !GroupSolved(col) {
        if '.' in col {
          var k :| 0 <= k < 9 && col[k] == '.';
          assert solution[k][i] == '.';
        }
        return false;
      }
    }
    assert NoDots(solution) by {
      forall r, c | 0 <= r < 9 && 0 <= c < 9 ensures solution[r][c] != '.' {
        assert solution[r][c] in solution[r];
      }
    }
    return true;
  }

  /** The first loop of `check_grid`: its group test on the 9 blocks, stopping at the first failure. */
  method BlocksPass(grid: seq<seq<char>>) returns (ok: bool)
    requires IsGrid(grid)
    ensures ok <==> forall br, bc :: 0 <= br < 3 && 0 <= bc < 3 ==> NoRepeats(Box(grid, br, bc))
  {
    for i := 0 to 3
      invariant forall br, bc :: 0 <= br < i && 0 <= bc < 3 ==> NoRepeats(Box(grid, br, bc))
    {
      for j := 0 to 3
        invariant forall br, bc :: 0 <= br < i && 0 <= bc < 3 ==> NoRepeats(Box(grid, br, bc))
        invariant forall bc :: 0 <= bc < j ==> NoRepeats(Box(grid, i, bc))
      {
        var pass := BlockPasses(grid, i, j);
        if !pass {
          return false;
        }
      }
    }
    return true;
  }

  /** The test `check_grid` applies to the block whose corner is (3 * br, 3 * bc). */
  method BlockPasses(grid: seq<seq<char>>, br: int, bc: int) returns (ok: bool)
    requires IsGrid(grid) && 0 <= br < 3 && 0 <= bc < 3
    ensures ok <==> NoRepeats(Box(grid, br, bc))
  {
    var corner := Pos(br * 3, bc * 3);
    assert corner.row / 3 == br && corner.col / 3 == bc;
    var block := GetBlock(grid, corner);
    ok := GroupConsistent(block);
  }

  /** The second loop of `check_grid`: its group test on row i and column i, for i from 0 to 8. */
  method LinesPass(grid: seq<seq<char>>) returns (ok: bool)
    requires IsGrid(grid)
    ensures ok <==> forall k :: 0 <= k < 9 ==> NoRepeats(grid[k]) && NoRepeats(Column(grid, k))
  {
    for i := 0 to 9
      invariant forall k :: 0 <= k < i ==> NoRepeats(grid[k]) && NoRepeats(Column(grid, k))
    {
      var row := GetRow(grid, Pos(i, 0));
      var col := GetCol(grid, Pos(0, i));
      if !GroupConsistent(row) {
        return false;
      }
      if !GroupConsistent(col) {
        return false;
      }
    }
    return true;
  }

  /**
    `check_grid`: False on the falsy grid or on a group that repeats a
    non-'.' value; otherwise it runs off its end and gives None, never True.
  */
  method CheckGrid(grid: seq<seq<char>>) returns (r: Option<bool>)
    requires grid == [] || IsGrid(grid)
    ensures r != Some(true)
    ensures r == if grid != [] && Consistent(grid) then None else Some(false)
  {
    if grid == [] {
      return Some(false);
    }
    var blocks := BlocksPass(grid);
    if !blocks {
      return Some(false);
    }
    var lines := LinesPass(grid);
    if !lines {
      return Some(false);
    }
    r := None;
  }
}
