/**
  `solve`: depth-first backtracking over the first empty cell, trying its
  candidates in ascending order on a private copy of the grid and returning
  the first success. Copies are values here, so the caller's grid is never
  changed.
*/
module Solver {
  import opened Wrappers
  import opened Grids
  import opened Constraints
  import Validation

  /** Number of empty cells; 0 for the falsy grid. Each recursive call lowers it by one. */
  function EmptyCount(g: seq<seq<char>>): nat
    requires g == [] || IsGrid(g)
  {
    if g == [] then 0 else |EmptyCells(g)|
  }

  /** `s` keeps every filled cell of `g`. */
  predicate Extends(g: seq<seq<char>>, s: seq<seq<char>>)
    requires IsGrid(g) && IsGrid(s)
  {
    forall i, j :: 0 <= i < 9 && 0 <= j < 9 && g[i][j] != '.' ==> s[i][j] == g[i][j]
  }

  /** Every cell that is empty in `g` holds a digit in `s`. */
  predicate DigitsWhereEmpty(g: seq<seq<char>>, s: seq<seq<char>>)
    requires IsGrid(g) && IsGrid(s)
  {
    forall i, j :: 0 <= i < 9 && 0 <= j < 9 && g[i][j] == '.' ==> s[i][j] in Digits
  }

  /**
    `solve`. A grid without '.' is returned as it is, without a validity
    check; the empty grid `[]` gives None; otherwise the candidates of the first
    empty cell are tried in ascending order.
  */
  function Solve(grid: seq<seq<char>>): (r: Option<seq<seq<char>>>)
    requires grid == [] || IsGrid(grid)
    ensures r.Some? ==> grid != [] && IsGrid(r.value) && NoDots(r.value)
    ensures r.Some? ==> Extends(grid, r.value) && DigitsWhereEmpty(grid, r.value)
    decreases EmptyCount(grid), 1, 0
  {
    match FirstEmpty(grid)
    case None => if grid == [] then None else Some(grid)
    case Some(pos) =>
      var candidates := Ascending(PossibleValues(grid, pos));
      if |candidates| == 0 then None
      else
        CandidatesArePossible(grid, pos);
        TryCandidates(grid, pos, candidates)
  }

  /** Each entry of the sorted candidate list is a possible value, hence a digit. */
  lemma CandidatesArePossible(grid: seq<seq<char>>, pos: Pos)
    requires IsGrid(grid) && InGrid(pos)
    ensures var candidates := Ascending(PossibleValues(grid, pos));
      forall k :: 0 <= k < |candidates| ==>
        candidates[k] in PossibleValues(grid, pos) && candidates[k] in Digits
  {
    var vals := PossibleValues(grid, pos);
    var candidates := Ascending(vals);
    forall k | 0 <= k < |candidates| ensures candidates[k] in vals && candidates[k] in Digits {
      assert candidates[k] in candidates;
    }
  }

  /** The `for` loop of `solve` over the sorted candidates of `pos`. */
  function TryCandidates(grid: seq<seq<char>>, pos: Pos, candidates: seq<char>): (r: Option<seq<seq<char>>>)
    requires IsGrid(grid) && InGrid(pos) && At(grid, pos) == '.'
    requires forall k :: 0 <= k < |candidates| ==> candidates[k] in Digits
    ensures r.Some? ==> IsGrid(r.value) && NoDots(r.value)
    ensures r.Some? ==> Extends(grid, r.value) && DigitsWhereEmpty(grid, r.value)
    ensures r.Some? ==> At(r.value, pos) in candidates
    decreases EmptyCount(grid), 0, |candidates|
  {
    if candidates == [] then None
    else
      var copy := Place(grid, pos, candidates[0]);
      FillLowersEmptyCount(grid, pos, candidates[0]);
      match Solve(copy)
      case Some(solution) =>
        ExtendsThroughPlace(grid, pos, candidates[0], solution);
        Some(solution)
      case None => TryCandidates(grid, pos, candidates[1..])
  }

  /** Filling an empty cell with a digit leaves one empty cell fewer. */
  lemma FillLowersEmptyCount(g: seq<seq<char>>, pos: Pos, d: char)
    requires IsGrid(g) && InGrid(pos) && At(g, pos) == '.' && d in Digits
    ensures EmptyCount(Place(g, pos, d)) == EmptyCount(g) - 1
  {
    PlaceFillsOneCell(g, pos, d);
  }

  /** A completion of the copy with `d` at `pos` is a completion of the grid with `d` at `pos`. */
  lemma ExtendsThroughPlace(g: seq<seq<char>>, pos: Pos, d: char, s: seq<seq<char>>)
    requires IsGrid(g) && InGrid(pos) && At(g, pos) == '.' && d in Digits && IsGrid(s)
    requires Extends(Place(g, pos, d), s) && DigitsWhereEmpty(Place(g, pos, d), s)
    ensures Extends(g, s) && DigitsWhereEmpty(g, s) && At(s, pos) == d
  {
    var copy := Place(g, pos, d);
    assert At(copy, pos) == d;
    forall i, j | 0 <= i < 9 && 0 <= j < 9 && g[i][j] != '.' ensures s[i][j] == g[i][j] {
      assert At(copy, Pos(i, j)) == At(g, Pos(i, j));
    }
    forall i, j | 0 <= i < 9 && 0 <= j < 9 && g[i][j] == '.' ensures s[i][j] in Digits {
      if Pos(i, j) != pos {
        assert At(copy, Pos(i, j)) == At(g, Pos(i, j));
      }
    }
  }

  /** One turn of the candidate loop: the first candidate's result if it succeeds, else the rest of the loop. */
  lemma TryCandidatesStep(grid: seq<seq<char>>, pos: Pos, candidates: seq<char>)
    requires IsGrid(grid) && InGrid(pos) && At(grid, pos) == '.'
    requires forall k :: 0 <= k < |candidates| ==> candidates[k] in Digits
    requires candidates != []
    ensures TryCandidates(grid, pos, candidates) ==
      if Solve(Place(grid, pos, candidates[0])).Some? then Solve(Place(grid, pos, candidates[0]))
      else TryCandidates(grid, pos, candidates[1..])
  {
  }

  /** The candidate loop fails exactly when every candidate's recursive call fails. */
  lemma TryCandidatesFails(grid: seq<seq<char>>, pos: Pos, candidates: seq<char>)
    requires IsGrid(grid) && InGrid(pos) && At(grid, pos) == '.'
    requires forall k :: 0 <= k < |candidates| ==> candidates[k] in Digits
    ensures TryCandidates(grid, pos, candidates).None? <==>
      forall k :: 0 <= k < |candidates| ==> Solve(Place(grid, pos, candidates[k])).None?
  {
    var k := TryCandidatesFirstSuccess(grid, pos, candidates);
  }

  /**
    The candidate loop stops at the first candidate k whose recursive call
    succeeds and returns that call's result; every candidate before k failed.
    When no candidate succeeds, k is the number of candidates and the loop
    gives None.
  */
  lemma {:induction false} TryCandidatesFirstSuccess(grid: seq<seq<char>>, pos: Pos, candidates: seq<char>)
      returns (k: nat)
    requires IsGrid(grid) && InGrid(pos) && At(grid, pos) == '.'
    requires forall k :: 0 <= k < |candidates| ==> candidates[k] in Digits
    ensures k <= |candidates|
    ensures forall l :: 0 <= l < k ==> Solve(Place(grid, pos, candidates[l])).None?
    ensures k < |candidates| ==>
      && Solve(Place(grid, pos, candidates[k])).Some?
      && TryCandidates(grid, pos, candidates) == Solve(Place(grid, pos, candidates[k]))
    ensures k == |candidates| ==> TryCandidates(grid, pos, candidates).None?
    decreases |candidates|
  {
    if candidates == [] {
      k := 0;
    } else {
      TryCandidatesStep(grid, pos, candidates);
      if Solve(Place(grid, pos, candidates[0])).Some? {
        k := 0;
      } else {
        var j := TryCandidatesFirstSuccess(grid, pos, candidates[1..]);
        k := j + 1;
        FailuresShift(grid, pos, candidates, j);
      }
    }
  }

  /** Failures of the first j candidates after the head, with the head failing too, are failures of the first j + 1. */
  lemma FailuresShift(grid: seq<seq<char>>, pos: Pos, candidates: seq<char>, j: nat)
    requires IsGrid(grid) && InGrid(pos) && At(grid, pos) == '.'
    requires forall k :: 0 <= k < |candidates| ==> candidates[k] in Digits
    requires j < |candidates|
    requires Solve(Place(grid, pos, candidates[0])).None?
    requires forall l :: 0 <= l < j ==> Solve(Place(grid, pos, candidates[1..][l])).None?
    ensures forall l :: 0 <= l < j + 1 ==> Solve(Place(grid, pos, candidates[l])).None?
  {
    forall l | 0 < l < j + 1 ensures Solve(Place(grid, pos, candidates[l])).None? {
      assert candidates[l] == candidates[1..][l - 1];
    }
  }

  /** A grid without '.' comes back unchanged, whether or not it is a valid solution. */
  lemma SolveReturnsFullGrid(g: seq<seq<char>>)
    requires IsGrid(g) && NoDots(g)
    ensures Solve(g) == Some(g)
  {
  }

  /** The empty grid `[]` has no solution. */
  lemma SolveRejectsFalsyGrid()
    ensures Solve([]) == None
  {
  }

  /** When the first empty cell has no candidate, the search fails at once. */
  lemma SolveDeadEnd(g: seq<seq<char>>, pos: Pos)
    requires IsGrid(g) && FirstEmpty(g) == Some(pos)
    requires PossibleValues(g, pos) == {}
    ensures Solve(g) == None
  {
  }

  /** The value of a peer of `pos` is among the values of the row, column or block of `pos`. */
  lemma PeerValueSeen(g: seq<seq<char>>, pos: Pos, q: Pos)
    requires IsGrid(g) && InGrid(pos) && InGrid(q) && Peers(pos, q)
    ensures || At(g, q) in GetRow(g, pos)
            || At(g, q) in Column(g, pos.col)
            || At(g, q) in Box(g, pos.row / 3, pos.col / 3)
  {
    if q.row == pos.row {
      assert GetRow(g, pos)[q.col] == At(g, q);
    } else if q.col == pos.col {
      assert Column(g, pos.col)[q.row] == At(g, q);
    } else {
      BoxSlot(q);
      assert Box(g, pos.row / 3, pos.col / 3)[3 * (q.row % 3) + q.col % 3] == At(g, q);
    }
  }

  /** Writing a candidate into an empty cell keeps a consistent grid consistent. */
  lemma PlaceCandidateKeepsConsistency(g: seq<seq<char>>, pos: Pos, d: char)
    requires IsGrid(g) && InGrid(pos) && Consistent(g)
    requires d in PossibleValues(g, pos)
    ensures Consistent(Place(g, pos, d))
  {
    var g' := Place(g, pos, d);
    ConsistentIffPeersDiffer(g);
    forall p, q | InGrid(p) && InGrid(q) && Peers(p, q) && At(g', p) != '.'
      ensures At(g', p) != At(g', q)
    {
      if p == pos {
        PeerValueSeen(g, pos, q);
      } else if q == pos {
        PeerValueSeen(g, pos, p);
      }
    }
    ConsistentIffPeersDiffer(g');
  }

  /**
    Started on a grid with no repeated value in any row, column or block,
    whatever `solve` returns is a complete valid solution: no '.' and no
    repeats, which is exactly what `check_solution` accepts.
  */
  lemma {:induction false} SolveFindsValidSolution(grid: seq<seq<char>>)
    requires grid == [] || IsGrid(grid)
    requires grid != [] ==> Consistent(grid)
    ensures Solve(grid).Some? ==> NoDots(Solve(grid).value) && Consistent(Solve(grid).value)
    decreases EmptyCount(grid), 1, 0
  {
    match FirstEmpty(grid)
    case None =>
    case Some(pos) =>
      var candidates := Ascending(PossibleValues(grid, pos));
      if |candidates| > 0 {
        CandidatesArePossible(grid, pos);
        assert Solve(grid) == TryCandidates(grid, pos, candidates);
        TryFindsValidSolution(grid, pos, candidates);
      }
  }

  lemma {:induction false} TryFindsValidSolution(grid: seq<seq<char>>, pos: Pos, candidates: seq<char>)
    requires IsGrid(grid) && InGrid(pos) && At(grid, pos) == '.' && Consistent(grid)
    requires forall k :: 0 <= k < |candidates| ==>
      candidates[k] in PossibleValues(grid, pos) && candidates[k] in Digits
    ensures TryCandidates(grid, pos, candidates).Some? ==>
      Consistent(TryCandidates(grid, pos, candidates).value)
    decreases EmptyCount(grid), 0, |candidates|
  {
    if candidates != [] {
      var copy := Place(grid, pos, candidates[0]);
      FillLowersEmptyCount(grid, pos, candidates[0]);
      TryCandidatesStep(grid, pos, candidates);
      if Solve(copy).Some? {
        PlaceCandidateKeepsConsistency(grid, pos, candidates[0]);
        SolveFindsValidSolution(copy);
      } else {
        TryFindsValidSolution(grid, pos, candidates[1..]);
      }
    }
  }

  /** Filling an empty cell never adds a candidate to any cell. */
  lemma PlaceShrinksCandidates(g: seq<seq<char>>, pos: Pos, c: Pos, d: char)
    requires IsGrid(g) && InGrid(pos) && InGrid(c) && At(g, pos) == '.'
    ensures PossibleValues(Place(g, pos, d), c) <= PossibleValues(g, c)
  {
    var g' := Place(g, pos, d);
    forall j | 0 <= j < 9 && GetRow(g, c)[j] != '.' ensures GetRow(g', c)[j] == GetRow(g, c)[j] {
      assert At(g', Pos(c.row, j)) == At(g, Pos(c.row, j));
    }
    forall i | 0 <= i < 9 && Column(g, c.col)[i] != '.' ensures Column(g', c.col)[i] == Column(g, c.col)[i] {
      assert At(g', Pos(i, c.col)) == At(g, Pos(i, c.col));
    }
    forall k | 0 <= k < 9 && Box(g, c.row / 3, c.col / 3)[k] != '.'
      ensures Box(g', c.row / 3, c.col / 3)[k] == Box(g, c.row / 3, c.col / 3)[k]
    {
      var q := BoxCell(c.row / 3, c.col / 3, k);
      assert At(g', q) == At(g, q);
    }
  }

  /**
    A grid with an empty cell that has no candidate has no solution: filling
    other cells only removes candidates, so the cell stays dead until the
    search reaches it.
  */
  lemma {:induction false} SolveFailsOnDeadCell(grid: seq<seq<char>>, c: Pos)
    requires IsGrid(grid) && InGrid(c) && At(grid, c) == '.'
    requires PossibleValues(grid, c) == {}
    ensures Solve(grid).None?
    decreases EmptyCount(grid), 1, 0
  {
    match FirstEmpty(grid)
    case None =>
    case Some(pos) =>
      var candidates := Ascending(PossibleValues(grid, pos));
      if |candidates| > 0 {
        CandidatesArePossible(grid, pos);
        assert Solve(grid) == TryCandidates(grid, pos, candidates);
        TryFailsOnDeadCell(grid, pos, candidates, c);
      }
  }

  lemma {:induction false} TryFailsOnDeadCell(grid: seq<seq<char>>, pos: Pos, candidates: seq<char>, c: Pos)
    requires IsGrid(grid) && InGrid(pos) && At(grid, pos) == '.'
    requires forall k :: 0 <= k < |candidates| ==> candidates[k] in Digits
    requires InGrid(c) && c != pos && At(grid, c) == '.' && PossibleValues(grid, c) == {}
    ensures TryCandidates(grid, pos, candidates).None?
    decreases EmptyCount(grid), 0, |candidates|
  {
    if candidates != [] {
      var copy := Place(grid, pos, candidates[0]);
      FillLowersEmptyCount(grid, pos, candidates[0]);
      TryCandidatesStep(grid, pos, candidates);
      PlaceShrinksCandidates(grid, pos, c, candidates[0]);
      SolveFailsOnDeadCell(copy, c);
      TryFailsOnDeadCell(grid, pos, candidates[1..], c);
    }
  }

  /**
    `check_solution(solve(grid))`, with Python's `None` passed on as the
    falsy grid: the check fails when there is no solution, and on a grid
    that starts consistent it accepts whatever `solve` returns.
  */
  method SolveAndCheck(grid: seq<seq<char>>) returns (solution: Option<seq<seq<char>>>, ok: bool)
    requires grid == [] || IsGrid(grid)
    ensures solution == Solve(grid)
    ensures ok ==> solution.Some?
    ensures grid != [] && Consistent(grid) ==> (ok <==> solution.Some?)
  {
    solution := Solve(grid);
    if solution.Some? {
      if grid != [] && Consistent(grid) {
        SolveFindsValidSolution(grid);
      }
      ok := Validation.CheckSolution(solution.value);
    } else {
      ok := Validation.CheckSolution([]);
    }
  }
}
