/**
  Parsing a puzzle text: `create_grid` keeps the characters of "123456789."
  and `group` cuts them into rows.
*/
module Parsing {
  import opened Wrappers
  import opened Grids

  /** The characters `create_grid` keeps. */
  const CellChars: seq<char> := "123456789."

  /** Python's `s[lo:hi]` for 0 <= lo <= hi: both ends are clamped to `len(s)`. */
  function Slice<T>(s: seq<T>, lo: int, hi: int): (r: seq<T>)
    requires 0 <= lo <= hi
    ensures hi <= |s| ==> r == s[lo..hi]
    ensures |s| <= lo ==> r == []
  {
    var a := if lo <= |s| then lo else |s|;
    var b := if hi <= |s| then hi else |s|;
    s[a..b]
  }

  /** `group(values, n)`: None unless n divides the length, else the n slices of width n. */
  function Group<T>(values: seq<T>, n: int): (r: Option<seq<seq<T>>>)
    requires n > 0
    ensures r.None? <==> |values| % n != 0
    ensures r.Some? ==> |r.value| == n
  {
    if |values| % n != 0 then None
    else Some(seq(n, i requires 0 <= i < n => Slice(values, i * n, i * n + n)))
  }

  /** The rows laid end to end. */
  function Flatten<T>(rows: seq<seq<T>>): seq<T> {
    if rows == [] then [] else Flatten(rows[..|rows| - 1]) + rows[|rows| - 1]
  }

  /** The characters of the puzzle text that are digits or '.', in order. */
  function KeepCellChars(puzzle: string): (digits: string)
    ensures |digits| <= |puzzle|
    ensures forall c {:trigger c in digits} :: c in digits <==> c in puzzle && c in CellChars
    ensures forall c {:trigger multiset(digits)[c]} :: multiset(digits)[c] == if c in CellChars then multiset(puzzle)[c] else 0
  {
    if puzzle == [] then []
    else
      var rest := KeepCellChars(puzzle[1..]);
      assert puzzle == [puzzle[0]] + puzzle[1..];
      (if puzzle[0] in CellChars then [puzzle[0]] else []) + rest
  }

  /** Filtering a text piece by piece keeps the order of its pieces. */
  lemma {:induction false} KeepCellCharsConcat(a: string, b: string)
    ensures KeepCellChars(a + b) == KeepCellChars(a) + KeepCellChars(b)
  {
    if a != [] {
      assert (a + b)[1..] == a[1..] + b;
      assert (a + b)[0] == a[0];
      KeepCellCharsConcat(a[1..], b);
    } else {
      assert a + b == b;
    }
  }

  /**
    `create_grid`: None exactly when the number of cell characters is not a
    multiple of 9 (80 or 82, say); with exactly 81 a 9x9 grid whose rows,
    laid end to end, are those characters in text order.
  */
  function CreateGrid(puzzle: string): (r: Option<seq<seq<char>>>)
    ensures r.None? <==> |KeepCellChars(puzzle)| % 9 != 0
    ensures |KeepCellChars(puzzle)| == 81 ==>
      r.Some? && IsGrid(r.value) && Flatten(r.value) == KeepCellChars(puzzle)
  {
    var digits := KeepCellChars(puzzle);
    assert |digits| == 81 ==> IsGrid(Group(digits, 9).value) && Flatten(Group(digits, 9).value) == digits by {
      if |digits| == 81 {
        GroupSquare(digits, 9);
        assert digits[..81] == digits;
      }
    }
    Group(digits, 9)
  }

  /**
    The first m slices of `group` laid end to end are the first m*n values
    (fewer when the input runs out): `group` never reorders or invents values.
  */
  lemma {:induction false} GroupPrefix<T>(values: seq<T>, n: int, m: int)
    requires n > 0 && |values| % n == 0 && 0 <= m <= n
    ensures Group(values, n).Some?
    ensures var rows := Group(values, n).value;
      Flatten(rows[..m]) == values[..if m * n <= |values| then m * n else |values|]
  {
    var rows := Group(values, n).value;
    if m > 0 {
      var k := m - 1;
      GroupPrefix(values, n, k);
      var lo, hi := GroupRow(values, n, k);
      assert rows[..m][..k] == rows[..k];
      assert Flatten(rows[..m]) == Flatten(rows[..k]) + rows[k];
      assert values[..lo] + values[lo..hi] == values[..hi];
    } else {
      assert rows[..0] == [];
    }
  }

  /** Row `k` of the grouping is the slice from `k * n` to `(k + 1) * n`, cut at the end. */
  lemma GroupRow<T>(values: seq<T>, n: int, k: int) returns (lo: int, hi: int)
    requires n > 0 && |values| % n == 0 && 0 <= k < n
    ensures lo == (if k * n <= |values| then k * n else |values|)
    ensures hi == (if (k + 1) * n <= |values| then (k + 1) * n else |values|)
    ensures 0 <= lo <= hi <= |values|
    ensures Group(values, n).value[k] == values[lo..hi]
  {
    MulStep(k, n);
    var a, b := k * n, (k + 1) * n;
    assert b == a + n;
    lo := if a <= |values| then a else |values|;
    hi := if b <= |values| then b else |values|;
    assert Group(values, n).value[k] == Slice(values, a, a + n);
  }

  lemma MulStep(k: int, n: int)
    requires k >= 0 && n > 0
    ensures k * n >= 0 && k * n + n == (k + 1) * n
  {
  }

  /**
    `group` on exactly n*n values gives n rows of n whose concatenation is the
    input; with more values, only the first n*n are kept.
  */
  lemma GroupSquare<T>(values: seq<T>, n: int)
    requires n > 0 && |values| % n == 0 && |values| >= n * n
    ensures Group(values, n).Some?
    ensures forall i :: 0 <= i < n ==> |Group(values, n).value[i]| == n
    ensures Flatten(Group(values, n).value) == values[..n * n]
  {
    var rows := Group(values, n).value;
    GroupPrefix(values, n, n);
    assert rows[..n] == rows;
    forall i | 0 <= i < n ensures |rows[i]| == n {
      MulStep(i, n);
      MulMono(i + 1, n, n);
    }
  }

  lemma MulMono(a: int, b: int, n: int)
    requires 0 <= a <= b && n > 0
    ensures a * n <= b * n
  {
  }

  /** `create_grid` on text with no cell characters gives nine empty rows, not None. */
  lemma CreateGridOfNoCells(puzzle: string)
    requires KeepCellChars(puzzle) == []
    ensures CreateGrid(puzzle).Some?
    ensures |CreateGrid(puzzle).value| == 9
    ensures forall i :: 0 <= i < 9 ==> CreateGrid(puzzle).value[i] == []
  {
  }
}
