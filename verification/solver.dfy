/**
 * The backtracking solver (KillerSudoku/Solver.cs). It works on a copy of a
 * board's cells: it picks an unresolved cell, tries its symbols in order,
 * propagates each guess to the cell's neighbours, optionally recomputes the
 * domains of the cages from their sum, and recurses while the board stays
 * valid. Every guess pushes a snapshot of the board, which is restored when
 * the guess fails.
 */
module Solving {
  import opened Wrappers
  import opened Seqs
  import opened Utils
  import opened ArrayExtensions
  import opened Propagation
  import Boards
  import KillerBoards

  /** Every cell on the board holds at least one symbol (`IsNullOrEmpty` finds none). */
  predicate NoEmptyCell(g: Grid<string>)
    requires IsSquare(g, |g|)
  {
    forall c, r :: 0 <= c < |g| && 0 <= r < |g| ==> |g[c][r]| != 0
  }

  /** The symbols of the resolved domains among `domains`, in order. */
  function ResolvedSymbols(domains: seq<string>): (s: string)
    ensures |s| <= |domains|
    decreases |domains|
  {
    if domains == [] then []
    else
      var m := |domains| - 1;
      var rest := ResolvedSymbols(domains[..m]);
      if |domains[m]| == 1 then rest + [domains[m][0]] else rest
  }

  /** Every domain is resolved exactly when each contributes a symbol. */
  lemma {:induction false} ResolvedSymbolsCount(domains: seq<string>)
    ensures |ResolvedSymbols(domains)| == |domains| <==> forall i :: 0 <= i < |domains| ==> |domains[i]| == 1
    decreases |domains|
  {
    if domains != [] {
      var m := |domains| - 1;
      ResolvedSymbolsCount(domains[..m]);
      assert forall i :: 0 <= i < m ==> domains[..m][i] == domains[i];
    }
  }

  /**
   * `IsCageValid`: a cage whose cells are all resolved must reach its sum
   * exactly; a cage with an unresolved cell must still be strictly below it.
   */
  predicate IsCageValid(cells: seq<Pos>, sum: int, g: Grid<string>)
    requires IsSquare(g, |g|) && forall q :: q in cells ==> InBoard(q, |g|)
  {
    var resolved := ResolvedSymbols(CellsAt(g, cells));
    var calculatedSum := GetSumForDomain(resolved);
    if |resolved| == |cells| then calculatedSum == sum else calculatedSum < sum
  }

  /** `IsValid`: no empty cell and every cage valid. */
  predicate IsValid(g: Grid<string>, cages: seq<Cage>)
    requires IsSquare(g, |g|) && CagesInBoard(cages, |g|)
  {
    NoEmptyCell(g) &&
    forall k :: 0 <= k < |cages| ==> IsCageValid(cages[k].cells, cages[k].sum, g)
  }

  /** The string a fully resolved cage spells, one symbol per cell. */
  function Spelled(domains: seq<string>): (s: string)
    requires forall i :: 0 <= i < |domains| ==> |domains[i]| == 1
    ensures |s| == |domains| && forall i :: 0 <= i < |s| ==> s[i] == domains[i][0]
  {
    seq(|domains|, i requires 0 <= i < |domains| => domains[i][0])
  }

  /** A fully resolved cage's resolved symbols are the string it spells. */
  lemma {:induction false} ResolvedSpelled(domains: seq<string>)
    requires forall i :: 0 <= i < |domains| ==> |domains[i]| == 1
    ensures ResolvedSymbols(domains) == Spelled(domains)
    decreases |domains|
  {
    if domains != [] {
      var m := |domains| - 1;
      ResolvedSpelled(domains[..m]);
      assert Spelled(domains) == Spelled(domains[..m]) + [domains[m][0]];
    }
  }

  /**
   * A fully resolved cage is valid exactly when the string it spells is one of
   * the combinations `JoinDomainsWithSum` produces for its domains and sum.
   */
  lemma CompleteCageValid(cells: seq<Pos>, sum: int, g: Grid<string>)
    requires IsSquare(g, |g|) && (forall q :: q in cells ==> InBoard(q, |g|)) && |cells| >= 1
    requires forall i :: 0 <= i < |cells| ==> |CellAt(g, cells[i])| == 1
    ensures var domains := CellsAt(g, cells);
      IsCageValid(cells, sum, g) <==> Spelled(domains) in JoinDomainsWithSum(domains, sum)
  {
    var domains := CellsAt(g, cells);
    ResolvedSpelled(domains);
    var s := Spelled(domains);
    assert IsCombination(s, domains) by {
      forall i | 0 <= i < |s|
        ensures s[i] in domains[i]
      {
        assert domains[i] == [s[i]];
      }
    }
  }

  /** A complete board has exactly one symbol in every cell. */
  lemma CompleteResolved(g: Grid<string>)
    requires IsSquare(g, |g|) && IsComplete(g)
    ensures forall c, r :: 0 <= c < |g| && 0 <= r < |g| ==> |g[c][r]| == 1
  {
    CompleteIffNoDotShown(g);
  }

  lemma CellsResolved(g: Grid<string>, cells: seq<Pos>)
    requires IsSquare(g, |g|) && forall q :: q in cells ==> InBoard(q, |g|)
    requires forall c, r :: 0 <= c < |g| && 0 <= r < |g| ==> |g[c][r]| == 1
    ensures forall i :: 0 <= i < |cells| ==> |CellAt(g, cells[i])| == 1
  {
    forall i | 0 <= i < |cells|
      ensures |CellAt(g, cells[i])| == 1
    {
      assert cells[i] in cells;
    }
  }

  /** A valid cage whose cells are all resolved adds up to its sum. */
  lemma ResolvedCageAddsUp(cells: seq<Pos>, sum: int, g: Grid<string>)
    requires IsSquare(g, |g|) && forall q :: q in cells ==> InBoard(q, |g|)
    requires forall i :: 0 <= i < |cells| ==> |CellAt(g, cells[i])| == 1
    requires IsCageValid(cells, sum, g)
    ensures GetSumForDomain(Spelled(CellsAt(g, cells))) == sum
  {
    var d := CellsAt(g, cells);
    ResolvedSymbolsCount(d);
    ResolvedSpelled(d);
  }

  /**
   * A board that is complete and valid is solved: every cell holds exactly
   * one symbol, and the symbols of every cage add up to its sum.
   */
  lemma SolvedBoard(g: Grid<string>, cages: seq<Cage>)
    requires IsSquare(g, |g|) && CagesInBoard(cages, |g|)
    requires IsComplete(g) && IsValid(g, cages)
    ensures forall c, r :: 0 <= c < |g| && 0 <= r < |g| ==> |g[c][r]| == 1
    ensures forall k :: 0 <= k < |cages| ==>
      var domains := CellsAt(g, cages[k].cells);
      (forall i :: 0 <= i < |domains| ==> |domains[i]| == 1) &&
      GetSumForDomain(Spelled(domains)) == cages[k].sum
  {
    CompleteResolved(g);
    forall k | 0 <= k < |cages|
      ensures var domains := CellsAt(g, cages[k].cells);
        (forall i :: 0 <= i < |domains| ==> |domains[i]| == 1) &&
        GetSumForDomain(Spelled(domains)) == cages[k].sum
    {
      var cells := cages[k].cells;
      CellsResolved(g, cells);
      ResolvedCageAddsUp(cells, cages[k].sum, g);
    }
  }

  /** `d1` is `d0` narrowed without unresolving or changing a resolved domain. */
  predicate Narrowed(d1: string, d0: string)
  {
    |d1| <= |d0| && (|d0| == 1 ==> d1 == d0)
  }

  /** Resolving more cells never lowers the sum of the resolved symbols of a cage. */
  lemma {:induction false} ResolvedGrow(d1: seq<string>, d0: seq<string>)
    requires |d1| == |d0| && forall i :: 0 <= i < |d0| ==> Narrowed(d1[i], d0[i])
    ensures |ResolvedSymbols(d0)| <= |ResolvedSymbols(d1)|
    ensures GetSumForDomain(ResolvedSymbols(d0)) <= GetSumForDomain(ResolvedSymbols(d1))
    decreases |d0|
  {
    if d0 != [] {
      var m := |d0| - 1;
      var i1, i0 := d1[..m], d0[..m];
      assert forall i :: 0 <= i < m ==> i1[i] == d1[i] && i0[i] == d0[i];
      ResolvedGrow(i1, i0);
      LastStep(d1, d0);
    }
  }

  /** What the last domain adds to the resolved count and sum, in `d1` against `d0`. */
  lemma LastStep(d1: seq<string>, d0: seq<string>)
    requires |d1| == |d0| > 0 && Narrowed(d1[|d0| - 1], d0[|d0| - 1])
    ensures var m := |d0| - 1;
      |ResolvedSymbols(d1)| - |ResolvedSymbols(d1[..m])| >= |ResolvedSymbols(d0)| - |ResolvedSymbols(d0[..m])|
    ensures var m := |d0| - 1;
      var add1 := GetSumForDomain(ResolvedSymbols(d1)) - GetSumForDomain(ResolvedSymbols(d1[..m]));
      var add0 := GetSumForDomain(ResolvedSymbols(d0)) - GetSumForDomain(ResolvedSymbols(d0[..m]));
      add1 >= add0 && (|d1[m]| == 1 && |d0[m]| != 1 && d1[m][0] in PotentialDomain ==> add1 > add0)
  {
    var m := |d0| - 1;
    ResolvedStep(d1);
    ResolvedStep(d0);
    if |d1[m]| == 1 {
      SumStep(ResolvedSymbols(d1[..m]), d1[m][0]);
      if |d0[m]| == 1 {
        SumStep(ResolvedSymbols(d0[..m]), d0[m][0]);
      }
    }
  }

  /** One step of `ResolvedSymbols`: the last domain adds its symbol when resolved. */
  lemma ResolvedStep(d: seq<string>)
    requires |d| > 0
    ensures var m := |d| - 1;
      ResolvedSymbols(d) ==
        if |d[m]| == 1 then ResolvedSymbols(d[..m]) + [d[m][0]] else ResolvedSymbols(d[..m])
  {
  }

  lemma SumStep(s: string, c: char)
    ensures GetSumForDomain(s + [c]) == GetSumForDomain(s) + GetValueForDomainChar(c)
  {
    assert (s + [c])[..|s|] == s;
  }

  /**
   * Pruning is sound: a board that is not valid stays invalid when domains
   * shrink and resolved cells keep their symbol, because an empty cell stays
   * empty and the resolved sum of a cage can only grow. So no completion of
   * an invalid board is a solution.
   */
  lemma InvalidStaysInvalid(g1: Grid<string>, g0: Grid<string>, cages: seq<Cage>)
    requires Shrinks(g1, g0) && KeepsSingletons(g1, g0) && CagesInBoard(cages, |g0|)
    requires !IsValid(g0, cages)
    requires forall k, q :: 0 <= k < |cages| && q in cages[k].cells && |CellAt(g1, q)| == 1 ==>
      CellAt(g1, q)[0] in PotentialDomain
    ensures !IsValid(g1, cages)
  {
    if NoEmptyCell(g0) {
      var k :| 0 <= k < |cages| && !IsCageValid(cages[k].cells, cages[k].sum, g0);
      CageStaysInvalid(g1, g0, cages[k]);
    } else {
      var c, r :| 0 <= c < |g0| && 0 <= r < |g0| && |g0[c][r]| == 0;
      assert |g1[c][r]| == 0;
    }
  }

  /** The cage part of `InvalidStaysInvalid`, for one cage. */
  lemma CageStaysInvalid(g1: Grid<string>, g0: Grid<string>, cage: Cage)
    requires Shrinks(g1, g0) && KeepsSingletons(g1, g0)
    requires forall q :: q in cage.cells ==> InBoard(q, |g0|)
    requires !IsCageValid(cage.cells, cage.sum, g0)
    requires forall q :: q in cage.cells && |CellAt(g1, q)| == 1 ==> CellAt(g1, q)[0] in PotentialDomain
    ensures !IsCageValid(cage.cells, cage.sum, g1)
  {
    var cells := cage.cells;
    var d1 := CellsAt(g1, cells);
    var d0 := CellsAt(g0, cells);
    forall i | 0 <= i < |cells|
      ensures Narrowed(d1[i], d0[i])
    {
      assert cells[i] in cells;
    }
    ResolvedGrow(d1, d0);
    ResolvedSymbolsCount(d0);
    if |ResolvedSymbols(d0)| == |cells| {
      assert d1 == d0;
    } else if |ResolvedSymbols(d1)| == |cells| {
      NewlyFixedRaisesSum(d1, d0, cage, g1);
    }
  }

  /** A cage with a newly resolved symbol cell has a strictly larger resolved sum. */
  lemma NewlyFixedRaisesSum(d1: seq<string>, d0: seq<string>, cage: Cage, g1: Grid<string>)
    requires IsSquare(g1, |g1|) && (forall q :: q in cage.cells ==> InBoard(q, |g1|))
    requires d1 == CellsAt(g1, cage.cells) && |d0| == |d1|
    requires forall i :: 0 <= i < |d0| ==> Narrowed(d1[i], d0[i])
    requires forall q :: q in cage.cells && |CellAt(g1, q)| == 1 ==> CellAt(g1, q)[0] in PotentialDomain
    requires |ResolvedSymbols(d1)| == |d1| && |ResolvedSymbols(d0)| < |d0|
    ensures GetSumForDomain(ResolvedSymbols(d0)) < GetSumForDomain(ResolvedSymbols(d1))
  {
    ResolvedSymbolsCount(d1);
    ResolvedSymbolsCount(d0);
    var i :| 0 <= i < |d0| && |d0[i]| != 1;
    assert d1[i][0] in PotentialDomain by {
      assert cage.cells[i] in cage.cells;
    }
    ResolvedStrict(d1, d0, i);
  }

  lemma {:induction false} ResolvedStrict(d1: seq<string>, d0: seq<string>, i: int)
    requires |d1| == |d0| && 0 <= i < |d0| && forall j :: 0 <= j < |d0| ==> Narrowed(d1[j], d0[j])
    requires |d1[i]| == 1 && |d0[i]| != 1 && d1[i][0] in PotentialDomain
    ensures GetSumForDomain(ResolvedSymbols(d0)) < GetSumForDomain(ResolvedSymbols(d1))
    decreases |d0|
  {
    var m := |d0| - 1;
    var i1, i0 := d1[..m], d0[..m];
    PrefixNarrowed(d1, d0, m);
    LastStep(d1, d0);
    if i == m {
      ResolvedGrow(i1, i0);
    } else {
      assert i1[i] == d1[i] && i0[i] == d0[i];
      ResolvedStrict(i1, i0, i);
    }
  }

  /** Cells narrowed pairwise stay narrowed pairwise on a common prefix. */
  lemma PrefixNarrowed(d1: seq<string>, d0: seq<string>, m: int)
    requires |d1| == |d0| && 0 <= m <= |d0| && forall j :: 0 <= j < |d0| ==> Narrowed(d1[j], d0[j])
    ensures |d1[..m]| == |d0[..m]| == m && forall j :: 0 <= j < m ==> Narrowed(d1[..m][j], d0[..m][j])
  {
    forall j | 0 <= j < m
      ensures Narrowed(d1[..m][j], d0[..m][j])
    {
      assert d1[..m][j] == d1[j] && d0[..m][j] == d0[j];
    }
  }

  // Choosing the cell to guess (`GetMostConstrainedVariable`)

  /** The size of the domain of cell number `j` in row-major order. */
  function SizeAt(g: Grid<string>, j: int): nat
    requires IsSquare(g, |g|) && |g| > 0 && 0 <= j < |g| * |g|
  {
    |CellAt(g, IndexToPos(j, |g|))|
  }

  /**
   * The row-major number of the first unresolved cell (more than one symbol)
   * at number `i` or later; cell j of the order is `IndexToPos(j)`, rows
   * outer, columns inner.
   */
  function FirstVariableFrom(g: Grid<string>, i: int): (r: Option<int>)
    requires IsSquare(g, |g|) && |g| > 0 && 0 <= i <= |g| * |g|
    ensures r.Some? ==>
      i <= r.value < |g| * |g| && SizeAt(g, r.value) > 1 &&
      forall j :: i <= j < r.value ==> SizeAt(g, j) <= 1
    ensures r.None? ==> forall j :: i <= j < |g| * |g| ==> SizeAt(g, j) <= 1
    decreases |g| * |g| - i
  {
    if i == |g| * |g| then None
    else if SizeAt(g, i) > 1 then Some(i)
    else FirstVariableFrom(g, i + 1)
  }

  /**
   * The number of an unresolved cell of least size at number `i` or later,
   * the earliest one among equals (`MinBy` keeps the first minimum).
   */
  function MinVariableFrom(g: Grid<string>, i: int): (r: Option<int>)
    requires IsSquare(g, |g|) && |g| > 0 && 0 <= i <= |g| * |g|
    ensures r.Some? ==>
      i <= r.value < |g| * |g| && SizeAt(g, r.value) > 1 &&
      (forall j :: i <= j < |g| * |g| && SizeAt(g, j) > 1 ==> SizeAt(g, r.value) <= SizeAt(g, j)) &&
      (forall j :: i <= j < r.value && SizeAt(g, j) > 1 ==> SizeAt(g, r.value) < SizeAt(g, j))
    ensures r.None? ==> forall j :: i <= j < |g| * |g| ==> SizeAt(g, j) <= 1
    decreases |g| * |g| - i
  {
    if i == |g| * |g| then None
    else
      var rest := MinVariableFrom(g, i + 1);
      if SizeAt(g, i) > 1 && (rest.None? || SizeAt(g, i) <= SizeAt(g, rest.value)) then Some(i)
      else rest
  }

  /**
   * `GetMostConstrainedVariable`: with the heuristic an unresolved cell of
   * least size, otherwise the first unresolved cell; `None` where LINQ's
   * `First` or `MinBy` would throw for want of one.
   */
  function GetMostConstrainedVariable(g: Grid<string>, useHeuristic: bool): (r: Option<Pos>)
    requires IsSquare(g, |g|)
    ensures r.Some? ==> InBoard(r.value, |g|) && |CellAt(g, r.value)| > 1
  {
    if |g| == 0 then None
    else
      var k := if useHeuristic then MinVariableFrom(g, 0) else FirstVariableFrom(g, 0);
      if k.None? then None else Some(IndexToPos(k.value, |g|))
  }

  /**
   * The choice in terms of cells: there is one exactly when some cell is
   * unresolved; without the heuristic every cell before it (row-major) is
   * resolved or empty; with it no unresolved cell is smaller, and every
   * unresolved cell before it is larger.
   */
  lemma VariableChoice(g: Grid<string>, useHeuristic: bool, q: Pos)
    requires IsSquare(g, |g|) && InBoard(q, |g|)
    ensures var r := GetMostConstrainedVariable(g, useHeuristic);
      (r.None? ==> |CellAt(g, q)| <= 1) &&
      (r.Some? && !useHeuristic && PosToIndex(q, |g|) < PosToIndex(r.value, |g|) ==> |CellAt(g, q)| <= 1) &&
      (r.Some? && useHeuristic && |CellAt(g, q)| > 1 ==> |CellAt(g, r.value)| <= |CellAt(g, q)|) &&
      (r.Some? && useHeuristic && |CellAt(g, q)| > 1 && PosToIndex(q, |g|) < PosToIndex(r.value, |g|) ==>
        |CellAt(g, r.value)| < |CellAt(g, q)|)
  {
    var n := |g|;
    var j := PosToIndex(q, n);
    PosIndexRoundTrip(q, n);
    assert SizeAt(g, j) == |CellAt(g, q)|;
    var k := if useHeuristic then MinVariableFrom(g, 0) else FirstVariableFrom(g, 0);
    if k.Some? {
      var p := IndexToPos(k.value, n);
      assert PosToIndex(p, n) == k.value;
      assert SizeAt(g, k.value) == |CellAt(g, p)|;
    }
  }

  /**
   * On a board with no empty cell and no `.` that is not complete, some cell
   * is unresolved: so the choice exists and the guard that throws
   * `ArgumentException` before the guessing loop is never taken.
   */
  lemma VariableExists(g: Grid<string>, useHeuristic: bool)
    requires IsSquare(g, |g|) && DotFree(g) && NoEmptyCell(g) && !IsComplete(g)
    ensures GetMostConstrainedVariable(g, useHeuristic).Some?
  {
    CompleteIffNoDotShown(g);
    var c, r :| 0 <= c < |g| && 0 <= r < |g| && CellChar(g[c][r]) == '.';
    assert '.' !in g[c][r];
    VariableChoice(g, useHeuristic, Pos(c, r));
  }

  // Neighbours (`GetCellNeighbourPositions`, `GetCellVariableNeighbours`)

  /** The other cells of the column of `p`, top to bottom. */
  function ColumnNeighbours(p: Pos, n: nat): (r: seq<Pos>)
    ensures forall q :: q in r <==> q.col == p.col && 0 <= q.row < n && q != p
  {
    var column := seq(n, row => Pos(p.col, row));
    assert forall q :: q in column <==> q.col == p.col && 0 <= q.row < n by {
      forall q: Pos | q.col == p.col && 0 <= q.row < n
        ensures q in column
      {
        assert column[q.row] == q;
      }
    }
    Without(column, p)
  }

  /** The other cells of the row of `p`, left to right. */
  function RowNeighbours(p: Pos, n: nat): (r: seq<Pos>)
    ensures forall q :: q in r <==> q.row == p.row && 0 <= q.col < n && q != p
  {
    var row := seq(n, col => Pos(col, p.row));
    assert forall q :: q in row <==> q.row == p.row && 0 <= q.col < n by {
      forall q: Pos | q.row == p.row && 0 <= q.col < n
        ensures q in row
      {
        assert row[q.col] == q;
      }
    }
    Without(row, p)
  }

  /** The other cells of the block of `p`, row-major within the block. */
  function BlockNeighbours(p: Pos, n: int): (r: seq<Pos>)
    requires n > 0 && BoardSizeToBlockSize(n) * BoardSizeToBlockSize(n) == n
  {
    var b := BoardSizeToBlockSize(n);
    var indices := Without(Range(0, n - 1), PosToIndexInBlock(p, b));
    seq(|indices|, i requires 0 <= i < |indices| => BlockCell(PosToBlockPos(p, b), indices[i], b))
  }

  /** The block neighbours of `p` are the cells of its block other than `p`. */
  lemma BlockNeighboursMember(p: Pos, n: int, q: Pos)
    requires n > 0 && BoardSizeToBlockSize(n) * BoardSizeToBlockSize(n) == n && InBoard(p, n)
    ensures q in BlockNeighbours(p, n) <==> InBoard(q, n) && SameBlock(q, p, BoardSizeToBlockSize(n)) && q != p
  {
    if q in BlockNeighbours(p, n) {
      BlockNeighbourSound(p, n, q);
    }
    if InBoard(q, n) && SameBlock(q, p, BoardSizeToBlockSize(n)) && q != p {
      BlockNeighbourComplete(p, n, q);
    }
  }

  lemma BlockNeighbourSound(p: Pos, n: int, q: Pos)
    requires n > 0 && BoardSizeToBlockSize(n) * BoardSizeToBlockSize(n) == n && InBoard(p, n)
    requires q in BlockNeighbours(p, n)
    ensures InBoard(q, n) && SameBlock(q, p, BoardSizeToBlockSize(n)) && q != p
  {
    var b := BoardSizeToBlockSize(n);
    var indices := Without(Range(0, n - 1), PosToIndexInBlock(p, b));
    var r := BlockNeighbours(p, n);
    var i :| 0 <= i < |r| && r[i] == q;
    var k := indices[i];
    assert q == BlockCell(PosToBlockPos(p, b), k, b);
    assert k in indices;
    assert 0 <= k < n && k != PosToIndexInBlock(p, b);
    OtherBlockCell(p, n, k);
  }

  lemma BlockNeighbourComplete(p: Pos, n: int, q: Pos)
    requires n > 0 && BoardSizeToBlockSize(n) * BoardSizeToBlockSize(n) == n && InBoard(p, n)
    requires InBoard(q, n) && SameBlock(q, p, BoardSizeToBlockSize(n)) && q != p
    ensures q in BlockNeighbours(p, n)
  {
    var b := BoardSizeToBlockSize(n);
    var indices := Without(Range(0, n - 1), PosToIndexInBlock(p, b));
    var r := BlockNeighbours(p, n);
    var k := PosToIndexInBlock(q, b);
    BlockCellIndex(p, n, q);
    assert k in indices;
    var i :| 0 <= i < |indices| && indices[i] == k;
    assert r[i] == q;
  }

  /** A block index other than that of `p` names another cell of its block. */
  lemma OtherBlockCell(p: Pos, n: int, k: int)
    requires n > 0 && BoardSizeToBlockSize(n) * BoardSizeToBlockSize(n) == n && InBoard(p, n)
    requires 0 <= k < n && k != PosToIndexInBlock(p, BoardSizeToBlockSize(n))
    ensures var b := BoardSizeToBlockSize(n); var q := BlockCell(PosToBlockPos(p, b), k, b);
      InBoard(q, n) && SameBlock(q, p, b) && q != p
  {
    BlockCellFacts(p, k, n);
  }

  /** Another cell of the block of `p` is the cell at its own block index. */
  lemma BlockCellIndex(p: Pos, n: int, q: Pos)
    requires n > 0 && BoardSizeToBlockSize(n) * BoardSizeToBlockSize(n) == n && InBoard(p, n)
    requires InBoard(q, n) && SameBlock(q, p, BoardSizeToBlockSize(n)) && q != p
    ensures var b := BoardSizeToBlockSize(n); var k := PosToIndexInBlock(q, b);
      0 <= k < n && k != PosToIndexInBlock(p, b) && BlockCell(PosToBlockPos(p, b), k, b) == q
  {
    var b := BoardSizeToBlockSize(n);
    var k := PosToIndexInBlock(q, b);
    if k == PosToIndexInBlock(p, b) {
      BlockIndexInjective(q, p, b);
    }
    BlockCellFacts(p, k, n);
    BlockIndexInjective(BlockCell(PosToBlockPos(p, b), k, b), q, b);
  }

  /** The other cells of the first cage holding `p`; none on a board without cages. */
  function CageNeighbours(cages: seq<Cage>, p: Pos): (r: seq<Pos>)
    ensures forall q :: q in r <==> q in CageMates(cages, p)
  {
    if cages == [] then [] else CageMates(cages, p)
  }

  /**
   * `GetCellNeighbourPositions`: the union of the four groups, each cell once;
   * exactly the peers of `p` on the board other than `p` itself.
   */
  function GetCellNeighbourPositions(p: Pos, n: int, cages: seq<Cage>): (r: seq<Pos>)
    requires n > 0 && BoardSizeToBlockSize(n) * BoardSizeToBlockSize(n) == n && InBoard(p, n)
    requires CagesInBoard(cages, n)
    ensures NoDup(r)
    ensures forall q :: q in r <==> InBoard(q, n) && q != p && IsPeer(p, q, BoardSizeToBlockSize(n), cages)
  {
    var b := BoardSizeToBlockSize(n);
    var r := Union(Union(Union(ColumnNeighbours(p, n), RowNeighbours(p, n)), BlockNeighbours(p, n)),
      CageNeighbours(cages, p));
    forall q
      ensures q in r <==> InBoard(q, n) && q != p && IsPeer(p, q, b, cages)
    {
      BlockNeighboursMember(p, n, q);
      if q in CageMates(cages, p) {
        var k := FirstCageIndex(cages, p);
        assert 0 <= k && q in cages[k].cells;
      }
    }
    r
  }

  /** A neighbour with the size of its domain, the priority it is queued with. */
  datatype Neighbour = Neighbour(pos: Pos, domSize: int)

  /** The cells of `ps` with more than one symbol, with their sizes, in order. */
  function VariableCells(g: Grid<string>, ps: seq<Pos>): (r: seq<Neighbour>)
    requires IsSquare(g, |g|) && forall q :: q in ps ==> InBoard(q, |g|)
    ensures forall x :: x in r <==> x.pos in ps && x.domSize == |CellAt(g, x.pos)| && x.domSize > 1
    decreases |ps|
  {
    if ps == [] then []
    else
      var m := |ps| - 1;
      assert forall q :: q in ps <==> q in ps[..m] || q == ps[m];
      var rest := VariableCells(g, ps[..m]);
      var size := |CellAt(g, ps[m])|;
      if size > 1 then rest + [Neighbour(ps[m], size)] else rest
  }

  /**
   * `GetCellVariableNeighbours`: the unresolved peers of `p` with their
   * domain sizes.
   */
  function GetCellVariableNeighbours(g: Grid<string>, p: Pos, cages: seq<Cage>): (r: seq<Neighbour>)
    requires IsBlockGrid(g) && InBoard(p, |g|) && CagesInBoard(cages, |g|)
    ensures forall x :: x in r <==>
      InBoard(x.pos, |g|) && x.pos != p && IsPeer(p, x.pos, BoardSizeToBlockSize(|g|), cages) &&
      x.domSize == |CellAt(g, x.pos)| && x.domSize > 1
  {
    VariableCells(g, GetCellNeighbourPositions(p, |g|, cages))
  }

  /*** Cage domain recalculation ***/

  /**
   * The symbols found at position `i` of some combination, each once and in
   * alphabet order (`Select(domain => domain[i]).Distinct().OrderBy(s => s)`).
   */
  function SymbolsAt(combinations: seq<string>, i: int): string
  {
    Intersect(PotentialDomain, set s | s in combinations && 0 <= i < |s| :: s[i])
  }

  /**
   * `RecalculateDomainsForCage`: each cell of a cage keeps the symbols it
   * takes in some combination of the cage's domains that adds up to `sum`.
   */
  function RecalculateDomainsForCage(sum: int, domains: seq<string>): (r: seq<string>)
    requires |domains| >= 1
    ensures |r| == |domains|
  {
    var combinations := JoinDomainsWithSum(domains, sum);
    seq(|domains|, i requires 0 <= i < |domains| => SymbolsAt(combinations, i))
  }

  /** A symbol survives recalculation exactly when some combination with the right sum puts it there. */
  lemma RecalculatedMember(sum: int, domains: seq<string>, i: int, ch: char)
    requires |domains| >= 1 && 0 <= i < |domains|
    ensures ch in RecalculateDomainsForCage(sum, domains)[i] <==>
      ch in PotentialDomain &&
      exists s :: IsCombination(s, domains) && GetSumForDomain(s) == sum && s[i] == ch
  {
    var combinations := JoinDomainsWithSum(domains, sum);
    var d := RecalculateDomainsForCage(sum, domains)[i];
    assert d == SymbolsAt(combinations, i);
    if ch in d {
      var s :| s in combinations && 0 <= i < |s| && s[i] == ch;
      assert IsCombination(s, domains) && GetSumForDomain(s) == sum;
    }
    if ch in PotentialDomain && exists s :: IsCombination(s, domains) && GetSumForDomain(s) == sum && s[i] == ch {
      var s :| IsCombination(s, domains) && GetSumForDomain(s) == sum && s[i] == ch;
      assert s in combinations;
    }
  }

  /**
   * A recalculated domain lists each symbol once, in alphabet order, and is
   * `Shrunk` from the cell's old domain.
   */
  lemma RecalculatedShrunk(sum: int, domains: seq<string>, i: int)
    requires |domains| >= 1 && 0 <= i < |domains|
    ensures var d := RecalculateDomainsForCage(sum, domains)[i];
      NoDup(d) && InOrderOf(d, PotentialDomain) && Shrunk(d, domains[i])
  {
    var combinations := JoinDomainsWithSum(domains, sum);
    var d := RecalculateDomainsForCage(sum, domains)[i];
    var symbols := set s | s in combinations && 0 <= i < |s| :: s[i];
    assert d == SetFilter(PotentialDomain, symbols, true);
    SetFilterOrdered(PotentialDomain, symbols, true);
    forall ch | ch in d
      ensures ch in domains[i]
    {
      RecalculatedMember(sum, domains, i, ch);
    }
    NoDupSubsetLength(d, domains[i]);
  }

  /** The cages the solver works with: on the board, none of them empty. */
  predicate CagesWellFormed(cages: seq<Cage>, n: int)
  {
    CagesInBoard(cages, n) && forall k :: 0 <= k < |cages| ==> |cages[k].cells| >= 1
  }

  /** One cage's cells rewritten with their recalculated domains. */
  function ApplyCage(g: Grid<string>, cage: Cage): (h: Grid<string>)
    requires IsSquare(g, |g|) && |cage.cells| >= 1
    requires forall q :: q in cage.cells ==> InBoard(q, |g|)
    ensures Shrinks(h, g)
  {
    var domains := CellsAt(g, cage.cells);
    var newDomains := RecalculateDomainsForCage(cage.sum, domains);
    forall i | 0 <= i < |cage.cells|
      ensures Shrunk(newDomains[i], CellAt(g, cage.cells[i]))
    {
      RecalculatedShrunk(cage.sum, domains, i);
    }
    WriteAllShrinks(g, cage.cells, newDomains);
    WriteAll(g, cage.cells, newDomains)
  }

  /**
   * The cages recalculated one after the other, each reading the board as
   * the cages before it left it.
   */
  function ApplyCages(g: Grid<string>, cages: seq<Cage>): (h: Grid<string>)
    requires IsSquare(g, |g|) && CagesWellFormed(cages, |g|)
    ensures Shrinks(h, g)
    decreases |cages|
  {
    if cages == [] then g
    else
      var m := |cages| - 1;
      var h0 := ApplyCages(g, cages[..m]);
      var h := ApplyCage(h0, cages[m]);
      ShrinksTrans(h, h0, g);
      h
  }

  /*** Propagation ***/

  /**
   * `ConstrainCell` on `p` (which in the solver uses no cages) would leave the
   * board as it is.
   */
  ghost predicate Stable(g: Grid<string>, domain: string, p: Pos)
    requires IsBlockGrid(g) && InBoard(p, |g|)
  {
    ConstrainedDomain(g, domain, [], p) == CellAt(g, p)
  }

  /** A cell with at most one symbol has nothing left to constrain. */
  lemma SmallStable(g: Grid<string>, domain: string, p: Pos)
    requires IsBlockGrid(g) && InBoard(p, |g|) && |CellAt(g, p)| <= 1
    ensures Stable(g, domain, p)
  {
    if |CellAt(g, p)| == 0 {
      assert CellAt(g, p) == [];
    }
  }

  /** Constraining a cell a second time changes nothing. */
  lemma ConstrainIdempotent(g: Grid<string>, domain: string, p: Pos)
    requires IsBlockGrid(g) && InBoard(p, |g|)
    ensures IsBlockGrid(SetCell(g, p, ConstrainedDomain(g, domain, [], p)))
    ensures Stable(SetCell(g, p, ConstrainedDomain(g, domain, [], p)), domain, p)
  {
    var d := ConstrainedDomain(g, domain, [], p);
    var h := SetCell(g, p, d);
    ConstrainStep(g, domain, [], p);
    if |CellAt(g, p)| != 1 && |d| != 1 {
      forall ch | FixedPeerSymbol(h, [], p, ch)
        ensures FixedPeerSymbol(g, [], p, ch)
      {
        var q :| InBoard(q, |h|) && IsPeer(p, q, BoardSizeToBlockSize(|h|), []) && CellAt(h, q) == [ch];
        assert q != p;
        assert CellAt(g, q) == [ch];
      }
      var s := set ch | ch in Restrictions(h, domain, [], p);
      assert forall ch :: ch in d ==> ch !in s;
      assert d == Except(CellAt(g, p), set ch | ch in Restrictions(g, domain, [], p));
      SetFilterKeepsAll(d, s, false);
    }
  }

  /** A symbol fixed at a peer of `p` stays fixed when the peers keep their domains. */
  lemma SamePeersFixed(g: Grid<string>, h: Grid<string>, p: Pos, ch: char)
    requires IsBlockGrid(g) && IsBlockGrid(h) && |h| == |g| && InBoard(p, |g|)
    requires forall w :: InBoard(w, |g|) && IsPeer(p, w, BoardSizeToBlockSize(|g|), []) ==> CellAt(h, w) == CellAt(g, w)
    requires FixedPeerSymbol(g, [], p, ch)
    ensures FixedPeerSymbol(h, [], p, ch)
  {
    var w :| InBoard(w, |g|) && IsPeer(p, w, BoardSizeToBlockSize(|g|), []) && CellAt(g, w) == [ch];
    assert CellAt(h, w) == [ch];
  }

  /** The constrained domain of `p` depends only on `p` and its peers. */
  lemma SamePeersSameDomain(g: Grid<string>, h: Grid<string>, domain: string, p: Pos)
    requires IsBlockGrid(g) && IsBlockGrid(h) && |h| == |g| && InBoard(p, |g|)
    requires forall w :: InBoard(w, |g|) && IsPeer(p, w, BoardSizeToBlockSize(|g|), []) ==> CellAt(h, w) == CellAt(g, w)
    ensures ConstrainedDomain(h, domain, [], p) == ConstrainedDomain(g, domain, [], p)
  {
    assert IsPeer(p, p, BoardSizeToBlockSize(|g|), []);
    if |CellAt(g, p)| != 1 {
      forall ch
        ensures FixedPeerSymbol(h, [], p, ch) <==> FixedPeerSymbol(g, [], p, ch)
      {
        if FixedPeerSymbol(g, [], p, ch) {
          SamePeersFixed(g, h, p, ch);
        }
        if FixedPeerSymbol(h, [], p, ch) {
          SamePeersFixed(h, g, p, ch);
        }
      }
      SameRestrictions(g, h, domain, p);
    }
  }

  /** Boards whose peers of `p` fix the same symbols restrict `p` by the same symbols. */
  lemma SameRestrictions(g: Grid<string>, h: Grid<string>, domain: string, p: Pos)
    requires IsBlockGrid(g) && IsBlockGrid(h) && InBoard(p, |g|) && InBoard(p, |h|)
    requires forall ch :: FixedPeerSymbol(h, [], p, ch) <==> FixedPeerSymbol(g, [], p, ch)
    ensures (set ch | ch in Restrictions(h, domain, [], p)) == (set ch | ch in Restrictions(g, domain, [], p))
  {
  }

  /** Writing a cell that is not a peer of `p` keeps `p` stable. */
  lemma StableAfterOtherChange(g: Grid<string>, domain: string, q: Pos, v: string, p: Pos)
    requires IsBlockGrid(g) && InBoard(q, |g|) && InBoard(p, |g|)
    requires !IsPeer(p, q, BoardSizeToBlockSize(|g|), []) && Stable(g, domain, p)
    ensures IsBlockGrid(SetCell(g, q, v)) && Stable(SetCell(g, q, v), domain, p)
  {
    var h := SetCell(g, q, v);
    assert |h| == |g| && IsSquare(h, |g|);
    forall w | InBoard(w, |g|) && IsPeer(p, w, BoardSizeToBlockSize(|g|), [])
      ensures CellAt(h, w) == CellAt(g, w)
    {
      assert w != q;
    }
    SamePeersSameDomain(g, h, domain, p);
  }

  /** The positions of the queued cells. */
  function Positions(queue: seq<Neighbour>): set<Pos>
  {
    set x | x in queue :: x.pos
  }

  /** Taking one entry out of the queue keeps every other position queued. */
  lemma RemovePositions(queue: seq<Neighbour>, k: int, p: Pos)
    requires 0 <= k < |queue| && p in Positions(queue) && p != queue[k].pos
    ensures p in Positions(queue[..k] + queue[k + 1..])
  {
    var x :| x in queue && x.pos == p;
    var j :| 0 <= j < |queue| && queue[j] == x;
    if j < k {
      assert (queue[..k] + queue[k + 1..])[j] == x;
    } else {
      assert (queue[..k] + queue[k + 1..])[j - 1] == x;
    }
  }

  /** A priority queue that is not empty has an entry of least priority. */
  lemma {:induction false} MinimumExists(queue: seq<Neighbour>)
    requires |queue| > 0
    ensures exists k :: 0 <= k < |queue| && forall j :: 0 <= j < |queue| ==> queue[k].domSize <= queue[j].domSize
  {
    if |queue| > 1 {
      var rest := queue[1..];
      MinimumExists(rest);
      var k :| 0 <= k < |rest| && forall j :: 0 <= j < |rest| ==> rest[k].domSize <= rest[j].domSize;
      if queue[0].domSize <= rest[k].domSize {
        assert forall j :: 0 <= j < |queue| ==> queue[0].domSize <= queue[j].domSize by {
          forall j | 0 <= j < |queue|
            ensures queue[0].domSize <= queue[j].domSize
          {
            if j > 0 {
              assert queue[j] == rest[j - 1];
            }
          }
        }
      } else {
        assert forall j :: 0 <= j < |queue| ==> queue[k + 1].domSize <= queue[j].domSize by {
          forall j | 0 <= j < |queue|
            ensures queue[k + 1].domSize <= queue[j].domSize
          {
            if j > 0 {
              assert queue[j] == rest[j - 1];
            }
          }
        }
      }
    } else {
      assert forall j :: 0 <= j < |queue| ==> queue[0].domSize <= queue[j].domSize;
    }
  }

  /** Every dequeued cell is still queued or is stable. */
  ghost predicate Settled(g: Grid<string>, domain: string, queue: seq<Neighbour>, dequeued: set<Pos>)
    requires IsBlockGrid(g)
  {
    forall p :: p in dequeued ==> InBoard(p, |g|) && (p in Positions(queue) || Stable(g, domain, p))
  }

  /** Taking entry `k` out of the queue unsettles at most its own cell. */
  lemma DequeueSettled(g: Grid<string>, domain: string, queued: seq<Neighbour>, k: int, dequeued: set<Pos>)
    requires IsBlockGrid(g) && 0 <= k < |queued| && Settled(g, domain, queued, dequeued)
    ensures Settled(g, domain, queued[..k] + queued[k + 1..], dequeued - {queued[k].pos})
    ensures forall x :: x in queued ==> x in queued[..k] + queued[k + 1..] || x == queued[k]
  {
    var queue := queued[..k] + queued[k + 1..];
    forall p | p in dequeued && p != queued[k].pos && p in Positions(queued)
      ensures p in Positions(queue)
    {
      RemovePositions(queued, k, p);
    }
    RemoveAtMembers(queued, k);
  }

  /**
   * Constraining `pos` settles it, and once the unresolved peers of a changed
   * cell are queued every dequeued cell is settled again.
   */
  lemma ConstrainSettled(before: Grid<string>, domain: string, cages: seq<Cage>, pos: Pos,
                         kept: seq<Neighbour>, queue: seq<Neighbour>, dequeued: set<Pos>)
    requires IsBlockGrid(before) && InBoard(pos, |before|) && CagesInBoard(cages, |before|)
    requires Settled(before, domain, kept, dequeued)
    requires forall x :: x in kept ==> x in queue
    requires var after := SetCell(before, pos, ConstrainedDomain(before, domain, [], pos));
      IsBlockGrid(after) &&
      (after == before || forall x :: x in GetCellVariableNeighbours(after, pos, cages) ==> x in queue)
    ensures var after := SetCell(before, pos, ConstrainedDomain(before, domain, [], pos));
      IsBlockGrid(after) && Settled(after, domain, queue, dequeued + {pos})
  {
    ConstrainIdempotent(before, domain, pos);
    forall p | p in dequeued + {pos}
      ensures InBoard(p, |before|) &&
        (p in Positions(queue) || Stable(SetCell(before, pos, ConstrainedDomain(before, domain, [], pos)), domain, p))
    {
      ConstrainSettledAt(before, domain, cages, pos, kept, queue, dequeued, p);
    }
  }

  /** `ConstrainSettled` for one cell `p`. */
  lemma ConstrainSettledAt(before: Grid<string>, domain: string, cages: seq<Cage>, pos: Pos,
                           kept: seq<Neighbour>, queue: seq<Neighbour>, dequeued: set<Pos>, p: Pos)
    requires IsBlockGrid(before) && InBoard(pos, |before|) && CagesInBoard(cages, |before|)
    requires Settled(before, domain, kept, dequeued)
    requires forall x :: x in kept ==> x in queue
    requires var after := SetCell(before, pos, ConstrainedDomain(before, domain, [], pos));
      IsBlockGrid(after) &&
      (after == before || forall x :: x in GetCellVariableNeighbours(after, pos, cages) ==> x in queue)
    requires p in dequeued + {pos}
    ensures InBoard(p, |before|) &&
      (p in Positions(queue) || Stable(SetCell(before, pos, ConstrainedDomain(before, domain, [], pos)), domain, p))
  {
    var after := SetCell(before, pos, ConstrainedDomain(before, domain, [], pos));
    var n := |before|;
    if p == pos {
      ConstrainIdempotent(before, domain, pos);
    } else if p in Positions(kept) {
      var x :| x in kept && x.pos == p;
      assert x in queue;
    } else if after != before {
      if IsPeer(pos, p, BoardSizeToBlockSize(n), []) && |CellAt(after, p)| > 1 {
        var x := Neighbour(p, |CellAt(after, p)|);
        assert x in GetCellVariableNeighbours(after, pos, cages);
      } else if IsPeer(pos, p, BoardSizeToBlockSize(n), []) {
        SmallStable(after, domain, p);
      } else {
        StableAfterOtherChange(before, domain, pos, CellAt(after, pos), p);
      }
    }
  }

  /**
   * The loop of `PropagateToCells` that queues the neighbours of a changed
   * cell, skipping an entry already queued with the same size.
   */
  method EnqueueNew(queue: seq<Neighbour>, neighbours: seq<Neighbour>) returns (r: seq<Neighbour>)
    ensures forall x :: x in r <==> x in queue || x in neighbours
    ensures queue <= r
    ensures NoDup(queue) ==> NoDup(r)
  {
    r := queue;
    for i := 0 to |neighbours|
      invariant forall x :: x in r <==> x in queue || x in neighbours[..i]
      invariant queue <= r
      invariant NoDup(queue) ==> NoDup(r)
    {
      if neighbours[i] in r {
        continue;
      }
      r := r + [neighbours[i]];
    }
    assert neighbours[..|neighbours|] == neighbours;
  }

  /**
   * After a guess at `p` (taking `g` to `g1`) and a propagation that left
   * every cell it changed or dequeued stable (taking `g1` to `g2`), every
   * cell that differs from `g` is stable.
   */
  lemma ChangedStable(g2: Grid<string>, g1: Grid<string>, g: Grid<string>, domain: string, p: Pos, dequeued: set<Pos>)
    requires IsBlockGrid(g2) && |g1| == |g| == |g2| && IsSquare(g1, |g|) && IsSquare(g, |g|)
    requires InBoard(p, |g|) && |CellAt(g2, p)| <= 1
    requires forall c, r :: 0 <= c < |g| && 0 <= r < |g| && g1[c][r] != g[c][r] ==> Pos(c, r) == p
    requires forall c, r :: 0 <= c < |g| && 0 <= r < |g| && g2[c][r] != g1[c][r] ==> Pos(c, r) in dequeued
    requires forall q :: q in dequeued ==> InBoard(q, |g|) && Stable(g2, domain, q)
    ensures forall c, r :: 0 <= c < |g| && 0 <= r < |g| && g2[c][r] != g[c][r] ==> Stable(g2, domain, Pos(c, r))
  {
    SmallStable(g2, domain, p);
    forall c, r | 0 <= c < |g| && 0 <= r < |g| && g2[c][r] != g[c][r]
      ensures Stable(g2, domain, Pos(c, r))
    {
      if g2[c][r] == g1[c][r] {
        assert Pos(c, r) == p;
      }
    }
  }

  /**
   * What a guess of `ch` at `p` followed by `PropagateToCells` leaves: `g2` is
   * the board propagated from the guessed board, with every queued peer and
   * every changed cell dequeued and stable.
   */
  lemma GuessPropagated(g: Grid<string>, g1: Grid<string>, g2: Grid<string>, domain: string, cages: seq<Cage>,
                        p: Pos, ch: char, dequeued: set<Pos>)
    requires Solvable(g, cages) && InBoard(p, |g|) && ch in CellAt(g, p) && |CellAt(g, p)| > 1
    requires g1 == SetCell(g, p, [ch])
    requires IsBlockGrid(g2) && Shrinks(g2, g1) && KeepsSingletons(g2, g1)
    requires forall x :: x in GetCellVariableNeighbours(g1, p, cages) ==> x.pos in dequeued
    requires ChangedWithin(g2, g1, dequeued)
    requires forall q :: q in dequeued ==> InBoard(q, |g|) && Stable(g2, domain, q)
    ensures Solvable(g2, cages) && Shrinks(g2, g) && |CellAt(g2, p)| <= 1
    ensures forall c :: c in CellAt(g2, p) ==> c == ch
    ensures forall x :: x in GetCellVariableNeighbours(SetCell(g, p, [ch]), p, cages) ==> Stable(g2, domain, x.pos)
    ensures forall c, r :: 0 <= c < |g| && 0 <= r < |g| && g2[c][r] != g[c][r] ==> Stable(g2, domain, Pos(c, r))
  {
    GuessShrinks(g, p, ch);
    assert Shrunk(CellAt(g2, p), CellAt(g1, p));
    ChangedStable(g2, g1, g, domain, p, dequeued);
    ShrinksTrans(g2, g1, g);
    ShrinksDotFree(g2, g);
  }

  /** Every cell in which `g` differs from `g0` is in `s`. */
  ghost predicate ChangedWithin(g: Grid<string>, g0: Grid<string>, s: set<Pos>)
  {
    IsSquare(g, |g|) && IsSquare(g0, |g|) &&
    forall c, r :: 0 <= c < |g| && 0 <= r < |g| && g[c][r] != g0[c][r] ==> Pos(c, r) in s
  }

  /** The loop invariant of `PropagateToCells`, from the board `g0` it started on. */
  ghost predicate Propagating(g: Grid<string>, g0: Grid<string>, domain: string, initial: seq<Neighbour>,
                              queue: seq<Neighbour>, dequeued: set<Pos>)
  {
    IsBlockGrid(g) && Shrinks(g, g0) && KeepsSingletons(g, g0) && Justified(g, g0, domain, []) &&
    (forall x :: x in queue ==> InBoard(x.pos, |g|)) &&
    (forall x :: x in initial ==> x.pos in dequeued || x in queue) &&
    ChangedWithin(g, g0, dequeued) && Settled(g, domain, queue, dequeued)
  }

  /** The queue after one turn of the `PropagateToCells` loop: `rest`, plus the new neighbours if the cell changed. */
  ghost predicate Requeued(g: Grid<string>, domain: string, cages: seq<Cage>, queued: seq<Neighbour>, k: int,
                           queue: seq<Neighbour>)
    requires IsBlockGrid(g) && CagesInBoard(cages, |g|) && 0 <= k < |queued| && InBoard(queued[k].pos, |g|)
  {
    var pos := queued[k].pos;
    var after := SetCell(g, pos, ConstrainedDomain(g, domain, [], pos));
    var rest := queued[..k] + queued[k + 1..];
    if after == g then queue == rest
    else forall x :: x in queue <==> x in rest || x in GetCellVariableNeighbours(after, pos, cages)
  }

  /**
   * One turn of the `PropagateToCells` loop: entry `k` leaves the queue, its
   * cell is constrained and, if that changed it, its unresolved peers are queued.
   */
  lemma PropagationStep(g: Grid<string>, g0: Grid<string>, domain: string, cages: seq<Cage>,
                        initial: seq<Neighbour>, queued: seq<Neighbour>, k: int, queue: seq<Neighbour>, dequeued: set<Pos>)
    requires Propagating(g, g0, domain, initial, queued, dequeued) && CagesInBoard(cages, |g|)
    requires 0 <= k < |queued| && InBoard(queued[k].pos, |g|)
    requires Requeued(g, domain, cages, queued, k, queue)
    ensures var pos := queued[k].pos;
      var after := SetCell(g, pos, ConstrainedDomain(g, domain, [], pos));
      Propagating(after, g0, domain, initial, queue, dequeued + {pos}) &&
      (after != g ==> TotalSize(after) < TotalSize(g))
  {
    var pos := queued[k].pos;
    var rest := queued[..k] + queued[k + 1..];
    StepGrid(g, g0, domain, initial, queued, k, dequeued);
    StepQueue(g, g0, domain, cages, initial, queued, k, queue, dequeued);
    DequeueSettled(g, domain, queued, k, dequeued);
    ConstrainSettled(g, domain, cages, pos, rest, queue, dequeued - {pos});
    assert dequeued - {pos} + {pos} == dequeued + {pos};
  }

  /** The board side of one turn: it shrinks, keeps resolved cells, and only the dequeued cell changes. */
  lemma StepGrid(g: Grid<string>, g0: Grid<string>, domain: string,
                 initial: seq<Neighbour>, queued: seq<Neighbour>, k: int, dequeued: set<Pos>)
    requires Propagating(g, g0, domain, initial, queued, dequeued)
    requires 0 <= k < |queued| && InBoard(queued[k].pos, |g|)
    ensures var pos := queued[k].pos;
      var after := SetCell(g, pos, ConstrainedDomain(g, domain, [], pos));
      IsBlockGrid(after) && Shrinks(after, g0) && KeepsSingletons(after, g0) && Justified(after, g0, domain, []) &&
      (forall c, r :: 0 <= c < |after| && 0 <= r < |after| && after[c][r] != g0[c][r] ==> Pos(c, r) in dequeued + {pos}) &&
      (after != g ==> TotalSize(after) < TotalSize(g))
  {
    var pos := queued[k].pos;
    ConstrainStepFrom(g, g0, domain, [], pos);
  }

  /** The queue side of one turn: queued cells stay on the board and every initial entry is queued or done. */
  lemma StepQueue(g: Grid<string>, g0: Grid<string>, domain: string, cages: seq<Cage>,
                  initial: seq<Neighbour>, queued: seq<Neighbour>, k: int, queue: seq<Neighbour>, dequeued: set<Pos>)
    requires Propagating(g, g0, domain, initial, queued, dequeued) && CagesInBoard(cages, |g|)
    requires 0 <= k < |queued| && InBoard(queued[k].pos, |g|)
    requires Requeued(g, domain, cages, queued, k, queue)
    ensures forall x :: x in queue ==> InBoard(x.pos, |g|)
    ensures forall x :: x in initial ==> x.pos in dequeued + {queued[k].pos} || x in queue
  {
    RequeuedMembers(g, domain, cages, queued, k, queue);
    RemoveAtMembers(queued, k);
  }

  /** The new queue holds the rest of the old one, and otherwise only cells of the board. */
  lemma RequeuedMembers(g: Grid<string>, domain: string, cages: seq<Cage>, queued: seq<Neighbour>, k: int,
                        queue: seq<Neighbour>)
    requires IsBlockGrid(g) && CagesInBoard(cages, |g|) && 0 <= k < |queued| && InBoard(queued[k].pos, |g|)
    requires Requeued(g, domain, cages, queued, k, queue)
    ensures forall x :: x in queued[..k] + queued[k + 1..] ==> x in queue
    ensures forall x :: x in queue ==> x in queued[..k] + queued[k + 1..] || InBoard(x.pos, |g|)
  {
    var pos := queued[k].pos;
    var after := SetCell(g, pos, ConstrainedDomain(g, domain, [], pos));
    var rest := queued[..k] + queued[k + 1..];
    if after != g {
      forall x | x in queue && x !in rest
        ensures InBoard(x.pos, |g|)
      {
        assert x in GetCellVariableNeighbours(after, pos, cages);
      }
    }
  }

  /** Removing entry `k` keeps every other entry and adds none. */
  lemma RemoveAtMembers(queued: seq<Neighbour>, k: int)
    requires 0 <= k < |queued|
    ensures forall x :: x in queued[..k] + queued[k + 1..] ==> x in queued
    ensures forall x :: x in queued ==> x in queued[..k] + queued[k + 1..] || x == queued[k]
  {
    var rest := queued[..k] + queued[k + 1..];
    forall x | x in queued
      ensures x in rest || x == queued[k]
    {
      var j :| 0 <= j < |queued| && queued[j] == x;
      if j < k {
        assert rest[j] == x;
      } else if j > k {
        assert rest[j - 1] == x;
      }
    }
  }

  lemma WellFormedPrefix(cages: seq<Cage>, j: int, n: int)
    requires CagesWellFormed(cages, n) && 0 <= j <= |cages|
    ensures CagesWellFormed(cages[..j], n)
  {
    assert forall k :: 0 <= k < j ==> cages[..j][k] == cages[k];
  }

  lemma ApplyCagesStep(g: Grid<string>, cages: seq<Cage>, j: int)
    requires IsSquare(g, |g|) && CagesWellFormed(cages, |g|) && 0 <= j < |cages|
    requires CagesWellFormed(cages[..j], |g|) && CagesWellFormed(cages[..j + 1], |g|)
    ensures ApplyCages(g, cages[..j + 1]) == ApplyCage(ApplyCages(g, cages[..j]), cages[j])
  {
    var cs := cages[..j + 1];
    assert |cs| - 1 == j;
    assert cs[..j] == cages[..j];
    assert ApplyCages(g, cs) == ApplyCage(ApplyCages(g, cs[..j]), cs[j]);
  }

  /** What the search needs of a board: square with blocks, its cages on it and non-empty, no `.` in a domain. */
  ghost predicate Solvable(g: Grid<string>, cages: seq<Cage>)
  {
    IsBlockGrid(g) && CagesWellFormed(cages, |g|) && DotFree(g)
  }

  /** Guessing symbol `ch` for an unresolved cell shrinks the board and that cell. */
  lemma GuessShrinks(g: Grid<string>, p: Pos, ch: char)
    requires IsBlockGrid(g) && DotFree(g) && InBoard(p, |g|) && ch in CellAt(g, p) && |CellAt(g, p)| > 1
    ensures var h := SetCell(g, p, [ch]);
      IsBlockGrid(h) && DotFree(h) && Shrinks(h, g) && KeepsSingletons(h, g) && |CellAt(h, p)| < |CellAt(g, p)|
  {
    var h := SetCell(g, p, [ch]);
    assert Shrunk(CellAt(h, p), CellAt(g, p));
    ShrinksDotFree(h, g);
  }

  /** A board that only shrank and has no empty cell kept every resolved cell. */
  lemma ShrinksKeepsSingletons(g1: Grid<string>, g0: Grid<string>)
    requires Shrinks(g1, g0) && NoEmptyCell(g1)
    ensures KeepsSingletons(g1, g0)
  {
    forall c, r | 0 <= c < |g0| && 0 <= r < |g0| && |g0[c][r]| == 1
      ensures g1[c][r] == g0[c][r]
    {
      assert g1[c][r][0] in g0[c][r];
      assert g1[c][r] == [g1[c][r][0]];
    }
  }

  /*** The solver ***/

  /** `SolverOptions`: the two switches of the search. */
  datatype SolverOptions = SolverOptions(doCageDomainRecalculations: bool, useGuessCellPickHeuristic: bool)

  /** A guess: the cell guessed and a snapshot of the board taken just before it. */
  datatype Guess = Guess(col: int, row: int, board: array2<string>)

  class Solver {
    const board: array2<string>
    const boardDomain: string
    const cages: seq<Cage>
    var doCageDomainRecalculation: bool
    var useGuessCellPickHeuristic: bool
    var guesses: seq<Guess>

    /**
     * `PropagateToCells`: constrain the queued cells, cheapest first, and
     * queue the unresolved peers of every cell that changed. Afterwards every
     * cell that was queued or that changed is stable.
     */
    method PropagateToCells(cellsToPropagate: seq<Neighbour>, b: array2<string>) returns (ghost dequeued: set<Pos>)
      requires b.Length0 == b.Length1 && IsBlockGrid(Contents(b)) && CagesInBoard(cages, b.Length0)
      requires forall x :: x in cellsToPropagate ==> InBoard(x.pos, b.Length0)
      modifies b
      ensures IsBlockGrid(Contents(b))
      ensures Shrinks(Contents(b), old(Contents(b))) && KeepsSingletons(Contents(b), old(Contents(b)))
      ensures forall x :: x in cellsToPropagate ==> x.pos in dequeued
      ensures ChangedWithin(Contents(b), old(Contents(b)), dequeued)
      ensures forall p :: p in dequeued ==> InBoard(p, b.Length0) && Stable(Contents(b), boardDomain, p)
      ensures Justified(Contents(b), old(Contents(b)), boardDomain, [])
    {
      ghost var g0 := Contents(b);
      JustifiedRefl(g0, boardDomain, []);
      var queue := cellsToPropagate;
      dequeued := {};
      while |queue| > 0
        invariant b.Length0 == b.Length1 && |Contents(b)| == |g0|
        invariant Propagating(Contents(b), g0, boardDomain, cellsToPropagate, queue, dequeued)
        decreases TotalSize(Contents(b)), |queue|
      {
        MinimumExists(queue);
        var k :| 0 <= k < |queue| && forall j :: 0 <= j < |queue| ==> queue[k].domSize <= queue[j].domSize;
        var pos := queue[k].pos;
        ghost var before := Contents(b);
        ghost var queued := queue;
        queue := queue[..k] + queue[k + 1..];
        var changed := ConstrainCell(b, boardDomain, [], pos.col, pos.row);
        if changed {
          var neighbours := GetCellVariableNeighbours(Contents(b), pos, cages);
          queue := EnqueueNew(queue, neighbours);
        }
        PropagationStep(before, g0, boardDomain, cages, cellsToPropagate, queued, k, queue, dequeued);
        dequeued := dequeued + {pos};
      }
    }

    /**
     * `RecalculateDomainsForCages`: the cages in order, each reading the
     * board as the cages before it left it.
     */
    method RecalculateDomainsForCages(b: array2<string>)
      requires b.Length0 == b.Length1 && CagesWellFormed(cages, b.Length0)
      modifies b
      ensures Contents(b) == ApplyCages(old(Contents(b)), cages)
    {
      ghost var g0 := Contents(b);
      WellFormedPrefix(cages, 0, |g0|);
      for j := 0 to |cages|
        invariant CagesWellFormed(cages[..j], |g0|)
        invariant Contents(b) == ApplyCages(g0, cages[..j])
      {
        var cells := cages[j].cells;
        ghost var before := Contents(b);
        assert IsSquare(before, |g0|) && forall q :: q in cells ==> InBoard(q, |g0|);
        var domains := CellsAt(Contents(b), cells);
        var newDomains := RecalculateDomainsForCage(cages[j].sum, domains);
        WriteCells(b, cells, newDomains);
        WellFormedPrefix(cages, j, |g0|);
        WellFormedPrefix(cages, j + 1, |g0|);
        ApplyCagesStep(g0, cages, j);
      }
      assert cages[..|cages|] == cages;
    }

    /** A solver for a classic board: no cages. */
    constructor FromBoard(b: Boards.Board)
      ensures board == b.Cells && boardDomain == b.BoardDomain && cages == []
      ensures !doCageDomainRecalculation && !useGuessCellPickHeuristic && guesses == []
      ensures b.Cells.Length0 == b.Cells.Length1 && IsBlockGrid(Contents(b.Cells)) && DotFree(Contents(b.Cells)) ==>
        Valid()
    {
      board := b.Cells;
      boardDomain := b.BoardDomain;
      cages := [];
      doCageDomainRecalculation := false;
      useGuessCellPickHeuristic := false;
      guesses := [];
    }

    /** A solver for a killer board, with its cages. */
    constructor FromKiller(b: KillerBoards.KillerBoard)
      ensures board == b.Cells && boardDomain == b.BoardDomain && cages == b.Cages
      ensures !doCageDomainRecalculation && !useGuessCellPickHeuristic && guesses == []
      ensures (b.Cells.Length0 == b.Cells.Length1 && IsBlockGrid(Contents(b.Cells)) && DotFree(Contents(b.Cells)) &&
               CagesWellFormed(b.Cages, b.Cells.Length0)) ==> Valid()
    {
      board := b.Cells;
      boardDomain := b.BoardDomain;
      cages := b.Cages;
      doCageDomainRecalculation := false;
      useGuessCellPickHeuristic := false;
      guesses := [];
    }

    /** The board the solver was given can be searched. */
    ghost predicate Valid()
      reads this, board
    {
      board.Length0 == board.Length1 && Solvable(Contents(board), cages)
    }

    /** `SetOptions`: copy both switches. */
    method SetOptions(options: SolverOptions)
      modifies this`doCageDomainRecalculation, this`useGuessCellPickHeuristic
      ensures doCageDomainRecalculation == options.doCageDomainRecalculations
      ensures useGuessCellPickHeuristic == options.useGuessCellPickHeuristic
    {
      doCageDomainRecalculation := options.doCageDomainRecalculations;
      useGuessCellPickHeuristic := options.useGuessCellPickHeuristic;
    }

    /**
     * The first half of one guess: write the symbol `ch` into the cell at
     * `pos` and propagate to its unresolved peers. The board only shrinks,
     * the guessed cell holds `ch` or nothing, and every queued peer and
     * every changed cell ends stable.
     */
    method GuessAndPropagate(b: array2<string>, pos: Pos, ch: char)
      requires b.Length0 == b.Length1 && Solvable(Contents(b), cages)
      requires InBoard(pos, b.Length0) && ch in CellAt(Contents(b), pos) && |CellAt(Contents(b), pos)| > 1
      modifies b
      ensures Solvable(Contents(b), cages)
      ensures Shrinks(Contents(b), old(Contents(b))) && |CellAt(Contents(b), pos)| <= 1
      ensures forall c :: c in CellAt(Contents(b), pos) ==> c == ch
      ensures forall x :: x in GetCellVariableNeighbours(SetCell(old(Contents(b)), pos, [ch]), pos, cages) ==>
        Stable(Contents(b), boardDomain, x.pos)
      ensures forall c, r :: 0 <= c < b.Length0 && 0 <= r < b.Length0 && Contents(b)[c][r] != old(Contents(b))[c][r] ==>
        Stable(Contents(b), boardDomain, Pos(c, r))
      ensures Justified(Contents(b), SetCell(old(Contents(b)), pos, [ch]), boardDomain, [])
    {
      ghost var g := Contents(b);
      WriteCell(b, pos, [ch]);
      GuessShrinks(g, pos, ch);
      ghost var g1 := Contents(b);
      var neighbours := GetCellVariableNeighbours(Contents(b), pos, cages);
      ghost var dequeued := PropagateToCells(neighbours, b);
      GuessPropagated(g, g1, Contents(b), boardDomain, cages, pos, ch, dequeued);
    }

    /**
     * One guess of the search: write and propagate the guess, then, if that
     * option is on, recalculate the cages. The board only shrinks, and the
     * guessed cell holds `ch` or nothing.
     */
    method TryGuess(b: array2<string>, pos: Pos, ch: char)
      requires b.Length0 == b.Length1 && Solvable(Contents(b), cages)
      requires InBoard(pos, b.Length0) && ch in CellAt(Contents(b), pos) && |CellAt(Contents(b), pos)| > 1
      modifies b
      ensures Solvable(Contents(b), cages)
      ensures Shrinks(Contents(b), old(Contents(b))) && |CellAt(Contents(b), pos)| <= 1
      ensures forall c :: c in CellAt(Contents(b), pos) ==> c == ch
      ensures !doCageDomainRecalculation ==>
        forall x :: x in GetCellVariableNeighbours(SetCell(old(Contents(b)), pos, [ch]), pos, cages) ==>
          Stable(Contents(b), boardDomain, x.pos)
      ensures !doCageDomainRecalculation ==>
        forall c, r :: 0 <= c < b.Length0 && 0 <= r < b.Length0 && Contents(b)[c][r] != old(Contents(b))[c][r] ==>
          Stable(Contents(b), boardDomain, Pos(c, r))
      ensures !doCageDomainRecalculation ==> Justified(Contents(b), SetCell(old(Contents(b)), pos, [ch]), boardDomain, [])
    {
      ghost var g := Contents(b);
      GuessAndPropagate(b, pos, ch);
      if doCageDomainRecalculation {
        ghost var g2 := Contents(b);
        RecalculateDomainsForCages(b);
        ghost var g3 := Contents(b);
        assert Shrunk(CellAt(g3, pos), CellAt(g2, pos));
        ShrinksTrans(g3, g2, g);
        ShrinksDotFree(g3, g);
      }
    }

    /**
     * The public `Solve`: set the options if given, start with no guesses and
     * search a copy of the board, which is left as it was. A board returned is
     * complete and valid, and every cell holds one of the symbols the given
     * board allowed there, resolved cells unchanged.
     */
    method Solve(options: Option<SolverOptions>) returns (r: Option<array2<string>>)
      requires Valid()
      modifies this`doCageDomainRecalculation, this`useGuessCellPickHeuristic, this`guesses
      ensures options.Some? ==>
        doCageDomainRecalculation == options.value.doCageDomainRecalculations &&
        useGuessCellPickHeuristic == options.value.useGuessCellPickHeuristic
      ensures options.None? ==>
        doCageDomainRecalculation == old(doCageDomainRecalculation) &&
        useGuessCellPickHeuristic == old(useGuessCellPickHeuristic)
      ensures unchanged(board)
      ensures r.None? ==> guesses == []
      ensures r.Some? ==> fresh(r.value) && r.value.Length0 == r.value.Length1 == board.Length0
      ensures r.Some? ==> IsComplete(Contents(r.value)) && IsValid(Contents(r.value), cages)
      ensures r.Some? ==> Shrinks(Contents(r.value), Contents(board)) && KeepsSingletons(Contents(r.value), Contents(board))
    {
      if options.Some? {
        SetOptions(options.value);
      }
      guesses := [];
      var b := CloneBoard(board);
      r := SolveFrom(b);
      if r.Some? {
        ShrinksKeepsSingletons(Contents(r.value), Contents(board));
      }
    }

    /**
     * The private recursive `Solve`: `None` for an invalid board, the board
     * itself when it is complete, and otherwise the first solution found by
     * guessing the symbols of the most constrained cell in order. Guesses
     * pushed are popped again unless the search succeeds.
     */
    method SolveFrom(b: array2<string>) returns (r: Option<array2<string>>)
      requires b.Length0 == b.Length1 && Solvable(Contents(b), cages)
      modifies this`guesses, b
      ensures old(guesses) <= guesses
      ensures r.None? ==> guesses == old(guesses)
      ensures r.Some? ==> (r.value == b || fresh(r.value)) && r.value.Length0 == r.value.Length1 == b.Length0
      ensures r.Some? ==> IsComplete(Contents(r.value)) && IsValid(Contents(r.value), cages)
      ensures r.Some? ==> Shrinks(Contents(r.value), old(Contents(b)))
      ensures !IsValid(old(Contents(b)), cages) ==> r.None? && Contents(b) == old(Contents(b))
      ensures IsValid(old(Contents(b)), cages) && IsComplete(old(Contents(b))) ==>
        r == Some(b) && Contents(b) == old(Contents(b))
      decreases TotalSize(Contents(b)), 2
    {
      if !IsValid(Contents(b), cages) {
        return None;
      }
      if IsComplete(Contents(b)) {
        return Some(b);
      }
      VariableExists(Contents(b), useGuessCellPickHeuristic);
      var choice := GetMostConstrainedVariable(Contents(b), useGuessCellPickHeuristic);
      r := GuessCell(b, choice.value);
    }

    /**
     * The guessing loop of the private `Solve`: try the symbols of the cell at
     * `pos` in order, each on a board restored from the snapshot pushed
     * before it, until the search below one of them succeeds.
     */
    method GuessCell(b: array2<string>, pos: Pos) returns (r: Option<array2<string>>)
      requires b.Length0 == b.Length1 && Solvable(Contents(b), cages)
      requires InBoard(pos, b.Length0) && |CellAt(Contents(b), pos)| > 1
      modifies this`guesses, b
      ensures old(guesses) <= guesses
      ensures r.None? ==> guesses == old(guesses)
      ensures r.Some? ==> (r.value == b || fresh(r.value)) && r.value.Length0 == r.value.Length1 == b.Length0
      ensures r.Some? ==> IsComplete(Contents(r.value)) && IsValid(Contents(r.value), cages)
      ensures r.Some? ==> Shrinks(Contents(r.value), old(Contents(b)))
      decreases TotalSize(Contents(b)), 1
    {
      ghost var g := Contents(b);
      var domain := b[pos.col, pos.row];
      var current := b;
      r := None;
      while |domain| > 0
        invariant current == b || fresh(current)
        invariant current.Length0 == current.Length1 == b.Length0
        invariant Contents(current) == g
        invariant guesses == old(guesses) && r.None?
        invariant forall ch :: ch in domain ==> ch in CellAt(g, pos)
        decreases |domain|
      {
        var found, next := TryCandidate(current, pos, domain[0]);
        if found.Some? {
          r := found;
          break;
        }
        current := next;
        domain := domain[1..];
      }
    }

    /**
     * One turn of the guessing loop: push a snapshot, guess `ch` and search
     * on. On success the guesses stay pushed; otherwise the snapshot is
     * popped and returned as the board to try the next symbol on.
     */
    method TryCandidate(b: array2<string>, pos: Pos, ch: char) returns (r: Option<array2<string>>, next: array2<string>)
      requires b.Length0 == b.Length1 && Solvable(Contents(b), cages)
      requires InBoard(pos, b.Length0) && ch in CellAt(Contents(b), pos) && |CellAt(Contents(b), pos)| > 1
      modifies this`guesses, b
      ensures old(guesses) <= guesses
      ensures r.None? ==> guesses == old(guesses)
      ensures r.Some? ==> (r.value == b || fresh(r.value)) && r.value.Length0 == r.value.Length1 == b.Length0
      ensures r.Some? ==> IsComplete(Contents(r.value)) && IsValid(Contents(r.value), cages)
      ensures r.Some? ==> Shrinks(Contents(r.value), old(Contents(b)))
      ensures r.None? ==> fresh(next) && next.Length0 == next.Length1 == b.Length0 && Contents(next) == old(Contents(b))
      decreases TotalSize(Contents(b)), 0
    {
      ghost var g := Contents(b);
      var snapshot := CloneBoard(b);
      guesses := guesses + [Guess(pos.col, pos.row, snapshot)];
      TryGuess(b, pos, ch);
      ghost var h := Contents(b);
      if IsValid(Contents(b), cages) {
        TotalSizeShrinks(h, g, pos);
        r := SolveFrom(b);
        if r.Some? && IsComplete(Contents(r.value)) {
          ShrinksTrans(Contents(r.value), h, g);
          assert old(guesses) <= old(guesses) + [Guess(pos.col, pos.row, snapshot)];
          return r, b;
        }
      }
      r := None;
      next := guesses[|guesses| - 1].board;
      guesses := guesses[..|guesses| - 1];
    }
  }
}
