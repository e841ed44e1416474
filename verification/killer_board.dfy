/**
 * A killer sudoku board (KillerSudoku/KillerBoard.cs): the board is given by
 * its cages only. Each cell of a cage starts with the slice of the board
 * domain that a cage of that many cells and that sum allows, and the board is
 * then forward checked, cages included, until nothing changes or it is complete.
 */
module KillerBoards {
  import opened Wrappers
  import opened Seqs
  import opened Utils
  import opened ArrayExtensions
  import opened Propagation
  import Boards

  /** 1 + 2 + ... + m: the values of the m smallest symbols. */
  function TriangleSum(m: int): int
    decreases m
  {
    if m <= 0 then 0 else TriangleSum(m - 1) + m
  }

  /**
   * The values of the t largest symbols of a domain of size n:
   * n + (n - 1) + ... + (n - t + 1). `Take` of more than n values takes all of
   * them, of a negative count none.
   */
  function TopSum(n: nat, t: int): int
    decreases t
  {
    if t <= 0 then 0
    else if t > n then TopSum(n, n)
    else TopSum(n, t - 1) + (n - t + 1)
  }

  /**
   * The end of the slice: the largest value v <= n that one cell of a
   * `cellAmount`-cell cage can hold when the other cells hold 1, 2, ..., the
   * smallest values.
   */
  function MaxIndexFor(n: nat, cellAmount: int, sum: int): (hi: int)
    ensures hi <= n && TriangleSum(cellAmount - 1) + hi <= sum
    ensures hi == n || TriangleSum(cellAmount - 1) + hi + 1 > sum
  {
    var rest := TriangleSum(cellAmount - 1);
    if rest + n <= sum then n else sum - rest
  }

  /**
   * The start of the slice: one less than the smallest value v >= 1 that one
   * cell of the cage can hold when the other cells hold the largest values.
   */
  function MinIndexFor(n: nat, cellAmount: int, sum: int): (lo: int)
    ensures 0 <= lo && TopSum(n, cellAmount - 1) + lo + 1 >= sum
    ensures lo == 0 || TopSum(n, cellAmount - 1) + lo < sum
  {
    var rest := TopSum(n, cellAmount - 1);
    if rest + 1 >= sum then 0 else sum - rest - 1
  }

  /**
   * `MinimizeDomainForCage`: the slice `boardDomain[lo..hi]`, or nothing
   * where the C# code throws (a cage of no cells or of more than n + 1 cells,
   * or a slice whose start lies past its end).
   */
  function CageDomain(boardDomain: string, cellAmount: int, sum: int): (r: Option<string>)
    ensures r.Some? ==> 1 <= cellAmount <= |boardDomain| + 1
    ensures r.Some? ==> var lo := MinIndexFor(|boardDomain|, cellAmount, sum);
      lo <= MaxIndexFor(|boardDomain|, cellAmount, sum) &&
      r.value == boardDomain[lo..MaxIndexFor(|boardDomain|, cellAmount, sum)]
  {
    var n := |boardDomain|;
    if cellAmount < 1 || cellAmount > n + 1 then None
    else
      var lo := MinIndexFor(n, cellAmount, sum);
      var hi := MaxIndexFor(n, cellAmount, sum);
      if lo > hi then None else Some(boardDomain[lo..hi])
  }

  /**
   * `CageMaxDomainIndex`: count the value down from n until it fits beside
   * the smallest values of the other cells.
   */
  method CageMaxDomainIndex(boardDomain: string, cellAmount: int, sum: int) returns (maxIndex: int)
    requires 1 <= cellAmount <= |boardDomain| + 1
    ensures maxIndex == MaxIndexFor(|boardDomain|, cellAmount, sum)
  {
    var maxDomainValue := |boardDomain|;
    var minSumExceptOne := TriangleSum(cellAmount - 1);
    var calcSum := minSumExceptOne + maxDomainValue;
    maxDomainValue := maxDomainValue - 1;
    while calcSum > sum
      invariant calcSum == minSumExceptOne + maxDomainValue + 1
      invariant maxDomainValue + 1 >= MaxIndexFor(|boardDomain|, cellAmount, sum)
      decreases calcSum - sum
    {
      calcSum := minSumExceptOne + maxDomainValue;
      maxDomainValue := maxDomainValue - 1;
    }
    maxIndex := maxDomainValue + 1;
  }

  /**
   * `CageMinDomainIndex`: count the value up from 1 until it reaches the sum
   * beside the largest values of the other cells, and return one less.
   */
  method CageMinDomainIndex(boardDomain: string, cellAmount: int, sum: int) returns (minIndex: int)
    ensures minIndex == MinIndexFor(|boardDomain|, cellAmount, sum)
  {
    var minDomainValue := 0;
    var maxSumExceptOne := TopSum(|boardDomain|, cellAmount - 1);
    minDomainValue := minDomainValue + 1;
    var calcSum := maxSumExceptOne + minDomainValue;
    while calcSum < sum
      invariant calcSum == maxSumExceptOne + minDomainValue
      invariant 1 <= minDomainValue <= MinIndexFor(|boardDomain|, cellAmount, sum) + 1
      decreases sum - calcSum
    {
      minDomainValue := minDomainValue + 1;
      calcSum := maxSumExceptOne + minDomainValue;
    }
    minIndex := minDomainValue - 1;
  }

  /** `MinimizeDomainForCage`, with `None` where the C# code throws. */
  method MinimizeDomainForCage(boardDomain: string, cellAmount: int, sum: int) returns (r: Option<string>)
    ensures r == CageDomain(boardDomain, cellAmount, sum)
  {
    if cellAmount < 1 || cellAmount > |boardDomain| + 1 {
      return None;
    }
    var maxIndex := CageMaxDomainIndex(boardDomain, cellAmount, sum);
    var minIndex := CageMinDomainIndex(boardDomain, cellAmount, sum);
    if minIndex > maxIndex {
      return None;
    }
    return Some(boardDomain[minIndex..maxIndex]);
  }

  /**
   * On the board domain, the slice holds exactly the symbols whose value v
   * fits both bounds: the smallest values of the other cells plus v stay
   * within the sum, and their largest values plus v reach it.
   */
  lemma CageDomainMeaning(n: int, cellAmount: int, sum: int, ch: char)
    requires 0 <= n <= |PotentialDomain|
    requires CageDomain(GetDomainForSize(n), cellAmount, sum).Some?
    ensures var v := GetValueForDomainChar(ch);
      ch in CageDomain(GetDomainForSize(n), cellAmount, sum).value <==>
        ch in GetDomainForSize(n) &&
        TriangleSum(cellAmount - 1) + v <= sum && TopSum(n, cellAmount - 1) + v >= sum
  {
    var lo := MinIndexFor(n, cellAmount, sum);
    var hi := MaxIndexFor(n, cellAmount, sum);
    SliceMember(n, lo, hi, ch);
  }

  /** A slice of the board domain holds the symbols whose value lies in (lo, hi]. */
  lemma SliceMember(n: int, lo: int, hi: int, ch: char)
    requires 0 <= lo <= hi <= n <= |PotentialDomain|
    ensures var v := GetValueForDomainChar(ch);
      (ch in GetDomainForSize(n) ==> 1 <= v <= n) &&
      (ch in GetDomainForSize(n)[lo..hi] <==> ch in GetDomainForSize(n) && lo < v <= hi)
  {
    var d := GetDomainForSize(n);
    var v := GetValueForDomainChar(ch);
    if ch in d {
      MemberValue(n, ch);
    }
    forall j | lo <= j < hi && d[j] == ch
      ensures v == j + 1
    {
      SymbolValue(j);
    }
    SliceByValue(d, lo, hi, ch, v);
  }

  /** Where `v - 1` is the index of `ch` in `d`, a slice holds `ch` exactly when it covers that index. */
  lemma SliceByValue(d: string, lo: int, hi: int, ch: char, v: int)
    requires 0 <= lo <= hi <= |d|
    requires ch in d ==> 1 <= v <= |d| && d[v - 1] == ch
    requires forall j :: lo <= j < hi && d[j] == ch ==> v == j + 1
    ensures ch in d[lo..hi] <==> ch in d && lo < v <= hi
  {
    if ch in d && lo < v <= hi {
      assert d[lo..hi][v - 1 - lo] == ch;
    }
    if ch in d[lo..hi] {
      var j :| 0 <= j < hi - lo && d[lo..hi][j] == ch;
      assert d[lo + j] == ch;
    }
  }

  /** A symbol of the board domain sits at the index one below its value. */
  lemma MemberValue(n: int, ch: char)
    requires 0 <= n <= |PotentialDomain| && ch in GetDomainForSize(n)
    ensures var v := GetValueForDomainChar(ch); 1 <= v <= n && GetDomainForSize(n)[v - 1] == ch
  {
    var d := GetDomainForSize(n);
    var k :| 0 <= k < n && d[k] == ch;
    SymbolValue(k);
  }

  /** A size-9 cage of two cells summing to 3 can only hold 1 and 2. */
  lemma TwoCellCageOfThree()
    ensures CageDomain(GetDomainForSize(9), 2, 3) == Some("12")
  {
    assert TriangleSum(1) == 1;
    assert TopSum(9, 1) == 9;
    assert MinIndexFor(9, 2, 3) == 0;
    assert MaxIndexFor(9, 2, 3) == 2;
    var d := GetDomainForSize(9);
    assert d[0] == '1' && d[1] == '2';
    assert d[0..2] == "12";
  }

  function RemoveAt(xs: seq<int>, i: int): (r: seq<int>)
    requires 0 <= i < |xs|
    ensures |r| == |xs| - 1
    ensures forall x :: x in r ==> x in xs
  {
    xs[..i] + xs[i + 1..]
  }

  lemma RemoveAtNoDup(xs: seq<int>, i: int)
    requires 0 <= i < |xs| && NoDup(xs)
    ensures NoDup(RemoveAt(xs, i))
  {
    var r := RemoveAt(xs, i);
    forall a, b | 0 <= a < b < |r|
      ensures r[a] != r[b]
    {
      var a' := if a < i then a else a + 1;
      var b' := if b < i then b else b + 1;
      assert r[a] == xs[a'] && r[b] == xs[b'];
    }
  }

  lemma {:induction false} SumRemoveAt(xs: seq<int>, i: int)
    requires 0 <= i < |xs|
    ensures Sum(xs) == Sum(RemoveAt(xs, i)) + xs[i]
    decreases |xs|
  {
    var m := |xs| - 1;
    if i < m {
      SumRemoveAt(xs[..m], i);
      assert RemoveAt(xs, i) == RemoveAt(xs[..m], i) + [xs[m]];
      assert RemoveAt(xs, i)[..|RemoveAt(xs, i)| - 1] == RemoveAt(xs[..m], i);
    } else {
      assert RemoveAt(xs, i) == xs[..m];
    }
  }

  /** Distinct positive values sum to at least 1 + 2 + ... + their count. */
  lemma {:induction false} DistinctSumLower(xs: seq<int>)
    requires NoDup(xs) && forall x :: x in xs ==> 1 <= x
    ensures Sum(xs) >= TriangleSum(|xs|)
    decreases |xs|
  {
    if xs != [] {
      var m := |xs|;
      if forall x :: x in xs ==> x < m {
        NoDupSubsetLength(xs, Range(1, m - 1));
        assert false;
      }
      var i :| 0 <= i < m && xs[i] >= m;
      RemoveAtNoDup(xs, i);
      SumRemoveAt(xs, i);
      DistinctSumLower(RemoveAt(xs, i));
    }
  }

  /** Distinct values from 1..n sum to at most n + (n - 1) + ... over their count, of which there are at most n. */
  lemma {:induction false} DistinctSumUpper(xs: seq<int>, n: nat)
    requires NoDup(xs) && forall x :: x in xs ==> 1 <= x <= n
    ensures |xs| <= n
    ensures Sum(xs) <= TopSum(n, |xs|)
    decreases |xs|
  {
    NoDupSubsetLength(xs, Range(1, n));
    if xs != [] {
      var m := |xs|;
      if forall x :: x in xs ==> x > n - m + 1 {
        NoDupSubsetLength(xs, Range(n - m + 2, n));
        assert false;
      }
      var i :| 0 <= i < m && xs[i] <= n - m + 1;
      RemoveAtNoDup(xs, i);
      SumRemoveAt(xs, i);
      DistinctSumUpper(RemoveAt(xs, i), n);
    }
  }

  /**
   * Minimizing a cage's domain loses no solution: if distinct values from
   * 1..n fill a cage and reach its sum, the slice exists and holds the symbol
   * of each of those values.
   */
  lemma CageDomainSound(n: int, sum: int, values: seq<int>, v: int)
    requires 0 <= n <= |PotentialDomain|
    requires NoDup(values) && (forall x :: x in values ==> 1 <= x <= n) && Sum(values) == sum
    requires v in values
    ensures CageDomain(GetDomainForSize(n), |values|, sum).Some?
    ensures PotentialDomain[v - 1] in CageDomain(GetDomainForSize(n), |values|, sum).value
  {
    ValueWithinBounds(n, sum, values, v);
    ValueInCageDomain(n, |values|, sum, v);
  }

  /** A value between the two bounds of `CageDomainMeaning` has its symbol in the cage domain. */
  lemma ValueInCageDomain(n: int, k: int, sum: int, v: int)
    requires 0 <= n <= |PotentialDomain| && 1 <= k <= n && 1 <= v <= n
    requires TriangleSum(k - 1) + v <= sum && TopSum(n, k - 1) + v >= sum
    ensures CageDomain(GetDomainForSize(n), k, sum).Some?
    ensures PotentialDomain[v - 1] in CageDomain(GetDomainForSize(n), k, sum).value
  {
    var d := GetDomainForSize(n);
    SliceBounds(n, k, sum, v);
    assert CageDomain(d, k, sum).Some?;
    SymbolValue(v - 1);
    assert d[v - 1] == PotentialDomain[v - 1];
    CageDomainMeaning(n, k, sum, PotentialDomain[v - 1]);
  }

  lemma SliceBounds(n: nat, k: int, sum: int, v: int)
    requires 1 <= v <= n
    requires TriangleSum(k - 1) + v <= sum && TopSum(n, k - 1) + v >= sum
    ensures MinIndexFor(n, k, sum) <= v - 1 < MaxIndexFor(n, k, sum)
  {
  }

  /** A value of a filled cage fits beside both the smallest and the largest values of the other cells. */
  lemma ValueWithinBounds(n: int, sum: int, values: seq<int>, v: int)
    requires 0 <= n
    requires NoDup(values) && (forall x :: x in values ==> 1 <= x <= n) && Sum(values) == sum
    requires v in values
    ensures 1 <= |values| <= n
    ensures TriangleSum(|values| - 1) + v <= sum && TopSum(n, |values| - 1) + v >= sum
  {
    var i :| 0 <= i < |values| && values[i] == v;
    var rest := RemoveAt(values, i);
    RemoveAtNoDup(values, i);
    SumRemoveAt(values, i);
    DistinctSumLower(rest);
    DistinctSumUpper(rest, n);
    DistinctSumUpper(values, n);
  }

  /** Why a killer board cannot be built; the C# constructor throws instead. */
  datatype KillerError =
    | SizeOutOfRange
    | CageOutOfRange(cage: int)   // the slice of cage `cage` does not exist
    | CellOffBoard(cage: int)     // cage `cage` has a cell outside the board
    | CellNotCovered              // some cell is in no cage and stays null

  /** A cage the constructor can lay out: its slice exists and its cells lie on the board. */
  predicate CageOk(boardDomain: string, cage: Cage)
  {
    CageDomain(boardDomain, |cage.cells|, cage.sum).Some? &&
    forall q :: q in cage.cells ==> InBoard(q, |boardDomain|)
  }

  predicate AllCagesOk(boardDomain: string, cages: seq<Cage>)
  {
    forall j :: 0 <= j < |cages| ==> CageOk(boardDomain, cages[j])
  }

  /** Every cell of the board lies in some cage. */
  predicate CoversBoard(cages: seq<Cage>, n: int)
  {
    forall c, r :: 0 <= c < n && 0 <= r < n ==> FirstCageIndex(cages, Pos(c, r)) >= 0
  }

  lemma CagesOkInBoard(boardDomain: string, cages: seq<Cage>)
    requires AllCagesOk(boardDomain, cages)
    ensures CagesInBoard(cages, |boardDomain|)
  {
  }

  /** A board of `n` x `n` cells that hold nothing yet. */
  function EmptyGrid(n: nat): (g: Grid<string>)
    ensures IsSquare(g, n)
  {
    seq(n, _ => seq(n, _ => ""))
  }

  /**
   * The cells after the constructor's `foreach`: every cage in turn writes its
   * slice to each of its cells, a later cage over an earlier one.
   */
  function KillerStart(g: Grid<string>, boardDomain: string, cages: seq<Cage>): (h: Grid<string>)
    requires IsSquare(g, |g|) && |g| == |boardDomain| && AllCagesOk(boardDomain, cages)
    ensures IsSquare(h, |g|)
    decreases |cages|
  {
    if cages == [] then g
    else
      var m := |cages| - 1;
      var cage := cages[m];
      var dom := CageDomain(boardDomain, |cage.cells|, cage.sum).value;
      WriteAll(KillerStart(g, boardDomain, cages[..m]), cage.cells, seq(|cage.cells|, _ => dom))
  }

  /**
   * In the start grid a cell holds the slice of the last cage containing it,
   * and a cell in no cage keeps its value.
   */
  lemma {:induction false} KillerStartCell(g: Grid<string>, boardDomain: string, cages: seq<Cage>, p: Pos, j: int)
    requires IsSquare(g, |g|) && |g| == |boardDomain| && AllCagesOk(boardDomain, cages)
    requires InBoard(p, |g|)
    ensures var h := KillerStart(g, boardDomain, cages);
      (forall k :: 0 <= k < |cages| ==> p !in cages[k].cells) ==> h[p.col][p.row] == g[p.col][p.row]
    ensures var h := KillerStart(g, boardDomain, cages);
      0 <= j < |cages| && p in cages[j].cells && (forall k :: j < k < |cages| ==> p !in cages[k].cells) ==>
        h[p.col][p.row] == CageDomain(boardDomain, |cages[j].cells|, cages[j].sum).value
    decreases |cages|
  {
    if cages != [] {
      var m := |cages| - 1;
      var cage := cages[m];
      var dom := CageDomain(boardDomain, |cage.cells|, cage.sum).value;
      var prev := KillerStart(g, boardDomain, cages[..m]);
      KillerStartCell(g, boardDomain, cages[..m], p, j);
      WriteAllSame(prev, cage.cells, seq(|cage.cells|, _ => dom), dom, p);
    }
  }

  /** Slices of a domain without `.` keep the grid free of `.`. */
  lemma {:induction false} KillerStartDotFree(g: Grid<string>, boardDomain: string, cages: seq<Cage>)
    requires IsSquare(g, |g|) && |g| == |boardDomain| && AllCagesOk(boardDomain, cages)
    requires DotFree(g) && '.' !in boardDomain
    ensures DotFree(KillerStart(g, boardDomain, cages))
    decreases |cages|
  {
    if cages != [] {
      var m := |cages| - 1;
      var cage := cages[m];
      var dom := CageDomain(boardDomain, |cage.cells|, cage.sum).value;
      assert forall ch :: ch in dom ==> ch in boardDomain;
      KillerStartDotFree(g, boardDomain, cages[..m]);
      WriteAllDotFree(KillerStart(g, boardDomain, cages[..m]), cage.cells, seq(|cage.cells|, _ => dom));
    }
  }

  /** The constructor's `foreach`: write each cage's minimized domain to its cells. */
  method WriteCageDomains(boardSize: int, domain: string, cages: seq<Cage>) returns (cells: array2<string>)
    requires boardSize == |domain| && AllCagesOk(domain, cages)
    ensures fresh(cells) && cells.Length0 == boardSize && cells.Length1 == boardSize
    ensures Contents(cells) == KillerStart(EmptyGrid(boardSize), domain, cages)
  {
    ghost var empty := EmptyGrid(boardSize);
    cells := new string[boardSize, boardSize]((_, _) => "");
    assert Contents(cells) == empty by {
      assert forall c :: 0 <= c < boardSize ==> Contents(cells)[c] == empty[c];
    }
    for j := 0 to |cages|
      invariant Contents(cells) == KillerStart(empty, domain, cages[..j])
    {
      var cage := cages[j];
      ghost var before := KillerStart(empty, domain, cages[..j]);
      var minimized := MinimizeDomainForCage(domain, |cage.cells|, cage.sum);
      var dom := minimized.value;
      assert CageOk(domain, cage);
      WriteCells(cells, cage.cells, seq(|cage.cells|, _ => dom));
      assert cages[..j + 1][..j] == cages[..j];
    }
    assert cages[..|cages|] == cages;
  }

  class KillerBoard {
    const BoardDomain: string
    const boardSize: int
    const Cages: seq<Cage>
    const Cells: array2<string>

    /** The board laid out from its cages, forward checked until stable or complete. */
    constructor (boardSize: int, cages: seq<Cage>)
      requires Boards.ValidBoardSize(boardSize)
      requires AllCagesOk(GetDomainForSize(boardSize), cages) && CoversBoard(cages, boardSize)
      ensures this.boardSize == boardSize && BoardDomain == GetDomainForSize(boardSize) && Cages == cages
      ensures fresh(Cells) && Cells.Length0 == boardSize && Cells.Length1 == boardSize
      ensures IsBlockGrid(Contents(Cells)) && CagesInBoard(cages, boardSize)
      ensures forall k :: 0 <= k < |cages| ==> |cages[k].cells| >= 1
      ensures Shrinks(Contents(Cells), KillerStart(EmptyGrid(boardSize), BoardDomain, cages))
      ensures KeepsSingletons(Contents(Cells), KillerStart(EmptyGrid(boardSize), BoardDomain, cages))
      ensures IsComplete(Contents(Cells)) || AtFixpoint(Contents(Cells), BoardDomain, cages)
      ensures Justified(Contents(Cells), KillerStart(EmptyGrid(boardSize), BoardDomain, cages), BoardDomain, cages)
      ensures DotFree(Contents(Cells))
    {
      var domain := GetDomainForSize(boardSize);
      var cells := WriteCageDomains(boardSize, domain, cages);
      Boards.ValidSizeTiles(boardSize);
      CagesOkInBoard(domain, cages);
      ForwardCheckUntilStable(cells, domain, cages);
      DotNotSymbol();
      KillerStartDotFree(EmptyGrid(boardSize), domain, cages);
      ShrinksDotFree(Contents(cells), KillerStart(EmptyGrid(boardSize), domain, cages));
      this.boardSize := boardSize;
      BoardDomain := domain;
      Cages := cages;
      Cells := cells;
    }

    /** `ToString`: the board as text. */
    method ToString() returns (s: string)
      requires Cells.Length0 == Cells.Length1
      ensures s == Render(Contents(Cells))
    {
      s := ToBoardString(Cells);
    }
  }

  /** The first cage, from index `from` on, that the constructor cannot lay out, or -1. */
  function FirstBadCage(boardDomain: string, cages: seq<Cage>, from: nat): (j: int)
    requires from <= |cages|
    ensures j == -1 ==> forall k :: from <= k < |cages| ==> CageOk(boardDomain, cages[k])
    ensures j != -1 ==>
      from <= j < |cages| && !CageOk(boardDomain, cages[j]) &&
      forall k :: from <= k < j ==> CageOk(boardDomain, cages[k])
    decreases |cages| - from
  {
    if from == |cages| then -1
    else if !CageOk(boardDomain, cages[from]) then from
    else FirstBadCage(boardDomain, cages, from + 1)
  }

  /**
   * The constructor's checks, in the order it makes them, as a result
   * instead of an exception: the size, then cage by cage its slice and its
   * cells, then cells left in no cage.
   */
  method Create(boardSize: int, cages: seq<Cage>) returns (r: Result<KillerBoard, KillerError>)
    ensures r == Failure(SizeOutOfRange) <==> !Boards.ValidBoardSize(boardSize)
    ensures r.Failure? && (r.error.CageOutOfRange? || r.error.CellOffBoard?) ==>
      Boards.ValidBoardSize(boardSize) &&
      var j := r.error.cage; var domain := GetDomainForSize(boardSize);
      0 <= j < |cages| && (forall k :: 0 <= k < j ==> CageOk(domain, cages[k])) &&
      (r.error.CageOutOfRange? <==> CageDomain(domain, |cages[j].cells|, cages[j].sum).None?) &&
      (r.error.CellOffBoard? ==> exists q :: q in cages[j].cells && !InBoard(q, boardSize))
    ensures r == Failure(CellNotCovered) ==>
      Boards.ValidBoardSize(boardSize) && AllCagesOk(GetDomainForSize(boardSize), cages) &&
      !CoversBoard(cages, boardSize)
    ensures r.Success? <==>
      Boards.ValidBoardSize(boardSize) && AllCagesOk(GetDomainForSize(boardSize), cages) &&
      CoversBoard(cages, boardSize)
    ensures r.Success? ==>
      var cells := r.value.Cells;
      fresh(cells) && r.value.Cages == cages && r.value.boardSize == boardSize &&
      r.value.BoardDomain == GetDomainForSize(boardSize) &&
      var g0 := KillerStart(EmptyGrid(boardSize), r.value.BoardDomain, cages);
      cells.Length0 == boardSize && cells.Length1 == boardSize && IsBlockGrid(Contents(cells)) &&
      CagesInBoard(cages, boardSize) && (forall k :: 0 <= k < |cages| ==> |cages[k].cells| >= 1) &&
      Shrinks(Contents(cells), g0) && KeepsSingletons(Contents(cells), g0) &&
      (IsComplete(Contents(cells)) || AtFixpoint(Contents(cells), r.value.BoardDomain, cages)) &&
      Justified(Contents(cells), g0, r.value.BoardDomain, cages) && DotFree(Contents(cells))
  {
    if !Boards.ValidBoardSize(boardSize) {
      return Failure(SizeOutOfRange);
    }
    var domain := GetDomainForSize(boardSize);
    var bad := FirstBadCage(domain, cages, 0);
    if bad >= 0 {
      var minimized := MinimizeDomainForCage(domain, |cages[bad].cells|, cages[bad].sum);
      if minimized.None? {
        return Failure(CageOutOfRange(bad));
      }
      return Failure(CellOffBoard(bad));
    }
    if !CoversBoard(cages, boardSize) {
      return Failure(CellNotCovered);
    }
    var board := new KillerBoard(boardSize, cages);
    return Success(board);
  }
}
