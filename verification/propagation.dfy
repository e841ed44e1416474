/**
 * Forward checking, shared by `Board`, `KillerBoard` and `Solver`
 * (KillerSudoku/Board.cs, KillerSudoku/KillerBoard.cs, KillerSudoku/Solver.cs).
 * A cell whose domain has more than one symbol loses every symbol that is the
 * value of a resolved cell in its column, row, block or cage. `Board` and
 * `Solver` pass no cages; `KillerBoard` passes its own.
 */
module Propagation {
  import opened Seqs
  import opened Utils
  import opened ArrayExtensions

  /** A killer cage: its cells and the sum their values must reach. */
  datatype Cage = Cage(cells: seq<Pos>, sum: int)

  predicate CagesInBoard(cages: seq<Cage>, n: int)
  {
    forall k, q :: 0 <= k < |cages| && q in cages[k].cells ==> InBoard(q, n)
  }

  /** Index of the first cage containing `p`, or -1 (`FirstOrDefault`). */
  function FirstCageIndex(cages: seq<Cage>, p: Pos): (k: int)
    ensures -1 <= k < |cages|
    ensures k == -1 <==> forall j :: 0 <= j < |cages| ==> p !in cages[j].cells
    ensures 0 <= k ==> p in cages[k].cells && forall j :: 0 <= j < k ==> p !in cages[j].cells
    decreases |cages|
  {
    if cages == [] then -1
    else if p in cages[0].cells then 0
    else
      var k := FirstCageIndex(cages[1..], p);
      if k < 0 then -1 else k + 1
  }

  /**
   * The other cells of the first cage containing `p` (`GetCage`,
   * `GetCageNeighboursOfCell`); none when no cage contains `p`.
   */
  function CageMates(cages: seq<Cage>, p: Pos): (r: seq<Pos>)
    ensures var k := FirstCageIndex(cages, p);
      forall q :: q in r <==> 0 <= k && q in cages[k].cells && q != p
  {
    var k := FirstCageIndex(cages, p);
    if k < 0 then [] else Without(cages[k].cells, p)
  }

  /** `q` shares a column, row, block or (first) cage with `p`. */
  predicate IsPeer(p: Pos, q: Pos, blockSize: int, cages: seq<Cage>)
    requires blockSize > 0
  {
    q.col == p.col || q.row == p.row || SameBlock(p, q, blockSize) || q in CageMates(cages, p)
  }

  /** Some peer of `p` is resolved to the symbol `ch`. */
  ghost predicate FixedPeerSymbol(g: Grid<string>, cages: seq<Cage>, p: Pos, ch: char)
    requires IsBlockGrid(g)
  {
    exists q :: InBoard(q, |g|) && IsPeer(p, q, BoardSizeToBlockSize(|g|), cages) && CellAt(g, q) == [ch]
  }

  /** The domains of the given cells. */
  function CellsAt(g: Grid<string>, ps: seq<Pos>): (s: seq<string>)
    requires IsSquare(g, |g|) && forall q :: q in ps ==> InBoard(q, |g|)
    ensures |s| == |ps| && forall i :: 0 <= i < |ps| ==> s[i] == CellAt(g, ps[i])
  {
    seq(|ps|, i requires 0 <= i < |ps| => CellAt(g, ps[i]))
  }

  /**
   * The symbols of the board domain that some peer of `p` is resolved to: the
   * union of the restricted domains of the column, the row, the block and the cage.
   */
  function Restrictions(g: Grid<string>, domain: string, cages: seq<Cage>, p: Pos): (r: string)
    requires IsBlockGrid(g) && InBoard(p, |g|) && CagesInBoard(cages, |g|)
    ensures forall ch :: ch in r <==> ch in domain && FixedPeerSymbol(g, cages, p, ch)
  {
    var colR := GetRestrictedDomain(GetColumn(g, p.col), domain);
    var rowR := GetRestrictedDomain(GetRow(g, p.row), domain);
    var blockR := GetRestrictedDomain(GetBlock(g, p), domain);
    var cageR := GetRestrictedDomain(CellsAt(g, CageMates(cages, p)), domain);
    var r := Union(Union(Union(colR, rowR), blockR), cageR);
    assert forall ch :: ch in r <==> ch in domain && FixedPeerSymbol(g, cages, p, ch) by {
      forall ch
        ensures ch in r <==> ch in domain && FixedPeerSymbol(g, cages, p, ch)
      {
        PeerGroups(g, cages, p, ch);
      }
    }
    r
  }

  /** A resolved peer shows up in one of the four groups, and every resolved cell of a group is a peer. */
  lemma PeerGroups(g: Grid<string>, cages: seq<Cage>, p: Pos, ch: char)
    requires IsBlockGrid(g) && InBoard(p, |g|) && CagesInBoard(cages, |g|)
    ensures FixedPeerSymbol(g, cages, p, ch) <==>
        [ch] in GetColumn(g, p.col) || [ch] in GetRow(g, p.row) || [ch] in GetBlock(g, p) ||
        [ch] in CellsAt(g, CageMates(cages, p))
  {
    if FixedPeerSymbol(g, cages, p, ch) {
      PeerInGroup(g, cages, p, ch);
    }
    if [ch] in GetColumn(g, p.col) || [ch] in GetRow(g, p.row) || [ch] in GetBlock(g, p) ||
       [ch] in CellsAt(g, CageMates(cages, p)) {
      GroupHasPeer(g, cages, p, ch);
    }
  }

  lemma PeerInGroup(g: Grid<string>, cages: seq<Cage>, p: Pos, ch: char)
    requires IsBlockGrid(g) && InBoard(p, |g|) && CagesInBoard(cages, |g|)
    requires FixedPeerSymbol(g, cages, p, ch)
    ensures [ch] in GetColumn(g, p.col) || [ch] in GetRow(g, p.row) || [ch] in GetBlock(g, p) ||
        [ch] in CellsAt(g, CageMates(cages, p))
  {
    var n := |g|;
    var b := BoardSizeToBlockSize(n);
    var q :| InBoard(q, n) && IsPeer(p, q, b, cages) && CellAt(g, q) == [ch];
    if q.col == p.col {
      assert GetColumn(g, p.col)[q.row] == [ch];
    } else if q.row == p.row {
      assert GetRow(g, p.row)[q.col] == [ch];
    } else if SameBlock(p, q, b) {
      GetBlockMember(g, p, q);
      assert GetBlock(g, p)[PosToIndexInBlock(q, b)] == [ch];
    } else {
      var mates := CageMates(cages, p);
      var i :| 0 <= i < |mates| && mates[i] == q;
      assert CellsAt(g, mates)[i] == [ch];
    }
  }

  lemma GroupHasPeer(g: Grid<string>, cages: seq<Cage>, p: Pos, ch: char)
    requires IsBlockGrid(g) && InBoard(p, |g|) && CagesInBoard(cages, |g|)
    requires [ch] in GetColumn(g, p.col) || [ch] in GetRow(g, p.row) || [ch] in GetBlock(g, p) ||
        [ch] in CellsAt(g, CageMates(cages, p))
    ensures FixedPeerSymbol(g, cages, p, ch)
  {
    var n := |g|;
    var b := BoardSizeToBlockSize(n);
    if [ch] in GetColumn(g, p.col) {
      var k :| 0 <= k < n && GetColumn(g, p.col)[k] == [ch];
      Witness(g, cages, p, Pos(p.col, k), ch);
    } else if [ch] in GetRow(g, p.row) {
      var k :| 0 <= k < n && GetRow(g, p.row)[k] == [ch];
      Witness(g, cages, p, Pos(k, p.row), ch);
    } else if [ch] in GetBlock(g, p) {
      var k :| 0 <= k < n && GetBlock(g, p)[k] == [ch];
      GetBlockElement(g, p, k);
      Witness(g, cages, p, BlockCell(PosToBlockPos(p, b), k, b), ch);
    } else {
      var mates := CageMates(cages, p);
      var i :| 0 <= i < |mates| && CellsAt(g, mates)[i] == [ch];
      assert mates[i] in mates;
      Witness(g, cages, p, mates[i], ch);
    }
  }

  lemma Witness(g: Grid<string>, cages: seq<Cage>, p: Pos, q: Pos, ch: char)
    requires IsBlockGrid(g) && InBoard(q, |g|)
    requires IsPeer(p, q, BoardSizeToBlockSize(|g|), cages) && CellAt(g, q) == [ch]
    ensures FixedPeerSymbol(g, cages, p, ch)
  {
  }

  /**
   * The new domain `ConstrainCell` computes for `p`: a resolved cell keeps its
   * symbol; any other cell keeps, once each and in order, the symbols that no
   * peer is resolved to.
   */
  function ConstrainedDomain(g: Grid<string>, domain: string, cages: seq<Cage>, p: Pos): (r: string)
    requires IsBlockGrid(g) && InBoard(p, |g|) && CagesInBoard(cages, |g|)
    ensures |CellAt(g, p)| == 1 ==> r == CellAt(g, p)
    ensures |CellAt(g, p)| != 1 ==>
      forall ch :: ch in r <==> ch in CellAt(g, p) && !(ch in domain && FixedPeerSymbol(g, cages, p, ch))
    ensures Shrunk(r, CellAt(g, p))
  {
    var current := CellAt(g, p);
    if |current| == 1 then current
    else
      var restrictions := Restrictions(g, domain, cages, p);
      Except(current, set ch | ch in restrictions)
  }

  /** A new domain is no longer than the old one and holds no new symbol. */
  predicate Shrunk(d1: string, d0: string)
  {
    |d1| <= |d0| && forall ch :: ch in d1 ==> ch in d0
  }

  /** Every cell of `g1` is `Shrunk` from the same cell of `g0`. */
  ghost predicate Shrinks(g1: Grid<string>, g0: Grid<string>)
  {
    IsSquare(g1, |g0|) && IsSquare(g0, |g0|) &&
    forall c, r :: 0 <= c < |g0| && 0 <= r < |g0| ==> Shrunk(g1[c][r], g0[c][r])
  }

  /** Every cell resolved in `g0` holds the same symbol in `g1`. */
  ghost predicate KeepsSingletons(g1: Grid<string>, g0: Grid<string>)
  {
    IsSquare(g1, |g0|) && IsSquare(g0, |g0|) &&
    forall c, r :: 0 <= c < |g0| && 0 <= r < |g0| && |g0[c][r]| == 1 ==> g1[c][r] == g0[c][r]
  }

  lemma ShrinksTrans(g2: Grid<string>, g1: Grid<string>, g0: Grid<string>)
    requires Shrinks(g2, g1) && Shrinks(g1, g0)
    ensures Shrinks(g2, g0)
  {
  }

  lemma KeepsSingletonsTrans(g2: Grid<string>, g1: Grid<string>, g0: Grid<string>)
    requires KeepsSingletons(g2, g1) && KeepsSingletons(g1, g0)
    ensures KeepsSingletons(g2, g0)
  {
  }

  /** The grid with cell `p` replaced by `v`. */
  function SetCell<T>(g: Grid<T>, p: Pos, v: T): (h: Grid<T>)
    requires IsSquare(g, |g|) && InBoard(p, |g|)
    ensures IsSquare(h, |g|) && h[p.col][p.row] == v
    ensures forall c, r :: 0 <= c < |g| && 0 <= r < |g| && Pos(c, r) != p ==> h[c][r] == g[c][r]
    ensures h == g <==> v == g[p.col][p.row]
  {
    assert v == g[p.col][p.row] ==> g[p.col][p.row := v] == g[p.col];
    g[p.col := g[p.col][p.row := v]]
  }

  /** The grid after writing `vs[i]` to cell `ps[i]`, for i = 0, 1, ... in turn. */
  function WriteAll<T>(g: Grid<T>, ps: seq<Pos>, vs: seq<T>): (h: Grid<T>)
    requires IsSquare(g, |g|) && |ps| == |vs| && forall q :: q in ps ==> InBoard(q, |g|)
    ensures IsSquare(h, |g|)
    decreases |ps|
  {
    if ps == [] then g
    else
      var m := |ps| - 1;
      assert forall q :: q in ps[..m] ==> q in ps;
      SetCell(WriteAll(g, ps[..m], vs[..m]), ps[m], vs[m])
  }

  /** Writing one value to several cells: those cells hold it, the others are unchanged. */
  lemma {:induction false} WriteAllSame<T>(g: Grid<T>, ps: seq<Pos>, vs: seq<T>, v: T, p: Pos)
    requires IsSquare(g, |g|) && |ps| == |vs| && forall q :: q in ps ==> InBoard(q, |g|)
    requires forall i :: 0 <= i < |vs| ==> vs[i] == v
    requires InBoard(p, |g|)
    ensures var h := WriteAll(g, ps, vs);
      (p in ps ==> h[p.col][p.row] == v) && (p !in ps ==> h[p.col][p.row] == g[p.col][p.row])
    decreases |ps|
  {
    if ps != [] {
      var m := |ps| - 1;
      assert forall q :: q in ps[..m] ==> q in ps;
      WriteAllSame(g, ps[..m], vs[..m], v, p);
      assert ps == ps[..m] + [ps[m]];
    }
  }

  /** Writing to every cell a domain shrunk from what the cell held shrinks the grid. */
  lemma {:induction false} WriteAllShrinks(g: Grid<string>, ps: seq<Pos>, vs: seq<string>)
    requires IsSquare(g, |g|) && |ps| == |vs| && forall q :: q in ps ==> InBoard(q, |g|)
    requires forall i :: 0 <= i < |ps| ==> Shrunk(vs[i], CellAt(g, ps[i]))
    ensures Shrinks(WriteAll(g, ps, vs), g)
    decreases |ps|
  {
    if ps != [] {
      var m := |ps| - 1;
      assert forall q :: q in ps[..m] ==> q in ps;
      WriteAllShrinks(g, ps[..m], vs[..m]);
    }
  }

  /** The sum of the lengths of all domains: forward checking only ever lowers it. */
  function TotalSize(g: Grid<string>): (size: int)
    ensures 0 <= size
  {
    var columns := seq(|g|, c requires 0 <= c < |g| => ColumnSize(g[c]));
    SumNonNegative(columns);
    Sum(columns)
  }

  function ColumnSize(column: seq<string>): (size: int)
    ensures 0 <= size
  {
    var lengths := seq(|column|, r requires 0 <= r < |column| => |column[r]|);
    SumNonNegative(lengths);
    Sum(lengths)
  }

  /** Shrinking cells lowers the total size, strictly when some cell gets shorter. */
  lemma TotalSizeShrinks(g1: Grid<string>, g0: Grid<string>, p: Pos)
    requires Shrinks(g1, g0)
    ensures TotalSize(g1) <= TotalSize(g0)
    ensures InBoard(p, |g0|) && |g1[p.col][p.row]| < |g0[p.col][p.row]| ==> TotalSize(g1) < TotalSize(g0)
  {
    var n := |g0|;
    var s1 := seq(n, c requires 0 <= c < n => ColumnSize(g1[c]));
    var s0 := seq(n, c requires 0 <= c < n => ColumnSize(g0[c]));
    forall c | 0 <= c < n
      ensures s1[c] <= s0[c]
      ensures c == p.col && 0 <= p.row < n && |g1[p.col][p.row]| < |g0[p.col][p.row]| ==> s1[c] < s0[c]
    {
      var l1 := seq(n, r requires 0 <= r < n => |g1[c][r]|);
      var l0 := seq(n, r requires 0 <= r < n => |g0[c][r]|);
      SumMono(l1, l0);
      if c == p.col && 0 <= p.row < n && |g1[p.col][p.row]| < |g0[p.col][p.row]| {
        assert l1[p.row] < l0[p.row];
      }
    }
    SumMono(s1, s0);
    if InBoard(p, n) && |g1[p.col][p.row]| < |g0[p.col][p.row]| {
      assert s1[p.col] < s0[p.col];
    }
  }

  /**
   * Every symbol that some cell of `g0` lost on the way to `g` is a board
   * symbol to which a peer of that cell is resolved in `g`: forward checking
   * removes nothing it cannot account for.
   */
  ghost predicate Justified(g: Grid<string>, g0: Grid<string>, domain: string, cages: seq<Cage>)
  {
    IsBlockGrid(g) && IsSquare(g0, |g|) &&
    forall c, r, ch :: 0 <= c < |g| && 0 <= r < |g| && ch in g0[c][r] && ch !in g[c][r] ==>
      ch in domain && FixedPeerSymbol(g, cages, Pos(c, r), ch)
  }

  /** A peer resolved in `g` is still resolved in a board that kept the resolved cells of `g`. */
  lemma FixedPeerKept(h: Grid<string>, g: Grid<string>, cages: seq<Cage>, p: Pos, ch: char)
    requires IsBlockGrid(g) && IsBlockGrid(h) && |h| == |g| && KeepsSingletons(h, g)
    requires FixedPeerSymbol(g, cages, p, ch)
    ensures FixedPeerSymbol(h, cages, p, ch)
  {
    var q :| InBoard(q, |g|) && IsPeer(p, q, BoardSizeToBlockSize(|g|), cages) && CellAt(g, q) == [ch];
    assert CellAt(h, q) == [ch];
  }

  lemma JustifiedRefl(g: Grid<string>, domain: string, cages: seq<Cage>)
    requires IsBlockGrid(g)
    ensures Justified(g, g, domain, cages)
  {
  }

  /** Removals justified in two stages are justified overall, since the later stage keeps resolved cells. */
  lemma JustifiedTrans(g2: Grid<string>, g1: Grid<string>, g0: Grid<string>, domain: string, cages: seq<Cage>)
    requires Justified(g2, g1, domain, cages) && Justified(g1, g0, domain, cages) && KeepsSingletons(g2, g1)
    ensures Justified(g2, g0, domain, cages)
  {
    forall c, r, ch | 0 <= c < |g2| && 0 <= r < |g2| && ch in g0[c][r] && ch !in g2[c][r]
      ensures ch in domain && FixedPeerSymbol(g2, cages, Pos(c, r), ch)
    {
      if ch !in g1[c][r] {
        assert |g1| == |g2| && ch in g0[c][r];
        assert 0 <= c < |g1| && 0 <= r < |g1|;
        assert IsBlockGrid(g1);
        assert ch in domain && FixedPeerSymbol(g1, cages, Pos(c, r), ch);
        FixedPeerKept(g2, g1, cages, Pos(c, r), ch);
      }
    }
  }

  /** Each symbol one `ConstrainCell` step removes is forced by a resolved peer. */
  lemma JustifiedStep(g: Grid<string>, domain: string, cages: seq<Cage>, p: Pos)
    requires IsBlockGrid(g) && InBoard(p, |g|) && CagesInBoard(cages, |g|)
    ensures Justified(SetCell(g, p, ConstrainedDomain(g, domain, cages, p)), g, domain, cages)
  {
    var h := SetCell(g, p, ConstrainedDomain(g, domain, cages, p));
    ConstrainStep(g, domain, cages, p);
    forall c, r, ch | 0 <= c < |h| && 0 <= r < |h| && ch in g[c][r] && ch !in h[c][r]
      ensures ch in domain && FixedPeerSymbol(h, cages, Pos(c, r), ch)
    {
      assert Pos(c, r) == p;
      var d := ConstrainedDomain(g, domain, cages, p);
      assert ch in CellAt(g, p) && ch !in d;
      assert |CellAt(g, p)| != 1;
      assert ch in domain && FixedPeerSymbol(g, cages, p, ch);
      FixedPeerKept(h, g, cages, p, ch);
    }
  }

  /**
   * One `ConstrainCell` step on a board reached from `g0`: the board still
   * only shrank from `g0`, kept its resolved cells, removed only forced
   * symbols, and its total size did not grow (it fell if the step changed it).
   */
  lemma ConstrainStepFrom(g: Grid<string>, g0: Grid<string>, domain: string, cages: seq<Cage>, p: Pos)
    requires IsBlockGrid(g) && InBoard(p, |g|) && CagesInBoard(cages, |g|)
    requires Shrinks(g, g0) && KeepsSingletons(g, g0) && Justified(g, g0, domain, cages)
    ensures var h := SetCell(g, p, ConstrainedDomain(g, domain, cages, p));
      IsBlockGrid(h) && Shrinks(h, g0) && KeepsSingletons(h, g0) && Justified(h, g0, domain, cages) &&
      TotalSize(h) <= TotalSize(g) && (h != g ==> TotalSize(h) < TotalSize(g))
  {
    var h := SetCell(g, p, ConstrainedDomain(g, domain, cages, p));
    ConstrainStep(g, domain, cages, p);
    ConstrainStepSize(g, domain, cages, p);
    TotalSizeShrinks(h, g, p);
    ShrinksTrans(h, g, g0);
    KeepsSingletonsTrans(h, g, g0);
    JustifiedStep(g, domain, cages, p);
    JustifiedTrans(h, g, g0, domain, cages);
  }

  /** No cell would change under `ConstrainCell`. */
  ghost predicate AtFixpoint(g: Grid<string>, domain: string, cages: seq<Cage>)
    requires IsBlockGrid(g) && CagesInBoard(cages, |g|)
  {
    forall q :: InBoard(q, |g|) ==> ConstrainedDomain(g, domain, cages, q) == CellAt(g, q)
  }

  /** At a fixpoint no unresolved cell holds a board symbol to which one of its peers is resolved. */
  lemma FixpointExcludesPeers(g: Grid<string>, domain: string, cages: seq<Cage>, p: Pos, q: Pos)
    requires IsBlockGrid(g) && CagesInBoard(cages, |g|) && AtFixpoint(g, domain, cages)
    requires InBoard(p, |g|) && InBoard(q, |g|) && IsPeer(p, q, BoardSizeToBlockSize(|g|), cages)
    requires |CellAt(g, p)| != 1 && |CellAt(g, q)| == 1 && CellAt(g, q)[0] in domain
    ensures CellAt(g, q)[0] !in CellAt(g, p)
  {
    var ch := CellAt(g, q)[0];
    assert CellAt(g, q) == [ch];
    assert FixedPeerSymbol(g, cages, p, ch);
    assert ConstrainedDomain(g, domain, cages, p) == CellAt(g, p);
  }

  /** No cell holds `.`, the character the board text uses for an unresolved cell. */
  ghost predicate DotFree(g: Grid<string>)
  {
    forall c, r :: 0 <= c < |g| && 0 <= r < |g[c]| ==> '.' !in g[c][r]
  }

  lemma ShrinksDotFree(g1: Grid<string>, g0: Grid<string>)
    requires Shrinks(g1, g0) && DotFree(g0)
    ensures DotFree(g1)
  {
  }

  /** Writing strings without `.` to a grid without `.` leaves none. */
  lemma {:induction false} WriteAllDotFree(g: Grid<string>, ps: seq<Pos>, vs: seq<string>)
    requires IsSquare(g, |g|) && |ps| == |vs| && forall q :: q in ps ==> InBoard(q, |g|)
    requires DotFree(g) && forall i :: 0 <= i < |vs| ==> '.' !in vs[i]
    ensures DotFree(WriteAll(g, ps, vs))
    decreases |ps|
  {
    if ps != [] {
      var m := |ps| - 1;
      assert forall q :: q in ps[..m] ==> q in ps;
      WriteAllDotFree(g, ps[..m], vs[..m]);
    }
  }

  /** The board is complete when its text shows no `.` (`IsComplete`). */
  predicate IsComplete(g: Grid<string>)
    requires IsSquare(g, |g|)
  {
    '.' !in Render(g)
  }

  /**
   * `ConstrainCell`: recompute the domain of (col, row) from the restricted
   * domains of its groups and store it if it differs.
   */
  method ConstrainCell(cells: array2<string>, domain: string, cages: seq<Cage>, col: int, row: int)
    returns (changed: bool)
    requires cells.Length0 == cells.Length1 && IsBlockGrid(Contents(cells))
    requires CagesInBoard(cages, cells.Length0) && InBoard(Pos(col, row), cells.Length0)
    modifies cells
    ensures var g := old(Contents(cells));
      Contents(cells) == SetCell(g, Pos(col, row), ConstrainedDomain(g, domain, cages, Pos(col, row)))
    ensures changed <==> Contents(cells) != old(Contents(cells))
  {
    ghost var g := Contents(cells);
    var p := Pos(col, row);
    var currentDomain := cells[col, row];
    assert currentDomain == CellAt(g, p);
    if |currentDomain| == 1 {
      assert ConstrainedDomain(g, domain, cages, p) == currentDomain;
      return false;
    }
    // the current domain less the symbols of the restricted domains of its groups
    var newDomain := ConstrainedDomain(Contents(cells), domain, cages, p);
    if currentDomain == newDomain {
      return false;
    }
    cells[col, row] := newDomain;
    ContentsSetCell(cells, g, p, newDomain);
    changed := true;
  }

  lemma ContentsSetCell(cells: array2<string>, g: Grid<string>, p: Pos, v: string)
    requires IsSquare(g, |g|) && InBoard(p, |g|)
    requires cells.Length0 == cells.Length1 == |g|
    requires cells[p.col, p.row] == v
    requires forall c, r :: 0 <= c < |g| && 0 <= r < |g| && Pos(c, r) != p ==> cells[c, r] == g[c][r]
    ensures Contents(cells) == SetCell(g, p, v)
  {
    var h := SetCell(g, p, v);
    assert forall c :: 0 <= c < |g| ==> Contents(cells)[c] == h[c];
  }

  /** Store `v` in the cell at `p`; no other cell changes. */
  method WriteCell(b: array2<string>, p: Pos, v: string)
    requires b.Length0 == b.Length1 && InBoard(p, b.Length0)
    modifies b
    ensures Contents(b) == SetCell(old(Contents(b)), p, v)
  {
    ghost var g := Contents(b);
    b[p.col, p.row] := v;
    ContentsSetCell(b, g, p, v);
  }

  /**
   * Write `values` to `cells`, in order: the loop of the `KillerBoard`
   * constructor that stores the cage domains and the inner loop of the
   * solver's `RecalculateDomainsForCages`.
   */
  method WriteCells(b: array2<string>, cells: seq<Pos>, values: seq<string>)
    requires b.Length0 == b.Length1 && |cells| == |values|
    requires forall q :: q in cells ==> InBoard(q, b.Length0)
    modifies b
    ensures Contents(b) == WriteAll(old(Contents(b)), cells, values)
  {
    ghost var g0 := Contents(b);
    for i := 0 to |cells|
      invariant Contents(b) == WriteAll(g0, cells[..i], values[..i])
    {
      var cellPos := cells[i];
      assert cellPos in cells;
      ghost var g := Contents(b);
      b[cellPos.col, cellPos.row] := values[i];
      ContentsSetCell(b, g, cellPos, values[i]);
      assert cells[..i + 1][..i] == cells[..i];
      assert values[..i + 1][..i] == values[..i];
    }
    assert cells[..|cells|] == cells && values[..|cells|] == values;
  }

  /** One `ConstrainCell` step shrinks the board and keeps resolved cells. */
  lemma ConstrainStep(g: Grid<string>, domain: string, cages: seq<Cage>, p: Pos)
    requires IsBlockGrid(g) && InBoard(p, |g|) && CagesInBoard(cages, |g|)
    ensures var h := SetCell(g, p, ConstrainedDomain(g, domain, cages, p));
      Shrinks(h, g) && KeepsSingletons(h, g) && IsBlockGrid(h)
  {
    var d := ConstrainedDomain(g, domain, cages, p);
    var h := SetCell(g, p, d);
    assert Shrunk(h[p.col][p.row], g[p.col][p.row]);
  }

  /** A `ConstrainCell` step that changes the board lowers its total size. */
  lemma ConstrainStepSize(g: Grid<string>, domain: string, cages: seq<Cage>, p: Pos)
    requires IsBlockGrid(g) && InBoard(p, |g|) && CagesInBoard(cages, |g|)
    ensures var h := SetCell(g, p, ConstrainedDomain(g, domain, cages, p));
      h != g ==> TotalSize(h) < TotalSize(g)
  {
    var d := ConstrainedDomain(g, domain, cages, p);
    var h := SetCell(g, p, d);
    if h != g {
      ConstrainStep(g, domain, cages, p);
      TotalSizeShrinks(h, g, p);
    }
  }

  /**
   * `DoForwardChecking`: `ConstrainCell` on every cell, row by row. The board
   * only shrinks; it reports a change exactly when the total size dropped, and
   * when nothing changed every cell is at its constrained domain.
   */
  method DoForwardChecking(cells: array2<string>, domain: string, cages: seq<Cage>) returns (changed: bool)
    requires cells.Length0 == cells.Length1 && IsBlockGrid(Contents(cells))
    requires CagesInBoard(cages, cells.Length0)
    modifies cells
    ensures IsBlockGrid(Contents(cells))
    ensures Shrinks(Contents(cells), old(Contents(cells)))
    ensures KeepsSingletons(Contents(cells), old(Contents(cells)))
    ensures changed ==> TotalSize(Contents(cells)) < TotalSize(old(Contents(cells)))
    ensures !changed ==> Contents(cells) == old(Contents(cells)) && AtFixpoint(Contents(cells), domain, cages)
    ensures Justified(Contents(cells), old(Contents(cells)), domain, cages)
  {
    ghost var g0 := Contents(cells);
    JustifiedRefl(g0, domain, cages);
    var boardSize := cells.Length0;
    changed := false;
    for row := 0 to boardSize
      invariant IsBlockGrid(Contents(cells)) && |Contents(cells)| == boardSize
      invariant Shrinks(Contents(cells), g0) && KeepsSingletons(Contents(cells), g0)
      invariant Justified(Contents(cells), g0, domain, cages)
      invariant changed ==> TotalSize(Contents(cells)) < TotalSize(g0)
      invariant !changed ==> Contents(cells) == g0
      invariant !changed ==> forall q :: InBoard(q, boardSize) && q.row < row ==>
        ConstrainedDomain(g0, domain, cages, q) == CellAt(g0, q)
    {
      for col := 0 to boardSize
        invariant IsBlockGrid(Contents(cells)) && |Contents(cells)| == boardSize
        invariant Shrinks(Contents(cells), g0) && KeepsSingletons(Contents(cells), g0)
        invariant Justified(Contents(cells), g0, domain, cages)
        invariant changed ==> TotalSize(Contents(cells)) < TotalSize(g0)
        invariant !changed ==> Contents(cells) == g0
        invariant !changed ==> forall q :: InBoard(q, boardSize) && (q.row < row || (q.row == row && q.col < col)) ==>
          ConstrainedDomain(g0, domain, cages, q) == CellAt(g0, q)
      {
        ghost var before := Contents(cells);
        var cellChanged := ConstrainCell(cells, domain, cages, col, row);
        ConstrainStepFrom(before, g0, domain, cages, Pos(col, row));
        TotalSizeShrinks(before, g0, Pos(col, row));
        if cellChanged {
          changed := true;
        }
      }
    }
  }

  /**
   * The loop of the `Board` and `KillerBoard` constructors: forward check
   * until nothing changes or the board is complete.
   */
  method ForwardCheckUntilStable(cells: array2<string>, domain: string, cages: seq<Cage>)
    requires cells.Length0 == cells.Length1 && IsBlockGrid(Contents(cells))
    requires CagesInBoard(cages, cells.Length0)
    modifies cells
    ensures IsBlockGrid(Contents(cells))
    ensures Shrinks(Contents(cells), old(Contents(cells)))
    ensures KeepsSingletons(Contents(cells), old(Contents(cells)))
    ensures IsComplete(Contents(cells)) || AtFixpoint(Contents(cells), domain, cages)
    ensures Justified(Contents(cells), old(Contents(cells)), domain, cages)
  {
    ghost var g0 := Contents(cells);
    JustifiedRefl(g0, domain, cages);
    var boardChanged := true;
    var text := ToBoardString(cells);
    while boardChanged && '.' in text
      invariant IsBlockGrid(Contents(cells)) && |Contents(cells)| == cells.Length0
      invariant text == Render(Contents(cells))
      invariant Shrinks(Contents(cells), g0) && KeepsSingletons(Contents(cells), g0)
      invariant Justified(Contents(cells), g0, domain, cages)
      invariant !boardChanged ==> AtFixpoint(Contents(cells), domain, cages)
      decreases TotalSize(Contents(cells)), if boardChanged then 1 else 0
    {
      ghost var before := Contents(cells);
      boardChanged := DoForwardChecking(cells, domain, cages);
      ShrinksTrans(Contents(cells), before, g0);
      KeepsSingletonsTrans(Contents(cells), before, g0);
      JustifiedTrans(Contents(cells), before, g0, domain, cages);
      text := ToBoardString(cells);
    }
  }
}
