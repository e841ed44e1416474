/**
 * Projections of a board of per-cell domains (KillerSudoku/ArrayExtensions.cs).
 * A C# `T[,]` board is an `array2<T>`; its contents are a `Grid<T>`, indexed
 * `[col][row]` like the array, and the row, column and block views are
 * functions of the contents.
 */
module ArrayExtensions {
  import opened Seqs
  import opened Utils

  type Grid<T> = seq<seq<T>>

  ghost predicate IsSquare<T>(g: Grid<T>, n: int)
  {
    |g| == n && forall c :: 0 <= c < n ==> |g[c]| == n
  }

  /** A non-empty square board whose side is a perfect square, so that blocks tile it. */
  ghost predicate IsBlockGrid<T>(g: Grid<T>)
  {
    var n := |g|;
    n > 0 && IsSquare(g, n) && BoardSizeToBlockSize(n) * BoardSizeToBlockSize(n) == n
  }

  predicate InBoard(p: Pos, n: int)
  {
    0 <= p.col < n && 0 <= p.row < n
  }

  /** The contents of a two-dimensional array. */
  function Contents<T>(a: array2<T>): (g: Grid<T>)
    reads a
    ensures |g| == a.Length0
    ensures forall c :: 0 <= c < a.Length0 ==> |g[c]| == a.Length1
    ensures forall c, r :: 0 <= c < a.Length0 && 0 <= r < a.Length1 ==> g[c][r] == a[c, r]
  {
    seq(a.Length0, c requires 0 <= c < a.Length0 reads a =>
      seq(a.Length1, r requires 0 <= r < a.Length1 reads a => a[c, r]))
  }

  /** Arrays with the same dimensions and entries have the same contents. */
  lemma ContentsEqual<T>(a: array2<T>, b: array2<T>)
    requires a.Length0 == b.Length0 && a.Length1 == b.Length1
    requires forall c, r :: 0 <= c < a.Length0 && 0 <= r < a.Length1 ==> a[c, r] == b[c, r]
    ensures Contents(a) == Contents(b)
  {
    assert forall c :: 0 <= c < a.Length0 ==> Contents(a)[c] == Contents(b)[c];
  }

  function GetBoardSize<T>(g: Grid<T>): int
  {
    |g|
  }

  /** Row `rowNumber`, column by column. */
  function GetRow<T>(g: Grid<T>, rowNumber: int): (s: seq<T>)
    requires IsSquare(g, |g|) && 0 <= rowNumber < |g|
    ensures |s| == |g|
    ensures forall k :: 0 <= k < |g| ==> s[k] == g[k][rowNumber]
  {
    seq(GetBoardSize(g), col requires 0 <= col < |g| => g[col][rowNumber])
  }

  /** Column `columnNumber`, row by row. */
  function GetColumn<T>(g: Grid<T>, columnNumber: int): (s: seq<T>)
    requires IsSquare(g, |g|) && 0 <= columnNumber < |g|
    ensures |s| == |g|
    ensures forall k :: 0 <= k < |g| ==> s[k] == g[columnNumber][k]
  {
    seq(GetBoardSize(g), row requires 0 <= row < |g| => g[columnNumber][row])
  }

  predicate SameBlock(p: Pos, q: Pos, blockSize: int)
    requires blockSize > 0
  {
    PosToBlockPos(p, blockSize) == PosToBlockPos(q, blockSize)
  }

  /** The board position of the k-th cell (row-major) of the block at `blockPos`. */
  function BlockCell(blockPos: Pos, k: int, blockSize: int): Pos
    requires blockSize > 0
  {
    PosInBlockToPos(IndexToPos(k, blockSize), blockPos, blockSize)
  }

  /** The k-th cell of a block lies on the board, in that block, at index k of the block. */
  lemma BlockCellFacts(pos: Pos, k: int, n: int)
    requires n > 0 && BoardSizeToBlockSize(n) * BoardSizeToBlockSize(n) == n
    requires InBoard(pos, n) && 0 <= k < n
    ensures var b := BoardSizeToBlockSize(n);
      var q := BlockCell(PosToBlockPos(pos, b), k, b);
      InBoard(q, n) && SameBlock(q, pos, b) && PosToIndexInBlock(q, b) == k
  {
    var b := BoardSizeToBlockSize(n);
    var bp := PosToBlockPos(pos, b);
    var inBlock := IndexToPos(k, b);
    assert 0 <= inBlock.col < b && 0 <= inBlock.row < b && inBlock.col + inBlock.row * b == k;
    var q := BlockCell(bp, k, b);
    assert q == Pos(inBlock.col + bp.col * b, inBlock.row + bp.row * b);
    DivBounds(pos.col, b);
    DivBounds(pos.row, b);
    assert 0 <= bp.col < b && 0 <= bp.row < b;
    BlockCoordBound(inBlock.col, bp.col, b);
    BlockCoordBound(inBlock.row, bp.row, b);
    DivModUnique(q.col, b, bp.col, inBlock.col);
    DivModUnique(q.row, b, bp.row, inBlock.row);
    assert PosToBlockPos(q, b) == bp;
    assert PosToPosInBlock(q, b) == inBlock;
  }

  lemma BlockCoordBound(inBlock: int, block: int, b: int)
    requires 0 <= inBlock < b && 0 <= block < b
    ensures 0 <= inBlock + block * b < b * b
  {
    MulMono(block, b - 1, b);
    assert (b - 1) * b == b * b - b;
  }

  /** Two cells of one block with the same index in the block are the same cell. */
  lemma BlockIndexInjective(p: Pos, q: Pos, b: int)
    requires b > 0 && 0 <= p.col && 0 <= p.row && 0 <= q.col && 0 <= q.row
    requires SameBlock(p, q, b) && PosToIndexInBlock(p, b) == PosToIndexInBlock(q, b)
    ensures p == q
  {
    var pp := PosToPosInBlock(p, b);
    var qq := PosToPosInBlock(q, b);
    BlockRoundTrip(p, b);
    BlockRoundTrip(q, b);
    PosIndexRoundTrip(pp, b);
    PosIndexRoundTrip(qq, b);
  }

  function CellAt<T>(g: Grid<T>, p: Pos): T
    requires IsSquare(g, |g|) && InBoard(p, |g|)
  {
    g[p.col][p.row]
  }

  /** The private overload: the cells of the block at `blockPos`, row-major within the block. */
  function GetBlockAt<T>(g: Grid<T>, blockPos: Pos, boardSize: int, blockSize: int): seq<T>
    requires blockSize > 0 && boardSize == |g| && IsSquare(g, boardSize)
    requires forall k :: 0 <= k < boardSize ==> InBoard(BlockCell(blockPos, k, blockSize), boardSize)
  {
    seq(boardSize, index requires 0 <= index < boardSize => CellAt(g, BlockCell(blockPos, index, blockSize)))
  }

  /** The block containing `pos`: its n cells, row-major within the block. */
  function GetBlock<T>(g: Grid<T>, pos: Pos): (s: seq<T>)
    requires IsBlockGrid(g) && InBoard(pos, |g|)
    ensures |s| == |g|
  {
    var n := GetBoardSize(g);
    var b := BoardSizeToBlockSize(n);
    var blockPos := PosToBlockPos(pos, b);
    assert forall k :: 0 <= k < n ==> InBoard(BlockCell(blockPos, k, b), n) by {
      forall k | 0 <= k < n
        ensures InBoard(BlockCell(blockPos, k, b), n)
      {
        BlockCellFacts(pos, k, n);
      }
    }
    GetBlockAt(g, blockPos, n, b)
  }

  /** Element k of the block of `pos` is a cell of that block, on the board. */
  lemma GetBlockElement<T>(g: Grid<T>, pos: Pos, k: int)
    requires IsBlockGrid(g) && InBoard(pos, |g|) && 0 <= k < |g|
    ensures var b := BoardSizeToBlockSize(|g|); var q := BlockCell(PosToBlockPos(pos, b), k, b);
      InBoard(q, |g|) && SameBlock(q, pos, b) && GetBlock(g, pos)[k] == g[q.col][q.row]
  {
    BlockCellFacts(pos, k, |g|);
  }

  /** Every cell of the block of `pos`, `pos` included, sits at its index in the block. */
  lemma GetBlockMember<T>(g: Grid<T>, pos: Pos, q: Pos)
    requires IsBlockGrid(g) && InBoard(pos, |g|) && InBoard(q, |g|)
    requires SameBlock(q, pos, BoardSizeToBlockSize(|g|))
    ensures var b := BoardSizeToBlockSize(|g|);
      0 <= PosToIndexInBlock(q, b) < |g| && GetBlock(g, pos)[PosToIndexInBlock(q, b)] == g[q.col][q.row]
  {
    var n := |g|;
    var b := BoardSizeToBlockSize(n);
    var k := PosToIndexInBlock(q, b);
    BlockCellFacts(pos, k, n);
    BlockIndexInjective(BlockCell(PosToBlockPos(pos, b), k, b), q, b);
  }

  /** A fresh array with the same dimensions and entries. */
  method CloneBoard<T>(board: array2<T>) returns (clone: array2<T>)
    ensures fresh(clone)
    ensures clone.Length0 == board.Length0 && clone.Length1 == board.Length1
    ensures Contents(clone) == Contents(board)
  {
    clone := new T[board.Length0, board.Length1]((c, r)
      requires 0 <= c < board.Length0 && 0 <= r < board.Length1 reads board => board[c, r]);
    ContentsEqual(clone, board);
  }

  /** The character shown for a cell: its symbol when resolved, `.` otherwise. */
  function CellChar(cell: string): char
  {
    if |cell| == 1 then cell[0] else '.'
  }

  /** What `ToBoardString` has appended after the first `i` cells (row-major). */
  function RenderPrefix(g: Grid<string>, i: int): string
    requires IsSquare(g, |g|) && 0 <= i <= |g| * |g|
    decreases i
  {
    var n := |g|;
    if i == 0 || n == 0 then ""
    else
      var p := IndexToPos(i - 1, n);
      RenderPrefix(g, i - 1) + [CellChar(g[p.col][p.row])] + (if i % n == 0 then "\n" else "")
  }

  function Render(g: Grid<string>): string
    requires IsSquare(g, |g|)
  {
    RenderPrefix(g, |g| * |g|)
  }

  /** The board as text: one line per row, each cell as `CellChar`. */
  method ToBoardString(board: array2<string>) returns (s: string)
    requires board.Length0 == board.Length1
    ensures s == Render(Contents(board))
  {
    var boardSize := board.Length0;
    ghost var g := Contents(board);
    s := "";
    for i := 0 to boardSize * boardSize
      invariant s == RenderPrefix(g, i)
    {
      var pos := IndexToPos(i, boardSize);
      var cell := board[pos.col, pos.row];
      s := s + [CellChar(cell)];
      if (i + 1) % boardSize == 0 {
        s := s + "\n";
      }
    }
  }

  lemma DivStep(i: int, n: int)
    requires i >= 1 && n > 0
    ensures i / n == (i - 1) / n + (if i % n == 0 then 1 else 0)
  {
    var q := (i - 1) / n;
    var r := (i - 1) % n;
    if r == n - 1 {
      DivModUnique(i, n, q + 1, 0);
    } else {
      DivModUnique(i, n, q, r + 1);
    }
  }

  lemma DivMono(i: int, j: int, n: int)
    requires 0 <= i <= j && n > 0
    ensures i / n <= j / n
  {
    if i / n > j / n {
      MulMono(j / n + 1, i / n, n);
    }
  }

  /** Where the character of cell j (row-major) lands in the text. */
  function Slot(j: nat, n: int): nat
    requires n > 0
  {
    if j == 0 then 0 else Slot(j - 1, n) + 1 + (if j % n == 0 then 1 else 0)
  }

  lemma {:induction false} SlotFormula(j: nat, n: int)
    requires n > 0
    ensures Slot(j, n) == j + j / n
  {
    if j > 0 {
      SlotFormula(j - 1, n);
      DivStep(j, n);
    }
  }

  lemma {:induction false} RenderPrefixLength(g: Grid<string>, i: int)
    requires IsSquare(g, |g|) && |g| > 0 && 0 <= i <= |g| * |g|
    ensures |RenderPrefix(g, i)| == Slot(i, |g|)
    decreases i
  {
    if i > 0 {
      RenderPrefixLength(g, i - 1);
    }
  }

  /** Later cells only append: the text after `j` cells is a prefix of the text after `i >= j`. */
  lemma {:induction false} RenderPrefixExtends(g: Grid<string>, j: int, i: int)
    requires IsSquare(g, |g|) && |g| > 0 && 0 <= j <= i <= |g| * |g|
    ensures RenderPrefix(g, j) <= RenderPrefix(g, i)
    decreases i
  {
    if j < i {
      RenderPrefixExtends(g, j, i - 1);
    }
  }

  /** Cell `j` (row-major) is shown at `Slot(j)`, followed by a newline when it ends a row. */
  lemma CellShownAtSlot(g: Grid<string>, j: int)
    requires IsSquare(g, |g|) && |g| > 0 && 0 <= j < |g| * |g|
    ensures var n := |g|; var s := Render(g); var p := IndexToPos(j, n);
      Slot(j, n) < |s| && s[Slot(j, n)] == CellChar(g[p.col][p.row]) &&
      ((j + 1) % n == 0 ==> Slot(j, n) + 1 < |s| && s[Slot(j, n) + 1] == '\n')
  {
    var n := |g|;
    RenderPrefixLength(g, j);
    RenderPrefixExtends(g, j + 1, n * n);
    var t := RenderPrefix(g, j + 1);
    var p := IndexToPos(j, n);
    assert t == RenderPrefix(g, j) + [CellChar(g[p.col][p.row])] + (if (j + 1) % n == 0 then "\n" else "");
    assert t[Slot(j, n)] == CellChar(g[p.col][p.row]);
  }

  /** `ToBoardString` text has n lines of n + 1 characters. */
  lemma RenderLength(g: Grid<string>)
    requires IsSquare(g, |g|) && |g| > 0
    ensures |Render(g)| == |g| * (|g| + 1)
  {
    var n := |g|;
    RenderPrefixLength(g, n * n);
    SlotFormula(n * n, n);
    DivModUnique(n * n, n, n, 0);
    MulSucc(n);
  }

  /** Line r of the text shows cell (c, r) in column c and ends with a newline. */
  lemma CellInText(g: Grid<string>, c: int, r: int)
    requires IsSquare(g, |g|) && 0 <= c < |g| && 0 <= r < |g|
    ensures var n := |g|; var s := Render(g);
      r * (n + 1) + n < |s| &&
      s[r * (n + 1) + c] == CellChar(g[c][r]) && s[r * (n + 1) + n] == '\n'
  {
    var n := |g|;
    CellSlot(g, c, r);
    CellShownAtSlot(g, c + r * n);
    CellSlot(g, n - 1, r);
    CellShownAtSlot(g, n - 1 + r * n);
  }

  lemma CellSlot(g: Grid<string>, c: int, r: int)
    requires IsSquare(g, |g|) && 0 <= c < |g| && 0 <= r < |g|
    ensures var n := |g|; var j := c + r * n;
      0 <= j < n * n && Slot(j, n) == r * (n + 1) + c && IndexToPos(j, n) == Pos(c, r) &&
      (c == n - 1 ==> (j + 1) % n == 0)
  {
    var n := |g|;
    var j := c + r * n;
    PosIndexRoundTrip(Pos(c, r), n);
    DivModUnique(j, n, r, c);
    SlotFormula(j, n);
    MulDistrib(r, n);
    if c == n - 1 {
      DivModUnique(j + 1, n, r + 1, 0);
    }
  }

  lemma {:induction false} RenderPrefixDot(g: Grid<string>, i: int)
    requires IsSquare(g, |g|) && 0 <= i <= |g| * |g|
    ensures '.' in RenderPrefix(g, i) <==>
      exists j :: 0 <= j < i && var p := IndexToPos(j, |g|); CellChar(g[p.col][p.row]) == '.'
    decreases i
  {
    if i > 0 && |g| > 0 {
      RenderPrefixDot(g, i - 1);
    }
  }

  /** A board is complete (its text has no `.`) iff every cell shows a character other than `.`. */
  lemma CompleteIffNoDotShown(g: Grid<string>)
    requires IsSquare(g, |g|)
    ensures '.' !in Render(g) <==> forall c, r :: 0 <= c < |g| && 0 <= r < |g| ==> CellChar(g[c][r]) != '.'
  {
    var n := |g|;
    RenderPrefixDot(g, n * n);
    if '.' in Render(g) {
      var j :| 0 <= j < n * n && var p := IndexToPos(j, n); CellChar(g[p.col][p.row]) == '.';
      var p := IndexToPos(j, n);
      assert 0 <= p.col < n && 0 <= p.row < n;
    } else {
      forall c, r | 0 <= c < n && 0 <= r < n
        ensures CellChar(g[c][r]) != '.'
      {
        PosIndexRoundTrip(Pos(c, r), n);
      }
    }
  }

  /** The symbols of single-symbol cells of a group. */
  function FixedSymbols(cellGroup: seq<string>): set<char>
  {
    set cell | cell in cellGroup && |cell| == 1 :: cell[0]
  }

  /**
   * The symbols of `domain`, in domain order and each once, that are the value
   * of some single-symbol cell of the group; longer and empty cells count for nothing.
   */
  function GetRestrictedDomain(cellGroup: seq<string>, domain: string): (r: string)
    ensures forall c :: c in r <==> c in domain && [c] in cellGroup
    ensures NoDup(r) && InOrderOf(r, domain)
  {
    var fixed := FixedSymbols(cellGroup);
    assert forall c :: c in fixed <==> [c] in cellGroup by {
      forall c
        ensures c in fixed <==> [c] in cellGroup
      {
        if c in fixed {
          var cell :| cell in cellGroup && |cell| == 1 && cell[0] == c;
          assert cell == [c];
        }
      }
    }
    SetFilterOrdered(domain, fixed, true);
    Intersect(domain, fixed)
  }
}
