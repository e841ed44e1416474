/**
 * A classic sudoku board (KillerSudoku/Board.cs): each cell holds the string
 * of symbols it may still take. The constructor reads the start string, one
 * character per cell in row-major order with `.` for an empty cell, and then
 * forward checks until nothing changes or the board is complete.
 */
module Boards {
  import opened Wrappers
  import opened Utils
  import opened ArrayExtensions
  import opened Propagation

  /** Why a board cannot be built; the C# constructor throws instead. */
  datatype BoardError = SizeOutOfRange | MalformedStart

  /** Sizes the constructors accept: 4 to 25 and a perfect square. */
  predicate ValidBoardSize(boardSize: int)
  {
    4 <= boardSize <= 25 && IsPerfectSquare(boardSize)
  }

  lemma ValidSizeTiles(boardSize: int)
    requires ValidBoardSize(boardSize)
    ensures BoardSizeToBlockSize(boardSize) * BoardSizeToBlockSize(boardSize) == boardSize
  {
  }

  /** The domain of a cell read from the start string. */
  function ParseCell(c: char, boardDomain: string): string
  {
    if c == '.' then boardDomain else [c]
  }

  function StartCell(boardSize: int, start: string, boardDomain: string, col: int, row: int): string
    requires boardSize > 0 && |start| == boardSize * boardSize
    requires 0 <= col < boardSize && 0 <= row < boardSize
  {
    PosIndexRoundTrip(Pos(col, row), boardSize);
    ParseCell(start[PosToIndex(Pos(col, row), boardSize)], boardDomain)
  }

  /** The board as read, before any forward checking. */
  function StartGrid(boardSize: int, start: string, boardDomain: string): (g: Grid<string>)
    requires boardSize > 0 && |start| == boardSize * boardSize
    ensures IsSquare(g, boardSize)
    ensures forall c, r :: 0 <= c < boardSize && 0 <= r < boardSize ==>
      g[c][r] == StartCell(boardSize, start, boardDomain, c, r)
  {
    seq(boardSize, c requires 0 <= c < boardSize =>
      seq(boardSize, r requires 0 <= r < boardSize => StartCell(boardSize, start, boardDomain, c, r)))
  }

  /**
   * Reading a start string and showing the board gives the string back, with
   * a newline after every row: character i of the start string, the `.` of an
   * empty cell included, is character `Slot(i)` (that is, i + i / boardSize)
   * of the text.
   */
  lemma StartGridShowsStart(boardSize: int, start: string, i: int)
    requires ValidBoardSize(boardSize) && |start| == boardSize * boardSize && 0 <= i < |start|
    ensures var text := Render(StartGrid(boardSize, start, GetDomainForSize(boardSize)));
      Slot(i, boardSize) < |text| && text[Slot(i, boardSize)] == start[i]
  {
    var domain := GetDomainForSize(boardSize);
    var g := StartGrid(boardSize, start, domain);
    var p := IndexToPos(i, boardSize);
    assert PosToIndex(p, boardSize) == i;
    assert g[p.col][p.row] == ParseCell(start[i], domain);
    assert CellChar(ParseCell(start[i], domain)) == start[i];
    CellShownAtSlot(g, i);
  }

  lemma StartGridDotFree(boardSize: int, start: string, domain: string)
    requires boardSize > 0 && |start| == boardSize * boardSize && '.' !in domain
    ensures DotFree(StartGrid(boardSize, start, domain))
  {
  }

  /** The loop of the `Board` constructor that fills the cells from the start string. */
  method ReadStart(boardSize: int, start: string, domain: string) returns (cells: array2<string>)
    requires boardSize > 0 && |start| == boardSize * boardSize
    ensures fresh(cells) && cells.Length0 == boardSize && cells.Length1 == boardSize
    ensures Contents(cells) == StartGrid(boardSize, start, domain)
  {
    cells := new string[boardSize, boardSize];
    for i := 0 to |start|
      invariant forall c, r :: 0 <= c < boardSize && 0 <= r < boardSize && PosToIndex(Pos(c, r), boardSize) < i ==>
        cells[c, r] == StartCell(boardSize, start, domain, c, r)
    {
      var c := start[i];
      var pos := IndexToPos(i, boardSize);
      var cell := if c == '.' then domain else [c];
      cells[pos.col, pos.row] := cell;
      forall c, r | 0 <= c < boardSize && 0 <= r < boardSize && PosToIndex(Pos(c, r), boardSize) < i + 1
        ensures PosToIndex(Pos(c, r), boardSize) == i ==> Pos(c, r) == pos
      {
        PosIndexRoundTrip(Pos(c, r), boardSize);
      }
    }
    ghost var g0 := StartGrid(boardSize, start, domain);
    forall c, r | 0 <= c < boardSize && 0 <= r < boardSize
      ensures cells[c, r] == g0[c][r]
    {
      PosIndexRoundTrip(Pos(c, r), boardSize);
    }
    assert forall c :: 0 <= c < boardSize ==> Contents(cells)[c] == g0[c];
  }

  class Board {
    const BoardDomain: string
    const boardSize: int
    const Cells: array2<string>

    /** The board read from `start`, forward checked until stable or complete. */
    constructor (boardSize: int, start: string)
      requires ValidBoardSize(boardSize) && |start| == boardSize * boardSize
      ensures this.boardSize == boardSize && BoardDomain == GetDomainForSize(boardSize)
      ensures fresh(Cells) && Cells.Length0 == boardSize && Cells.Length1 == boardSize
      ensures IsBlockGrid(Contents(Cells))
      ensures Shrinks(Contents(Cells), StartGrid(boardSize, start, BoardDomain))
      ensures KeepsSingletons(Contents(Cells), StartGrid(boardSize, start, BoardDomain))
      ensures IsComplete(Contents(Cells)) || AtFixpoint(Contents(Cells), BoardDomain, [])
      ensures Justified(Contents(Cells), StartGrid(boardSize, start, BoardDomain), BoardDomain, [])
      ensures DotFree(Contents(Cells))
    {
      var domain := GetDomainForSize(boardSize);
      DotNotSymbol();
      var cells := ReadStart(boardSize, start, domain);
      ValidSizeTiles(boardSize);
      ForwardCheckUntilStable(cells, domain, []);
      StartGridDotFree(boardSize, start, domain);
      ShrinksDotFree(Contents(cells), StartGrid(boardSize, start, domain));
      this.boardSize := boardSize;
      BoardDomain := domain;
      Cells := cells;
    }

    /** `ToString`: the board as text. */
    method ToString() returns (s: string)
      requires Cells.Length0 == Cells.Length1
      ensures s == Render(Contents(Cells))
    {
      s := ToBoardString(Cells);
    }
  }

  /** The constructor's checks, in the order it makes them, as a result instead of an exception. */
  method Create(boardSize: int, start: string) returns (r: Result<Board, BoardError>)
    ensures !ValidBoardSize(boardSize) ==> r == Failure(SizeOutOfRange)
    ensures ValidBoardSize(boardSize) && |start| != boardSize * boardSize ==> r == Failure(MalformedStart)
    ensures r.Success? <==> ValidBoardSize(boardSize) && |start| == boardSize * boardSize
    ensures r.Success? ==>
      var cells := r.value.Cells;
      var g0 := StartGrid(boardSize, start, r.value.BoardDomain);
      fresh(cells) && r.value.boardSize == boardSize && r.value.BoardDomain == GetDomainForSize(boardSize) &&
      cells.Length0 == boardSize && cells.Length1 == boardSize && IsBlockGrid(Contents(cells)) &&
      Shrinks(Contents(cells), g0) && KeepsSingletons(Contents(cells), g0) &&
      (IsComplete(Contents(cells)) || AtFixpoint(Contents(cells), r.value.BoardDomain, [])) &&
      Justified(Contents(cells), g0, r.value.BoardDomain, []) && DotFree(Contents(cells))
  {
    if !ValidBoardSize(boardSize) {
      return Failure(SizeOutOfRange);
    }
    if |start| != boardSize * boardSize {
      return Failure(MalformedStart);
    }
    var board := new Board(boardSize, start);
    return Success(board);
  }
}
