# Killer Sudoku solver, modelled in Dafny

This project models the constraint engine of a Sudoku and Killer-Sudoku
solver written in C#. A board of size N (4 to 25, a perfect square) is an
N×N grid of strings. Each string is a cell's *domain*: the symbols the cell
may still take, drawn from the alphabet `123456789ABCDEFGHIJKLMNOP`. A cell
holding one symbol is *resolved*.

- A classic board is read from a start string. A killer board is laid out
  from its cages: lists of cells with a target sum, where a symbol's value is
  its alphabet position plus one.
- Both boards are forward checked until nothing changes. Forward checking
  removes from every unresolved cell each symbol that a resolved cell in the
  same column, row, block or (killer only) cage already holds.
- The solver then runs a backtracking search on a copy of the board:
  - it picks an unresolved cell (the first one, or one with fewest symbols);
  - it guesses that cell's symbols in order;
  - it propagates each guess through a priority queue of neighbours;
  - it can optionally recompute cage domains from the sums;
  - it recurses while the board stays valid, and keeps a stack of board
    snapshots to undo failed guesses.

The modules follow the C# files:

| module | file | form |
|---|---|---|
| `Seqs` | LINQ `Distinct`/`Intersect`/`Except`/`Union`/`Where` | pure functions |
| `Utils` | `Utils.cs` | pure functions and lemmas |
| `ArrayExtensions` | `ArrayExtensions.cs` | projections as functions; `CloneBoard` and `ToBoardString` as methods on `array2` |
| `Propagation` | the `ConstrainCell`/`DoForwardChecking`/fixpoint code shared by `Board.cs`, `KillerBoard.cs` and `Solver.cs` | methods that update an `array2<string>` in place |
| `Boards` | `Board.cs` | class `Board` |
| `KillerBoards` | `KillerBoard.cs` | class `KillerBoard` and the cage-domain loops as methods |
| `Solving` | `Solver.cs` | class `Solver`, with the fields of the C# class |

More on the representation:
- A grid value is `seq<seq<string>>`, indexed `[col][row]` like `string[,]`. `Contents(a)` reads an `array2<string>` into that form.
- `Board` and `Solver` call the shared `ConstrainCell` with an empty cage list. `KillerBoard` passes its own cages, so it also excludes the symbols fixed in the cell's cage. The solver's own `ConstrainCell` therefore never looks at cages, as in the C# code.
- The C# `null` cell is modelled as the empty string.
- The PriorityQueue's dequeue is modelled as a choice of *some* entry of minimum priority.
- Termination of the fixpoint loops and of the search uses the total number of symbols on the board. Every change and every guess lowers it.

## Model

| member | source | states |
|---|---|---|
| Utils.IndexToPos | KillerSudoku/Utils.cs:48-53 | an index in [0, size²) gives a position with both coordinates in [0, size) and index = col + row·size |
| Utils.PosIndexRoundTrip | KillerSudoku/Utils.cs:49-61 | for an on-board position, `PosToIndex` lies in [0, size²) and `IndexToPos` gives the position back |
| Utils.PosToIndexInBlock | KillerSudoku/Utils.cs:12-15 | for non-negative coordinates the index inside the block lies in [0, b²) |
| Utils.BlockRoundTrip | KillerSudoku/Utils.cs:6-21 | recombining a non-negative position from its block position and its position in the block gives the position back; the in-block coordinates lie in [0, b) |
| Utils.BoardSizeToBlockSize | KillerSudoku/Utils.cs:28-30 | the block size is the integer square root: b² ≤ size < (b+1)² |
| Utils.IsPerfectSquare | KillerSudoku/Utils.cs:23-26 | true exactly when the size is k² for some k |
| Utils.GetDomainForSize | KillerSudoku/Utils.cs:32-34 | the domain has `size` symbols, the k-th being the k-th alphabet symbol |
| Utils.AlphabetDistinct | KillerSudoku/Utils.cs:4 | the 25 alphabet symbols are pairwise distinct |
| Utils.DotNotSymbol | KillerSudoku/Utils.cs:4 | `.`, the display character of an unresolved cell, is not an alphabet symbol |
| Utils.GetValueForDomainChar | KillerSudoku/Utils.cs:67-69 | a value lies in [0, 25] and is 0 exactly for a character outside the alphabet |
| Utils.SymbolValue | KillerSudoku/Utils.cs:67-69 | the alphabet symbol at index k has value k + 1 |
| Utils.SumConcat | KillerSudoku/Utils.cs:63-65 | the value sum of a concatenation is the sum of the parts' value sums |
| Utils.SumOfFirstSymbols | KillerSudoku/Utils.cs:63-69 | the first m alphabet symbols sum to m(m+1)/2 |
| Utils.Singletons | KillerSudoku/Utils.cs:40 | exactly the one-character strings of the domain's symbols |
| Utils.ExtendMember | KillerSudoku/Utils.cs:43 | a join whose two key selectors are constant `true` yields exactly each earlier string followed by each symbol of the next domain |
| Utils.CrossProductMember | KillerSudoku/Utils.cs:38-44 | a string is in the joined product exactly when it has one character per domain and its i-th character is in the i-th domain |
| Utils.WithSum | KillerSudoku/Utils.cs:45 | keeps exactly the strings whose value sum is the target |
| Utils.JoinDomainsWithSum | KillerSudoku/Utils.cs:37-46 | for at least one domain, yields exactly the per-position combinations whose value sum is the target, repeats allowed |
| Seqs.SetFilter | KillerSudoku/ArrayExtensions.cs:53 | `Intersect`/`Except`: keeps exactly the elements in (or not in) the set, without duplicates, in first-occurrence order |
| Seqs.Union | KillerSudoku/Solver.cs:133 | holds exactly the elements of either argument, once each |
| ArrayExtensions.GetRow | KillerSudoku/ArrayExtensions.cs:9-12 | n items; item k is the cell (k, row) |
| ArrayExtensions.GetColumn | KillerSudoku/ArrayExtensions.cs:14-17 | n items; item k is the cell (column, k) |
| ArrayExtensions.GetBlock | KillerSudoku/ArrayExtensions.cs:19-24 | the block of a cell has n items |
| ArrayExtensions.GetBlockElement | KillerSudoku/ArrayExtensions.cs:30-35 | item k of the block is the on-board cell at in-block index k of the cell's block |
| ArrayExtensions.GetBlockMember | KillerSudoku/ArrayExtensions.cs:30-35 | every cell of the block, the cell itself included, appears at its in-block index (row-major in the block) |
| ArrayExtensions.CloneBoard | KillerSudoku/ArrayExtensions.cs:26-28 | a fresh array with the same dimensions and entries, so later writes to it leave the original alone |
| ArrayExtensions.ToBoardString | KillerSudoku/ArrayExtensions.cs:37-49 | the loop builds the row-major text `Render` of the board |
| ArrayExtensions.RenderLength | KillerSudoku/ArrayExtensions.cs:40-46 | the text has n lines of n characters plus a newline |
| ArrayExtensions.CellInText | KillerSudoku/ArrayExtensions.cs:41-45 | line r shows cell (c, r) in column c (its symbol when resolved, `.` otherwise) and ends with a newline |
| ArrayExtensions.CellShownAtSlot | KillerSudoku/ArrayExtensions.cs:40-46 | the j-th row-major cell is shown at offset j + j / n, followed by a newline when it ends a row |
| ArrayExtensions.CompleteIffNoDotShown | KillerSudoku/ArrayExtensions.cs:43 | the text holds no `.` exactly when every cell shows a character other than `.` |
| ArrayExtensions.GetRestrictedDomain | KillerSudoku/ArrayExtensions.cs:51-55 | exactly the domain symbols that are the whole of some one-symbol cell in the group, in domain order and without repeats; cells of length 0 or more than 1 add nothing |
| Propagation.FirstCageIndex | KillerSudoku/KillerBoard.cs:100-102 | the first cage that lists the cell, or -1 when none does |
| Propagation.CageMates | KillerSudoku/KillerBoard.cs:100-102 | the other cells of the first cage holding the cell, the cell itself excluded |
| Propagation.Restrictions | KillerSudoku/KillerBoard.cs:84-89 | the union of the four restricted domains holds exactly the board symbols to which some column, row, block or cage peer is resolved |
| Propagation.PeerGroups | KillerSudoku/KillerBoard.cs:84-87 | a peer resolved to a symbol exists exactly when that symbol is a one-symbol cell of the column, the row, the block or the cage mates |
| Propagation.ConstrainedDomain | KillerSudoku/KillerBoard.cs:80-90 | a resolved cell keeps its domain; otherwise a symbol stays exactly when no peer is resolved to it; the result is a sub-domain of the old one in its order |
| Propagation.ConstrainCell | KillerSudoku/Board.cs:48-65 | the cell gets its constrained domain, no other cell changes, and the result is true exactly when the board changed |
| Propagation.ConstrainStep | KillerSudoku/Board.cs:48-65 | one `ConstrainCell` only shrinks domains and never changes a resolved cell |
| Propagation.ConstrainStepSize | KillerSudoku/Board.cs:59-64 | a `ConstrainCell` that changes the board lowers its total number of symbols |
| Propagation.FixedPeerKept | KillerSudoku/Board.cs:48-50 | a peer resolved to a symbol stays resolved to it on any board that keeps resolved cells |
| Propagation.JustifiedStep | KillerSudoku/Board.cs:48-65 | every symbol one `ConstrainCell` removes is a board symbol that a peer (or cage mate) is resolved to |
| Propagation.JustifiedTrans | KillerSudoku/Board.cs:26-29 | justified removals compose across steps that keep resolved cells |
| Propagation.ConstrainStepFrom | KillerSudoku/Board.cs:36 | one more `ConstrainCell` keeps the board shrunk from the start, its resolved cells kept and its removals justified, and never raises the total number of symbols |
| Propagation.DoForwardChecking | KillerSudoku/Board.cs:32-42 | the board only shrinks and keeps its resolved cells; true exactly when something changed; when false every cell is at its constrained domain; every symbol removed from a cell is a board symbol that some peer is resolved to |
| Propagation.ForwardCheckUntilStable | KillerSudoku/Board.cs:26-29 | the loop ends with a complete board or at a fixpoint of `ConstrainCell`, having only shrunk the board and kept its resolved cells; every symbol removed from a cell is a board symbol that some peer is resolved to |
| Propagation.FixpointExcludesPeers | KillerSudoku/KillerBoard.cs:25-28 | at a fixpoint no unresolved cell still holds a symbol to which one of its peers is resolved |
| Propagation.TotalSizeShrinks | KillerSudoku/Board.cs:26-29 | shrinking domains never raises the total number of symbols, and shortening a cell lowers it |
| Propagation.WriteCells | KillerSudoku/Solver.cs:209-213 | the loop leaves the board as the writes applied in order |
| Propagation.WriteAllSame | KillerSudoku/KillerBoard.cs:20-23 | writing one domain to the cells of a cage gives each of them that domain and leaves other cells alone |
| Boards.StartGrid | KillerSudoku/Board.cs:18-24 | cell (c, r) comes from character c + r·n of the start string: `.` gives the board domain, any other character that single character |
| Boards.StartGridShowsStart | KillerSudoku/Board.cs:18-24 | showing the board as read gives the start string back, one line per row |
| Boards.ReadStart | KillerSudoku/Board.cs:16-24 | the parsing loop fills a fresh N×N array with the start grid |
| Boards.Board.constructor | KillerSudoku/Board.cs:10-30 | the cells are the start grid forward checked: only shrunk, resolved cells kept, ending complete or at a fixpoint, with no `.` in a domain; every symbol removed from the start grid is a board symbol that a row, column or block peer is resolved to |
| Boards.Board.ToString | KillerSudoku/Board.cs:44-46 | the text of the cells |
| Boards.Create | KillerSudoku/Board.cs:10-30 | a size outside 4..25 or not a square fails before anything else, then a start string of the wrong length; success exactly when neither applies, and then the board has the constructor's guarantees (start grid only shrunk, resolved cells kept, complete or at a fixpoint, only removals a resolved peer justifies, no `.` in a domain) |
| KillerBoards.MaxIndexFor | KillerSudoku/KillerBoard.cs:42-51 | the largest v ≤ N with (1 + … + (k−1)) + v ≤ sum |
| KillerBoards.MinIndexFor | KillerSudoku/KillerBoard.cs:53-62 | u − 1 for the smallest u ≥ 1 with (the k−1 largest values) + u ≥ sum |
| KillerBoards.CageMaxDomainIndex | KillerSudoku/KillerBoard.cs:42-51 | the do-while loop returns `MaxIndexFor` |
| KillerBoards.CageMinDomainIndex | KillerSudoku/KillerBoard.cs:53-62 | the do-while loop returns `MinIndexFor` |
| KillerBoards.CageDomain | KillerSudoku/KillerBoard.cs:36-40 | when defined, the slice of the board domain from the min to the max index |
| KillerBoards.MinimizeDomainForCage | KillerSudoku/KillerBoard.cs:36-40 | the two loops and the slice give `CageDomain`, failing where the C# slice would throw |
| KillerBoards.CageDomainMeaning | KillerSudoku/KillerBoard.cs:36-62 | a symbol is in the cage domain exactly when it is on the board and its value v satisfies (1+…+(k−1)) + v ≤ sum ≤ (the k−1 largest values) + v |
| KillerBoards.TwoCellCageOfThree | KillerSudoku/KillerBoard.cs:31-40 | a 2-cell cage with sum 3 on a 9×9 board gets the domain "12" |
| KillerBoards.CageDomainSound | KillerSudoku/KillerBoard.cs:31-62 | every value of any distinct-valued filling of a cage that reaches the sum lies in the cage domain, so the start domains lose no such filling |
| KillerBoards.DistinctSumLower | KillerSudoku/KillerBoard.cs:45 | k distinct positive values sum to at least 1 + … + k |
| KillerBoards.DistinctSumUpper | KillerSudoku/KillerBoard.cs:56 | k distinct values in 1..N sum to at most the k largest |
| KillerBoards.KillerStartCell | KillerSudoku/KillerBoard.cs:20-23 | after laying out the cages, a cell holds the domain of the last cage that lists it, and a cell in no cage keeps its value |
| KillerBoards.WriteCageDomains | KillerSudoku/KillerBoard.cs:20-23 | the layout loop fills a fresh array with the cage layout |
| KillerBoards.KillerBoard.constructor | KillerSudoku/KillerBoard.cs:11-29 | the cells are the cage layout forward checked with cages: only shrunk, resolved cells kept, ending complete or at a fixpoint; every removed symbol is a board symbol that a peer or cage mate is resolved to |
| KillerBoards.KillerBoard.ToString | KillerSudoku/KillerBoard.cs:76-78 | the text of the cells |
| KillerBoards.FirstBadCage | KillerSudoku/KillerBoard.cs:20 | the first cage whose domain cannot be computed or whose cells leave the board |
| KillerBoards.Create | KillerSudoku/KillerBoard.cs:11-29 | a bad size fails first, then the first bad cage, then an uncovered cell; success exactly when none applies, and then the board has the constructor's guarantees (cage layout only shrunk, resolved cells kept, complete or at a fixpoint, only removals a resolved peer or cage mate justifies, every cage non-empty and on the board) |
| Solving.ResolvedSymbolsCount | KillerSudoku/Solver.cs:53-55 | the resolved cells of a cage are as many as its cells exactly when all are resolved |
| Solving.CompleteCageValid | KillerSudoku/Solver.cs:52-57 | a fully resolved cage is valid exactly when its symbols, read as a string, are one of the sum-matching combinations of its domains |
| Solving.CompleteResolved | KillerSudoku/Solver.cs:38-40 | a complete board has every cell resolved |
| Solving.ResolvedCageAddsUp | KillerSudoku/Solver.cs:52-57 | a valid, fully resolved cage's values add up to its sum |
| Solving.SolvedBoard | KillerSudoku/Solver.cs:38-46 | a complete, valid board has every cell resolved and every cage adding up to its sum |
| Solving.InvalidStaysInvalid | KillerSudoku/Solver.cs:42-57 | shrinking an invalid board (resolved cells kept) never makes it valid, which is why the search may stop at an invalid board |
| Solving.CageStaysInvalid | KillerSudoku/Solver.cs:52-57 | shrinking an invalid cage's cells keeps the cage invalid |
| Solving.FirstVariableFrom | KillerSudoku/Solver.cs:101-107 | the first row-major cell with more than one symbol, if any |
| Solving.MinVariableFrom | KillerSudoku/Solver.cs:109-120 | a cell with more than one symbol and fewest symbols, the earliest on ties |
| Solving.GetMostConstrainedVariable | KillerSudoku/Solver.cs:97-108 | a chosen cell is on the board and has more than one symbol |
| Solving.VariableChoice | KillerSudoku/Solver.cs:97-120 | without the heuristic no earlier cell is unresolved; with it no cell has fewer symbols and no earlier one as few; none only when no cell is unresolved |
| Solving.VariableExists | KillerSudoku/Solver.cs:63-64 | a valid incomplete board has a cell to guess, so the throw is unreachable |
| Solving.ColumnNeighbours | KillerSudoku/Solver.cs:137-141 | exactly the other cells of the column |
| Solving.RowNeighbours | KillerSudoku/Solver.cs:143-147 | exactly the other cells of the row |
| Solving.BlockNeighboursMember | KillerSudoku/Solver.cs:149-157 | exactly the other on-board cells of the block |
| Solving.CageNeighbours | KillerSudoku/Solver.cs:159-163 | none without cages, otherwise the other cells of the first cage holding the cell |
| Solving.GetCellNeighbourPositions | KillerSudoku/Solver.cs:128-135 | exactly the on-board cells other than the cell that share its column, row, block or cage, each once |
| Solving.VariableCells | KillerSudoku/Solver.cs:124-125 | exactly the given cells with more than one symbol, paired with their size |
| Solving.GetCellVariableNeighbours | KillerSudoku/Solver.cs:122-126 | exactly the unresolved peers of the cell, each with its domain size |
| Solving.RecalculateDomainsForCage | KillerSudoku/Solver.cs:217-225 | one new domain per cage cell |
| Solving.RecalculatedMember | KillerSudoku/Solver.cs:217-225 | a symbol is in new domain i exactly when it is an alphabet symbol and some sum-matching combination of the old domains has it at position i |
| Solving.RecalculatedShrunk | KillerSudoku/Solver.cs:217-225 | each new domain is a sub-domain of the old one at that position, without repeats and in alphabet order |
| Solving.ApplyCage | KillerSudoku/Solver.cs:203-213 | recalculating one cage only shrinks the board |
| Solving.ApplyCages | KillerSudoku/Solver.cs:202-215 | recalculating the cages one after another only shrinks the board |
| Solving.Solver.RecalculateDomainsForCages | KillerSudoku/Solver.cs:202-215 | the loop leaves the board as the cages recalculated in order, each reading the board the earlier ones left |
| Solving.SmallStable | KillerSudoku/Solver.cs:185 | a cell with at most one symbol is left as it is by `ConstrainCell` |
| Solving.ConstrainIdempotent | KillerSudoku/Solver.cs:183-200 | constraining a cell twice changes nothing the second time |
| Solving.StableAfterOtherChange | KillerSudoku/Solver.cs:172-178 | a cell stays stable when a cell that is not its peer changes, so only the changed cell's neighbours need queuing |
| Solving.MinimumExists | KillerSudoku/Solver.cs:169 | a non-empty queue has an entry of minimum priority |
| Solving.EnqueueNew | KillerSudoku/Solver.cs:175-179 | the queue afterwards holds exactly the old entries and the new neighbours, old entries kept in place; an entry already queued is not added again, so a queue without repeats keeps none |
| Solving.DequeueSettled | KillerSudoku/Solver.cs:169 | taking an entry out of the queue unsettles at most that entry's cell |
| Solving.ConstrainSettled | KillerSudoku/Solver.cs:170-179 | after constraining the cell and queuing its changed neighbours, every dequeued cell is again queued or stable |
| Solving.PropagationStep | KillerSudoku/Solver.cs:168-180 | one turn of the loop keeps the propagation invariant and lowers the total size whenever the board changes |
| Solving.Solver.PropagateToCells | KillerSudoku/Solver.cs:165-181 | the board only shrinks and keeps resolved cells; every queued and every changed cell is dequeued and stable at the end; every symbol removed from a cell is a board symbol that some peer is resolved to |
| Solving.GuessShrinks | KillerSudoku/Solver.cs:69-70 | writing one of the cell's symbols shrinks the board and strictly shrinks that cell |
| Solving.Solver.FromBoard | KillerSudoku/Solver.cs:13-17 | the solver takes the board's cells and domain, with no cages, both switches off and no guesses; a board as the `Board` constructor leaves it makes the solver searchable (`Valid`) |
| Solving.Solver.FromKiller | KillerSudoku/Solver.cs:19-23 | the solver takes the board's cells, domain and cages, both switches off and no guesses; a board as the `KillerBoard` constructor leaves it makes the solver searchable (`Valid`) |
| Solving.Solver.SetOptions | KillerSudoku/Solver.cs:33-36 | both switches are copied from the options |
| Solving.Solver.Solve | KillerSudoku/Solver.cs:25-31 | given options are set and missing ones keep the old switches; the given board is untouched; a result is a fresh, complete, valid board whose cells shrank from the given ones, resolved cells kept; no result leaves the guess stack empty |
| Solving.Solver.SolveFrom | KillerSudoku/Solver.cs:59-64 | no result and the board untouched for an invalid board; the board itself, untouched, when it is valid and complete; any result is complete, valid and shrunk from the input; no result leaves the guess stack as on entry |
| Solving.Solver.GuessCell | KillerSudoku/Solver.cs:65-94 | the guessing loop returns a complete, valid board shrunk from the input, or nothing with the guess stack as on entry |
| Solving.Solver.TryCandidate | KillerSudoku/Solver.cs:67-92 | one guess: on success a complete valid result; on failure the stack is as before and the next board is a fresh copy equal to the board before the guess |
| Solving.GuessPropagated | KillerSudoku/Solver.cs:69-73 | given `PropagateToCells`' guarantees after a guess, the board is shrunk from before the guess and searchable, the guessed cell holds the guess or nothing, and every queued peer and changed cell is stable |
| Solving.Solver.GuessAndPropagate | KillerSudoku/Solver.cs:69-73 | writing the guess and propagating it shrinks the board and keeps it searchable; the guessed cell holds the guessed symbol or nothing; every unresolved peer queued for the guess and every changed cell ends stable under `ConstrainCell`; every symbol removed after the guess is one a peer is resolved to |
| Solving.Solver.TryGuess | KillerSudoku/Solver.cs:69-76 | guessing, propagating and (optionally) recalculating shrink the board and keep it searchable; the guessed cell holds the guessed symbol or nothing; without recalculation, every unresolved peer queued for the guess and every cell that changed ends stable under `ConstrainCell`, and every symbol removed after the guess is one a peer is resolved to |

## Left out

- `Program.cs` is not part of this model. It holds hard-coded puzzles, timing and console output.
- `SolverOptions.cs` is kept only as the two-field datatype `SolverOptions`. Its two factory methods are not modelled.
- Utils.BoardSizeToBlockSize: `Math.Sqrt` in floating point is replaced by an exact integer square root. The two agree on 4..25.
- ArrayExtensions.ToBoardString: `AppendLine` writes `Environment.NewLine`; the model writes `\n`.
- Solving.Solver.PropagateToCells: the .NET priority queue's tie order is not modelled. Dequeue picks some entry of minimum size. The check that an entry is already queued with the same size is kept.
- Solving.RecalculateDomainsForCage: `OrderBy(s => s)` is modelled as alphabet order. Symbols outside the alphabet are dropped, and they never occur on a killer board.
- Propagation.CageMates: for a cell in no cage the C# code dereferences a null cage. The model returns no cage mates instead; the killer constructor requires every cell to be covered, so this never happens there.
- Solving.Solver.Solve: it does not state that no result means the puzzle has no solution (completeness of the search). It requires `Valid()`, which the `Board` and `KillerBoard` constructors' guarantees supply.
- Solving.Solver.GuessCell: no contract states that the candidates are tried in domain order. Only the loop over `domain[1..]` shows it.
- Solving.Solver.SolveFrom: the C# check `domain.Length <= 1` and its exception are replaced by the lemma `VariableExists`, which shows they cannot happen.
- Boards.Create and KillerBoards.Create: constructor exceptions (and the crashes a malformed start string or an uncovered cell would cause) become `Failure` values. Exception types and messages are not modelled.
- Boards.Board.constructor: the result is pinned down only as a complete board or a fixpoint of `ConstrainCell` reached from the start grid by justified removals, not as the exact grid that the row-major order of `DoForwardChecking` yields. The same holds for `Boards.Create`.
- KillerBoards.KillerBoard.constructor: as for `Board`, the result is pinned down only as a complete board or a fixpoint reached by justified removals, not as the exact grid of the C# pass order. The same holds for `KillerBoards.Create`.
- Solving.Solver.TryGuess: justified removals are stated only without cage recalculation. `RecalculateDomainsForCage` removes symbols for cage-sum reasons, which `Justified` does not describe.
- KillerBoards.KillerBoard.constructor: empty cages, cages off the board and cages whose slice would throw are excluded by its precondition. `Create` reports them.
- LINQ laziness, and the difference between `IEnumerable` and arrays, are not modelled; sequences are built eagerly.
- No contract claims that a solved grid is a correct Sudoku (distinct symbols per row, column or block), or that a solution is unique. `IsValid` checks neither.
