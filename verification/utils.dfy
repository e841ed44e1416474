/**
 * Indexing and alphabet helpers (KillerSudoku/Utils.cs): linear index and
 * (col, row) conversions, block coordinates, board-size checks, symbol values
 * and the cage-combination generator.
 */
module Utils {
  import opened Seqs

  /** The 25 symbols a board can use, in order; a board of size N uses the first N. */
  const PotentialDomain: string := "123456789ABCDEFGHIJKLMNOP"

  /** A cell coordinate, column first as in the C# code's `(col, row)` tuples. */
  datatype Pos = Pos(col: int, row: int)

  /** C#'s integer `/`, which truncates toward zero. */
  function Quot(a: int, b: int): int
    requires b > 0
  {
    if a >= 0 then a / b else -((-a) / b)
  }

  /** C#'s integer `%`, whose result has the sign of the dividend. */
  function Rem(a: int, b: int): int
    requires b > 0
  {
    a - Quot(a, b) * b
  }

  function PosToIndex(pos: Pos, size: int): int
  {
    pos.col + pos.row * size
  }

  /** The inverse of `PosToIndex` on a size x size grid (the same for boards and blocks). */
  function IndexToPos(index: int, size: int): (p: Pos)
    requires size > 0
    ensures 0 <= index < size * size ==>
      0 <= p.col < size && 0 <= p.row < size && PosToIndex(p, size) == index
  {
    var p := Pos(Rem(index, size), Quot(index, size));
    if 0 <= index < size * size then
      DivBounds(index, size);
      p
    else p
  }

  lemma DivBounds(index: int, size: int)
    requires 0 <= index < size * size && size > 0
    ensures 0 <= index % size < size && 0 <= index / size < size
    ensures index == index % size + index / size * size
  {
    var q := index / size;
    if q >= size {
      MulMono(size, q, size);
    }
  }

  /** Going to a linear index and back gives the position back. */
  lemma PosIndexRoundTrip(pos: Pos, size: int)
    requires 0 <= pos.col < size && 0 <= pos.row < size
    ensures 0 <= PosToIndex(pos, size) < size * size
    ensures IndexToPos(PosToIndex(pos, size), size) == pos
  {
    var i := PosToIndex(pos, size);
    MulMono(pos.row, size - 1, size);
    DivModUnique(i, size, pos.row, pos.col);
  }

  lemma MulSucc(n: int)
    ensures n * n + n == n * (n + 1)
  {
  }

  lemma MulDistrib(a: int, b: int)
    ensures a * (b + 1) == a * b + a && (a + 1) * b == a * b + b
  {
  }

  lemma MulPred(n: int)
    ensures (n - 1) * n + n == n * n
  {
  }

  lemma MulMono(a: int, b: int, c: int)
    requires 0 <= a <= b && 0 <= c
    ensures a * c <= b * c
  {
  }

  lemma DivModUnique(i: int, size: int, q: int, r: int)
    requires 0 <= r < size && 0 <= q && i == r + q * size
    ensures i / size == q && i % size == r
  {
    var q' := i / size;
    var r' := i % size;
    assert i == r' + q' * size;
    if q' < q {
      MulMono(q' + 1, q, size);
    } else if q' > q {
      MulMono(q + 1, q', size);
    }
  }

  function PosToBlockPos(pos: Pos, blockSize: int): Pos
    requires blockSize > 0
  {
    Pos(Quot(pos.col, blockSize), Quot(pos.row, blockSize))
  }

  function PosToPosInBlock(pos: Pos, blockSize: int): Pos
    requires blockSize > 0
  {
    Pos(Rem(pos.col, blockSize), Rem(pos.row, blockSize))
  }

  /** Linear index of a cell inside its block; in range for cells of the board. */
  function PosToIndexInBlock(pos: Pos, blockSize: int): (i: int)
    requires blockSize > 0
    ensures 0 <= pos.col && 0 <= pos.row ==> 0 <= i < blockSize * blockSize
  {
    var inBlock := PosToPosInBlock(pos, blockSize);
    if 0 <= pos.col && 0 <= pos.row then
      PosIndexRoundTrip(inBlock, blockSize);
      PosToIndex(inBlock, blockSize)
    else PosToIndex(inBlock, blockSize)
  }

  function PosInBlockToPos(posInBlock: Pos, blockPos: Pos, blockSize: int): Pos
  {
    Pos(posInBlock.col + blockPos.col * blockSize, posInBlock.row + blockPos.row * blockSize)
  }

  /** A board position is recovered from its block and its place in the block. */
  lemma BlockRoundTrip(pos: Pos, blockSize: int)
    requires blockSize > 0 && 0 <= pos.col && 0 <= pos.row
    ensures PosInBlockToPos(PosToPosInBlock(pos, blockSize), PosToBlockPos(pos, blockSize), blockSize) == pos
    ensures 0 <= PosToPosInBlock(pos, blockSize).col < blockSize
    ensures 0 <= PosToPosInBlock(pos, blockSize).row < blockSize
  {
  }

  /**
   * Integer square root; stands for `(int) Math.Sqrt(size)`, which is exact on
   * the sizes the boards accept.
   */
  function BoardSizeToBlockSize(size: nat): (b: nat)
    ensures b * b <= size < (b + 1) * (b + 1)
  {
    if size == 0 then 0
    else
      var r := BoardSizeToBlockSize(size - 1);
      if (r + 1) * (r + 1) <= size then r + 1 else r
  }

  function Square(k: nat): nat
  {
    k * k
  }

  function IsPerfectSquare(boardSize: nat): (b: bool)
    ensures b <==> exists k: nat :: Square(k) == boardSize
  {
    var r := BoardSizeToBlockSize(boardSize);
    if r * r == boardSize then
      assert Square(r) == boardSize;
      true
    else
      assert forall k: nat :: Square(k) != boardSize by {
        forall k: nat
          ensures Square(k) != boardSize
        {
          if k <= r - 1 {
            MulMono(k, r - 1, k);
            MulMono(k, r - 1, r - 1);
          } else if k >= r + 1 {
            MulMono(r + 1, k, r + 1);
            MulMono(r + 1, k, k);
          }
        }
      }
      false
  }

  /** The 25 symbols are pairwise different. */
  lemma AlphabetDistinct()
    ensures forall i, j :: 0 <= i < j < |PotentialDomain| ==> PotentialDomain[i] != PotentialDomain[j]
  {
    assert forall i :: 0 <= i < |PotentialDomain| - 1 ==> PotentialDomain[i] < PotentialDomain[i + 1];
    forall i, j | 0 <= i < j < |PotentialDomain|
      ensures PotentialDomain[i] < PotentialDomain[j]
    {
      var k := i;
      while k < j
        invariant i <= k <= j
        invariant PotentialDomain[i] <= PotentialDomain[k]
        invariant k > i ==> PotentialDomain[i] < PotentialDomain[k]
      {
        k := k + 1;
      }
    }
  }

  /** `.`, which marks an unresolved cell in the board text, is not a symbol. */
  lemma DotNotSymbol()
    ensures '.' !in PotentialDomain
  {
    assert forall i :: 0 <= i < |PotentialDomain| ==> '1' <= PotentialDomain[i];
  }

  /** The value of a symbol: its alphabet position plus one, and 0 for other characters. */
  function GetValueForDomainChar(domainChar: char): (v: int)
    ensures 0 <= v <= |PotentialDomain|
    ensures v == 0 <==> domainChar !in PotentialDomain
  {
    FirstIndex(PotentialDomain, domainChar) + 1
  }

  /** The alphabet symbol at index k has value k + 1. */
  lemma SymbolValue(k: int)
    requires 0 <= k < |PotentialDomain|
    ensures GetValueForDomainChar(PotentialDomain[k]) == k + 1
  {
    AlphabetDistinct();
  }

  /** The symbols of a board of the given size: the first `size` symbols of the alphabet. */
  function GetDomainForSize(size: int): (d: string)
    requires 0 <= size <= |PotentialDomain|
    ensures |d| == size
    ensures forall k :: 0 <= k < size ==> d[k] == PotentialDomain[k]
  {
    PotentialDomain[..size]
  }

  /** Sum of the values of the characters of `domain`. */
  function GetSumForDomain(domain: string): int
  {
    if domain == [] then 0
    else GetSumForDomain(domain[..|domain| - 1]) + GetValueForDomainChar(domain[|domain| - 1])
  }

  /** The sum does not depend on where the string is split. */
  lemma {:induction false} SumConcat(s: string, t: string)
    ensures GetSumForDomain(s + t) == GetSumForDomain(s) + GetSumForDomain(t)
    decreases |t|
  {
    if t != [] {
      var t' := t[..|t| - 1];
      assert (s + t)[..|s + t| - 1] == s + t';
      SumConcat(s, t');
    } else {
      assert s + t == s;
    }
  }

  /** The first m symbols sum to 1 + 2 + ... + m. */
  lemma {:induction false} SumOfFirstSymbols(m: int)
    requires 0 <= m <= |PotentialDomain|
    ensures 2 * GetSumForDomain(PotentialDomain[..m]) == m * (m + 1)
  {
    if m > 0 {
      var prefix := PotentialDomain[..m];
      assert prefix[..m - 1] == PotentialDomain[..m - 1];
      var before := GetSumForDomain(PotentialDomain[..m - 1]);
      assert GetSumForDomain(prefix) == before + GetValueForDomainChar(prefix[m - 1]);
      SumOfFirstSymbols(m - 1);
      SymbolValue(m - 1);
      assert 2 * before == (m - 1) * m;
      MulPred(m);
      MulSucc(m);
    }
  }

  /** `s` picks its i-th character from the i-th domain, for every i. */
  ghost predicate IsCombination(s: string, domains: seq<string>)
  {
    |s| == |domains| && forall i :: 0 <= i < |s| ==> s[i] in domains[i]
  }

  /** Each character of `d` as a one-character string (`ToCharArray().Select(char.ToString)`). */
  function Singletons(d: string): (r: seq<string>)
    ensures forall s :: s in r <==> |s| == 1 && s[0] in d
  {
    var r := seq(|d|, k requires 0 <= k < |d| => [d[k]]);
    assert forall s :: |s| == 1 && s[0] in d ==> s in r by {
      forall s | |s| == 1 && s[0] in d
        ensures s in r
      {
        var k :| 0 <= k < |d| && d[k] == s[0];
        assert r[k] == s;
      }
    }
    r
  }

  /**
   * Every string of `xs` followed by every character of `d`, outer-major: the
   * `Join` of Utils.cs whose two key selectors are constantly `true`.
   */
  function Extend(xs: seq<string>, d: string): seq<string>
    decreases |xs|
  {
    if xs == [] then []
    else Extend(xs[..|xs| - 1], d) + seq(|d|, k requires 0 <= k < |d| => xs[|xs| - 1] + [d[k]])
  }

  lemma {:induction false} ExtendMember(xs: seq<string>, d: string, s: string)
    ensures s in Extend(xs, d) <==> |s| >= 1 && s[..|s| - 1] in xs && s[|s| - 1] in d
    decreases |xs|
  {
    if xs != [] {
      var xs' := xs[..|xs| - 1];
      var x := xs[|xs| - 1];
      var tail := seq(|d|, k requires 0 <= k < |d| => x + [d[k]]);
      ExtendMember(xs', d, s);
      assert xs == xs' + [x];
      if |s| >= 1 && s[..|s| - 1] == x && s[|s| - 1] in d {
        var k :| 0 <= k < |d| && d[k] == s[|s| - 1];
        assert s == x + [d[k]];
        assert tail[k] == s;
      }
      if s in tail {
        var k :| 0 <= k < |d| && tail[k] == s;
        assert s[..|s| - 1] == x;
      }
    }
  }

  /** The full Cartesian product of the domains, one string per combination. */
  function CrossProduct(domains: seq<string>): seq<string>
    requires |domains| >= 1
    decreases |domains|
  {
    if |domains| == 1 then Singletons(domains[0])
    else Extend(CrossProduct(domains[..|domains| - 1]), domains[|domains| - 1])
  }

  lemma {:induction false} CrossProductMember(domains: seq<string>, s: string)
    requires |domains| >= 1
    ensures s in CrossProduct(domains) <==> IsCombination(s, domains)
    decreases |domains|
  {
    if |domains| > 1 {
      var ds := domains[..|domains| - 1];
      ExtendMember(CrossProduct(ds), domains[|domains| - 1], s);
      if |s| >= 1 {
        CrossProductMember(ds, s[..|s| - 1]);
      }
    }
  }

  function WithSum(xs: seq<string>, sum: int): (r: seq<string>)
    ensures forall s :: s in r <==> s in xs && GetSumForDomain(s) == sum
    decreases |xs|
  {
    if xs == [] then []
    else
      var rest := WithSum(xs[..|xs| - 1], sum);
      var x := xs[|xs| - 1];
      assert xs == xs[..|xs| - 1] + [x];
      if GetSumForDomain(x) == sum then rest + [x] else rest
  }

  /**
   * The strings that take their i-th character from the i-th domain and whose
   * values add up to `sum`. The C# code reads the first domain without checking
   * that there is one, so at least one is required.
   */
  function JoinDomainsWithSum(domains: seq<string>, sum: int): (r: seq<string>)
    requires |domains| >= 1
    ensures forall s :: s in r <==> IsCombination(s, domains) && GetSumForDomain(s) == sum
  {
    var r := WithSum(CrossProduct(domains), sum);
    assert forall s :: s in r <==> IsCombination(s, domains) && GetSumForDomain(s) == sum by {
      forall s
        ensures s in r <==> IsCombination(s, domains) && GetSumForDomain(s) == sum
      {
        CrossProductMember(domains, s);
      }
    }
    r
  }
}
