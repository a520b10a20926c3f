// The input checks and counts of cellsToMultiPoly.c: validateCellSet
// (same resolution, all valid, no repeats, the last found by sorting a copy
// with qsort and cmp_uint64), getNumEdges, the hashEdge mixer, and
// countPolys over the roots of the sorted loops.

module H3CellsToMultiPoly {
  import opened H3Api
  import opened H3IndexFields
  import opened H3IndexValid
  import opened H3Hierarchy
  import opened H3Low52

  // ------------------------------------------------ unsigned word order

  /** The words as unsigned integers, the order cmp_uint64 compares in. */
  function UKeys(s: seq<H3Index>): (r: seq<int>)
    ensures |r| == |s| && forall i {:trigger r[i]} | 0 <= i < |s| :: r[i] == s[i] as int
  {
    seq(|s|, i requires 0 <= i < |s| => s[i] as int)
  }

  /** Every pair of words is in ascending unsigned order. */
  predicate Ascending(s: seq<H3Index>)
  {
    SortedKeys(UKeys(s))
  }

  lemma UKeysPrefix(s: seq<H3Index>, m: int)
    requires 0 <= m <= |s|
    ensures UKeys(s[..m]) == UKeys(s)[..m]
  {
  }

  lemma UKeysSwap(s: seq<H3Index>, j: int)
    requires 0 < j < |s|
    ensures UKeys(s[j - 1 := s[j]][j := s[j - 1]]) == UKeys(s)[j - 1 := UKeys(s)[j]][j := UKeys(s)[j - 1]]
  {
  }

  /** The state of an insertion pass over s0: the word at j is sinking,
      cur is a permutation of s0 on the first n words, nothing after i
      has moved. */
  predicate InAscendingPass(s0: seq<H3Index>, cur: seq<H3Index>, n: int, i: int, j: int)
    requires 0 <= j <= i < n <= |s0|
  {
    |cur| == |s0| && Sinking(UKeys(cur), i, j)
    && multiset(cur[..n]) == multiset(s0[..n])
    && forall t | i < t < |cur| :: cur[t] == s0[t]
  }

  /** One swap of an insertion pass. */
  method SinkWord(cells: array<H3Index>, n: int, i: int, j: int, ghost s0: seq<H3Index>) returns (j': int)
    requires 0 < j <= i < n <= cells.Length == |s0|
    requires InAscendingPass(s0, cells[..], n, i, j) && cells[j - 1] as int > cells[j] as int
    modifies cells
    ensures j' == j - 1 && InAscendingPass(s0, cells[..], n, i, j')
  {
    j' := j - 1;
    SinkStep(UKeys(cells[..]), i, j);
    UKeysSwap(cells[..], j);
    SwapDown(cells, n, j);
  }

  /** The ascending prefix cells[..i] grows by the word at i. */
  method InsertWord(cells: array<H3Index>, n: int, i: int)
    requires 0 < i < n <= cells.Length && Ascending(cells[..i])
    modifies cells
    ensures Ascending(cells[..i + 1])
    ensures multiset(cells[..n]) == multiset(old(cells[..n]))
    ensures forall t | i < t < cells.Length :: cells[t] == old(cells[t])
  {
    ghost var s0 := cells[..];
    assert s0[..i] == cells[..i];
    UKeysPrefix(s0, i);
    SinkStart(UKeys(s0), i);
    var j := i;
    while j > 0 && cells[j - 1] as int > cells[j] as int
      invariant 0 <= j <= i
      invariant InAscendingPass(s0, cells[..], n, i, j)
      decreases j
    {
      j := SinkWord(cells, n, i, j, s0);
    }
    SinkDone(UKeys(cells[..]), i, j);
    UKeysPrefix(cells[..], i + 1);
    assert cells[..][..i + 1] == cells[..i + 1];
    assert cells[..][..n] == cells[..n] && s0[..n] == old(cells[..n]);
  }

  /** qsort with cmp_uint64: the first n words in ascending order, a
      permutation of what was there. */
  method SortWords(cells: array<H3Index>, n: int)
    requires 0 <= n <= cells.Length
    modifies cells
    ensures Ascending(cells[..n])
    ensures multiset(cells[..n]) == multiset(old(cells[..n]))
  {
    if n > 0 {
      var i := 1;
      while i < n
        invariant 1 <= i <= n
        invariant Ascending(cells[..i])
        invariant multiset(cells[..n]) == multiset(old(cells[..n]))
      {
        InsertWord(cells, n, i);
        i := i + 1;
      }
    }
  }

  // ------------------------------------------------------------ repeats

  /** No word occurs twice. */
  predicate NoRepeats<T(==)>(s: seq<T>)
  {
    forall a, b | 0 <= a < b < |s| :: s[a] != s[b]
  }

  /** Appending x counts it once more and nothing else. */
  lemma CountSnoc<T>(s: seq<T>, x: T, y: T)
    ensures multiset(s + [x])[y] == multiset(s)[y] + (if y == x then 1 else 0)
  {
    assert multiset(s + [x]) == multiset(s) + multiset{x};
    if y == x {
      assert multiset{x}[y] == 1;
    } else {
      assert multiset{x}[y] == 0;
    }
  }

  /** s + [x] has no repeats when s has none and does not hold x. */
  lemma NoRepeatsSnoc<T>(s: seq<T>, x: T)
    ensures NoRepeats(s + [x]) <==> NoRepeats(s) && x !in s
  {
    var t := s + [x];
    if NoRepeats(t) {
      forall a, b | 0 <= a < b < |s|
        ensures s[a] != s[b]
      {
        assert s[a] == t[a] && s[b] == t[b];
      }
      forall a | 0 <= a < |s|
        ensures s[a] != x
      {
        assert s[a] == t[a] && x == t[|s|];
      }
    }
    if NoRepeats(s) && x !in s {
      forall a, b | 0 <= a < b < |t|
        ensures t[a] != t[b]
      {
        assert t[a] == s[a];
        if b < |s| {
          assert t[b] == s[b];
        }
      }
    }
  }

  /** No repeats means every word is counted at most once. */
  lemma {:induction false} NoRepeatsCount<T>(s: seq<T>)
    ensures NoRepeats(s) <==> forall x :: multiset(s)[x] <= 1
    decreases |s|
  {
    if s != [] {
      var s', x := s[..|s| - 1], s[|s| - 1];
      assert s == s' + [x];
      NoRepeatsCount(s');
      NoRepeatsSnoc(s', x);
      if NoRepeats(s) {
        forall y
          ensures multiset(s)[y] <= 1
        {
          CountSnoc(s', x, y);
        }
      }
      if forall y :: multiset(s)[y] <= 1 {
        forall y
          ensures multiset(s')[y] <= 1
        {
          CountSnoc(s', x, y);
        }
        CountSnoc(s', x, x);
      }
    }
  }

  /** Repeats are a property of the multiset, so sorting keeps them. */
  lemma NoRepeatsPermutation<T>(s: seq<T>, t: seq<T>)
    requires multiset(s) == multiset(t)
    ensures NoRepeats(s) <==> NoRepeats(t)
  {
    NoRepeatsCount(s);
    NoRepeatsCount(t);
  }

  /** Two words with the same unsigned value are the same word. */
  lemma WordValue(x: H3Index, y: H3Index)
    requires x as int == y as int
    ensures x == y
  {
    assert (x as int) as H3Index == x;
    assert (y as int) as H3Index == y;
  }

  /** An ascending sequence without equal neighbours has no repeats. */
  lemma AscendingNoRepeats(s: seq<H3Index>)
    requires Ascending(s) && forall t | 1 <= t < |s| :: s[t] != s[t - 1]
    ensures NoRepeats(s)
  {
    var k := UKeys(s);
    forall a, b | 0 <= a < b < |s|
      ensures s[a] != s[b]
    {
      assert k[a] <= k[a + 1] <= k[b];
      if k[a] == k[b] {
        WordValue(s[a], s[a + 1]);
        assert false;
      }
    }
  }

  /** Whether two of the first n words are equal: sort a copy and compare
      neighbours. */
  method HasRepeats(cells: seq<H3Index>, n: int) returns (found: bool)
    requires 0 <= n <= |cells|
    ensures found <==> !NoRepeats(cells[..n])
  {
    if n < 2 {
      return false;
    }
    var copy := new H3Index[n](t requires 0 <= t < n => cells[t]);
    ghost var c0 := copy[..];
    assert c0 == cells[..n];
    SortWords(copy, n);
    assert copy[..n] == copy[..] && c0[..n] == c0;
    NoRepeatsPermutation(copy[..], c0);
    var k := 1;
    while k < n
      invariant 1 <= k <= n
      invariant forall t | 1 <= t < k :: copy[t] != copy[t - 1]
    {
      if copy[k] == copy[k - 1] {
        assert !NoRepeats(copy[..]) by { assert copy[..][k - 1] == copy[..][k]; }
        return true;
      }
      k := k + 1;
    }
    AscendingNoRepeats(copy[..]);
    return false;
  }

  // ----------------------------------------------------- validateCellSet

  /** Every one of the first n cells is valid and at the resolution of the
      first. */
  ghost predicate GoodCells(cells: seq<H3Index>, n: int)
    requires 0 <= n <= |cells|
  {
    forall i | 0 <= i < n :: IsValidCell(cells[i]) && GetResolution(cells[i]) == GetResolution(cells[0])
  }

  /** validateCellSet: E_DOMAIN for a negative count; otherwise the first
      cell that is invalid gives E_CELL_INVALID, the first at another
      resolution E_RES_MISMATCH; a repeated cell gives E_DUPLICATE_INPUT;
      and E_SUCCESS exactly for a set of valid cells at one resolution. */
  method ValidateCellSet(cells: seq<H3Index>, numCells: int) returns (err: H3Error)
    requires numCells <= |cells|
    ensures numCells < 0 <==> err == E_DOMAIN
    ensures err == E_CELL_INVALID ==>
      exists i | 0 <= i < numCells :: !IsValidCell(cells[i]) && GoodCells(cells, i)
    ensures err == E_RES_MISMATCH ==>
      exists i | 0 <= i < numCells :: IsValidCell(cells[i]) && GetResolution(cells[i]) != GetResolution(cells[0]) && GoodCells(cells, i)
    ensures numCells >= 0 ==> ((err == E_CELL_INVALID || err == E_RES_MISMATCH) <==> !GoodCells(cells, numCells))
    ensures numCells >= 0 && GoodCells(cells, numCells) ==>
      (err == E_DUPLICATE_INPUT <==> !NoRepeats(cells[..numCells]))
    ensures err == E_SUCCESS <==> numCells >= 0 && GoodCells(cells, numCells) && NoRepeats(cells[..numCells])
  {
    if numCells < 0 {
      return E_DOMAIN;
    }
    if numCells == 0 {
      return E_SUCCESS;
    }
    var res := GetResolution(cells[0]);
    var i := 0;
    while i < numCells
      invariant 0 <= i <= numCells && GoodCells(cells, i)
    {
      if !IsValidCell(cells[i]) {
        return E_CELL_INVALID;
      }
      if GetResolution(cells[i]) != res {
        return E_RES_MISMATCH;
      }
      i := i + 1;
    }
    var repeated := HasRepeats(cells, numCells);
    if repeated {
      return E_DUPLICATE_INPUT;
    }
    return E_SUCCESS;
  }

  // --------------------------------------------------------- getNumEdges

  /** The number of pentagons among the cells. */
  function PentagonCount(cells: seq<H3Index>): (r: int)
    ensures 0 <= r <= |cells|
  {
    if cells == [] then 0
    else PentagonCount(cells[..|cells| - 1]) + (if IsPentagon(cells[|cells| - 1]) then 1 else 0)
  }

  /** getNumEdges: six edges per cell, one fewer for each pentagon. */
  method GetNumEdges(cells: seq<H3Index>, numCells: int) returns (numEdges: int)
    requires 0 <= numCells <= |cells|
    ensures numEdges == 6 * numCells - PentagonCount(cells[..numCells])
    ensures 5 * numCells <= numEdges <= 6 * numCells
  {
    numEdges := 6 * numCells;
    var i := 0;
    while i < numCells
      invariant 0 <= i <= numCells
      invariant numEdges == 6 * numCells - PentagonCount(cells[..i])
    {
      assert cells[..i + 1][..i] == cells[..i];
      if IsPentagon(cells[i]) {
        numEdges := numEdges - 1;
      }
      i := i + 1;
    }
    assert PentagonCount(cells[..numCells]) <= numCells;
  }

  /** The edges of pentagons make up the shortfall from six per cell:
      cells with no pentagon among them have exactly six edges each. */
  lemma {:induction false} PentagonCountZero(cells: seq<H3Index>)
    requires forall i | 0 <= i < |cells| :: !IsPentagon(cells[i])
    ensures PentagonCount(cells) == 0
  {
    if cells != [] {
      PentagonCountZero(cells[..|cells| - 1]);
    }
  }

  // ------------------------------------------------------------ hashEdge

  /** The SplitMix64 finaliser of hashEdge, on 64-bit words. */
  function Mix(x: H3Index): H3Index
  {
    var x1 := x ^ (x >> 30);
    var x2 := x1 * 0xbf58476d1ce4e5b9;
    var x3 := x2 ^ (x2 >> 27);
    var x4 := x3 * 0x94d049bb133111eb;
    x4 ^ (x4 >> 31)
  }

  /** hashEdge: a bucket of a table of n buckets. */
  function HashEdge(x: H3Index, n: int): (r: int)
    requires n > 0
    ensures 0 <= r < n
  {
    (Mix(x) as int) % n
  }

  // ---------------------------------------------------------- countPolys

  /** The number of places where the root differs from the one before it,
      the first compared with H3_NULL. */
  function RootChanges(roots: seq<H3Index>): (r: int)
    ensures 0 <= r <= |roots|
  {
    if roots == [] then 0
    else
      var prev := if |roots| == 1 then H3_NULL else roots[|roots| - 2];
      RootChanges(roots[..|roots| - 1]) + (if roots[|roots| - 1] != prev then 1 else 0)
  }

  /** countPolys: the number of runs of equal roots along the loops. */
  method CountPolys(roots: seq<H3Index>) returns (numPolys: int)
    ensures numPolys == RootChanges(roots)
  {
    numPolys := 0;
    var cur := H3_NULL;
    var i := 0;
    while i < |roots|
      invariant 0 <= i <= |roots|
      invariant numPolys == RootChanges(roots[..i])
      invariant cur == if i == 0 then H3_NULL else roots[i - 1]
    {
      assert roots[..i + 1][..i] == roots[..i];
      if roots[i] != cur {
        numPolys := numPolys + 1;
        cur := roots[i];
      }
      i := i + 1;
    }
    assert roots[..i] == roots;
  }

  /** The distinct roots. */
  function RootSet(roots: seq<H3Index>): set<H3Index>
  {
    set i | 0 <= i < |roots| :: roots[i]
  }

  lemma RootSetSnoc(roots: seq<H3Index>, x: H3Index)
    ensures RootSet(roots + [x]) == RootSet(roots) + {x}
  {
    var t := roots + [x];
    forall y | y in RootSet(t)
      ensures y in RootSet(roots) + {x}
    {
      var i :| 0 <= i < |t| && t[i] == y;
      if i < |roots| {
        assert roots[i] == y;
      }
    }
    forall y | y in RootSet(roots)
      ensures y in RootSet(t)
    {
      var i :| 0 <= i < |roots| && roots[i] == y;
      assert t[i] == y;
    }
    assert t[|roots|] == x;
  }

  lemma AscendingPrefix(s: seq<H3Index>, m: int)
    requires 0 <= m <= |s| && Ascending(s)
    ensures Ascending(s[..m])
  {
    UKeysPrefix(s, m);
  }

  lemma KeysLast(k: seq<int>, i: int)
    requires SortedKeys(k) && 0 <= i < |k| - 1 && k[i] == k[|k| - 1]
    ensures k[|k| - 2] == k[|k| - 1]
  {
    if i < |k| - 2 {
      assert k[i] <= k[|k| - 2];
    }
  }

  /** In an ascending sequence a word below the last two that equals
      the last one also equals the one before it. */
  lemma AscendingLast(s: seq<H3Index>, i: int)
    requires Ascending(s) && 0 <= i < |s| - 1 && s[i] == s[|s| - 1]
    ensures s[|s| - 2] == s[|s| - 1]
  {
    var k := UKeys(s);
    var n := |s|;
    KeysLast(k, i);
    WordValue(s[n - 2], s[n - 1]);
  }

  /** For loops sorted by a nonzero root, as createSortableLoopSet leaves
      them, the runs are the connected components: one polygon per
      distinct root. */
  lemma {:induction false} RootChangesSorted(roots: seq<H3Index>)
    requires Ascending(roots) && forall i | 0 <= i < |roots| :: roots[i] != H3_NULL
    ensures RootChanges(roots) == |RootSet(roots)|
    decreases |roots|
  {
    if roots != [] {
      var n := |roots|;
      var init, x := roots[..n - 1], roots[n - 1];
      assert roots == init + [x];
      AscendingPrefix(roots, n - 1);
      RootChangesSorted(init);
      RootSetSnoc(init, x);
      if n == 1 {
        assert RootSet(init) == {} && x != H3_NULL;
        assert RootChanges(roots) == RootChanges(init) + 1;
      } else if x == roots[n - 2] {
        assert init[n - 2] == x;
        assert RootChanges(roots) == RootChanges(init);
      } else {
        NewRoot(roots);
        assert RootChanges(roots) == RootChanges(init) + 1;
      }
    }
  }

  /** A root that differs from the one before it is new in an ascending
      sequence. */
  lemma NewRoot(roots: seq<H3Index>)
    requires Ascending(roots) && |roots| >= 2 && roots[|roots| - 1] != roots[|roots| - 2]
    ensures roots[|roots| - 1] !in RootSet(roots[..|roots| - 1])
  {
    var n := |roots|;
    forall i | 0 <= i < n - 1
      ensures roots[i] != roots[n - 1]
    {
      if roots[i] == roots[n - 1] {
        AscendingLast(roots, i);
      }
    }
  }

}
