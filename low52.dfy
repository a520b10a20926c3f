// low52.c: sets of cells kept in the order of the low 52 bits of their
// words (the base cell and the fifteen digits, most significant first).
// Because unused digits are 7, a cell sorts after all of its descendants,
// which sit immediately to its left; a canonical array is sorted, without
// duplicates and without a cell whose ancestor is also present.  Word
// comparisons are unsigned, so they are modelled on the integer value of
// the shifted word (Key).

module H3Low52 {
  import opened H3Api

  // ------------------------------------------------------ comparisons

  /** The word shifted left by 12 bits, as an unsigned integer: the low 52
      bits of the index, moved to the top. */
  function Key(h: H3Index): int
  {
    (h << 12) as int
  }

  /** Converting a word to an integer loses nothing. */
  lemma WordRoundTrip(x: H3Index)
    ensures (x as int) as bv64 == x
  {
  }

  /** Equal keys come from equal shifted words. */
  lemma KeyInjective(a: H3Index, b: H3Index)
    requires Key(a) == Key(b)
    ensures a << 12 == b << 12
  {
    WordRoundTrip(a << 12);
    WordRoundTrip(b << 12);
  }

  /** Two words have the same key exactly when their low 52 bits agree. */
  lemma KeyEqual(a: H3Index, b: H3Index)
    ensures Key(a) == Key(b) <==> (a & 0x000F_FFFF_FFFF_FFFF) == (b & 0x000F_FFFF_FFFF_FFFF)
  {
    if Key(a) == Key(b) {
      KeyInjective(a, b);
    }
    ShiftedEqual(a, b);
  }

  /** Shifting out the top 12 bits keeps exactly the low 52 bits. */
  lemma ShiftedEqual(a: H3Index, b: H3Index)
    ensures (a << 12 == b << 12) <==> ((a & 0x000F_FFFF_FFFF_FFFF) == (b & 0x000F_FFFF_FFFF_FFFF))
  {
  }

  /** cmpLow52: the sign of the comparison of the low 52 bits. */
  function CmpLow52(a: H3Index, b: H3Index): (r: int)
  {
    if Key(a) < Key(b) then -1 else if Key(a) > Key(b) then 1 else 0
  }

  /** cmpLow52 is antisymmetric, and 0 exactly when the low 52 bits of the
      two words agree. */
  lemma CmpLow52Props(a: H3Index, b: H3Index)
    ensures CmpLow52(a, b) == -CmpLow52(b, a)
    ensures -1 <= CmpLow52(a, b) <= 1
    ensures CmpLow52(a, b) == 0 <==> (a & 0x000F_FFFF_FFFF_FFFF) == (b & 0x000F_FFFF_FFFF_FFFF)
  {
    KeyEqual(a, b);
  }

  /** The 4 resolution bits, read as cmpCanon does after dropping the
      high bit, mode and reserved bits. */
  function ResBits(h: H3Index): (r: int)
    ensures 0 <= r <= 15
  {
    ((h << 8) >> 60) as int
  }

  /** 2^(57 - 3m): the weight of the lowest bit kept when a shifted word
      is cut down to its base cell and m digits. */
  function PrefixUnit(m: int): (u: int)
    requires 0 <= m <= 15
    ensures u > 0
  {
    if m == 0 then 0x200_0000_0000_0000
    else if m == 1 then 0x40_0000_0000_0000
    else if m == 2 then 0x8_0000_0000_0000
    else if m == 3 then 0x1_0000_0000_0000
    else if m == 4 then 0x2000_0000_0000
    else if m == 5 then 0x400_0000_0000
    else if m == 6 then 0x80_0000_0000
    else if m == 7 then 0x10_0000_0000
    else if m == 8 then 0x2_0000_0000
    else if m == 9 then 0x4000_0000
    else if m == 10 then 0x800_0000
    else if m == 11 then 0x100_0000
    else if m == 12 then 0x20_0000
    else if m == 13 then 0x4_0000
    else if m == 14 then 0x8000
    else 0x1000
  }

  /** The smaller of two resolutions. */
  function Min(a: int, b: int): int
  {
    if a < b then a else b
  }

  /** Two keys agree on the base cell and the first m digits:
      HIGH_BITS(x, c), the top c bits of the shifted word x, is its value
      divided by 2^(64 - c), with c = 7 + 3 * m bits for the base cell and
      m digits. */
  predicate SamePrefix(ka: int, kb: int, m: int)
    requires 0 <= m <= 15
  {
    ka / PrefixUnit(m) == kb / PrefixUnit(m)
  }

  /** Keys ka and kb of words of resolutions ra and rb agree down to the
      coarser resolution. */
  predicate RelatedKeys(ka: int, kb: int, ra: int, rb: int)
    requires 0 <= ra <= 15 && 0 <= rb <= 15
  {
    SamePrefix(ka, kb, Min(ra, rb))
  }

  /** The base cell and the digits down to the coarser of the two
      resolutions agree: one cell is an ancestor or descendant of (or equal
      to) the other, when both are valid cells. */
  predicate Related(a: H3Index, b: H3Index)
  {
    var m := if ResBits(a) < ResBits(b) then ResBits(a) else ResBits(b);
    Key(a) / PrefixUnit(m) == Key(b) / PrefixUnit(m)
  }

  /** Related, stated on the keys and resolutions of the two words. */
  lemma RelatedIsKeys(a: H3Index, b: H3Index)
    ensures Related(a, b) <==> RelatedKeys(Key(a), Key(b), ResBits(a), ResBits(b))
  {
  }

  /** cmpCanon: the low-52 comparison, doubled when the cells are not
      related. */
  function CmpCanon(a: H3Index, b: H3Index): (r: int)
  {
    if Related(a, b) then CmpLow52(a, b) else 2 * CmpLow52(a, b)
  }

  /** The values of cmpCanon: -1 and 1 only for related cells, -2 and 2
      only for unrelated ones, 0 for equal low 52 bits. */
  lemma CmpCanonProps(a: H3Index, b: H3Index)
    ensures CmpCanon(a, b) in {-2, -1, 0, 1, 2}
    ensures CmpCanon(a, b) == -2 <==> !Related(a, b) && Key(a) < Key(b)
    ensures CmpCanon(a, b) == 2 <==> !Related(a, b) && Key(a) > Key(b)
    ensures CmpCanon(a, b) == 0 <==> Key(a) == Key(b)
    ensures CmpCanon(a, b) == -1 <==> Related(a, b) && Key(a) < Key(b)
  {
  }

  /** isDesc: c is a descendant of p, or p itself. */
  predicate IsDesc(c: H3Index, p: H3Index)
  {
    CmpCanon(c, p) == -1 || CmpCanon(c, p) == 0
  }

  /** A cell whose key is not above p's is a descendant of p unless the two
      are unrelated, and then cmpCanon orders it strictly before p. */
  lemma NotDescBefore(c: H3Index, p: H3Index)
    requires Key(c) <= Key(p) && !IsDesc(c, p)
    ensures CmpCanon(c, p) == -2
  {
  }

  // ------------------------------------------------------ sortedness

  /** isLow52Sorted as a property: consecutive cells never decrease. */
  predicate Low52Sorted(s: seq<H3Index>)
  {
    forall i | 1 <= i < |s| :: CmpLow52(s[i - 1], s[i]) <= 0
  }

  /** The keys of a sequence of cells. */
  function Keys(s: seq<H3Index>): (r: seq<int>)
    ensures |r| == |s| && forall i {:trigger r[i]} | 0 <= i < |s| :: r[i] == Key(s[i])
  {
    seq(|s|, i requires 0 <= i < |s| => Key(s[i]))
  }

  /** Every pair of keys is in order. */
  predicate SortedKeys(ks: seq<int>)
  {
    forall i, j | 0 <= i < j < |ks| :: ks[i] <= ks[j]
  }

  /** Every pair of cells is in order, the form the proofs use. */
  predicate Ordered(s: seq<H3Index>)
  {
    SortedKeys(Keys(s))
  }

  /** Consecutive order is the same as order of all pairs. */
  lemma {:induction false} SortedOrdered(s: seq<H3Index>)
    ensures Low52Sorted(s) <==> Ordered(s)
    decreases |s|
  {
    var ks := Keys(s);
    if |s| > 1 && Low52Sorted(s) {
      var t := s[..|s| - 1];
      assert Low52Sorted(t) by {
        forall i | 1 <= i < |t|
          ensures CmpLow52(t[i - 1], t[i]) <= 0
        {
          assert t[i - 1] == s[i - 1] && t[i] == s[i];
        }
      }
      SortedOrdered(t);
      forall i, j | 0 <= i < j < |s|
        ensures ks[i] <= ks[j]
      {
        if j < |s| - 1 {
          assert Keys(t)[i] == ks[i] && Keys(t)[j] == ks[j];
        } else if i < |s| - 2 {
          assert Keys(t)[i] == ks[i] && Keys(t)[|s| - 2] == ks[|s| - 2];
          assert CmpLow52(s[|s| - 2], s[|s| - 1]) <= 0;
        } else {
          assert CmpLow52(s[|s| - 2], s[|s| - 1]) <= 0;
        }
      }
    }
    if Ordered(s) {
      forall i | 1 <= i < |s|
        ensures CmpLow52(s[i - 1], s[i]) <= 0
      {
        assert ks[i - 1] <= ks[i];
      }
    }
  }

  /** isCanonicalCells as a property: every consecutive pair compares -2,
      that is unrelated and strictly increasing. */
  predicate Canonical(s: seq<H3Index>)
  {
    forall i | 1 <= i < |s| :: CmpCanon(s[i - 1], s[i]) == -2
  }

  /** A canonical array is sorted with strictly increasing keys, so it
      holds no two cells with the same low 52 bits. */
  lemma CanonicalSorted(s: seq<H3Index>)
    ensures Canonical(s) ==> Low52Sorted(s)
    ensures Canonical(s) ==> forall i | 1 <= i < |s| :: Key(s[i - 1]) < Key(s[i])
  {
  }

  /** Both predicates hold for fewer than two cells. */
  lemma ShortSorted(s: seq<H3Index>)
    requires |s| <= 1
    ensures Low52Sorted(s) && Canonical(s)
  {
  }

  /** The cells of s[..n], or none for a negative count. */
  function Prefix(s: seq<H3Index>, n: int): seq<H3Index>
    requires n <= |s|
  {
    if n <= 0 then [] else s[..n]
  }

  /** A sorted prefix grows by a cell not below the last one. */
  lemma SortedExtend(s: seq<H3Index>, i: int)
    requires 1 <= i < |s| && Low52Sorted(s[..i]) && CmpLow52(s[i - 1], s[i]) <= 0
    ensures Low52Sorted(s[..i + 1])
  {
    assert forall t | 0 <= t < i :: s[..i + 1][t] == s[..i][t];
  }

  /** One pair out of order spoils every prefix holding it. */
  lemma SortedBreak(s: seq<H3Index>, n: int, i: int)
    requires 1 <= i < n <= |s| && CmpLow52(s[i - 1], s[i]) > 0
    ensures !Low52Sorted(Prefix(s, n))
  {
    assert Prefix(s, n)[i - 1] == s[i - 1] && Prefix(s, n)[i] == s[i];
  }

  /** isLow52Sorted: whether the first n cells are sorted (true when n is
      at most 1). */
  method IsLow52Sorted(cells: array<H3Index>, n: int) returns (b: bool)
    requires n <= cells.Length
    ensures b <==> Low52Sorted(Prefix(cells[..], n))
  {
    ghost var s := cells[..];
    if n >= 1 {
      ShortSorted(s[..1]);
    }
    var i := 1;
    while i < n
      invariant 1 <= i <= if n < 1 then 1 else n
      invariant n >= 1 ==> Low52Sorted(s[..i])
    {
      if CmpLow52(cells[i - 1], cells[i]) > 0 {
        SortedBreak(s, n, i);
        return false;
      }
      SortedExtend(s, i);
      i := i + 1;
    }
    ShortSorted([]);
    return true;
  }

  /** A canonical prefix grows by a cell unrelated to and after the last one. */
  lemma CanonicalExtend(s: seq<H3Index>, i: int)
    requires 1 <= i < |s| && Canonical(s[..i]) && CmpCanon(s[i - 1], s[i]) == -2
    ensures Canonical(s[..i + 1])
  {
    assert forall t | 0 <= t < i :: s[..i + 1][t] == s[..i][t];
  }

  /** One pair that does not compare -2 spoils every prefix holding it. */
  lemma CanonicalBreak(s: seq<H3Index>, n: int, i: int)
    requires 1 <= i < n <= |s| && CmpCanon(s[i - 1], s[i]) != -2
    ensures !Canonical(Prefix(s, n))
  {
    assert Prefix(s, n)[i - 1] == s[i - 1] && Prefix(s, n)[i] == s[i];
  }

  /** isCanonicalCells: whether the first n cells are canonical (true when
      n is at most 1). */
  method IsCanonicalCells(cells: array<H3Index>, n: int) returns (b: bool)
    requires n <= cells.Length
    ensures b <==> Canonical(Prefix(cells[..], n))
  {
    ghost var s := cells[..];
    if n >= 1 {
      ShortSorted(s[..1]);
    }
    var i := 1;
    while i < n
      invariant 1 <= i <= if n < 1 then 1 else n
      invariant n >= 1 ==> Canonical(s[..i])
    {
      if CmpCanon(cells[i - 1], cells[i]) != -2 {
        CanonicalBreak(s, n, i);
        return false;
      }
      CanonicalExtend(s, i);
      i := i + 1;
    }
    ShortSorted([]);
    return true;
  }

  // ------------------------------------------------------ low52Sort

  /** During one insertion pass: the keys up to i are in order except
      for the moving one at j, which is below every key after it, and its
      two neighbours are in order with each other. */
  predicate Sinking(ks: seq<int>, i: int, j: int)
    requires 0 <= j <= i < |ks|
  {
    (forall a, b | 0 <= a < b <= i && a != j && b != j :: ks[a] <= ks[b])
    && (forall b | j < b <= i :: ks[j] <= ks[b])
    && (0 < j < i ==> ks[j - 1] <= ks[j + 1])
  }

  /** A pass starts with the new key at i after an ordered prefix. */
  lemma SinkStart(ks: seq<int>, i: int)
    requires 0 <= i < |ks| && SortedKeys(ks[..i])
    ensures Sinking(ks, i, i)
  {
    assert forall a | 0 <= a < i :: ks[..i][a] == ks[a];
  }

  /** Swapping the moving key with a larger left neighbour keeps the pass
      going one place to the left. */
  lemma SinkStep(ks: seq<int>, i: int, j: int)
    requires 0 < j <= i < |ks| && Sinking(ks, i, j) && ks[j - 1] > ks[j]
    ensures Sinking(ks[j - 1 := ks[j]][j := ks[j - 1]], i, j - 1)
  {
  }

  /** The pass ends at the start or below a key that is not larger, and
      then the keys up to i are in order. */
  lemma SinkDone(ks: seq<int>, i: int, j: int)
    requires 0 <= j <= i < |ks| && Sinking(ks, i, j)
    requires j == 0 || ks[j - 1] <= ks[j]
    ensures SortedKeys(ks[..i + 1])
  {
    forall a, b | 0 <= a < b <= i
      ensures ks[a] <= ks[b]
    {
      if b == j && a < j - 1 {
        assert ks[a] <= ks[j - 1];
      }
    }
    assert forall a | 0 <= a <= i :: ks[..i + 1][a] == ks[a];
  }

  /** The keys of a prefix are the prefix of the keys. */
  lemma KeysPrefix(s: seq<H3Index>, m: int)
    requires 0 <= m <= |s|
    ensures Keys(s[..m]) == Keys(s)[..m]
  {
  }

  /** The keys of a swapped sequence are the swapped keys. */
  lemma KeysSwap(s: seq<H3Index>, j: int)
    requires 0 < j < |s|
    ensures Keys(s[j - 1 := s[j]][j := s[j - 1]]) == Keys(s)[j - 1 := Keys(s)[j]][j := Keys(s)[j - 1]]
  {
  }

  /** The state of an insertion pass over the original array s0: the
      keys of cur are sinking, cur is a permutation of s0 on the first n
      cells, and nothing after i has moved. */
  predicate InPass(s0: seq<H3Index>, cur: seq<H3Index>, n: int, i: int, j: int)
    requires 0 <= j <= i < n <= |s0|
  {
    |cur| == |s0| && Sinking(Keys(cur), i, j)
    && multiset(cur[..n]) == multiset(s0[..n])
    && forall t | i < t < |cur| :: cur[t] == s0[t]
  }

  /** A pass starts with the cell at i after an ordered prefix. */
  lemma PassStart(s0: seq<H3Index>, n: int, i: int)
    requires 0 < i < n <= |s0| && Ordered(s0[..i])
    ensures InPass(s0, s0, n, i, i)
  {
    KeysPrefix(s0, i);
    SinkStart(Keys(s0), i);
  }

  /** A pass that stops leaves cells[..i + 1] ordered. */
  lemma PassDone(s0: seq<H3Index>, cur: seq<H3Index>, n: int, i: int, j: int)
    requires 0 <= j <= i < n <= |s0| && InPass(s0, cur, n, i, j)
    requires j == 0 || CmpLow52(cur[j - 1], cur[j]) <= 0
    ensures Ordered(cur[..i + 1])
    ensures multiset(cur[..n]) == multiset(s0[..n])
    ensures forall t | i < t < |cur| :: cur[t] == s0[t]
  {
    SinkDone(Keys(cur), i, j);
    KeysPrefix(cur, i + 1);
  }

  /** The sorted prefix cells[..i] grows by the cell at i, moved left past
      every larger cell (one pass of an insertion sort). */
  method InsertNext(cells: array<H3Index>, n: int, i: int)
    requires 0 < i < n <= cells.Length && Ordered(cells[..i])
    modifies cells
    ensures Ordered(cells[..i + 1])
    ensures multiset(cells[..n]) == multiset(old(cells[..n]))
    ensures forall t | i < t < cells.Length :: cells[t] == old(cells[t])
  {
    ghost var s0 := cells[..];
    assert s0[..i] == cells[..i];
    PassStart(s0, n, i);
    var j := i;
    while j > 0 && CmpLow52(cells[j - 1], cells[j]) > 0
      invariant 0 <= j <= i
      invariant InPass(s0, cells[..], n, i, j)
      decreases j
    {
      j := SinkOnce(cells, n, i, j, s0);
    }
    PassDone(s0, cells[..], n, i, j);
    assert cells[..][..i + 1] == cells[..i + 1];
    assert cells[..][..n] == cells[..n] && s0[..n] == old(cells[..n]);
  }

  /** One swap of an insertion pass. */
  method SinkOnce(cells: array<H3Index>, n: int, i: int, j: int, ghost s0: seq<H3Index>) returns (j': int)
    requires 0 < j <= i < n <= cells.Length == |s0|
    requires InPass(s0, cells[..], n, i, j) && CmpLow52(cells[j - 1], cells[j]) > 0
    modifies cells
    ensures j' == j - 1 && InPass(s0, cells[..], n, i, j')
  {
    j' := j - 1;
    SinkStep(Keys(cells[..]), i, j);
    KeysSwap(cells[..], j);
    SwapDown(cells, n, j);
  }

  /** Exchange the cells at j - 1 and j, a permutation of cells[..n]. */
  method SwapDown(cells: array<H3Index>, n: int, j: int)
    requires 0 < j < n <= cells.Length
    modifies cells
    ensures cells[..] == old(cells[..])[j - 1 := old(cells[j])][j := old(cells[j - 1])]
    ensures multiset(cells[..n]) == multiset(old(cells[..n]))
    ensures forall t | j < t < cells.Length :: cells[t] == old(cells[t])
  {
    ghost var s := cells[..n];
    cells[j - 1], cells[j] := cells[j], cells[j - 1];
    assert cells[..n] == s[j - 1 := s[j]][j := s[j - 1]];
  }

  /** low52Sort: the first n cells sorted in place (qsort with cmpLow52);
      the cells are permuted, never changed, and the rest of the array is
      untouched.  Zero words have the smallest key and come first. */
  method Low52Sort(cells: array<H3Index>, n: int) returns (e: H3Error)
    requires 0 <= n <= cells.Length
    modifies cells
    ensures e == E_SUCCESS
    ensures Low52Sorted(cells[..n])
    ensures multiset(cells[..n]) == multiset(old(cells[..n]))
    ensures cells[n..] == old(cells[n..])
  {
    if n > 0 {
      var i := 1;
      while i < n
        invariant 1 <= i <= n
        invariant Ordered(cells[..i])
        invariant multiset(cells[..n]) == multiset(old(cells[..n]))
        invariant forall t | n <= t < cells.Length :: cells[t] == old(cells[t])
      {
        InsertNext(cells, n, i);
        i := i + 1;
      }
    }
    SortedOrdered(cells[..n]);
    assert cells[n..] == old(cells[n..]);
    return E_SUCCESS;
  }

  // ------------------------------------------------------ the zero words

  /** The nonzero words of s, in their order. */
  function NonZero(s: seq<H3Index>): (r: seq<H3Index>)
    ensures |r| <= |s|
    decreases |s|
  {
    if |s| == 0 then []
    else (if s[0] == 0 then [] else [s[0]]) + NonZero(s[1..])
  }

  /** Every nonzero word of s is among NonZero(s), and NonZero(s) holds
      only words of s. */
  lemma {:induction false} NonZeroMembers(s: seq<H3Index>)
    ensures forall t | 0 <= t < |s| && s[t] != 0 :: s[t] in NonZero(s)
    ensures forall x | x in NonZero(s) :: x in s && x != 0
    decreases |s|
  {
    if |s| > 0 {
      NonZeroMembers(s[1..]);
      forall t | 0 <= t < |s| && s[t] != 0
        ensures s[t] in NonZero(s)
      {
        if t > 0 {
          assert s[1..][t - 1] == s[t];
        }
      }
    }
  }

  /** The nonzero words of cur[i..n], by index (NonZero of that slice,
      by KeptFromIsNonZero). */
  function KeptFrom(cur: seq<H3Index>, i: int, n: int): seq<H3Index>
    requires 0 <= i <= n <= |cur|
    decreases n - i
  {
    if i == n then [] else (if cur[i] == 0 then [] else [cur[i]]) + KeptFrom(cur, i + 1, n)
  }

  /** KeptFrom is NonZero of the slice. */
  lemma {:induction false} KeptFromIsNonZero(cur: seq<H3Index>, i: int, n: int)
    requires 0 <= i <= n <= |cur|
    ensures KeptFrom(cur, i, n) == NonZero(cur[i..n])
    decreases n - i
  {
    if i < n {
      KeptFromIsNonZero(cur, i + 1, n);
      assert cur[i..n][1..] == cur[i + 1..n];
    }
  }

  /** KeptFrom reads only cur[i..n]. */
  lemma {:induction false} KeptFromSame(cur: seq<H3Index>, cur': seq<H3Index>, i: int, n: int)
    requires 0 <= i <= n <= |cur| == |cur'| && forall t | i <= t < n :: cur[t] == cur'[t]
    ensures KeptFrom(cur, i, n) == KeptFrom(cur', i, n)
    decreases n - i
  {
    if i < n {
      KeptFromSame(cur, cur', i + 1, n);
    }
  }

  /** KeptFrom grows at the end one word at a time. */
  lemma {:induction false} KeptFromSnoc(cur: seq<H3Index>, j: int, i: int)
    requires 0 <= j <= i < |cur|
    ensures KeptFrom(cur, j, i + 1) == KeptFrom(cur, j, i) + (if cur[i] == 0 then [] else [cur[i]])
    decreases i - j
  {
    if j < i {
      KeptFromSnoc(cur, j + 1, i);
    }
  }

  /** The state of the second loop of shiftOutZeros over the original
      array s, whose first zero (or n) is k0: before k0 nothing has moved;
      after it the nonzero words of s[..i] are packed into cur[..k] and
      cur[k..i] is zero. */
  predicate Shifting(s: seq<H3Index>, cur: seq<H3Index>, i: int, k: int, k0: int)
    requires 0 <= i <= |s| == |cur|
  {
    (i <= k0 ==> k == k0 && cur == s)
    && (k0 < i ==>
          0 <= k < i && |KeptFrom(s, 0, i)| == k
          && (forall t | 0 <= t < k :: cur[t] == KeptFrom(s, 0, i)[t])
          && (forall t | k <= t < i :: cur[t] == 0)
          && (forall t | i <= t < |s| :: cur[t] == s[t]))
  }

  /** What the first loop of shiftOutZeros establishes: k0 is the first
      zero among s[..n], or n. */
  predicate FirstZero(s: seq<H3Index>, n: int, k0: int)
  {
    0 <= k0 <= n <= |s| && (forall t | 0 <= t < k0 :: s[t] != 0) && (k0 < n ==> s[k0] == 0)
  }

  /** A prefix without zero words is its own KeptFrom. */
  lemma {:induction false} KeptFromAll(s: seq<H3Index>, i: int)
    requires 0 <= i <= |s| && forall t | 0 <= t < i :: s[t] != 0
    ensures KeptFrom(s, 0, i) == s[..i]
    decreases i
  {
    if i > 0 {
      KeptFromAll(s, i - 1);
      KeptFromSnoc(s, 0, i - 1);
      assert s[..i] == s[..i - 1] + [s[i - 1]];
    }
  }

  /** One iteration of the second loop of shiftOutZeros. */
  function ShiftBody(cur: seq<H3Index>, i: int, k: int): (r: (seq<H3Index>, int))
    requires 0 <= k && 0 <= i < |cur|
  {
    if cur[i] != 0 && k < i then (cur[k := cur[i]][i := 0], k + 1) else (cur, k)
  }

  /** Each iteration keeps the loop state. */
  lemma ShiftStep(s: seq<H3Index>, cur: seq<H3Index>, n: int, i: int, k: int, k0: int)
    requires FirstZero(s, n, k0) && |cur| == |s| && 0 <= i < n && Shifting(s, cur, i, k, k0)
    ensures 0 <= k
    ensures Shifting(s, ShiftBody(cur, i, k).0, i + 1, ShiftBody(cur, i, k).1, k0)
  {
    var (cur', k') := ShiftBody(cur, i, k);
    KeptFromSnoc(s, 0, i);
    if i < k0 {
    } else if i == k0 {
      KeptFromAll(s, k0);
    } else {
      assert cur[i] == s[i];
    }
  }

  /** After the loop the packed words are all of s[..n]'s nonzero words. */
  lemma ShiftDone(s: seq<H3Index>, cur: seq<H3Index>, n: int, k: int, k0: int)
    requires FirstZero(s, n, k0) && |cur| == |s| && Shifting(s, cur, n, k, k0)
    ensures 0 <= k <= n && cur[..k] == NonZero(s[..n])
    ensures forall t | k <= t < n :: cur[t] == 0
    ensures cur[n..] == s[n..]
  {
    KeptFromIsNonZero(s, 0, n);
    assert s[0..n] == s[..n];
    if n == k0 {
      KeptFromAll(s, n);
    }
  }

  /** One iteration of the second loop of shiftOutZeros: a nonzero cell
      after the packed ones moves down to k. */
  method ShiftOnce(cells: array<H3Index>, n: int, i: int, k: int, ghost s: seq<H3Index>, ghost k0: int)
    returns (i': int, k': int)
    requires FirstZero(s, n, k0) && cells.Length == |s| && 0 <= i < n && Shifting(s, cells[..], i, k, k0)
    modifies cells
    ensures i' == i + 1 && Shifting(s, cells[..], i', k', k0)
  {
    ShiftStep(s, cells[..], n, i, k, k0);
    ghost var next := ShiftBody(cells[..], i, k);
    k' := k;
    if cells[i] != 0 && k < i {
      cells[k] := cells[i];
      cells[i] := 0;
      k' := k + 1;
    }
    assert cells[..] == next.0 && k' == next.1;
    i' := i + 1;
  }

  /** shiftOutZeros: the nonzero words moved to the front in their order,
      zeros after them up to n, and their number returned. */
  method ShiftOutZeros(cells: array<H3Index>, n: int) returns (k: int)
    requires 0 <= n <= cells.Length
    modifies cells
    ensures 0 <= k <= n
    ensures cells[..k] == NonZero(old(cells[..n]))
    ensures forall t | k <= t < n :: cells[t] == 0
    ensures cells[n..] == old(cells[n..])
  {
    ghost var s := cells[..];
    k := 0;
    while k < n && cells[k] != 0
      invariant 0 <= k <= n
      invariant forall t | 0 <= t < k :: cells[t] != 0
    {
      k := k + 1;
    }
    ghost var k0 := k;
    assert FirstZero(s, n, k0);
    var i := 0;
    while i < n
      invariant 0 <= i <= n
      invariant Shifting(s, cells[..], i, k, k0)
    {
      i, k := ShiftOnce(cells, n, i, k, s, k0);
    }
    ShiftDone(s, cells[..], n, k, k0);
    assert s[..n] == old(cells[..n]);
  }

  // ------------------------------------------------------ setDescToZero

  /** A zeroed word of the original s is a descendant of a word still
      present further right in cur. */
  ghost predicate Covered(s: seq<H3Index>, cur: seq<H3Index>, n: int, t: int)
    requires n <= |s| == |cur| && 0 <= t < n
  {
    exists q | t < q < n :: cur[q] != 0 && IsDesc(s[t], cur[q])
  }

  /** The state of setDescToZero with cells i+1..n-1 done: cells up to i
      untouched, later ones kept or zeroed, zeroed ones covered by a kept
      one, p the first kept cell after i (at pi), and the kept cells after
      i canonical when s[..n] was sorted. */
  ghost predicate Descending(s: seq<H3Index>, cur: seq<H3Index>, n: int, i: int, p: H3Index, pi: int)
    requires -1 <= i < n <= |s| == |cur|
  {
    (forall t | 0 <= t <= i :: cur[t] == s[t])
    && (forall t | i < t < n :: cur[t] == s[t] || cur[t] == 0)
    && (forall t | n <= t < |s| :: cur[t] == s[t])
    && (p == 0 <==> KeptFrom(cur, i + 1, n) == [])
    && (p != 0 ==> i < pi < n && cur[pi] == p && s[pi] == p && KeptFrom(cur, i + 1, n)[0] == p)
    && (forall t {:trigger Covered(s, cur, n, t)} | i < t < n && cur[t] == 0 && s[t] != 0 :: Covered(s, cur, n, t))
    && (Ordered(s[..n]) ==> Canonical(KeptFrom(cur, i + 1, n)))
  }

  /** An iteration that leaves the array as it is and p where it is: the
      cell at i was already zero. */
  lemma DescSkipStep(s: seq<H3Index>, cur: seq<H3Index>, n: int, i: int, p: H3Index, pi: int)
    requires 0 <= i < n <= |s| == |cur| && Descending(s, cur, n, i, p, pi) && cur[i] == 0
    ensures Descending(s, cur, n, i - 1, p, pi)
  {
  }

  /** An iteration that zeroes the descendant at i of the parent p. */
  lemma DescDropStep(s: seq<H3Index>, cur: seq<H3Index>, n: int, i: int, p: H3Index, pi: int)
    requires 0 <= i < n <= |s| == |cur| && Descending(s, cur, n, i, p, pi)
    requires cur[i] != 0 && p != 0 && IsDesc(cur[i], p)
    ensures Descending(s, cur[i := 0], n, i - 1, p, pi)
  {
    var cur' := cur[i := 0];
    KeptFromSame(cur, cur', i + 1, n);
    assert KeptFrom(cur', i, n) == KeptFrom(cur, i + 1, n);
    assert Covered(s, cur', n, i) by {
      assert cur'[pi] == p;
    }
    forall t | i < t < n && cur'[t] == 0 && s[t] != 0
      ensures Covered(s, cur', n, t)
    {
      assert Covered(s, cur, n, t);
      var q :| t < q < n && cur[q] != 0 && IsDesc(s[t], cur[q]);
      assert cur'[q] == cur[q];
    }
  }

  /** An iteration that keeps the cell at i, which becomes the parent. */
  lemma DescKeepStep(s: seq<H3Index>, cur: seq<H3Index>, n: int, i: int, p: H3Index, pi: int)
    requires 0 <= i < n <= |s| == |cur| && Descending(s, cur, n, i, p, pi)
    requires cur[i] != 0 && (p != 0 ==> !IsDesc(cur[i], p))
    ensures Descending(s, cur, n, i - 1, cur[i], i)
  {
    if Ordered(s[..n]) && p != 0 {
      assert Keys(s[..n])[i] <= Keys(s[..n])[pi];
      NotDescBefore(cur[i], p);
    }
  }

  /** Each of the first n cells of cur is the cell of s or zero. */
  predicate KeptOrZeroed(s: seq<H3Index>, cur: seq<H3Index>, n: int)
    requires 0 <= n <= |s| == |cur|
  {
    forall t | 0 <= t < n :: cur[t] == s[t] || cur[t] == 0
  }

  /** Every cell of s[..n] zeroed in cur is covered by a kept cell. */
  ghost predicate AllCovered(s: seq<H3Index>, cur: seq<H3Index>, n: int)
    requires 0 <= n <= |s| == |cur|
  {
    forall t {:trigger Covered(s, cur, n, t)} | 0 <= t < n && cur[t] == 0 && s[t] != 0 :: Covered(s, cur, n, t)
  }

  /** Nothing is done before the first iteration. */
  lemma DescStart(s: seq<H3Index>, n: int)
    requires 0 <= n <= |s|
    ensures Descending(s, s, n, n - 1, 0, n)
  {
  }

  /** What remains once every cell is done. */
  lemma DescDone(s: seq<H3Index>, cur: seq<H3Index>, n: int, p: H3Index, pi: int)
    requires 0 <= n <= |s| == |cur| && Descending(s, cur, n, -1, p, pi)
    ensures KeptOrZeroed(s, cur, n) && AllCovered(s, cur, n)
    ensures Ordered(s[..n]) ==> Canonical(NonZero(cur[..n]))
    ensures cur[n..] == s[n..]
  {
    KeptFromIsNonZero(cur, 0, n);
    assert cur[0..n] == cur[..n];
  }

  /** One iteration of setDescToZero: the cell at i is skipped when zero,
      zeroed when a descendant of p, and otherwise becomes the new p. */
  method DescOnce(cells: array<H3Index>, n: int, i: int, p0: H3Index, ghost pi0: int, ghost s: seq<H3Index>)
    returns (i': int, p: H3Index, ghost pi: int)
    requires 0 <= i < n <= cells.Length == |s| && Descending(s, cells[..], n, i, p0, pi0)
    modifies cells
    ensures i' == i - 1 && Descending(s, cells[..], n, i', p, pi)
  {
    i' := i - 1;
    p, pi := p0, pi0;
    if cells[i] == 0 {
      DescSkipStep(s, cells[..], n, i, p, pi);
    } else if p == 0 {
      DescKeepStep(s, cells[..], n, i, p, pi);
      p, pi := cells[i], i;
    } else if IsDesc(cells[i], p) {
      DescDropStep(s, cells[..], n, i, p, pi);
      ghost var before := cells[..];
      cells[i] := 0;
      assert cells[..] == before[i := 0];
    } else {
      DescKeepStep(s, cells[..], n, i, p, pi);
      p, pi := cells[i], i;
    }
  }

  /** setDescToZero: walking right to left, every cell that is a
      descendant of the nearest kept cell to its right becomes 0.  Each
      cell is kept or zeroed, each zeroed cell is a descendant of a kept
      one, and the kept cells of a sorted array are canonical. */
  method SetDescToZero(cells: array<H3Index>, n: int)
    requires 0 <= n <= cells.Length
    modifies cells
    ensures KeptOrZeroed(old(cells[..]), cells[..], n)
    ensures AllCovered(old(cells[..]), cells[..], n)
    ensures Ordered(old(cells[..n])) ==> Canonical(NonZero(cells[..n]))
    ensures cells[n..] == old(cells[n..])
  {
    ghost var s := cells[..];
    var p: H3Index := 0;
    ghost var pi := n;
    var i := n - 1;
    DescStart(s, n);
    while i >= 0
      invariant -1 <= i < n
      invariant Descending(s, cells[..], n, i, p, pi)
      decreases i
    {
      i, p, pi := DescOnce(cells, n, i, p, pi, s);
    }
    DescDone(s, cells[..], n, p, pi);
    assert s[..n] == old(cells[..n]);
    assert cells[..][..n] == cells[..n];
    assert s[n..] == old(cells[n..]) && cells[..][n..] == cells[n..];
  }

  // ------------------------------------------------------ canonicalizeCells

  /** out is a canonical form of the cells of input: canonical, made of
      nonzero cells of input, and covering every nonzero cell of input by
      itself or an ancestor. */
  ghost predicate CanonicalOf(input: seq<H3Index>, out: seq<H3Index>)
  {
    Canonical(out)
    && (forall x | x in out :: x != 0 && x in input)
    && (forall x | x in input && x != 0 :: exists y | y in out :: IsDesc(x, y))
  }

  /** Every cell is its own descendant. */
  lemma DescSelf(x: H3Index)
    ensures IsDesc(x, x)
  {
    CmpCanonProps(x, x);
  }

  /** The three passes of canonicalizeCells compose: s1 is a sorted
      permutation of s0, s2 keeps or zeroes the cells of s1 with every
      zeroed cell covered, and out packs the kept cells of s2. */
  lemma CanonicalSteps(s0: seq<H3Index>, s1: seq<H3Index>, s2: seq<H3Index>, n: int, out: seq<H3Index>)
    requires 0 <= n <= |s1| == |s2| && multiset(s1[..n]) == multiset(s0)
    requires KeptOrZeroed(s1, s2, n) && AllCovered(s1, s2, n)
    requires out == NonZero(s2[..n]) && Canonical(out)
    ensures CanonicalOf(s0, out)
  {
    NonZeroMembers(s2[..n]);
    forall x | x in out
      ensures x != 0 && x in s0
    {
      var t :| 0 <= t < n && s2[t] == x;
      assert s1[..n][t] == s1[t];
      assert x in multiset(s1[..n]);
    }
    forall x | x in s0 && x != 0
      ensures exists y | y in out :: IsDesc(x, y)
    {
      assert x in multiset(s1[..n]);
      var t :| 0 <= t < n && s1[..n][t] == x;
      if s2[t] == x {
        assert s2[..n][t] == x;
        DescSelf(x);
        assert x in out;
      } else {
        assert Covered(s1, s2, n, t);
        var q :| t < q < n && s2[q] != 0 && IsDesc(s1[t], s2[q]);
        assert s2[..n][q] == s2[q];
        assert s2[q] in out;
      }
    }
  }

  /** canonicalizeCells: sort, zero the descendants, pack the rest to the
      front; the first numAfter cells are then a canonical form of the
      input and the rest of the n cells are zero. */
  method CanonicalizeCells(cells: array<H3Index>, numBefore: int) returns (e: H3Error, numAfter: int)
    requires 0 <= numBefore <= cells.Length
    modifies cells
    ensures e == E_SUCCESS && 0 <= numAfter <= numBefore
    ensures CanonicalOf(old(cells[..numBefore]), cells[..numAfter])
    ensures forall t | numAfter <= t < numBefore :: cells[t] == 0
    ensures cells[numBefore..] == old(cells[numBefore..])
  {
    ghost var s0 := cells[..numBefore];
    var _ := Low52Sort(cells, numBefore);
    ghost var s1 := cells[..];
    assert s1[..numBefore] == cells[..numBefore];
    SortedOrdered(s1[..numBefore]);
    SetDescToZero(cells, numBefore);
    ghost var s2 := cells[..];
    assert s2[..numBefore] == cells[..numBefore];
    numAfter := ShiftOutZeros(cells, numBefore);
    CanonicalSteps(s0, s1, s2, numBefore, cells[..numAfter]);
    e := E_SUCCESS;
  }

  // ------------------------------------------------------ binary search

  /** kStrategy: the probe between i and j, the first and the last cell
      first, then the middle. */
  function KStrategy(i: int, j: int, n: int): (k: int)
    requires 0 <= i < j <= n
    ensures i <= k < j
  {
    if i == 0 then 0 else if j == n then n - 1 else i + (j - i) / 2
  }

  // ------------------------------------------- prefixes of the key

  /** The base cell and the first m digits of a key, taken one digit (a
      division by 8) at a time from the 52 bits at m = 15. */
  function KeyPrefix(k: int, m: int): int
    requires 0 <= m <= 15
    decreases 15 - m
  {
    if m == 15 then k / 0x1000 else KeyPrefix(k, m + 1) / 8
  }

  /** Dropping one more digit divides by 8. */
  lemma PrefixUnitDiv(k: int, m: int)
    requires 0 <= m < 15
    ensures k / PrefixUnit(m) == (k / PrefixUnit(m + 1)) / 8
  {
    if m == 0 {
    } else if m == 1 {
    } else if m == 2 {
    } else if m == 3 {
    } else if m == 4 {
    } else if m == 5 {
    } else if m == 6 {
    } else if m == 7 {
    } else if m == 8 {
    } else if m == 9 {
    } else if m == 10 {
    } else if m == 11 {
    } else if m == 12 {
    } else if m == 13 {
    } else {
    }
  }

  /** The two ways of cutting a key down to m digits agree. */
  lemma {:induction false} PrefixBridge(k: int, m: int)
    requires 0 <= m <= 15
    ensures k / PrefixUnit(m) == KeyPrefix(k, m)
    decreases 15 - m
  {
    if m < 15 {
      PrefixBridge(k, m + 1);
      PrefixUnitDiv(k, m);
    }
  }

  /** Agreeing on m digits, in either form. */
  lemma SamePrefixBridge(ka: int, kb: int, m: int)
    requires 0 <= m <= 15
    ensures SamePrefix(ka, kb, m) <==> KeyPrefix(ka, m) == KeyPrefix(kb, m)
  {
    PrefixBridge(ka, m);
    PrefixBridge(kb, m);
  }

  /** A larger key has a prefix no smaller. */
  lemma {:induction false} PrefixMono(ka: int, kb: int, m: int)
    requires ka <= kb && 0 <= m <= 15
    ensures KeyPrefix(ka, m) <= KeyPrefix(kb, m)
    decreases 15 - m
  {
    if m < 15 {
      PrefixMono(ka, kb, m + 1);
    }
  }

  /** Agreeing on m digits means agreeing on fewer. */
  lemma {:induction false} CoarsenPrefix(ka: int, kb: int, m: int, m': int)
    requires 0 <= m' <= m <= 15 && KeyPrefix(ka, m) == KeyPrefix(kb, m)
    ensures KeyPrefix(ka, m') == KeyPrefix(kb, m')
    decreases m - m'
  {
    if m' < m {
      CoarsenPrefix(ka, kb, m - 1, m');
    }
  }

  /** Agreeing on m digits means agreeing on fewer. */
  lemma Coarsen(ka: int, kb: int, m: int, m': int)
    requires 0 <= m' <= m <= 15 && SamePrefix(ka, kb, m)
    ensures SamePrefix(ka, kb, m')
  {
    SamePrefixBridge(ka, kb, m);
    SamePrefixBridge(ka, kb, m');
    CoarsenPrefix(ka, kb, m, m');
  }

  /** A key between two keys with a common prefix has that prefix. */
  lemma Sandwich(ka: int, kx: int, kb: int, m: int)
    requires ka <= kx <= kb && 0 <= m <= 15 && SamePrefix(ka, kb, m)
    ensures SamePrefix(ka, kx, m) && SamePrefix(kx, kb, m)
  {
    SamePrefixBridge(ka, kb, m);
    SamePrefixBridge(ka, kx, m);
    SamePrefixBridge(kx, kb, m);
    PrefixMono(ka, kx, m);
    PrefixMono(kx, kb, m);
  }

  /** Relatedness passes through a middle key at least as fine as the
      coarser of the outer two. */
  lemma RelatedThrough(kp: int, kh: int, kq: int, rp: int, rh: int, rq: int)
    requires 0 <= rp <= 15 && 0 <= rh <= 15 && 0 <= rq <= 15
    requires RelatedKeys(kp, kh, rp, rh) && RelatedKeys(kh, kq, rh, rq) && rh >= Min(rp, rq)
    ensures RelatedKeys(kp, kq, rp, rq)
  {
    Coarsen(kp, kh, Min(rp, rh), Min(rp, rq));
    Coarsen(kh, kq, Min(rh, rq), Min(rp, rq));
  }

  /** Of three increasing keys, the middle one is related to the outer one
      of the coarser resolution when the outer two are related. */
  lemma RelatedBetween(ka: int, kc: int, kb: int, ra: int, rc: int, rb: int)
    requires 0 <= ra <= 15 && 0 <= rc <= 15 && 0 <= rb <= 15
    requires ka <= kc <= kb && RelatedKeys(ka, kb, ra, rb)
    ensures rb <= ra ==> RelatedKeys(kc, kb, rc, rb)
    ensures ra <= rb ==> RelatedKeys(ka, kc, ra, rc)
  {
    var m := Min(ra, rb);
    Sandwich(ka, kc, kb, m);
    if rb <= ra {
      Coarsen(kc, kb, m, Min(rc, rb));
    }
    if ra <= rb {
      Coarsen(ka, kc, m, Min(ra, rc));
    }
  }

  /** A key ordered before an unrelated key p and related to a later key
      q makes p and q related. */
  lemma RelatedPastGap(kh: int, kp: int, kq: int, rh: int, rp: int, rq: int)
    requires 0 <= rh <= 15 && 0 <= rp <= 15 && 0 <= rq <= 15
    requires kh < kp < kq && !RelatedKeys(kh, kp, rh, rp) && RelatedKeys(kh, kq, rh, rq)
    ensures RelatedKeys(kp, kq, rp, rq)
  {
    var a, b := Min(rh, rp), Min(rh, rq);
    if b >= a {
      Coarsen(kh, kq, b, a);
      Sandwich(kh, kp, kq, a);
      assert false;
    } else {
      Sandwich(kh, kp, kq, b);
      Coarsen(kp, kq, b, Min(rp, rq));
    }
  }

  /** The digits of a key below resolution r are all 7. */
  predicate TailSevensKey(k: int, r: int)
    requires 0 <= r <= 15
  {
    forall j | r < j <= 15 :: KeyPrefix(k, j) % 8 == 7
  }

  /** The digit of a key at resolution r is not 7. */
  predicate LastDigitNot7Key(k: int, r: int)
    requires 0 <= r <= 15
  {
    r == 0 || KeyPrefix(k, r) % 8 != 7
  }

  /** Below a common prefix, a key whose further digits are all 7 is the
      largest key with that prefix: a key no smaller agrees with it on
      every further digit. */
  lemma {:induction false} FollowSevens(kh: int, kq: int, m: int, r: int)
    requires kh <= kq && 0 <= m <= r <= 15 && KeyPrefix(kh, m) == KeyPrefix(kq, m) && TailSevensKey(kh, m)
    ensures KeyPrefix(kh, r) == KeyPrefix(kq, r)
    decreases r - m
  {
    if m < r {
      PrefixMono(kh, kq, m + 1);
      assert KeyPrefix(kh, m + 1) % 8 == 7;
      FollowSevens(kh, kq, m + 1, r);
    }
  }

  /** A cell-shaped key related to p and q, no larger than q's key, and not
      coarser than both, relates p and q; it cannot be coarser than both
      when q's last digit is not 7. */
  lemma RelatedAncestor(kp: int, kh: int, kq: int, rp: int, rh: int, rq: int)
    requires 0 <= rp <= 15 && 0 <= rh <= 15 && 0 <= rq <= 15
    requires RelatedKeys(kp, kh, rp, rh) && RelatedKeys(kh, kq, rh, rq) && kh <= kq
    requires TailSevensKey(kh, rh) && LastDigitNot7Key(kq, rq)
    ensures RelatedKeys(kp, kq, rp, rq)
  {
    if rh >= Min(rp, rq) {
      RelatedThrough(kp, kh, kq, rp, rh, rq);
    } else {
      SamePrefixBridge(kh, kq, rh);
      FollowSevens(kh, kq, rh, rq);
      assert false;
    }
  }

  /** The resolutions of a sequence of cells. */
  function ResList(s: seq<H3Index>): (r: seq<int>)
    ensures |r| == |s| && forall i {:trigger r[i]} | 0 <= i < |s| :: r[i] == ResBits(s[i])
  {
    seq(|s|, i requires 0 <= i < |s| => ResBits(s[i]))
  }

  /** Canonical, stated on keys and resolutions: keys increase and
      neighbours are unrelated. */
  predicate CanonicalKeys(ks: seq<int>, rs: seq<int>)
  {
    |ks| == |rs| && (forall i | 0 <= i < |rs| :: 0 <= rs[i] <= 15)
    && (forall i | 1 <= i < |ks| :: ks[i - 1] < ks[i] && !RelatedKeys(ks[i - 1], ks[i], rs[i - 1], rs[i]))
  }

  /** A canonical array has canonical keys. */
  lemma CanonicalAsKeys(s: seq<H3Index>)
    requires Canonical(s)
    ensures CanonicalKeys(Keys(s), ResList(s))
  {
    var ks, rs := Keys(s), ResList(s);
    forall i | 1 <= i < |ks|
      ensures ks[i - 1] < ks[i] && !RelatedKeys(ks[i - 1], ks[i], rs[i - 1], rs[i])
    {
      CmpCanonProps(s[i - 1], s[i]);
      RelatedIsKeys(s[i - 1], s[i]);
    }
  }

  /** Keys strictly increase along canonical keys. */
  lemma {:induction false} KeysIncreasing(ks: seq<int>, rs: seq<int>, i: int, j: int)
    requires CanonicalKeys(ks, rs) && 0 <= i < j < |ks|
    ensures ks[i] < ks[j]
    decreases j - i
  {
    if i + 1 < j {
      KeysIncreasing(ks, rs, i + 1, j);
    }
  }

  /** No two keys of a canonical array are related, adjacent or not: a
      common prefix would also be shared by a neighbour of one of them. */
  lemma KeysUnrelated(ks: seq<int>, rs: seq<int>, k: int, t: int)
    requires CanonicalKeys(ks, rs) && 0 <= k < t < |ks|
    ensures !RelatedKeys(ks[k], ks[t], rs[k], rs[t])
  {
    if RelatedKeys(ks[k], ks[t], rs[k], rs[t]) {
      if rs[t] <= rs[k] {
        if k < t - 1 {
          KeysIncreasing(ks, rs, k, t - 1);
        }
        RelatedBetween(ks[k], ks[t - 1], ks[t], rs[k], rs[t - 1], rs[t]);
      } else {
        if k + 1 < t {
          KeysIncreasing(ks, rs, k + 1, t);
        }
        RelatedBetween(ks[k], ks[k + 1], ks[t], rs[k], rs[k + 1], rs[t]);
      }
    }
  }

  /** A descendant is related and has a key no larger. */
  lemma DescRelated(c: H3Index, p: H3Index)
    requires IsDesc(c, p)
    ensures RelatedKeys(Key(c), Key(p), ResBits(c), ResBits(p)) && Key(c) <= Key(p)
  {
    CmpCanonProps(c, p);
    RelatedIsKeys(c, p);
  }

  /** Descent from the cells of s, stated on their keys. */
  lemma DescAsKeys(s: seq<H3Index>, h: H3Index)
    ensures forall t | 0 <= t < |s| :: IsDesc(h, s[t]) ==>
      RelatedKeys(Key(h), Keys(s)[t], ResBits(h), ResList(s)[t]) && Key(h) <= Keys(s)[t]
  {
    forall t | 0 <= t < |s| && IsDesc(h, s[t])
      ensures RelatedKeys(Key(h), Keys(s)[t], ResBits(h), ResList(s)[t]) && Key(h) <= Keys(s)[t]
    {
      DescRelated(h, s[t]);
    }
  }

  /** No two cells of a canonical array are related. */
  lemma CanonicalUnrelated(s: seq<H3Index>, k: int, t: int)
    requires Canonical(s) && 0 <= k < t < |s|
    ensures !Related(s[k], s[t])
  {
    CanonicalAsKeys(s);
    KeysUnrelated(Keys(s), ResList(s), k, t);
    RelatedIsKeys(s[k], s[t]);
  }

  /** A key ordered before an unrelated key of a canonical array is
      related to no later key with a key no smaller than its own. */
  lemma KeysLeft(ks: seq<int>, rs: seq<int>, kh: int, rh: int, k: int)
    requires CanonicalKeys(ks, rs) && 0 <= k < |ks| && 0 <= rh <= 15
    requires kh < ks[k] && !RelatedKeys(kh, ks[k], rh, rs[k])
    ensures forall t | k <= t < |ks| :: !(RelatedKeys(kh, ks[t], rh, rs[t]) && kh <= ks[t])
  {
    forall t | k < t < |ks|
      ensures !(RelatedKeys(kh, ks[t], rh, rs[t]) && kh <= ks[t])
    {
      if RelatedKeys(kh, ks[t], rh, rs[t]) {
        KeysIncreasing(ks, rs, k, t);
        RelatedPastGap(kh, ks[k], ks[t], rh, rs[k], rs[t]);
        KeysUnrelated(ks, rs, k, t);
      }
    }
  }

  /** A key ordered after a key of a canonical array is no larger than
      no earlier key. */
  lemma KeysRight(ks: seq<int>, rs: seq<int>, kh: int, k: int)
    requires CanonicalKeys(ks, rs) && 0 <= k < |ks| && kh > ks[k]
    ensures forall t | 0 <= t <= k :: kh > ks[t]
  {
    forall t | 0 <= t < k
      ensures kh > ks[t]
    {
      KeysIncreasing(ks, rs, t, k);
    }
  }

  /** A cell-shaped key related to, and after, a key of a canonical array
      of cell-shaped keys is related to no key no smaller than its own. */
  lemma KeysAncestor(ks: seq<int>, rs: seq<int>, kh: int, rh: int, k: int)
    requires CanonicalKeys(ks, rs) && 0 <= k < |ks| && 0 <= rh <= 15
    requires kh > ks[k] && RelatedKeys(kh, ks[k], rh, rs[k]) && TailSevensKey(kh, rh)
    requires forall t | 0 <= t < |ks| :: LastDigitNot7Key(ks[t], rs[t])
    ensures forall t | 0 <= t < |ks| :: !(RelatedKeys(kh, ks[t], rh, rs[t]) && kh <= ks[t])
  {
    KeysRight(ks, rs, kh, k);
    forall t | k < t < |ks|
      ensures !(RelatedKeys(kh, ks[t], rh, rs[t]) && kh <= ks[t])
    {
      if RelatedKeys(kh, ks[t], rh, rs[t]) && kh <= ks[t] {
        RelatedAncestor(ks[k], kh, ks[t], rs[k], rh, rs[t]);
        KeysUnrelated(ks, rs, k, t);
      }
    }
  }

  /** A probe that orders h before an unrelated cell leaves every cell
      h descends from to the left of the probe. */
  lemma SearchLeft(s: seq<H3Index>, h: H3Index, k: int)
    requires Canonical(s) && 0 <= k < |s| && CmpCanon(h, s[k]) == -2
    ensures forall t | k <= t < |s| :: !IsDesc(h, s[t])
  {
    CanonicalAsKeys(s);
    CmpCanonProps(h, s[k]);
    RelatedIsKeys(h, s[k]);
    KeysLeft(Keys(s), ResList(s), Key(h), ResBits(h), k);
    DescAsKeys(s, h);
  }

  /** A probe that orders h after an unrelated cell leaves every cell h
      descends from to the right of the probe. */
  lemma SearchRight(s: seq<H3Index>, h: H3Index, k: int)
    requires Canonical(s) && 0 <= k < |s| && CmpCanon(h, s[k]) == 2
    ensures forall t | 0 <= t <= k :: !IsDesc(h, s[t])
  {
    CanonicalAsKeys(s);
    CmpCanonProps(h, s[k]);
    KeysRight(Keys(s), ResList(s), Key(h), k);
    DescAsKeys(s, h);
  }

  /** The digits of x below its resolution are all 7, as in any cell. */
  predicate TailSevens(x: H3Index)
  {
    TailSevensKey(Key(x), ResBits(x))
  }

  /** The digit at the resolution of x is not 7, as in any cell. */
  predicate LastDigitNot7(x: H3Index)
  {
    LastDigitNot7Key(Key(x), ResBits(x))
  }

  /** Cell-shaped words have cell-shaped keys. */
  lemma ShapesAsKeys(s: seq<H3Index>)
    requires forall t | 0 <= t < |s| :: LastDigitNot7(s[t])
    ensures forall t | 0 <= t < |s| :: LastDigitNot7Key(Keys(s)[t], ResList(s)[t])
  {
    forall t | 0 <= t < |s|
      ensures LastDigitNot7Key(Keys(s)[t], ResList(s)[t])
    {
      assert LastDigitNot7(s[t]);
    }
  }

  /** When h is shaped like a cell and is an ancestor of a cell of a
      canonical array whose cells are shaped like cells, h descends from
      none of them: the early exit of the search is sound. */
  lemma SearchAncestor(s: seq<H3Index>, h: H3Index, k: int)
    requires Canonical(s) && 0 <= k < |s| && CmpCanon(h, s[k]) == 1
    requires TailSevens(h) && forall t | 0 <= t < |s| :: LastDigitNot7(s[t])
    ensures forall t | 0 <= t < |s| :: !IsDesc(h, s[t])
  {
    CanonicalAsKeys(s);
    ShapesAsKeys(s);
    CmpCanonProps(h, s[k]);
    RelatedIsKeys(h, s[k]);
    KeysAncestor(Keys(s), ResList(s), Key(h), ResBits(h), k);
    DescAsKeys(s, h);
  }

  /** lower52Bsearch_rich: true only when h is a descendant of (or equal to)
      one of the first n cells; false on an empty array; and, on a
      canonical array of cell-shaped words and a cell-shaped h, true
      whenever h descends from one of them. */
  method Lower52BsearchRich(cells: array<H3Index>, n: int, h: H3Index) returns (found: bool)
    requires n <= cells.Length
    ensures found ==> exists k | 0 <= k < n :: IsDesc(h, cells[k])
    ensures n <= 0 ==> !found
    ensures (0 <= n && Canonical(cells[..n]) && TailSevens(h) && (forall t | 0 <= t < n :: LastDigitNot7(cells[t]))
             && (exists k | 0 <= k < n :: IsDesc(h, cells[k]))) ==> found
  {
    ghost var s := if 0 <= n then cells[..n] else [];
    ghost var ok := 0 <= n && Canonical(s);
    assert forall t | 0 <= t < n :: s[t] == cells[t];
    var i, j := 0, n;
    while i < j
      invariant 0 <= i && j <= n
      invariant ok ==> forall t | 0 <= t < n && !(i <= t < j) :: !IsDesc(h, s[t])
      decreases j - i
    {
      var k := KStrategy(i, j, n);
      var cmp := CmpCanon(h, cells[k]);
      if cmp == -1 || cmp == 0 {
        return true;
      } else if cmp == -2 {
        if ok {
          SearchLeft(s, h, k);
        }
        j := k;
      } else if cmp == 2 {
        if ok {
          SearchRight(s, h, k);
        }
        i := k + 1;
      } else {
        if ok && TailSevens(h) && (forall t | 0 <= t < n :: LastDigitNot7(cells[t])) {
          SearchAncestor(s, h, k);
        }
        return false;
      }
    }
    return false;
  }

  /** Without the cell shape the early exit is wrong: h (base cell 0,
      resolution 1, digits 0 and 1, the rest 0) is ordered after p (base
      cell 0, resolution 2, digits 0 and 0), so the first probe gives up,
      although h is a related word below q (resolution 2, digits 0 and 2)
      of the canonical array [p, q]. */
  lemma EarlyExitNeedsCellShape()
    ensures CmpCanon(0x0010_0080_0000_0000, 0x0020_007F_FFFF_FFFF) == 1
    ensures IsDesc(0x0010_0080_0000_0000, 0x0020_017F_FFFF_FFFF)
    ensures Canonical([0x0020_007F_FFFF_FFFF as H3Index, 0x0020_017F_FFFF_FFFF])
    ensures !TailSevens(0x0010_0080_0000_0000)
  {
    var h, p, q: H3Index := 0x0010_0080_0000_0000, 0x0020_007F_FFFF_FFFF, 0x0020_017F_FFFF_FFFF;
    assert Key(h) == 0x8_0000_0000_0000 && ResBits(h) == 1;
    assert Key(p) == 0x7_FFFF_FFFF_F000 && ResBits(p) == 2;
    assert Key(q) == 0x17_FFFF_FFFF_F000 && ResBits(q) == 2;
    PrefixBridge(Key(h), 2);
    assert KeyPrefix(Key(h), 2) == 1;
  }
}
