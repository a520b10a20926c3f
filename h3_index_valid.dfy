// isValidCell of h3Index.c: the early exits in source order, the pentagon
// deleted-subsequence test built on _firstOneIndex, and the proof that the
// whole check accepts exactly the words whose fields describe a cell.

module H3IndexValid {
  import opened H3Api
  import opened H3IndexBits
  import opened H3IndexFields
  import opened H3IndexMasks

  /** The static table isBaseCellPentagonArr of h3Index.c: the twelve
      pentagon base cells among 0..127. */
  predicate IsBaseCellPentagonArr(bc: int)
    requires 0 <= bc < 128
  {
    bc == 4 || bc == 14 || bc == 24 || bc == 38 || bc == 49 || bc == 58
    || bc == 63 || bc == 72 || bc == 83 || bc == 97 || bc == 107 || bc == 117
  }

  /** Position (0 = lowest bit) of the highest set bit among the three bits
      of a nonzero digit. */
  function TopBit(d: bv3): int
  {
    if d >= 4 then 2 else if d >= 2 then 1 else 0
  }

  /** The position of the highest set bit of a word whose set bits lie in
      digits r..15, or -1 when they are all zero: the first nonzero digit
      from the top decides it. */
  function FirstOneFrom(x: H3Index, r: int): int
    requires 1 <= r <= MAX_H3_RES + 1
    decreases MAX_H3_RES + 1 - r
  {
    if r == MAX_H3_RES + 1 then -1
    else if IndexDigitBits(x, r) != 0 then 3 * (MAX_H3_RES - r) + TopBit(IndexDigitBits(x, r))
    else FirstOneFrom(x, r + 1)
  }

  /** _firstOneIndex: 63 minus the count of leading zeros, for a nonzero
      word that holds digits only. */
  function FirstOneIndex(x: H3Index): int
    requires x != 0 && x >> 45 == 0
  {
    FirstOneFrom(x, 1)
  }

  /** A pentagon base cell whose first nonzero digit is 1 (the deleted
      k-axes subsequence): the highest set digit bit sits at a multiple of 3. */
  predicate HasDeletedSubsequence(h: H3Index, bc: int)
    requires 0 <= bc < 128
  {
    if IsBaseCellPentagonArr(bc) then
      var x := (h << 19) >> 19;
      if x == 0 then false else FirstOneIndex(x) % 3 == 0
    else
      false
  }

  lemma DecodeDigitsOnly(h: H3Index)
    ensures Decode((h << 19) >> 19) == Layout(0, 0, 0, 0, 0, Decode(h).digits)
    ensures ((h << 19) >> 19) >> 45 == 0
  {
  }

  lemma {:induction false} LeadingNonZeroOfZeros(ds: seq<int>, i: int, n: int)
    requires 0 <= i <= n <= |ds|
    requires forall j | i <= j < n :: ds[j] == 0
    ensures LeadingNonZeroFrom(ds, i, n) == 0
    decreases n - i
  {
    if i < n {
      LeadingNonZeroOfZeros(ds, i + 1, n);
    }
  }

  lemma TopBitDigit(d: bv3)
    requires d != 0
    ensures DigitValue(d) != 0
    ensures TopBit(d) == 0 <==> DigitValue(d) == 1
    ensures 0 <= TopBit(d) <= 2
  {
  }

  lemma {:induction false} FirstOneFromView(x: H3Index, r: int)
    requires 1 <= r <= MAX_H3_RES + 1
    ensures FirstOneFrom(x, r) % 3 == 0 <==> LeadingNonZeroFrom(DigitsOf(x), r - 1, MAX_H3_RES) == K_AXES_DIGIT
    decreases MAX_H3_RES + 1 - r
  {
    if r <= MAX_H3_RES {
      var d := IndexDigitBits(x, r);
      GetIndexDigitAt(x, r);
      if d != 0 {
        TopBitDigit(d);
        assert (3 * (MAX_H3_RES - r) + TopBit(d)) % 3 == TopBit(d);
      } else {
        FirstOneFromView(x, r + 1);
      }
    }
  }

  /** _hasDeletedSubsequence: a pentagon base cell whose first nonzero digit
      (over all fifteen) is K_AXES_DIGIT. */
  lemma HasDeletedSubsequenceView(h: H3Index, bc: int)
    requires 0 <= bc < 128
    ensures HasDeletedSubsequence(h, bc) <==>
      (IsBaseCellPentagonArr(bc) && LeadingNonZeroFrom(DigitsOf(h), 0, MAX_H3_RES) == K_AXES_DIGIT)
  {
    var x := (h << 19) >> 19;
    DecodeDigitsOnly(h);
    DigitsKept(h, x);
    if x == 0 {
      ZeroDigits();
      LeadingNonZeroOfZeros(DigitsOf(x), 0, MAX_H3_RES);
    } else {
      FirstOneFromView(x, 1);
    }
  }

  /** isValidCell, in the order of its early exits. */
  predicate IsValidCell(h: H3Index)
  {
    if !HasGoodTopBits(h) then false
    else
      var res := GetResolution(h);
      var bc := GetBaseCell(h);
      if bc >= NUM_BASE_CELLS then false
      else if HasAny7UptoRes(h, res) then false
      else if !HasAll7AfterRes(h, res) then false
      else if HasDeletedSubsequence(h, bc) then false
      else true
  }

  /** A valid cell, stated field by field. */
  predicate IsValidCellView(v: View)
    requires WellFormedView(v)
  {
    v.highBit == 0 && v.mode == H3_CELL_MODE && v.reserved == 0 && v.baseCell < NUM_BASE_CELLS
    && (forall i | 0 <= i < v.res :: v.digits[i] != INVALID_DIGIT)
    && (forall i | v.res <= i < MAX_H3_RES :: v.digits[i] == INVALID_DIGIT)
    && !(IsBaseCellPentagonArr(v.baseCell) && LeadingNonZeroFrom(v.digits, 0, MAX_H3_RES) == K_AXES_DIGIT)
  }

  /** isValidCell accepts exactly the words whose fields make a valid cell. */
  lemma IsValidCellSpec(h: H3Index)
    ensures IsValidCell(h) <==> IsValidCellView(ViewOf(h))
  {
    var v := ViewOf(h);
    GoodTopBitsView(h);
    FieldsOfView(h);
    HasAny7UptoResView(h, v.res);
    HasAll7AfterResView(h, v.res);
    HasDeletedSubsequenceView(h, v.baseCell);
  }
}
