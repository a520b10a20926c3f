// The field accessors of h3Index.h at the level the rest of the library
// uses them: integers in, integers out.  The whole word is summarised by
// `ViewOf`, which is injective, and each setter is shown to change exactly
// its own field of the view.

module H3IndexFields {
  import opened H3Api
  import opened H3IndexBits

  /** An index word with every field as an integer; digit r at digits[r - 1]. */
  datatype View = View(highBit: int, mode: int, reserved: int, res: int, baseCell: int, digits: seq<int>)

  /** Every field within the width of its bit field. */
  predicate WellFormedView(v: View)
  {
    0 <= v.highBit < 2 && 0 <= v.mode < 16 && 0 <= v.reserved < 8 && 0 <= v.res < 16
    && 0 <= v.baseCell < 128 && |v.digits| == MAX_H3_RES
    && forall i | 0 <= i < |v.digits| :: IsDigit(v.digits[i])
  }

  /** The fifteen digits of h, digit r at index r - 1. */
  function DigitsOf(h: H3Index): (ds: seq<int>)
    ensures |ds| == MAX_H3_RES
    ensures forall i | 0 <= i < MAX_H3_RES :: IsDigit(ds[i])
  {
    seq(MAX_H3_RES, i requires 0 <= i < MAX_H3_RES => GetIndexDigit(h, i + 1))
  }

  /** The fields of an index word. */
  function ViewOf(h: H3Index): (v: View)
    ensures WellFormedView(v)
  {
    View(GetHighBit(h), GetMode(h), GetReservedBits(h), GetResolution(h), GetBaseCell(h), DigitsOf(h))
  }

  /** Two words agreeing on every digit have the same digit sequence. */
  lemma DigitsOfEqual(a: H3Index, b: H3Index)
    requires forall q | 1 <= q <= MAX_H3_RES :: GetIndexDigit(a, q) == GetIndexDigit(b, q)
    ensures DigitsOf(a) == DigitsOf(b)
  {
    assert forall i | 0 <= i < MAX_H3_RES :: DigitsOf(a)[i] == GetIndexDigit(b, i + 1);
  }

  /** Two indexes with the same fields are the same index. */
  lemma ViewInjective(a: H3Index, b: H3Index)
    requires ViewOf(a) == ViewOf(b)
    ensures a == b
  {
    var la, lb := Decode(a), Decode(b);
    forall q | 1 <= q <= MAX_H3_RES
      ensures DigitAt(la.digits, q) == DigitAt(lb.digits, q)
    {
      GetIndexDigitView(a, q);
      GetIndexDigitView(b, q);
      IndexDigitDecode(a, q);
      IndexDigitDecode(b, q);
      DigitValueInjective(IndexDigitBits(a, q), IndexDigitBits(b, q));
    }
    DigitsAtInjective(la.digits, lb.digits);
    Conv1Bits(la.highBit, lb.highBit);
    Conv4Bits(la.mode, lb.mode);
    Conv3Bits(la.reserved, lb.reserved);
    Conv4Bits(la.res, lb.res);
    Conv7Bits(la.baseCell, lb.baseCell);
    DecodeInjective(a, b);
  }

  lemma DigitsAtInjective(a: Digits, b: Digits)
    requires forall q | 1 <= q <= MAX_H3_RES :: DigitAt(a, q) == DigitAt(b, q)
    ensures a == b
  {
    assert DigitAt(a, 1) == DigitAt(b, 1);
    assert DigitAt(a, 2) == DigitAt(b, 2);
    assert DigitAt(a, 3) == DigitAt(b, 3);
    assert DigitAt(a, 4) == DigitAt(b, 4);
    assert DigitAt(a, 5) == DigitAt(b, 5);
    assert DigitAt(a, 6) == DigitAt(b, 6);
    assert DigitAt(a, 7) == DigitAt(b, 7);
    assert DigitAt(a, 8) == DigitAt(b, 8);
    assert DigitAt(a, 9) == DigitAt(b, 9);
    assert DigitAt(a, 10) == DigitAt(b, 10);
    assert DigitAt(a, 11) == DigitAt(b, 11);
    assert DigitAt(a, 12) == DigitAt(b, 12);
    assert DigitAt(a, 13) == DigitAt(b, 13);
    assert DigitAt(a, 14) == DigitAt(b, 14);
    assert DigitAt(a, 15) == DigitAt(b, 15);
  }

  lemma Conv1Bits(a: bv1, b: bv1) requires a as int == b as int ensures a == b {}
  lemma Conv3Bits(a: bv3, b: bv3) requires a as int == b as int ensures a == b {}
  lemma Conv4Bits(a: bv4, b: bv4) requires a as int == b as int ensures a == b {}
  lemma Conv7Bits(a: bv7, b: bv7) requires a as int == b as int ensures a == b {}

  // ------------------------------------------------------- the accessors

  /** H3_GET_HIGH_BIT */
  function GetHighBit(h: H3Index): int { HighBitBits(h) as int }
  /** H3_GET_MODE */
  function GetMode(h: H3Index): int { ModeBits(h) as int }
  /** H3_GET_RESERVED_BITS */
  function GetReservedBits(h: H3Index): int { ReservedBits(h) as int }
  /** H3_GET_RESOLUTION */
  function GetResolution(h: H3Index): int { ResolutionBits(h) as int }
  /** H3_GET_BASE_CELL */
  function GetBaseCell(h: H3Index): int { BaseCellBits(h) as int }

  /** H3_GET_INDEX_DIGIT */
  function GetIndexDigit(h: H3Index, r: int): int
    requires 1 <= r <= MAX_H3_RES
  {
    DigitValue(IndexDigitBits(h, r))
  }

  /** H3_SET_HIGH_BIT */
  function SetHighBit(h: H3Index, v: int): H3Index
    requires 0 <= v < 2
  {
    WithHighBitBits(h, v as bv1)
  }

  /** H3_SET_MODE */
  function SetMode(h: H3Index, v: int): H3Index
    requires 0 <= v < 16
  {
    WithModeBits(h, v as bv4)
  }

  /** H3_SET_RESERVED_BITS */
  function SetReservedBits(h: H3Index, v: int): H3Index
    requires 0 <= v < 8
  {
    WithReservedBits(h, v as bv3)
  }

  /** H3_SET_RESOLUTION */
  function SetResolution(h: H3Index, v: int): H3Index
    requires 0 <= v < 16
  {
    WithResolutionBits(h, v as bv4)
  }

  /** H3_SET_BASE_CELL */
  function SetBaseCell(h: H3Index, v: int): H3Index
    requires 0 <= v < 128
  {
    WithBaseCellBits(h, v as bv7)
  }

  /** H3_SET_INDEX_DIGIT */
  function SetIndexDigit(h: H3Index, r: int, v: int): H3Index
    requires 1 <= r <= MAX_H3_RES && IsDigit(v)
  {
    WithIndexDigitBits(h, r, DigitWord(v))
  }

  // ------------------------------------------------ what the accessors mean

  lemma FieldsOfView(h: H3Index)
    ensures GetHighBit(h) == ViewOf(h).highBit
    ensures GetMode(h) == ViewOf(h).mode
    ensures GetReservedBits(h) == ViewOf(h).reserved
    ensures GetResolution(h) == ViewOf(h).res
    ensures GetBaseCell(h) == ViewOf(h).baseCell
  {
  }

  lemma GetIndexDigitAt(h: H3Index, r: int)
    requires 1 <= r <= MAX_H3_RES
    ensures GetIndexDigit(h, r) == DigitsOf(h)[r - 1]
  {
  }

  lemma GetIndexDigitView(h: H3Index, r: int)
    requires 1 <= r <= MAX_H3_RES
    ensures GetIndexDigit(h, r) == ViewOf(h).digits[r - 1]
  {
    GetIndexDigitAt(h, r);
  }

  /** Setting a field that is not a digit keeps every digit. */
  lemma DigitsKept(h: H3Index, h': H3Index)
    requires Decode(h').digits == Decode(h).digits
    ensures DigitsOf(h') == DigitsOf(h)
  {
    forall q | 1 <= q <= MAX_H3_RES
      ensures GetIndexDigit(h', q) == GetIndexDigit(h, q)
    {
      IndexDigitDecode(h, q);
      IndexDigitDecode(h', q);
    }
    DigitsOfEqual(h, h');
  }

  lemma SetHighBitView(h: H3Index, v: int)
    requires 0 <= v < 2
    ensures ViewOf(SetHighBit(h, v)) == ViewOf(h).(highBit := v)
  {
    DecodeWithHighBit(h, v as bv1);
    DigitsKept(h, SetHighBit(h, v));
    Conv1(v);
  }

  lemma SetModeView(h: H3Index, v: int)
    requires 0 <= v < 16
    ensures ViewOf(SetMode(h, v)) == ViewOf(h).(mode := v)
  {
    DecodeWithMode(h, v as bv4);
    DigitsKept(h, SetMode(h, v));
    Conv4(v);
  }

  lemma SetReservedBitsView(h: H3Index, v: int)
    requires 0 <= v < 8
    ensures ViewOf(SetReservedBits(h, v)) == ViewOf(h).(reserved := v)
  {
    DecodeWithReserved(h, v as bv3);
    DigitsKept(h, SetReservedBits(h, v));
    Conv3(v);
  }

  lemma SetResolutionView(h: H3Index, v: int)
    requires 0 <= v < 16
    ensures ViewOf(SetResolution(h, v)) == ViewOf(h).(res := v)
  {
    DecodeWithResolution(h, v as bv4);
    DigitsKept(h, SetResolution(h, v));
    Conv4(v);
  }

  lemma SetBaseCellView(h: H3Index, v: int)
    requires 0 <= v < 128
    ensures ViewOf(SetBaseCell(h, v)) == ViewOf(h).(baseCell := v)
  {
    DecodeWithBaseCell(h, v as bv7);
    DigitsKept(h, SetBaseCell(h, v));
    Conv7(v);
  }

  lemma SetIndexDigitView(h: H3Index, r: int, v: int)
    requires 1 <= r <= MAX_H3_RES && IsDigit(v)
    ensures ViewOf(SetIndexDigit(h, r, v)) == ViewOf(h).(digits := ViewOf(h).digits[r - 1 := v])
  {
    var h' := SetIndexDigit(h, r, v);
    var ds, ds' := ViewOf(h).digits, ViewOf(h').digits;
    DecodeWithIndexDigit(h, r, DigitWord(v));
    forall i | 0 <= i < MAX_H3_RES
      ensures ds'[i] == if i == r - 1 then v else ds[i]
    {
      IndexDigitWith(h, r, i + 1, DigitWord(v));
      GetIndexDigitView(h, i + 1);
      GetIndexDigitView(h', i + 1);
    }
    assert ds' == ds[r - 1 := v];
  }

  /** The first nonzero digit among ds[i..n], or CENTER_DIGIT when there is none. */
  function LeadingNonZeroFrom(ds: seq<int>, i: int, n: int): int
    requires 0 <= i <= n <= |ds|
    decreases n - i
  {
    if i == n then CENTER_DIGIT
    else if ds[i] != CENTER_DIGIT then ds[i]
    else LeadingNonZeroFrom(ds, i + 1, n)
  }

  /** The zero word has every digit 0. */
  lemma ZeroDigits()
    ensures forall i | 0 <= i < MAX_H3_RES :: DigitsOf(0)[i] == CENTER_DIGIT
  {
    forall i | 0 <= i < MAX_H3_RES
      ensures DigitsOf(0)[i] == CENTER_DIGIT
    {
      ZeroDigitBits(i + 1);
    }
  }

  /** H3_INIT: every field zero except the fifteen digits, all 7. */
  lemma InitView()
    ensures ViewOf(H3_INIT) == View(0, 0, 0, 0, 0, ViewOf(H3_INIT).digits)
    ensures forall i | 0 <= i < MAX_H3_RES :: ViewOf(H3_INIT).digits[i] == INVALID_DIGIT
  {
    forall i | 0 <= i < MAX_H3_RES
      ensures DigitsOf(H3_INIT)[i] == INVALID_DIGIT
    {
      InitDigitBits(i + 1);
    }
  }
}
