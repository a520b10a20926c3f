// The bit layout of an H3 index (h3Index.h) and the mask-and-shift macros
// that read and write its fields:
//
//   bit 63      high bit (0 for every valid index)
//   bits 59-62  mode (1 cell, 2 directed edge, 3 edge, 4 vertex)
//   bits 56-58  reserved bits (the edge direction / vertex number)
//   bits 52-55  resolution 0..15
//   bits 45-51  base cell 0..121
//   bits 0-44   fifteen 3-bit digits; the digit of resolution r sits at
//               bit offset (15 - r) * 3
//
// Every macro is written with its mask and shift as literals, and the
// digit macros once per resolution (the shift (15 - r) * 3 evaluated), so
// that each bit-level fact is proved about constants.  The record `Layout`
// is the decoded view of a word; `Decode` is a bijection, and every setter
// is shown to update exactly one field of the view.  Everything above this
// module reasons about the view, never about bits.

module H3IndexBits {
  import opened H3Api

  const H3_NUM_BITS: int := 64
  const H3_MAX_OFFSET: int := 63
  const H3_MODE_OFFSET: int := 59
  const H3_BC_OFFSET: int := 45
  const H3_RES_OFFSET: int := 52
  const H3_RESERVED_OFFSET: int := 56
  const H3_PER_DIGIT_OFFSET: int := 3

  const H3_HIGH_BIT_MASK: bv64 := 0x8000_0000_0000_0000
  const H3_MODE_MASK: bv64 := 0x7800_0000_0000_0000
  const H3_RESERVED_MASK: bv64 := 0x0700_0000_0000_0000
  const H3_RES_MASK: bv64 := 0x00F0_0000_0000_0000
  const H3_BC_MASK: bv64 := 0x000F_E000_0000_0000
  const H3_DIGIT_MASK: bv64 := 7

  /** Mode 0, resolution 0, base cell 0 and all fifteen digits 7. */
  const H3_INIT: H3Index := 35184372088831

  // ------------------------------------------------------------ bit fields

  function HighBitBits(h: H3Index): bv1 { ((h & 0x8000_0000_0000_0000) >> 63) as bv1 }
  function WithHighBitBits(h: H3Index, v: bv1): H3Index { (h & 0x7FFF_FFFF_FFFF_FFFF) | ((v as bv64) << 63) }

  function ModeBits(h: H3Index): bv4 { ((h & 0x7800_0000_0000_0000) >> 59) as bv4 }
  function WithModeBits(h: H3Index, v: bv4): H3Index { (h & 0x87FF_FFFF_FFFF_FFFF) | ((v as bv64) << 59) }

  function ReservedBits(h: H3Index): bv3 { ((h & 0x0700_0000_0000_0000) >> 56) as bv3 }
  function WithReservedBits(h: H3Index, v: bv3): H3Index { (h & 0xF8FF_FFFF_FFFF_FFFF) | ((v as bv64) << 56) }

  function ResolutionBits(h: H3Index): bv4 { ((h & 0x00F0_0000_0000_0000) >> 52) as bv4 }
  function WithResolutionBits(h: H3Index, v: bv4): H3Index { (h & 0xFF0F_FFFF_FFFF_FFFF) | ((v as bv64) << 52) }

  function BaseCellBits(h: H3Index): bv7 { ((h & 0x000F_E000_0000_0000) >> 45) as bv7 }
  function WithBaseCellBits(h: H3Index, v: bv7): H3Index { (h & 0xFFF0_1FFF_FFFF_FFFF) | ((v as bv64) << 45) }

  // H3_GET_INDEX_DIGIT / H3_SET_INDEX_DIGIT at each resolution r = 1..15.
  function DigitBits1(h: H3Index): bv3 { ((h >> 42) & 7) as bv3 }
  function WithDigitBits1(h: H3Index, v: bv3): H3Index { (h & 0xFFFF_E3FF_FFFF_FFFF) | ((v as bv64) << 42) }
  function DigitBits2(h: H3Index): bv3 { ((h >> 39) & 7) as bv3 }
  function WithDigitBits2(h: H3Index, v: bv3): H3Index { (h & 0xFFFF_FC7F_FFFF_FFFF) | ((v as bv64) << 39) }
  function DigitBits3(h: H3Index): bv3 { ((h >> 36) & 7) as bv3 }
  function WithDigitBits3(h: H3Index, v: bv3): H3Index { (h & 0xFFFF_FF8F_FFFF_FFFF) | ((v as bv64) << 36) }
  function DigitBits4(h: H3Index): bv3 { ((h >> 33) & 7) as bv3 }
  function WithDigitBits4(h: H3Index, v: bv3): H3Index { (h & 0xFFFF_FFF1_FFFF_FFFF) | ((v as bv64) << 33) }
  function DigitBits5(h: H3Index): bv3 { ((h >> 30) & 7) as bv3 }
  function WithDigitBits5(h: H3Index, v: bv3): H3Index { (h & 0xFFFF_FFFE_3FFF_FFFF) | ((v as bv64) << 30) }
  function DigitBits6(h: H3Index): bv3 { ((h >> 27) & 7) as bv3 }
  function WithDigitBits6(h: H3Index, v: bv3): H3Index { (h & 0xFFFF_FFFF_C7FF_FFFF) | ((v as bv64) << 27) }
  function DigitBits7(h: H3Index): bv3 { ((h >> 24) & 7) as bv3 }
  function WithDigitBits7(h: H3Index, v: bv3): H3Index { (h & 0xFFFF_FFFF_F8FF_FFFF) | ((v as bv64) << 24) }
  function DigitBits8(h: H3Index): bv3 { ((h >> 21) & 7) as bv3 }
  function WithDigitBits8(h: H3Index, v: bv3): H3Index { (h & 0xFFFF_FFFF_FF1F_FFFF) | ((v as bv64) << 21) }
  function DigitBits9(h: H3Index): bv3 { ((h >> 18) & 7) as bv3 }
  function WithDigitBits9(h: H3Index, v: bv3): H3Index { (h & 0xFFFF_FFFF_FFE3_FFFF) | ((v as bv64) << 18) }
  function DigitBits10(h: H3Index): bv3 { ((h >> 15) & 7) as bv3 }
  function WithDigitBits10(h: H3Index, v: bv3): H3Index { (h & 0xFFFF_FFFF_FFFC_7FFF) | ((v as bv64) << 15) }
  function DigitBits11(h: H3Index): bv3 { ((h >> 12) & 7) as bv3 }
  function WithDigitBits11(h: H3Index, v: bv3): H3Index { (h & 0xFFFF_FFFF_FFFF_8FFF) | ((v as bv64) << 12) }
  function DigitBits12(h: H3Index): bv3 { ((h >> 9) & 7) as bv3 }
  function WithDigitBits12(h: H3Index, v: bv3): H3Index { (h & 0xFFFF_FFFF_FFFF_F1FF) | ((v as bv64) << 9) }
  function DigitBits13(h: H3Index): bv3 { ((h >> 6) & 7) as bv3 }
  function WithDigitBits13(h: H3Index, v: bv3): H3Index { (h & 0xFFFF_FFFF_FFFF_FE3F) | ((v as bv64) << 6) }
  function DigitBits14(h: H3Index): bv3 { ((h >> 3) & 7) as bv3 }
  function WithDigitBits14(h: H3Index, v: bv3): H3Index { (h & 0xFFFF_FFFF_FFFF_FFC7) | ((v as bv64) << 3) }
  function DigitBits15(h: H3Index): bv3 { ((h >> 0) & 7) as bv3 }
  function WithDigitBits15(h: H3Index, v: bv3): H3Index { (h & 0xFFFF_FFFF_FFFF_FFF8) | ((v as bv64) << 0) }

  // ------------------------------------------------------- the decoded view

  /** The fifteen digits of an index, digit r in field `r<r>`. */
  datatype Digits = Digits(r1: bv3, r2: bv3, r3: bv3, r4: bv3, r5: bv3, r6: bv3, r7: bv3, r8: bv3, r9: bv3, r10: bv3, r11: bv3, r12: bv3, r13: bv3, r14: bv3, r15: bv3)

  /** An index word split into its fields. */
  datatype Layout = Layout(highBit: bv1, mode: bv4, reserved: bv3, res: bv4, baseCell: bv7, digits: Digits)

  function Decode(h: H3Index): Layout
  {
    Layout(HighBitBits(h), ModeBits(h), ReservedBits(h), ResolutionBits(h), BaseCellBits(h),
      Digits(DigitBits1(h), DigitBits2(h), DigitBits3(h), DigitBits4(h), DigitBits5(h), DigitBits6(h), DigitBits7(h), DigitBits8(h), DigitBits9(h), DigitBits10(h), DigitBits11(h), DigitBits12(h), DigitBits13(h), DigitBits14(h), DigitBits15(h)))
  }

  /** A digit record with digit r replaced by v. */
  function WithDigitOf(ds: Digits, r: int, v: bv3): Digits
    requires 1 <= r <= MAX_H3_RES
  {
    if r == 1 then ds.(r1 := v)
    else if r == 2 then ds.(r2 := v)
    else if r == 3 then ds.(r3 := v)
    else if r == 4 then ds.(r4 := v)
    else if r == 5 then ds.(r5 := v)
    else if r == 6 then ds.(r6 := v)
    else if r == 7 then ds.(r7 := v)
    else if r == 8 then ds.(r8 := v)
    else if r == 9 then ds.(r9 := v)
    else if r == 10 then ds.(r10 := v)
    else if r == 11 then ds.(r11 := v)
    else if r == 12 then ds.(r12 := v)
    else if r == 13 then ds.(r13 := v)
    else if r == 14 then ds.(r14 := v)
    else ds.(r15 := v)
  }

  // ------------------------------------------------- the macros, by field

  /** H3_GET_INDEX_DIGIT(h, r) as a 3-bit value: the digit of resolution r
      sits (15 - r) * 3 bits up, so for r < 15 it is digit r + 1 of the word
      shifted down by one digit. */
  function IndexDigitBits(h: H3Index, r: int): bv3
    requires 1 <= r <= MAX_H3_RES
    decreases 15 - r
  {
    if r == 15 then (h & 7) as bv3 else IndexDigitBits(h >> 3, r + 1)
  }

  /** H3_SET_INDEX_DIGIT(h, r, v) with a 3-bit value. */
  function WithIndexDigitBits(h: H3Index, r: int, v: bv3): H3Index
    requires 1 <= r <= MAX_H3_RES
  {
    if r == 1 then WithDigitBits1(h, v)
    else if r == 2 then WithDigitBits2(h, v)
    else if r == 3 then WithDigitBits3(h, v)
    else if r == 4 then WithDigitBits4(h, v)
    else if r == 5 then WithDigitBits5(h, v)
    else if r == 6 then WithDigitBits6(h, v)
    else if r == 7 then WithDigitBits7(h, v)
    else if r == 8 then WithDigitBits8(h, v)
    else if r == 9 then WithDigitBits9(h, v)
    else if r == 10 then WithDigitBits10(h, v)
    else if r == 11 then WithDigitBits11(h, v)
    else if r == 12 then WithDigitBits12(h, v)
    else if r == 13 then WithDigitBits13(h, v)
    else if r == 14 then WithDigitBits14(h, v)
    else WithDigitBits15(h, v)
  }

  // The recursive form agrees with the macro at each literal resolution.

  lemma IndexDigitBitsIs15(h: H3Index)
    ensures IndexDigitBits(h, 15) == DigitBits15(h)
  {
  }

  lemma IndexDigitBitsIs14(h: H3Index)
    ensures IndexDigitBits(h, 14) == DigitBits14(h)
  {
    IndexDigitBitsIs15(h >> 3);
  }

  lemma IndexDigitBitsIs13(h: H3Index)
    ensures IndexDigitBits(h, 13) == DigitBits13(h)
  {
    IndexDigitBitsIs14(h >> 3);
  }

  lemma IndexDigitBitsIs12(h: H3Index)
    ensures IndexDigitBits(h, 12) == DigitBits12(h)
  {
    IndexDigitBitsIs13(h >> 3);
  }

  lemma IndexDigitBitsIs11(h: H3Index)
    ensures IndexDigitBits(h, 11) == DigitBits11(h)
  {
    IndexDigitBitsIs12(h >> 3);
  }

  lemma IndexDigitBitsIs10(h: H3Index)
    ensures IndexDigitBits(h, 10) == DigitBits10(h)
  {
    IndexDigitBitsIs11(h >> 3);
  }

  lemma IndexDigitBitsIs9(h: H3Index)
    ensures IndexDigitBits(h, 9) == DigitBits9(h)
  {
    IndexDigitBitsIs10(h >> 3);
  }

  lemma IndexDigitBitsIs8(h: H3Index)
    ensures IndexDigitBits(h, 8) == DigitBits8(h)
  {
    IndexDigitBitsIs9(h >> 3);
  }

  lemma IndexDigitBitsIs7(h: H3Index)
    ensures IndexDigitBits(h, 7) == DigitBits7(h)
  {
    IndexDigitBitsIs8(h >> 3);
  }

  lemma IndexDigitBitsIs6(h: H3Index)
    ensures IndexDigitBits(h, 6) == DigitBits6(h)
  {
    IndexDigitBitsIs7(h >> 3);
  }

  lemma IndexDigitBitsIs5(h: H3Index)
    ensures IndexDigitBits(h, 5) == DigitBits5(h)
  {
    IndexDigitBitsIs6(h >> 3);
  }

  lemma IndexDigitBitsIs4(h: H3Index)
    ensures IndexDigitBits(h, 4) == DigitBits4(h)
  {
    IndexDigitBitsIs5(h >> 3);
  }

  lemma IndexDigitBitsIs3(h: H3Index)
    ensures IndexDigitBits(h, 3) == DigitBits3(h)
  {
    IndexDigitBitsIs4(h >> 3);
  }

  lemma IndexDigitBitsIs2(h: H3Index)
    ensures IndexDigitBits(h, 2) == DigitBits2(h)
  {
    IndexDigitBitsIs3(h >> 3);
  }

  lemma IndexDigitBitsIs1(h: H3Index)
    ensures IndexDigitBits(h, 1) == DigitBits1(h)
  {
    IndexDigitBitsIs2(h >> 3);
  }

  lemma DecodeWithHighBit(h: H3Index, v: bv1)
    ensures Decode(WithHighBitBits(h, v)) == Decode(h).(highBit := v)
  {
  }

  lemma DecodeWithMode(h: H3Index, v: bv4)
    ensures Decode(WithModeBits(h, v)) == Decode(h).(mode := v)
  {
  }

  lemma DecodeWithReserved(h: H3Index, v: bv3)
    ensures Decode(WithReservedBits(h, v)) == Decode(h).(reserved := v)
  {
  }

  lemma DecodeWithResolution(h: H3Index, v: bv4)
    ensures Decode(WithResolutionBits(h, v)) == Decode(h).(res := v)
  {
  }

  lemma DecodeWithBaseCell(h: H3Index, v: bv7)
    ensures Decode(WithBaseCellBits(h, v)) == Decode(h).(baseCell := v)
  {
  }

  lemma DecodeWithDigit1(h: H3Index, v: bv3)
    ensures Decode(WithDigitBits1(h, v)) == Decode(h).(digits := Decode(h).digits.(r1 := v))
  {
  }

  lemma DecodeWithDigit2(h: H3Index, v: bv3)
    ensures Decode(WithDigitBits2(h, v)) == Decode(h).(digits := Decode(h).digits.(r2 := v))
  {
  }

  lemma DecodeWithDigit3(h: H3Index, v: bv3)
    ensures Decode(WithDigitBits3(h, v)) == Decode(h).(digits := Decode(h).digits.(r3 := v))
  {
  }

  lemma DecodeWithDigit4(h: H3Index, v: bv3)
    ensures Decode(WithDigitBits4(h, v)) == Decode(h).(digits := Decode(h).digits.(r4 := v))
  {
  }

  lemma DecodeWithDigit5(h: H3Index, v: bv3)
    ensures Decode(WithDigitBits5(h, v)) == Decode(h).(digits := Decode(h).digits.(r5 := v))
  {
  }

  lemma DecodeWithDigit6(h: H3Index, v: bv3)
    ensures Decode(WithDigitBits6(h, v)) == Decode(h).(digits := Decode(h).digits.(r6 := v))
  {
  }

  lemma DecodeWithDigit7(h: H3Index, v: bv3)
    ensures Decode(WithDigitBits7(h, v)) == Decode(h).(digits := Decode(h).digits.(r7 := v))
  {
  }

  lemma DecodeWithDigit8(h: H3Index, v: bv3)
    ensures Decode(WithDigitBits8(h, v)) == Decode(h).(digits := Decode(h).digits.(r8 := v))
  {
  }

  lemma DecodeWithDigit9(h: H3Index, v: bv3)
    ensures Decode(WithDigitBits9(h, v)) == Decode(h).(digits := Decode(h).digits.(r9 := v))
  {
  }

  lemma DecodeWithDigit10(h: H3Index, v: bv3)
    ensures Decode(WithDigitBits10(h, v)) == Decode(h).(digits := Decode(h).digits.(r10 := v))
  {
  }

  lemma DecodeWithDigit11(h: H3Index, v: bv3)
    ensures Decode(WithDigitBits11(h, v)) == Decode(h).(digits := Decode(h).digits.(r11 := v))
  {
  }

  lemma DecodeWithDigit12(h: H3Index, v: bv3)
    ensures Decode(WithDigitBits12(h, v)) == Decode(h).(digits := Decode(h).digits.(r12 := v))
  {
  }

  lemma DecodeWithDigit13(h: H3Index, v: bv3)
    ensures Decode(WithDigitBits13(h, v)) == Decode(h).(digits := Decode(h).digits.(r13 := v))
  {
  }

  lemma DecodeWithDigit14(h: H3Index, v: bv3)
    ensures Decode(WithDigitBits14(h, v)) == Decode(h).(digits := Decode(h).digits.(r14 := v))
  {
  }

  lemma DecodeWithDigit15(h: H3Index, v: bv3)
    ensures Decode(WithDigitBits15(h, v)) == Decode(h).(digits := Decode(h).digits.(r15 := v))
  {
  }

  lemma DecodeWithIndexDigit(h: H3Index, r: int, v: bv3)
    requires 1 <= r <= MAX_H3_RES
    ensures Decode(WithIndexDigitBits(h, r, v)) == Decode(h).(digits := WithDigitOf(Decode(h).digits, r, v))
  {
    if r == 1 { DecodeWithDigit1(h, v); }
    else if r == 2 { DecodeWithDigit2(h, v); }
    else if r == 3 { DecodeWithDigit3(h, v); }
    else if r == 4 { DecodeWithDigit4(h, v); }
    else if r == 5 { DecodeWithDigit5(h, v); }
    else if r == 6 { DecodeWithDigit6(h, v); }
    else if r == 7 { DecodeWithDigit7(h, v); }
    else if r == 8 { DecodeWithDigit8(h, v); }
    else if r == 9 { DecodeWithDigit9(h, v); }
    else if r == 10 { DecodeWithDigit10(h, v); }
    else if r == 11 { DecodeWithDigit11(h, v); }
    else if r == 12 { DecodeWithDigit12(h, v); }
    else if r == 13 { DecodeWithDigit13(h, v); }
    else if r == 14 { DecodeWithDigit14(h, v); }
    else { DecodeWithDigit15(h, v); }
  }

  /** A 3-bit digit as an integer 0..7. */
  function DigitValue(d: bv3): (v: int)
    ensures 0 <= v <= 7
  {
    if d == 0 then 0 else if d == 1 then 1 else if d == 2 then 2 else if d == 3 then 3
    else if d == 4 then 4 else if d == 5 then 5 else if d == 6 then 6 else 7
  }

  /** An integer digit 0..7 as 3 bits. */
  function DigitWord(v: int): (d: bv3)
    requires 0 <= v <= 7
    ensures DigitValue(d) == v
  {
    if v == 0 then 0 else if v == 1 then 1 else if v == 2 then 2 else if v == 3 then 3
    else if v == 4 then 4 else if v == 5 then 5 else if v == 6 then 6 else 7
  }

  lemma DigitValueInjective(a: bv3, b: bv3)
    requires DigitValue(a) == DigitValue(b)
    ensures a == b
  {
  }

  /** Digit r of a digit record. */
  function DigitAt(ds: Digits, r: int): bv3
    requires 1 <= r <= MAX_H3_RES
  {
    if r == 1 then ds.r1
    else if r == 2 then ds.r2
    else if r == 3 then ds.r3
    else if r == 4 then ds.r4
    else if r == 5 then ds.r5
    else if r == 6 then ds.r6
    else if r == 7 then ds.r7
    else if r == 8 then ds.r8
    else if r == 9 then ds.r9
    else if r == 10 then ds.r10
    else if r == 11 then ds.r11
    else if r == 12 then ds.r12
    else if r == 13 then ds.r13
    else if r == 14 then ds.r14
    else ds.r15
  }

  lemma IndexDigitDecode(h: H3Index, r: int)
    requires 1 <= r <= MAX_H3_RES
    ensures IndexDigitBits(h, r) == DigitAt(Decode(h).digits, r)
  {
    if r == 1 { IndexDigitBitsIs1(h); }
    else if r == 2 { IndexDigitBitsIs2(h); }
    else if r == 3 { IndexDigitBitsIs3(h); }
    else if r == 4 { IndexDigitBitsIs4(h); }
    else if r == 5 { IndexDigitBitsIs5(h); }
    else if r == 6 { IndexDigitBitsIs6(h); }
    else if r == 7 { IndexDigitBitsIs7(h); }
    else if r == 8 { IndexDigitBitsIs8(h); }
    else if r == 9 { IndexDigitBitsIs9(h); }
    else if r == 10 { IndexDigitBitsIs10(h); }
    else if r == 11 { IndexDigitBitsIs11(h); }
    else if r == 12 { IndexDigitBitsIs12(h); }
    else if r == 13 { IndexDigitBitsIs13(h); }
    else if r == 14 { IndexDigitBitsIs14(h); }
    else { IndexDigitBitsIs15(h); }
  }


  lemma DigitAtWith1(ds: Digits, q: int, v: bv3)
    requires 1 <= q <= MAX_H3_RES
    ensures DigitAt(ds.(r1 := v), q) == if q == 1 then v else DigitAt(ds, q)
  {
  }

  lemma DigitAtWith2(ds: Digits, q: int, v: bv3)
    requires 1 <= q <= MAX_H3_RES
    ensures DigitAt(ds.(r2 := v), q) == if q == 2 then v else DigitAt(ds, q)
  {
  }

  lemma DigitAtWith3(ds: Digits, q: int, v: bv3)
    requires 1 <= q <= MAX_H3_RES
    ensures DigitAt(ds.(r3 := v), q) == if q == 3 then v else DigitAt(ds, q)
  {
  }

  lemma DigitAtWith4(ds: Digits, q: int, v: bv3)
    requires 1 <= q <= MAX_H3_RES
    ensures DigitAt(ds.(r4 := v), q) == if q == 4 then v else DigitAt(ds, q)
  {
  }

  lemma DigitAtWith5(ds: Digits, q: int, v: bv3)
    requires 1 <= q <= MAX_H3_RES
    ensures DigitAt(ds.(r5 := v), q) == if q == 5 then v else DigitAt(ds, q)
  {
  }

  lemma DigitAtWith6(ds: Digits, q: int, v: bv3)
    requires 1 <= q <= MAX_H3_RES
    ensures DigitAt(ds.(r6 := v), q) == if q == 6 then v else DigitAt(ds, q)
  {
  }

  lemma DigitAtWith7(ds: Digits, q: int, v: bv3)
    requires 1 <= q <= MAX_H3_RES
    ensures DigitAt(ds.(r7 := v), q) == if q == 7 then v else DigitAt(ds, q)
  {
  }

  lemma DigitAtWith8(ds: Digits, q: int, v: bv3)
    requires 1 <= q <= MAX_H3_RES
    ensures DigitAt(ds.(r8 := v), q) == if q == 8 then v else DigitAt(ds, q)
  {
  }

  lemma DigitAtWith9(ds: Digits, q: int, v: bv3)
    requires 1 <= q <= MAX_H3_RES
    ensures DigitAt(ds.(r9 := v), q) == if q == 9 then v else DigitAt(ds, q)
  {
  }

  lemma DigitAtWith10(ds: Digits, q: int, v: bv3)
    requires 1 <= q <= MAX_H3_RES
    ensures DigitAt(ds.(r10 := v), q) == if q == 10 then v else DigitAt(ds, q)
  {
  }

  lemma DigitAtWith11(ds: Digits, q: int, v: bv3)
    requires 1 <= q <= MAX_H3_RES
    ensures DigitAt(ds.(r11 := v), q) == if q == 11 then v else DigitAt(ds, q)
  {
  }

  lemma DigitAtWith12(ds: Digits, q: int, v: bv3)
    requires 1 <= q <= MAX_H3_RES
    ensures DigitAt(ds.(r12 := v), q) == if q == 12 then v else DigitAt(ds, q)
  {
  }

  lemma DigitAtWith13(ds: Digits, q: int, v: bv3)
    requires 1 <= q <= MAX_H3_RES
    ensures DigitAt(ds.(r13 := v), q) == if q == 13 then v else DigitAt(ds, q)
  {
  }

  lemma DigitAtWith14(ds: Digits, q: int, v: bv3)
    requires 1 <= q <= MAX_H3_RES
    ensures DigitAt(ds.(r14 := v), q) == if q == 14 then v else DigitAt(ds, q)
  {
  }

  lemma DigitAtWith15(ds: Digits, q: int, v: bv3)
    requires 1 <= q <= MAX_H3_RES
    ensures DigitAt(ds.(r15 := v), q) == if q == 15 then v else DigitAt(ds, q)
  {
  }

  /** Replacing digit r changes digit r and no other. */
  lemma DigitAtWith(ds: Digits, r: int, q: int, v: bv3)
    requires 1 <= r <= MAX_H3_RES && 1 <= q <= MAX_H3_RES
    ensures DigitAt(WithDigitOf(ds, r, v), q) == if q == r then v else DigitAt(ds, q)
  {
    if r == 1 { DigitAtWith1(ds, q, v); }
    else if r == 2 { DigitAtWith2(ds, q, v); }
    else if r == 3 { DigitAtWith3(ds, q, v); }
    else if r == 4 { DigitAtWith4(ds, q, v); }
    else if r == 5 { DigitAtWith5(ds, q, v); }
    else if r == 6 { DigitAtWith6(ds, q, v); }
    else if r == 7 { DigitAtWith7(ds, q, v); }
    else if r == 8 { DigitAtWith8(ds, q, v); }
    else if r == 9 { DigitAtWith9(ds, q, v); }
    else if r == 10 { DigitAtWith10(ds, q, v); }
    else if r == 11 { DigitAtWith11(ds, q, v); }
    else if r == 12 { DigitAtWith12(ds, q, v); }
    else if r == 13 { DigitAtWith13(ds, q, v); }
    else if r == 14 { DigitAtWith14(ds, q, v); }
    else { DigitAtWith15(ds, q, v); }
  }

  /** Setting digit r changes digit r and no other. */
  lemma IndexDigitWith(h: H3Index, r: int, q: int, v: bv3)
    requires 1 <= r <= MAX_H3_RES && 1 <= q <= MAX_H3_RES
    ensures IndexDigitBits(WithIndexDigitBits(h, r, v), q) == if q == r then v else IndexDigitBits(h, q)
  {
    IndexDigitDecode(h, q);
    IndexDigitDecode(WithIndexDigitBits(h, r, v), q);
    DecodeWithIndexDigit(h, r, v);
    DigitAtWith(Decode(h).digits, r, q, v);
  }

  /** H3_INIT holds 7 in every digit. */
  lemma InitDigitBits(r: int)
    requires 1 <= r <= MAX_H3_RES
    ensures IndexDigitBits(H3_INIT, r) == 7
  {
    IndexDigitDecode(H3_INIT, r);
  }

  /** The zero word holds 0 in every digit. */
  lemma ZeroDigitBits(r: int)
    requires 1 <= r <= MAX_H3_RES
    ensures IndexDigitBits(0, r) == 0
  {
    IndexDigitDecode(0, r);
  }

  /** The view determines the word: no two indexes decode alike. */
  lemma DecodeInjective(a: H3Index, b: H3Index)
    requires Decode(a) == Decode(b)
    ensures a == b
  {
  }
}
