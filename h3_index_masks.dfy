// The bit tricks of h3Index.c that test whole runs of digits at once: the
// validity checks behind isValidCell (_hasGoodTopBits, _hasAny7UptoRes,
// _hasAll7AfterRes, _hasDeletedSubsequence with _firstOneIndex).  Each is
// written as the source computes it, and each is proved equal to a plain
// statement about the digits of `ViewOf(h)`.

module H3IndexMasks {
  import opened H3Api
  import opened H3IndexBits
  import opened H3IndexFields

  // ------------------------------------------------------- digit is seven

  predicate SevenBits1(h: H3Index) { (h & 0x0000_1C00_0000_0000) == 0x0000_1C00_0000_0000 }
  predicate SevenBits2(h: H3Index) { (h & 0x0000_0380_0000_0000) == 0x0000_0380_0000_0000 }
  predicate SevenBits3(h: H3Index) { (h & 0x0000_0070_0000_0000) == 0x0000_0070_0000_0000 }
  predicate SevenBits4(h: H3Index) { (h & 0x0000_000E_0000_0000) == 0x0000_000E_0000_0000 }
  predicate SevenBits5(h: H3Index) { (h & 0x0000_0001_C000_0000) == 0x0000_0001_C000_0000 }
  predicate SevenBits6(h: H3Index) { (h & 0x0000_0000_3800_0000) == 0x0000_0000_3800_0000 }
  predicate SevenBits7(h: H3Index) { (h & 0x0000_0000_0700_0000) == 0x0000_0000_0700_0000 }
  predicate SevenBits8(h: H3Index) { (h & 0x0000_0000_00E0_0000) == 0x0000_0000_00E0_0000 }
  predicate SevenBits9(h: H3Index) { (h & 0x0000_0000_001C_0000) == 0x0000_0000_001C_0000 }
  predicate SevenBits10(h: H3Index) { (h & 0x0000_0000_0003_8000) == 0x0000_0000_0003_8000 }
  predicate SevenBits11(h: H3Index) { (h & 0x0000_0000_0000_7000) == 0x0000_0000_0000_7000 }
  predicate SevenBits12(h: H3Index) { (h & 0x0000_0000_0000_0E00) == 0x0000_0000_0000_0E00 }
  predicate SevenBits13(h: H3Index) { (h & 0x0000_0000_0000_01C0) == 0x0000_0000_0000_01C0 }
  predicate SevenBits14(h: H3Index) { (h & 0x0000_0000_0000_0038) == 0x0000_0000_0000_0038 }
  predicate SevenBits15(h: H3Index) { (h & 0x0000_0000_0000_0007) == 0x0000_0000_0000_0007 }

  /** Digit r of h holds 7, tested with one mask. */
  predicate SevenAt(h: H3Index, r: int)
    requires 1 <= r <= MAX_H3_RES
  {
    if r == 1 then SevenBits1(h)
    else if r == 2 then SevenBits2(h)
    else if r == 3 then SevenBits3(h)
    else if r == 4 then SevenBits4(h)
    else if r == 5 then SevenBits5(h)
    else if r == 6 then SevenBits6(h)
    else if r == 7 then SevenBits7(h)
    else if r == 8 then SevenBits8(h)
    else if r == 9 then SevenBits9(h)
    else if r == 10 then SevenBits10(h)
    else if r == 11 then SevenBits11(h)
    else if r == 12 then SevenBits12(h)
    else if r == 13 then SevenBits13(h)
    else if r == 14 then SevenBits14(h)
    else SevenBits15(h)
  }

  lemma SevenBitsDigit1(h: H3Index)
    ensures SevenBits1(h) <==> IndexDigitBits(h, 1) == 7
  {
    IndexDigitBitsIs1(h);
  }

  lemma SevenBitsDigit2(h: H3Index)
    ensures SevenBits2(h) <==> IndexDigitBits(h, 2) == 7
  {
    IndexDigitBitsIs2(h);
  }

  lemma SevenBitsDigit3(h: H3Index)
    ensures SevenBits3(h) <==> IndexDigitBits(h, 3) == 7
  {
    IndexDigitBitsIs3(h);
  }

  lemma SevenBitsDigit4(h: H3Index)
    ensures SevenBits4(h) <==> IndexDigitBits(h, 4) == 7
  {
    IndexDigitBitsIs4(h);
  }

  lemma SevenBitsDigit5(h: H3Index)
    ensures SevenBits5(h) <==> IndexDigitBits(h, 5) == 7
  {
    IndexDigitBitsIs5(h);
  }

  lemma SevenBitsDigit6(h: H3Index)
    ensures SevenBits6(h) <==> IndexDigitBits(h, 6) == 7
  {
    IndexDigitBitsIs6(h);
  }

  lemma SevenBitsDigit7(h: H3Index)
    ensures SevenBits7(h) <==> IndexDigitBits(h, 7) == 7
  {
    IndexDigitBitsIs7(h);
  }

  lemma SevenBitsDigit8(h: H3Index)
    ensures SevenBits8(h) <==> IndexDigitBits(h, 8) == 7
  {
    IndexDigitBitsIs8(h);
  }

  lemma SevenBitsDigit9(h: H3Index)
    ensures SevenBits9(h) <==> IndexDigitBits(h, 9) == 7
  {
    IndexDigitBitsIs9(h);
  }

  lemma SevenBitsDigit10(h: H3Index)
    ensures SevenBits10(h) <==> IndexDigitBits(h, 10) == 7
  {
    IndexDigitBitsIs10(h);
  }

  lemma SevenBitsDigit11(h: H3Index)
    ensures SevenBits11(h) <==> IndexDigitBits(h, 11) == 7
  {
    IndexDigitBitsIs11(h);
  }

  lemma SevenBitsDigit12(h: H3Index)
    ensures SevenBits12(h) <==> IndexDigitBits(h, 12) == 7
  {
    IndexDigitBitsIs12(h);
  }

  lemma SevenBitsDigit13(h: H3Index)
    ensures SevenBits13(h) <==> IndexDigitBits(h, 13) == 7
  {
    IndexDigitBitsIs13(h);
  }

  lemma SevenBitsDigit14(h: H3Index)
    ensures SevenBits14(h) <==> IndexDigitBits(h, 14) == 7
  {
    IndexDigitBitsIs14(h);
  }

  lemma SevenBitsDigit15(h: H3Index)
    ensures SevenBits15(h) <==> IndexDigitBits(h, 15) == 7
  {
    IndexDigitBitsIs15(h);
  }

  lemma SevenAtDigit(h: H3Index, r: int)
    requires 1 <= r <= MAX_H3_RES
    ensures SevenAt(h, r) <==> IndexDigitBits(h, r) == 7
  {
    if r == 1 { SevenBitsDigit1(h); }
    else if r == 2 { SevenBitsDigit2(h); }
    else if r == 3 { SevenBitsDigit3(h); }
    else if r == 4 { SevenBitsDigit4(h); }
    else if r == 5 { SevenBitsDigit5(h); }
    else if r == 6 { SevenBitsDigit6(h); }
    else if r == 7 { SevenBitsDigit7(h); }
    else if r == 8 { SevenBitsDigit8(h); }
    else if r == 9 { SevenBitsDigit9(h); }
    else if r == 10 { SevenBitsDigit10(h); }
    else if r == 11 { SevenBitsDigit11(h); }
    else if r == 12 { SevenBitsDigit12(h); }
    else if r == 13 { SevenBitsDigit13(h); }
    else if r == 14 { SevenBitsDigit14(h); }
    else { SevenBitsDigit15(h); }
  }

  lemma DigitValueSeven(d: bv3)
    ensures DigitValue(d) == 7 <==> d == 7
  {
  }

  lemma SevenAtView(h: H3Index, r: int)
    requires 1 <= r <= MAX_H3_RES
    ensures SevenAt(h, r) <==> DigitsOf(h)[r - 1] == INVALID_DIGIT
  {
    SevenAtDigit(h, r);
    GetIndexDigitAt(h, r);
    DigitValueSeven(IndexDigitBits(h, r));
  }

  // ------------------------------------------------------- shift amounts

  /** H3_PER_DIGIT_OFFSET * n as a shift amount, for n = 0..15. */
  function DigitShift(n: int): (s: bv64)
    requires 0 <= n <= MAX_H3_RES
    ensures s <= 45
  {
    if n == 0 then 0
    else if n == 1 then 3
    else if n == 2 then 6
    else if n == 3 then 9
    else if n == 4 then 12
    else if n == 5 then 15
    else if n == 6 then 18
    else if n == 7 then 21
    else if n == 8 then 24
    else if n == 9 then 27
    else if n == 10 then 30
    else if n == 11 then 33
    else if n == 12 then 36
    else if n == 13 then 39
    else if n == 14 then 42
    else 45
  }

  /** A whole number of digits, 0..15, as a shift amount. */
  predicate IsDigitShift(s: bv64)
  {
    s == 0 || s == 3 || s == 6 || s == 9 || s == 12 || s == 15 || s == 18 || s == 21
    || s == 24 || s == 27 || s == 30 || s == 33 || s == 36 || s == 39 || s == 42 || s == 45
  }

  lemma DigitShiftMultiple(n: int)
    requires 0 <= n <= MAX_H3_RES
    ensures IsDigitShift(DigitShift(n))
  {
  }

  lemma DigitShiftMonotone(a: int, b: int)
    requires 0 <= a <= MAX_H3_RES && 0 <= b <= MAX_H3_RES
    ensures DigitShift(a) <= DigitShift(b) <==> a <= b
  {
  }

  // ----------------------------------------------------- _hasGoodTopBits

  /** The top eight bits are 0_0001_000: high bit 0, cell mode, reserved 0. */
  predicate HasGoodTopBits(h: H3Index)
  {
    h >> 56 == 0x08
  }

  lemma GoodTopBitsFields(h: H3Index)
    ensures HasGoodTopBits(h) <==> (HighBitBits(h) == 0 && ModeBits(h) == 1 && ReservedBits(h) == 0)
  {
  }

  lemma GoodTopBitsView(h: H3Index)
    ensures HasGoodTopBits(h) <==>
      (ViewOf(h).highBit == 0 && ViewOf(h).mode == H3_CELL_MODE && ViewOf(h).reserved == 0)
  {
    GoodTopBitsFields(h);
    FieldsOfView(h);
    if HighBitBits(h) as int == 0 { Conv1Bits(HighBitBits(h), 0); }
    if ModeBits(h) as int == 1 { Conv4Bits(ModeBits(h), 1); }
    if ReservedBits(h) as int == 0 { Conv3Bits(ReservedBits(h), 0); }
  }

  // ----------------------------------------------------- _hasAny7UptoRes

  /** Some digit 1..res is 7: clear the digits below res, then find a 7 by
      the borrow that only an all-ones digit produces. */
  predicate HasAny7UptoRes(h: H3Index, res: int)
    requires 0 <= res <= MAX_H3_RES
  {
    var shift := DigitShift(MAX_H3_RES - res);
    var x := (h >> shift) << shift;
    (x & 0x0000_1249_2492_4924 & (!x - 0x0000_0492_4924_9249)) != 0
  }

  /** Some digit 1..res is 7, digit by digit. */
  predicate AnySevenUpTo(h: H3Index, res: int)
    requires 0 <= res <= MAX_H3_RES
  {
    res > 0 && (AnySevenUpTo(h, res - 1) || SevenAt(h, res))
  }

  lemma Any7UptoRes0(h: H3Index)
    ensures !HasAny7UptoRes(h, 0)
  {
  }

  lemma Any7UptoResMasks1(h: H3Index)
    ensures HasAny7UptoRes(h, 1) <==> (SevenBits1(h))
  {
  }

  lemma Any7UptoRes1(h: H3Index)
    ensures HasAny7UptoRes(h, 1) <==> AnySevenUpTo(h, 1)
  {
    Any7UptoResMasks1(h);
    assert AnySevenUpTo(h, 1) == (AnySevenUpTo(h, 0) || SevenBits1(h));
  }

  lemma Any7UptoResMasks2(h: H3Index)
    ensures HasAny7UptoRes(h, 2) <==> (SevenBits1(h) || SevenBits2(h))
  {
  }

  lemma Any7UptoRes2(h: H3Index)
    ensures HasAny7UptoRes(h, 2) <==> AnySevenUpTo(h, 2)
  {
    Any7UptoResMasks2(h);
    assert AnySevenUpTo(h, 2) == (AnySevenUpTo(h, 1) || SevenBits2(h));
    assert AnySevenUpTo(h, 1) == (AnySevenUpTo(h, 0) || SevenBits1(h));
  }

  lemma Any7UptoResMasks3(h: H3Index)
    ensures HasAny7UptoRes(h, 3) <==> (SevenBits1(h) || SevenBits2(h) || SevenBits3(h))
  {
  }

  lemma Any7UptoRes3(h: H3Index)
    ensures HasAny7UptoRes(h, 3) <==> AnySevenUpTo(h, 3)
  {
    Any7UptoResMasks3(h);
    assert AnySevenUpTo(h, 3) == (AnySevenUpTo(h, 2) || SevenBits3(h));
    assert AnySevenUpTo(h, 2) == (AnySevenUpTo(h, 1) || SevenBits2(h));
    assert AnySevenUpTo(h, 1) == (AnySevenUpTo(h, 0) || SevenBits1(h));
  }

  lemma Any7UptoResMasks4(h: H3Index)
    ensures HasAny7UptoRes(h, 4) <==> (SevenBits1(h) || SevenBits2(h) || SevenBits3(h) || SevenBits4(h))
  {
  }

  lemma Any7UptoRes4(h: H3Index)
    ensures HasAny7UptoRes(h, 4) <==> AnySevenUpTo(h, 4)
  {
    Any7UptoResMasks4(h);
    assert AnySevenUpTo(h, 4) == (AnySevenUpTo(h, 3) || SevenBits4(h));
    assert AnySevenUpTo(h, 3) == (AnySevenUpTo(h, 2) || SevenBits3(h));
    assert AnySevenUpTo(h, 2) == (AnySevenUpTo(h, 1) || SevenBits2(h));
    assert AnySevenUpTo(h, 1) == (AnySevenUpTo(h, 0) || SevenBits1(h));
  }

  lemma Any7UptoResMasks5(h: H3Index)
    ensures HasAny7UptoRes(h, 5) <==> (SevenBits1(h) || SevenBits2(h) || SevenBits3(h) || SevenBits4(h) || SevenBits5(h))
  {
  }

  lemma Any7UptoRes5(h: H3Index)
    ensures HasAny7UptoRes(h, 5) <==> AnySevenUpTo(h, 5)
  {
    Any7UptoResMasks5(h);
    assert AnySevenUpTo(h, 5) == (AnySevenUpTo(h, 4) || SevenBits5(h));
    assert AnySevenUpTo(h, 4) == (AnySevenUpTo(h, 3) || SevenBits4(h));
    assert AnySevenUpTo(h, 3) == (AnySevenUpTo(h, 2) || SevenBits3(h));
    assert AnySevenUpTo(h, 2) == (AnySevenUpTo(h, 1) || SevenBits2(h));
    assert AnySevenUpTo(h, 1) == (AnySevenUpTo(h, 0) || SevenBits1(h));
  }

  lemma Any7UptoResMasks6(h: H3Index)
    ensures HasAny7UptoRes(h, 6) <==> (SevenBits1(h) || SevenBits2(h) || SevenBits3(h) || SevenBits4(h) || SevenBits5(h) || SevenBits6(h))
  {
  }

  lemma Any7UptoRes6(h: H3Index)
    ensures HasAny7UptoRes(h, 6) <==> AnySevenUpTo(h, 6)
  {
    Any7UptoResMasks6(h);
    assert AnySevenUpTo(h, 6) == (AnySevenUpTo(h, 5) || SevenBits6(h));
    assert AnySevenUpTo(h, 5) == (AnySevenUpTo(h, 4) || SevenBits5(h));
    assert AnySevenUpTo(h, 4) == (AnySevenUpTo(h, 3) || SevenBits4(h));
    assert AnySevenUpTo(h, 3) == (AnySevenUpTo(h, 2) || SevenBits3(h));
    assert AnySevenUpTo(h, 2) == (AnySevenUpTo(h, 1) || SevenBits2(h));
    assert AnySevenUpTo(h, 1) == (AnySevenUpTo(h, 0) || SevenBits1(h));
  }

  lemma Any7UptoResMasks7(h: H3Index)
    ensures HasAny7UptoRes(h, 7) <==> (SevenBits1(h) || SevenBits2(h) || SevenBits3(h) || SevenBits4(h) || SevenBits5(h) || SevenBits6(h) || SevenBits7(h))
  {
  }

  lemma Any7UptoRes7(h: H3Index)
    ensures HasAny7UptoRes(h, 7) <==> AnySevenUpTo(h, 7)
  {
    Any7UptoResMasks7(h);
    assert AnySevenUpTo(h, 7) == (AnySevenUpTo(h, 6) || SevenBits7(h));
    assert AnySevenUpTo(h, 6) == (AnySevenUpTo(h, 5) || SevenBits6(h));
    assert AnySevenUpTo(h, 5) == (AnySevenUpTo(h, 4) || SevenBits5(h));
    assert AnySevenUpTo(h, 4) == (AnySevenUpTo(h, 3) || SevenBits4(h));
    assert AnySevenUpTo(h, 3) == (AnySevenUpTo(h, 2) || SevenBits3(h));
    assert AnySevenUpTo(h, 2) == (AnySevenUpTo(h, 1) || SevenBits2(h));
    assert AnySevenUpTo(h, 1) == (AnySevenUpTo(h, 0) || SevenBits1(h));
  }

  lemma Any7UptoResMasks8(h: H3Index)
    ensures HasAny7UptoRes(h, 8) <==> (SevenBits1(h) || SevenBits2(h) || SevenBits3(h) || SevenBits4(h) || SevenBits5(h) || SevenBits6(h) || SevenBits7(h) || SevenBits8(h))
  {
  }

  lemma Any7UptoRes8(h: H3Index)
    ensures HasAny7UptoRes(h, 8) <==> AnySevenUpTo(h, 8)
  {
    Any7UptoResMasks8(h);
    assert AnySevenUpTo(h, 8) == (AnySevenUpTo(h, 7) || SevenBits8(h));
    assert AnySevenUpTo(h, 7) == (AnySevenUpTo(h, 6) || SevenBits7(h));
    assert AnySevenUpTo(h, 6) == (AnySevenUpTo(h, 5) || SevenBits6(h));
    assert AnySevenUpTo(h, 5) == (AnySevenUpTo(h, 4) || SevenBits5(h));
    assert AnySevenUpTo(h, 4) == (AnySevenUpTo(h, 3) || SevenBits4(h));
    assert AnySevenUpTo(h, 3) == (AnySevenUpTo(h, 2) || SevenBits3(h));
    assert AnySevenUpTo(h, 2) == (AnySevenUpTo(h, 1) || SevenBits2(h));
    assert AnySevenUpTo(h, 1) == (AnySevenUpTo(h, 0) || SevenBits1(h));
  }

  lemma Any7UptoResMasks9(h: H3Index)
    ensures HasAny7UptoRes(h, 9) <==> (SevenBits1(h) || SevenBits2(h) || SevenBits3(h) || SevenBits4(h) || SevenBits5(h) || SevenBits6(h) || SevenBits7(h) || SevenBits8(h) || SevenBits9(h))
  {
  }

  lemma Any7UptoRes9(h: H3Index)
    ensures HasAny7UptoRes(h, 9) <==> AnySevenUpTo(h, 9)
  {
    Any7UptoResMasks9(h);
    assert AnySevenUpTo(h, 9) == (AnySevenUpTo(h, 8) || SevenBits9(h));
    assert AnySevenUpTo(h, 8) == (AnySevenUpTo(h, 7) || SevenBits8(h));
    assert AnySevenUpTo(h, 7) == (AnySevenUpTo(h, 6) || SevenBits7(h));
    assert AnySevenUpTo(h, 6) == (AnySevenUpTo(h, 5) || SevenBits6(h));
    assert AnySevenUpTo(h, 5) == (AnySevenUpTo(h, 4) || SevenBits5(h));
    assert AnySevenUpTo(h, 4) == (AnySevenUpTo(h, 3) || SevenBits4(h));
    assert AnySevenUpTo(h, 3) == (AnySevenUpTo(h, 2) || SevenBits3(h));
    assert AnySevenUpTo(h, 2) == (AnySevenUpTo(h, 1) || SevenBits2(h));
    assert AnySevenUpTo(h, 1) == (AnySevenUpTo(h, 0) || SevenBits1(h));
  }

  lemma Any7UptoResMasks10(h: H3Index)
    ensures HasAny7UptoRes(h, 10) <==> (SevenBits1(h) || SevenBits2(h) || SevenBits3(h) || SevenBits4(h) || SevenBits5(h) || SevenBits6(h) || SevenBits7(h) || SevenBits8(h) || SevenBits9(h) || SevenBits10(h))
  {
  }

  lemma Any7UptoRes10(h: H3Index)
    ensures HasAny7UptoRes(h, 10) <==> AnySevenUpTo(h, 10)
  {
    Any7UptoResMasks10(h);
    assert AnySevenUpTo(h, 10) == (AnySevenUpTo(h, 9) || SevenBits10(h));
    assert AnySevenUpTo(h, 9) == (AnySevenUpTo(h, 8) || SevenBits9(h));
    assert AnySevenUpTo(h, 8) == (AnySevenUpTo(h, 7) || SevenBits8(h));
    assert AnySevenUpTo(h, 7) == (AnySevenUpTo(h, 6) || SevenBits7(h));
    assert AnySevenUpTo(h, 6) == (AnySevenUpTo(h, 5) || SevenBits6(h));
    assert AnySevenUpTo(h, 5) == (AnySevenUpTo(h, 4) || SevenBits5(h));
    assert AnySevenUpTo(h, 4) == (AnySevenUpTo(h, 3) || SevenBits4(h));
    assert AnySevenUpTo(h, 3) == (AnySevenUpTo(h, 2) || SevenBits3(h));
    assert AnySevenUpTo(h, 2) == (AnySevenUpTo(h, 1) || SevenBits2(h));
    assert AnySevenUpTo(h, 1) == (AnySevenUpTo(h, 0) || SevenBits1(h));
  }

  lemma Any7UptoResMasks11(h: H3Index)
    ensures HasAny7UptoRes(h, 11) <==> (SevenBits1(h) || SevenBits2(h) || SevenBits3(h) || SevenBits4(h) || SevenBits5(h) || SevenBits6(h) || SevenBits7(h) || SevenBits8(h) || SevenBits9(h) || SevenBits10(h) || SevenBits11(h))
  {
  }

  lemma Any7UptoRes11(h: H3Index)
    ensures HasAny7UptoRes(h, 11) <==> AnySevenUpTo(h, 11)
  {
    Any7UptoResMasks11(h);
    assert AnySevenUpTo(h, 11) == (AnySevenUpTo(h, 10) || SevenBits11(h));
    assert AnySevenUpTo(h, 10) == (AnySevenUpTo(h, 9) || SevenBits10(h));
    assert AnySevenUpTo(h, 9) == (AnySevenUpTo(h, 8) || SevenBits9(h));
    assert AnySevenUpTo(h, 8) == (AnySevenUpTo(h, 7) || SevenBits8(h));
    assert AnySevenUpTo(h, 7) == (AnySevenUpTo(h, 6) || SevenBits7(h));
    assert AnySevenUpTo(h, 6) == (AnySevenUpTo(h, 5) || SevenBits6(h));
    assert AnySevenUpTo(h, 5) == (AnySevenUpTo(h, 4) || SevenBits5(h));
    assert AnySevenUpTo(h, 4) == (AnySevenUpTo(h, 3) || SevenBits4(h));
    assert AnySevenUpTo(h, 3) == (AnySevenUpTo(h, 2) || SevenBits3(h));
    assert AnySevenUpTo(h, 2) == (AnySevenUpTo(h, 1) || SevenBits2(h));
    assert AnySevenUpTo(h, 1) == (AnySevenUpTo(h, 0) || SevenBits1(h));
  }

  lemma Any7UptoResMasks12(h: H3Index)
    ensures HasAny7UptoRes(h, 12) <==> (SevenBits1(h) || SevenBits2(h) || SevenBits3(h) || SevenBits4(h) || SevenBits5(h) || SevenBits6(h) || SevenBits7(h) || SevenBits8(h) || SevenBits9(h) || SevenBits10(h) || SevenBits11(h) || SevenBits12(h))
  {
  }

  lemma Any7UptoRes12(h: H3Index)
    ensures HasAny7UptoRes(h, 12) <==> AnySevenUpTo(h, 12)
  {
    Any7UptoResMasks12(h);
    assert AnySevenUpTo(h, 12) == (AnySevenUpTo(h, 11) || SevenBits12(h));
    assert AnySevenUpTo(h, 11) == (AnySevenUpTo(h, 10) || SevenBits11(h));
    assert AnySevenUpTo(h, 10) == (AnySevenUpTo(h, 9) || SevenBits10(h));
    assert AnySevenUpTo(h, 9) == (AnySevenUpTo(h, 8) || SevenBits9(h));
    assert AnySevenUpTo(h, 8) == (AnySevenUpTo(h, 7) || SevenBits8(h));
    assert AnySevenUpTo(h, 7) == (AnySevenUpTo(h, 6) || SevenBits7(h));
    assert AnySevenUpTo(h, 6) == (AnySevenUpTo(h, 5) || SevenBits6(h));
    assert AnySevenUpTo(h, 5) == (AnySevenUpTo(h, 4) || SevenBits5(h));
    assert AnySevenUpTo(h, 4) == (AnySevenUpTo(h, 3) || SevenBits4(h));
    assert AnySevenUpTo(h, 3) == (AnySevenUpTo(h, 2) || SevenBits3(h));
    assert AnySevenUpTo(h, 2) == (AnySevenUpTo(h, 1) || SevenBits2(h));
    assert AnySevenUpTo(h, 1) == (AnySevenUpTo(h, 0) || SevenBits1(h));
  }

  lemma Any7UptoResMasks13(h: H3Index)
    ensures HasAny7UptoRes(h, 13) <==> (SevenBits1(h) || SevenBits2(h) || SevenBits3(h) || SevenBits4(h) || SevenBits5(h) || SevenBits6(h) || SevenBits7(h) || SevenBits8(h) || SevenBits9(h) || SevenBits10(h) || SevenBits11(h) || SevenBits12(h) || SevenBits13(h))
  {
  }

  lemma Any7UptoRes13(h: H3Index)
    ensures HasAny7UptoRes(h, 13) <==> AnySevenUpTo(h, 13)
  {
    Any7UptoResMasks13(h);
    assert AnySevenUpTo(h, 13) == (AnySevenUpTo(h, 12) || SevenBits13(h));
    assert AnySevenUpTo(h, 12) == (AnySevenUpTo(h, 11) || SevenBits12(h));
    assert AnySevenUpTo(h, 11) == (AnySevenUpTo(h, 10) || SevenBits11(h));
    assert AnySevenUpTo(h, 10) == (AnySevenUpTo(h, 9) || SevenBits10(h));
    assert AnySevenUpTo(h, 9) == (AnySevenUpTo(h, 8) || SevenBits9(h));
    assert AnySevenUpTo(h, 8) == (AnySevenUpTo(h, 7) || SevenBits8(h));
    assert AnySevenUpTo(h, 7) == (AnySevenUpTo(h, 6) || SevenBits7(h));
    assert AnySevenUpTo(h, 6) == (AnySevenUpTo(h, 5) || SevenBits6(h));
    assert AnySevenUpTo(h, 5) == (AnySevenUpTo(h, 4) || SevenBits5(h));
    assert AnySevenUpTo(h, 4) == (AnySevenUpTo(h, 3) || SevenBits4(h));
    assert AnySevenUpTo(h, 3) == (AnySevenUpTo(h, 2) || SevenBits3(h));
    assert AnySevenUpTo(h, 2) == (AnySevenUpTo(h, 1) || SevenBits2(h));
    assert AnySevenUpTo(h, 1) == (AnySevenUpTo(h, 0) || SevenBits1(h));
  }

  lemma Any7UptoResMasks14(h: H3Index)
    ensures HasAny7UptoRes(h, 14) <==> (SevenBits1(h) || SevenBits2(h) || SevenBits3(h) || SevenBits4(h) || SevenBits5(h) || SevenBits6(h) || SevenBits7(h) || SevenBits8(h) || SevenBits9(h) || SevenBits10(h) || SevenBits11(h) || SevenBits12(h) || SevenBits13(h) || SevenBits14(h))
  {
  }

  lemma Any7UptoRes14(h: H3Index)
    ensures HasAny7UptoRes(h, 14) <==> AnySevenUpTo(h, 14)
  {
    Any7UptoResMasks14(h);
    assert AnySevenUpTo(h, 14) == (AnySevenUpTo(h, 13) || SevenBits14(h));
    assert AnySevenUpTo(h, 13) == (AnySevenUpTo(h, 12) || SevenBits13(h));
    assert AnySevenUpTo(h, 12) == (AnySevenUpTo(h, 11) || SevenBits12(h));
    assert AnySevenUpTo(h, 11) == (AnySevenUpTo(h, 10) || SevenBits11(h));
    assert AnySevenUpTo(h, 10) == (AnySevenUpTo(h, 9) || SevenBits10(h));
    assert AnySevenUpTo(h, 9) == (AnySevenUpTo(h, 8) || SevenBits9(h));
    assert AnySevenUpTo(h, 8) == (AnySevenUpTo(h, 7) || SevenBits8(h));
    assert AnySevenUpTo(h, 7) == (AnySevenUpTo(h, 6) || SevenBits7(h));
    assert AnySevenUpTo(h, 6) == (AnySevenUpTo(h, 5) || SevenBits6(h));
    assert AnySevenUpTo(h, 5) == (AnySevenUpTo(h, 4) || SevenBits5(h));
    assert AnySevenUpTo(h, 4) == (AnySevenUpTo(h, 3) || SevenBits4(h));
    assert AnySevenUpTo(h, 3) == (AnySevenUpTo(h, 2) || SevenBits3(h));
    assert AnySevenUpTo(h, 2) == (AnySevenUpTo(h, 1) || SevenBits2(h));
    assert AnySevenUpTo(h, 1) == (AnySevenUpTo(h, 0) || SevenBits1(h));
  }

  lemma Any7UptoResMasks15(h: H3Index)
    ensures HasAny7UptoRes(h, 15) <==> (SevenBits1(h) || SevenBits2(h) || SevenBits3(h) || SevenBits4(h) || SevenBits5(h) || SevenBits6(h) || SevenBits7(h) || SevenBits8(h) || SevenBits9(h) || SevenBits10(h) || SevenBits11(h) || SevenBits12(h) || SevenBits13(h) || SevenBits14(h) || SevenBits15(h))
  {
  }

  lemma Any7UptoRes15(h: H3Index)
    ensures HasAny7UptoRes(h, 15) <==> AnySevenUpTo(h, 15)
  {
    Any7UptoResMasks15(h);
    assert AnySevenUpTo(h, 15) == (AnySevenUpTo(h, 14) || SevenBits15(h));
    assert AnySevenUpTo(h, 14) == (AnySevenUpTo(h, 13) || SevenBits14(h));
    assert AnySevenUpTo(h, 13) == (AnySevenUpTo(h, 12) || SevenBits13(h));
    assert AnySevenUpTo(h, 12) == (AnySevenUpTo(h, 11) || SevenBits12(h));
    assert AnySevenUpTo(h, 11) == (AnySevenUpTo(h, 10) || SevenBits11(h));
    assert AnySevenUpTo(h, 10) == (AnySevenUpTo(h, 9) || SevenBits10(h));
    assert AnySevenUpTo(h, 9) == (AnySevenUpTo(h, 8) || SevenBits9(h));
    assert AnySevenUpTo(h, 8) == (AnySevenUpTo(h, 7) || SevenBits8(h));
    assert AnySevenUpTo(h, 7) == (AnySevenUpTo(h, 6) || SevenBits7(h));
    assert AnySevenUpTo(h, 6) == (AnySevenUpTo(h, 5) || SevenBits6(h));
    assert AnySevenUpTo(h, 5) == (AnySevenUpTo(h, 4) || SevenBits5(h));
    assert AnySevenUpTo(h, 4) == (AnySevenUpTo(h, 3) || SevenBits4(h));
    assert AnySevenUpTo(h, 3) == (AnySevenUpTo(h, 2) || SevenBits3(h));
    assert AnySevenUpTo(h, 2) == (AnySevenUpTo(h, 1) || SevenBits2(h));
    assert AnySevenUpTo(h, 1) == (AnySevenUpTo(h, 0) || SevenBits1(h));
  }

  lemma Any7UptoResDigits(h: H3Index, res: int)
    requires 0 <= res <= MAX_H3_RES
    ensures HasAny7UptoRes(h, res) <==> AnySevenUpTo(h, res)
  {
    if res == 0 { Any7UptoRes0(h); }
    else if res == 1 { Any7UptoRes1(h); }
    else if res == 2 { Any7UptoRes2(h); }
    else if res == 3 { Any7UptoRes3(h); }
    else if res == 4 { Any7UptoRes4(h); }
    else if res == 5 { Any7UptoRes5(h); }
    else if res == 6 { Any7UptoRes6(h); }
    else if res == 7 { Any7UptoRes7(h); }
    else if res == 8 { Any7UptoRes8(h); }
    else if res == 9 { Any7UptoRes9(h); }
    else if res == 10 { Any7UptoRes10(h); }
    else if res == 11 { Any7UptoRes11(h); }
    else if res == 12 { Any7UptoRes12(h); }
    else if res == 13 { Any7UptoRes13(h); }
    else if res == 14 { Any7UptoRes14(h); }
    else { Any7UptoRes15(h); }
  }

  lemma {:induction false} AnySevenUpToView(h: H3Index, res: int)
    requires 0 <= res <= MAX_H3_RES
    ensures AnySevenUpTo(h, res) <==> exists i | 0 <= i < res :: DigitsOf(h)[i] == INVALID_DIGIT
    decreases res
  {
    if res > 0 {
      AnySevenUpToView(h, res - 1);
      SevenAtView(h, res);
    }
  }

  /** _hasAny7UptoRes finds a 7 exactly when one of digits 1..res is 7. */
  lemma HasAny7UptoResView(h: H3Index, res: int)
    requires 0 <= res <= MAX_H3_RES
    ensures HasAny7UptoRes(h, res) <==> exists i | 0 <= i < res :: DigitsOf(h)[i] == INVALID_DIGIT
  {
    Any7UptoResDigits(h, res);
    AnySevenUpToView(h, res);
  }

  // ---------------------------------------------------- _hasAll7AfterRes

  /** Every digit after res is 7: shift out everything above the unused
      digits of the complement and test for zero. */
  predicate HasAll7AfterRes(h: H3Index, res: int)
    requires 0 <= res <= MAX_H3_RES
  {
    if res < MAX_H3_RES then
      var shift := 19 + DigitShift(res);
      (!h << shift) >> shift == 0
    else
      true
  }

  lemma All7AfterResStep0(h: H3Index)
    ensures HasAll7AfterRes(h, 0) <==> (SevenBits1(h) && HasAll7AfterRes(h, 1))
  {
  }

  lemma All7AfterResStep1(h: H3Index)
    ensures HasAll7AfterRes(h, 1) <==> (SevenBits2(h) && HasAll7AfterRes(h, 2))
  {
  }

  lemma All7AfterResStep2(h: H3Index)
    ensures HasAll7AfterRes(h, 2) <==> (SevenBits3(h) && HasAll7AfterRes(h, 3))
  {
  }

  lemma All7AfterResStep3(h: H3Index)
    ensures HasAll7AfterRes(h, 3) <==> (SevenBits4(h) && HasAll7AfterRes(h, 4))
  {
  }

  lemma All7AfterResStep4(h: H3Index)
    ensures HasAll7AfterRes(h, 4) <==> (SevenBits5(h) && HasAll7AfterRes(h, 5))
  {
  }

  lemma All7AfterResStep5(h: H3Index)
    ensures HasAll7AfterRes(h, 5) <==> (SevenBits6(h) && HasAll7AfterRes(h, 6))
  {
  }

  lemma All7AfterResStep6(h: H3Index)
    ensures HasAll7AfterRes(h, 6) <==> (SevenBits7(h) && HasAll7AfterRes(h, 7))
  {
  }

  lemma All7AfterResStep7(h: H3Index)
    ensures HasAll7AfterRes(h, 7) <==> (SevenBits8(h) && HasAll7AfterRes(h, 8))
  {
  }

  lemma All7AfterResStep8(h: H3Index)
    ensures HasAll7AfterRes(h, 8) <==> (SevenBits9(h) && HasAll7AfterRes(h, 9))
  {
  }

  lemma All7AfterResStep9(h: H3Index)
    ensures HasAll7AfterRes(h, 9) <==> (SevenBits10(h) && HasAll7AfterRes(h, 10))
  {
  }

  lemma All7AfterResStep10(h: H3Index)
    ensures HasAll7AfterRes(h, 10) <==> (SevenBits11(h) && HasAll7AfterRes(h, 11))
  {
  }

  lemma All7AfterResStep11(h: H3Index)
    ensures HasAll7AfterRes(h, 11) <==> (SevenBits12(h) && HasAll7AfterRes(h, 12))
  {
  }

  lemma All7AfterResStep12(h: H3Index)
    ensures HasAll7AfterRes(h, 12) <==> (SevenBits13(h) && HasAll7AfterRes(h, 13))
  {
  }

  lemma All7AfterResStep13(h: H3Index)
    ensures HasAll7AfterRes(h, 13) <==> (SevenBits14(h) && HasAll7AfterRes(h, 14))
  {
  }

  lemma All7AfterResStep14(h: H3Index)
    ensures HasAll7AfterRes(h, 14) <==> (SevenBits15(h) && HasAll7AfterRes(h, 15))
  {
  }

  lemma HasAll7AfterResView14(h: H3Index)
    ensures HasAll7AfterRes(h, 14) <==> forall i | 14 <= i < MAX_H3_RES :: DigitsOf(h)[i] == INVALID_DIGIT
  {
    All7AfterResStep14(h);
    SevenAtView(h, 15);
    assert (forall i | 14 <= i < MAX_H3_RES :: DigitsOf(h)[i] == INVALID_DIGIT) <==> DigitsOf(h)[14] == INVALID_DIGIT;
  }

  lemma HasAll7AfterResView13(h: H3Index)
    ensures HasAll7AfterRes(h, 13) <==> forall i | 13 <= i < MAX_H3_RES :: DigitsOf(h)[i] == INVALID_DIGIT
  {
    var ds := DigitsOf(h);
    All7AfterResStep13(h);
    SevenAtView(h, 14);
    HasAll7AfterResView14(h);
    assert (forall i | 13 <= i < MAX_H3_RES :: ds[i] == INVALID_DIGIT) <==>
      (ds[13] == INVALID_DIGIT && forall i | 14 <= i < MAX_H3_RES :: ds[i] == INVALID_DIGIT);
  }

  lemma HasAll7AfterResView12(h: H3Index)
    ensures HasAll7AfterRes(h, 12) <==> forall i | 12 <= i < MAX_H3_RES :: DigitsOf(h)[i] == INVALID_DIGIT
  {
    var ds := DigitsOf(h);
    All7AfterResStep12(h);
    SevenAtView(h, 13);
    HasAll7AfterResView13(h);
    assert (forall i | 12 <= i < MAX_H3_RES :: ds[i] == INVALID_DIGIT) <==>
      (ds[12] == INVALID_DIGIT && forall i | 13 <= i < MAX_H3_RES :: ds[i] == INVALID_DIGIT);
  }

  lemma HasAll7AfterResView11(h: H3Index)
    ensures HasAll7AfterRes(h, 11) <==> forall i | 11 <= i < MAX_H3_RES :: DigitsOf(h)[i] == INVALID_DIGIT
  {
    var ds := DigitsOf(h);
    All7AfterResStep11(h);
    SevenAtView(h, 12);
    HasAll7AfterResView12(h);
    assert (forall i | 11 <= i < MAX_H3_RES :: ds[i] == INVALID_DIGIT) <==>
      (ds[11] == INVALID_DIGIT && forall i | 12 <= i < MAX_H3_RES :: ds[i] == INVALID_DIGIT);
  }

  lemma HasAll7AfterResView10(h: H3Index)
    ensures HasAll7AfterRes(h, 10) <==> forall i | 10 <= i < MAX_H3_RES :: DigitsOf(h)[i] == INVALID_DIGIT
  {
    var ds := DigitsOf(h);
    All7AfterResStep10(h);
    SevenAtView(h, 11);
    HasAll7AfterResView11(h);
    assert (forall i | 10 <= i < MAX_H3_RES :: ds[i] == INVALID_DIGIT) <==>
      (ds[10] == INVALID_DIGIT && forall i | 11 <= i < MAX_H3_RES :: ds[i] == INVALID_DIGIT);
  }

  lemma HasAll7AfterResView9(h: H3Index)
    ensures HasAll7AfterRes(h, 9) <==> forall i | 9 <= i < MAX_H3_RES :: DigitsOf(h)[i] == INVALID_DIGIT
  {
    var ds := DigitsOf(h);
    All7AfterResStep9(h);
    SevenAtView(h, 10);
    HasAll7AfterResView10(h);
    assert (forall i | 9 <= i < MAX_H3_RES :: ds[i] == INVALID_DIGIT) <==>
      (ds[9] == INVALID_DIGIT && forall i | 10 <= i < MAX_H3_RES :: ds[i] == INVALID_DIGIT);
  }

  lemma HasAll7AfterResView8(h: H3Index)
    ensures HasAll7AfterRes(h, 8) <==> forall i | 8 <= i < MAX_H3_RES :: DigitsOf(h)[i] == INVALID_DIGIT
  {
    var ds := DigitsOf(h);
    All7AfterResStep8(h);
    SevenAtView(h, 9);
    HasAll7AfterResView9(h);
    assert (forall i | 8 <= i < MAX_H3_RES :: ds[i] == INVALID_DIGIT) <==>
      (ds[8] == INVALID_DIGIT && forall i | 9 <= i < MAX_H3_RES :: ds[i] == INVALID_DIGIT);
  }

  lemma HasAll7AfterResView7(h: H3Index)
    ensures HasAll7AfterRes(h, 7) <==> forall i | 7 <= i < MAX_H3_RES :: DigitsOf(h)[i] == INVALID_DIGIT
  {
    var ds := DigitsOf(h);
    All7AfterResStep7(h);
    SevenAtView(h, 8);
    HasAll7AfterResView8(h);
    assert (forall i | 7 <= i < MAX_H3_RES :: ds[i] == INVALID_DIGIT) <==>
      (ds[7] == INVALID_DIGIT && forall i | 8 <= i < MAX_H3_RES :: ds[i] == INVALID_DIGIT);
  }

  lemma HasAll7AfterResView6(h: H3Index)
    ensures HasAll7AfterRes(h, 6) <==> forall i | 6 <= i < MAX_H3_RES :: DigitsOf(h)[i] == INVALID_DIGIT
  {
    var ds := DigitsOf(h);
    All7AfterResStep6(h);
    SevenAtView(h, 7);
    HasAll7AfterResView7(h);
    assert (forall i | 6 <= i < MAX_H3_RES :: ds[i] == INVALID_DIGIT) <==>
      (ds[6] == INVALID_DIGIT && forall i | 7 <= i < MAX_H3_RES :: ds[i] == INVALID_DIGIT);
  }

  lemma HasAll7AfterResView5(h: H3Index)
    ensures HasAll7AfterRes(h, 5) <==> forall i | 5 <= i < MAX_H3_RES :: DigitsOf(h)[i] == INVALID_DIGIT
  {
    var ds := DigitsOf(h);
    All7AfterResStep5(h);
    SevenAtView(h, 6);
    HasAll7AfterResView6(h);
    assert (forall i | 5 <= i < MAX_H3_RES :: ds[i] == INVALID_DIGIT) <==>
      (ds[5] == INVALID_DIGIT && forall i | 6 <= i < MAX_H3_RES :: ds[i] == INVALID_DIGIT);
  }

  lemma HasAll7AfterResView4(h: H3Index)
    ensures HasAll7AfterRes(h, 4) <==> forall i | 4 <= i < MAX_H3_RES :: DigitsOf(h)[i] == INVALID_DIGIT
  {
    var ds := DigitsOf(h);
    All7AfterResStep4(h);
    SevenAtView(h, 5);
    HasAll7AfterResView5(h);
    assert (forall i | 4 <= i < MAX_H3_RES :: ds[i] == INVALID_DIGIT) <==>
      (ds[4] == INVALID_DIGIT && forall i | 5 <= i < MAX_H3_RES :: ds[i] == INVALID_DIGIT);
  }

  lemma HasAll7AfterResView3(h: H3Index)
    ensures HasAll7AfterRes(h, 3) <==> forall i | 3 <= i < MAX_H3_RES :: DigitsOf(h)[i] == INVALID_DIGIT
  {
    var ds := DigitsOf(h);
    All7AfterResStep3(h);
    SevenAtView(h, 4);
    HasAll7AfterResView4(h);
    assert (forall i | 3 <= i < MAX_H3_RES :: ds[i] == INVALID_DIGIT) <==>
      (ds[3] == INVALID_DIGIT && forall i | 4 <= i < MAX_H3_RES :: ds[i] == INVALID_DIGIT);
  }

  lemma HasAll7AfterResView2(h: H3Index)
    ensures HasAll7AfterRes(h, 2) <==> forall i | 2 <= i < MAX_H3_RES :: DigitsOf(h)[i] == INVALID_DIGIT
  {
    var ds := DigitsOf(h);
    All7AfterResStep2(h);
    SevenAtView(h, 3);
    HasAll7AfterResView3(h);
    assert (forall i | 2 <= i < MAX_H3_RES :: ds[i] == INVALID_DIGIT) <==>
      (ds[2] == INVALID_DIGIT && forall i | 3 <= i < MAX_H3_RES :: ds[i] == INVALID_DIGIT);
  }

  lemma HasAll7AfterResView1(h: H3Index)
    ensures HasAll7AfterRes(h, 1) <==> forall i | 1 <= i < MAX_H3_RES :: DigitsOf(h)[i] == INVALID_DIGIT
  {
    var ds := DigitsOf(h);
    All7AfterResStep1(h);
    SevenAtView(h, 2);
    HasAll7AfterResView2(h);
    assert (forall i | 1 <= i < MAX_H3_RES :: ds[i] == INVALID_DIGIT) <==>
      (ds[1] == INVALID_DIGIT && forall i | 2 <= i < MAX_H3_RES :: ds[i] == INVALID_DIGIT);
  }

  lemma HasAll7AfterResView0(h: H3Index)
    ensures HasAll7AfterRes(h, 0) <==> forall i | 0 <= i < MAX_H3_RES :: DigitsOf(h)[i] == INVALID_DIGIT
  {
    var ds := DigitsOf(h);
    All7AfterResStep0(h);
    SevenAtView(h, 1);
    HasAll7AfterResView1(h);
    assert (forall i | 0 <= i < MAX_H3_RES :: ds[i] == INVALID_DIGIT) <==>
      (ds[0] == INVALID_DIGIT && forall i | 1 <= i < MAX_H3_RES :: ds[i] == INVALID_DIGIT);
  }

  /** _hasAll7AfterRes holds exactly when every digit after res is 7. */
  lemma HasAll7AfterResView(h: H3Index, res: int)
    requires 0 <= res <= MAX_H3_RES
    ensures HasAll7AfterRes(h, res) <==> forall i | res <= i < MAX_H3_RES :: DigitsOf(h)[i] == INVALID_DIGIT
  {
    if res == 0 { HasAll7AfterResView0(h); }
    else if res == 1 { HasAll7AfterResView1(h); }
    else if res == 2 { HasAll7AfterResView2(h); }
    else if res == 3 { HasAll7AfterResView3(h); }
    else if res == 4 { HasAll7AfterResView4(h); }
    else if res == 5 { HasAll7AfterResView5(h); }
    else if res == 6 { HasAll7AfterResView6(h); }
    else if res == 7 { HasAll7AfterResView7(h); }
    else if res == 8 { HasAll7AfterResView8(h); }
    else if res == 9 { HasAll7AfterResView9(h); }
    else if res == 10 { HasAll7AfterResView10(h); }
    else if res == 11 { HasAll7AfterResView11(h); }
    else if res == 12 { HasAll7AfterResView12(h); }
    else if res == 13 { HasAll7AfterResView13(h); }
    else if res == 14 { HasAll7AfterResView14(h); }
    else {  }
  }
}
