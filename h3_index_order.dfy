// The unsigned order of index words.  Two words whose fields agree above
// the digit of resolution r, and whose digits at r compare as d < d',
// compare the same way as whole words: the fields sit in the word from
// the most significant bit down.  As in H3IndexCarry, each fact is proved
// per literal resolution and dispatched on r; the raw comparison is
// stated on the bits above the digit, which the fields above it fix.

module H3IndexOrder {
  import opened H3Api
  import opened H3IndexBits
  import opened H3IndexFields

  lemma WordLessBits1(a: H3Index, b: H3Index)
    requires a >> 45 == b >> 45 && DigitBits1(a) < DigitBits1(b)
    ensures a < b
  {
  }

  lemma FieldsAbove1(a: H3Index, b: H3Index)
    requires HighBitBits(a) == HighBitBits(b) && ModeBits(a) == ModeBits(b) && ReservedBits(a) == ReservedBits(b)
    requires ResolutionBits(a) == ResolutionBits(b) && BaseCellBits(a) == BaseCellBits(b)
    ensures a >> 45 == b >> 45
  {
  }

  lemma WordLessBits2(a: H3Index, b: H3Index)
    requires a >> 42 == b >> 42 && DigitBits2(a) < DigitBits2(b)
    ensures a < b
  {
  }

  lemma FieldsAbove2(a: H3Index, b: H3Index)
    requires HighBitBits(a) == HighBitBits(b) && ModeBits(a) == ModeBits(b) && ReservedBits(a) == ReservedBits(b)
    requires ResolutionBits(a) == ResolutionBits(b) && BaseCellBits(a) == BaseCellBits(b)
    requires DigitBits1(a) == DigitBits1(b)
    ensures a >> 42 == b >> 42
  {
  }

  lemma WordLessBits3(a: H3Index, b: H3Index)
    requires a >> 39 == b >> 39 && DigitBits3(a) < DigitBits3(b)
    ensures a < b
  {
  }

  lemma FieldsAbove3(a: H3Index, b: H3Index)
    requires HighBitBits(a) == HighBitBits(b) && ModeBits(a) == ModeBits(b) && ReservedBits(a) == ReservedBits(b)
    requires ResolutionBits(a) == ResolutionBits(b) && BaseCellBits(a) == BaseCellBits(b)
    requires DigitBits1(a) == DigitBits1(b)
    requires DigitBits2(a) == DigitBits2(b)
    ensures a >> 39 == b >> 39
  {
  }

  lemma WordLessBits4(a: H3Index, b: H3Index)
    requires a >> 36 == b >> 36 && DigitBits4(a) < DigitBits4(b)
    ensures a < b
  {
  }

  lemma FieldsAbove4(a: H3Index, b: H3Index)
    requires HighBitBits(a) == HighBitBits(b) && ModeBits(a) == ModeBits(b) && ReservedBits(a) == ReservedBits(b)
    requires ResolutionBits(a) == ResolutionBits(b) && BaseCellBits(a) == BaseCellBits(b)
    requires DigitBits1(a) == DigitBits1(b)
    requires DigitBits2(a) == DigitBits2(b)
    requires DigitBits3(a) == DigitBits3(b)
    ensures a >> 36 == b >> 36
  {
  }

  lemma WordLessBits5(a: H3Index, b: H3Index)
    requires a >> 33 == b >> 33 && DigitBits5(a) < DigitBits5(b)
    ensures a < b
  {
  }

  lemma FieldsAbove5(a: H3Index, b: H3Index)
    requires HighBitBits(a) == HighBitBits(b) && ModeBits(a) == ModeBits(b) && ReservedBits(a) == ReservedBits(b)
    requires ResolutionBits(a) == ResolutionBits(b) && BaseCellBits(a) == BaseCellBits(b)
    requires DigitBits1(a) == DigitBits1(b)
    requires DigitBits2(a) == DigitBits2(b)
    requires DigitBits3(a) == DigitBits3(b)
    requires DigitBits4(a) == DigitBits4(b)
    ensures a >> 33 == b >> 33
  {
  }

  lemma WordLessBits6(a: H3Index, b: H3Index)
    requires a >> 30 == b >> 30 && DigitBits6(a) < DigitBits6(b)
    ensures a < b
  {
  }

  lemma FieldsAbove6(a: H3Index, b: H3Index)
    requires HighBitBits(a) == HighBitBits(b) && ModeBits(a) == ModeBits(b) && ReservedBits(a) == ReservedBits(b)
    requires ResolutionBits(a) == ResolutionBits(b) && BaseCellBits(a) == BaseCellBits(b)
    requires DigitBits1(a) == DigitBits1(b)
    requires DigitBits2(a) == DigitBits2(b)
    requires DigitBits3(a) == DigitBits3(b)
    requires DigitBits4(a) == DigitBits4(b)
    requires DigitBits5(a) == DigitBits5(b)
    ensures a >> 30 == b >> 30
  {
  }

  lemma WordLessBits7(a: H3Index, b: H3Index)
    requires a >> 27 == b >> 27 && DigitBits7(a) < DigitBits7(b)
    ensures a < b
  {
  }

  lemma FieldsAbove7(a: H3Index, b: H3Index)
    requires HighBitBits(a) == HighBitBits(b) && ModeBits(a) == ModeBits(b) && ReservedBits(a) == ReservedBits(b)
    requires ResolutionBits(a) == ResolutionBits(b) && BaseCellBits(a) == BaseCellBits(b)
    requires DigitBits1(a) == DigitBits1(b)
    requires DigitBits2(a) == DigitBits2(b)
    requires DigitBits3(a) == DigitBits3(b)
    requires DigitBits4(a) == DigitBits4(b)
    requires DigitBits5(a) == DigitBits5(b)
    requires DigitBits6(a) == DigitBits6(b)
    ensures a >> 27 == b >> 27
  {
  }

  lemma WordLessBits8(a: H3Index, b: H3Index)
    requires a >> 24 == b >> 24 && DigitBits8(a) < DigitBits8(b)
    ensures a < b
  {
  }

  lemma FieldsAbove8(a: H3Index, b: H3Index)
    requires HighBitBits(a) == HighBitBits(b) && ModeBits(a) == ModeBits(b) && ReservedBits(a) == ReservedBits(b)
    requires ResolutionBits(a) == ResolutionBits(b) && BaseCellBits(a) == BaseCellBits(b)
    requires DigitBits1(a) == DigitBits1(b)
    requires DigitBits2(a) == DigitBits2(b)
    requires DigitBits3(a) == DigitBits3(b)
    requires DigitBits4(a) == DigitBits4(b)
    requires DigitBits5(a) == DigitBits5(b)
    requires DigitBits6(a) == DigitBits6(b)
    requires DigitBits7(a) == DigitBits7(b)
    ensures a >> 24 == b >> 24
  {
  }

  lemma WordLessBits9(a: H3Index, b: H3Index)
    requires a >> 21 == b >> 21 && DigitBits9(a) < DigitBits9(b)
    ensures a < b
  {
  }

  lemma FieldsAbove9(a: H3Index, b: H3Index)
    requires HighBitBits(a) == HighBitBits(b) && ModeBits(a) == ModeBits(b) && ReservedBits(a) == ReservedBits(b)
    requires ResolutionBits(a) == ResolutionBits(b) && BaseCellBits(a) == BaseCellBits(b)
    requires DigitBits1(a) == DigitBits1(b)
    requires DigitBits2(a) == DigitBits2(b)
    requires DigitBits3(a) == DigitBits3(b)
    requires DigitBits4(a) == DigitBits4(b)
    requires DigitBits5(a) == DigitBits5(b)
    requires DigitBits6(a) == DigitBits6(b)
    requires DigitBits7(a) == DigitBits7(b)
    requires DigitBits8(a) == DigitBits8(b)
    ensures a >> 21 == b >> 21
  {
  }

  lemma WordLessBits10(a: H3Index, b: H3Index)
    requires a >> 18 == b >> 18 && DigitBits10(a) < DigitBits10(b)
    ensures a < b
  {
  }

  lemma FieldsAbove10(a: H3Index, b: H3Index)
    requires HighBitBits(a) == HighBitBits(b) && ModeBits(a) == ModeBits(b) && ReservedBits(a) == ReservedBits(b)
    requires ResolutionBits(a) == ResolutionBits(b) && BaseCellBits(a) == BaseCellBits(b)
    requires DigitBits1(a) == DigitBits1(b)
    requires DigitBits2(a) == DigitBits2(b)
    requires DigitBits3(a) == DigitBits3(b)
    requires DigitBits4(a) == DigitBits4(b)
    requires DigitBits5(a) == DigitBits5(b)
    requires DigitBits6(a) == DigitBits6(b)
    requires DigitBits7(a) == DigitBits7(b)
    requires DigitBits8(a) == DigitBits8(b)
    requires DigitBits9(a) == DigitBits9(b)
    ensures a >> 18 == b >> 18
  {
  }

  lemma WordLessBits11(a: H3Index, b: H3Index)
    requires a >> 15 == b >> 15 && DigitBits11(a) < DigitBits11(b)
    ensures a < b
  {
  }

  lemma FieldsAbove11(a: H3Index, b: H3Index)
    requires HighBitBits(a) == HighBitBits(b) && ModeBits(a) == ModeBits(b) && ReservedBits(a) == ReservedBits(b)
    requires ResolutionBits(a) == ResolutionBits(b) && BaseCellBits(a) == BaseCellBits(b)
    requires DigitBits1(a) == DigitBits1(b)
    requires DigitBits2(a) == DigitBits2(b)
    requires DigitBits3(a) == DigitBits3(b)
    requires DigitBits4(a) == DigitBits4(b)
    requires DigitBits5(a) == DigitBits5(b)
    requires DigitBits6(a) == DigitBits6(b)
    requires DigitBits7(a) == DigitBits7(b)
    requires DigitBits8(a) == DigitBits8(b)
    requires DigitBits9(a) == DigitBits9(b)
    requires DigitBits10(a) == DigitBits10(b)
    ensures a >> 15 == b >> 15
  {
  }

  lemma WordLessBits12(a: H3Index, b: H3Index)
    requires a >> 12 == b >> 12 && DigitBits12(a) < DigitBits12(b)
    ensures a < b
  {
  }

  lemma FieldsAbove12(a: H3Index, b: H3Index)
    requires HighBitBits(a) == HighBitBits(b) && ModeBits(a) == ModeBits(b) && ReservedBits(a) == ReservedBits(b)
    requires ResolutionBits(a) == ResolutionBits(b) && BaseCellBits(a) == BaseCellBits(b)
    requires DigitBits1(a) == DigitBits1(b)
    requires DigitBits2(a) == DigitBits2(b)
    requires DigitBits3(a) == DigitBits3(b)
    requires DigitBits4(a) == DigitBits4(b)
    requires DigitBits5(a) == DigitBits5(b)
    requires DigitBits6(a) == DigitBits6(b)
    requires DigitBits7(a) == DigitBits7(b)
    requires DigitBits8(a) == DigitBits8(b)
    requires DigitBits9(a) == DigitBits9(b)
    requires DigitBits10(a) == DigitBits10(b)
    requires DigitBits11(a) == DigitBits11(b)
    ensures a >> 12 == b >> 12
  {
  }

  lemma WordLessBits13(a: H3Index, b: H3Index)
    requires a >> 9 == b >> 9 && DigitBits13(a) < DigitBits13(b)
    ensures a < b
  {
  }

  lemma FieldsAbove13(a: H3Index, b: H3Index)
    requires HighBitBits(a) == HighBitBits(b) && ModeBits(a) == ModeBits(b) && ReservedBits(a) == ReservedBits(b)
    requires ResolutionBits(a) == ResolutionBits(b) && BaseCellBits(a) == BaseCellBits(b)
    requires DigitBits1(a) == DigitBits1(b)
    requires DigitBits2(a) == DigitBits2(b)
    requires DigitBits3(a) == DigitBits3(b)
    requires DigitBits4(a) == DigitBits4(b)
    requires DigitBits5(a) == DigitBits5(b)
    requires DigitBits6(a) == DigitBits6(b)
    requires DigitBits7(a) == DigitBits7(b)
    requires DigitBits8(a) == DigitBits8(b)
    requires DigitBits9(a) == DigitBits9(b)
    requires DigitBits10(a) == DigitBits10(b)
    requires DigitBits11(a) == DigitBits11(b)
    requires DigitBits12(a) == DigitBits12(b)
    ensures a >> 9 == b >> 9
  {
  }

  lemma WordLessBits14(a: H3Index, b: H3Index)
    requires a >> 6 == b >> 6 && DigitBits14(a) < DigitBits14(b)
    ensures a < b
  {
  }

  lemma FieldsAbove14(a: H3Index, b: H3Index)
    requires HighBitBits(a) == HighBitBits(b) && ModeBits(a) == ModeBits(b) && ReservedBits(a) == ReservedBits(b)
    requires ResolutionBits(a) == ResolutionBits(b) && BaseCellBits(a) == BaseCellBits(b)
    requires DigitBits1(a) == DigitBits1(b)
    requires DigitBits2(a) == DigitBits2(b)
    requires DigitBits3(a) == DigitBits3(b)
    requires DigitBits4(a) == DigitBits4(b)
    requires DigitBits5(a) == DigitBits5(b)
    requires DigitBits6(a) == DigitBits6(b)
    requires DigitBits7(a) == DigitBits7(b)
    requires DigitBits8(a) == DigitBits8(b)
    requires DigitBits9(a) == DigitBits9(b)
    requires DigitBits10(a) == DigitBits10(b)
    requires DigitBits11(a) == DigitBits11(b)
    requires DigitBits12(a) == DigitBits12(b)
    requires DigitBits13(a) == DigitBits13(b)
    ensures a >> 6 == b >> 6
  {
  }

  lemma WordLessBits15(a: H3Index, b: H3Index)
    requires a >> 3 == b >> 3 && DigitBits15(a) < DigitBits15(b)
    ensures a < b
  {
  }

  lemma FieldsAbove15(a: H3Index, b: H3Index)
    requires HighBitBits(a) == HighBitBits(b) && ModeBits(a) == ModeBits(b) && ReservedBits(a) == ReservedBits(b)
    requires ResolutionBits(a) == ResolutionBits(b) && BaseCellBits(a) == BaseCellBits(b)
    requires DigitBits1(a) == DigitBits1(b)
    requires DigitBits2(a) == DigitBits2(b)
    requires DigitBits3(a) == DigitBits3(b)
    requires DigitBits4(a) == DigitBits4(b)
    requires DigitBits5(a) == DigitBits5(b)
    requires DigitBits6(a) == DigitBits6(b)
    requires DigitBits7(a) == DigitBits7(b)
    requires DigitBits8(a) == DigitBits8(b)
    requires DigitBits9(a) == DigitBits9(b)
    requires DigitBits10(a) == DigitBits10(b)
    requires DigitBits11(a) == DigitBits11(b)
    requires DigitBits12(a) == DigitBits12(b)
    requires DigitBits13(a) == DigitBits13(b)
    requires DigitBits14(a) == DigitBits14(b)
    ensures a >> 3 == b >> 3
  {
  }

  /** The fields of x and y agree above the digit of resolution r. */
  predicate LayoutAbove(x: Layout, y: Layout, r: int)
    requires 1 <= r <= MAX_H3_RES
  {
    x.highBit == y.highBit && x.mode == y.mode && x.reserved == y.reserved && x.res == y.res && x.baseCell == y.baseCell
    && forall q | 1 <= q < r :: DigitAt(x.digits, q) == DigitAt(y.digits, q)
  }

  lemma WordLessFor1(a: H3Index, b: H3Index, r: int)
    requires r == 1 && LayoutAbove(Decode(a), Decode(b), r) && DigitAt(Decode(a).digits, r) < DigitAt(Decode(b).digits, r)
    ensures a < b
  {
    FieldsAbove1(a, b);
    WordLessBits1(a, b);
  }

  lemma WordLessFor2(a: H3Index, b: H3Index, r: int)
    requires r == 2 && LayoutAbove(Decode(a), Decode(b), r) && DigitAt(Decode(a).digits, r) < DigitAt(Decode(b).digits, r)
    ensures a < b
  {
    assert DigitAt(Decode(a).digits, 1) == DigitAt(Decode(b).digits, 1);
    FieldsAbove2(a, b);
    WordLessBits2(a, b);
  }

  lemma WordLessFor3(a: H3Index, b: H3Index, r: int)
    requires r == 3 && LayoutAbove(Decode(a), Decode(b), r) && DigitAt(Decode(a).digits, r) < DigitAt(Decode(b).digits, r)
    ensures a < b
  {
    assert DigitAt(Decode(a).digits, 1) == DigitAt(Decode(b).digits, 1);
    assert DigitAt(Decode(a).digits, 2) == DigitAt(Decode(b).digits, 2);
    FieldsAbove3(a, b);
    WordLessBits3(a, b);
  }

  lemma WordLessFor4(a: H3Index, b: H3Index, r: int)
    requires r == 4 && LayoutAbove(Decode(a), Decode(b), r) && DigitAt(Decode(a).digits, r) < DigitAt(Decode(b).digits, r)
    ensures a < b
  {
    assert DigitAt(Decode(a).digits, 1) == DigitAt(Decode(b).digits, 1);
    assert DigitAt(Decode(a).digits, 2) == DigitAt(Decode(b).digits, 2);
    assert DigitAt(Decode(a).digits, 3) == DigitAt(Decode(b).digits, 3);
    FieldsAbove4(a, b);
    WordLessBits4(a, b);
  }

  lemma WordLessFor5(a: H3Index, b: H3Index, r: int)
    requires r == 5 && LayoutAbove(Decode(a), Decode(b), r) && DigitAt(Decode(a).digits, r) < DigitAt(Decode(b).digits, r)
    ensures a < b
  {
    assert DigitAt(Decode(a).digits, 1) == DigitAt(Decode(b).digits, 1);
    assert DigitAt(Decode(a).digits, 2) == DigitAt(Decode(b).digits, 2);
    assert DigitAt(Decode(a).digits, 3) == DigitAt(Decode(b).digits, 3);
    assert DigitAt(Decode(a).digits, 4) == DigitAt(Decode(b).digits, 4);
    FieldsAbove5(a, b);
    WordLessBits5(a, b);
  }

  lemma WordLessFor6(a: H3Index, b: H3Index, r: int)
    requires r == 6 && LayoutAbove(Decode(a), Decode(b), r) && DigitAt(Decode(a).digits, r) < DigitAt(Decode(b).digits, r)
    ensures a < b
  {
    assert DigitAt(Decode(a).digits, 1) == DigitAt(Decode(b).digits, 1);
    assert DigitAt(Decode(a).digits, 2) == DigitAt(Decode(b).digits, 2);
    assert DigitAt(Decode(a).digits, 3) == DigitAt(Decode(b).digits, 3);
    assert DigitAt(Decode(a).digits, 4) == DigitAt(Decode(b).digits, 4);
    assert DigitAt(Decode(a).digits, 5) == DigitAt(Decode(b).digits, 5);
    FieldsAbove6(a, b);
    WordLessBits6(a, b);
  }

  lemma WordLessFor7(a: H3Index, b: H3Index, r: int)
    requires r == 7 && LayoutAbove(Decode(a), Decode(b), r) && DigitAt(Decode(a).digits, r) < DigitAt(Decode(b).digits, r)
    ensures a < b
  {
    assert DigitAt(Decode(a).digits, 1) == DigitAt(Decode(b).digits, 1);
    assert DigitAt(Decode(a).digits, 2) == DigitAt(Decode(b).digits, 2);
    assert DigitAt(Decode(a).digits, 3) == DigitAt(Decode(b).digits, 3);
    assert DigitAt(Decode(a).digits, 4) == DigitAt(Decode(b).digits, 4);
    assert DigitAt(Decode(a).digits, 5) == DigitAt(Decode(b).digits, 5);
    assert DigitAt(Decode(a).digits, 6) == DigitAt(Decode(b).digits, 6);
    FieldsAbove7(a, b);
    WordLessBits7(a, b);
  }

  lemma WordLessFor8(a: H3Index, b: H3Index, r: int)
    requires r == 8 && LayoutAbove(Decode(a), Decode(b), r) && DigitAt(Decode(a).digits, r) < DigitAt(Decode(b).digits, r)
    ensures a < b
  {
    assert DigitAt(Decode(a).digits, 1) == DigitAt(Decode(b).digits, 1);
    assert DigitAt(Decode(a).digits, 2) == DigitAt(Decode(b).digits, 2);
    assert DigitAt(Decode(a).digits, 3) == DigitAt(Decode(b).digits, 3);
    assert DigitAt(Decode(a).digits, 4) == DigitAt(Decode(b).digits, 4);
    assert DigitAt(Decode(a).digits, 5) == DigitAt(Decode(b).digits, 5);
    assert DigitAt(Decode(a).digits, 6) == DigitAt(Decode(b).digits, 6);
    assert DigitAt(Decode(a).digits, 7) == DigitAt(Decode(b).digits, 7);
    FieldsAbove8(a, b);
    WordLessBits8(a, b);
  }

  lemma WordLessFor9(a: H3Index, b: H3Index, r: int)
    requires r == 9 && LayoutAbove(Decode(a), Decode(b), r) && DigitAt(Decode(a).digits, r) < DigitAt(Decode(b).digits, r)
    ensures a < b
  {
    assert DigitAt(Decode(a).digits, 1) == DigitAt(Decode(b).digits, 1);
    assert DigitAt(Decode(a).digits, 2) == DigitAt(Decode(b).digits, 2);
    assert DigitAt(Decode(a).digits, 3) == DigitAt(Decode(b).digits, 3);
    assert DigitAt(Decode(a).digits, 4) == DigitAt(Decode(b).digits, 4);
    assert DigitAt(Decode(a).digits, 5) == DigitAt(Decode(b).digits, 5);
    assert DigitAt(Decode(a).digits, 6) == DigitAt(Decode(b).digits, 6);
    assert DigitAt(Decode(a).digits, 7) == DigitAt(Decode(b).digits, 7);
    assert DigitAt(Decode(a).digits, 8) == DigitAt(Decode(b).digits, 8);
    FieldsAbove9(a, b);
    WordLessBits9(a, b);
  }

  lemma WordLessFor10(a: H3Index, b: H3Index, r: int)
    requires r == 10 && LayoutAbove(Decode(a), Decode(b), r) && DigitAt(Decode(a).digits, r) < DigitAt(Decode(b).digits, r)
    ensures a < b
  {
    assert DigitAt(Decode(a).digits, 1) == DigitAt(Decode(b).digits, 1);
    assert DigitAt(Decode(a).digits, 2) == DigitAt(Decode(b).digits, 2);
    assert DigitAt(Decode(a).digits, 3) == DigitAt(Decode(b).digits, 3);
    assert DigitAt(Decode(a).digits, 4) == DigitAt(Decode(b).digits, 4);
    assert DigitAt(Decode(a).digits, 5) == DigitAt(Decode(b).digits, 5);
    assert DigitAt(Decode(a).digits, 6) == DigitAt(Decode(b).digits, 6);
    assert DigitAt(Decode(a).digits, 7) == DigitAt(Decode(b).digits, 7);
    assert DigitAt(Decode(a).digits, 8) == DigitAt(Decode(b).digits, 8);
    assert DigitAt(Decode(a).digits, 9) == DigitAt(Decode(b).digits, 9);
    FieldsAbove10(a, b);
    WordLessBits10(a, b);
  }

  lemma WordLessFor11(a: H3Index, b: H3Index, r: int)
    requires r == 11 && LayoutAbove(Decode(a), Decode(b), r) && DigitAt(Decode(a).digits, r) < DigitAt(Decode(b).digits, r)
    ensures a < b
  {
    assert DigitAt(Decode(a).digits, 1) == DigitAt(Decode(b).digits, 1);
    assert DigitAt(Decode(a).digits, 2) == DigitAt(Decode(b).digits, 2);
    assert DigitAt(Decode(a).digits, 3) == DigitAt(Decode(b).digits, 3);
    assert DigitAt(Decode(a).digits, 4) == DigitAt(Decode(b).digits, 4);
    assert DigitAt(Decode(a).digits, 5) == DigitAt(Decode(b).digits, 5);
    assert DigitAt(Decode(a).digits, 6) == DigitAt(Decode(b).digits, 6);
    assert DigitAt(Decode(a).digits, 7) == DigitAt(Decode(b).digits, 7);
    assert DigitAt(Decode(a).digits, 8) == DigitAt(Decode(b).digits, 8);
    assert DigitAt(Decode(a).digits, 9) == DigitAt(Decode(b).digits, 9);
    assert DigitAt(Decode(a).digits, 10) == DigitAt(Decode(b).digits, 10);
    FieldsAbove11(a, b);
    WordLessBits11(a, b);
  }

  lemma WordLessFor12(a: H3Index, b: H3Index, r: int)
    requires r == 12 && LayoutAbove(Decode(a), Decode(b), r) && DigitAt(Decode(a).digits, r) < DigitAt(Decode(b).digits, r)
    ensures a < b
  {
    assert DigitAt(Decode(a).digits, 1) == DigitAt(Decode(b).digits, 1);
    assert DigitAt(Decode(a).digits, 2) == DigitAt(Decode(b).digits, 2);
    assert DigitAt(Decode(a).digits, 3) == DigitAt(Decode(b).digits, 3);
    assert DigitAt(Decode(a).digits, 4) == DigitAt(Decode(b).digits, 4);
    assert DigitAt(Decode(a).digits, 5) == DigitAt(Decode(b).digits, 5);
    assert DigitAt(Decode(a).digits, 6) == DigitAt(Decode(b).digits, 6);
    assert DigitAt(Decode(a).digits, 7) == DigitAt(Decode(b).digits, 7);
    assert DigitAt(Decode(a).digits, 8) == DigitAt(Decode(b).digits, 8);
    assert DigitAt(Decode(a).digits, 9) == DigitAt(Decode(b).digits, 9);
    assert DigitAt(Decode(a).digits, 10) == DigitAt(Decode(b).digits, 10);
    assert DigitAt(Decode(a).digits, 11) == DigitAt(Decode(b).digits, 11);
    FieldsAbove12(a, b);
    WordLessBits12(a, b);
  }

  lemma WordLessFor13(a: H3Index, b: H3Index, r: int)
    requires r == 13 && LayoutAbove(Decode(a), Decode(b), r) && DigitAt(Decode(a).digits, r) < DigitAt(Decode(b).digits, r)
    ensures a < b
  {
    assert DigitAt(Decode(a).digits, 1) == DigitAt(Decode(b).digits, 1);
    assert DigitAt(Decode(a).digits, 2) == DigitAt(Decode(b).digits, 2);
    assert DigitAt(Decode(a).digits, 3) == DigitAt(Decode(b).digits, 3);
    assert DigitAt(Decode(a).digits, 4) == DigitAt(Decode(b).digits, 4);
    assert DigitAt(Decode(a).digits, 5) == DigitAt(Decode(b).digits, 5);
    assert DigitAt(Decode(a).digits, 6) == DigitAt(Decode(b).digits, 6);
    assert DigitAt(Decode(a).digits, 7) == DigitAt(Decode(b).digits, 7);
    assert DigitAt(Decode(a).digits, 8) == DigitAt(Decode(b).digits, 8);
    assert DigitAt(Decode(a).digits, 9) == DigitAt(Decode(b).digits, 9);
    assert DigitAt(Decode(a).digits, 10) == DigitAt(Decode(b).digits, 10);
    assert DigitAt(Decode(a).digits, 11) == DigitAt(Decode(b).digits, 11);
    assert DigitAt(Decode(a).digits, 12) == DigitAt(Decode(b).digits, 12);
    FieldsAbove13(a, b);
    WordLessBits13(a, b);
  }

  lemma WordLessFor14(a: H3Index, b: H3Index, r: int)
    requires r == 14 && LayoutAbove(Decode(a), Decode(b), r) && DigitAt(Decode(a).digits, r) < DigitAt(Decode(b).digits, r)
    ensures a < b
  {
    assert DigitAt(Decode(a).digits, 1) == DigitAt(Decode(b).digits, 1);
    assert DigitAt(Decode(a).digits, 2) == DigitAt(Decode(b).digits, 2);
    assert DigitAt(Decode(a).digits, 3) == DigitAt(Decode(b).digits, 3);
    assert DigitAt(Decode(a).digits, 4) == DigitAt(Decode(b).digits, 4);
    assert DigitAt(Decode(a).digits, 5) == DigitAt(Decode(b).digits, 5);
    assert DigitAt(Decode(a).digits, 6) == DigitAt(Decode(b).digits, 6);
    assert DigitAt(Decode(a).digits, 7) == DigitAt(Decode(b).digits, 7);
    assert DigitAt(Decode(a).digits, 8) == DigitAt(Decode(b).digits, 8);
    assert DigitAt(Decode(a).digits, 9) == DigitAt(Decode(b).digits, 9);
    assert DigitAt(Decode(a).digits, 10) == DigitAt(Decode(b).digits, 10);
    assert DigitAt(Decode(a).digits, 11) == DigitAt(Decode(b).digits, 11);
    assert DigitAt(Decode(a).digits, 12) == DigitAt(Decode(b).digits, 12);
    assert DigitAt(Decode(a).digits, 13) == DigitAt(Decode(b).digits, 13);
    FieldsAbove14(a, b);
    WordLessBits14(a, b);
  }

  lemma WordLessFor15(a: H3Index, b: H3Index, r: int)
    requires r == 15 && LayoutAbove(Decode(a), Decode(b), r) && DigitAt(Decode(a).digits, r) < DigitAt(Decode(b).digits, r)
    ensures a < b
  {
    assert DigitAt(Decode(a).digits, 1) == DigitAt(Decode(b).digits, 1);
    assert DigitAt(Decode(a).digits, 2) == DigitAt(Decode(b).digits, 2);
    assert DigitAt(Decode(a).digits, 3) == DigitAt(Decode(b).digits, 3);
    assert DigitAt(Decode(a).digits, 4) == DigitAt(Decode(b).digits, 4);
    assert DigitAt(Decode(a).digits, 5) == DigitAt(Decode(b).digits, 5);
    assert DigitAt(Decode(a).digits, 6) == DigitAt(Decode(b).digits, 6);
    assert DigitAt(Decode(a).digits, 7) == DigitAt(Decode(b).digits, 7);
    assert DigitAt(Decode(a).digits, 8) == DigitAt(Decode(b).digits, 8);
    assert DigitAt(Decode(a).digits, 9) == DigitAt(Decode(b).digits, 9);
    assert DigitAt(Decode(a).digits, 10) == DigitAt(Decode(b).digits, 10);
    assert DigitAt(Decode(a).digits, 11) == DigitAt(Decode(b).digits, 11);
    assert DigitAt(Decode(a).digits, 12) == DigitAt(Decode(b).digits, 12);
    assert DigitAt(Decode(a).digits, 13) == DigitAt(Decode(b).digits, 13);
    assert DigitAt(Decode(a).digits, 14) == DigitAt(Decode(b).digits, 14);
    FieldsAbove15(a, b);
    WordLessBits15(a, b);
  }

  /** Words agreeing above the digit of resolution r compare as that digit. */
  lemma WordLess(a: H3Index, b: H3Index, r: int)
    requires 1 <= r <= MAX_H3_RES
    requires LayoutAbove(Decode(a), Decode(b), r) && DigitAt(Decode(a).digits, r) < DigitAt(Decode(b).digits, r)
    ensures a < b
  {
    if r == 1 { WordLessFor1(a, b, r); }
    else if r == 2 { WordLessFor2(a, b, r); }
    else if r == 3 { WordLessFor3(a, b, r); }
    else if r == 4 { WordLessFor4(a, b, r); }
    else if r == 5 { WordLessFor5(a, b, r); }
    else if r == 6 { WordLessFor6(a, b, r); }
    else if r == 7 { WordLessFor7(a, b, r); }
    else if r == 8 { WordLessFor8(a, b, r); }
    else if r == 9 { WordLessFor9(a, b, r); }
    else if r == 10 { WordLessFor10(a, b, r); }
    else if r == 11 { WordLessFor11(a, b, r); }
    else if r == 12 { WordLessFor12(a, b, r); }
    else if r == 13 { WordLessFor13(a, b, r); }
    else if r == 14 { WordLessFor14(a, b, r); }
    else { WordLessFor15(a, b, r); }
  }

  // ------------------------------------------------------------ on views

  /** The views v and w agree on every field and on the digits of the
      resolutions above r. */
  predicate SameAbove(v: View, w: View, r: int)
    requires |v.digits| == MAX_H3_RES && |w.digits| == MAX_H3_RES && 1 <= r <= MAX_H3_RES
  {
    v.highBit == w.highBit && v.mode == w.mode && v.reserved == w.reserved && v.res == w.res && v.baseCell == w.baseCell
    && forall q | 0 <= q < r - 1 :: v.digits[q] == w.digits[q]
  }

  lemma DigitValueLess(x: bv3, y: bv3)
    requires DigitValue(x) < DigitValue(y)
    ensures x < y
  {
  }

  lemma LayoutAboveOfView(a: H3Index, b: H3Index, r: int)
    requires 1 <= r <= MAX_H3_RES && SameAbove(ViewOf(a), ViewOf(b), r)
    ensures LayoutAbove(Decode(a), Decode(b), r)
  {
    FieldsOfView(a);
    FieldsOfView(b);
    Conv1Bits(HighBitBits(a), HighBitBits(b));
    Conv4Bits(ModeBits(a), ModeBits(b));
    Conv3Bits(ReservedBits(a), ReservedBits(b));
    Conv4Bits(ResolutionBits(a), ResolutionBits(b));
    Conv7Bits(BaseCellBits(a), BaseCellBits(b));
    forall q | 1 <= q < r
      ensures DigitAt(Decode(a).digits, q) == DigitAt(Decode(b).digits, q)
    {
      GetIndexDigitView(a, q);
      GetIndexDigitView(b, q);
      IndexDigitDecode(a, q);
      IndexDigitDecode(b, q);
      DigitValueInjective(IndexDigitBits(a, q), IndexDigitBits(b, q));
    }
  }

  lemma DigitLessOfView(a: H3Index, b: H3Index, r: int)
    requires 1 <= r <= MAX_H3_RES && ViewOf(a).digits[r - 1] < ViewOf(b).digits[r - 1]
    ensures DigitAt(Decode(a).digits, r) < DigitAt(Decode(b).digits, r)
  {
    GetIndexDigitView(a, r);
    GetIndexDigitView(b, r);
    IndexDigitDecode(a, r);
    IndexDigitDecode(b, r);
    DigitValueLess(IndexDigitBits(a, r), IndexDigitBits(b, r));
  }

  /** Two indexes whose views agree above resolution r and whose digits
      at r compare as d < d' compare the same way as unsigned words. */
  lemma WordLessView(a: H3Index, b: H3Index, r: int)
    requires 1 <= r <= MAX_H3_RES && SameAbove(ViewOf(a), ViewOf(b), r)
    requires ViewOf(a).digits[r - 1] < ViewOf(b).digits[r - 1]
    ensures a < b
  {
    LayoutAboveOfView(a, b, r);
    DigitLessOfView(a, b, r);
    WordLess(a, b, r);
  }
}
