// _incrementResDigit of iterators.c adds one unit of a digit to the whole
// 64-bit word, so a digit that overflows carries into the next coarser
// digit.  As in H3IndexBits, the facts about that addition are proved once
// per literal resolution, restated for a variable resolution r equal to
// that literal (the `For` lemmas), and then dispatched on r.

module H3IndexCarry {
  import opened H3Api
  import opened H3IndexBits

  /** 1 shifted up by (15 - r) * 3 bits: one unit of the digit of
      resolution r, the amount _incrementResDigit adds to the word. */
  function DigitUnit(r: int): H3Index
    requires 1 <= r <= MAX_H3_RES
  {
    if r == 1 then 0x0000_0400_0000_0000
    else if r == 2 then 0x0000_0080_0000_0000
    else if r == 3 then 0x0000_0010_0000_0000
    else if r == 4 then 0x0000_0002_0000_0000
    else if r == 5 then 0x0000_0000_4000_0000
    else if r == 6 then 0x0000_0000_0800_0000
    else if r == 7 then 0x0000_0000_0100_0000
    else if r == 8 then 0x0000_0000_0020_0000
    else if r == 9 then 0x0000_0000_0004_0000
    else if r == 10 then 0x0000_0000_0000_8000
    else if r == 11 then 0x0000_0000_0000_1000
    else if r == 12 then 0x0000_0000_0000_0200
    else if r == 13 then 0x0000_0000_0000_0040
    else if r == 14 then 0x0000_0000_0000_0008
    else 0x0000_0000_0000_0001
  }

  lemma AddUnitNoCarry1(h: H3Index)
    requires DigitBits1(h) != 7
    ensures h + 0x0000_0400_0000_0000 == WithDigitBits1(h, DigitBits1(h) + 1)
  {
  }

  lemma AddUnitNoCarry2(h: H3Index)
    requires DigitBits2(h) != 7
    ensures h + 0x0000_0080_0000_0000 == WithDigitBits2(h, DigitBits2(h) + 1)
  {
  }

  lemma AddUnitCarry2(h: H3Index)
    requires DigitBits2(h) == 7 && DigitBits1(h) != 7
    ensures h + 0x0000_0080_0000_0000 == WithDigitBits1(WithDigitBits2(h, 0), DigitBits1(h) + 1)
  {
  }

  lemma AddUnitNoCarry3(h: H3Index)
    requires DigitBits3(h) != 7
    ensures h + 0x0000_0010_0000_0000 == WithDigitBits3(h, DigitBits3(h) + 1)
  {
  }

  lemma AddUnitCarry3(h: H3Index)
    requires DigitBits3(h) == 7 && DigitBits2(h) != 7
    ensures h + 0x0000_0010_0000_0000 == WithDigitBits2(WithDigitBits3(h, 0), DigitBits2(h) + 1)
  {
  }

  lemma AddUnitNoCarry4(h: H3Index)
    requires DigitBits4(h) != 7
    ensures h + 0x0000_0002_0000_0000 == WithDigitBits4(h, DigitBits4(h) + 1)
  {
  }

  lemma AddUnitCarry4(h: H3Index)
    requires DigitBits4(h) == 7 && DigitBits3(h) != 7
    ensures h + 0x0000_0002_0000_0000 == WithDigitBits3(WithDigitBits4(h, 0), DigitBits3(h) + 1)
  {
  }

  lemma AddUnitNoCarry5(h: H3Index)
    requires DigitBits5(h) != 7
    ensures h + 0x0000_0000_4000_0000 == WithDigitBits5(h, DigitBits5(h) + 1)
  {
  }

  lemma AddUnitCarry5(h: H3Index)
    requires DigitBits5(h) == 7 && DigitBits4(h) != 7
    ensures h + 0x0000_0000_4000_0000 == WithDigitBits4(WithDigitBits5(h, 0), DigitBits4(h) + 1)
  {
  }

  lemma AddUnitNoCarry6(h: H3Index)
    requires DigitBits6(h) != 7
    ensures h + 0x0000_0000_0800_0000 == WithDigitBits6(h, DigitBits6(h) + 1)
  {
  }

  lemma AddUnitCarry6(h: H3Index)
    requires DigitBits6(h) == 7 && DigitBits5(h) != 7
    ensures h + 0x0000_0000_0800_0000 == WithDigitBits5(WithDigitBits6(h, 0), DigitBits5(h) + 1)
  {
  }

  lemma AddUnitNoCarry7(h: H3Index)
    requires DigitBits7(h) != 7
    ensures h + 0x0000_0000_0100_0000 == WithDigitBits7(h, DigitBits7(h) + 1)
  {
  }

  lemma AddUnitCarry7(h: H3Index)
    requires DigitBits7(h) == 7 && DigitBits6(h) != 7
    ensures h + 0x0000_0000_0100_0000 == WithDigitBits6(WithDigitBits7(h, 0), DigitBits6(h) + 1)
  {
  }

  lemma AddUnitNoCarry8(h: H3Index)
    requires DigitBits8(h) != 7
    ensures h + 0x0000_0000_0020_0000 == WithDigitBits8(h, DigitBits8(h) + 1)
  {
  }

  lemma AddUnitCarry8(h: H3Index)
    requires DigitBits8(h) == 7 && DigitBits7(h) != 7
    ensures h + 0x0000_0000_0020_0000 == WithDigitBits7(WithDigitBits8(h, 0), DigitBits7(h) + 1)
  {
  }

  lemma AddUnitNoCarry9(h: H3Index)
    requires DigitBits9(h) != 7
    ensures h + 0x0000_0000_0004_0000 == WithDigitBits9(h, DigitBits9(h) + 1)
  {
  }

  lemma AddUnitCarry9(h: H3Index)
    requires DigitBits9(h) == 7 && DigitBits8(h) != 7
    ensures h + 0x0000_0000_0004_0000 == WithDigitBits8(WithDigitBits9(h, 0), DigitBits8(h) + 1)
  {
  }

  lemma AddUnitNoCarry10(h: H3Index)
    requires DigitBits10(h) != 7
    ensures h + 0x0000_0000_0000_8000 == WithDigitBits10(h, DigitBits10(h) + 1)
  {
  }

  lemma AddUnitCarry10(h: H3Index)
    requires DigitBits10(h) == 7 && DigitBits9(h) != 7
    ensures h + 0x0000_0000_0000_8000 == WithDigitBits9(WithDigitBits10(h, 0), DigitBits9(h) + 1)
  {
  }

  lemma AddUnitNoCarry11(h: H3Index)
    requires DigitBits11(h) != 7
    ensures h + 0x0000_0000_0000_1000 == WithDigitBits11(h, DigitBits11(h) + 1)
  {
  }

  lemma AddUnitCarry11(h: H3Index)
    requires DigitBits11(h) == 7 && DigitBits10(h) != 7
    ensures h + 0x0000_0000_0000_1000 == WithDigitBits10(WithDigitBits11(h, 0), DigitBits10(h) + 1)
  {
  }

  lemma AddUnitNoCarry12(h: H3Index)
    requires DigitBits12(h) != 7
    ensures h + 0x0000_0000_0000_0200 == WithDigitBits12(h, DigitBits12(h) + 1)
  {
  }

  lemma AddUnitCarry12(h: H3Index)
    requires DigitBits12(h) == 7 && DigitBits11(h) != 7
    ensures h + 0x0000_0000_0000_0200 == WithDigitBits11(WithDigitBits12(h, 0), DigitBits11(h) + 1)
  {
  }

  lemma AddUnitNoCarry13(h: H3Index)
    requires DigitBits13(h) != 7
    ensures h + 0x0000_0000_0000_0040 == WithDigitBits13(h, DigitBits13(h) + 1)
  {
  }

  lemma AddUnitCarry13(h: H3Index)
    requires DigitBits13(h) == 7 && DigitBits12(h) != 7
    ensures h + 0x0000_0000_0000_0040 == WithDigitBits12(WithDigitBits13(h, 0), DigitBits12(h) + 1)
  {
  }

  lemma AddUnitNoCarry14(h: H3Index)
    requires DigitBits14(h) != 7
    ensures h + 0x0000_0000_0000_0008 == WithDigitBits14(h, DigitBits14(h) + 1)
  {
  }

  lemma AddUnitCarry14(h: H3Index)
    requires DigitBits14(h) == 7 && DigitBits13(h) != 7
    ensures h + 0x0000_0000_0000_0008 == WithDigitBits13(WithDigitBits14(h, 0), DigitBits13(h) + 1)
  {
  }

  lemma AddUnitNoCarry15(h: H3Index)
    requires DigitBits15(h) != 7
    ensures h + 0x0000_0000_0000_0001 == WithDigitBits15(h, DigitBits15(h) + 1)
  {
  }

  lemma AddUnitCarry15(h: H3Index)
    requires DigitBits15(h) == 7 && DigitBits14(h) != 7
    ensures h + 0x0000_0000_0000_0001 == WithDigitBits14(WithDigitBits15(h, 0), DigitBits14(h) + 1)
  {
  }

  lemma AddUnitNoCarryFor1(h: H3Index, r: int)
    requires r == 1 && DigitAt(Decode(h).digits, r) != 7
    ensures h + DigitUnit(r) == WithIndexDigitBits(h, r, DigitAt(Decode(h).digits, r) + 1)
  {
    AddUnitNoCarry1(h);
  }

  lemma AddUnitNoCarryFor2(h: H3Index, r: int)
    requires r == 2 && DigitAt(Decode(h).digits, r) != 7
    ensures h + DigitUnit(r) == WithIndexDigitBits(h, r, DigitAt(Decode(h).digits, r) + 1)
  {
    AddUnitNoCarry2(h);
  }

  lemma AddUnitNoCarryFor3(h: H3Index, r: int)
    requires r == 3 && DigitAt(Decode(h).digits, r) != 7
    ensures h + DigitUnit(r) == WithIndexDigitBits(h, r, DigitAt(Decode(h).digits, r) + 1)
  {
    AddUnitNoCarry3(h);
  }

  lemma AddUnitNoCarryFor4(h: H3Index, r: int)
    requires r == 4 && DigitAt(Decode(h).digits, r) != 7
    ensures h + DigitUnit(r) == WithIndexDigitBits(h, r, DigitAt(Decode(h).digits, r) + 1)
  {
    AddUnitNoCarry4(h);
  }

  lemma AddUnitNoCarryFor5(h: H3Index, r: int)
    requires r == 5 && DigitAt(Decode(h).digits, r) != 7
    ensures h + DigitUnit(r) == WithIndexDigitBits(h, r, DigitAt(Decode(h).digits, r) + 1)
  {
    AddUnitNoCarry5(h);
  }

  lemma AddUnitNoCarryFor6(h: H3Index, r: int)
    requires r == 6 && DigitAt(Decode(h).digits, r) != 7
    ensures h + DigitUnit(r) == WithIndexDigitBits(h, r, DigitAt(Decode(h).digits, r) + 1)
  {
    AddUnitNoCarry6(h);
  }

  lemma AddUnitNoCarryFor7(h: H3Index, r: int)
    requires r == 7 && DigitAt(Decode(h).digits, r) != 7
    ensures h + DigitUnit(r) == WithIndexDigitBits(h, r, DigitAt(Decode(h).digits, r) + 1)
  {
    AddUnitNoCarry7(h);
  }

  lemma AddUnitNoCarryFor8(h: H3Index, r: int)
    requires r == 8 && DigitAt(Decode(h).digits, r) != 7
    ensures h + DigitUnit(r) == WithIndexDigitBits(h, r, DigitAt(Decode(h).digits, r) + 1)
  {
    AddUnitNoCarry8(h);
  }

  lemma AddUnitNoCarryFor9(h: H3Index, r: int)
    requires r == 9 && DigitAt(Decode(h).digits, r) != 7
    ensures h + DigitUnit(r) == WithIndexDigitBits(h, r, DigitAt(Decode(h).digits, r) + 1)
  {
    AddUnitNoCarry9(h);
  }

  lemma AddUnitNoCarryFor10(h: H3Index, r: int)
    requires r == 10 && DigitAt(Decode(h).digits, r) != 7
    ensures h + DigitUnit(r) == WithIndexDigitBits(h, r, DigitAt(Decode(h).digits, r) + 1)
  {
    AddUnitNoCarry10(h);
  }

  lemma AddUnitNoCarryFor11(h: H3Index, r: int)
    requires r == 11 && DigitAt(Decode(h).digits, r) != 7
    ensures h + DigitUnit(r) == WithIndexDigitBits(h, r, DigitAt(Decode(h).digits, r) + 1)
  {
    AddUnitNoCarry11(h);
  }

  lemma AddUnitNoCarryFor12(h: H3Index, r: int)
    requires r == 12 && DigitAt(Decode(h).digits, r) != 7
    ensures h + DigitUnit(r) == WithIndexDigitBits(h, r, DigitAt(Decode(h).digits, r) + 1)
  {
    AddUnitNoCarry12(h);
  }

  lemma AddUnitNoCarryFor13(h: H3Index, r: int)
    requires r == 13 && DigitAt(Decode(h).digits, r) != 7
    ensures h + DigitUnit(r) == WithIndexDigitBits(h, r, DigitAt(Decode(h).digits, r) + 1)
  {
    AddUnitNoCarry13(h);
  }

  lemma AddUnitNoCarryFor14(h: H3Index, r: int)
    requires r == 14 && DigitAt(Decode(h).digits, r) != 7
    ensures h + DigitUnit(r) == WithIndexDigitBits(h, r, DigitAt(Decode(h).digits, r) + 1)
  {
    AddUnitNoCarry14(h);
  }

  lemma AddUnitNoCarryFor15(h: H3Index, r: int)
    requires r == 15 && DigitAt(Decode(h).digits, r) != 7
    ensures h + DigitUnit(r) == WithIndexDigitBits(h, r, DigitAt(Decode(h).digits, r) + 1)
  {
    AddUnitNoCarry15(h);
  }

  lemma AddUnitCarryFor2(h: H3Index, r: int)
    requires r == 2 && DigitAt(Decode(h).digits, r) == 7 && DigitAt(Decode(h).digits, r - 1) != 7
    ensures h + DigitUnit(r) == WithIndexDigitBits(WithIndexDigitBits(h, r, 0), r - 1, DigitAt(Decode(h).digits, r - 1) + 1)
  {
    AddUnitCarry2(h);
  }

  lemma AddUnitCarryFor3(h: H3Index, r: int)
    requires r == 3 && DigitAt(Decode(h).digits, r) == 7 && DigitAt(Decode(h).digits, r - 1) != 7
    ensures h + DigitUnit(r) == WithIndexDigitBits(WithIndexDigitBits(h, r, 0), r - 1, DigitAt(Decode(h).digits, r - 1) + 1)
  {
    AddUnitCarry3(h);
  }

  lemma AddUnitCarryFor4(h: H3Index, r: int)
    requires r == 4 && DigitAt(Decode(h).digits, r) == 7 && DigitAt(Decode(h).digits, r - 1) != 7
    ensures h + DigitUnit(r) == WithIndexDigitBits(WithIndexDigitBits(h, r, 0), r - 1, DigitAt(Decode(h).digits, r - 1) + 1)
  {
    AddUnitCarry4(h);
  }

  lemma AddUnitCarryFor5(h: H3Index, r: int)
    requires r == 5 && DigitAt(Decode(h).digits, r) == 7 && DigitAt(Decode(h).digits, r - 1) != 7
    ensures h + DigitUnit(r) == WithIndexDigitBits(WithIndexDigitBits(h, r, 0), r - 1, DigitAt(Decode(h).digits, r - 1) + 1)
  {
    AddUnitCarry5(h);
  }

  lemma AddUnitCarryFor6(h: H3Index, r: int)
    requires r == 6 && DigitAt(Decode(h).digits, r) == 7 && DigitAt(Decode(h).digits, r - 1) != 7
    ensures h + DigitUnit(r) == WithIndexDigitBits(WithIndexDigitBits(h, r, 0), r - 1, DigitAt(Decode(h).digits, r - 1) + 1)
  {
    AddUnitCarry6(h);
  }

  lemma AddUnitCarryFor7(h: H3Index, r: int)
    requires r == 7 && DigitAt(Decode(h).digits, r) == 7 && DigitAt(Decode(h).digits, r - 1) != 7
    ensures h + DigitUnit(r) == WithIndexDigitBits(WithIndexDigitBits(h, r, 0), r - 1, DigitAt(Decode(h).digits, r - 1) + 1)
  {
    AddUnitCarry7(h);
  }

  lemma AddUnitCarryFor8(h: H3Index, r: int)
    requires r == 8 && DigitAt(Decode(h).digits, r) == 7 && DigitAt(Decode(h).digits, r - 1) != 7
    ensures h + DigitUnit(r) == WithIndexDigitBits(WithIndexDigitBits(h, r, 0), r - 1, DigitAt(Decode(h).digits, r - 1) + 1)
  {
    AddUnitCarry8(h);
  }

  lemma AddUnitCarryFor9(h: H3Index, r: int)
    requires r == 9 && DigitAt(Decode(h).digits, r) == 7 && DigitAt(Decode(h).digits, r - 1) != 7
    ensures h + DigitUnit(r) == WithIndexDigitBits(WithIndexDigitBits(h, r, 0), r - 1, DigitAt(Decode(h).digits, r - 1) + 1)
  {
    AddUnitCarry9(h);
  }

  lemma AddUnitCarryFor10(h: H3Index, r: int)
    requires r == 10 && DigitAt(Decode(h).digits, r) == 7 && DigitAt(Decode(h).digits, r - 1) != 7
    ensures h + DigitUnit(r) == WithIndexDigitBits(WithIndexDigitBits(h, r, 0), r - 1, DigitAt(Decode(h).digits, r - 1) + 1)
  {
    AddUnitCarry10(h);
  }

  lemma AddUnitCarryFor11(h: H3Index, r: int)
    requires r == 11 && DigitAt(Decode(h).digits, r) == 7 && DigitAt(Decode(h).digits, r - 1) != 7
    ensures h + DigitUnit(r) == WithIndexDigitBits(WithIndexDigitBits(h, r, 0), r - 1, DigitAt(Decode(h).digits, r - 1) + 1)
  {
    AddUnitCarry11(h);
  }

  lemma AddUnitCarryFor12(h: H3Index, r: int)
    requires r == 12 && DigitAt(Decode(h).digits, r) == 7 && DigitAt(Decode(h).digits, r - 1) != 7
    ensures h + DigitUnit(r) == WithIndexDigitBits(WithIndexDigitBits(h, r, 0), r - 1, DigitAt(Decode(h).digits, r - 1) + 1)
  {
    AddUnitCarry12(h);
  }

  lemma AddUnitCarryFor13(h: H3Index, r: int)
    requires r == 13 && DigitAt(Decode(h).digits, r) == 7 && DigitAt(Decode(h).digits, r - 1) != 7
    ensures h + DigitUnit(r) == WithIndexDigitBits(WithIndexDigitBits(h, r, 0), r - 1, DigitAt(Decode(h).digits, r - 1) + 1)
  {
    AddUnitCarry13(h);
  }

  lemma AddUnitCarryFor14(h: H3Index, r: int)
    requires r == 14 && DigitAt(Decode(h).digits, r) == 7 && DigitAt(Decode(h).digits, r - 1) != 7
    ensures h + DigitUnit(r) == WithIndexDigitBits(WithIndexDigitBits(h, r, 0), r - 1, DigitAt(Decode(h).digits, r - 1) + 1)
  {
    AddUnitCarry14(h);
  }

  lemma AddUnitCarryFor15(h: H3Index, r: int)
    requires r == 15 && DigitAt(Decode(h).digits, r) == 7 && DigitAt(Decode(h).digits, r - 1) != 7
    ensures h + DigitUnit(r) == WithIndexDigitBits(WithIndexDigitBits(h, r, 0), r - 1, DigitAt(Decode(h).digits, r - 1) + 1)
  {
    AddUnitCarry15(h);
  }

  /** Adding a unit to a digit below 7 increments that digit alone. */
  lemma AddUnitNoCarry(h: H3Index, r: int)
    requires 1 <= r <= MAX_H3_RES && DigitAt(Decode(h).digits, r) != 7
    ensures h + DigitUnit(r) == WithIndexDigitBits(h, r, DigitAt(Decode(h).digits, r) + 1)
  {
    if r == 1 { AddUnitNoCarryFor1(h, r); }
    else if r == 2 { AddUnitNoCarryFor2(h, r); }
    else if r == 3 { AddUnitNoCarryFor3(h, r); }
    else if r == 4 { AddUnitNoCarryFor4(h, r); }
    else if r == 5 { AddUnitNoCarryFor5(h, r); }
    else if r == 6 { AddUnitNoCarryFor6(h, r); }
    else if r == 7 { AddUnitNoCarryFor7(h, r); }
    else if r == 8 { AddUnitNoCarryFor8(h, r); }
    else if r == 9 { AddUnitNoCarryFor9(h, r); }
    else if r == 10 { AddUnitNoCarryFor10(h, r); }
    else if r == 11 { AddUnitNoCarryFor11(h, r); }
    else if r == 12 { AddUnitNoCarryFor12(h, r); }
    else if r == 13 { AddUnitNoCarryFor13(h, r); }
    else if r == 14 { AddUnitNoCarryFor14(h, r); }
    else { AddUnitNoCarryFor15(h, r); }
  }

  /** Adding a unit to a digit 7 clears it and carries into digit r - 1 when that digit has room. */
  lemma AddUnitCarry(h: H3Index, r: int)
    requires 2 <= r <= MAX_H3_RES && DigitAt(Decode(h).digits, r) == 7 && DigitAt(Decode(h).digits, r - 1) != 7
    ensures h + DigitUnit(r) == WithIndexDigitBits(WithIndexDigitBits(h, r, 0), r - 1, DigitAt(Decode(h).digits, r - 1) + 1)
  {
    if r == 2 { AddUnitCarryFor2(h, r); }
    else if r == 3 { AddUnitCarryFor3(h, r); }
    else if r == 4 { AddUnitCarryFor4(h, r); }
    else if r == 5 { AddUnitCarryFor5(h, r); }
    else if r == 6 { AddUnitCarryFor6(h, r); }
    else if r == 7 { AddUnitCarryFor7(h, r); }
    else if r == 8 { AddUnitCarryFor8(h, r); }
    else if r == 9 { AddUnitCarryFor9(h, r); }
    else if r == 10 { AddUnitCarryFor10(h, r); }
    else if r == 11 { AddUnitCarryFor11(h, r); }
    else if r == 12 { AddUnitCarryFor12(h, r); }
    else if r == 13 { AddUnitCarryFor13(h, r); }
    else if r == 14 { AddUnitCarryFor14(h, r); }
    else { AddUnitCarryFor15(h, r); }
  }
}
