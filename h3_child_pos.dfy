// The child-position arithmetic of h3Index.c: cellToChildPos numbers the
// descendants of a cell at a finer resolution in the order of their digits,
// and childPosToCell turns such a number back into a cell.  Below a
// hexagon the digits are the base-7 expansion of the position; below a
// pentagon the deleted direction 1 is skipped and the centre child, itself
// a pentagon, takes the first PentagonChildCount slots.
//
// The digits of a descendant below its ancestor are a sequence ds, most
// significant (coarsest) first; inPent says that the cell just above ds[0]
// is a pentagon.

module H3ChildPos {
  import opened H3Api
  import opened H3IndexFields
  import opened H3IndexValid
  import opened H3Hierarchy

  // ------------------------------------------------ linear arithmetic

  // The numbering multiplies and divides by powers of 7.  Products and
  // quotients of two unknowns are written as the sums and repeated
  // subtractions they stand for, so that the proofs about them stay
  // linear; TimesIsMul and QuotIsDiv tie them to * and / (and %).

  /** k copies of w added up. */
  function Times(k: int, w: int): int
    decreases k
  {
    if k <= 0 then 0 else Times(k - 1, w) + w
  }

  /** x / w by repeated subtraction. */
  function Quot(x: int, w: int): (q: int)
    requires 0 <= x && w > 0
    ensures q >= 0
    decreases x
  {
    if x < w then 0 else Quot(x - w, w) + 1
  }

  /** x % w by repeated subtraction. */
  function Rem(x: int, w: int): (r: int)
    requires 0 <= x && w > 0
    ensures 0 <= r < w
    decreases x
  {
    if x < w then x else Rem(x - w, w)
  }

  lemma {:induction false} TimesIsMul(k: int, w: int)
    requires k >= 0
    ensures Times(k, w) == k * w
    decreases k
  {
    if k > 0 {
      TimesIsMul(k - 1, w);
      assert (k - 1) * w + w == k * w;
    }
  }

  lemma {:induction false} QuotIsDiv(x: int, w: int)
    requires 0 <= x && w > 0
    ensures Quot(x, w) == x / w && Rem(x, w) == x % w
    decreases x
  {
    if x >= w {
      QuotIsDiv(x - w, w);
      DivModStep(x, w);
    } else {
      DivModSmall(x, w);
    }
  }

  lemma DivModStep(x: int, w: int)
    requires w > 0 && x >= w
    ensures x / w == (x - w) / w + 1 && x % w == (x - w) % w
  {
    var q, r := (x - w) / w, (x - w) % w;
    assert x - w == q * w + r;
    assert x == (q + 1) * w + r;
    DivModOf(q + 1, r, w);
  }

  lemma DivModSmall(x: int, w: int)
    requires 0 <= x < w
    ensures x / w == 0 && x % w == x
  {
    DivModOf(0, x, w);
  }

  lemma MulLe(a: int, b: int, w: int)
    requires a <= b && w >= 0
    ensures a * w <= b * w
  {
    assert b * w - a * w == (b - a) * w;
  }

  lemma DivModOf(q: int, r: int, w: int)
    requires w > 0 && 0 <= r < w
    ensures (q * w + r) / w == q && (q * w + r) % w == r
  {
    var x := q * w + r;
    var q', r' := x / w, x % w;
    assert x == q' * w + r';
    if q' > q {
      MulLe(q + 1, q', w);
    } else if q' < q {
      MulLe(q', q - 1, w);
    }
  }

  /** Digit q and remainder r make a number that gives them back. */
  lemma {:induction false} QuotRemOf(q: int, r: int, w: int)
    requires q >= 0 && w > 0 && 0 <= r < w
    ensures Times(q, w) + r >= 0
    ensures Quot(Times(q, w) + r, w) == q && Rem(Times(q, w) + r, w) == r
    decreases q
  {
    if q > 0 {
      QuotRemOf(q - 1, r, w);
    }
  }

  /** A number below k widths has a digit below k and splits into digit
      and remainder. */
  lemma {:induction false} QuotBelow(x: int, w: int, k: int)
    requires w > 0 && 0 <= x < Times(k, w)
    ensures 0 <= Quot(x, w) < k && 0 <= Rem(x, w) < w
    ensures x == Times(Quot(x, w), w) + Rem(x, w)
    decreases x
  {
    if x >= w {
      QuotBelow(x - w, w, k - 1);
    }
  }

  /** Digit q below k and remainder r stay below k widths. */
  lemma {:induction false} TimesBelow(q: int, r: int, w: int, k: int)
    requires 0 <= q < k && 0 <= r < w
    ensures Times(q, w) + r < Times(k, w)
    decreases k
  {
    if q < k - 1 {
      TimesBelow(q, r, w, k - 1);
    }
  }

  // ------------------------------------------------------- the numbering

  /** The number of descendants m levels down: 7^m below a hexagon, the
      pentagon count below a pentagon. */
  function Size(m: nat, inPent: bool): int
  {
    if inPent then PentagonChildCount(m) else Pow7(m)
  }

  /** What cellToChildPos adds for the raw digit d at e levels above the
      child, pp saying whether the cell above d is a pentagon. */
  function DigitOffset(d: int, pp: bool, e: nat): int
  {
    var digit := if pp && d > 0 then d - 1 else d;
    if digit == CENTER_DIGIT then 0
    else (if pp then PentagonChildCount(e) else Pow7(e)) + Times(digit - 1, Pow7(e))
  }

  /** The position of the descendant with relative digits ds. */
  function Pos(ds: seq<int>, inPent: bool): int
    decreases |ds|
  {
    if |ds| == 0 then 0
    else DigitOffset(ds[0], inPent, |ds| - 1) + Pos(ds[1..], inPent && ds[0] == CENTER_DIGIT)
  }

  /** The digit checks of cellToChildPos: no 7, and no 1 right below a
      pentagon (the deleted k-axes subsequence). */
  predicate ValidRel(ds: seq<int>, inPent: bool)
    decreases |ds|
  {
    |ds| == 0
    || (IsDigit(ds[0]) && ds[0] != INVALID_DIGIT && !(inPent && ds[0] == K_AXES_DIGIT)
        && ValidRel(ds[1..], inPent && ds[0] == CENTER_DIGIT))
  }

  /** The digits childPosToCell writes for position idx, m levels down. */
  function Decode(idx: int, m: nat, inPent: bool): (ds: seq<int>)
    requires idx >= 0
    ensures |ds| == m
    decreases m
  {
    if m == 0 then []
    else
      var w := Pow7(m - 1);
      if inPent && idx < PentagonChildCount(m - 1) then [CENTER_DIGIT] + Decode(idx, m - 1, true)
      else if inPent then
        var j := idx - PentagonChildCount(m - 1);
        [Quot(j, w) + 2] + Decode(Rem(j, w), m - 1, false)
      else [Quot(idx, w)] + Decode(Rem(idx, w), m - 1, false)
  }

  /** A hexagon digit d adds d widths of its level. */
  lemma OffsetHex(d: int, e: nat)
    requires 0 <= d
    ensures DigitOffset(d, false, e) == Times(d, Pow7(e))
  {
  }

  /** Below a pentagon a digit d >= 2 skips the centre pentagon's
      descendants and d - 2 hexagons. */
  lemma OffsetPent(d: int, e: nat)
    requires 2 <= d
    ensures DigitOffset(d, true, e) == PentagonChildCount(e) + Times(d - 2, Pow7(e))
  {
  }

  /** A level below a hexagon is 7 widths of the level under it. */
  lemma HexWidth(m: nat)
    requires m >= 1
    ensures Pow7(m) == Times(7, Pow7(m - 1))
  {
    TimesIsMul(7, Pow7(m - 1));
  }

  /** A level below a pentagon is the centre pentagon's count and 5 widths
      of the level under it. */
  lemma PentWidth(m: nat)
    requires m >= 1
    ensures PentagonChildCount(m) == PentagonChildCount(m - 1) + Times(5, Pow7(m - 1))
  {
    TimesIsMul(5, Pow7(m - 1));
  }

  // ------------------------------------------------------- round trips

  /** Every position below the size decodes to checked digits whose
      position is that number again. */
  lemma PosDecode(idx: int, m: nat, inPent: bool)
    requires 0 <= idx < Size(m, inPent)
    ensures ValidRel(Decode(idx, m, inPent), inPent)
    ensures Pos(Decode(idx, m, inPent), inPent) == idx
    decreases m, 1
  {
    if m > 0 {
      if inPent && idx < PentagonChildCount(m - 1) {
        PosDecodeCentre(idx, m);
      } else if inPent {
        PosDecodeSkip(idx, m);
      } else {
        PosDecodeHex(idx, m);
      }
    }
  }

  /** A position below the centre pentagon's count: digit 0 and the rest
      below that pentagon. */
  lemma PosDecodeCentre(idx: int, m: nat)
    requires m >= 1 && 0 <= idx < PentagonChildCount(m - 1)
    ensures ValidRel(Decode(idx, m, true), true)
    ensures Pos(Decode(idx, m, true), true) == idx
    decreases m, 0
  {
    PosDecode(idx, m - 1, true);
    var ds := Decode(idx, m, true);
    assert ds == [CENTER_DIGIT] + Decode(idx, m - 1, true);
    assert ds[1..] == Decode(idx, m - 1, true);
  }

  /** A position past the centre pentagon's count below a pentagon:
      digits 2..6 and the rest below a hexagon. */
  lemma PosDecodeSkip(idx: int, m: nat)
    requires m >= 1 && PentagonChildCount(m - 1) <= idx < PentagonChildCount(m)
    ensures ValidRel(Decode(idx, m, true), true)
    ensures Pos(Decode(idx, m, true), true) == idx
    decreases m, 0
  {
    var w := Pow7(m - 1);
    var j := idx - PentagonChildCount(m - 1);
    PentWidth(m);
    QuotBelow(j, w, 5);
    var q, r := Quot(j, w), Rem(j, w);
    PosDecode(r, m - 1, false);
    var ds := Decode(idx, m, true);
    DecodeSkipAt(idx, m, q + 2, r);
    assert ds[0] == q + 2 && ds[1..] == Decode(r, m - 1, false);
    assert ds[0] - 2 == q && |ds| - 1 == m - 1;
    PosSkipAt(ds);
    assert Pos(ds, true) == PentagonChildCount(m - 1) + Times(q, w) + r;
  }

  /** A position below a hexagon: its leading base-7 digit and the rest. */
  lemma PosDecodeHex(idx: int, m: nat)
    requires m >= 1 && 0 <= idx < Pow7(m)
    ensures ValidRel(Decode(idx, m, false), false)
    ensures Pos(Decode(idx, m, false), false) == idx
    decreases m, 0
  {
    var w := Pow7(m - 1);
    HexWidth(m);
    QuotBelow(idx, w, 7);
    var q, r := Quot(idx, w), Rem(idx, w);
    PosDecode(r, m - 1, false);
    var ds := Decode(idx, m, false);
    DecodeHexAt(idx, m, q, r);
    assert ds[0] == q && ds[1..] == Decode(r, m - 1, false);
    PosHexAt(ds);
    assert Pos(ds, false) == Times(q, w) + r;
  }

  /** Checked digits have a position below the size, and decoding that
      position gives the digits back. */
  lemma {:induction false} DecodePos(ds: seq<int>, inPent: bool)
    requires ValidRel(ds, inPent)
    ensures 0 <= Pos(ds, inPent) < Size(|ds|, inPent)
    ensures Decode(Pos(ds, inPent), |ds|, inPent) == ds
    decreases |ds|
  {
    if |ds| > 0 {
      var inner := inPent && ds[0] == CENTER_DIGIT;
      DecodePos(ds[1..], inner);
      if inner {
        DecodePosCentre(ds);
      } else if inPent {
        DecodePosSkip(ds);
      } else {
        DecodePosHex(ds);
      }
    }
  }

  /** Digits starting with 0 below a pentagon. */
  lemma DecodePosCentre(ds: seq<int>)
    requires |ds| > 0 && ds[0] == CENTER_DIGIT && ValidRel(ds[1..], true)
    requires var r := Pos(ds[1..], true);
      0 <= r < PentagonChildCount(|ds| - 1) && Decode(r, |ds| - 1, true) == ds[1..]
    ensures 0 <= Pos(ds, true) < PentagonChildCount(|ds|)
    ensures Decode(Pos(ds, true), |ds|, true) == ds
  {
    assert Pos(ds, true) == Pos(ds[1..], true);
    PentCountGrows(|ds|);
    DecodeCentreAt(Pos(ds, true), ds);
  }

  /** Digits starting with 2..6 below a pentagon. */
  lemma DecodePosSkip(ds: seq<int>)
    requires |ds| > 0 && ValidRel(ds, true) && ds[0] != CENTER_DIGIT
    requires var r := Pos(ds[1..], false);
      0 <= r < Pow7(|ds| - 1) && Decode(r, |ds| - 1, false) == ds[1..]
    ensures 0 <= Pos(ds, true) < PentagonChildCount(|ds|)
    ensures Decode(Pos(ds, true), |ds|, true) == ds
  {
    assert 2 <= ds[0] < 7;
    PosSkipAt(ds);
    SkipArith(Pos(ds, true), |ds|, ds[0], Pos(ds[1..], false));
    DecodeSkipJoin(Pos(ds, true), Pos(ds[1..], false), ds);
  }

  /** Digits below a hexagon. */
  lemma DecodePosHex(ds: seq<int>)
    requires |ds| > 0 && ValidRel(ds, false)
    requires var r := Pos(ds[1..], false);
      0 <= r < Pow7(|ds| - 1) && Decode(r, |ds| - 1, false) == ds[1..]
    ensures 0 <= Pos(ds, false) < Pow7(|ds|)
    ensures Decode(Pos(ds, false), |ds|, false) == ds
  {
    assert 0 <= ds[0] < 7;
    PosHexAt(ds);
    HexArith(Pos(ds, false), |ds|, ds[0], Pos(ds[1..], false));
    DecodeHexJoin(Pos(ds, false), Pos(ds[1..], false), ds);
  }

  /** Pos below a pentagon, first digit 2..6, unfolded once. */
  lemma PosSkipAt(ds: seq<int>)
    requires |ds| > 0 && 2 <= ds[0]
    ensures Pos(ds, true)
      == PentagonChildCount(|ds| - 1) + Times(ds[0] - 2, Pow7(|ds| - 1)) + Pos(ds[1..], false)
  {
    OffsetPent(ds[0], |ds| - 1);
  }

  /** Pos below a hexagon, unfolded once. */
  lemma PosHexAt(ds: seq<int>)
    requires |ds| > 0 && 0 <= ds[0]
    ensures Pos(ds, false) == Times(ds[0], Pow7(|ds| - 1)) + Pos(ds[1..], false)
  {
    OffsetHex(ds[0], |ds| - 1);
  }

  /** Below a pentagon m levels up, the number made of skip digit d
      (2..6) and a remainder r gives d and r back. */
  lemma SkipArith(x: int, m: nat, d: int, r: int)
    requires m >= 1 && 2 <= d < 7 && 0 <= r < Pow7(m - 1)
    requires x == PentagonChildCount(m - 1) + Times(d - 2, Pow7(m - 1)) + r
    ensures PentagonChildCount(m - 1) <= x < PentagonChildCount(m)
    ensures var j, w := x - PentagonChildCount(m - 1), Pow7(m - 1);
      Quot(j, w) + 2 == d && Rem(j, w) == r
  {
    var w := Pow7(m - 1);
    var j := x - PentagonChildCount(m - 1);
    assert j == Times(d - 2, w) + r;
    QuotRemOf(d - 2, r, w);
    TimesBelow(d - 2, r, w, 5);
    PentWidth(m);
  }

  /** Decode's skip branch put back together with the rest of ds. */
  lemma DecodeSkipJoin(x: int, r: int, ds: seq<int>)
    requires |ds| > 0 && PentagonChildCount(|ds| - 1) <= x
    requires var j, w := x - PentagonChildCount(|ds| - 1), Pow7(|ds| - 1);
      Quot(j, w) + 2 == ds[0] && Rem(j, w) == r
    requires Decode(r, |ds| - 1, false) == ds[1..]
    ensures Decode(x, |ds|, true) == ds
  {
    DecodeSkipAt(x, |ds|, ds[0], r);
    HeadTail(ds, ds[0]);
  }

  /** Decode's skip branch, unfolded once. */
  lemma DecodeSkipAt(x: int, m: nat, d: int, r: int)
    requires m >= 1 && PentagonChildCount(m - 1) <= x
    requires var j, w := x - PentagonChildCount(m - 1), Pow7(m - 1);
      Quot(j, w) + 2 == d && Rem(j, w) == r
    ensures Decode(x, m, true) == [d] + Decode(r, m - 1, false)
  {
  }

  /** Below a hexagon m levels up, the number made of digit d and a
      remainder r gives d and r back. */
  lemma HexArith(x: int, m: nat, d: int, r: int)
    requires m >= 1 && 0 <= d < 7 && 0 <= r < Pow7(m - 1)
    requires x == Times(d, Pow7(m - 1)) + r
    ensures 0 <= x < Pow7(m)
    ensures Quot(x, Pow7(m - 1)) == d && Rem(x, Pow7(m - 1)) == r
  {
    var w := Pow7(m - 1);
    QuotRemOf(d, r, w);
    TimesBelow(d, r, w, 7);
    HexWidth(m);
  }

  /** Decode's hexagon branch put back together with the rest of ds. */
  lemma DecodeHexJoin(x: int, r: int, ds: seq<int>)
    requires |ds| > 0 && 0 <= x
    requires Quot(x, Pow7(|ds| - 1)) == ds[0] && Rem(x, Pow7(|ds| - 1)) == r
    requires Decode(r, |ds| - 1, false) == ds[1..]
    ensures Decode(x, |ds|, false) == ds
  {
    DecodeHexAt(x, |ds|, ds[0], r);
    HeadTail(ds, ds[0]);
  }

  /** Decode's hexagon branch, unfolded once. */
  lemma DecodeHexAt(x: int, m: nat, d: int, r: int)
    requires m >= 1 && 0 <= x
    requires Quot(x, Pow7(m - 1)) == d && Rem(x, Pow7(m - 1)) == r
    ensures Decode(x, m, false) == [d] + Decode(r, m - 1, false)
  {
  }

  /** Decode's centre branch, unfolded once. */
  lemma DecodeCentreAt(x: int, ds: seq<int>)
    requires |ds| > 0 && ds[0] == CENTER_DIGIT && 0 <= x < PentagonChildCount(|ds| - 1)
    requires Decode(x, |ds| - 1, true) == ds[1..]
    ensures Decode(x, |ds|, true) == ds
  {
    HeadTail(ds, CENTER_DIGIT);
  }

  /** The pentagon count grows from level to level. */
  lemma PentCountGrows(m: nat)
    requires m >= 1
    ensures PentagonChildCount(m - 1) < PentagonChildCount(m)
  {
    PentWidth(m);
    TimesIsMul(5, Pow7(m - 1));
  }

  lemma HeadTail(ds: seq<int>, d: int)
    requires |ds| > 0 && ds[0] == d
    ensures ds == [d] + ds[1..]
  {
  }

  // ------------------------------------------------ cells and positions

  /** The ancestor of v at resolution p is a pentagon: a pentagon base
      cell and digits 1..p all 0. */
  predicate PentagonAbove(v: View, p: int)
    requires |v.digits| == MAX_H3_RES && 0 <= p <= MAX_H3_RES
  {
    IsBaseCellPentagon(v.baseCell) && forall i | 0 <= i < p :: v.digits[i] == CENTER_DIGIT
  }

  /** cellToChildPos on the fields of the child: the resolution errors of
      cellToParent, E_CELL_INVALID for a digit 7 or a deleted k-axes digit,
      else the position, which is always below the parent's child count. */
  function ChildPosOf(v: View, parentRes: int): (r: Result<int>)
    requires WellFormedView(v)
    ensures r.Ok? ==> 0 <= parentRes <= v.res
    ensures r.Ok? ==> 0 <= r.value < Size(v.res - parentRes, PentagonAbove(v, parentRes))
    ensures r.Ok? ==> Decode(r.value, v.res - parentRes, PentagonAbove(v, parentRes)) == v.digits[parentRes..v.res]
  {
    if parentRes < 0 || parentRes > MAX_H3_RES then Err(E_RES_DOMAIN)
    else if parentRes > v.res then Err(E_RES_MISMATCH)
    else
      var ds, pent := v.digits[parentRes..v.res], PentagonAbove(v, parentRes);
      if ValidRel(ds, pent) then DecodePos(ds, pent); Ok(Pos(ds, pent))
      else Err(E_CELL_INVALID)
  }

  /** The cell childPosToCell writes: the parent at resolution childRes
      with the decoded digits after the parent's own. */
  function ChildAt(p: View, childRes: int, pos: int): View
    requires |p.digits| == MAX_H3_RES && 0 <= p.res <= childRes <= MAX_H3_RES && pos >= 0
  {
    p.(res := childRes,
       digits := p.digits[..p.res] + Decode(pos, childRes - p.res, PentagonAbove(p, p.res)) + p.digits[childRes..])
  }

  /** childPosToCell on the fields of the parent. */
  function ChildPosToCellOf(pos: int, p: View, childRes: int): (r: Result<View>)
    requires WellFormedView(p)
    ensures r.Ok? ==> p.res <= childRes <= MAX_H3_RES && r.value.res == childRes
  {
    if childRes < 0 || childRes > MAX_H3_RES then Err(E_RES_DOMAIN)
    else if childRes < p.res then Err(E_RES_MISMATCH)
    else if pos < 0 || pos >= Size(childRes - p.res, PentagonAbove(p, p.res)) then Err(E_DOMAIN)
    else Ok(ChildAt(p, childRes, pos))
  }

  /** The position of a cell within its ancestor gives the cell back. */
  lemma CellPosRoundTrip(v: View, parentRes: int)
    requires WellFormedView(v) && ChildPosOf(v, parentRes).Ok?
    ensures ChildPosToCellOf(ChildPosOf(v, parentRes).value, ParentView(v, parentRes), v.res) == Ok(v)
  {
    ParentChildAt(v, parentRes, ChildPosOf(v, parentRes).value);
  }

  /** A number below the child count that decodes to the cell's digits
      below the ancestor gives the cell back from the ancestor. */
  lemma ParentChildAt(v: View, pr: int, x: int)
    requires WellFormedView(v) && 0 <= pr <= v.res
    requires 0 <= x < Size(v.res - pr, PentagonAbove(v, pr))
    requires Decode(x, v.res - pr, PentagonAbove(v, pr)) == v.digits[pr..v.res]
    ensures ChildPosToCellOf(x, ParentView(v, pr), v.res) == Ok(v)
  {
    var pv := ParentView(v, pr);
    ParentSplice(v, pr);
    assert ChildPosToCellOf(x, pv, v.res) == Ok(ChildAt(pv, v.res, x));
    assert ChildAt(pv, v.res, x).digits == v.digits;
  }

  /** The parent's digits with the cell's own digits spliced back in are
      the cell's digits, and the parent is a pentagon exactly when the
      cell's ancestor is. */
  lemma ParentSplice(v: View, pr: int)
    requires WellFormedView(v) && 0 <= pr <= v.res
    ensures PentagonAbove(ParentView(v, pr), pr) == PentagonAbove(v, pr)
    ensures var pv := ParentView(v, pr);
      pv.digits[..pr] + v.digits[pr..v.res] + pv.digits[v.res..] == v.digits
  {
    var pv := ParentView(v, pr);
    assert forall i | 0 <= i < pr :: pv.digits[i] == v.digits[i];
    SpliceIs(pv.digits, pr, v.res, v.digits[pr..v.res], v.digits);
  }

  /** Every position below the child count gives a child whose position
      is that number, and (for a valid parent) whose ancestor is the
      parent. */
  lemma PosCellRoundTrip(pos: int, p: View, childRes: int)
    requires WellFormedView(p) && ChildPosToCellOf(pos, p, childRes).Ok?
    ensures WellFormedView(ChildPosToCellOf(pos, p, childRes).value)
    ensures ChildPosOf(ChildPosToCellOf(pos, p, childRes).value, p.res) == Ok(pos)
    ensures IsValidCellView(p) ==> ParentView(ChildPosToCellOf(pos, p, childRes).value, p.res) == p
  {
    var pent := PentagonAbove(p, p.res);
    var ds := Decode(pos, childRes - p.res, pent);
    PosDecode(pos, childRes - p.res, pent);
    ChildAtParts(p, childRes, pos);
    ChildPosOfIs(ChildAt(p, childRes, pos), p.res, ds, pent);
  }

  /** The child written at a position: well formed, with the decoded
      digits after the parent's, below a pentagon exactly when the parent
      is one, and (for a valid parent) with the parent as ancestor. */
  lemma ChildAtParts(p: View, childRes: int, pos: int)
    requires WellFormedView(p) && p.res <= childRes <= MAX_H3_RES && pos >= 0
    requires ValidRel(Decode(pos, childRes - p.res, PentagonAbove(p, p.res)), PentagonAbove(p, p.res))
    ensures var c := ChildAt(p, childRes, pos);
      WellFormedView(c)
      && c.digits[p.res..childRes] == Decode(pos, childRes - p.res, PentagonAbove(p, p.res))
      && PentagonAbove(c, p.res) == PentagonAbove(p, p.res)
      && (IsValidCellView(p) ==> ParentView(c, p.res) == p)
  {
    var pent := PentagonAbove(p, p.res);
    var ds := Decode(pos, childRes - p.res, pent);
    ValidRelDigits(ds, pent);
    var c := ChildAt(p, childRes, pos);
    SplicedChild(p, childRes, ds, c);
  }

  /** The parent with the digits ds spliced in from its own resolution
      on: well formed, with ds in place, below a pentagon exactly when the
      parent is one, and (for a valid parent) with the parent as ancestor. */
  lemma SplicedChild(p: View, childRes: int, ds: seq<int>, c: View)
    requires WellFormedView(p) && p.res <= childRes <= MAX_H3_RES && |ds| == childRes - p.res
    requires forall i | 0 <= i < |ds| :: IsDigit(ds[i])
    requires c == p.(res := childRes, digits := p.digits[..p.res] + ds + p.digits[childRes..])
    ensures WellFormedView(c) && c.digits[p.res..childRes] == ds
    ensures PentagonAbove(c, p.res) == PentagonAbove(p, p.res)
    ensures IsValidCellView(p) ==> ParentView(c, p.res) == p
  {
    SpliceParts(p.digits, p.res, childRes, ds);
    assert forall i | 0 <= i < p.res :: c.digits[i] == p.digits[i];
    if IsValidCellView(p) {
      forall i | 0 <= i < MAX_H3_RES
        ensures ParentView(c, p.res).digits[i] == p.digits[i]
      {
      }
    }
  }

  /** ChildPosOf for a cell whose digits below the ancestor are known. */
  lemma ChildPosOfIs(v: View, pr: int, ds: seq<int>, pent: bool)
    requires WellFormedView(v) && 0 <= pr <= v.res
    requires v.digits[pr..v.res] == ds && PentagonAbove(v, pr) == pent && ValidRel(ds, pent)
    ensures ChildPosOf(v, pr) == Ok(Pos(ds, pent))
  {
  }

  /** The three parts of a digit sequence with mid spliced in at lo..hi. */
  lemma SpliceParts(a: seq<int>, lo: int, hi: int, mid: seq<int>)
    requires |a| == MAX_H3_RES && 0 <= lo <= hi <= MAX_H3_RES && |mid| == hi - lo
    ensures var s := a[..lo] + mid + a[hi..];
      |s| == MAX_H3_RES && s[lo..hi] == mid
      && (forall i | 0 <= i < lo :: s[i] == a[i])
      && (forall i | lo <= i < hi :: s[i] == mid[i - lo])
      && (forall i | hi <= i < MAX_H3_RES :: s[i] == a[i])
  {
  }

  /** Splicing b's own digits lo..hi into a sequence that agrees with b
      elsewhere gives b. */
  lemma SpliceIs(a: seq<int>, lo: int, hi: int, mid: seq<int>, b: seq<int>)
    requires |a| == MAX_H3_RES && |b| == MAX_H3_RES && 0 <= lo <= hi <= MAX_H3_RES
    requires mid == b[lo..hi]
    requires forall i | 0 <= i < lo :: a[i] == b[i]
    requires forall i | hi <= i < MAX_H3_RES :: a[i] == b[i]
    ensures a[..lo] + mid + a[hi..] == b
  {
    SpliceParts(a, lo, hi, mid);
    var s := a[..lo] + mid + a[hi..];
    assert forall i | 0 <= i < MAX_H3_RES :: s[i] == b[i];
  }

  /** Checked digits are digits. */
  lemma {:induction false} ValidRelDigits(ds: seq<int>, inPent: bool)
    requires ValidRel(ds, inPent)
    ensures forall i | 0 <= i < |ds| :: IsDigit(ds[i]) && ds[i] != INVALID_DIGIT
    decreases |ds|
  {
    if |ds| > 0 {
      ValidRelDigits(ds[1..], inPent && ds[0] == CENTER_DIGIT);
      assert forall i | 1 <= i < |ds| :: ds[i] == ds[1..][i - 1];
    }
  }

  // ------------------------------------------- the positions, digit-wise

  /** The offsets cellToChildPos adds for the digits at indexes lo..hi-1
      of v (resolutions lo+1..hi) of a child at resolution hi. */
  function PosFrom(v: View, lo: int, hi: int): int
    requires |v.digits| == MAX_H3_RES && 0 <= lo <= hi <= MAX_H3_RES
    decreases hi - lo
  {
    if lo == hi then 0
    else DigitOffset(v.digits[lo], PentagonAbove(v, lo), hi - (lo + 1)) + PosFrom(v, lo + 1, hi)
  }

  /** The digit check cellToChildPos applies to digit d when the cell
      above it is a pentagon exactly when pp holds. */
  predicate DigitOk(d: int, pp: bool)
  {
    IsDigit(d) && d != INVALID_DIGIT && !(pp && d == K_AXES_DIGIT)
  }

  /** Every digit at indexes lo..hi-1 passes the check. */
  predicate ValidFrom(v: View, lo: int, hi: int)
    requires |v.digits| == MAX_H3_RES && 0 <= lo <= hi <= MAX_H3_RES
  {
    forall j | lo <= j < hi :: DigitOk(v.digits[j], PentagonAbove(v, j))
  }

  /** The relative digits of v below resolution lo are numbered digit
      by digit. */
  lemma {:induction false} PosFromIs(v: View, lo: int, hi: int)
    requires |v.digits| == MAX_H3_RES && 0 <= lo <= hi <= MAX_H3_RES
    ensures Pos(v.digits[lo..hi], PentagonAbove(v, lo)) == PosFrom(v, lo, hi)
    decreases hi - lo
  {
    if lo < hi {
      var ds := v.digits[lo..hi];
      PosFromIs(v, lo + 1, hi);
      assert ds[1..] == v.digits[lo + 1..hi];
      assert ds[0] == v.digits[lo];
      assert |ds| - 1 == hi - (lo + 1);
      PentagonAboveStep(v, lo);
    }
  }

  /** ... and checked digit by digit. */
  lemma {:induction false} ValidFromIs(v: View, lo: int, hi: int)
    requires |v.digits| == MAX_H3_RES && 0 <= lo <= hi <= MAX_H3_RES
    ensures ValidRel(v.digits[lo..hi], PentagonAbove(v, lo)) <==> ValidFrom(v, lo, hi)
    decreases hi - lo
  {
    if lo < hi {
      var ds := v.digits[lo..hi];
      ValidFromIs(v, lo + 1, hi);
      assert ds[1..] == v.digits[lo + 1..hi];
      assert ds[0] == v.digits[lo];
      PentagonAboveStep(v, lo);
      ValidFromStep(v, lo, hi);
    }
  }

  /** The check of lo..hi-1 is the check of lo and of lo+1..hi-1. */
  lemma ValidFromStep(v: View, lo: int, hi: int)
    requires |v.digits| == MAX_H3_RES && 0 <= lo < hi <= MAX_H3_RES
    ensures ValidFrom(v, lo, hi) <==> DigitOk(v.digits[lo], PentagonAbove(v, lo)) && ValidFrom(v, lo + 1, hi)
  {
  }

  /** The ancestor one level finer is a pentagon when this one is and the
      digit between them is 0. */
  lemma PentagonAboveStep(v: View, lo: int)
    requires |v.digits| == MAX_H3_RES && 0 <= lo < MAX_H3_RES
    ensures PentagonAbove(v, lo + 1) == (PentagonAbove(v, lo) && v.digits[lo] == CENTER_DIGIT)
  {
  }

  /** Once the ancestor at lo is not a pentagon, no finer ancestor is. */
  lemma NotPentagonBelow(v: View, lo: int, j: int)
    requires |v.digits| == MAX_H3_RES && 0 <= lo <= j <= MAX_H3_RES
    requires !PentagonAbove(v, lo)
    ensures !PentagonAbove(v, j)
  {
  }

  /** The ancestor at resolution p of v is a pentagon exactly when
      PentagonAbove says so. */
  lemma ParentPentagon(h: H3Index, v: View, p: int)
    requires WellFormedView(v) && 0 <= p <= MAX_H3_RES
    requires ViewOf(h) == ParentView(v, p)
    ensures IsPentagon(h) <==> PentagonAbove(v, p)
  {
    IsPentagonDigits(h);
    assert forall i | 0 <= i < p :: ViewOf(h).digits[i] == v.digits[i];
  }

  /** The offset of cellToChildPos in the machine's arithmetic: the
      slot of the centre child (the closed-form pentagon count, or 7^e)
      and digit - 1 more hexagons. */
  lemma OffsetFormula(rawDigit: int, pp: bool, e: nat, digit: int, hexChildCount: int, slot: int, others: int)
    requires DigitOk(rawDigit, pp)
    requires digit == (if pp && rawDigit > 0 then rawDigit - 1 else rawDigit) && digit != CENTER_DIGIT
    requires hexChildCount == Pow7(e)
    requires slot == if pp then 1 + (5 * (hexChildCount - 1)) / 6 else hexChildCount
    requires others == (digit - 1) * hexChildCount
    ensures DigitOffset(rawDigit, pp, e) == slot + others
  {
    assert DigitOffset(rawDigit, pp, e) == (if pp then PentagonChildCount(e) else hexChildCount) + Times(digit - 1, hexChildCount);
    PentagonCountFormula(e);
    TimesIsMul(digit - 1, hexChildCount);
  }

  /** The pentagon count as the machine computes it from 7^e. */
  lemma PentagonCountFormula(e: nat)
    ensures PentagonChildCount(e) == 1 + (5 * (Pow7(e) - 1)) / 6
  {
    PentagonChildCountClosed(e);
  }

  /** Below a hexagon the offset is the digit times the width. */
  lemma OffsetFormulaHex(digit: int, e: nat)
    requires 0 <= digit
    ensures DigitOffset(digit, false, e) == digit * Pow7(e)
  {
    OffsetHex(digit, e);
    TimesIsMul(digit, Pow7(e));
  }

  // ------------------------------------------------------- the methods

  /** validateChildPos: the error of cellToChildrenSize, E_DOMAIN for a
      position outside 0..size-1, else E_SUCCESS. */
  function ValidateChildPos(childPos: int, parent: H3Index, childRes: int): (e: H3Error)
    ensures e == E_SUCCESS <==>
      ViewOf(parent).res <= childRes <= MAX_H3_RES
      && 0 <= childPos < Size(childRes - ViewOf(parent).res, IsPentagon(parent))
    ensures e != E_SUCCESS ==>
      e == if ViewOf(parent).res <= childRes <= MAX_H3_RES then E_DOMAIN else E_RES_DOMAIN
  {
    var size := CellToChildrenSize(parent, childRes);
    if size.Err? then size.error
    else if childPos < 0 || childPos >= size.value then E_DOMAIN
    else E_SUCCESS
  }

  /** cellToChildPos: the position of child among the descendants of its
      ancestor at parentRes, or the error cellToParent or the digit checks
      give. */
  method CellToChildPos(child: H3Index, parentRes: int) returns (r: Result<int>)
    ensures r == ChildPosOf(ViewOf(child), parentRes)
  {
    ghost var v := ViewOf(child);
    FieldsOfView(child);
    var childRes := GetResolution(child);
    var parentResult := CellToParent(child, parentRes);
    if parentResult.Err? {
      return Err(parentResult.error);
    }
    var originalParent := parentResult.value;
    var parentIsPentagon := IsPentagon(originalParent);
    ParentPentagon(originalParent, v, parentRes);
    if parentIsPentagon {
      r := PentagonPosition(child, v, childRes, parentRes);
    } else {
      r := HexagonPosition(child, v, childRes, parentRes);
    }
    ChildPosOfFrom(v, parentRes);
    if r.Err? {
      return r;
    }
    var out := r.value;
    ValidatesOwnPosition(v, originalParent, parentRes, out);
    if ValidateChildPos(out, originalParent, childRes) != E_SUCCESS {
      assert false;
      return Err(E_FAILED);
    }
    return Ok(out);
  }

  /** The pentagon loop of cellToChildPos: the digits from childRes up to
      parentRes + 1, each checked against its own ancestor and numbered
      with the pentagon offsets while that ancestor is a pentagon. */
  method PentagonPosition(child: H3Index, ghost v: View, childRes: int, parentRes: int) returns (r: Result<int>)
    requires v == ViewOf(child) && childRes == v.res && 0 <= parentRes <= childRes
    ensures r == if ValidFrom(v, parentRes, childRes) then Ok(PosFrom(v, parentRes, childRes)) else Err(E_CELL_INVALID)
  {
    var out := 0;
    var res := childRes;
    while res > parentRes
      invariant parentRes <= res <= childRes
      invariant out == PosFrom(v, res, childRes) && ValidFrom(v, res, childRes)
    {
      var step := PentagonPass(child, v, childRes, parentRes, res, out);
      if step.Err? {
        return step;
      }
      out := step.value;
      res := res - 1;
    }
    return Ok(out);
  }

  /** One pass of the pentagon loop of cellToChildPos at resolution res:
      the ancestor at res - 1, the digit at res, its check and offset. */
  method PentagonPass(child: H3Index, ghost v: View, childRes: int, parentRes: int, res: int, out: int)
    returns (r: Result<int>)
    requires v == ViewOf(child) && childRes == v.res && 0 <= parentRes < res <= childRes
    requires out == PosFrom(v, res, childRes) && ValidFrom(v, res, childRes)
    ensures r.Err? ==> r == Err(E_CELL_INVALID) && !ValidFrom(v, parentRes, childRes)
    ensures r.Ok? ==> r.value == PosFrom(v, res - 1, childRes) && ValidFrom(v, res - 1, childRes)
  {
    var parentError := CellToParent(child, res - 1);
    // NEVER: every resolution up to the child's has an ancestor.
    assert parentError.Ok?;
    var parent := parentError.value;
    var parentIsPentagon := IsPentagon(parent);
    ParentPentagon(parent, v, res - 1);
    var rawDigit := GetIndexDigit(child, res);
    GetIndexDigitView(child, res);
    var step := PentagonDigit(out, rawDigit, parentIsPentagon, childRes - res);
    if step.Err? {
      CheckFails(v, parentRes, res, childRes, rawDigit, parentIsPentagon);
      return Err(E_CELL_INVALID);
    }
    PositionStep(v, res, childRes, rawDigit, parentIsPentagon, out, step.value);
    return step;
  }

  /** The hexagon loop of cellToChildPos: the digits from childRes up to
      parentRes + 1 in base 7. */
  method HexagonPosition(child: H3Index, ghost v: View, childRes: int, parentRes: int) returns (r: Result<int>)
    requires v == ViewOf(child) && childRes == v.res && 0 <= parentRes <= childRes
    requires !PentagonAbove(v, parentRes)
    ensures r == if ValidFrom(v, parentRes, childRes) then Ok(PosFrom(v, parentRes, childRes)) else Err(E_CELL_INVALID)
  {
    var out := 0;
    var res := childRes;
    while res > parentRes
      invariant parentRes <= res <= childRes
      invariant out == PosFrom(v, res, childRes) && ValidFrom(v, res, childRes)
    {
      var digit := GetIndexDigit(child, res);
      GetIndexDigitView(child, res);
      NotPentagonBelow(v, parentRes, res - 1);
      var step := HexagonDigit(out, digit, childRes - res);
      if step.Err? {
        CheckFails(v, parentRes, res, childRes, digit, false);
        return Err(E_CELL_INVALID);
      }
      PositionStep(v, res, childRes, digit, false, out, step.value);
      out := step.value;
      res := res - 1;
    }
    return Ok(out);
  }

  /** The digit check and the offset of one pass of the pentagon loop of
      cellToChildPos, for the raw digit at e levels above the child under
      an ancestor that is a pentagon exactly when pp holds. */
  method PentagonDigit(out: int, rawDigit: int, pp: bool, e: nat) returns (r: Result<int>)
    ensures r.Err? <==> !DigitOk(rawDigit, pp)
    ensures r.Err? ==> r.error == E_CELL_INVALID
    ensures r.Ok? ==> r.value == out + DigitOffset(rawDigit, pp, e)
  {
    if rawDigit == INVALID_DIGIT || (pp && rawDigit == K_AXES_DIGIT) || !IsDigit(rawDigit) {
      return Err(E_CELL_INVALID);
    }
    var digit := if pp && rawDigit > 0 then rawDigit - 1 else rawDigit;
    var o := out;
    if digit != CENTER_DIGIT {
      var hexChildCount := Pow7(e);
      var slot := if pp then 1 + (5 * (hexChildCount - 1)) / 6 else hexChildCount;
      var others := (digit - 1) * hexChildCount;
      OffsetFormula(rawDigit, pp, e, digit, hexChildCount, slot, others);
      o := o + slot + others;
    }
    return Ok(o);
  }

  /** The digit check and the offset of one pass of the hexagon loop of
      cellToChildPos: the digit times 7^e. */
  method HexagonDigit(out: int, digit: int, e: nat) returns (r: Result<int>)
    ensures r.Err? <==> !DigitOk(digit, false)
    ensures r.Err? ==> r.error == E_CELL_INVALID
    ensures r.Ok? ==> r.value == out + DigitOffset(digit, false, e)
  {
    if digit == INVALID_DIGIT || !IsDigit(digit) {
      return Err(E_CELL_INVALID);
    }
    OffsetFormulaHex(digit, e);
    return Ok(out + digit * Pow7(e));
  }

  /** The position of a cell passes validateChildPos against its own
      ancestor. */
  lemma ValidatesOwnPosition(v: View, parent: H3Index, pr: int, pos: int)
    requires WellFormedView(v) && 0 <= pr <= v.res
    requires ViewOf(parent) == ParentView(v, pr)
    requires ChildPosOf(v, pr) == Ok(pos)
    ensures ValidateChildPos(pos, parent, v.res) == E_SUCCESS
  {
    ParentPentagon(parent, v, pr);
  }

  /** One pass of either loop of cellToChildPos: the digit at index
      res - 1, checked and numbered under its own ancestor, extends the
      sum and the check by one digit. */
  lemma PositionStep(v: View, res: int, hi: int, digit: int, pp: bool, out: int, next: int)
    requires |v.digits| == MAX_H3_RES && 1 <= res <= hi <= MAX_H3_RES
    requires digit == v.digits[res - 1] && pp == PentagonAbove(v, res - 1)
    requires out == PosFrom(v, res, hi) && ValidFrom(v, res, hi)
    requires DigitOk(digit, pp) && next == out + DigitOffset(digit, pp, hi - res)
    ensures next == PosFrom(v, res - 1, hi) && ValidFrom(v, res - 1, hi)
  {
    assert hi - (res - 1 + 1) == hi - res;
    ValidFromStep(v, res - 1, hi);
  }

  /** cellToChildPos digit by digit. */
  lemma ChildPosOfFrom(v: View, pr: int)
    requires WellFormedView(v) && 0 <= pr <= v.res
    ensures ChildPosOf(v, pr) == if ValidFrom(v, pr, v.res) then Ok(PosFrom(v, pr, v.res)) else Err(E_CELL_INVALID)
  {
    PosFromIs(v, pr, v.res);
    ValidFromIs(v, pr, v.res);
  }

  /** A digit failing the check makes the whole check fail. */
  lemma CheckFails(v: View, lo: int, res: int, hi: int, digit: int, pp: bool)
    requires |v.digits| == MAX_H3_RES && 0 <= lo < res <= hi <= MAX_H3_RES
    requires digit == v.digits[res - 1] && pp == PentagonAbove(v, res - 1)
    requires !DigitOk(digit, pp)
    ensures !ValidFrom(v, lo, hi)
  {
  }

  // ------------------------------------------------ childPosToCell

  /** a with w written from index lo on. */
  function Spliced(a: seq<int>, lo: int, w: seq<int>): (s: seq<int>)
    requires 0 <= lo && lo + |w| <= |a|
    ensures |s| == |a|
  {
    a[..lo] + w + a[lo + |w|..]
  }

  /** Writing one more digit after the spliced ones. */
  lemma SplicedStep(a: seq<int>, lo: int, w: seq<int>, d: int)
    requires 0 <= lo && lo + |w| < |a|
    ensures Spliced(a, lo, w)[lo + |w| := d] == Spliced(a, lo, w + [d])
  {
    var s, t := Spliced(a, lo, w)[lo + |w| := d], Spliced(a, lo, w + [d]);
    assert forall i | 0 <= i < |a| :: s[i] == t[i];
  }

  /** Setting digit r of the child under construction writes the next
      spliced digit. */
  lemma ChildDigitStep(c: H3Index, p: View, childRes: int, wr: seq<int>, r: int, d: int)
    requires |p.digits| == MAX_H3_RES && 0 <= p.res && 1 <= r <= MAX_H3_RES && r == p.res + |wr| + 1 && IsDigit(d)
    requires ViewOf(c) == p.(res := childRes, digits := Spliced(p.digits, p.res, wr))
    ensures ViewOf(SetIndexDigit(c, r, d)) == p.(res := childRes, digits := Spliced(p.digits, p.res, wr + [d]))
  {
    SetIndexDigitView(c, r, d);
    SplicedStep(p.digits, p.res, wr, d);
  }

  /** The first digit below a pentagon as childPosToCell computes it:
      the centre while the position falls within the centre pentagon's
      descendants. */
  lemma DecodeCentreFormula(idx: int, m: nat, resWidth: int, pentWidth: int)
    requires m >= 1 && resWidth == Pow7(m - 1) && pentWidth == 1 + (5 * (resWidth - 1)) / 6
    requires 0 <= idx < pentWidth
    ensures Decode(idx, m, true) == [CENTER_DIGIT] + Decode(idx, m - 1, true)
  {
    PentagonCountFormula(m - 1);
  }

  /** ... and otherwise 2 plus the quotient of what is left. */
  lemma DecodeSkipFormula(idx: int, m: nat, resWidth: int, pentWidth: int)
    requires m >= 1 && resWidth == Pow7(m - 1) && pentWidth == 1 + (5 * (resWidth - 1)) / 6
    requires idx >= pentWidth
    ensures Decode(idx, m, true) == [(idx - pentWidth) / resWidth + 2] + Decode((idx - pentWidth) % resWidth, m - 1, false)
  {
    PentagonCountFormula(m - 1);
    QuotIsDiv(idx - pentWidth, resWidth);
  }

  /** The first digit below a hexagon: the quotient by the width. */
  lemma DecodeHexFormula(idx: int, m: nat, resWidth: int)
    requires m >= 1 && resWidth == Pow7(m - 1) && idx >= 0
    ensures Decode(idx, m, false) == [idx / resWidth] + Decode(idx % resWidth, m - 1, false)
  {
    QuotIsDiv(idx, resWidth);
  }

  /** childPosToCell: E_RES_DOMAIN for a resolution outside 0..15,
      E_RES_MISMATCH for one coarser than the parent's, E_DOMAIN for a
      position outside the child count, else the child at that position. */
  method ChildPosToCell(childPos: int, parent: H3Index, childRes: int) returns (r: Result<H3Index>)
    ensures var e := ChildPosToCellOf(childPos, ViewOf(parent), childRes);
      r.Err? == e.Err? && (r.Err? ==> r.error == e.error) && (r.Ok? ==> ViewOf(r.value) == e.value)
  {
    ghost var p := ViewOf(parent);
    FieldsOfView(parent);
    if childRes < 0 || childRes > MAX_H3_RES {
      return Err(E_RES_DOMAIN);
    }
    var parentRes := GetResolution(parent);
    if childRes < parentRes {
      return Err(E_RES_MISMATCH);
    }
    var childPosErr := ValidateChildPos(childPos, parent, childRes);
    IsPentagonDigits(parent);
    assert IsPentagon(parent) == PentagonAbove(p, parentRes);
    if childPosErr != E_SUCCESS {
      return Err(childPosErr);
    }
    var child := SetResolution(parent, childRes);
    SetResolutionView(parent, childRes);
    ChildPosToCellOk(p, childRes, childPos);
    if IsPentagon(parent) {
      child := PentagonChildDigits(child, p, parentRes, childRes, childPos);
    } else {
      child := HexagonChildDigits(child, p, parentRes, childRes, childPos);
    }
    return Ok(child);
  }

  /** The pentagon loop of childPosToCell: the digits of the position
      below a pentagon, written from parentRes + 1 on. */
  method PentagonChildDigits(child: H3Index, ghost p: View, parentRes: int, childRes: int, childPos: int) returns (c: H3Index)
    requires WellFormedView(p) && parentRes == p.res && parentRes <= childRes <= MAX_H3_RES && PentagonAbove(p, p.res)
    requires 0 <= childPos < Size(childRes - p.res, true)
    requires ViewOf(child) == p.(res := childRes)
    ensures ViewOf(c) == ChildAt(p, childRes, childPos)
  {
    var resOffset := childRes - parentRes;
    ghost var ds := Decode(childPos, resOffset, true);
    DecodeDigits(childPos, resOffset, true);
    c := child;
    StartView(c, p, childRes);
    var idx := childPos;
    var inPent := true;
    ghost var m: nat := resOffset;
    ghost var wr: seq<int> := [];
    var res := 1;
    while res <= resOffset
      invariant 1 <= res <= resOffset + 1 && m == resOffset - res + 1 && |wr| == res - 1
      invariant idx >= 0 && wr + Decode(idx, m, inPent) == ds
      invariant ViewOf(c) == p.(res := childRes, digits := Spliced(p.digits, p.res, wr))
    {
      c, idx, inPent, wr, m := PentagonChildPass(c, p, parentRes, childRes, res, resOffset, idx, inPent, m, wr, ds);
      res := res + 1;
    }
    ChildDigitsDone(p, childRes, childPos, wr, ds, idx, m, inPent);
  }

  /** The hexagon loop of childPosToCell: the base-7 digits of the
      position, written from parentRes + 1 on. */
  method HexagonChildDigits(child: H3Index, ghost p: View, parentRes: int, childRes: int, childPos: int) returns (c: H3Index)
    requires WellFormedView(p) && parentRes == p.res && parentRes <= childRes <= MAX_H3_RES && !PentagonAbove(p, p.res)
    requires 0 <= childPos < Size(childRes - p.res, false)
    requires ViewOf(child) == p.(res := childRes)
    ensures ViewOf(c) == ChildAt(p, childRes, childPos)
  {
    var resOffset := childRes - parentRes;
    ghost var ds := Decode(childPos, resOffset, false);
    DecodeDigits(childPos, resOffset, false);
    c := child;
    StartView(c, p, childRes);
    var idx := childPos;
    ghost var m: nat := resOffset;
    ghost var wr: seq<int> := [];
    var res := 1;
    while res <= resOffset
      invariant 1 <= res <= resOffset + 1 && m == resOffset - res + 1 && |wr| == res - 1
      invariant idx >= 0 && wr + Decode(idx, m, false) == ds
      invariant ViewOf(c) == p.(res := childRes, digits := Spliced(p.digits, p.res, wr))
    {
      c, idx, wr, m := HexagonChildPass(c, p, parentRes, childRes, res, resOffset, idx, m, wr, ds);
      res := res + 1;
    }
    ChildDigitsDone(p, childRes, childPos, wr, ds, idx, m, false);
  }

  /** The digit arithmetic of one pass of the pentagon loop of
      childPosToCell: the next digit, the rest of the position and whether
      the cell written is still a pentagon. */
  method PentagonChildDigit(idx: int, inPent: bool, resWidth: int, ghost m: nat, ghost m': nat)
    returns (digit: int, next: int, nextInPent: bool)
    requires m >= 1 && m' == m - 1 && resWidth == Pow7(m') && idx >= 0
    ensures next >= 0 && Decode(idx, m, inPent) == [digit] + Decode(next, m', nextInPent)
  {
    next, nextInPent := idx, inPent;
    if inPent {
      var pentWidth := 1 + (5 * (resWidth - 1)) / 6;
      if next < pentWidth {
        DecodeCentreFormula(idx, m, resWidth, pentWidth);
        digit := CENTER_DIGIT;
      } else {
        DecodeSkipFormula(idx, m, resWidth, pentWidth);
        next := next - pentWidth;
        nextInPent := false;
        digit := (next / resWidth) + 2;
        next := next % resWidth;
      }
    } else {
      DecodeHexFormula(idx, m, resWidth);
      digit := next / resWidth;
      next := next % resWidth;
    }
  }

  /** The digit arithmetic of one pass of the hexagon loop of
      childPosToCell. */
  method HexagonChildDigit(idx: int, resWidth: int, ghost m: nat, ghost m': nat) returns (digit: int, next: int)
    requires m >= 1 && m' == m - 1 && resWidth == Pow7(m') && idx >= 0
    ensures next >= 0 && Decode(idx, m, false) == [digit] + Decode(next, m', false)
  {
    DecodeHexFormula(idx, m, resWidth);
    digit := idx / resWidth;
    next := idx % resWidth;
  }

  /** Moving the first digit of the rest onto the written prefix. */
  lemma AppendStep(wr: seq<int>, d: int, rest: seq<int>, ds: seq<int>)
    requires wr + ([d] + rest) == ds
    ensures (wr + [d]) + rest == ds && |wr| < |ds| && ds[|wr|] == d
  {
    assert (wr + [d]) + rest == wr + ([d] + rest);
  }

  /** Once every digit of the position is written, the cell is the child
      at that position. */
  lemma ChildDigitsDone(p: View, childRes: int, childPos: int, wr: seq<int>, ds: seq<int>, idx: int, m: nat, inPent: bool)
    requires |p.digits| == MAX_H3_RES && 0 <= p.res <= childRes <= MAX_H3_RES && childPos >= 0
    requires ds == Decode(childPos, childRes - p.res, PentagonAbove(p, p.res))
    requires |wr| == childRes - p.res && m == 0 && idx >= 0 && wr + Decode(idx, m, inPent) == ds
    ensures p.(res := childRes, digits := Spliced(p.digits, p.res, wr)) == ChildAt(p, childRes, childPos)
  {
    assert wr == ds;
  }

  /** One pass of the hexagon loop of childPosToCell: the digit at
      resolution parentRes + res. */
  method HexagonChildPass(c: H3Index, ghost p: View, parentRes: int, childRes: int, res: int, resOffset: int,
                          idx: int, ghost m: nat, ghost wr: seq<int>, ghost ds: seq<int>)
    returns (c': H3Index, idx': int, ghost wr': seq<int>, ghost m': nat)
    requires |p.digits| == MAX_H3_RES && parentRes == p.res && 0 <= parentRes && resOffset == childRes - parentRes
    requires 1 <= res <= resOffset && childRes <= MAX_H3_RES && m == resOffset - res + 1 && |wr| == res - 1
    requires forall i | 0 <= i < |ds| :: IsDigit(ds[i])
    requires idx >= 0 && wr + Decode(idx, m, false) == ds
    requires ViewOf(c) == p.(res := childRes, digits := Spliced(p.digits, p.res, wr))
    ensures m' == m - 1 && |wr'| == res && idx' >= 0 && wr' + Decode(idx', m', false) == ds
    ensures ViewOf(c') == p.(res := childRes, digits := Spliced(p.digits, p.res, wr'))
  {
    m' := m - 1;
    var resWidth := Pow7(resOffset - res);
    assert resOffset - res == m';
    var digit;
    digit, idx' := HexagonChildDigit(idx, resWidth, m, m');
    AppendStep(wr, digit, Decode(idx', m', false), ds);
    ChildDigitStep(c, p, childRes, wr, parentRes + res, digit);
    c' := SetIndexDigit(c, parentRes + res, digit);
    wr' := wr + [digit];
  }

  /** One pass of the pentagon loop of childPosToCell: the digit at
      resolution parentRes + res. */
  method PentagonChildPass(c: H3Index, ghost p: View, parentRes: int, childRes: int, res: int, resOffset: int,
                           idx: int, inPent: bool, ghost m: nat, ghost wr: seq<int>, ghost ds: seq<int>)
    returns (c': H3Index, idx': int, inPent': bool, ghost wr': seq<int>, ghost m': nat)
    requires |p.digits| == MAX_H3_RES && parentRes == p.res && 0 <= parentRes && resOffset == childRes - parentRes
    requires 1 <= res <= resOffset && childRes <= MAX_H3_RES && m == resOffset - res + 1 && |wr| == res - 1
    requires forall i | 0 <= i < |ds| :: IsDigit(ds[i])
    requires idx >= 0 && wr + Decode(idx, m, inPent) == ds
    requires ViewOf(c) == p.(res := childRes, digits := Spliced(p.digits, p.res, wr))
    ensures m' == m - 1 && |wr'| == res && idx' >= 0 && wr' + Decode(idx', m', inPent') == ds
    ensures ViewOf(c') == p.(res := childRes, digits := Spliced(p.digits, p.res, wr'))
  {
    m' := m - 1;
    var resWidth := Pow7(resOffset - res);
    assert resOffset - res == m';
    var digit;
    digit, idx', inPent' := PentagonChildDigit(idx, inPent, resWidth, m, m');
    AppendStep(wr, digit, Decode(idx', m', inPent'), ds);
    ChildDigitStep(c, p, childRes, wr, parentRes + res, digit);
    c' := SetIndexDigit(c, parentRes + res, digit);
    wr' := wr + [digit];
  }

  /** Within range, childPosToCell gives the child at the position. */
  lemma ChildPosToCellOk(p: View, childRes: int, pos: int)
    requires WellFormedView(p) && p.res <= childRes <= MAX_H3_RES
    requires 0 <= pos < Size(childRes - p.res, PentagonAbove(p, p.res))
    ensures ChildPosToCellOf(pos, p, childRes) == Ok(ChildAt(p, childRes, pos))
  {
  }

  /** The digits of a position in range are digits. */
  lemma DecodeDigits(idx: int, m: nat, inPent: bool)
    requires 0 <= idx < Size(m, inPent)
    ensures forall i | 0 <= i < m :: IsDigit(Decode(idx, m, inPent)[i])
  {
    PosDecode(idx, m, inPent);
    ValidRelDigits(Decode(idx, m, inPent), inPent);
  }

  /** Before any digit is written, the cell is the parent at childRes. */
  lemma StartView(c: H3Index, p: View, childRes: int)
    requires |p.digits| == MAX_H3_RES && 0 <= p.res <= MAX_H3_RES
    requires ViewOf(c) == p.(res := childRes)
    ensures ViewOf(c) == p.(res := childRes, digits := Spliced(p.digits, p.res, []))
  {
    assert Spliced(p.digits, p.res, []) == p.digits;
  }
}
