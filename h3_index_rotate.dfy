// The index rotations of h3Index.c: _h3Rotate60ccw/_h3Rotate60cw turn
// every digit of a cell by sixty degrees, and _h3RotatePent60ccw/cw do the
// same about a pentagon, turning once more when the first nonzero digit
// would land on the deleted k-axes direction.  The two directions share
// one loop each, parameterised by the direction, as the C functions are
// line for line the same apart from the digit rotation they call.

module H3IndexRotate {
  import opened H3Api
  import opened H3IndexFields
  import opened H3IndexValid
  import opened H3Hierarchy
  import opened CoordIjk

  /** _rotate60ccw or _rotate60cw on one digit. */
  function Rot(ccw: bool, d: int): int
  {
    if ccw then Rotate60ccwDigit(d) else Rotate60cwDigit(d)
  }

  /** What a digit rotation keeps: the digit range, 0 and 7 fixed, the real
      directions among themselves; the other direction undoes it. */
  lemma RotFacts(ccw: bool, d: int)
    ensures Rot(!ccw, Rot(ccw, d)) == d
    ensures IsDigit(d) ==> IsDigit(Rot(ccw, d))
    ensures d == CENTER_DIGIT <==> Rot(ccw, d) == CENTER_DIGIT
    ensures d == INVALID_DIGIT ==> Rot(ccw, d) == INVALID_DIGIT
    ensures 1 <= d <= 6 ==> 1 <= Rot(ccw, d) <= 6
  {
    RotateDigitInverse(d);
  }

  /** ds with positions lo..hi-1 rotated. */
  function RotatedRange(ds: seq<int>, lo: int, hi: int, ccw: bool): (r: seq<int>)
    requires |ds| == MAX_H3_RES
    ensures |r| == MAX_H3_RES
  {
    seq(MAX_H3_RES, i requires 0 <= i < MAX_H3_RES => if lo <= i < hi then Rot(ccw, ds[i]) else ds[i])
  }

  /** The digits of a cell of resolution res turned by sixty degrees. */
  function RotatedDigits(ds: seq<int>, res: int, ccw: bool): seq<int>
    requires |ds| == MAX_H3_RES
  {
    RotatedRange(ds, 0, res, ccw)
  }

  /** Turning one way and then the other gives the digits back. */
  lemma RotatedDigitsInverse(ds: seq<int>, res: int, ccw: bool)
    requires |ds| == MAX_H3_RES
    ensures RotatedDigits(RotatedDigits(ds, res, ccw), res, !ccw) == ds
  {
    forall i | 0 <= i < MAX_H3_RES
      ensures RotatedDigits(RotatedDigits(ds, res, ccw), res, !ccw)[i] == ds[i]
    {
      RotFacts(ccw, ds[i]);
    }
  }

  /** Turning a valid hexagon's digits gives a valid cell again: the real
      digits stay real and the unused ones stay 7. */
  lemma RotatedHexagonValid(v: View, ccw: bool)
    requires WellFormedView(v) && IsValidCellView(v) && !IsBaseCellPentagon(v.baseCell)
    ensures WellFormedView(v.(digits := RotatedDigits(v.digits, v.res, ccw)))
    ensures IsValidCellView(v.(digits := RotatedDigits(v.digits, v.res, ccw)))
  {
    var ds := RotatedDigits(v.digits, v.res, ccw);
    forall i | 0 <= i < MAX_H3_RES
      ensures IsDigit(ds[i])
      ensures i < v.res ==> ds[i] != INVALID_DIGIT
      ensures i >= v.res ==> ds[i] == INVALID_DIGIT
    {
      RotFacts(ccw, v.digits[i]);
    }
  }

  lemma RotateStep(h: H3Index, v: View, r: int, ccw: bool)
    requires |v.digits| == MAX_H3_RES && 1 <= r <= MAX_H3_RES
    requires ViewOf(h) == v.(digits := RotatedRange(v.digits, 0, r - 1, ccw))
    ensures IsDigit(Rot(ccw, GetIndexDigit(h, r)))
    ensures GetIndexDigit(h, r) == v.digits[r - 1]
    ensures ViewOf(SetIndexDigit(h, r, Rot(ccw, GetIndexDigit(h, r)))) == v.(digits := RotatedRange(v.digits, 0, r, ccw))
  {
    GetIndexDigitView(h, r);
    RotFacts(ccw, v.digits[r - 1]);
    SetIndexDigitView(h, r, Rot(ccw, v.digits[r - 1]));
    assert RotatedRange(v.digits, 0, r - 1, ccw)[r - 1 := Rot(ccw, v.digits[r - 1])] == RotatedRange(v.digits, 0, r, ccw);
  }

  /** The loop shared by _h3Rotate60ccw and _h3Rotate60cw. */
  method Rotate60(h: H3Index, ccw: bool) returns (out: H3Index)
    ensures ViewOf(out) == ViewOf(h).(digits := RotatedDigits(ViewOf(h).digits, ViewOf(h).res, ccw))
  {
    ghost var v := ViewOf(h);
    FieldsOfView(h);
    out := h;
    assert RotatedRange(v.digits, 0, 0, ccw) == v.digits;
    var r := 1;
    var res := GetResolution(h);
    while r <= res
      invariant 1 <= r <= res + 1
      invariant ViewOf(out) == v.(digits := RotatedRange(v.digits, 0, r - 1, ccw))
    {
      RotateStep(out, v, r, ccw);
      var oldDigit := GetIndexDigit(out, r);
      out := SetIndexDigit(out, r, Rot(ccw, oldDigit));
      r := r + 1;
    }
  }

  /** _h3Rotate60ccw */
  method H3Rotate60ccw(h: H3Index) returns (out: H3Index)
    ensures ViewOf(out) == ViewOf(h).(digits := RotatedDigits(ViewOf(h).digits, ViewOf(h).res, true))
  {
    out := Rotate60(h, true);
  }

  /** _h3Rotate60cw */
  method H3Rotate60cw(h: H3Index) returns (out: H3Index)
    ensures ViewOf(out) == ViewOf(h).(digits := RotatedDigits(ViewOf(h).digits, ViewOf(h).res, false))
  {
    out := Rotate60(h, false);
  }

  // ------------------------------------------------- about a pentagon

  /** The digits _h3RotatePent60ccw/cw leave: turned once, and a second
      time when the first nonzero digit has become the k-axes digit 1. */
  function PentRotatedDigits(ds: seq<int>, res: int, ccw: bool): seq<int>
    requires |ds| == MAX_H3_RES && 0 <= res <= MAX_H3_RES
  {
    var once := RotatedDigits(ds, res, ccw);
    if LeadingNonZeroFrom(once, 0, res) == K_AXES_DIGIT then RotatedDigits(once, res, ccw) else once
  }

  /** Turning keeps zero digits zero and nonzero digits nonzero, so the
      leading nonzero digit turns with them. */
  lemma {:induction false} LeadingNonZeroRotated(ds: seq<int>, i: int, res: int, ccw: bool)
    requires |ds| == MAX_H3_RES && 0 <= i <= res <= MAX_H3_RES
    ensures LeadingNonZeroFrom(RotatedDigits(ds, res, ccw), i, res) == Rot(ccw, LeadingNonZeroFrom(ds, i, res))
    decreases res - i
  {
    if i < res {
      RotFacts(ccw, ds[i]);
      LeadingNonZeroRotated(ds, i + 1, res, ccw);
    } else {
      RotFacts(ccw, CENTER_DIGIT);
    }
  }

  /** After a pentagon rotation the first nonzero digit is never the
      deleted k-axes digit, so a valid pentagon stays a valid pentagon. */
  lemma PentRotatedValid(v: View, ccw: bool)
    requires WellFormedView(v) && IsValidCellView(v)
    ensures LeadingNonZeroFrom(PentRotatedDigits(v.digits, v.res, ccw), 0, v.res) != K_AXES_DIGIT
    ensures WellFormedView(v.(digits := PentRotatedDigits(v.digits, v.res, ccw)))
    ensures IsValidCellView(v.(digits := PentRotatedDigits(v.digits, v.res, ccw)))
  {
    var once := RotatedDigits(v.digits, v.res, ccw);
    var w := v.(digits := once);
    RotatedHexagonShape(v, ccw);
    LeadingNonZeroRotated(v.digits, 0, v.res, ccw);
    if LeadingNonZeroFrom(once, 0, v.res) == K_AXES_DIGIT {
      RotatedHexagonShape(w, ccw);
      LeadingNonZeroRotated(once, 0, v.res, ccw);
      RotFacts(ccw, K_AXES_DIGIT);
      assert Rot(ccw, K_AXES_DIGIT) != K_AXES_DIGIT;
    }
    var pv := v.(digits := PentRotatedDigits(v.digits, v.res, ccw));
    LeadingNonZeroSplit(pv.digits, 0, v.res, MAX_H3_RES);
    if v.res < MAX_H3_RES {
      assert pv.digits[v.res] == INVALID_DIGIT;
    }
  }

  /** Turning the digits of a well-formed view keeps digits 7-free below
      res and 7 from res on. */
  lemma RotatedHexagonShape(v: View, ccw: bool)
    requires WellFormedView(v) && 0 <= v.res <= MAX_H3_RES
    requires forall i | 0 <= i < v.res :: v.digits[i] != INVALID_DIGIT
    requires forall i | v.res <= i < MAX_H3_RES :: v.digits[i] == INVALID_DIGIT
    ensures WellFormedView(v.(digits := RotatedDigits(v.digits, v.res, ccw)))
    ensures forall i | 0 <= i < v.res :: RotatedDigits(v.digits, v.res, ccw)[i] != INVALID_DIGIT
    ensures forall i | v.res <= i < MAX_H3_RES :: RotatedDigits(v.digits, v.res, ccw)[i] == INVALID_DIGIT
  {
    var ds := RotatedDigits(v.digits, v.res, ccw);
    forall i | 0 <= i < MAX_H3_RES
      ensures IsDigit(ds[i])
      ensures i < v.res ==> ds[i] != INVALID_DIGIT
      ensures i >= v.res ==> ds[i] == INVALID_DIGIT
    {
      RotFacts(ccw, v.digits[i]);
    }
  }

  /** The position k is the first nonzero one, so it is the leading digit. */
  lemma {:induction false} LeadingNonZeroAt(ds: seq<int>, i: int, k: int, n: int)
    requires 0 <= i <= k < n <= |ds|
    requires forall j | i <= j < k :: ds[j] == CENTER_DIGIT
    requires ds[k] != CENTER_DIGIT
    ensures LeadingNonZeroFrom(ds, i, n) == ds[k]
    decreases k - i
  {
    if i < k {
      LeadingNonZeroAt(ds, i + 1, k, n);
    }
  }

  /** Rotating two ranges one after the other does not depend on the order. */
  lemma RotatedRangeCommute(ds: seq<int>, r: int, res: int, ccw: bool)
    requires |ds| == MAX_H3_RES
    ensures RotatedRange(RotatedRange(ds, 0, r, ccw), 0, res, ccw) == RotatedRange(RotatedRange(ds, 0, res, ccw), 0, r, ccw)
  {
  }

  /** The digits at step r of the pentagon loop: digits 1..r-1 turned once
      more than the rest, all of them having been turned once already when
      the loop turned the whole index a second time. */
  function PentLoopDigits(ds: seq<int>, res: int, r: int, twice: bool, ccw: bool): (d: seq<int>)
    requires |ds| == MAX_H3_RES && 0 <= res <= MAX_H3_RES
    ensures |d| == MAX_H3_RES
  {
    RotatedRange(if twice then RotatedDigits(ds, res, ccw) else ds, 0, r - 1, ccw)
  }

  /** The step at the first nonzero digit, where the loop checks the
      leading digit and may turn everything once more. */
  lemma PentFoundStep(ds: seq<int>, res: int, r: int, ccw: bool)
    requires |ds| == MAX_H3_RES && 1 <= r <= res <= MAX_H3_RES
    requires forall j | 0 <= j < r - 1 :: ds[j] == CENTER_DIGIT
    requires ds[r - 1] != CENTER_DIGIT
    ensures LeadingNonZeroFrom(RotatedRange(ds, 0, r, ccw), 0, res)
         == LeadingNonZeroFrom(RotatedDigits(ds, res, ccw), 0, res)
    ensures RotatedDigits(RotatedRange(ds, 0, r, ccw), res, ccw) == PentLoopDigits(ds, res, r + 1, true, ccw)
  {
    var a, b := RotatedRange(ds, 0, r, ccw), RotatedDigits(ds, res, ccw);
    forall j | 0 <= j < r
      ensures a[j] == b[j] && (j < r - 1 ==> a[j] == CENTER_DIGIT) && (j == r - 1 ==> a[j] != CENTER_DIGIT)
    {
      RotFacts(ccw, ds[j]);
    }
    LeadingNonZeroAt(a, 0, r - 1, res);
    LeadingNonZeroAt(b, 0, r - 1, res);
    RotatedRangeCommute(ds, r, res, ccw);
  }

  /** When every digit is 0 the loop never turns a second time. */
  lemma PentNoneFound(ds: seq<int>, res: int, ccw: bool)
    requires |ds| == MAX_H3_RES && 0 <= res <= MAX_H3_RES
    requires forall j | 0 <= j < res :: ds[j] == CENTER_DIGIT
    ensures PentLoopDigits(ds, res, res + 1, false, ccw) == PentRotatedDigits(ds, res, ccw)
  {
    LeadingNonZeroOfZeros(ds, 0, res);
    LeadingNonZeroRotated(ds, 0, res, ccw);
    RotFacts(ccw, CENTER_DIGIT);
  }

  /** Digits 1..k of ds are all 0. */
  predicate ZerosBelow(ds: seq<int>, k: int)
    requires 0 <= k <= |ds|
  {
    forall j | 0 <= j < k :: ds[j] == CENTER_DIGIT
  }

  /** Turning digit r of the step-r digits gives the step r+1 digits;
      while no second turn is made, digit r is still the input's. */
  lemma PentLoopAdvance(ds: seq<int>, res: int, r: int, twice: bool, ccw: bool)
    requires |ds| == MAX_H3_RES && 1 <= r <= res <= MAX_H3_RES
    ensures PentLoopDigits(ds, res, r, twice, ccw)[r - 1 := Rot(ccw, PentLoopDigits(ds, res, r, twice, ccw)[r - 1])]
         == PentLoopDigits(ds, res, r + 1, twice, ccw)
    ensures !twice ==> PentLoopDigits(ds, res, r, twice, ccw)[r - 1] == ds[r - 1]
    ensures twice ==> PentLoopDigits(ds, res, r, twice, ccw)[r - 1] == Rot(ccw, ds[r - 1])
  {
    var cur := PentLoopDigits(ds, res, r, twice, ccw);
    assert cur[r - 1 := Rot(ccw, cur[r - 1])] == PentLoopDigits(ds, res, r + 1, twice, ccw);
  }

  /** On the digits alone: turning digit r of the step-r digits gives the
      step r+1 digits, and the digit turned is a digit. */
  lemma PentStepDigits(ds: seq<int>, res: int, r: int, twice: bool, ccw: bool)
    requires |ds| == MAX_H3_RES && 1 <= r <= res <= MAX_H3_RES
    requires forall j | 0 <= j < MAX_H3_RES :: IsDigit(ds[j])
    ensures IsDigit(PentLoopDigits(ds, res, r, twice, ccw)[r - 1])
    ensures IsDigit(Rot(ccw, PentLoopDigits(ds, res, r, twice, ccw)[r - 1]))
    ensures PentLoopDigits(ds, res, r, twice, ccw)[r - 1 := Rot(ccw, PentLoopDigits(ds, res, r, twice, ccw)[r - 1])]
         == PentLoopDigits(ds, res, r + 1, twice, ccw)
    ensures !twice ==> PentLoopDigits(ds, res, r, twice, ccw)[r - 1] == ds[r - 1]
  {
    PentLoopAdvance(ds, res, r, twice, ccw);
    RotFacts(ccw, ds[r - 1]);
    RotFacts(ccw, Rot(ccw, ds[r - 1]));
  }

  /** One pass of the pentagon loop body up to the leading-digit check:
      digit r is turned, and while no turn has been repeated it is digit r
      of the input. */
  lemma PentStep(h: H3Index, ds: seq<int>, res: int, r: int, twice: bool, ccw: bool)
    requires |ds| == MAX_H3_RES && 1 <= r <= res <= MAX_H3_RES
    requires forall j | 0 <= j < MAX_H3_RES :: IsDigit(ds[j])
    requires ViewOf(h).digits == PentLoopDigits(ds, res, r, twice, ccw)
    ensures IsDigit(Rot(ccw, GetIndexDigit(h, r)))
    ensures ViewOf(SetIndexDigit(h, r, Rot(ccw, GetIndexDigit(h, r)))) == ViewOf(h).(digits := PentLoopDigits(ds, res, r + 1, twice, ccw))
    ensures !twice ==> GetIndexDigit(h, r) == ds[r - 1]
  {
    PentStepDigits(ds, res, r, twice, ccw);
    GetIndexDigitView(h, r);
    SetIndexDigitView(h, r, Rot(ccw, GetIndexDigit(h, r)));
  }

  /** A turned digit is zero exactly when the digit is, so a run of zero
      digits grows by one. */
  lemma ZerosStep(ds: seq<int>, r: int, ccw: bool)
    requires 1 <= r <= |ds|
    ensures Rot(ccw, ds[r - 1]) == CENTER_DIGIT <==> ds[r - 1] == CENTER_DIGIT
    ensures ZerosBelow(ds, r - 1) && ds[r - 1] == CENTER_DIGIT ==> ZerosBelow(ds, r)
  {
    RotFacts(ccw, ds[r - 1]);
  }

  /** The leading digit of the input once turned. */
  function OnceLead(ds: seq<int>, res: int, ccw: bool): int
    requires |ds| == MAX_H3_RES && 0 <= res <= MAX_H3_RES
  {
    LeadingNonZeroFrom(RotatedDigits(ds, res, ccw), 0, res)
  }

  /** At the first nonzero digit r the leading digit the loop sees is the
      leading digit of the whole index turned once, and turning everything
      again gives the digits of the twice-turned branch. */
  lemma PentFound(h: H3Index, v: View, r: int, ccw: bool)
    requires WellFormedView(v) && 1 <= r <= v.res
    requires ViewOf(h) == v.(digits := PentLoopDigits(v.digits, v.res, r + 1, false, ccw))
    requires ZerosBelow(v.digits, r - 1) && v.digits[r - 1] != CENTER_DIGIT
    ensures LeadingNonZeroFrom(ViewOf(h).digits, 0, ViewOf(h).res) == OnceLead(v.digits, v.res, ccw)
    ensures ViewOf(h).(digits := RotatedDigits(ViewOf(h).digits, ViewOf(h).res, ccw)) == v.(digits := PentLoopDigits(v.digits, v.res, r + 1, true, ccw))
  {
    PentFoundStep(v.digits, v.res, r, ccw);
  }

  /** When every digit is 0 the loop never turns a second time. */
  lemma PentNone(v: View, ccw: bool)
    requires WellFormedView(v) && v.res <= MAX_H3_RES && ZerosBelow(v.digits, v.res)
    ensures v.(digits := PentLoopDigits(v.digits, v.res, v.res + 1, false, ccw)) == v.(digits := PentRotatedDigits(v.digits, v.res, ccw))
  {
    PentNoneFound(v.digits, v.res, ccw);
  }

  /** The body of the pentagon loop at the first nonzero digit r: when the
      leading digit is now the deleted k-axes digit, turn the whole index
      once more. */
  method AdjustForDeletedKAxes(h: H3Index, ghost v: View, r: int, ccw: bool) returns (o: H3Index)
    requires WellFormedView(v) && 1 <= r <= v.res
    requires ViewOf(h) == v.(digits := PentLoopDigits(v.digits, v.res, r + 1, false, ccw))
    requires ZerosBelow(v.digits, r - 1) && v.digits[r - 1] != CENTER_DIGIT
    ensures ViewOf(o) == v.(digits := PentLoopDigits(v.digits, v.res, r + 1, OnceLead(v.digits, v.res, ccw) == K_AXES_DIGIT, ccw))
  {
    PentFound(h, v, r, ccw);
    var lead := LeadingNonZeroDigit(h);
    o := h;
    if lead == K_AXES_DIGIT {
      o := Rotate60(h, ccw);
    }
  }

  /** One pass of the pentagon loop body: turn digit r and, at the first
      nonzero digit, adjust for the deleted k-axes.  twice says whether
      that adjustment turns the index a second time. */
  method PentLoopBody(h: H3Index, ghost v: View, r: int, found: bool, ghost twice: bool, ccw: bool)
    returns (o: H3Index, found': bool)
    requires WellFormedView(v) && 1 <= r <= v.res
    requires twice == (OnceLead(v.digits, v.res, ccw) == K_AXES_DIGIT)
    requires ViewOf(h) == v.(digits := PentLoopDigits(v.digits, v.res, r, found && twice, ccw))
    requires !found ==> ZerosBelow(v.digits, r - 1)
    ensures ViewOf(o) == v.(digits := PentLoopDigits(v.digits, v.res, r + 1, found' && twice, ccw))
    ensures !found' ==> ZerosBelow(v.digits, r)
  {
    PentStep(h, v.digits, v.res, r, found && twice, ccw);
    ZerosStep(v.digits, r, ccw);
    var digit := Rot(ccw, GetIndexDigit(h, r));
    o := SetIndexDigit(h, r, digit);
    found' := found;
    if !found && digit != CENTER_DIGIT {
      found' := true;
      o := AdjustForDeletedKAxes(o, v, r, ccw);
    }
  }

  /** The loop shared by _h3RotatePent60ccw and _h3RotatePent60cw. */
  method RotatePent60(h: H3Index, ccw: bool) returns (out: H3Index)
    ensures ViewOf(out) == ViewOf(h).(digits := PentRotatedDigits(ViewOf(h).digits, ViewOf(h).res, ccw))
  {
    ghost var v := ViewOf(h);
    FieldsOfView(h);
    out := h;
    var res := GetResolution(h);
    assert PentLoopDigits(v.digits, res, 1, false, ccw) == v.digits;
    var foundFirstNonZeroDigit := false;
    ghost var twice := OnceLead(v.digits, v.res, ccw) == K_AXES_DIGIT;
    var r := 1;
    while r <= res
      invariant 1 <= r <= res + 1
      invariant ViewOf(out) == v.(digits := PentLoopDigits(v.digits, v.res, r, foundFirstNonZeroDigit && twice, ccw))
      invariant !foundFirstNonZeroDigit ==> ZerosBelow(v.digits, r - 1)
    {
      out, foundFirstNonZeroDigit := PentLoopBody(out, v, r, foundFirstNonZeroDigit, twice, ccw);
      r := r + 1;
    }
    if !foundFirstNonZeroDigit {
      PentNone(v, ccw);
    }
  }

  /** _h3RotatePent60ccw */
  method H3RotatePent60ccw(h: H3Index) returns (out: H3Index)
    ensures ViewOf(out) == ViewOf(h).(digits := PentRotatedDigits(ViewOf(h).digits, ViewOf(h).res, true))
  {
    out := RotatePent60(h, true);
  }

  /** _h3RotatePent60cw */
  method H3RotatePent60cw(h: H3Index) returns (out: H3Index)
    ensures ViewOf(out) == ViewOf(h).(digits := PentRotatedDigits(ViewOf(h).digits, ViewOf(h).res, false))
  {
    out := RotatePent60(h, false);
  }
}
