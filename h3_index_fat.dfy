// The unpacked cell representation of h3IndexFat.c: mode, resolution and
// base cell as separate integers and one array element per resolution
// digit, updated in place.  Element r of the array holds the digit of
// resolution r + 1, the same indexing as View.digits, so the fat index and
// the 64-bit word share the specification functions of their rotations.

module H3IndexFat {
  import opened H3Api
  import opened H3IndexFields
  import opened H3IndexValid
  import opened H3IndexRotate

  /** H3_HEXAGON_MODE, the older name of the cell mode. */
  const H3_HEXAGON_MODE: int := H3_CELL_MODE

  /** The rotDigit tables of _h3FatRotate60ccw and _h3FatRotate60cw. */
  const ROT_DIGIT_CCW: seq<int> := [0, 5, 3, 1, 6, 4, 2]
  const ROT_DIGIT_CW: seq<int> := [0, 3, 6, 2, 5, 1, 4]

  function RotDigit(ccw: bool): seq<int>
  {
    if ccw then ROT_DIGIT_CCW else ROT_DIGIT_CW
  }

  /** The tables turn the digits 0..6 as _rotate60ccw and _rotate60cw do,
      and stay within 0..6. */
  lemma RotDigitMeaning(ccw: bool, d: int)
    requires 0 <= d <= 6
    ensures |RotDigit(ccw)| == 7 && RotDigit(ccw)[d] == Rot(ccw, d) && 0 <= Rot(ccw, d) <= 6
  {
    RotFacts(ccw, d);
  }

  /** Digits 1..res can index a rotDigit table. */
  predicate TableDigits(ds: seq<int>, res: int)
    requires res <= |ds|
  {
    forall r | 0 <= r < res :: 0 <= ds[r] <= 6
  }

  /** What h3FatIsValid accepts: the hexagon mode, a base cell number, a
      resolution, digits 0..6 up to it and 7 after it. */
  predicate FatValid(mode: int, baseCell: int, res: int, ds: seq<int>)
    requires |ds| == MAX_H3_RES
  {
    mode == H3_HEXAGON_MODE && 0 <= baseCell < NUM_BASE_CELLS && 0 <= res <= MAX_H3_RES
    && TableDigits(ds, res)
    && forall r | res <= r < MAX_H3_RES :: ds[r] == INVALID_DIGIT
  }

  /** The fields of a fat index as the fields of an index word. */
  function WordView(mode: int, baseCell: int, res: int, ds: seq<int>): View
  {
    View(0, mode, 0, res, baseCell, ds)
  }

  /** A valid fat index has the fields of a well-formed word, which is a
      valid cell unless it is a pentagon led by the deleted k-axes digit
      (a case h3FatIsValid does not reject); conversely every valid cell is
      a valid fat index. */
  lemma FatValidWord(mode: int, baseCell: int, res: int, ds: seq<int>)
    requires |ds| == MAX_H3_RES
    ensures var v := WordView(mode, baseCell, res, ds);
      FatValid(mode, baseCell, res, ds) ==>
        WellFormedView(v)
        && (IsValidCellView(v) <==> !(IsBaseCellPentagonArr(baseCell) && LeadingNonZeroFrom(ds, 0, MAX_H3_RES) == K_AXES_DIGIT))
    ensures var v := WordView(mode, baseCell, res, ds);
      WellFormedView(v) && IsValidCellView(v) ==> FatValid(mode, baseCell, res, ds)
  {
  }

  /** What h3FatEquals compares: resolution, base cell and digits 1..res. */
  predicate FatEqual(res1: int, baseCell1: int, ds1: seq<int>, res2: int, baseCell2: int, ds2: seq<int>)
    requires |ds1| == MAX_H3_RES && |ds2| == MAX_H3_RES && res1 <= MAX_H3_RES
  {
    res1 == res2 && baseCell1 == baseCell2 && forall r | 0 <= r < res1 :: ds1[r] == ds2[r]
  }

  /** On valid fat indexes, h3FatEquals is equality of the whole index. */
  lemma FatEqualValid(res1: int, baseCell1: int, ds1: seq<int>, res2: int, baseCell2: int, ds2: seq<int>)
    requires |ds1| == MAX_H3_RES && |ds2| == MAX_H3_RES
    requires FatValid(H3_HEXAGON_MODE, baseCell1, res1, ds1) && FatValid(H3_HEXAGON_MODE, baseCell2, res2, ds2)
    ensures FatEqual(res1, baseCell1, ds1, res2, baseCell2, ds2) <==> res1 == res2 && baseCell1 == baseCell2 && ds1 == ds2
  {
    if FatEqual(res1, baseCell1, ds1, res2, baseCell2, ds2) {
      assert forall r | 0 <= r < MAX_H3_RES :: ds1[r] == ds2[r];
    }
  }

  /** The first n digits of ds, and 7 after them. */
  function DigitsUpTo(ds: seq<int>, n: int): (r: seq<int>)
    requires |ds| == MAX_H3_RES
    ensures |r| == MAX_H3_RES
  {
    seq(MAX_H3_RES, i requires 0 <= i < MAX_H3_RES => if i < n then ds[i] else INVALID_DIGIT)
  }

  /** The number of digits the loops over 0..res-1 visit. */
  function Visited(res: int): int
  {
    if res < 0 then 0 else res
  }

  /** isResClassIII: C's `res % 2`, whose remainder takes the sign of res,
      so that it is nonzero (true) exactly for the odd resolutions. */
  function IsResClassIII(res: int): (r: int)
    ensures r != 0 <==> res % 2 == 1
    ensures res >= 0 ==> r == res % 2
    ensures res < 0 && res % 2 == 1 ==> r == -1
  {
    if res >= 0 then res % 2 else -((-res) % 2)
  }

  class H3IndexFat {
    var mode: int
    var res: int
    var baseCell: int
    const index: array<int>

    /** The index holds one digit per resolution. */
    ghost predicate Valid()
      reads this
    {
      index.Length == MAX_H3_RES
    }

    /** A fresh index holding emptyH3IndexFat. */
    constructor ()
      ensures Valid() && fresh(index)
      ensures mode == -1 && res == -1 && baseCell == -1
      ensures index[..] == seq(MAX_H3_RES, _ => INVALID_DIGIT)
    {
      mode, res, baseCell := -1, -1, -1;
      index := new int[MAX_H3_RES](_ => INVALID_DIGIT);
    }

    /** initH3IndexFat: the empty index at resolution res, in hexagon mode. */
    method Init(res: int)
      requires Valid()
      modifies this, index
      ensures Valid()
      ensures mode == H3_HEXAGON_MODE && this.res == res && baseCell == -1
      ensures index[..] == seq(MAX_H3_RES, _ => INVALID_DIGIT)
    {
      mode, this.res, baseCell := H3_HEXAGON_MODE, res, -1;
      forall i | 0 <= i < index.Length {
        index[i] := INVALID_DIGIT;
      }
    }

    /** setH3IndexFat: digit in each of the first res positions, 7 after. */
    method Set(res: int, baseCell: int, digit: int)
      requires Valid() && res <= MAX_H3_RES
      modifies this, index
      ensures Valid()
      ensures mode == H3_HEXAGON_MODE && this.res == res && this.baseCell == baseCell
      ensures index[..] == seq(MAX_H3_RES, i => if i < res then digit else INVALID_DIGIT)
    {
      Init(res);
      this.baseCell := baseCell;
      var r := 0;
      while r < this.res
        invariant 0 <= r <= Visited(res) && this.res == res && mode == H3_HEXAGON_MODE && this.baseCell == baseCell
        invariant forall j | 0 <= j < MAX_H3_RES :: index[j] == if j < r then digit else INVALID_DIGIT
      {
        index[r] := digit;
        r := r + 1;
      }
    }

    /** h3FatIsValid. */
    method IsValid() returns (valid: bool)
      requires Valid()
      ensures valid == FatValid(mode, baseCell, res, index[..])
    {
      if mode != H3_HEXAGON_MODE { return false; }
      if baseCell < 0 || baseCell >= NUM_BASE_CELLS { return false; }
      if res < 0 || res > MAX_H3_RES { return false; }
      var r := 0;
      while r < res
        invariant 0 <= r <= res
        invariant TableDigits(index[..], r)
      {
        if index[r] < 0 || index[r] > 6 { return false; }
        r := r + 1;
      }
      while r < MAX_H3_RES
        invariant res <= r <= MAX_H3_RES
        invariant forall j | res <= j < r :: index[j] == INVALID_DIGIT
      {
        if index[r] != INVALID_DIGIT { return false; }
        r := r + 1;
      }
      return true;
    }

    /** copyH3IndexFat(orig, this).  Distinct indexes own distinct digit
        arrays, as C structs do.  Copying an index onto itself first empties
        it, so only the resolution survives. */
    method CopyFrom(orig: H3IndexFat)
      requires Valid() && orig.Valid() && (orig == this || orig.index != index)
      requires orig.res <= MAX_H3_RES
      modifies this, index
      ensures Valid() && mode == H3_HEXAGON_MODE && res == old(orig.res)
      ensures orig != this ==>
        baseCell == old(orig.baseCell) && index[..] == DigitsUpTo(old(orig.index[..]), res)
      ensures orig == this ==> baseCell == -1 && index[..] == seq(MAX_H3_RES, _ => INVALID_DIGIT)
    {
      ghost var ds := orig.index[..];
      Init(orig.res);
      baseCell := orig.baseCell;
      var r := 0;
      while r < orig.res
        invariant 0 <= r <= Visited(res) && res == orig.res == old(orig.res) && mode == H3_HEXAGON_MODE
        invariant orig != this ==> orig.index[..] == ds && baseCell == old(orig.baseCell)
        invariant orig == this ==> baseCell == -1
        invariant forall j | 0 <= j < MAX_H3_RES ::
          index[j] == if j < r && orig != this then ds[j] else INVALID_DIGIT
      {
        index[r] := orig.index[r];
        r := r + 1;
      }
    }

    /** _leadingNonZeroDigit: the first nonzero digit, 0 when there is none. */
    method LeadingNonZeroDigit() returns (d: int)
      requires Valid() && res <= MAX_H3_RES
      ensures d == LeadingNonZeroFrom(index[..], 0, Visited(res))
      ensures d == CENTER_DIGIT <==> forall r | 0 <= r < res :: index[r] == CENTER_DIGIT
    {
      var r := 0;
      while r < res
        invariant 0 <= r <= Visited(res)
        invariant forall j | 0 <= j < r :: index[j] == CENTER_DIGIT
        invariant LeadingNonZeroFrom(index[..], r, Visited(res)) == LeadingNonZeroFrom(index[..], 0, Visited(res))
      {
        if index[r] != CENTER_DIGIT { return index[r]; }
        r := r + 1;
      }
      return CENTER_DIGIT;
    }

    /** isPentagon: a pentagon base cell and no nonzero digit. */
    method IsPentagon() returns (p: bool)
      requires Valid() && res <= MAX_H3_RES && 0 <= baseCell < NUM_BASE_CELLS
      ensures p <==> IsBaseCellPentagonArr(baseCell) && forall r | 0 <= r < res :: index[r] == CENTER_DIGIT
    {
      var lead := LeadingNonZeroDigit();
      p := IsBaseCellPentagonArr(baseCell) && lead == CENTER_DIGIT;
    }

    /** h3FatEquals(this, other). */
    method Equals(other: H3IndexFat) returns (eq: bool)
      requires Valid() && other.Valid() && res <= MAX_H3_RES
      ensures eq == FatEqual(res, baseCell, index[..], other.res, other.baseCell, other.index[..])
    {
      if res != other.res || baseCell != other.baseCell { return false; }
      var r := 0;
      while r < res
        invariant 0 <= r <= Visited(res)
        invariant forall j | 0 <= j < r :: index[j] == other.index[j]
      {
        if index[r] != other.index[r] { return false; }
        r := r + 1;
      }
      return true;
    }

    /** _h3FatRotate60ccw and _h3FatRotate60cw: every digit of the cell
        turned through the rotDigit table, which the digits must index. */
    method Rotate60(ccw: bool)
      requires Valid() && res <= MAX_H3_RES && TableDigits(index[..], res)
      modifies index
      ensures index[..] == RotatedDigits(old(index[..]), res, ccw)
      ensures TableDigits(index[..], res)
    {
      ghost var ds := index[..];
      var rotDigit := RotDigit(ccw);
      var r := 0;
      while r < res
        invariant 0 <= r <= Visited(res)
        invariant index[..] == RotatedRange(ds, 0, r, ccw)
        invariant TableDigits(index[..], res)
      {
        RotDigitMeaning(ccw, index[r]);
        index[r] := rotDigit[index[r]];
        r := r + 1;
      }
    }

    /** _h3FatRotate60ccw */
    method Rotate60ccw()
      requires Valid() && res <= MAX_H3_RES && TableDigits(index[..], res)
      modifies index
      ensures index[..] == RotatedDigits(old(index[..]), res, true)
      ensures TableDigits(index[..], res)
    {
      Rotate60(true);
    }

    /** _h3FatRotate60cw */
    method Rotate60cw()
      requires Valid() && res <= MAX_H3_RES && TableDigits(index[..], res)
      modifies index
      ensures index[..] == RotatedDigits(old(index[..]), res, false)
      ensures TableDigits(index[..], res)
    {
      Rotate60(false);
    }

    /** One pass of the loop of _h3FatRotatePent60ccw at digit r + 1: turn
        it and, at the first nonzero digit, turn everything once more when
        the leading digit is now the k-axes digit.  ds are the digits
        before the loop and twice says whether that second turn happens. */
    method PentLoopBody(r: int, found: bool, ghost ds: seq<int>, ghost twice: bool) returns (found': bool)
      requires Valid() && 0 <= r < res <= MAX_H3_RES && |ds| == MAX_H3_RES
      requires twice == (OnceLead(ds, res, true) == K_AXES_DIGIT)
      requires index[..] == PentLoopDigits(ds, res, r + 1, found && twice, true)
      requires !found ==> ZerosBelow(ds, r)
      requires TableDigits(index[..], res)
      modifies index
      ensures index[..] == PentLoopDigits(ds, res, r + 2, found' && twice, true)
      ensures !found' ==> ZerosBelow(ds, r + 1)
      ensures TableDigits(index[..], res)
    {
      PentLoopAdvance(ds, res, r + 1, found && twice, true);
      ZerosStep(ds, r + 1, true);
      RotDigitMeaning(true, index[r]);
      index[r] := ROT_DIGIT_CCW[index[r]];
      found' := found;
      if !found && index[r] != CENTER_DIGIT {
        found' := true;
        PentFoundStep(ds, res, r + 1, true);
        var lead := LeadingNonZeroDigit();
        if lead == K_AXES_DIGIT {
          Rotate60ccw();
        }
      }
    }

    /** _h3FatRotatePent60ccw: the digits turned one by one; at the first
        nonzero one, a leading k-axes digit turns the whole index once more,
        so that the deleted k-axes subsequence is skipped. */
    method RotatePent60ccw()
      requires Valid() && res <= MAX_H3_RES && TableDigits(index[..], res)
      modifies index
      ensures index[..] == PentRotatedDigits(old(index[..]), Visited(res), true)
      ensures TableDigits(index[..], res)
    {
      if res <= 0 {
        assert PentRotatedDigits(index[..], Visited(res), true) == index[..];
        return;
      }
      ghost var ds := index[..];
      ghost var twice := OnceLead(ds, res, true) == K_AXES_DIGIT;
      assert PentLoopDigits(ds, res, 1, false, true) == ds;
      var found := false;
      var r := 0;
      while r < res
        invariant 0 <= r <= res
        invariant index[..] == PentLoopDigits(ds, res, r + 1, found && twice, true)
        invariant !found ==> ZerosBelow(ds, r)
        invariant TableDigits(index[..], res)
      {
        found := PentLoopBody(r, found, ds, twice);
        r := r + 1;
      }
      if !found {
        PentNoneFound(ds, res, true);
      }
    }
  }

  /** Copying onto a distinct index gives an index equal to the original,
      valid when the original is. */
  method CopyEquals(orig: H3IndexFat, copy: H3IndexFat) returns (eq: bool)
    requires orig.Valid() && copy.Valid() && orig != copy && orig.index != copy.index
    requires orig.res <= MAX_H3_RES
    modifies copy, copy.index
    ensures eq
    ensures FatValid(orig.mode, orig.baseCell, orig.res, orig.index[..]) ==>
      FatValid(copy.mode, copy.baseCell, copy.res, copy.index[..])
  {
    copy.CopyFrom(orig);
    eq := copy.Equals(orig);
  }

  /** Turning a fat index one way and then the other restores its digits. */
  method RotateRoundTrip(c: H3IndexFat, ccw: bool)
    requires c.Valid() && c.res <= MAX_H3_RES && TableDigits(c.index[..], c.res)
    modifies c.index
    ensures c.index[..] == old(c.index[..])
  {
    c.Rotate60(ccw);
    c.Rotate60(!ccw);
    RotatedDigitsInverse(old(c.index[..]), c.res, ccw);
  }
}
