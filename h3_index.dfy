// The hierarchy operations of h3Index.c: building an index, walking to a
// parent, counting and constructing children, the centre child and the
// pentagon test.  Every operation is stated on the field view of the word
// (H3IndexFields.ViewOf), so each result says which fields change, and the
// lemmas relate parents, children and validity to each other.

module H3Hierarchy {
  import opened H3Api
  import opened H3IndexBits
  import opened H3IndexFields
  import opened H3IndexValid

  // ------------------------------------------------------------ digit runs

  /** ds with positions lo..hi-1 (digits lo+1..hi) replaced by d. */
  function Fill(ds: seq<int>, lo: int, hi: int, d: int): (r: seq<int>)
    requires |ds| == MAX_H3_RES
    ensures |r| == MAX_H3_RES
  {
    seq(MAX_H3_RES, i requires 0 <= i < MAX_H3_RES => if lo <= i < hi then d else ds[i])
  }

  /** Fifteen INVALID_DIGIT digits, the digits of H3_INIT. */
  function Sevens(): (r: seq<int>)
    ensures |r| == MAX_H3_RES
  {
    seq(MAX_H3_RES, i => INVALID_DIGIT)
  }

  /** The leading nonzero digit of a run that is d on 0..n-1 and 7 after it. */
  lemma {:induction false} LeadingNonZeroOfFill(d: int, i: int, n: int)
    requires 0 <= i <= n <= MAX_H3_RES && IsDigit(d)
    ensures LeadingNonZeroFrom(Fill(Sevens(), 0, n, d), i, MAX_H3_RES)
      == if i < n && d != CENTER_DIGIT then d
         else if n < MAX_H3_RES then INVALID_DIGIT else CENTER_DIGIT
    decreases MAX_H3_RES - i
  {
    var ds := Fill(Sevens(), 0, n, d);
    if i < n {
      if d == CENTER_DIGIT {
        LeadingNonZeroOfFill(d, i + 1, n);
      }
    } else if i < MAX_H3_RES {
      assert ds[i] == INVALID_DIGIT;
    }
  }

  /** The leading nonzero digit only depends on the digits it scans. */
  lemma {:induction false} LeadingNonZeroAgree(a: seq<int>, b: seq<int>, i: int, n: int)
    requires 0 <= i <= n <= |a| && n <= |b|
    requires forall j | i <= j < n :: a[j] == b[j]
    ensures LeadingNonZeroFrom(a, i, n) == LeadingNonZeroFrom(b, i, n)
    decreases n - i
  {
    if i < n {
      LeadingNonZeroAgree(a, b, i + 1, n);
    }
  }

  /** Scanning past n finds the digit found before n, when there is one,
      and otherwise what lies beyond. */
  lemma {:induction false} LeadingNonZeroSplit(ds: seq<int>, i: int, n: int, m: int)
    requires 0 <= i <= n <= m <= |ds|
    ensures LeadingNonZeroFrom(ds, i, m)
      == if LeadingNonZeroFrom(ds, i, n) != CENTER_DIGIT then LeadingNonZeroFrom(ds, i, n)
         else LeadingNonZeroFrom(ds, n, m)
    decreases n - i
  {
    if i < n {
      LeadingNonZeroSplit(ds, i + 1, n, m);
    }
  }

  // ----------------------------------------------------------- getIndexDigit

  /** getIndexDigit: the digit at resolution res, or E_RES_DOMAIN when res
      is outside 1..15. */
  function GetIndexDigitChecked(h: H3Index, res: int): (r: Result<int>)
    ensures r.Err? <==> res < 1 || res > MAX_H3_RES
    ensures r.Err? ==> r.error == E_RES_DOMAIN
    ensures r.Ok? ==> r.value == ViewOf(h).digits[res - 1] && IsDigit(r.value)
  {
    if res < 1 || res > MAX_H3_RES then Err(E_RES_DOMAIN)
    else
      GetIndexDigitView(h, res);
      Ok(GetIndexDigit(h, res))
  }

  // ------------------------------------------------------------ setH3Index

  /** The fields of a cell index with resolution res and base cell bc whose
      digits 1..n are d and whose other digits are 7. */
  function CellView(res: int, baseCell: int, d: int, n: int): View
  {
    View(0, H3_CELL_MODE, 0, res, baseCell, Fill(Sevens(), 0, n, d))
  }

  /** setH3Index: H3_INIT in cell mode with the given resolution and base
      cell, and digits 1..res set to initDigit. */
  method SetH3Index(res: int, baseCell: int, initDigit: int) returns (h: H3Index)
    requires 0 <= res <= MAX_H3_RES && 0 <= baseCell < 128 && IsDigit(initDigit)
    ensures ViewOf(h) == CellView(res, baseCell, initDigit, res)
  {
    h := H3_INIT;
    InitView();
    SetModeView(h, H3_CELL_MODE);
    h := SetMode(h, H3_CELL_MODE);
    SetResolutionView(h, res);
    h := SetResolution(h, res);
    SetBaseCellView(h, baseCell);
    h := SetBaseCell(h, baseCell);
    assert ViewOf(h).digits == Fill(Sevens(), 0, 0, initDigit);
    var r := 1;
    while r <= res
      invariant 1 <= r <= res + 1
      invariant ViewOf(h) == CellView(res, baseCell, initDigit, r - 1)
    {
      SetIndexDigitView(h, r, initDigit);
      h := SetIndexDigit(h, r, initDigit);
      assert ViewOf(h).digits == Fill(Sevens(), 0, r, initDigit);
      r := r + 1;
    }
  }

  /** What setH3Index builds is a valid cell exactly when the base cell
      exists, no real digit is 7, and a pentagon does not start on the
      deleted k-axes digit. */
  lemma CellViewValid(res: int, baseCell: int, d: int)
    requires 0 <= res <= MAX_H3_RES && 0 <= baseCell < 128 && IsDigit(d)
    ensures IsValidCellView(CellView(res, baseCell, d, res)) <==>
      baseCell < NUM_BASE_CELLS && (res > 0 ==> d != INVALID_DIGIT)
      && !(IsBaseCellPentagonArr(baseCell) && res > 0 && d == K_AXES_DIGIT)
  {
    LeadingNonZeroOfFill(d, 0, res);
    var ds := Fill(Sevens(), 0, res, d);
    if res > 0 {
      assert ds[0] == d;
    }
  }

  // ------------------------------------------------------------ cellToParent

  /** The fields of the parent at resolution p of a cell with fields v:
      resolution p, and digits p+1..v.res set to 7. */
  function ParentView(v: View, p: int): View
    requires |v.digits| == MAX_H3_RES
  {
    v.(res := p, digits := Fill(v.digits, p, v.res, INVALID_DIGIT))
  }

  /** cellToParent: E_RES_DOMAIN for a resolution outside 0..15,
      E_RES_MISMATCH for one finer than h's, h itself at h's resolution,
      and otherwise h at resolution parentRes with the finer digits 7. */
  method CellToParent(h: H3Index, parentRes: int) returns (r: Result<H3Index>)
    ensures (parentRes < 0 || parentRes > MAX_H3_RES) ==> r == Err(E_RES_DOMAIN)
    ensures 0 <= parentRes <= MAX_H3_RES && parentRes > ViewOf(h).res ==> r == Err(E_RES_MISMATCH)
    ensures 0 <= parentRes <= ViewOf(h).res ==> r.Ok? && ViewOf(r.value) == ParentView(ViewOf(h), parentRes)
    ensures parentRes == ViewOf(h).res ==> r == Ok(h)
  {
    var childRes := GetResolution(h);
    FieldsOfView(h);
    if parentRes < 0 || parentRes > MAX_H3_RES {
      return Err(E_RES_DOMAIN);
    } else if parentRes > childRes {
      return Err(E_RES_MISMATCH);
    } else if parentRes == childRes {
      ParentIdentity(ViewOf(h));
      return Ok(h);
    }
    ghost var v := ViewOf(h);
    var parentH := SetResolution(h, parentRes);
    ParentStart(h, parentRes);
    var i := parentRes + 1;
    while i <= childRes
      invariant parentRes + 1 <= i <= childRes + 1
      invariant ViewOf(parentH) == v.(res := parentRes, digits := Fill(v.digits, parentRes, i - 1, INVALID_DIGIT))
    {
      ParentStep(parentH, v, parentRes, i);
      parentH := SetIndexDigit(parentH, i, INVALID_DIGIT);
      i := i + 1;
    }
    return Ok(parentH);
  }

  lemma ParentStart(h: H3Index, p: int)
    requires 0 <= p <= MAX_H3_RES
    ensures ViewOf(SetResolution(h, p)) == ViewOf(h).(res := p, digits := Fill(ViewOf(h).digits, p, p, INVALID_DIGIT))
  {
    SetResolutionView(h, p);
    assert Fill(ViewOf(h).digits, p, p, INVALID_DIGIT) == ViewOf(h).digits;
  }

  lemma ParentStep(h: H3Index, v: View, p: int, i: int)
    requires |v.digits| == MAX_H3_RES && 1 <= i <= MAX_H3_RES && p < i
    requires ViewOf(h) == v.(res := p, digits := Fill(v.digits, p, i - 1, INVALID_DIGIT))
    ensures ViewOf(SetIndexDigit(h, i, INVALID_DIGIT)) == v.(res := p, digits := Fill(v.digits, p, i, INVALID_DIGIT))
  {
    SetIndexDigitView(h, i, INVALID_DIGIT);
    assert Fill(v.digits, p, i - 1, INVALID_DIGIT)[i - 1 := INVALID_DIGIT] == Fill(v.digits, p, i, INVALID_DIGIT);
  }

  /** A cell is its own parent at its own resolution. */
  lemma ParentIdentity(v: View)
    requires WellFormedView(v)
    ensures ParentView(v, v.res) == v
  {
    assert ParentView(v, v.res).digits == v.digits;
  }

  /** The parent of a parent is the parent at the coarser resolution. */
  lemma ParentOfParent(v: View, p: int, q: int)
    requires WellFormedView(v) && 0 <= p <= q <= v.res
    ensures ParentView(ParentView(v, q), p) == ParentView(v, p)
  {
    assert ParentView(ParentView(v, q), p).digits == ParentView(v, p).digits;
  }

  /** The parent of a valid cell is a valid cell, and it is a pentagon only
      when the cell's base cell is a pentagon. */
  lemma ParentValid(v: View, p: int)
    requires WellFormedView(v) && IsValidCellView(v) && 0 <= p <= v.res
    ensures WellFormedView(ParentView(v, p))
    ensures IsValidCellView(ParentView(v, p))
  {
    var pv := ParentView(v, p);
    LeadingNonZeroAgree(v.digits, pv.digits, 0, p);
    LeadingNonZeroSplit(v.digits, 0, p, MAX_H3_RES);
    LeadingNonZeroSplit(pv.digits, 0, p, MAX_H3_RES);
    if p < MAX_H3_RES {
      assert pv.digits[p] == INVALID_DIGIT;
    }
  }

  // --------------------------------------------------------- child counts

  /** _ipow(7, n). */
  function Pow7(n: nat): (r: nat)
    ensures r >= 1
  {
    if n == 0 then 1 else 7 * Pow7(n - 1)
  }

  /** The number of descendants n levels below a pentagon: the centre
      child is again a pentagon and the other five are hexagons. */
  function PentagonChildCount(n: nat): (r: int)
    ensures r >= 1
  {
    if n == 0 then 1 else PentagonChildCount(n - 1) + 5 * Pow7(n - 1)
  }

  /** The closed form cellToChildrenSize computes: 7^n - 1 is a multiple
      of 6, the division is exact and gives the pentagon count, which lies
      between 1 and 7^n. */
  lemma {:induction false} PentagonChildCountClosed(n: nat)
    ensures (Pow7(n) - 1) % 6 == 0
    ensures PentagonChildCount(n) == 1 + 5 * (Pow7(n) - 1) / 6
    ensures 1 <= PentagonChildCount(n) <= Pow7(n)
  {
    var q := Pow7Minus1(n);
    DivSix(q);
    PentagonChildCountIs(n, q);
  }

  /** 7^n == 6q + 1 makes the pentagon count 1 + 5q. */
  lemma {:induction false} PentagonChildCountIs(n: nat, q: int)
    requires Pow7(n) == 6 * q + 1
    ensures PentagonChildCount(n) == 1 + 5 * q
    ensures 1 <= PentagonChildCount(n) <= Pow7(n)
    decreases n
  {
    if n > 0 {
      var q' := Pow7Minus1(n - 1);
      PentagonChildCountIs(n - 1, q');
      assert q == 7 * q' + 1;
    }
  }

  /** (7^n - 1) / 6, as a witness that 6 divides 7^n - 1. */
  lemma {:induction false} Pow7Minus1(n: nat) returns (q: nat)
    ensures Pow7(n) == 6 * q + 1
  {
    if n == 0 {
      q := 0;
    } else {
      var q' := Pow7Minus1(n - 1);
      q := 7 * q' + 1;
    }
  }

  lemma DivSix(q: int)
    ensures (6 * q) % 6 == 0 && (5 * (6 * q)) / 6 == 5 * q
  {
  }

  /** _hasChildAtRes */
  predicate HasChildAtRes(h: H3Index, childRes: int)
  {
    GetResolution(h) <= childRes <= MAX_H3_RES
  }

  /** _isBaseCellPentagon, reading the table only inside its 122 entries. */
  predicate IsBaseCellPentagon(bc: int)
  {
    0 <= bc < NUM_BASE_CELLS && IsBaseCellPentagonArr(bc)
  }

  /** isPentagon: a pentagon base cell and no nonzero digit. */
  predicate IsPentagon(h: H3Index)
  {
    IsBaseCellPentagon(GetBaseCell(h)) && LeadingNonZeroFrom(ViewOf(h).digits, 0, GetResolution(h)) == CENTER_DIGIT
  }

  /** A pentagon is a pentagon base cell with every digit 0. */
  lemma IsPentagonDigits(h: H3Index)
    ensures IsPentagon(h) <==>
      (IsBaseCellPentagon(ViewOf(h).baseCell)
       && forall i | 0 <= i < ViewOf(h).res :: ViewOf(h).digits[i] == CENTER_DIGIT)
  {
    var v := ViewOf(h);
    FieldsOfView(h);
    if LeadingNonZeroFrom(v.digits, 0, v.res) == CENTER_DIGIT {
      LeadingNonZeroZeros(v.digits, 0, v.res);
    } else {
      LeadingNonZeroFound(v.digits, 0, v.res);
    }
    if forall i | 0 <= i < v.res :: v.digits[i] == CENTER_DIGIT {
      LeadingNonZeroOfZeros(v.digits, 0, v.res);
    }
  }

  lemma {:induction false} LeadingNonZeroZeros(ds: seq<int>, i: int, n: int)
    requires 0 <= i <= n <= |ds|
    requires LeadingNonZeroFrom(ds, i, n) == CENTER_DIGIT
    ensures forall j | i <= j < n :: ds[j] == CENTER_DIGIT
    decreases n - i
  {
    if i < n {
      LeadingNonZeroZeros(ds, i + 1, n);
    }
  }

  lemma {:induction false} LeadingNonZeroFound(ds: seq<int>, i: int, n: int)
    requires 0 <= i <= n <= |ds|
    requires LeadingNonZeroFrom(ds, i, n) != CENTER_DIGIT
    ensures exists j | i <= j < n :: ds[j] != CENTER_DIGIT
    decreases n - i
  {
    if ds[i] == CENTER_DIGIT {
      LeadingNonZeroFound(ds, i + 1, n);
    }
  }

  /** cellToChildrenSize: E_RES_DOMAIN unless childRes lies between h's
      resolution and 15; else 7^n descendants n levels down, or the
      pentagon count. */
  function CellToChildrenSize(h: H3Index, childRes: int): (r: Result<int>)
    ensures r.Err? <==> !(ViewOf(h).res <= childRes <= MAX_H3_RES)
    ensures r.Err? ==> r.error == E_RES_DOMAIN
    ensures r.Ok? ==> 1 <= r.value <= Pow7(childRes - ViewOf(h).res)
    ensures r.Ok? && !IsPentagon(h) ==> r.value == Pow7(childRes - ViewOf(h).res)
    ensures r.Ok? && IsPentagon(h) ==> r.value == PentagonChildCount(childRes - ViewOf(h).res)
  {
    FieldsOfView(h);
    if !HasChildAtRes(h, childRes) then Err(E_RES_DOMAIN)
    else
      var n := childRes - GetResolution(h);
      assert n == childRes - ViewOf(h).res;
      PentagonChildCountClosed(n);
      if IsPentagon(h) then Ok(1 + 5 * (Pow7(n) - 1) / 6) else Ok(Pow7(n))
  }

  // ------------------------------------------------------ makeDirectChild

  /** makeDirectChild: one resolution finer with the new digit set to
      cellNumber; a valid cell's direct child has it as parent. */
  function MakeDirectChild(h: H3Index, cellNumber: int): (c: H3Index)
    requires GetResolution(h) < MAX_H3_RES && IsDigit(cellNumber)
    ensures ViewOf(c) == ViewOf(h).(res := ViewOf(h).res + 1,
                                    digits := ViewOf(h).digits[ViewOf(h).res := cellNumber])
  {
    var childRes := GetResolution(h) + 1;
    var childH := SetResolution(h, childRes);
    SetResolutionView(h, childRes);
    SetIndexDigitView(childH, childRes, cellNumber);
    FieldsOfView(h);
    SetIndexDigit(childH, childRes, cellNumber)
  }

  /** The parent of a valid cell's direct child is the cell. */
  lemma DirectChildParent(h: H3Index, cellNumber: int)
    requires IsValidCell(h) && GetResolution(h) < MAX_H3_RES && IsDigit(cellNumber)
    ensures ParentView(ViewOf(MakeDirectChild(h, cellNumber)), GetResolution(h)) == ViewOf(h)
  {
    IsValidCellSpec(h);
    FieldsOfView(h);
    DirectChildParentView(ViewOf(h), cellNumber);
  }

  lemma DirectChildParentView(v: View, c: int)
    requires WellFormedView(v) && IsValidCellView(v) && v.res < MAX_H3_RES
    ensures ParentView(v.(res := v.res + 1, digits := v.digits[v.res := c]), v.res) == v
  {
    assert Fill(v.digits[v.res := c], v.res, v.res + 1, INVALID_DIGIT) == v.digits;
  }


  // -------------------------------------------------------- the centre child

  /** _zeroIndexDigits: digits start..end set to 0, one digit at a time. */
  function ZeroIndexDigits(h: H3Index, start: int, end: int): H3Index
    requires start > end || (1 <= start && end <= MAX_H3_RES)
    decreases end - start
  {
    if start > end then h else SetIndexDigit(ZeroIndexDigits(h, start, end - 1), end, CENTER_DIGIT)
  }

  /** _zeroIndexDigits changes nothing when start > end and otherwise
      clears exactly digits start..end. */
  lemma {:induction false} ZeroIndexDigitsView(h: H3Index, start: int, end: int)
    requires start > end || (1 <= start && end <= MAX_H3_RES)
    ensures start > end ==> ZeroIndexDigits(h, start, end) == h
    ensures ViewOf(ZeroIndexDigits(h, start, end)) == ViewOf(h).(digits := Fill(ViewOf(h).digits, start - 1, end, CENTER_DIGIT))
    decreases end - start
  {
    ghost var v := ViewOf(h);
    if start > end {
      FillEmpty(v.digits, start - 1, end, CENTER_DIGIT);
    } else {
      ghost var z := ZeroIndexDigits(h, start, end - 1);
      ZeroIndexDigitsView(h, start, end - 1);
      SetIndexDigitView(z, end, CENTER_DIGIT);
      FillBack(v.digits, start - 1, end, CENTER_DIGIT);
    }
  }

  lemma FillEmpty(ds: seq<int>, lo: int, hi: int, d: int)
    requires |ds| == MAX_H3_RES && lo >= hi
    ensures Fill(ds, lo, hi, d) == ds
  {
  }

  /** Filling lo..hi-1 is filling lo..hi-2 and setting position hi-1. */
  lemma FillBack(ds: seq<int>, lo: int, hi: int, d: int)
    requires |ds| == MAX_H3_RES && 0 <= lo < hi <= MAX_H3_RES
    ensures Fill(ds, lo, hi - 1, d)[hi - 1 := d] == Fill(ds, lo, hi, d)
  {
  }



  /** cellToCenterChild: E_RES_DOMAIN unless childRes lies between h's
      resolution and 15; else the new digits 0 and the resolution childRes. */
  function CellToCenterChild(h: H3Index, childRes: int): (r: Result<H3Index>)
    ensures r.Err? <==> !(ViewOf(h).res <= childRes <= MAX_H3_RES)
    ensures r.Err? ==> r.error == E_RES_DOMAIN
    ensures r.Ok? ==> ViewOf(r.value) == ViewOf(h).(res := childRes,
                        digits := Fill(ViewOf(h).digits, ViewOf(h).res, childRes, CENTER_DIGIT))
  {
    FieldsOfView(h);
    if !HasChildAtRes(h, childRes) then Err(E_RES_DOMAIN)
    else
      var z := ZeroIndexDigits(h, GetResolution(h) + 1, childRes);
      ZeroIndexDigitsView(h, GetResolution(h) + 1, childRes);
      SetResolutionView(z, childRes);
      Ok(SetResolution(z, childRes))
  }

  /** The centre child of a valid cell is a valid cell whose parent at the
      original resolution is the cell again. */
  lemma CenterChildRoundTrip(h: H3Index, childRes: int)
    requires IsValidCell(h) && GetResolution(h) <= childRes <= MAX_H3_RES
    ensures CellToCenterChild(h, childRes).Ok?
    ensures IsValidCell(CellToCenterChild(h, childRes).value)
    ensures ParentView(ViewOf(CellToCenterChild(h, childRes).value), GetResolution(h)) == ViewOf(h)
  {
    IsValidCellSpec(h);
    FieldsOfView(h);
    var c := CellToCenterChild(h, childRes).value;
    IsValidCellSpec(c);
    CenterChildView(ViewOf(h), childRes);
  }

  lemma CenterChildView(v: View, childRes: int)
    requires WellFormedView(v) && IsValidCellView(v) && v.res <= childRes <= MAX_H3_RES
    ensures WellFormedView(v.(res := childRes, digits := Fill(v.digits, v.res, childRes, CENTER_DIGIT)))
    ensures IsValidCellView(v.(res := childRes, digits := Fill(v.digits, v.res, childRes, CENTER_DIGIT)))
    ensures ParentView(v.(res := childRes, digits := Fill(v.digits, v.res, childRes, CENTER_DIGIT)), v.res) == v
  {
    var cv := v.(res := childRes, digits := Fill(v.digits, v.res, childRes, CENTER_DIGIT));
    assert Fill(cv.digits, v.res, childRes, INVALID_DIGIT) == v.digits;
    LeadingNonZeroAgree(v.digits, cv.digits, 0, v.res);
    LeadingNonZeroSplit(v.digits, 0, v.res, MAX_H3_RES);
    LeadingNonZeroSplit(cv.digits, 0, v.res, MAX_H3_RES);
    if v.res < MAX_H3_RES {
      LeadingNonZeroOfCenterRun(cv.digits, v.res, childRes);
    }
  }


  /** A run of zeros followed by 7s (or by nothing) has no leading 1. */
  lemma {:induction false} LeadingNonZeroOfCenterRun(ds: seq<int>, i: int, n: int)
    requires |ds| == MAX_H3_RES && 0 <= i <= n <= MAX_H3_RES
    requires forall j | i <= j < n :: ds[j] == CENTER_DIGIT
    requires forall j | n <= j < MAX_H3_RES :: ds[j] == INVALID_DIGIT
    ensures LeadingNonZeroFrom(ds, i, MAX_H3_RES) != K_AXES_DIGIT
    decreases MAX_H3_RES - i
  {
    if i < MAX_H3_RES && ds[i] == CENTER_DIGIT {
      LeadingNonZeroOfCenterRun(ds, i + 1, n);
    }
  }

  // ------------------------------------------------------- simple queries

  /** isResClassIII: 1 for the odd resolutions, 0 for the even ones. */
  function IsResClassIII(h: H3Index): (r: int)
    ensures r == 0 || r == 1
    ensures r == 1 <==> ViewOf(h).res % 2 == 1
  {
    FieldsOfView(h);
    GetResolution(h) % 2
  }

  /** _h3LeadingNonZeroDigit: the first nonzero digit among 1..res, or 0. */
  method LeadingNonZeroDigit(h: H3Index) returns (d: int)
    ensures d == LeadingNonZeroFrom(ViewOf(h).digits, 0, ViewOf(h).res)
    ensures d != CENTER_DIGIT <==> exists i | 0 <= i < ViewOf(h).res :: ViewOf(h).digits[i] != CENTER_DIGIT
  {
    ghost var ds := ViewOf(h).digits;
    FieldsOfView(h);
    var res := GetResolution(h);
    LeadingNonZeroExists(ds, res);
    var r := 1;
    while r <= res
      invariant 1 <= r <= res + 1
      invariant LeadingNonZeroFrom(ds, r - 1, res) == LeadingNonZeroFrom(ds, 0, res)
    {
      var digit := GetIndexDigit(h, r);
      GetIndexDigitView(h, r);
      assert digit == ds[r - 1];
      if digit != CENTER_DIGIT {
        return digit;
      }
      r := r + 1;
    }
    return CENTER_DIGIT;
  }

  /** The leading nonzero digit is 0 exactly when every digit is 0. */
  lemma LeadingNonZeroExists(ds: seq<int>, n: int)
    requires 0 <= n <= |ds|
    ensures LeadingNonZeroFrom(ds, 0, n) != CENTER_DIGIT <==> exists i | 0 <= i < n :: ds[i] != CENTER_DIGIT
  {
    if LeadingNonZeroFrom(ds, 0, n) == CENTER_DIGIT {
      LeadingNonZeroZeros(ds, 0, n);
    } else {
      LeadingNonZeroFound(ds, 0, n);
    }
  }

  // ---------------------------------------------------------- pentagons

  /** pentagonCount */
  function PentagonCount(): (n: int)
    ensures n == PentagonsBelow(NUM_BASE_CELLS)
  {
    NUM_PENTAGONS
  }

  /** The i-th pentagon base cell in increasing order. */
  function PentagonBaseCell(i: int): int
  {
    if i == 0 then 4 else if i == 1 then 14 else if i == 2 then 24 else if i == 3 then 38
    else if i == 4 then 49 else if i == 5 then 58 else if i == 6 then 63 else if i == 7 then 72
    else if i == 8 then 83 else if i == 9 then 97 else if i == 10 then 107 else 117
  }

  /** The number of pentagon base cells below bc. */
  function PentagonsBelow(bc: int): int
  {
    if bc <= 4 then 0 else if bc <= 14 then 1 else if bc <= 24 then 2 else if bc <= 38 then 3
    else if bc <= 49 then 4 else if bc <= 58 then 5 else if bc <= 63 then 6 else if bc <= 72 then 7
    else if bc <= 83 then 8 else if bc <= 97 then 9 else if bc <= 107 then 10 else if bc <= 117 then 11
    else 12
  }

  /** Counting base cells one at a time: each pentagon base cell is the
      next entry of the ordered list. */
  lemma PentagonsBelowStep(bc: int)
    requires 0 <= bc < NUM_BASE_CELLS
    ensures PentagonsBelow(bc + 1) == PentagonsBelow(bc) + (if IsBaseCellPentagon(bc) then 1 else 0)
    ensures IsBaseCellPentagon(bc) ==> PentagonsBelow(bc) < NUM_PENTAGONS && PentagonBaseCell(PentagonsBelow(bc)) == bc
  {
  }

  /** Every cell getPentagons writes is a valid pentagon. */
  lemma PentagonCellValid(h: H3Index, res: int, i: int)
    requires 0 <= res <= MAX_H3_RES && 0 <= i < NUM_PENTAGONS
    requires ViewOf(h) == CellView(res, PentagonBaseCell(i), CENTER_DIGIT, res)
    ensures IsValidCell(h) && IsPentagon(h)
  {
    PentagonCellView(res, i);
    IsValidCellSpec(h);
    IsPentagonDigits(h);
  }

  lemma PentagonCellView(res: int, i: int)
    requires 0 <= res <= MAX_H3_RES && 0 <= i < NUM_PENTAGONS
    ensures IsBaseCellPentagon(PentagonBaseCell(i))
    ensures IsValidCellView(CellView(res, PentagonBaseCell(i), CENTER_DIGIT, res))
    ensures forall j | 0 <= j < res :: CellView(res, PentagonBaseCell(i), CENTER_DIGIT, res).digits[j] == CENTER_DIGIT
  {
    PentagonBaseCellIs(i);
    CellViewValid(res, PentagonBaseCell(i), CENTER_DIGIT);
  }

  lemma PentagonBaseCellIs(i: int)
    requires 0 <= i < NUM_PENTAGONS
    ensures IsBaseCellPentagon(PentagonBaseCell(i))
  {
  }


  /** getPentagons: E_RES_DOMAIN outside 0..15, else slot i holds the
      resolution-res cell of the i-th pentagon base cell with all digits 0. */
  method GetPentagons(res: int, out: array<H3Index>) returns (e: H3Error)
    requires out.Length == NUM_PENTAGONS
    modifies out
    ensures (res < 0 || res > MAX_H3_RES) ==> e == E_RES_DOMAIN && out[..] == old(out[..])
    ensures 0 <= res <= MAX_H3_RES ==> e == E_SUCCESS
    ensures 0 <= res <= MAX_H3_RES ==>
      forall i | 0 <= i < NUM_PENTAGONS :: ViewOf(out[i]) == CellView(res, PentagonBaseCell(i), CENTER_DIGIT, res)
  {
    if res < 0 || res > MAX_H3_RES {
      return E_RES_DOMAIN;
    }
    var i := 0;
    var bc := 0;
    while bc < NUM_BASE_CELLS
      invariant 0 <= bc <= NUM_BASE_CELLS && i == PentagonsBelow(bc)
      invariant forall j | 0 <= j < i :: ViewOf(out[j]) == CellView(res, PentagonBaseCell(j), CENTER_DIGIT, res)
    {
      PentagonsBelowStep(bc);
      if IsBaseCellPentagon(bc) {
        var pentagon := SetH3Index(res, bc, CENTER_DIGIT);
        out[i] := pentagon;
        i := i + 1;
      }
      bc := bc + 1;
    }
    return E_SUCCESS;
  }

  // ------------------------------------------------------ uncompactCellsSize

  /** The size uncompactCellsSize computes for cells: null entries are
      skipped, and a cell finer than res makes the whole call E_RES_MISMATCH. */
  function UncompactSize(cells: seq<H3Index>, res: int): Result<int>
  {
    if |cells| == 0 then Ok(0)
    else
      var c := cells[|cells| - 1];
      match UncompactSize(cells[..|cells| - 1], res)
      case Err(_) => Err(E_RES_MISMATCH)
      case Ok(n) =>
        if c == H3_NULL then Ok(n)
        else match CellToChildrenSize(c, res)
          case Err(_) => Err(E_RES_MISMATCH)
          case Ok(k) => Ok(n + k)
  }

  /** The size is defined exactly when every non-null cell is no finer
      than res and res is a resolution, and it counts at least one cell
      for each of them. */
  lemma {:induction false} UncompactSizeOk(cells: seq<H3Index>, res: int)
    ensures UncompactSize(cells, res).Ok? <==>
      forall i | 0 <= i < |cells| && cells[i] != H3_NULL :: ViewOf(cells[i]).res <= res <= MAX_H3_RES
    ensures UncompactSize(cells, res).Err? ==> UncompactSize(cells, res).error == E_RES_MISMATCH
    ensures UncompactSize(cells, res).Ok? ==> UncompactSize(cells, res).value >= |NonNull(cells)|
  {
    if |cells| > 0 {
      var init := cells[..|cells| - 1];
      UncompactSizeOk(init, res);
      assert forall i | 0 <= i < |init| :: init[i] == cells[i];
    }
  }

  function NonNull(cells: seq<H3Index>): seq<H3Index>
  {
    if |cells| == 0 then []
    else NonNull(cells[..|cells| - 1]) + (if cells[|cells| - 1] == H3_NULL then [] else [cells[|cells| - 1]])
  }

  /** Once a prefix fails, every longer prefix fails. */
  lemma {:induction false} UncompactSizeErrSticks(cells: seq<H3Index>, j: int, res: int)
    requires 0 <= j <= |cells| && UncompactSize(cells[..j], res).Err?
    ensures UncompactSize(cells, res).Err?
    decreases |cells| - j
  {
    if j < |cells| {
      assert cells[..j + 1][..j] == cells[..j];
      UncompactSizeErrSticks(cells, j + 1, res);
    } else {
      assert cells[..j] == cells;
    }
  }

  /** uncompactCellsSize over the first numCompacted entries. */
  method UncompactCellsSize(compactedSet: array<H3Index>, numCompacted: int, res: int) returns (r: Result<int>)
    requires numCompacted <= compactedSet.Length
    ensures r == UncompactSize(compactedSet[..if numCompacted < 0 then 0 else numCompacted], res)
  {
    var numOut := 0;
    var i := 0;
    while i < numCompacted
      invariant 0 <= i <= if numCompacted < 0 then 0 else numCompacted
      invariant UncompactSize(compactedSet[..i], res) == Ok(numOut)
    {
      assert compactedSet[..i + 1][..i] == compactedSet[..i];
      if compactedSet[i] != H3_NULL {
        var childrenSize := CellToChildrenSize(compactedSet[i], res);
        if childrenSize.Err? {
          UncompactSizeErrSticks(compactedSet[..numCompacted], i + 1, res);
          assert compactedSet[..numCompacted][..i + 1] == compactedSet[..i + 1];
          return Err(E_RES_MISMATCH);
        }
        numOut := numOut + childrenSize.value;
      }
      i := i + 1;
    }
    return Ok(numOut);
  }
}
