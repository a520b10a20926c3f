// The index walk of polyfill.c: baseCellNumToCell, nextCell (the next cell
// of a depth-first sweep over the whole grid, one resolution at a time),
// the compact polygon iterator's state changes, and the output bound of
// polygonToCellsExperimental.  The geometric tests that decide which cells
// the iterator accepts are a parameter.

module H3Polyfill {
  import opened H3Api
  import opened H3IndexBits
  import opened H3IndexFields
  import opened H3IndexValid
  import opened H3Hierarchy

  // ---------------------------------------------------- baseCellNumToCell

  /** The fields of H3_NULL: all zero. */
  function NullView(): View
  {
    View(0, 0, 0, 0, 0, seq(MAX_H3_RES, i => CENTER_DIGIT))
  }

  lemma NullViewOf()
    ensures ViewOf(H3_NULL) == NullView()
  {
    ZeroDigits();
    FieldsOfView(H3_NULL);
  }

  /** The fields of what baseCellNumToCell returns. */
  function BaseView(n: int): View
  {
    if 0 <= n < NUM_BASE_CELLS then CellView(0, n, CENTER_DIGIT, 0) else NullView()
  }

  /** baseCellNumToCell: H3_NULL outside 0..121, and otherwise the
      resolution-0 cell of that base cell, as setH3Index builds it (at
      resolution 0 its digit loop is empty). */
  function BaseCellNumToCell(n: int): (r: H3Index)
    ensures r == H3_NULL <==> n < 0 || n >= NUM_BASE_CELLS
    ensures ViewOf(r) == BaseView(n)
  {
    if n < 0 || n >= NUM_BASE_CELLS then
      NullViewOf();
      H3_NULL
    else
      var m := SetMode(H3_INIT, H3_CELL_MODE);
      var z := SetResolution(m, 0);
      var h := SetBaseCell(z, n);
      InitView();
      SetModeView(H3_INIT, H3_CELL_MODE);
      SetResolutionView(m, 0);
      SetBaseCellView(z, n);
      assert ViewOf(h).digits == Fill(Sevens(), 0, 0, CENTER_DIGIT);
      FieldsOfView(H3_NULL);
      h
  }

  /** Every base cell number names a valid resolution-0 cell. */
  lemma BaseCellNumToCellValid(n: int)
    requires 0 <= n < NUM_BASE_CELLS
    ensures IsValidCell(BaseCellNumToCell(n))
    ensures GetResolution(BaseCellNumToCell(n)) == 0 && GetBaseCell(BaseCellNumToCell(n)) == n
  {
    CellViewValid(0, n, CENTER_DIGIT);
    IsValidCellSpec(BaseCellNumToCell(n));
    FieldsOfView(BaseCellNumToCell(n));
  }

  // ------------------------------------------------------------- nextCell

  /** 2 when the digit at resolution r is a center digit under a pentagon
      parent, so that the deleted k-axes child is stepped over; else 1. */
  function Skip(v: View, r: int): int
    requires |v.digits| == MAX_H3_RES && 1 <= r <= MAX_H3_RES
  {
    if IsBaseCellPentagon(v.baseCell) && v.digits[r - 1] == CENTER_DIGIT
       && LeadingNonZeroFrom(v.digits, 0, r - 1) == CENTER_DIGIT
    then 2 else 1
  }

  /** The next sibling at resolution r of the ancestor of v at r. */
  function NextSiblingView(v: View, r: int): View
    requires |v.digits| == MAX_H3_RES && 1 <= r <= MAX_H3_RES
  {
    var p := ParentView(v, r);
    p.(digits := p.digits[r - 1 := v.digits[r - 1] + Skip(v, r)])
  }

  /** Every digit of v from resolution r + 1 to its own is 6 or 7: none of
      those ancestors has a next sibling. */
  predicate Exhausted(v: View, r: int)
    requires |v.digits| == MAX_H3_RES && 0 <= r
  {
    forall j | r <= j < v.res && j < MAX_H3_RES :: v.digits[j] >= IJ_AXES_DIGIT
  }

  /** w follows v in the sweep: the deepest ancestor of v (itself included)
      whose digit can still advance, advanced to its next sibling; or, when
      every digit is 6 or 7, the next base cell. */
  predicate NextView(v: View, w: View)
    requires WellFormedView(v)
  {
    if Exhausted(v, 0) then w == BaseView(v.baseCell + 1)
    else
      1 <= w.res <= v.res && v.digits[w.res - 1] < IJ_AXES_DIGIT && Exhausted(v, w.res)
      && w == NextSiblingView(v, w.res)
  }

  /** next follows cell in the sweep of all cells. */
  ghost predicate IsNextCell(cell: H3Index, next: H3Index)
  {
    NextView(ViewOf(cell), ViewOf(next))
  }

  /** Moving the ancestor at res up one resolution writes 7 at res. */
  lemma ParentUp(v: View, res: int)
    requires WellFormedView(v) && 1 <= res <= v.res
    ensures ParentView(v, res).(res := res - 1, digits := ParentView(v, res).digits[res - 1 := INVALID_DIGIT])
      == ParentView(v, res - 1)
  {
    assert ParentView(v, res).digits[res - 1 := INVALID_DIGIT] == ParentView(v, res - 1).digits;
  }

  /** The parent's pentagon test is the one Skip makes of the cell. */
  lemma SkipOfParent(parent: H3Index, v: View, res: int)
    requires WellFormedView(v) && 1 <= res <= v.res && ViewOf(parent) == ParentView(v, res - 1)
    ensures (IsPentagon(parent) && v.digits[res - 1] == CENTER_DIGIT) == (Skip(v, res) == 2)
  {
    FieldsOfView(parent);
    LeadingNonZeroAgree(ViewOf(parent).digits, v.digits, 0, res - 1);
  }

  /** Advancing the digit at res of the ancestor at res by Skip gives the
      next sibling. */
  lemma SiblingOfView(w: View, v: View, res: int, d: int, skip: int)
    requires WellFormedView(v) && 1 <= res <= v.res && w == ParentView(v, res)
    requires d == v.digits[res - 1] && skip == Skip(v, res)
    ensures w.(digits := w.digits[res - 1 := d + skip]) == NextSiblingView(v, res)
  {
  }

  /** The parent one resolution up, with the digit at res cleared to 7. */
  method ClimbParent(c: H3Index, res: int, ghost v: View) returns (parent: H3Index)
    requires WellFormedView(v) && 1 <= res <= v.res && ViewOf(c) == ParentView(v, res)
    ensures ViewOf(parent) == ParentView(v, res - 1)
  {
    parent := SetResolution(c, res - 1);
    SetResolutionView(c, res - 1);
    SetIndexDigitView(parent, res, H3_DIGIT_MASK as int);
    parent := SetIndexDigit(parent, res, H3_DIGIT_MASK as int);
    ParentUp(v, res);
  }

  /** The digit at res advanced by one, or by two when it is a center
      digit under a pentagon parent. */
  method AdvanceDigit(c: H3Index, parent: H3Index, res: int, digit: int, ghost v: View) returns (next: H3Index)
    requires WellFormedView(v) && 1 <= res <= v.res && ViewOf(c) == ParentView(v, res)
    requires ViewOf(parent) == ParentView(v, res - 1)
    requires digit == v.digits[res - 1] && digit < INVALID_DIGIT - 1
    ensures ViewOf(next) == NextSiblingView(v, res)
  {
    SkipOfParent(parent, v, res);
    var skip := if IsPentagon(parent) && digit == CENTER_DIGIT then 2 else 1;
    SetIndexDigitView(c, res, digit + skip);
    next := SetIndexDigit(c, res, digit + skip);
    SiblingOfView(ViewOf(c), v, res, digit, skip);
  }

  /** Climbing stops at the first digit below 6. */
  lemma SiblingIsNext(v: View, r: int)
    requires WellFormedView(v) && 1 <= r <= v.res && v.digits[r - 1] < IJ_AXES_DIGIT && Exhausted(v, r)
    ensures NextView(v, NextSiblingView(v, r))
  {
  }

  /** Climbing past the base cell's own resolution moves to the next base cell. */
  lemma BaseCellIsNext(v: View)
    requires WellFormedView(v) && Exhausted(v, 0)
    ensures NextView(v, BaseView(v.baseCell + 1))
  {
  }

  /** The ancestor at res keeps the digit at res, and a 6 or 7 there
      extends the exhausted run by one resolution. */
  lemma ClimbDigit(v: View, res: int)
    requires WellFormedView(v) && 1 <= res <= v.res
    ensures ParentView(v, res).digits[res - 1] == v.digits[res - 1]
    ensures Exhausted(v, res) && v.digits[res - 1] >= IJ_AXES_DIGIT ==> Exhausted(v, res - 1)
  {
  }

  /** nextCell: climbs from cell towards the base cell until a digit below
      6 is found, and advances it, skipping the deleted pentagon child. */
  method NextCell(cell: H3Index) returns (next: H3Index)
    ensures IsNextCell(cell, next)
  {
    ghost var v := ViewOf(cell);
    var c := cell;
    FieldsOfView(c);
    var res := GetResolution(c);
    ParentIdentity(v);
    while true
      invariant 0 <= res <= v.res
      invariant ViewOf(c) == ParentView(v, res)
      invariant Exhausted(v, res)
      decreases res
    {
      if res == 0 {
        FieldsOfView(c);
        next := BaseCellNumToCell(GetBaseCell(c) + 1);
        BaseCellIsNext(v);
        return;
      }
      var parent := ClimbParent(c, res, v);
      GetIndexDigitView(c, res);
      var digit := GetIndexDigit(c, res);
      ClimbDigit(v, res);
      if digit < INVALID_DIGIT - 1 {
        next := AdvanceDigit(c, parent, res, digit, v);
        SiblingIsNext(v, res);
        return;
      }
      res := res - 1;
      c := parent;
    }
  }

  /** A cell has exactly one next cell. */
  lemma NextViewUnique(v: View, a: View, b: View)
    requires WellFormedView(v) && NextView(v, a) && NextView(v, b)
    ensures a == b
  {
  }

  lemma NextCellUnique(cell: H3Index, a: H3Index, b: H3Index)
    requires IsNextCell(cell, a) && IsNextCell(cell, b)
    ensures a == b
  {
    NextViewUnique(ViewOf(cell), ViewOf(a), ViewOf(b));
    ViewInjective(a, b);
  }

  /** The sweep never moves to a finer resolution. */
  lemma NextCellCoarser(cell: H3Index, next: H3Index)
    requires IsNextCell(cell, next)
    ensures GetResolution(next) <= GetResolution(cell)
  {
    FieldsOfView(cell);
    FieldsOfView(next);
  }

  /** From a base cell the sweep moves to the next base cell, and after the
      last one it ends with H3_NULL. */
  lemma NextCellOfBaseCell(cell: H3Index, next: H3Index)
    requires GetResolution(cell) == 0 && IsNextCell(cell, next)
    ensures GetBaseCell(cell) == NUM_BASE_CELLS - 1 ==> next == H3_NULL
    ensures GetBaseCell(cell) < NUM_BASE_CELLS - 1 ==>
      next != H3_NULL && GetResolution(next) == 0 && GetBaseCell(next) == GetBaseCell(cell) + 1
  {
    FieldsOfView(cell);
    FieldsOfView(next);
    NullViewOf();
    if GetBaseCell(cell) == NUM_BASE_CELLS - 1 {
      ViewInjective(next, H3_NULL);
    }
  }

  /** A digit below 6 at v's own resolution leaves no ancestor exhausted. */
  lemma ExhaustedBelow(v: View)
    requires WellFormedView(v) && v.res >= 1 && v.digits[v.res - 1] < IJ_AXES_DIGIT
    ensures forall r | 0 <= r < v.res :: !Exhausted(v, r)
  {
    forall r | 0 <= r < v.res
      ensures !Exhausted(v, r)
    {
      assert v.digits[v.res - 1] < IJ_AXES_DIGIT;
    }
  }

  /** After a pentagon cell comes its sibling on digit 2: digit 1, the
      deleted k-axes child, is stepped over. */
  lemma NextViewOfPentagon(v: View, w: View)
    requires WellFormedView(v) && v.res >= 1 && IsBaseCellPentagon(v.baseCell)
    requires forall i | 0 <= i < v.res :: v.digits[i] == CENTER_DIGIT
    requires NextView(v, w)
    ensures w.res == v.res && w.digits[v.res - 1] == J_AXES_DIGIT
  {
    ExhaustedBelow(v);
    LeadingNonZeroOfZeros(v.digits, 0, v.res - 1);
  }

  lemma NextCellOfPentagon(cell: H3Index, next: H3Index)
    requires IsPentagon(cell) && GetResolution(cell) >= 1 && IsNextCell(cell, next)
    ensures GetResolution(next) == GetResolution(cell)
    ensures GetIndexDigit(next, GetResolution(cell)) == J_AXES_DIGIT
  {
    FieldsOfView(cell);
    FieldsOfView(next);
    IsPentagonDigits(cell);
    NextViewOfPentagon(ViewOf(cell), ViewOf(next));
    GetIndexDigitView(next, GetResolution(cell));
  }

  /** The sweep never lands on the deleted k-axes child of a pentagon: a
      next cell whose parent is a pentagon does not have digit 1. */
  lemma NextViewSkipsDeleted(v: View, w: View)
    requires WellFormedView(v) && NextView(v, w) && w.res >= 1
    requires IsBaseCellPentagon(w.baseCell) && LeadingNonZeroFrom(w.digits, 0, w.res - 1) == CENTER_DIGIT
    ensures w.digits[w.res - 1] != K_AXES_DIGIT
  {
    if !Exhausted(v, 0) {
      LeadingNonZeroAgree(w.digits, v.digits, 0, w.res - 1);
    }
  }

  lemma NextCellSkipsDeleted(cell: H3Index, next: H3Index)
    requires IsNextCell(cell, next) && GetResolution(next) >= 1
    requires IsBaseCellPentagon(GetBaseCell(next))
    requires LeadingNonZeroFrom(ViewOf(next).digits, 0, GetResolution(next) - 1) == CENTER_DIGIT
    ensures GetIndexDigit(next, GetResolution(next)) != K_AXES_DIGIT
  {
    FieldsOfView(next);
    NextViewSkipsDeleted(ViewOf(cell), ViewOf(next));
    GetIndexDigitView(next, GetResolution(next));
  }

  /** The next sibling of a valid cell's ancestor is a valid cell. */
  lemma NextSiblingValid(v: View, r: int)
    requires WellFormedView(v) && IsValidCellView(v) && 1 <= r <= v.res && v.digits[r - 1] < IJ_AXES_DIGIT
    ensures WellFormedView(NextSiblingView(v, r)) && IsValidCellView(NextSiblingView(v, r))
  {
    ParentValid(v, r);
    var w := NextSiblingView(v, r);
    LeadingNonZeroSplit(w.digits, 0, r - 1, MAX_H3_RES);
    LeadingNonZeroSplit(v.digits, 0, r - 1, MAX_H3_RES);
    LeadingNonZeroAgree(w.digits, v.digits, 0, r - 1);
    assert LeadingNonZeroFrom(w.digits, r - 1, MAX_H3_RES) == w.digits[r - 1];
  }

  /** The sweep from a valid cell reaches a valid cell or ends. */
  lemma NextCellValid(cell: H3Index, next: H3Index)
    requires IsValidCell(cell) && IsNextCell(cell, next)
    ensures next == H3_NULL || IsValidCell(next)
  {
    var v := ViewOf(cell);
    IsValidCellSpec(cell);
    if !Exhausted(v, 0) {
      NextSiblingValid(v, ViewOf(next).res);
      IsValidCellSpec(next);
    } else if 0 <= v.baseCell + 1 < NUM_BASE_CELLS {
      BaseCellNumToCellValid(v.baseCell + 1);
      ViewInjective(next, BaseCellNumToCell(v.baseCell + 1));
    } else {
      NullViewOf();
      ViewInjective(next, H3_NULL);
    }
  }

  // ------------------------------------------- the compact cell iterator

  /** IterCellsPolygonCompact.  polygonVerts is the vertex count of the
      outer loop of the polygon, None once the polygon pointer is cleared;
      hasBBoxes says whether the bounding boxes are allocated. */
  class IterCellsPolygonCompact {
    var cell: H3Index
    var error: H3Error
    var polygonVerts: Option<int>
    var res: int
    var flags: int
    var hasBBoxes: bool
    var started: bool

    /** The state iterDestroyPolygonCompact leaves behind. */
    predicate Destroyed()
      reads this
    {
      cell == H3_NULL && error == E_SUCCESS && polygonVerts == None && res == -1 && flags == 0 && !hasBBoxes
    }

    /** _iterInitPolygonCompact: the first base cell, not yet started; a
        resolution outside 0..15 fails with E_RES_DOMAIN, then bad flags
        with flagError (validatePolygonFlags), then holes declared but
        missing with E_DOMAIN, each through iterErrorPolygonCompact. */
    constructor (numVerts: int, numHoles: int, holesMissing: bool, res: int, flags: int, flagError: H3Error)
      ensures started == false
      ensures res < 0 || res > MAX_H3_RES ==> cell == H3_NULL && error == E_RES_DOMAIN && this.res == -1
      ensures 0 <= res <= MAX_H3_RES && flagError != E_SUCCESS ==> cell == H3_NULL && error == flagError && this.res == -1
      ensures 0 <= res <= MAX_H3_RES && flagError == E_SUCCESS && numHoles > 0 && holesMissing ==>
        cell == H3_NULL && error == E_DOMAIN && this.res == -1
      ensures 0 <= res <= MAX_H3_RES && flagError == E_SUCCESS && !(numHoles > 0 && holesMissing) ==>
        cell == BaseCellNumToCell(0) && error == E_SUCCESS && polygonVerts == Some(numVerts)
        && this.res == res && this.flags == flags && hasBBoxes
    {
      cell := BaseCellNumToCell(0);
      error := E_SUCCESS;
      polygonVerts := Some(numVerts);
      this.res := res;
      this.flags := flags;
      hasBBoxes := false;
      started := false;
      new;
      if res < 0 || res > MAX_H3_RES {
        IterError(E_RES_DOMAIN);
        return;
      }
      if flagError != E_SUCCESS {
        IterError(flagError);
        return;
      }
      if numHoles > 0 && holesMissing {
        IterError(E_DOMAIN);
        return;
      }
      hasBBoxes := true;
    }

    /** iterDestroyPolygonCompact: frees the boxes and resets the state so
        that every later step yields H3_NULL. */
    method Destroy()
      modifies this
      ensures Destroyed() && started == old(started)
    {
      hasBBoxes := false;
      cell := H3_NULL;
      error := E_SUCCESS;
      polygonVerts := None;
      res := -1;
      flags := 0;
    }

    /** iterErrorPolygonCompact: destroyed, keeping only the error. */
    method IterError(e: H3Error)
      modifies this
      ensures cell == H3_NULL && error == e && polygonVerts == None && res == -1 && flags == 0 && !hasBBoxes
      ensures started == old(started)
    {
      Destroy();
      error := e;
    }

    /** iterStepPolygonCompact.  search stands for the geometric part of
        the step (the containment loop, or the geodesic step): from a first
        candidate cell it yields the next accepted cell, H3_NULL when the
        sweep runs out, or an error.  The candidate is the current cell on
        the first step and its nextCell afterwards; an iterator whose cell
        is H3_NULL stays as it is. */
    method Step(search: H3Index -> (H3Index, H3Error)) returns (ghost candidate: H3Index)
      requires cell != H3_NULL ==> polygonVerts.Some?
      modifies this
      ensures old(cell) == H3_NULL ==> unchanged(this)
      ensures old(cell) != H3_NULL ==> started
      ensures old(cell) != H3_NULL && old(started) ==> IsNextCell(old(cell), candidate)
      ensures old(cell) != H3_NULL && !old(started) ==> candidate == old(cell)
      ensures old(cell) != H3_NULL && old(polygonVerts) == Some(0) ==> Destroyed()
      ensures old(cell) != H3_NULL && old(polygonVerts) != Some(0) && candidate == H3_NULL ==> Destroyed()
      ensures old(cell) != H3_NULL && old(polygonVerts) != Some(0) && candidate != H3_NULL ==>
        var (found, e) := search(candidate);
        (e != E_SUCCESS ==> cell == H3_NULL && error == e && polygonVerts == None && res == -1 && flags == 0 && !hasBBoxes)
        && (e == E_SUCCESS && found == H3_NULL ==> Destroyed())
        && (e == E_SUCCESS && found != H3_NULL ==>
              cell == found && error == old(error) && polygonVerts == old(polygonVerts)
              && res == old(res) && flags == old(flags) && hasBBoxes == old(hasBBoxes))
    {
      var c := cell;
      candidate := c;
      if c == H3_NULL {
        return;
      }
      if started {
        c := NextCell(c);
        candidate := c;
      } else {
        started := true;
      }
      if polygonVerts.value == 0 {
        Destroy();
        return;
      }
      // The containment loop runs while the candidate is not H3_NULL.
      if c == H3_NULL {
        Destroy();
        return;
      }
      var (found, e) := search(c);
      if e != E_SUCCESS {
        IterError(e);
        return;
      }
      if found == H3_NULL {
        Destroy();
        return;
      }
      cell := found;
    }

    /** Once destroyed, an iterator yields H3_NULL however often it is
        stepped. */
    method DestroyThenStep(search: H3Index -> (H3Index, H3Error))
      modifies this
      ensures Destroyed()
    {
      Destroy();
      var _ := Step(search);
    }
  }

  // ---------------------------------------- polygonToCellsExperimental

  /** The cells the iterator yields fit in size slots; none at all always
      fit, as the loop body is then never reached. */
  predicate Fits(cells: seq<H3Index>, size: int)
  {
    |cells| == 0 || |cells| <= size
  }

  /** polygonToCellsExperimental: copies the cells the polygon iterator
      yields (cells, then finalError when the iterator ends) into out, and
      fails with E_MEMORY_BOUNDS, after writing the first size cells, as
      soon as one more cell than size comes along. */
  method PolygonToCellsExperimental(cells: seq<H3Index>, finalError: H3Error, size: int, out: array<H3Index>)
    returns (err: H3Error)
    requires forall i | 0 <= i < |cells| :: cells[i] != H3_NULL
    requires size <= out.Length
    modifies out
    ensures Fits(cells, size) ==> err == finalError && out[..] == cells + old(out[|cells|..])
    ensures !Fits(cells, size) ==>
      err == E_MEMORY_BOUNDS && out[..] == cells[..if size > 0 then size else 0] + old(out[if size > 0 then size else 0..])
  {
    var i := 0;
    while i < |cells|
      invariant 0 <= i <= |cells| && (i == 0 || i <= size)
      invariant out[..] == cells[..i] + old(out[i..])
    {
      if i >= size {
        return E_MEMORY_BOUNDS;
      }
      out[i] := cells[i];
      i := i + 1;
      assert out[..] == cells[..i] + old(out[i..]);
    }
    return finalError;
  }
}
