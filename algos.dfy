// The grid traversal of algos.c: the output sizes of gridDisk and
// gridRing, the neighbor step h3NeighborRotations, the safe disk search
// over an open-addressed table, the spiral of gridDiskDistancesUnsafe, the
// hollow ring of gridRingUnsafe and the ring filter of _gridRingInternal.

module H3Algos {
  import opened H3Api
  import opened H3IndexFields
  import opened H3IndexValid
  import opened H3Hierarchy
  import opened H3IndexRotate
  import opened CoordIjk
  import opened H3BaseCellTables
  import opened H3BaseCells
  import H3IndexFat

  // ------------------------------------------------------------- tables

  /** The directions that walk a ring counterclockwise around its centre. */
  const DIRECTIONS: seq<int> := [J_AXES_DIGIT, JK_AXES_DIGIT, K_AXES_DIGIT, IK_AXES_DIGIT, I_AXES_DIGIT, IJ_AXES_DIGIT]

  /** The direction that steps out to the next ring. */
  const NEXT_RING_DIRECTION: int := I_AXES_DIGIT

  /** Current digit -> direction -> new digit, and the move left for the
      coarser resolution, at the resolutions that use the class II tables
      (the odd ones, as the C code pairs them). */
  const NEW_DIGIT_II: seq<seq<int>> :=
    [[0, 1, 2, 3, 4, 5, 6], [1, 4, 3, 6, 5, 2, 0], [2, 3, 1, 4, 6, 0, 5], [3, 6, 4, 5, 0, 1, 2],
     [4, 5, 6, 0, 2, 3, 1], [5, 2, 0, 1, 3, 6, 4], [6, 0, 5, 2, 1, 4, 3]]
  const NEW_ADJUSTMENT_II: seq<seq<int>> :=
    [[0, 0, 0, 0, 0, 0, 0], [0, 1, 0, 1, 0, 5, 0], [0, 0, 2, 3, 0, 0, 2], [0, 1, 3, 3, 0, 0, 0],
     [0, 0, 0, 0, 4, 4, 6], [0, 5, 0, 0, 4, 5, 0], [0, 0, 2, 0, 6, 0, 6]]

  /** The same for the resolutions that use the class III tables. */
  const NEW_DIGIT_III: seq<seq<int>> :=
    [[0, 1, 2, 3, 4, 5, 6], [1, 2, 3, 4, 5, 6, 0], [2, 3, 4, 5, 6, 0, 1], [3, 4, 5, 6, 0, 1, 2],
     [4, 5, 6, 0, 1, 2, 3], [5, 6, 0, 1, 2, 3, 4], [6, 0, 1, 2, 3, 4, 5]]
  const NEW_ADJUSTMENT_III: seq<seq<int>> :=
    [[0, 0, 0, 0, 0, 0, 0], [0, 1, 0, 3, 0, 1, 0], [0, 0, 2, 2, 0, 0, 6], [0, 3, 2, 3, 0, 0, 0],
     [0, 0, 0, 0, 4, 5, 4], [0, 1, 0, 0, 5, 5, 0], [0, 0, 6, 0, 4, 0, 6]]

  /** The table entry for digit d moved in direction dir: the new digit and
      the move left over, both directions again. */
  function NewDigit(useII: bool, d: int, dir: int): (r: int)
    requires 0 <= d < 7 && 0 <= dir < 7
    ensures 0 <= r < 7
    ensures dir == CENTER_DIGIT ==> r == d
  {
    if useII then NEW_DIGIT_II[d][dir] else NEW_DIGIT_III[d][dir]
  }

  function NewAdjustment(useII: bool, d: int, dir: int): (r: int)
    requires 0 <= d < 7 && 0 <= dir < 7
    ensures 0 <= r < 7
    ensures dir == CENTER_DIGIT ==> r == CENTER_DIGIT
  {
    if useII then NEW_ADJUSTMENT_II[d][dir] else NEW_ADJUSTMENT_III[d][dir]
  }

  // -------------------------------------------------------------- sizes

  /** The k value from which getNumCells(15) is used instead of the
      formula. */
  const K_ALL_CELLS_AT_RES_15: int := 13780510

  /** getNumCells(MAX_H3_RES): the number of cells at resolution 15. */
  function NumCellsRes15(): int
  {
    2 + 120 * Pow7(MAX_H3_RES)
  }

  /** The cells within distance k of a hexagon: the centre and the rings
      1..k of 6r cells each. */
  function DiskCells(k: nat): (n: nat)
    ensures n >= 1
  {
    if k == 0 then 1 else DiskCells(k - 1) + 6 * k
  }

  /** The ring sum in closed form. */
  lemma {:induction false} DiskCellsClosed(k: nat)
    ensures DiskCells(k) == 3 * k * (k + 1) + 1
  {
    if k > 0 {
      DiskCellsClosed(k - 1);
      assert 3 * k * (k + 1) + 1 == 3 * (k - 1) * k + 1 + 6 * k;
    }
  }

  /** maxGridDiskSize: E_DOMAIN for negative k, the size of the disk of
      radius k below K_ALL_CELLS_AT_RES_15, and from there the number of
      cells at resolution 15. */
  function MaxGridDiskSize(k: int): (r: Result<int>)
    ensures k < 0 <==> r == Err(E_DOMAIN)
    ensures 0 <= k < K_ALL_CELLS_AT_RES_15 ==> r == Ok(DiskCells(k))
    ensures k >= K_ALL_CELLS_AT_RES_15 ==> r == Ok(NumCellsRes15())
  {
    if k < 0 then Err(E_DOMAIN)
    else if k >= K_ALL_CELLS_AT_RES_15 then Ok(NumCellsRes15())
    else
      DiskCellsClosed(k);
      Ok(3 * k * (k + 1) + 1)
  }

  /** The cap sits where the formula first passes the number of cells at
      resolution 15, and every size fits a signed 64-bit integer. */
  lemma MaxGridDiskSizeCap()
    ensures DiskCells(K_ALL_CELLS_AT_RES_15 - 1) < NumCellsRes15() < DiskCells(K_ALL_CELLS_AT_RES_15)
    ensures NumCellsRes15() == 569707381193162
  {
    assert Pow7(MAX_H3_RES) == 4747561509943;
    DiskCellsClosed(K_ALL_CELLS_AT_RES_15 - 1);
    DiskCellsClosed(K_ALL_CELLS_AT_RES_15);
  }

  /** Below the cap the size grows with k and stays below 2^63. */
  lemma {:induction false} DiskCellsMonotone(a: nat, b: nat)
    requires a <= b
    ensures DiskCells(a) <= DiskCells(b)
    decreases b - a
  {
    if a < b {
      DiskCellsMonotone(a, b - 1);
    }
  }

  lemma MaxGridDiskSizeFits(k: int)
    ensures MaxGridDiskSize(k).Ok? ==> 1 <= MaxGridDiskSize(k).value < 0x8000_0000_0000_0000
  {
    MaxGridDiskSizeCap();
    if 0 <= k < K_ALL_CELLS_AT_RES_15 {
      DiskCellsMonotone(k, K_ALL_CELLS_AT_RES_15 - 1);
    }
  }

  /** maxGridRingSize: E_DOMAIN for negative k, 1 for k = 0 and 6k
      otherwise. */
  function MaxGridRingSize(k: int): (r: Result<int>)
    ensures k < 0 <==> r == Err(E_DOMAIN)
  {
    if k < 0 then Err(E_DOMAIN) else if k == 0 then Ok(1) else Ok(6 * k)
  }

  /** The disk of radius k is the disk of radius k - 1 plus the ring k, so
      below the cap the disk size is the sum of the ring sizes. */
  lemma DiskIsRings(k: int)
    requires 0 <= k < K_ALL_CELLS_AT_RES_15
    ensures k == 0 ==> MaxGridDiskSize(k) == MaxGridRingSize(k)
    ensures k > 0 ==> MaxGridDiskSize(k).value == MaxGridDiskSize(k - 1).value + MaxGridRingSize(k).value
  {
  }

  /** The largest C int, the type of k. */
  const INT32_MAX: int := 0x7FFF_FFFF

  /** For every k of the C type the ring of radius k fits in the disk of
      radius k. */
  lemma {:induction false} RingFitsDisk(k: int)
    requires 0 <= k <= INT32_MAX
    ensures MaxGridRingSize(k).value <= MaxGridDiskSize(k).value
  {
    MaxGridDiskSizeCap();
    if 0 < k < K_ALL_CELLS_AT_RES_15 {
      assert DiskCells(k) == DiskCells(k - 1) + 6 * k;
    }
  }

  // ------------------------------------------------------ the neighbor step

  /** C's remainder by 6, which takes the sign of a. */
  function CRem6(a: int): (r: int)
    ensures a >= 0 ==> 0 <= r < 6 && r == a % 6
    ensures a < 0 ==> -6 < r <= 0
  {
    if a >= 0 then a % 6 else -((-a) % 6)
  }

  /** Digit d turned counterclockwise n times. */
  function RotateCcwTimes(d: int, n: int): (r: int)
    requires 0 <= d < 7
    ensures 0 <= r < 7 && (d == CENTER_DIGIT <==> r == CENTER_DIGIT)
    decreases n
  {
    if n <= 0 then d
    else
      var p := RotateCcwTimes(d, n - 1);
      RotFacts(true, p);
      Rotate60ccwDigit(p)
  }

  /** The loop that reorients the direction by the rotations. */
  method RotateDirection(dir: int, rotations: int) returns (d: int)
    requires 0 <= dir < 7
    ensures d == RotateCcwTimes(dir, rotations)
  {
    d := dir;
    var i := 0;
    while i < rotations
      invariant 0 <= i <= if rotations > 0 then rotations else 0
      invariant d == RotateCcwTimes(dir, i)
    {
      d := Rotate60ccwDigit(d);
      i := i + 1;
    }
    assert rotations < 0 ==> RotateCcwTimes(dir, rotations) == dir;
  }

  /** v' differs from v at most in the base cell and in the digits of
      resolutions 1..v.res. */
  predicate SameOutsideDigits(v': View, v: View)
  {
    |v'.digits| == MAX_H3_RES && |v.digits| == MAX_H3_RES
    && v'.(digits := v.digits, baseCell := v.baseCell) == v
    && forall i | 0 <= v.res <= i < MAX_H3_RES :: v'.digits[i] == v.digits[i]
  }

  /** current agrees with v outside the digits of resolutions r+2..v.res
      (positions r+1..v.res-1), which the walk has rewritten. */
  ghost predicate WalkedFrom(current: H3Index, v: View, r: int)
  {
    SameOutsideDigits(ViewOf(current), v) && ViewOf(current).baseCell == v.baseCell
    && forall i | 0 <= i <= r && i < MAX_H3_RES :: ViewOf(current).digits[i] == v.digits[i]
  }

  /** Rewriting digit r + 1 moves the walk on by one digit. */
  lemma WalkStep(current: H3Index, v: View, r: int, d: int)
    requires WalkedFrom(current, v, r) && 0 <= r < v.res && IsDigit(d)
    ensures WalkedFrom(SetIndexDigit(current, r + 1, d), v, r - 1)
  {
    SetIndexDigitView(current, r + 1, d);
  }

  /** Writing a digit back unchanged leaves the word as it was. */
  lemma SetSameDigit(h: H3Index, r: int)
    requires 1 <= r <= MAX_H3_RES
    ensures SetIndexDigit(h, r, GetIndexDigit(h, r)) == h
  {
    GetIndexDigitView(h, r);
    var d := GetIndexDigit(h, r);
    SetIndexDigitView(h, r, d);
    assert ViewOf(h).digits[r - 1 := d] == ViewOf(h).digits;
    ViewInjective(SetIndexDigit(h, r, d), h);
  }

  /** One digit of the walk: digit r + 1 replaced through its table; the
      move left over is returned. */
  method AdjustDigit(current: H3Index, ghost v: View, r: int, dir: int) returns (current': H3Index, nextDir: int)
    requires WalkedFrom(current, v, r) && 0 <= r < v.res && 0 <= dir < 7
    requires GetIndexDigit(current, r + 1) != INVALID_DIGIT
    ensures WalkedFrom(current', v, r - 1) && 0 <= nextDir < 7
    ensures dir == CENTER_DIGIT ==> current' == current && nextDir == CENTER_DIGIT
  {
    var oldDigit := GetIndexDigit(current, r + 1);
    GetIndexDigitView(current, r + 1);
    var useII := H3IndexFat.IsResClassIII(r + 1) != 0;
    var newDigit := NewDigit(useII, oldDigit, dir);
    nextDir := NewAdjustment(useII, oldDigit, dir);
    WalkStep(current, v, r, newDigit);
    if dir == CENTER_DIGIT {
      SetSameDigit(current, r + 1);
    }
    current' := SetIndexDigit(current, r + 1, newDigit);
  }

  /** The loop of h3NeighborRotations over the digits from the finest
      resolution up: each digit is replaced through the table of its class
      and the move left over goes on to the next coarser digit, until
      nothing is left over or the base cell is reached.  invalid reports a
      digit 7 met on the way; a move in the centre direction changes
      nothing. */
  method AdjustDigits(h: H3Index, dir: int) returns (invalid: bool, current: H3Index, dir': int, reachedBase: bool)
    requires 0 <= dir < 7
    ensures 0 <= dir' < 7
    ensures SameOutsideDigits(ViewOf(current), ViewOf(h)) && ViewOf(current).baseCell == ViewOf(h).baseCell
    ensures invalid ==> INVALID_DIGIT in ViewOf(h).digits[..ViewOf(h).res]
    ensures dir == CENTER_DIGIT && !invalid ==>
      current == h && dir' == CENTER_DIGIT && (reachedBase <==> ViewOf(h).res == 0)
  {
    ghost var v := ViewOf(h);
    FieldsOfView(h);
    var res := GetResolution(h);
    current, dir', invalid, reachedBase := h, dir, false, false;
    var r := res - 1;
    while true
      invariant -1 <= r < res && 0 <= dir' < 7
      invariant WalkedFrom(current, v, r)
      invariant dir == CENTER_DIGIT ==> current == h && dir' == CENTER_DIGIT && r == res - 1
      decreases r + 1
    {
      if r == -1 {
        reachedBase := true;
        break;
      }
      GetIndexDigitView(current, r + 1);
      if GetIndexDigit(current, r + 1) == INVALID_DIGIT {
        assert v.digits[..res][r] == INVALID_DIGIT;
        invalid := true;
        return;
      }
      var nextDir;
      current, nextDir := AdjustDigit(current, v, r, dir');
      if nextDir != CENTER_DIGIT {
        dir' := nextDir;
        r := r - 1;
      } else {
        break;
      }
    }
  }

  /** Agreement outside the digits is transitive. */
  lemma SameOutsideTrans(a: View, b: View, c: View)
    requires SameOutsideDigits(a, b) && SameOutsideDigits(b, c)
    ensures SameOutsideDigits(a, c)
  {
  }

  /** A 60 degree turn rewrites no more than the digits of the resolution. */
  lemma HexRotateFrame(h: H3Index, out: H3Index, ccw: bool)
    requires ViewOf(out) == ViewOf(h).(digits := RotatedDigits(ViewOf(h).digits, ViewOf(h).res, ccw))
    ensures SameOutsideDigits(ViewOf(out), ViewOf(h)) && ViewOf(out).baseCell == ViewOf(h).baseCell
  {
  }

  /** So does a pentagon turn, once or twice. */
  lemma PentRotateFrame(h: H3Index, out: H3Index, ccw: bool)
    requires ViewOf(out) == ViewOf(h).(digits := PentRotatedDigits(ViewOf(h).digits, ViewOf(h).res, ccw))
    ensures SameOutsideDigits(ViewOf(out), ViewOf(h)) && ViewOf(out).baseCell == ViewOf(h).baseCell
  {
    var v := ViewOf(h);
    var once := RotatedDigits(v.digits, v.res, ccw);
    assert SameOutsideDigits(v.(digits := once), v);
    assert SameOutsideDigits(v.(digits := RotatedDigits(once, v.res, ccw)), v.(digits := once));
  }

  /** Writing the base cell back unchanged leaves the word as it was. */
  lemma SetSameBaseCell(h: H3Index)
    ensures SetBaseCell(h, GetBaseCell(h)) == h
  {
    FieldsOfView(h);
    SetBaseCellView(h, GetBaseCell(h));
    ViewInjective(SetBaseCell(h, GetBaseCell(h)), h);
  }

  /** Writing a base cell rewrites nothing else. */
  lemma SetBaseCellFrame(h: H3Index, b: int)
    requires 0 <= b < 128
    ensures SameOutsideDigits(ViewOf(SetBaseCell(h, b)), ViewOf(h)) && ViewOf(SetBaseCell(h, b)).baseCell == b
  {
    SetBaseCellView(h, b);
  }

  /** The base cell neighboring b in direction dir, and the rotations into
      its frame; across the deleted k direction of a pentagon, which the
      table marks INVALID_BASE_CELL, the ik neighbor instead, reported as
      crossed. */
  function NeighborStep(b: int, dir: int): (r: (int, int, bool))
    requires 0 <= b < NUM_BASE_CELLS && 0 <= dir < 7
    ensures 0 <= r.0 < NUM_BASE_CELLS && r.0 in BaseCellNeighbors(b) && 0 <= r.1 < 6
    ensures r.2 <==> BaseCellNeighbors(b)[dir] == INVALID_BASE_CELL
    ensures !r.2 ==> r.0 == BaseCellNeighbors(b)[dir] && r.1 == BaseCellNeighbor60CCWRots(b)[dir]
    ensures r.2 ==> r.0 == BaseCellNeighbors(b)[IK_AXES_DIGIT] && r.1 == BaseCellNeighbor60CCWRots(b)[IK_AXES_DIGIT]
  {
    var neighbors := BaseCellNeighbors(b);
    var rots := BaseCellNeighbor60CCWRots(b);
    if neighbors[dir] == INVALID_BASE_CELL then
      assert neighbors[IK_AXES_DIGIT] != INVALID_BASE_CELL && rots[IK_AXES_DIGIT] != INVALID_ROTATIONS;
      (neighbors[IK_AXES_DIGIT], rots[IK_AXES_DIGIT], true)
    else
      assert rots[dir] != INVALID_ROTATIONS;
      (neighbors[dir], rots[dir], false)
  }

  /** The step across to the neighboring base cell in direction dir; where
      that is the deleted k direction of a pentagon, the ik neighbor with
      the index turned once counterclockwise and one more rotation.  The C
      code writes INVALID_BASE_CELL into the index and tests it there; the
      model tests the table entry, to the same effect. */
  method BaseCellStep(current: H3Index, oldBaseCell: int, dir: int, rotations: int)
    returns (current': H3Index, newRotations: int, rotations': int)
    requires 0 <= oldBaseCell < NUM_BASE_CELLS && 0 <= dir < 7 && GetBaseCell(current) == oldBaseCell
    ensures SameOutsideDigits(ViewOf(current'), ViewOf(current))
    ensures 0 <= ViewOf(current').baseCell < NUM_BASE_CELLS && ViewOf(current').baseCell in BaseCellNeighbors(oldBaseCell)
    ensures 0 <= newRotations < 6 && rotations' >= rotations
    ensures dir == CENTER_DIGIT ==> current' == current && newRotations == 0 && rotations' == rotations
  {
    var step := NeighborStep(oldBaseCell, dir);
    var moved := SetBaseCell(current, step.0);
    SetBaseCellFrame(current, step.0);
    newRotations, rotations' := step.1, rotations;
    if step.2 {
      current' := H3Rotate60ccw(moved);
      HexRotateFrame(moved, current', true);
      SameOutsideTrans(ViewOf(current'), ViewOf(moved), ViewOf(current));
      rotations' := rotations' + 1;
    } else {
      current' := moved;
      if dir == CENTER_DIGIT {
        SetSameBaseCell(current);
      }
    }
  }

  /** _h3Rotate60ccw applied n times. */
  method RotateHexagonTimes(h: H3Index, n: int) returns (out: H3Index)
    ensures SameOutsideDigits(ViewOf(out), ViewOf(h)) && ViewOf(out).baseCell == ViewOf(h).baseCell
    ensures n <= 0 ==> out == h
  {
    out := h;
    var i := 0;
    while i < n
      invariant 0 <= i <= (if n > 0 then n else 0) && (i == 0 ==> out == h)
      invariant SameOutsideDigits(ViewOf(out), ViewOf(h)) && ViewOf(out).baseCell == ViewOf(h).baseCell
    {
      var next := H3Rotate60ccw(out);
      HexRotateFrame(out, next, true);
      SameOutsideTrans(ViewOf(next), ViewOf(out), ViewOf(h));
      out := next;
      i := i + 1;
    }
  }

  /** _h3RotatePent60ccw applied n times. */
  method RotatePentagonTimes(h: H3Index, n: int) returns (out: H3Index)
    ensures SameOutsideDigits(ViewOf(out), ViewOf(h)) && ViewOf(out).baseCell == ViewOf(h).baseCell
    ensures n <= 0 ==> out == h
  {
    out := h;
    var i := 0;
    while i < n
      invariant 0 <= i <= (if n > 0 then n else 0) && (i == 0 ==> out == h)
      invariant SameOutsideDigits(ViewOf(out), ViewOf(h)) && ViewOf(out).baseCell == ViewOf(h).baseCell
    {
      var next := H3RotatePent60ccw(out);
      PentRotateFrame(out, next, true);
      SameOutsideTrans(ViewOf(next), ViewOf(out), ViewOf(h));
      out := next;
      i := i + 1;
    }
  }

  /** The first nonzero digit of h among resolutions 1..res. */
  function Lead(h: H3Index): int
  {
    LeadingNonZeroFrom(ViewOf(h).digits, 0, ViewOf(h).res)
  }

  /** Out of the deleted k subsequence of a pentagon: when the step
      changed base cell, a turn chosen by the face the old base cell's home
      sits on; when it did not, a turn chosen by the leading digit of the
      origin, E_PENTAGON from the pentagon's centre and E_FAILED from any
      other digit than jk and ik.  An index that does not lead with k is
      left alone. */
  method LeaveKSubsequence(current: H3Index, oldBaseCell: int, newBaseCell: int, oldLeadingDigit: int, rotations: int)
    returns (err: H3Error, current': H3Index, rotations': int, adjusted: bool)
    requires 0 <= oldBaseCell < NUM_BASE_CELLS && IsBaseCellPentagon(newBaseCell)
    ensures err == E_SUCCESS || err == E_FAILED || err == E_PENTAGON
    ensures err == E_PENTAGON ==> oldBaseCell == newBaseCell && oldLeadingDigit == CENTER_DIGIT && Lead(current) == K_AXES_DIGIT
    ensures err == E_FAILED ==> oldBaseCell == newBaseCell && Lead(current) == K_AXES_DIGIT
    ensures err == E_SUCCESS ==>
      SameOutsideDigits(ViewOf(current'), ViewOf(current)) && ViewOf(current').baseCell == ViewOf(current).baseCell
      && rotations' >= rotations
    ensures err == E_SUCCESS && oldBaseCell == newBaseCell && Lead(current) == K_AXES_DIGIT ==>
      oldLeadingDigit == JK_AXES_DIGIT || oldLeadingDigit == IK_AXES_DIGIT
    ensures Lead(current) != K_AXES_DIGIT ==> err == E_SUCCESS && current' == current && rotations' == rotations && !adjusted
  {
    err, current', rotations', adjusted := E_SUCCESS, current, rotations, false;
    var lead := LeadingNonZeroDigit(current);
    if lead != K_AXES_DIGIT {
      return;
    }
    var ccw: bool;
    if oldBaseCell != newBaseCell {
      ccw := !BaseCellIsCwOffset(newBaseCell, BaseCellDataOf(oldBaseCell).homeFijk.face);
      adjusted := true;
    } else if oldLeadingDigit == CENTER_DIGIT {
      return E_PENTAGON, current, rotations, false;
    } else if oldLeadingDigit == JK_AXES_DIGIT {
      ccw := true;
      rotations' := rotations + 1;
    } else if oldLeadingDigit == IK_AXES_DIGIT {
      ccw := false;
      rotations' := rotations + 5;
    } else {
      return E_FAILED, current, rotations, false;
    }
    if ccw {
      current' := H3Rotate60ccw(current);
    } else {
      current' := H3Rotate60cw(current);
    }
    HexRotateFrame(current, current', ccw);
  }

  /** The extra rotation for the distortion of crossing onto a pentagon
      base cell: onto a polar pentagon unless from base cell 118 or 8 or
      leading with jk; onto another pentagon when leading with ik and not
      already turned out of the k subsequence.  None without a crossing. */
  method CrossingRotation(current: H3Index, oldBaseCell: int, newBaseCell: int, adjusted: bool) returns (extra: int)
    ensures 0 <= extra <= 1
    ensures oldBaseCell == newBaseCell ==> extra == 0
    ensures extra == 1 ==>
      (IsBaseCellPolarPentagon(newBaseCell) && Lead(current) != JK_AXES_DIGIT && oldBaseCell != 118 && oldBaseCell != 8)
      || (!IsBaseCellPolarPentagon(newBaseCell) && Lead(current) == IK_AXES_DIGIT && !adjusted)
  {
    extra := 0;
    if oldBaseCell != newBaseCell {
      var lead := LeadingNonZeroDigit(current);
      if IsBaseCellPolarPentagon(newBaseCell) {
        if oldBaseCell != 118 && oldBaseCell != 8 && lead != JK_AXES_DIGIT {
          extra := 1;
        }
      } else if lead == IK_AXES_DIGIT && !adjusted {
        extra := 1;
      }
    }
  }

  /** The adjustments when the step lands on a pentagon base cell: out of
      the deleted k subsequence, then the pentagon rotations, then the
      extra rotation of the crossing. */
  method PentagonStep(current: H3Index, oldBaseCell: int, newBaseCell: int, oldLeadingDigit: int,
                      newRotations: int, rotations: int)
    returns (err: H3Error, current': H3Index, rotations': int)
    requires 0 <= oldBaseCell < NUM_BASE_CELLS && IsBaseCellPentagon(newBaseCell) && ViewOf(current).baseCell == newBaseCell
    requires 0 <= newRotations < 6
    ensures err == E_SUCCESS || err == E_FAILED || err == E_PENTAGON
    ensures err == E_PENTAGON ==> oldBaseCell == newBaseCell && oldLeadingDigit == CENTER_DIGIT
    ensures err == E_FAILED ==> oldBaseCell == newBaseCell && Lead(current) == K_AXES_DIGIT
    ensures err == E_SUCCESS ==>
      SameOutsideDigits(ViewOf(current'), ViewOf(current)) && ViewOf(current').baseCell == newBaseCell && rotations' >= rotations
    ensures err == E_SUCCESS && oldBaseCell == newBaseCell && Lead(current) == K_AXES_DIGIT ==>
      oldLeadingDigit == JK_AXES_DIGIT || oldLeadingDigit == IK_AXES_DIGIT
    ensures oldBaseCell == newBaseCell && newRotations == 0 && Lead(current) != K_AXES_DIGIT ==>
      err == E_SUCCESS && current' == current && rotations' == rotations
  {
    var adjusted;
    err, current', rotations', adjusted := LeaveKSubsequence(current, oldBaseCell, newBaseCell, oldLeadingDigit, rotations);
    if err != E_SUCCESS {
      return err, current, rotations;
    }
    var turned := RotatePentagonTimes(current', newRotations);
    SameOutsideTrans(ViewOf(turned), ViewOf(current'), ViewOf(current));
    current' := turned;
    var extra := CrossingRotation(current', oldBaseCell, newBaseCell, adjusted);
    rotations' := rotations' + extra;
  }

  /** The turns into the frame of the base cell reached: the pentagon
      adjustments on a pentagon base cell, the plain rotations on a
      hexagon, and the rotations brought back into 0..5. */
  method TurnIntoFrame(moved: H3Index, oldBaseCell: int, oldLeadingDigit: int, newRotations: int, rotations: int)
    returns (err: H3Error, rotations': int, out: H3Index)
    requires 0 <= oldBaseCell < NUM_BASE_CELLS && 0 <= ViewOf(moved).baseCell < NUM_BASE_CELLS && 0 <= newRotations < 6
    ensures err == E_SUCCESS || err == E_FAILED || err == E_PENTAGON
    ensures err == E_PENTAGON ==>
      oldBaseCell == ViewOf(moved).baseCell && oldLeadingDigit == CENTER_DIGIT && IsBaseCellPentagon(oldBaseCell)
    ensures err == E_SUCCESS ==>
      SameOutsideDigits(ViewOf(out), ViewOf(moved)) && ViewOf(out).baseCell == ViewOf(moved).baseCell
      && (rotations >= 0 ==> 0 <= rotations' < 6)
    ensures err != E_SUCCESS ==> out == H3_NULL
    ensures err == E_SUCCESS && oldBaseCell == ViewOf(moved).baseCell && newRotations == 0 && oldLeadingDigit == Lead(moved) ==>
      out == moved
  {
    var newBaseCell := ViewOf(moved).baseCell;
    rotations' := rotations;
    if IsBaseCellPentagonData(newBaseCell) {
      var pentErr;
      pentErr, out, rotations' := PentagonStep(moved, oldBaseCell, newBaseCell, oldLeadingDigit, newRotations, rotations);
      if pentErr != E_SUCCESS {
        return pentErr, rotations', H3_NULL;
      }
    } else {
      out := RotateHexagonTimes(moved, newRotations);
    }
    rotations' := CRem6(rotations' + newRotations);
    err := E_SUCCESS;
  }

  /** The end of h3NeighborRotations once the digits are adjusted: the
      step across base cells when the walk reached them, then the turns
      into the new base cell's frame. */
  method FinishNeighbor(origin: H3Index, current: H3Index, dir: int, reachedBase: bool, oldLeadingDigit: int, rotations: int)
    returns (err: H3Error, rotations': int, out: H3Index)
    requires 0 <= ViewOf(origin).baseCell < NUM_BASE_CELLS && 0 <= dir < 7 && oldLeadingDigit == Lead(origin)
    requires SameOutsideDigits(ViewOf(current), ViewOf(origin)) && ViewOf(current).baseCell == ViewOf(origin).baseCell
    ensures err == E_SUCCESS || err == E_FAILED || err == E_PENTAGON
    ensures err == E_PENTAGON ==> IsPentagon(origin)
    ensures err == E_SUCCESS ==>
      SameOutsideDigits(ViewOf(out), ViewOf(origin)) && ViewOf(out).baseCell in BaseCellNeighbors(ViewOf(origin).baseCell)
      && (rotations >= 0 ==> 0 <= rotations' < 6)
    ensures err != E_SUCCESS ==> out == H3_NULL
    ensures err == E_SUCCESS && current == origin && dir == CENTER_DIGIT ==> out == origin
  {
    var oldBaseCell := ViewOf(origin).baseCell;
    var newRotations := 0;
    var moved := current;
    var turned := rotations;
    if reachedBase {
      FieldsOfView(current);
      moved, newRotations, turned := BaseCellStep(current, oldBaseCell, dir, rotations);
      SameOutsideTrans(ViewOf(moved), ViewOf(current), ViewOf(origin));
    }
    err, rotations', out := TurnIntoFrame(moved, oldBaseCell, oldLeadingDigit, newRotations, turned);
    if err == E_SUCCESS {
      SameOutsideTrans(ViewOf(out), ViewOf(moved), ViewOf(origin));
    } else if err == E_PENTAGON {
      FieldsOfView(origin);
    }
  }

  /** h3NeighborRotations: the neighbor of origin in direction dir, with
      the rotations carried along the walk.  E_FAILED for a direction
      outside 0..6, leaving the rotations as they were; E_CELL_INVALID for
      a base cell past the table or a digit 7 met on the way; E_PENTAGON
      only when origin is a pentagon.  On success the neighbor differs from
      origin only in its base cell, one of the neighbors of origin's, and
      in the digits of its resolution; the rotations end in 0..5 when they
      started non-negative; and the centre direction leaves origin where
      it is.  out is H3_NULL on an error, where the C code leaves it
      unset. */
  method NeighborRotations(origin: H3Index, dir: int, rotations: int) returns (err: H3Error, rotations': int, out: H3Index)
    ensures (dir < CENTER_DIGIT || dir >= INVALID_DIGIT) ==> err == E_FAILED && rotations' == rotations
    ensures err == E_SUCCESS || err == E_FAILED || err == E_CELL_INVALID || err == E_PENTAGON
    ensures 0 <= dir < INVALID_DIGIT && GetBaseCell(origin) >= NUM_BASE_CELLS ==> err == E_CELL_INVALID
    ensures err == E_CELL_INVALID ==>
      GetBaseCell(origin) >= NUM_BASE_CELLS || INVALID_DIGIT in ViewOf(origin).digits[..ViewOf(origin).res]
    ensures err == E_PENTAGON ==> IsPentagon(origin)
    ensures err == E_SUCCESS ==>
      SameOutsideDigits(ViewOf(out), ViewOf(origin)) && GetBaseCell(origin) < NUM_BASE_CELLS
      && ViewOf(out).baseCell in BaseCellNeighbors(GetBaseCell(origin))
      && (rotations >= 0 ==> 0 <= rotations' < 6)
    ensures err == E_SUCCESS && dir == CENTER_DIGIT ==> out == origin
  {
    if dir < CENTER_DIGIT || dir >= INVALID_DIGIT {
      return E_FAILED, rotations, H3_NULL;
    }
    FieldsOfView(origin);
    rotations' := CRem6(rotations);
    var d := RotateDirection(dir, rotations');
    var oldBaseCell := GetBaseCell(origin);
    if oldBaseCell >= NUM_BASE_CELLS {
      return E_CELL_INVALID, rotations', H3_NULL;
    }
    var oldLeadingDigit := LeadingNonZeroDigit(origin);
    var invalid, current, d', reachedBase := AdjustDigits(origin, d);
    if invalid {
      return E_CELL_INVALID, rotations', H3_NULL;
    }
    err, rotations', out := FinishNeighbor(origin, current, d', reachedBase, oldLeadingDigit, rotations');
  }
}
