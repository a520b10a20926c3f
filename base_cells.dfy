// The base cell lookups of baseCells.c over the tables of H3BaseCellTables:
// the pentagon flags, the face lookups in both directions, the clockwise
// offset faces, the neighbor lookup and its inverse search, the search for
// the rotation of a base cell on a face, and the list of resolution-0 cells.

module H3BaseCells {
  import opened H3Api
  import opened H3IndexBits
  import opened H3IndexFields
  import opened H3IndexValid
  import opened H3Hierarchy
  import opened CoordIjk
  import opened H3BaseCellTables

  /** _isBaseCellPentagon: the pentagon flag of baseCellData, which marks
      exactly the twelve pentagon base cells. */
  function IsBaseCellPentagonData(b: int): (r: bool)
    requires 0 <= b < NUM_BASE_CELLS
    ensures r <==> IsBaseCellPentagon(b)
  {
    BaseCellDataOf(b).isPentagon
  }

  /** _isBaseCellPolarPentagon: base cells 4 and 117, which are pentagons
      and the only base cells whose offset faces are both -1. */
  function IsBaseCellPolarPentagon(b: int): (r: bool)
    ensures r ==> IsBaseCellPentagon(b)
    ensures 0 <= b < NUM_BASE_CELLS ==> (r <==> BaseCellDataOf(b).cwOffsetPent == (-1, -1))
  {
    b == 4 || b == 117
  }

  /** The coordinates the face lookups accept: a face and ijk+ components
      in 0..MAX_FACE_COORD. */
  predicate IsLookupFaceIjk(h: FaceIjk)
  {
    0 <= h.face < NUM_ICOSA_FACES
    && 0 <= h.coord.i <= MAX_FACE_COORD && 0 <= h.coord.j <= MAX_FACE_COORD && 0 <= h.coord.k <= MAX_FACE_COORD
  }

  /** _faceIjkToBaseCell: the base cell at a coordinate of a face. */
  function FaceIjkToBaseCell(h: FaceIjk): (r: int)
    requires IsLookupFaceIjk(h)
    ensures 0 <= r < NUM_BASE_CELLS
  {
    FaceIjkBaseCells(h.face)[h.coord.i][h.coord.j][h.coord.k].baseCell
  }

  /** _faceIjkToBaseCellCCWrot60: the rotation into the coordinate system of
      the base cell at a coordinate of a face. */
  function FaceIjkToBaseCellCCWrot60(h: FaceIjk): (r: int)
    requires IsLookupFaceIjk(h)
    ensures 0 <= r < 6
  {
    FaceIjkBaseCells(h.face)[h.coord.i][h.coord.j][h.coord.k].ccwRot60
  }

  /** _baseCellToFaceIjk: the home face and coordinate of a base cell, which
      the face lookups map back to the same base cell with no rotation. */
  function BaseCellToFaceIjk(b: int): (r: FaceIjk)
    requires 0 <= b < NUM_BASE_CELLS
    ensures IsLookupFaceIjk(r)
    ensures FaceIjkToBaseCell(r) == b && FaceIjkToBaseCellCCWrot60(r) == 0
  {
    HomeEntries();
    assert HomeEntry(b);
    BaseCellDataOf(b).homeFijk
  }

  /** _baseCellIsCwOffset: whether testFace is one of the two clockwise
      offset faces of b.  A hexagon's offsets are (0, 0), so face 0 tests
      true for every hexagon; the polar pentagons' offsets are (-1, -1), so
      no face tests true for them. */
  function BaseCellIsCwOffset(b: int, testFace: int): (r: bool)
    requires 0 <= b < NUM_BASE_CELLS
    ensures !IsBaseCellPentagon(b) ==> (r <==> testFace == 0)
    ensures IsBaseCellPolarPentagon(b) ==> (r <==> testFace == -1)
    ensures r && IsBaseCellPentagon(b) && !IsBaseCellPolarPentagon(b) ==> 0 <= testFace < NUM_ICOSA_FACES
  {
    BaseCellDataOf(b).cwOffsetPent.0 == testFace || BaseCellDataOf(b).cwOffsetPent.1 == testFace
  }

  /** A non-polar pentagon has two distinct offset faces. */
  lemma PentagonOffsetFaces(b: int)
    requires IsBaseCellPentagon(b) && !IsBaseCellPolarPentagon(b)
    ensures exists f1, f2 | 0 <= f1 < f2 < NUM_ICOSA_FACES ::
      BaseCellIsCwOffset(b, f1) && BaseCellIsCwOffset(b, f2) && (forall f | BaseCellIsCwOffset(b, f) :: f == f1 || f == f2)
  {
    var c := BaseCellDataOf(b).cwOffsetPent;
    var f1, f2 := if c.0 < c.1 then c.0 else c.1, if c.0 < c.1 then c.1 else c.0;
    assert BaseCellIsCwOffset(b, f1) && BaseCellIsCwOffset(b, f2);
  }

  /** _getBaseCellNeighbor: the neighbor of b in direction dir; b itself in
      the center direction, and INVALID_BASE_CELL exactly in the K direction
      of a pentagon. */
  function GetBaseCellNeighbor(b: int, dir: int): (r: int)
    requires 0 <= b < NUM_BASE_CELLS && 0 <= dir < NUM_DIGITS
    ensures dir == CENTER_DIGIT ==> r == b
    ensures r == INVALID_BASE_CELL <==> IsBaseCellPentagon(b) && dir == K_AXES_DIGIT
    ensures r != INVALID_BASE_CELL ==> 0 <= r < NUM_BASE_CELLS
  {
    BaseCellNeighbors(b)[dir]
  }

  /** _getBaseCellDirection: the first direction from o whose neighbor is n,
      or INVALID_DIGIT exactly when no direction leads to n. */
  method GetBaseCellDirection(o: int, n: int) returns (dir: int)
    requires 0 <= o < NUM_BASE_CELLS
    ensures 0 <= dir <= INVALID_DIGIT
    ensures dir < INVALID_DIGIT ==>
      GetBaseCellNeighbor(o, dir) == n && forall d | 0 <= d < dir :: GetBaseCellNeighbor(o, d) != n
    ensures dir == INVALID_DIGIT <==> forall d | 0 <= d < NUM_DIGITS :: GetBaseCellNeighbor(o, d) != n
    ensures n == o ==> dir == CENTER_DIGIT
    ensures n == INVALID_BASE_CELL ==> dir == (if IsBaseCellPentagon(o) then K_AXES_DIGIT else INVALID_DIGIT)
  {
    ghost var center, kAxis := GetBaseCellNeighbor(o, CENTER_DIGIT), GetBaseCellNeighbor(o, K_AXES_DIGIT);
    dir := CENTER_DIGIT;
    while dir < NUM_DIGITS
      invariant 0 <= dir <= NUM_DIGITS
      invariant forall d | 0 <= d < dir :: GetBaseCellNeighbor(o, d) != n
    {
      var testBaseCell := GetBaseCellNeighbor(o, dir);
      if testBaseCell == n {
        return;
      }
      dir := dir + 1;
    }
    dir := INVALID_DIGIT;
  }

  // ------------------------------------------- rotation of a base cell on a face

  /** Entry t of a face row in the order i, j, k of the search loops. */
  function RowEntry(row: seq<seq<seq<BaseCellRotation>>>, t: int): (e: BaseCellRotation)
    requires IsFaceRow(row) && 0 <= t < 27
  {
    var i := if t < 9 then 0 else if t < 18 then 1 else 2;
    var u := t - 9 * i;
    var j := if u < 3 then 0 else if u < 6 then 1 else 2;
    row[i][j][u - 3 * j]
  }

  /** The rotation of the first entry of b in a face row at position t or
      later in search order, or INVALID_ROTATIONS when there is none. */
  function FirstRotation(row: seq<seq<seq<BaseCellRotation>>>, b: int, t: int): int
    requires IsFaceRow(row) && 0 <= t <= 27
    decreases 27 - t
  {
    if t == 27 then INVALID_ROTATIONS
    else if RowEntry(row, t).baseCell == b then RowEntry(row, t).ccwRot60
    else FirstRotation(row, b, t + 1)
  }

  /** What _baseCellToCCWrot60 computes, with faces outside 0..19 refused. */
  function BaseCellToCCWrot60Spec(b: int, face: int): int
  {
    if face < 0 || face >= NUM_ICOSA_FACES then INVALID_ROTATIONS else FirstRotation(FaceIjkBaseCells(face), b, 0)
  }

  /** INVALID_ROTATIONS exactly when b is absent from the rest of the row;
      otherwise the rotation, in 0..5, of the first entry of b from t on. */
  lemma {:induction false} FirstRotationMeaning(row: seq<seq<seq<BaseCellRotation>>>, b: int, t: int)
    requires IsFaceRow(row) && 0 <= t <= 27
    decreases 27 - t
    ensures FirstRotation(row, b, t) == INVALID_ROTATIONS <==> forall u | t <= u < 27 :: RowEntry(row, u).baseCell != b
    ensures FirstRotation(row, b, t) != INVALID_ROTATIONS ==>
      0 <= FirstRotation(row, b, t) < 6
      && (exists u | t <= u < 27 :: RowEntry(row, u) == BaseCellRotation(b, FirstRotation(row, b, t))
            && forall v | t <= v < u :: RowEntry(row, v).baseCell != b)
  {
    if t < 27 {
      assert 0 <= RowEntry(row, t).ccwRot60 < 6;
      if RowEntry(row, t).baseCell != b {
        FirstRotationMeaning(row, b, t + 1);
        if FirstRotation(row, b, t) != INVALID_ROTATIONS {
          var u :| t + 1 <= u < 27 && RowEntry(row, u) == BaseCellRotation(b, FirstRotation(row, b, t))
            && forall v | t + 1 <= v < u :: RowEntry(row, v).baseCell != b;
          assert forall v | t <= v < u :: RowEntry(row, v).baseCell != b;
        }
      }
    }
  }

  /** The search position of coordinate (i, j, k). */
  lemma RowEntryAt(row: seq<seq<seq<BaseCellRotation>>>, i: int, j: int, k: int)
    requires IsFaceRow(row) && 0 <= i < 3 && 0 <= j < 3 && 0 <= k < 3
    ensures RowEntry(row, 9 * i + 3 * j + k) == row[i][j][k]
  {
  }

  /** _baseCellToCCWrot60, with the face guard corrected to refuse face 20:
      INVALID_ROTATIONS for a face outside 0..19 or a base cell absent from
      the face, otherwise the rotation of its first entry in search order. */
  method BaseCellToCCWrot60(baseCell: int, face: int) returns (r: int)
    ensures r == BaseCellToCCWrot60Spec(baseCell, face)
  {
    if face < 0 || face >= NUM_ICOSA_FACES {
      return INVALID_ROTATIONS;
    }
    var row: seq<seq<seq<BaseCellRotation>>> := FaceIjkBaseCells(face);
    for i := 0 to 3
      invariant FirstRotation(row, baseCell, 0) == FirstRotation(row, baseCell, 9 * i)
    {
      for j := 0 to 3
        invariant FirstRotation(row, baseCell, 0) == FirstRotation(row, baseCell, 9 * i + 3 * j)
      {
        for k := 0 to 3
          invariant FirstRotation(row, baseCell, 0) == FirstRotation(row, baseCell, 9 * i + 3 * j + k)
        {
          RowEntryAt(row, i, j, k);
          if row[i][j][k].baseCell == baseCell {
            return row[i][j][k].ccwRot60;
          }
        }
      }
    }
    return INVALID_ROTATIONS;
  }

  /** INVALID_ROTATIONS exactly for a face outside 0..19 or a base cell that
      is not on the face; otherwise a rotation in 0..5 carried by the first
      entry of the base cell on the face. */
  lemma BaseCellToCCWrot60Meaning(b: int, face: int)
    ensures BaseCellToCCWrot60Spec(b, face) == INVALID_ROTATIONS <==>
      face < 0 || face >= NUM_ICOSA_FACES || forall t | 0 <= t < 27 :: RowEntry(FaceIjkBaseCells(face), t).baseCell != b
    ensures BaseCellToCCWrot60Spec(b, face) != INVALID_ROTATIONS ==>
      0 <= BaseCellToCCWrot60Spec(b, face) < 6
      && (exists t | 0 <= t < 27 :: RowEntry(FaceIjkBaseCells(face), t) == BaseCellRotation(b, BaseCellToCCWrot60Spec(b, face))
            && forall u | 0 <= u < t :: RowEntry(FaceIjkBaseCells(face), u).baseCell != b)
  {
    if 0 <= face < NUM_ICOSA_FACES {
      FirstRotationMeaning(FaceIjkBaseCells(face), b, 0);
    }
  }

  /** Every base cell is found on its home face. */
  lemma HomeFaceRotation(b: int)
    requires 0 <= b < NUM_BASE_CELLS
    ensures 0 <= BaseCellToCCWrot60Spec(b, BaseCellToFaceIjk(b).face) < 6
  {
    var h := BaseCellToFaceIjk(b);
    var row := FaceIjkBaseCells(h.face);
    RowEntryAt(row, h.coord.i, h.coord.j, h.coord.k);
    FirstRotationMeaning(row, b, 0);
  }

  /** The face guard of _baseCellToCCWrot60 as written: it refuses a face
      below 0 or above NUM_ICOSA_FACES, and so lets face 20 through. */
  predicate CCWrot60GuardAsWritten(face: int)
  {
    !(face < 0 || face > NUM_ICOSA_FACES)
  }

  /** _baseCellToCCWrot60 as written: None where the search would read a
      face row the table does not have. */
  function BaseCellToCCWrot60AsWritten(b: int, face: int): (r: Option<int>)
    ensures r == None <==> CCWrot60GuardAsWritten(face) && !(0 <= face < NUM_ICOSA_FACES)
    ensures r != None ==> r.value == BaseCellToCCWrot60Spec(b, face)
  {
    if !CCWrot60GuardAsWritten(face) then Some(INVALID_ROTATIONS)
    else if face == NUM_ICOSA_FACES then None
    else Some(FirstRotation(FaceIjkBaseCells(face), b, 0))
  }

  /** Face 20 passes the guard as written though the table has faces 0..19
      only; the corrected guard answers INVALID_ROTATIONS. */
  lemma GuardAdmitsFaceTwenty(b: int)
    ensures CCWrot60GuardAsWritten(NUM_ICOSA_FACES)
    ensures BaseCellToCCWrot60AsWritten(b, NUM_ICOSA_FACES) == None
    ensures BaseCellToCCWrot60Spec(b, NUM_ICOSA_FACES) == INVALID_ROTATIONS
  {
  }

  // ------------------------------------------------------- resolution 0 cells

  /** res0IndexCount: the number of resolution-0 cells. */
  function Res0IndexCount(): int
  {
    NUM_BASE_CELLS
  }

  /** The word getRes0Indexes builds for base cell bc: H3_INIT in cell mode
      with base cell bc. */
  function Res0Index(bc: int): (h: H3Index)
    requires 0 <= bc < NUM_BASE_CELLS
  {
    SetBaseCell(SetMode(H3_INIT, H3_CELL_MODE), bc)
  }

  /** The word for bc is the resolution-0 cell of base cell bc. */
  lemma Res0IndexView(bc: int)
    requires 0 <= bc < NUM_BASE_CELLS
    ensures ViewOf(Res0Index(bc)) == CellView(0, bc, CENTER_DIGIT, 0)
  {
    InitView();
    SetModeView(H3_INIT, H3_CELL_MODE);
    SetBaseCellView(SetMode(H3_INIT, H3_CELL_MODE), bc);
    assert ViewOf(H3_INIT).digits == Fill(Sevens(), 0, 0, CENTER_DIGIT);
  }

  /** The resolution-0 cells are valid, and distinct base cells give
      distinct words. */
  lemma Res0IndexValid(bc: int, bc': int)
    requires 0 <= bc < NUM_BASE_CELLS && 0 <= bc' < NUM_BASE_CELLS
    ensures IsValidCell(Res0Index(bc))
    ensures GetResolution(Res0Index(bc)) == 0 && GetBaseCell(Res0Index(bc)) == bc
    ensures Res0Index(bc) == Res0Index(bc') <==> bc == bc'
  {
    Res0IndexView(bc);
    Res0IndexView(bc');
    CellViewValid(0, bc, CENTER_DIGIT);
    IsValidCellSpec(Res0Index(bc));
    FieldsOfView(Res0Index(bc));
  }

  /** getRes0Indexes: slot bc of out receives the resolution-0 cell of base
      cell bc, for each of the 122 base cells; the rest of out is left as
      it was. */
  method GetRes0Indexes(out: array<H3Index>)
    requires out.Length >= NUM_BASE_CELLS
    modifies out
    ensures forall bc | 0 <= bc < NUM_BASE_CELLS :: out[bc] == Res0Index(bc)
    ensures forall t | NUM_BASE_CELLS <= t < out.Length :: out[t] == old(out[t])
  {
    for bc := 0 to NUM_BASE_CELLS
      invariant forall c | 0 <= c < bc :: out[c] == Res0Index(c)
      invariant forall t | NUM_BASE_CELLS <= t < out.Length :: out[t] == old(out[t])
    {
      var baseCell := H3_INIT;
      baseCell := SetMode(baseCell, H3_CELL_MODE);
      baseCell := SetBaseCell(baseCell, bc);
      out[bc] := baseCell;
    }
  }
}
