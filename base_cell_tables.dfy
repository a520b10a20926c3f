// The resolution-0 lookup tables of baseCells.c.  Each table is a function
// of the base cell number (or of the icosahedron face) that picks its row by
// halving the range of the argument; a table is split into blocks of a few
// rows, each block a function of its own, so that the facts about the rows
// (the postconditions below) are checked a block at a time.

module H3BaseCellTables {
  import opened H3Api
  import opened H3IndexValid
  import opened CoordIjk

  /** A cell of the faceIjkBaseCells table: a base cell and the number of
      60 degree counterclockwise rotations into its coordinate system. */
  datatype BaseCellRotation = BaseCellRotation(baseCell: int, ccwRot60: int)

  /** A face number and a resolution-0 ijk+ coordinate on that face. */
  datatype FaceIjk = FaceIjk(face: int, coord: Ijk)

  /** A row of baseCellData: the home face and coordinate, whether the base
      cell is a pentagon, and the two clockwise offset faces of a pentagon. */
  datatype BaseCellData = BaseCellData(homeFijk: FaceIjk, isPentagon: bool, cwOffsetPent: (int, int))

  /** Marks the missing neighbor of a pentagon. */
  const INVALID_BASE_CELL: int := 127

  /** The largest ijk+ component accepted by the face lookups. */
  const MAX_FACE_COORD: int := 2

  /** The rotation count reported for a base cell absent from a face. */
  const INVALID_ROTATIONS: int := -1

  /** A face row: a 3 by 3 by 3 array of base cells with rotations in 0..5. */
  predicate IsFaceRow(r: seq<seq<seq<BaseCellRotation>>>)
  {
    |r| == 3
    && (forall i | 0 <= i < 3 :: |r[i]| == 3)
    && (forall i, j | 0 <= i < 3 && 0 <= j < 3 :: |r[i][j]| == 3)
    && (forall i, j, k | 0 <= i < 3 && 0 <= j < 3 && 0 <= k < 3 ::
          0 <= r[i][j][k].baseCell < NUM_BASE_CELLS && 0 <= r[i][j][k].ccwRot60 < 6)
  }

  /** The base cells 4 and 117, around which every neighbor is oriented
      towards the pentagon. */
  predicate IsPolarBaseCell(b: int)
  {
    b == 4 || b == 117
  }

  /** Rows 0 to 3 of BaseCellNeighbors. */
  function NeighborBlock0(b: int): (r: seq<int>)
    requires 0 <= b < 4
    ensures |r| == 7 && r[CENTER_DIGIT] == b
    ensures forall d | 0 <= d < 7 :: (r[d] == INVALID_BASE_CELL <==> IsBaseCellPentagonArr(b) && d == K_AXES_DIGIT)
    ensures forall d | 0 <= d < 7 :: r[d] == INVALID_BASE_CELL || 0 <= r[d] < NUM_BASE_CELLS
  {
    if b < 2 then (if b < 1 then ([0, 1, 5, 2, 4, 3, 8]) else ([1, 7, 6, 9, 0, 3, 2])) else (if b < 3 then ([2, 6, 10, 11, 0, 1, 5]) else ([3, 13, 1, 7, 4, 12, 0]))
  }

  /** Rows 4 to 7 of BaseCellNeighbors. */
  function NeighborBlock4(b: int): (r: seq<int>)
    requires 4 <= b < 8
    ensures |r| == 7 && r[CENTER_DIGIT] == b
    ensures forall d | 0 <= d < 7 :: (r[d] == INVALID_BASE_CELL <==> IsBaseCellPentagonArr(b) && d == K_AXES_DIGIT)
    ensures forall d | 0 <= d < 7 :: r[d] == INVALID_BASE_CELL || 0 <= r[d] < NUM_BASE_CELLS
  {
    if b < 6 then (if b < 5 then ([4, 127, 15, 8, 3, 0, 12]) else ([5, 2, 18, 10, 8, 0, 16])) else (if b < 7 then ([6, 14, 11, 17, 1, 9, 2]) else ([7, 21, 9, 19, 3, 13, 1]))
  }

  /** Rows 8 to 11 of BaseCellNeighbors. */
  function NeighborBlock8(b: int): (r: seq<int>)
    requires 8 <= b < 12
    ensures |r| == 7 && r[CENTER_DIGIT] == b
    ensures forall d | 0 <= d < 7 :: (r[d] == INVALID_BASE_CELL <==> IsBaseCellPentagonArr(b) && d == K_AXES_DIGIT)
    ensures forall d | 0 <= d < 7 :: r[d] == INVALID_BASE_CELL || 0 <= r[d] < NUM_BASE_CELLS
  {
    if b < 10 then (if b < 9 then ([8, 5, 22, 16, 4, 0, 15]) else ([9, 19, 14, 20, 1, 7, 6])) else (if b < 11 then ([10, 11, 24, 23, 5, 2, 18]) else ([11, 17, 23, 25, 2, 6, 10]))
  }

  /** Rows 12 to 15 of BaseCellNeighbors. */
  function NeighborBlock12(b: int): (r: seq<int>)
    requires 12 <= b < 16
    ensures |r| == 7 && r[CENTER_DIGIT] == b
    ensures forall d | 0 <= d < 7 :: (r[d] == INVALID_BASE_CELL <==> IsBaseCellPentagonArr(b) && d == K_AXES_DIGIT)
    ensures forall d | 0 <= d < 7 :: r[d] == INVALID_BASE_CELL || 0 <= r[d] < NUM_BASE_CELLS
  {
    if b < 14 then (if b < 13 then ([12, 28, 13, 26, 4, 15, 3]) else ([13, 26, 21, 29, 3, 12, 7])) else (if b < 15 then ([14, 127, 17, 27, 9, 20, 6]) else ([15, 22, 28, 31, 4, 8, 12]))
  }

  /** Rows 16 to 19 of BaseCellNeighbors. */
  function NeighborBlock16(b: int): (r: seq<int>)
    requires 16 <= b < 20
    ensures |r| == 7 && r[CENTER_DIGIT] == b
    ensures forall d | 0 <= d < 7 :: (r[d] == INVALID_BASE_CELL <==> IsBaseCellPentagonArr(b) && d == K_AXES_DIGIT)
    ensures forall d | 0 <= d < 7 :: r[d] == INVALID_BASE_CELL || 0 <= r[d] < NUM_BASE_CELLS
  {
    if b < 18 then (if b < 17 then ([16, 18, 33, 30, 8, 5, 22]) else ([17, 11, 14, 6, 35, 25, 27])) else (if b < 19 then ([18, 24, 30, 32, 5, 10, 16]) else ([19, 34, 20, 36, 7, 21, 9]))
  }

  /** Rows 20 to 23 of BaseCellNeighbors. */
  function NeighborBlock20(b: int): (r: seq<int>)
    requires 20 <= b < 24
    ensures |r| == 7 && r[CENTER_DIGIT] == b
    ensures forall d | 0 <= d < 7 :: (r[d] == INVALID_BASE_CELL <==> IsBaseCellPentagonArr(b) && d == K_AXES_DIGIT)
    ensures forall d | 0 <= d < 7 :: r[d] == INVALID_BASE_CELL || 0 <= r[d] < NUM_BASE_CELLS
  {
    if b < 22 then (if b < 21 then ([20, 14, 19, 9, 40, 27, 36]) else ([21, 38, 19, 34, 13, 29, 7])) else (if b < 23 then ([22, 16, 41, 33, 15, 8, 31]) else ([23, 24, 11, 10, 39, 37, 25]))
  }

  /** Rows 24 to 27 of BaseCellNeighbors. */
  function NeighborBlock24(b: int): (r: seq<int>)
    requires 24 <= b < 28
    ensures |r| == 7 && r[CENTER_DIGIT] == b
    ensures forall d | 0 <= d < 7 :: (r[d] == INVALID_BASE_CELL <==> IsBaseCellPentagonArr(b) && d == K_AXES_DIGIT)
    ensures forall d | 0 <= d < 7 :: r[d] == INVALID_BASE_CELL || 0 <= r[d] < NUM_BASE_CELLS
  {
    if b < 26 then (if b < 25 then ([24, 127, 32, 37, 10, 23, 18]) else ([25, 23, 17, 11, 45, 39, 35])) else (if b < 27 then ([26, 42, 29, 43, 12, 28, 13]) else ([27, 40, 35, 46, 14, 20, 17]))
  }

  /** Rows 28 to 31 of BaseCellNeighbors. */
  function NeighborBlock28(b: int): (r: seq<int>)
    requires 28 <= b < 32
    ensures |r| == 7 && r[CENTER_DIGIT] == b
    ensures forall d | 0 <= d < 7 :: (r[d] == INVALID_BASE_CELL <==> IsBaseCellPentagonArr(b) && d == K_AXES_DIGIT)
    ensures forall d | 0 <= d < 7 :: r[d] == INVALID_BASE_CELL || 0 <= r[d] < NUM_BASE_CELLS
  {
    if b < 30 then (if b < 29 then ([28, 31, 42, 44, 12, 15, 26]) else ([29, 43, 38, 47, 13, 26, 21])) else (if b < 31 then ([30, 32, 48, 50, 16, 18, 33]) else ([31, 41, 44, 53, 15, 22, 28]))
  }

  /** Rows 32 to 35 of BaseCellNeighbors. */
  function NeighborBlock32(b: int): (r: seq<int>)
    requires 32 <= b < 36
    ensures |r| == 7 && r[CENTER_DIGIT] == b
    ensures forall d | 0 <= d < 7 :: (r[d] == INVALID_BASE_CELL <==> IsBaseCellPentagonArr(b) && d == K_AXES_DIGIT)
    ensures forall d | 0 <= d < 7 :: r[d] == INVALID_BASE_CELL || 0 <= r[d] < NUM_BASE_CELLS
  {
    if b < 34 then (if b < 33 then ([32, 30, 24, 18, 52, 50, 37]) else ([33, 30, 49, 48, 22, 16, 41])) else (if b < 35 then ([34, 19, 38, 21, 54, 36, 51]) else ([35, 46, 45, 56, 17, 27, 25]))
  }

  /** Rows 36 to 39 of BaseCellNeighbors. */
  function NeighborBlock36(b: int): (r: seq<int>)
    requires 36 <= b < 40
    ensures |r| == 7 && r[CENTER_DIGIT] == b
    ensures forall d | 0 <= d < 7 :: (r[d] == INVALID_BASE_CELL <==> IsBaseCellPentagonArr(b) && d == K_AXES_DIGIT)
    ensures forall d | 0 <= d < 7 :: r[d] == INVALID_BASE_CELL || 0 <= r[d] < NUM_BASE_CELLS
  {
    if b < 38 then (if b < 37 then ([36, 20, 34, 19, 55, 40, 54]) else ([37, 39, 52, 57, 24, 23, 32])) else (if b < 39 then ([38, 127, 34, 51, 29, 47, 21]) else ([39, 37, 25, 23, 59, 57, 45]))
  }

  /** Rows 40 to 43 of BaseCellNeighbors. */
  function NeighborBlock40(b: int): (r: seq<int>)
    requires 40 <= b < 44
    ensures |r| == 7 && r[CENTER_DIGIT] == b
    ensures forall d | 0 <= d < 7 :: (r[d] == INVALID_BASE_CELL <==> IsBaseCellPentagonArr(b) && d == K_AXES_DIGIT)
    ensures forall d | 0 <= d < 7 :: r[d] == INVALID_BASE_CELL || 0 <= r[d] < NUM_BASE_CELLS
  {
    if b < 42 then (if b < 41 then ([40, 27, 36, 20, 60, 46, 55]) else ([41, 49, 53, 61, 22, 33, 31])) else (if b < 43 then ([42, 58, 43, 62, 28, 44, 26]) else ([43, 62, 47, 64, 26, 42, 29]))
  }

  /** Rows 44 to 47 of BaseCellNeighbors. */
  function NeighborBlock44(b: int): (r: seq<int>)
    requires 44 <= b < 48
    ensures |r| == 7 && r[CENTER_DIGIT] == b
    ensures forall d | 0 <= d < 7 :: (r[d] == INVALID_BASE_CELL <==> IsBaseCellPentagonArr(b) && d == K_AXES_DIGIT)
    ensures forall d | 0 <= d < 7 :: r[d] == INVALID_BASE_CELL || 0 <= r[d] < NUM_BASE_CELLS
  {
    if b < 46 then (if b < 45 then ([44, 53, 58, 65, 28, 31, 42]) else ([45, 39, 35, 25, 63, 59, 56])) else (if b < 47 then ([46, 60, 56, 68, 27, 40, 35]) else ([47, 38, 43, 29, 69, 51, 64]))
  }

  /** Rows 48 to 51 of BaseCellNeighbors. */
  function NeighborBlock48(b: int): (r: seq<int>)
    requires 48 <= b < 52
    ensures |r| == 7 && r[CENTER_DIGIT] == b
    ensures forall d | 0 <= d < 7 :: (r[d] == INVALID_BASE_CELL <==> IsBaseCellPentagonArr(b) && d == K_AXES_DIGIT)
    ensures forall d | 0 <= d < 7 :: r[d] == INVALID_BASE_CELL || 0 <= r[d] < NUM_BASE_CELLS
  {
    if b < 50 then (if b < 49 then ([48, 49, 30, 33, 67, 66, 50]) else ([49, 127, 61, 66, 33, 48, 41])) else (if b < 51 then ([50, 48, 32, 30, 70, 67, 52]) else ([51, 69, 54, 71, 38, 47, 34]))
  }

  /** Rows 52 to 55 of BaseCellNeighbors. */
  function NeighborBlock52(b: int): (r: seq<int>)
    requires 52 <= b < 56
    ensures |r| == 7 && r[CENTER_DIGIT] == b
    ensures forall d | 0 <= d < 7 :: (r[d] == INVALID_BASE_CELL <==> IsBaseCellPentagonArr(b) && d == K_AXES_DIGIT)
    ensures forall d | 0 <= d < 7 :: r[d] == INVALID_BASE_CELL || 0 <= r[d] < NUM_BASE_CELLS
  {
    if b < 54 then (if b < 53 then ([52, 57, 70, 74, 32, 37, 50]) else ([53, 61, 65, 75, 31, 41, 44])) else (if b < 55 then ([54, 71, 55, 73, 34, 51, 36]) else ([55, 40, 54, 36, 72, 60, 73]))
  }

  /** Rows 56 to 59 of BaseCellNeighbors. */
  function NeighborBlock56(b: int): (r: seq<int>)
    requires 56 <= b < 60
    ensures |r| == 7 && r[CENTER_DIGIT] == b
    ensures forall d | 0 <= d < 7 :: (r[d] == INVALID_BASE_CELL <==> IsBaseCellPentagonArr(b) && d == K_AXES_DIGIT)
    ensures forall d | 0 <= d < 7 :: r[d] == INVALID_BASE_CELL || 0 <= r[d] < NUM_BASE_CELLS
  {
    if b < 58 then (if b < 57 then ([56, 68, 63, 77, 35, 46, 45]) else ([57, 59, 74, 78, 37, 39, 52])) else (if b < 59 then ([58, 127, 62, 76, 44, 65, 42]) else ([59, 63, 78, 79, 39, 45, 57]))
  }

  /** Rows 60 to 63 of BaseCellNeighbors. */
  function NeighborBlock60(b: int): (r: seq<int>)
    requires 60 <= b < 64
    ensures |r| == 7 && r[CENTER_DIGIT] == b
    ensures forall d | 0 <= d < 7 :: (r[d] == INVALID_BASE_CELL <==> IsBaseCellPentagonArr(b) && d == K_AXES_DIGIT)
    ensures forall d | 0 <= d < 7 :: r[d] == INVALID_BASE_CELL || 0 <= r[d] < NUM_BASE_CELLS
  {
    if b < 62 then (if b < 61 then ([60, 72, 68, 80, 40, 55, 46]) else ([61, 53, 49, 41, 81, 75, 66])) else (if b < 63 then ([62, 43, 58, 42, 82, 64, 76]) else ([63, 127, 56, 45, 79, 59, 77]))
  }

  /** Rows 64 to 67 of BaseCellNeighbors. */
  function NeighborBlock64(b: int): (r: seq<int>)
    requires 64 <= b < 68
    ensures |r| == 7 && r[CENTER_DIGIT] == b
    ensures forall d | 0 <= d < 7 :: (r[d] == INVALID_BASE_CELL <==> IsBaseCellPentagonArr(b) && d == K_AXES_DIGIT)
    ensures forall d | 0 <= d < 7 :: r[d] == INVALID_BASE_CELL || 0 <= r[d] < NUM_BASE_CELLS
  {
    if b < 66 then (if b < 65 then ([64, 47, 62, 43, 84, 69, 82]) else ([65, 58, 53, 44, 86, 76, 75])) else (if b < 67 then ([66, 67, 81, 85, 49, 48, 61]) else ([67, 66, 50, 48, 87, 85, 70]))
  }

  /** Rows 68 to 71 of BaseCellNeighbors. */
  function NeighborBlock68(b: int): (r: seq<int>)
    requires 68 <= b < 72
    ensures |r| == 7 && r[CENTER_DIGIT] == b
    ensures forall d | 0 <= d < 7 :: (r[d] == INVALID_BASE_CELL <==> IsBaseCellPentagonArr(b) && d == K_AXES_DIGIT)
    ensures forall d | 0 <= d < 7 :: r[d] == INVALID_BASE_CELL || 0 <= r[d] < NUM_BASE_CELLS
  {
    if b < 70 then (if b < 69 then ([68, 56, 60, 46, 90, 77, 80]) else ([69, 51, 64, 47, 89, 71, 84])) else (if b < 71 then ([70, 67, 52, 50, 83, 87, 74]) else ([71, 89, 73, 91, 51, 69, 54]))
  }

  /** Rows 72 to 75 of BaseCellNeighbors. */
  function NeighborBlock72(b: int): (r: seq<int>)
    requires 72 <= b < 76
    ensures |r| == 7 && r[CENTER_DIGIT] == b
    ensures forall d | 0 <= d < 7 :: (r[d] == INVALID_BASE_CELL <==> IsBaseCellPentagonArr(b) && d == K_AXES_DIGIT)
    ensures forall d | 0 <= d < 7 :: r[d] == INVALID_BASE_CELL || 0 <= r[d] < NUM_BASE_CELLS
  {
    if b < 74 then (if b < 73 then ([72, 127, 73, 55, 80, 60, 88]) else ([73, 91, 72, 88, 54, 71, 55])) else (if b < 75 then ([74, 78, 83, 92, 52, 57, 70]) else ([75, 65, 61, 53, 94, 86, 81]))
  }

  /** Rows 76 to 79 of BaseCellNeighbors. */
  function NeighborBlock76(b: int): (r: seq<int>)
    requires 76 <= b < 80
    ensures |r| == 7 && r[CENTER_DIGIT] == b
    ensures forall d | 0 <= d < 7 :: (r[d] == INVALID_BASE_CELL <==> IsBaseCellPentagonArr(b) && d == K_AXES_DIGIT)
    ensures forall d | 0 <= d < 7 :: r[d] == INVALID_BASE_CELL || 0 <= r[d] < NUM_BASE_CELLS
  {
    if b < 78 then (if b < 77 then ([76, 86, 82, 96, 58, 65, 62]) else ([77, 63, 68, 56, 93, 79, 90])) else (if b < 79 then ([78, 74, 59, 57, 95, 92, 79]) else ([79, 78, 63, 59, 93, 95, 77]))
  }

  /** Rows 80 to 83 of BaseCellNeighbors. */
  function NeighborBlock80(b: int): (r: seq<int>)
    requires 80 <= b < 84
    ensures |r| == 7 && r[CENTER_DIGIT] == b
    ensures forall d | 0 <= d < 7 :: (r[d] == INVALID_BASE_CELL <==> IsBaseCellPentagonArr(b) && d == K_AXES_DIGIT)
    ensures forall d | 0 <= d < 7 :: r[d] == INVALID_BASE_CELL || 0 <= r[d] < NUM_BASE_CELLS
  {
    if b < 82 then (if b < 81 then ([80, 68, 72, 60, 99, 90, 88]) else ([81, 85, 94, 101, 61, 66, 75])) else (if b < 83 then ([82, 96, 84, 98, 62, 76, 64]) else ([83, 127, 74, 70, 100, 87, 92]))
  }

  /** Rows 84 to 87 of BaseCellNeighbors. */
  function NeighborBlock84(b: int): (r: seq<int>)
    requires 84 <= b < 88
    ensures |r| == 7 && r[CENTER_DIGIT] == b
    ensures forall d | 0 <= d < 7 :: (r[d] == INVALID_BASE_CELL <==> IsBaseCellPentagonArr(b) && d == K_AXES_DIGIT)
    ensures forall d | 0 <= d < 7 :: r[d] == INVALID_BASE_CELL || 0 <= r[d] < NUM_BASE_CELLS
  {
    if b < 86 then (if b < 85 then ([84, 69, 82, 64, 97, 89, 98]) else ([85, 87, 101, 102, 66, 67, 81])) else (if b < 87 then ([86, 76, 75, 65, 104, 96, 94]) else ([87, 83, 102, 100, 67, 70, 85]))
  }

  /** Rows 88 to 91 of BaseCellNeighbors. */
  function NeighborBlock88(b: int): (r: seq<int>)
    requires 88 <= b < 92
    ensures |r| == 7 && r[CENTER_DIGIT] == b
    ensures forall d | 0 <= d < 7 :: (r[d] == INVALID_BASE_CELL <==> IsBaseCellPentagonArr(b) && d == K_AXES_DIGIT)
    ensures forall d | 0 <= d < 7 :: r[d] == INVALID_BASE_CELL || 0 <= r[d] < NUM_BASE_CELLS
  {
    if b < 90 then (if b < 89 then ([88, 72, 91, 73, 99, 80, 105]) else ([89, 97, 91, 103, 69, 84, 71])) else (if b < 91 then ([90, 77, 80, 68, 106, 93, 99]) else ([91, 73, 89, 71, 105, 88, 103]))
  }

  /** Rows 92 to 95 of BaseCellNeighbors. */
  function NeighborBlock92(b: int): (r: seq<int>)
    requires 92 <= b < 96
    ensures |r| == 7 && r[CENTER_DIGIT] == b
    ensures forall d | 0 <= d < 7 :: (r[d] == INVALID_BASE_CELL <==> IsBaseCellPentagonArr(b) && d == K_AXES_DIGIT)
    ensures forall d | 0 <= d < 7 :: r[d] == INVALID_BASE_CELL || 0 <= r[d] < NUM_BASE_CELLS
  {
    if b < 94 then (if b < 93 then ([92, 83, 78, 74, 108, 100, 95]) else ([93, 79, 90, 77, 109, 95, 106])) else (if b < 95 then ([94, 86, 81, 75, 107, 104, 101]) else ([95, 92, 79, 78, 109, 108, 93]))
  }

  /** Rows 96 to 99 of BaseCellNeighbors. */
  function NeighborBlock96(b: int): (r: seq<int>)
    requires 96 <= b < 100
    ensures |r| == 7 && r[CENTER_DIGIT] == b
    ensures forall d | 0 <= d < 7 :: (r[d] == INVALID_BASE_CELL <==> IsBaseCellPentagonArr(b) && d == K_AXES_DIGIT)
    ensures forall d | 0 <= d < 7 :: r[d] == INVALID_BASE_CELL || 0 <= r[d] < NUM_BASE_CELLS
  {
    if b < 98 then (if b < 97 then ([96, 104, 98, 110, 76, 86, 82]) else ([97, 127, 98, 84, 103, 89, 111])) else (if b < 99 then ([98, 110, 97, 111, 82, 96, 84]) else ([99, 80, 105, 88, 106, 90, 113]))
  }

  /** Rows 100 to 103 of BaseCellNeighbors. */
  function NeighborBlock100(b: int): (r: seq<int>)
    requires 100 <= b < 104
    ensures |r| == 7 && r[CENTER_DIGIT] == b
    ensures forall d | 0 <= d < 7 :: (r[d] == INVALID_BASE_CELL <==> IsBaseCellPentagonArr(b) && d == K_AXES_DIGIT)
    ensures forall d | 0 <= d < 7 :: r[d] == INVALID_BASE_CELL || 0 <= r[d] < NUM_BASE_CELLS
  {
    if b < 102 then (if b < 101 then ([100, 102, 83, 87, 108, 114, 92]) else ([101, 102, 107, 112, 81, 85, 94])) else (if b < 103 then ([102, 101, 87, 85, 114, 112, 100]) else ([103, 91, 97, 89, 116, 105, 111]))
  }

  /** Rows 104 to 107 of BaseCellNeighbors. */
  function NeighborBlock104(b: int): (r: seq<int>)
    requires 104 <= b < 108
    ensures |r| == 7 && r[CENTER_DIGIT] == b
    ensures forall d | 0 <= d < 7 :: (r[d] == INVALID_BASE_CELL <==> IsBaseCellPentagonArr(b) && d == K_AXES_DIGIT)
    ensures forall d | 0 <= d < 7 :: r[d] == INVALID_BASE_CELL || 0 <= r[d] < NUM_BASE_CELLS
  {
    if b < 106 then (if b < 105 then ([104, 107, 110, 115, 86, 94, 96]) else ([105, 88, 103, 91, 113, 99, 116])) else (if b < 107 then ([106, 93, 99, 90, 117, 109, 113]) else ([107, 127, 101, 94, 115, 104, 112]))
  }

  /** Rows 108 to 111 of BaseCellNeighbors. */
  function NeighborBlock108(b: int): (r: seq<int>)
    requires 108 <= b < 112
    ensures |r| == 7 && r[CENTER_DIGIT] == b
    ensures forall d | 0 <= d < 7 :: (r[d] == INVALID_BASE_CELL <==> IsBaseCellPentagonArr(b) && d == K_AXES_DIGIT)
    ensures forall d | 0 <= d < 7 :: r[d] == INVALID_BASE_CELL || 0 <= r[d] < NUM_BASE_CELLS
  {
    if b < 110 then (if b < 109 then ([108, 100, 95, 92, 118, 114, 109]) else ([109, 108, 93, 95, 117, 118, 106])) else (if b < 111 then ([110, 98, 104, 96, 119, 111, 115]) else ([111, 97, 110, 98, 116, 103, 119]))
  }

  /** Rows 112 to 115 of BaseCellNeighbors. */
  function NeighborBlock112(b: int): (r: seq<int>)
    requires 112 <= b < 116
    ensures |r| == 7 && r[CENTER_DIGIT] == b
    ensures forall d | 0 <= d < 7 :: (r[d] == INVALID_BASE_CELL <==> IsBaseCellPentagonArr(b) && d == K_AXES_DIGIT)
    ensures forall d | 0 <= d < 7 :: r[d] == INVALID_BASE_CELL || 0 <= r[d] < NUM_BASE_CELLS
  {
    if b < 114 then (if b < 113 then ([112, 107, 102, 101, 120, 115, 114]) else ([113, 99, 116, 105, 117, 106, 121])) else (if b < 115 then ([114, 112, 100, 102, 118, 120, 108]) else ([115, 110, 107, 104, 120, 119, 112]))
  }

  /** Rows 116 to 119 of BaseCellNeighbors. */
  function NeighborBlock116(b: int): (r: seq<int>)
    requires 116 <= b < 120
    ensures |r| == 7 && r[CENTER_DIGIT] == b
    ensures forall d | 0 <= d < 7 :: (r[d] == INVALID_BASE_CELL <==> IsBaseCellPentagonArr(b) && d == K_AXES_DIGIT)
    ensures forall d | 0 <= d < 7 :: r[d] == INVALID_BASE_CELL || 0 <= r[d] < NUM_BASE_CELLS
  {
    if b < 118 then (if b < 117 then ([116, 103, 119, 111, 113, 105, 121]) else ([117, 127, 109, 118, 113, 121, 106])) else (if b < 119 then ([118, 120, 108, 114, 117, 121, 109]) else ([119, 111, 115, 110, 121, 116, 120]))
  }

  /** Rows 120 to 121 of BaseCellNeighbors. */
  function NeighborBlock120(b: int): (r: seq<int>)
    requires 120 <= b < 122
    ensures |r| == 7 && r[CENTER_DIGIT] == b
    ensures forall d | 0 <= d < 7 :: (r[d] == INVALID_BASE_CELL <==> IsBaseCellPentagonArr(b) && d == K_AXES_DIGIT)
    ensures forall d | 0 <= d < 7 :: r[d] == INVALID_BASE_CELL || 0 <= r[d] < NUM_BASE_CELLS
  {
    if b < 121 then ([120, 115, 114, 112, 121, 119, 118]) else ([121, 116, 120, 119, 117, 113, 118])
  }

  /** baseCellNeighbors: the base cell in each of the seven directions from
      b; the center direction names b itself, and the K direction of a
      pentagon names INVALID_BASE_CELL, as no other entry does. */
  function BaseCellNeighbors(b: int): (r: seq<int>)
    requires 0 <= b < NUM_BASE_CELLS
    ensures |r| == 7 && r[CENTER_DIGIT] == b
    ensures forall d | 0 <= d < 7 :: (r[d] == INVALID_BASE_CELL <==> IsBaseCellPentagonArr(b) && d == K_AXES_DIGIT)
    ensures forall d | 0 <= d < 7 :: r[d] == INVALID_BASE_CELL || 0 <= r[d] < NUM_BASE_CELLS
  {
    if b < 60 then if b < 28 then if b < 12 then if b < 4 then NeighborBlock0(b) else if b < 8 then NeighborBlock4(b) else NeighborBlock8(b) else if b < 20 then if b < 16 then NeighborBlock12(b) else NeighborBlock16(b) else if b < 24 then NeighborBlock20(b) else NeighborBlock24(b) else if b < 44 then if b < 36 then if b < 32 then NeighborBlock28(b) else NeighborBlock32(b) else if b < 40 then NeighborBlock36(b) else NeighborBlock40(b) else if b < 52 then if b < 48 then NeighborBlock44(b) else NeighborBlock48(b) else if b < 56 then NeighborBlock52(b) else NeighborBlock56(b) else if b < 92 then if b < 76 then if b < 68 then if b < 64 then NeighborBlock60(b) else NeighborBlock64(b) else if b < 72 then NeighborBlock68(b) else NeighborBlock72(b) else if b < 84 then if b < 80 then NeighborBlock76(b) else NeighborBlock80(b) else if b < 88 then NeighborBlock84(b) else NeighborBlock88(b) else if b < 108 then if b < 100 then if b < 96 then NeighborBlock92(b) else NeighborBlock96(b) else if b < 104 then NeighborBlock100(b) else NeighborBlock104(b) else if b < 116 then if b < 112 then NeighborBlock108(b) else NeighborBlock112(b) else if b < 120 then NeighborBlock116(b) else NeighborBlock120(b)
  }

  /** Rows 0 to 3 of BaseCellNeighbor60CCWRots. */
  function RotationBlock0(b: int): (r: seq<int>)
    requires 0 <= b < 4
    ensures |r| == 7 && r[CENTER_DIGIT] == 0
    ensures forall d | 0 <= d < 7 :: (r[d] == INVALID_ROTATIONS <==> IsBaseCellPentagonArr(b) && d == K_AXES_DIGIT)
    ensures forall d | 0 <= d < 7 :: INVALID_ROTATIONS <= r[d] < 6
  {
    if b < 2 then (if b < 1 then ([0, 5, 0, 0, 1, 5, 1]) else ([0, 0, 1, 0, 1, 0, 1])) else (if b < 3 then ([0, 0, 0, 0, 0, 5, 0]) else ([0, 5, 0, 0, 2, 5, 1]))
  }

  /** Rows 4 to 7 of BaseCellNeighbor60CCWRots. */
  function RotationBlock4(b: int): (r: seq<int>)
    requires 4 <= b < 8
    ensures |r| == 7 && r[CENTER_DIGIT] == 0
    ensures forall d | 0 <= d < 7 :: (r[d] == INVALID_ROTATIONS <==> IsBaseCellPentagonArr(b) && d == K_AXES_DIGIT)
    ensures forall d | 0 <= d < 7 :: INVALID_ROTATIONS <= r[d] < 6
  {
    if b < 6 then (if b < 5 then ([0, -1, 1, 0, 3, 4, 2]) else ([0, 0, 1, 0, 1, 0, 1])) else (if b < 7 then ([0, 0, 0, 3, 5, 5, 0]) else ([0, 0, 0, 0, 0, 5, 0]))
  }

  /** Rows 8 to 11 of BaseCellNeighbor60CCWRots. */
  function RotationBlock8(b: int): (r: seq<int>)
    requires 8 <= b < 12
    ensures |r| == 7 && r[CENTER_DIGIT] == 0
    ensures forall d | 0 <= d < 7 :: (r[d] == INVALID_ROTATIONS <==> IsBaseCellPentagonArr(b) && d == K_AXES_DIGIT)
    ensures forall d | 0 <= d < 7 :: INVALID_ROTATIONS <= r[d] < 6
  {
    if b < 10 then (if b < 9 then ([0, 5, 0, 0, 0, 5, 1]) else ([0, 0, 1, 3, 0, 0, 1])) else (if b < 11 then ([0, 0, 1, 3, 0, 0, 1]) else ([0, 3, 3, 3, 0, 0, 0]))
  }

  /** Rows 12 to 15 of BaseCellNeighbor60CCWRots. */
  function RotationBlock12(b: int): (r: seq<int>)
    requires 12 <= b < 16
    ensures |r| == 7 && r[CENTER_DIGIT] == 0
    ensures forall d | 0 <= d < 7 :: (r[d] == INVALID_ROTATIONS <==> IsBaseCellPentagonArr(b) && d == K_AXES_DIGIT)
    ensures forall d | 0 <= d < 7 :: INVALID_ROTATIONS <= r[d] < 6
  {
    if b < 14 then (if b < 13 then ([0, 5, 0, 0, 3, 5, 1]) else ([0, 0, 1, 0, 1, 0, 1])) else (if b < 15 then ([0, -1, 3, 0, 5, 2, 0]) else ([0, 5, 0, 0, 4, 5, 1]))
  }

  /** Rows 16 to 19 of BaseCellNeighbor60CCWRots. */
  function RotationBlock16(b: int): (r: seq<int>)
    requires 16 <= b < 20
    ensures |r| == 7 && r[CENTER_DIGIT] == 0
    ensures forall d | 0 <= d < 7 :: (r[d] == INVALID_ROTATIONS <==> IsBaseCellPentagonArr(b) && d == K_AXES_DIGIT)
    ensures forall d | 0 <= d < 7 :: INVALID_ROTATIONS <= r[d] < 6
  {
    if b < 18 then (if b < 17 then ([0, 0, 0, 0, 0, 5, 0]) else ([0, 3, 3, 3, 3, 0, 3])) else (if b < 19 then ([0, 0, 0, 3, 5, 5, 0]) else ([0, 3, 3, 3, 0, 0, 0]))
  }

  /** Rows 20 to 23 of BaseCellNeighbor60CCWRots. */
  function RotationBlock20(b: int): (r: seq<int>)
    requires 20 <= b < 24
    ensures |r| == 7 && r[CENTER_DIGIT] == 0
    ensures forall d | 0 <= d < 7 :: (r[d] == INVALID_ROTATIONS <==> IsBaseCellPentagonArr(b) && d == K_AXES_DIGIT)
    ensures forall d | 0 <= d < 7 :: INVALID_ROTATIONS <= r[d] < 6
  {
    if b < 22 then (if b < 21 then ([0, 3, 3, 3, 0, 3, 0]) else ([0, 0, 0, 3, 5, 5, 0])) else (if b < 23 then ([0, 0, 1, 0, 1, 0, 1]) else ([0, 3, 3, 3, 0, 3, 0]))
  }

  /** Rows 24 to 27 of BaseCellNeighbor60CCWRots. */
  function RotationBlock24(b: int): (r: seq<int>)
    requires 24 <= b < 28
    ensures |r| == 7 && r[CENTER_DIGIT] == 0
    ensures forall d | 0 <= d < 7 :: (r[d] == INVALID_ROTATIONS <==> IsBaseCellPentagonArr(b) && d == K_AXES_DIGIT)
    ensures forall d | 0 <= d < 7 :: INVALID_ROTATIONS <= r[d] < 6
  {
    if b < 26 then (if b < 25 then ([0, -1, 3, 0, 5, 2, 0]) else ([0, 0, 0, 3, 0, 0, 3])) else (if b < 27 then ([0, 0, 0, 0, 0, 5, 0]) else ([0, 3, 0, 0, 0, 3, 3]))
  }

  /** Rows 28 to 31 of BaseCellNeighbor60CCWRots. */
  function RotationBlock28(b: int): (r: seq<int>)
    requires 28 <= b < 32
    ensures |r| == 7 && r[CENTER_DIGIT] == 0
    ensures forall d | 0 <= d < 7 :: (r[d] == INVALID_ROTATIONS <==> IsBaseCellPentagonArr(b) && d == K_AXES_DIGIT)
    ensures forall d | 0 <= d < 7 :: INVALID_ROTATIONS <= r[d] < 6
  {
    if b < 30 then (if b < 29 then ([0, 0, 1, 0, 1, 0, 1]) else ([0, 0, 1, 3, 0, 0, 1])) else (if b < 31 then ([0, 3, 3, 3, 0, 0, 0]) else ([0, 0, 0, 0, 0, 5, 0]))
  }

  /** Rows 32 to 35 of BaseCellNeighbor60CCWRots. */
  function RotationBlock32(b: int): (r: seq<int>)
    requires 32 <= b < 36
    ensures |r| == 7 && r[CENTER_DIGIT] == 0
    ensures forall d | 0 <= d < 7 :: (r[d] == INVALID_ROTATIONS <==> IsBaseCellPentagonArr(b) && d == K_AXES_DIGIT)
    ensures forall d | 0 <= d < 7 :: INVALID_ROTATIONS <= r[d] < 6
  {
    if b < 34 then (if b < 33 then ([0, 3, 3, 3, 3, 0, 3]) else ([0, 0, 1, 3, 0, 0, 1])) else (if b < 35 then ([0, 3, 3, 3, 3, 0, 3]) else ([0, 0, 3, 0, 3, 0, 3]))
  }

  /** Rows 36 to 39 of BaseCellNeighbor60CCWRots. */
  function RotationBlock36(b: int): (r: seq<int>)
    requires 36 <= b < 40
    ensures |r| == 7 && r[CENTER_DIGIT] == 0
    ensures forall d | 0 <= d < 7 :: (r[d] == INVALID_ROTATIONS <==> IsBaseCellPentagonArr(b) && d == K_AXES_DIGIT)
    ensures forall d | 0 <= d < 7 :: INVALID_ROTATIONS <= r[d] < 6
  {
    if b < 38 then (if b < 37 then ([0, 0, 0, 3, 0, 0, 3]) else ([0, 3, 0, 0, 0, 3, 3])) else (if b < 39 then ([0, -1, 3, 0, 5, 2, 0]) else ([0, 3, 0, 0, 3, 3, 0]))
  }

  /** Rows 40 to 43 of BaseCellNeighbor60CCWRots. */
  function RotationBlock40(b: int): (r: seq<int>)
    requires 40 <= b < 44
    ensures |r| == 7 && r[CENTER_DIGIT] == 0
    ensures forall d | 0 <= d < 7 :: (r[d] == INVALID_ROTATIONS <==> IsBaseCellPentagonArr(b) && d == K_AXES_DIGIT)
    ensures forall d | 0 <= d < 7 :: INVALID_ROTATIONS <= r[d] < 6
  {
    if b < 42 then (if b < 41 then ([0, 3, 0, 0, 3, 3, 0]) else ([0, 0, 0, 3, 5, 5, 0])) else (if b < 43 then ([0, 0, 0, 3, 5, 5, 0]) else ([0, 3, 3, 3, 0, 0, 0]))
  }

  /** Rows 44 to 47 of BaseCellNeighbor60CCWRots. */
  function RotationBlock44(b: int): (r: seq<int>)
    requires 44 <= b < 48
    ensures |r| == 7 && r[CENTER_DIGIT] == 0
    ensures forall d | 0 <= d < 7 :: (r[d] == INVALID_ROTATIONS <==> IsBaseCellPentagonArr(b) && d == K_AXES_DIGIT)
    ensures forall d | 0 <= d < 7 :: INVALID_ROTATIONS <= r[d] < 6
  {
    if b < 46 then (if b < 45 then ([0, 0, 1, 3, 0, 0, 1]) else ([0, 0, 3, 0, 0, 3, 3])) else (if b < 47 then ([0, 0, 0, 3, 0, 3, 0]) else ([0, 3, 3, 3, 0, 3, 0]))
  }

  /** Rows 48 to 51 of BaseCellNeighbor60CCWRots. */
  function RotationBlock48(b: int): (r: seq<int>)
    requires 48 <= b < 52
    ensures |r| == 7 && r[CENTER_DIGIT] == 0
    ensures forall d | 0 <= d < 7 :: (r[d] == INVALID_ROTATIONS <==> IsBaseCellPentagonArr(b) && d == K_AXES_DIGIT)
    ensures forall d | 0 <= d < 7 :: INVALID_ROTATIONS <= r[d] < 6
  {
    if b < 50 then (if b < 49 then ([0, 3, 3, 3, 0, 3, 0]) else ([0, -1, 3, 0, 5, 2, 0])) else (if b < 51 then ([0, 0, 0, 3, 0, 0, 3]) else ([0, 3, 0, 0, 0, 3, 3]))
  }

  /** Rows 52 to 55 of BaseCellNeighbor60CCWRots. */
  function RotationBlock52(b: int): (r: seq<int>)
    requires 52 <= b < 56
    ensures |r| == 7 && r[CENTER_DIGIT] == 0
    ensures forall d | 0 <= d < 7 :: (r[d] == INVALID_ROTATIONS <==> IsBaseCellPentagonArr(b) && d == K_AXES_DIGIT)
    ensures forall d | 0 <= d < 7 :: INVALID_ROTATIONS <= r[d] < 6
  {
    if b < 54 then (if b < 53 then ([0, 0, 3, 0, 3, 0, 3]) else ([0, 3, 3, 3, 0, 0, 0])) else (if b < 55 then ([0, 0, 3, 0, 3, 0, 3]) else ([0, 0, 3, 0, 0, 3, 3]))
  }

  /** Rows 56 to 59 of BaseCellNeighbor60CCWRots. */
  function RotationBlock56(b: int): (r: seq<int>)
    requires 56 <= b < 60
    ensures |r| == 7 && r[CENTER_DIGIT] == 0
    ensures forall d | 0 <= d < 7 :: (r[d] == INVALID_ROTATIONS <==> IsBaseCellPentagonArr(b) && d == K_AXES_DIGIT)
    ensures forall d | 0 <= d < 7 :: INVALID_ROTATIONS <= r[d] < 6
  {
    if b < 58 then (if b < 57 then ([0, 3, 3, 3, 0, 0, 3]) else ([0, 0, 0, 3, 0, 3, 0])) else (if b < 59 then ([0, -1, 3, 0, 5, 2, 0]) else ([0, 3, 3, 3, 3, 3, 0]))
  }

  /** Rows 60 to 63 of BaseCellNeighbor60CCWRots. */
  function RotationBlock60(b: int): (r: seq<int>)
    requires 60 <= b < 64
    ensures |r| == 7 && r[CENTER_DIGIT] == 0
    ensures forall d | 0 <= d < 7 :: (r[d] == INVALID_ROTATIONS <==> IsBaseCellPentagonArr(b) && d == K_AXES_DIGIT)
    ensures forall d | 0 <= d < 7 :: INVALID_ROTATIONS <= r[d] < 6
  {
    if b < 62 then (if b < 61 then ([0, 3, 3, 3, 3, 3, 0]) else ([0, 3, 3, 3, 3, 0, 3])) else (if b < 63 then ([0, 3, 3, 3, 3, 0, 3]) else ([0, -1, 3, 0, 5, 2, 0]))
  }

  /** Rows 64 to 67 of BaseCellNeighbor60CCWRots. */
  function RotationBlock64(b: int): (r: seq<int>)
    requires 64 <= b < 68
    ensures |r| == 7 && r[CENTER_DIGIT] == 0
    ensures forall d | 0 <= d < 7 :: (r[d] == INVALID_ROTATIONS <==> IsBaseCellPentagonArr(b) && d == K_AXES_DIGIT)
    ensures forall d | 0 <= d < 7 :: INVALID_ROTATIONS <= r[d] < 6
  {
    if b < 66 then (if b < 65 then ([0, 0, 0, 3, 0, 0, 3]) else ([0, 3, 3, 3, 0, 3, 0])) else (if b < 67 then ([0, 3, 0, 0, 0, 3, 3]) else ([0, 3, 0, 0, 3, 3, 0]))
  }

  /** Rows 68 to 71 of BaseCellNeighbor60CCWRots. */
  function RotationBlock68(b: int): (r: seq<int>)
    requires 68 <= b < 72
    ensures |r| == 7 && r[CENTER_DIGIT] == 0
    ensures forall d | 0 <= d < 7 :: (r[d] == INVALID_ROTATIONS <==> IsBaseCellPentagonArr(b) && d == K_AXES_DIGIT)
    ensures forall d | 0 <= d < 7 :: INVALID_ROTATIONS <= r[d] < 6
  {
    if b < 70 then (if b < 69 then ([0, 3, 3, 3, 0, 0, 0]) else ([0, 3, 0, 0, 3, 3, 0])) else (if b < 71 then ([0, 0, 3, 0, 0, 3, 3]) else ([0, 0, 0, 3, 0, 3, 0]))
  }

  /** Rows 72 to 75 of BaseCellNeighbor60CCWRots. */
  function RotationBlock72(b: int): (r: seq<int>)
    requires 72 <= b < 76
    ensures |r| == 7 && r[CENTER_DIGIT] == 0
    ensures forall d | 0 <= d < 7 :: (r[d] == INVALID_ROTATIONS <==> IsBaseCellPentagonArr(b) && d == K_AXES_DIGIT)
    ensures forall d | 0 <= d < 7 :: INVALID_ROTATIONS <= r[d] < 6
  {
    if b < 74 then (if b < 73 then ([0, -1, 3, 0, 5, 2, 0]) else ([0, 3, 3, 3, 0, 0, 3])) else (if b < 75 then ([0, 3, 3, 3, 0, 0, 3]) else ([0, 0, 0, 3, 0, 0, 3]))
  }

  /** Rows 76 to 79 of BaseCellNeighbor60CCWRots. */
  function RotationBlock76(b: int): (r: seq<int>)
    requires 76 <= b < 80
    ensures |r| == 7 && r[CENTER_DIGIT] == 0
    ensures forall d | 0 <= d < 7 :: (r[d] == INVALID_ROTATIONS <==> IsBaseCellPentagonArr(b) && d == K_AXES_DIGIT)
    ensures forall d | 0 <= d < 7 :: INVALID_ROTATIONS <= r[d] < 6
  {
    if b < 78 then (if b < 77 then ([0, 3, 0, 0, 0, 3, 3]) else ([0, 0, 0, 3, 0, 5, 0])) else (if b < 79 then ([0, 3, 3, 3, 0, 0, 0]) else ([0, 0, 1, 3, 1, 0, 1]))
  }

  /** Rows 80 to 83 of BaseCellNeighbor60CCWRots. */
  function RotationBlock80(b: int): (r: seq<int>)
    requires 80 <= b < 84
    ensures |r| == 7 && r[CENTER_DIGIT] == 0
    ensures forall d | 0 <= d < 7 :: (r[d] == INVALID_ROTATIONS <==> IsBaseCellPentagonArr(b) && d == K_AXES_DIGIT)
    ensures forall d | 0 <= d < 7 :: INVALID_ROTATIONS <= r[d] < 6
  {
    if b < 82 then (if b < 81 then ([0, 0, 1, 3, 1, 0, 1]) else ([0, 0, 3, 0, 3, 0, 3])) else (if b < 83 then ([0, 0, 3, 0, 3, 0, 3]) else ([0, -1, 3, 0, 5, 2, 0]))
  }

  /** Rows 84 to 87 of BaseCellNeighbor60CCWRots. */
  function RotationBlock84(b: int): (r: seq<int>)
    requires 84 <= b < 88
    ensures |r| == 7 && r[CENTER_DIGIT] == 0
    ensures forall d | 0 <= d < 7 :: (r[d] == INVALID_ROTATIONS <==> IsBaseCellPentagonArr(b) && d == K_AXES_DIGIT)
    ensures forall d | 0 <= d < 7 :: INVALID_ROTATIONS <= r[d] < 6
  {
    if b < 86 then (if b < 85 then ([0, 0, 3, 0, 0, 3, 3]) else ([0, 0, 0, 3, 0, 3, 0])) else (if b < 87 then ([0, 3, 0, 0, 3, 3, 0]) else ([0, 3, 3, 3, 3, 3, 0]))
  }

  /** Rows 88 to 91 of BaseCellNeighbor60CCWRots. */
  function RotationBlock88(b: int): (r: seq<int>)
    requires 88 <= b < 92
    ensures |r| == 7 && r[CENTER_DIGIT] == 0
    ensures forall d | 0 <= d < 7 :: (r[d] == INVALID_ROTATIONS <==> IsBaseCellPentagonArr(b) && d == K_AXES_DIGIT)
    ensures forall d | 0 <= d < 7 :: INVALID_ROTATIONS <= r[d] < 6
  {
    if b < 90 then (if b < 89 then ([0, 0, 0, 3, 0, 5, 0]) else ([0, 3, 3, 3, 3, 3, 0])) else (if b < 91 then ([0, 0, 0, 0, 0, 0, 1]) else ([0, 3, 3, 3, 0, 0, 0]))
  }

  /** Rows 92 to 95 of BaseCellNeighbor60CCWRots. */
  function RotationBlock92(b: int): (r: seq<int>)
    requires 92 <= b < 96
    ensures |r| == 7 && r[CENTER_DIGIT] == 0
    ensures forall d | 0 <= d < 7 :: (r[d] == INVALID_ROTATIONS <==> IsBaseCellPentagonArr(b) && d == K_AXES_DIGIT)
    ensures forall d | 0 <= d < 7 :: INVALID_ROTATIONS <= r[d] < 6
  {
    if b < 94 then (if b < 93 then ([0, 0, 0, 3, 0, 5, 0]) else ([0, 5, 0, 0, 5, 5, 0])) else (if b < 95 then ([0, 0, 3, 0, 0, 3, 3]) else ([0, 0, 0, 0, 0, 0, 1]))
  }

  /** Rows 96 to 99 of BaseCellNeighbor60CCWRots. */
  function RotationBlock96(b: int): (r: seq<int>)
    requires 96 <= b < 100
    ensures |r| == 7 && r[CENTER_DIGIT] == 0
    ensures forall d | 0 <= d < 7 :: (r[d] == INVALID_ROTATIONS <==> IsBaseCellPentagonArr(b) && d == K_AXES_DIGIT)
    ensures forall d | 0 <= d < 7 :: INVALID_ROTATIONS <= r[d] < 6
  {
    if b < 98 then (if b < 97 then ([0, 0, 0, 3, 0, 3, 0]) else ([0, -1, 3, 0, 5, 2, 0])) else (if b < 99 then ([0, 3, 3, 3, 0, 0, 3]) else ([0, 5, 0, 0, 5, 5, 0]))
  }

  /** Rows 100 to 103 of BaseCellNeighbor60CCWRots. */
  function RotationBlock100(b: int): (r: seq<int>)
    requires 100 <= b < 104
    ensures |r| == 7 && r[CENTER_DIGIT] == 0
    ensures forall d | 0 <= d < 7 :: (r[d] == INVALID_ROTATIONS <==> IsBaseCellPentagonArr(b) && d == K_AXES_DIGIT)
    ensures forall d | 0 <= d < 7 :: INVALID_ROTATIONS <= r[d] < 6
  {
    if b < 102 then (if b < 101 then ([0, 0, 1, 3, 1, 0, 1]) else ([0, 3, 3, 3, 0, 0, 3])) else (if b < 103 then ([0, 3, 3, 3, 0, 0, 0]) else ([0, 0, 1, 3, 1, 0, 1]))
  }

  /** Rows 104 to 107 of BaseCellNeighbor60CCWRots. */
  function RotationBlock104(b: int): (r: seq<int>)
    requires 104 <= b < 108
    ensures |r| == 7 && r[CENTER_DIGIT] == 0
    ensures forall d | 0 <= d < 7 :: (r[d] == INVALID_ROTATIONS <==> IsBaseCellPentagonArr(b) && d == K_AXES_DIGIT)
    ensures forall d | 0 <= d < 7 :: INVALID_ROTATIONS <= r[d] < 6
  {
    if b < 106 then (if b < 105 then ([0, 3, 3, 3, 3, 3, 0]) else ([0, 0, 0, 0, 0, 0, 1])) else (if b < 107 then ([0, 0, 1, 0, 3, 5, 1]) else ([0, -1, 3, 0, 5, 2, 0]))
  }

  /** Rows 108 to 111 of BaseCellNeighbor60CCWRots. */
  function RotationBlock108(b: int): (r: seq<int>)
    requires 108 <= b < 112
    ensures |r| == 7 && r[CENTER_DIGIT] == 0
    ensures forall d | 0 <= d < 7 :: (r[d] == INVALID_ROTATIONS <==> IsBaseCellPentagonArr(b) && d == K_AXES_DIGIT)
    ensures forall d | 0 <= d < 7 :: INVALID_ROTATIONS <= r[d] < 6
  {
    if b < 110 then (if b < 109 then ([0, 5, 0, 0, 5, 5, 0]) else ([0, 0, 1, 0, 4, 5, 1])) else (if b < 111 then ([0, 3, 3, 3, 0, 0, 0]) else ([0, 0, 0, 3, 0, 5, 0]))
  }

  /** Rows 112 to 115 of BaseCellNeighbor60CCWRots. */
  function RotationBlock112(b: int): (r: seq<int>)
    requires 112 <= b < 116
    ensures |r| == 7 && r[CENTER_DIGIT] == 0
    ensures forall d | 0 <= d < 7 :: (r[d] == INVALID_ROTATIONS <==> IsBaseCellPentagonArr(b) && d == K_AXES_DIGIT)
    ensures forall d | 0 <= d < 7 :: INVALID_ROTATIONS <= r[d] < 6
  {
    if b < 114 then (if b < 113 then ([0, 0, 0, 3, 0, 5, 0]) else ([0, 0, 1, 0, 2, 5, 1])) else (if b < 115 then ([0, 0, 0, 0, 0, 0, 1]) else ([0, 0, 1, 3, 1, 0, 1]))
  }

  /** Rows 116 to 119 of BaseCellNeighbor60CCWRots. */
  function RotationBlock116(b: int): (r: seq<int>)
    requires 116 <= b < 120
    ensures |r| == 7 && r[CENTER_DIGIT] == 0
    ensures forall d | 0 <= d < 7 :: (r[d] == INVALID_ROTATIONS <==> IsBaseCellPentagonArr(b) && d == K_AXES_DIGIT)
    ensures forall d | 0 <= d < 7 :: INVALID_ROTATIONS <= r[d] < 6
  {
    if b < 118 then (if b < 117 then ([0, 5, 0, 0, 5, 5, 0]) else ([0, -1, 1, 0, 3, 4, 2])) else (if b < 119 then ([0, 0, 1, 0, 0, 5, 1]) else ([0, 0, 0, 0, 0, 0, 1]))
  }

  /** Rows 120 to 121 of BaseCellNeighbor60CCWRots. */
  function RotationBlock120(b: int): (r: seq<int>)
    requires 120 <= b < 122
    ensures |r| == 7 && r[CENTER_DIGIT] == 0
    ensures forall d | 0 <= d < 7 :: (r[d] == INVALID_ROTATIONS <==> IsBaseCellPentagonArr(b) && d == K_AXES_DIGIT)
    ensures forall d | 0 <= d < 7 :: INVALID_ROTATIONS <= r[d] < 6
  {
    if b < 121 then ([0, 5, 0, 0, 5, 5, 0]) else ([0, 0, 1, 0, 1, 5, 1])
  }

  /** baseCellNeighbor60CCWRots: the 60 degree counterclockwise rotations
      into the coordinate system of each neighbor of b, a count in 0..5, or
      INVALID_ROTATIONS exactly where baseCellNeighbors has no neighbor. */
  function BaseCellNeighbor60CCWRots(b: int): (r: seq<int>)
    requires 0 <= b < NUM_BASE_CELLS
    ensures |r| == 7 && r[CENTER_DIGIT] == 0
    ensures forall d | 0 <= d < 7 :: (r[d] == INVALID_ROTATIONS <==> IsBaseCellPentagonArr(b) && d == K_AXES_DIGIT)
    ensures forall d | 0 <= d < 7 :: INVALID_ROTATIONS <= r[d] < 6
  {
    if b < 60 then if b < 28 then if b < 12 then if b < 4 then RotationBlock0(b) else if b < 8 then RotationBlock4(b) else RotationBlock8(b) else if b < 20 then if b < 16 then RotationBlock12(b) else RotationBlock16(b) else if b < 24 then RotationBlock20(b) else RotationBlock24(b) else if b < 44 then if b < 36 then if b < 32 then RotationBlock28(b) else RotationBlock32(b) else if b < 40 then RotationBlock36(b) else RotationBlock40(b) else if b < 52 then if b < 48 then RotationBlock44(b) else RotationBlock48(b) else if b < 56 then RotationBlock52(b) else RotationBlock56(b) else if b < 92 then if b < 76 then if b < 68 then if b < 64 then RotationBlock60(b) else RotationBlock64(b) else if b < 72 then RotationBlock68(b) else RotationBlock72(b) else if b < 84 then if b < 80 then RotationBlock76(b) else RotationBlock80(b) else if b < 88 then RotationBlock84(b) else RotationBlock88(b) else if b < 108 then if b < 100 then if b < 96 then RotationBlock92(b) else RotationBlock96(b) else if b < 104 then RotationBlock100(b) else RotationBlock104(b) else if b < 116 then if b < 112 then RotationBlock108(b) else RotationBlock112(b) else if b < 120 then RotationBlock116(b) else RotationBlock120(b)
  }

  /** Rows 0 to 1 of FaceIjkBaseCells. */
  function FaceBlock0(f: int): (r: seq<seq<seq<BaseCellRotation>>>)
    requires 0 <= f < 2
    ensures IsFaceRow(r)
  {
    if f < 1 then ([[[BaseCellRotation(16, 0), BaseCellRotation(18, 0), BaseCellRotation(24, 0)], [BaseCellRotation(33, 0), BaseCellRotation(30, 0), BaseCellRotation(32, 3)], [BaseCellRotation(49, 1), BaseCellRotation(48, 3), BaseCellRotation(50, 3)]], [[BaseCellRotation(8, 0), BaseCellRotation(5, 5), BaseCellRotation(10, 5)], [BaseCellRotation(22, 0), BaseCellRotation(16, 0), BaseCellRotation(18, 0)], [BaseCellRotation(41, 1), BaseCellRotation(33, 0), BaseCellRotation(30, 0)]], [[BaseCellRotation(4, 0), BaseCellRotation(0, 5), BaseCellRotation(2, 5)], [BaseCellRotation(15, 1), BaseCellRotation(8, 0), BaseCellRotation(5, 5)], [BaseCellRotation(31, 1), BaseCellRotation(22, 0), BaseCellRotation(16, 0)]]]) else ([[[BaseCellRotation(2, 0), BaseCellRotation(6, 0), BaseCellRotation(14, 0)], [BaseCellRotation(10, 0), BaseCellRotation(11, 0), BaseCellRotation(17, 3)], [BaseCellRotation(24, 1), BaseCellRotation(23, 3), BaseCellRotation(25, 3)]], [[BaseCellRotation(0, 0), BaseCellRotation(1, 5), BaseCellRotation(9, 5)], [BaseCellRotation(5, 0), BaseCellRotation(2, 0), BaseCellRotation(6, 0)], [BaseCellRotation(18, 1), BaseCellRotation(10, 0), BaseCellRotation(11, 0)]], [[BaseCellRotation(4, 1), BaseCellRotation(3, 5), BaseCellRotation(7, 5)], [BaseCellRotation(8, 1), BaseCellRotation(0, 0), BaseCellRotation(1, 5)], [BaseCellRotation(16, 1), BaseCellRotation(5, 0), BaseCellRotation(2, 0)]]])
  }

  /** Rows 2 to 3 of FaceIjkBaseCells. */
  function FaceBlock2(f: int): (r: seq<seq<seq<BaseCellRotation>>>)
    requires 2 <= f < 4
    ensures IsFaceRow(r)
  {
    if f < 3 then ([[[BaseCellRotation(7, 0), BaseCellRotation(21, 0), BaseCellRotation(38, 0)], [BaseCellRotation(9, 0), BaseCellRotation(19, 0), BaseCellRotation(34, 3)], [BaseCellRotation(14, 1), BaseCellRotation(20, 3), BaseCellRotation(36, 3)]], [[BaseCellRotation(3, 0), BaseCellRotation(13, 5), BaseCellRotation(29, 5)], [BaseCellRotation(1, 0), BaseCellRotation(7, 0), BaseCellRotation(21, 0)], [BaseCellRotation(6, 1), BaseCellRotation(9, 0), BaseCellRotation(19, 0)]], [[BaseCellRotation(4, 2), BaseCellRotation(12, 5), BaseCellRotation(26, 5)], [BaseCellRotation(0, 1), BaseCellRotation(3, 0), BaseCellRotation(13, 5)], [BaseCellRotation(2, 1), BaseCellRotation(1, 0), BaseCellRotation(7, 0)]]]) else ([[[BaseCellRotation(26, 0), BaseCellRotation(42, 0), BaseCellRotation(58, 0)], [BaseCellRotation(29, 0), BaseCellRotation(43, 0), BaseCellRotation(62, 3)], [BaseCellRotation(38, 1), BaseCellRotation(47, 3), BaseCellRotation(64, 3)]], [[BaseCellRotation(12, 0), BaseCellRotation(28, 5), BaseCellRotation(44, 5)], [BaseCellRotation(13, 0), BaseCellRotation(26, 0), BaseCellRotation(42, 0)], [BaseCellRotation(21, 1), BaseCellRotation(29, 0), BaseCellRotation(43, 0)]], [[BaseCellRotation(4, 3), BaseCellRotation(15, 5), BaseCellRotation(31, 5)], [BaseCellRotation(3, 1), BaseCellRotation(12, 0), BaseCellRotation(28, 5)], [BaseCellRotation(7, 1), BaseCellRotation(13, 0), BaseCellRotation(26, 0)]]])
  }

  /** Rows 4 to 5 of FaceIjkBaseCells. */
  function FaceBlock4(f: int): (r: seq<seq<seq<BaseCellRotation>>>)
    requires 4 <= f < 6
    ensures IsFaceRow(r)
  {
    if f < 5 then ([[[BaseCellRotation(31, 0), BaseCellRotation(41, 0), BaseCellRotation(49, 0)], [BaseCellRotation(44, 0), BaseCellRotation(53, 0), BaseCellRotation(61, 3)], [BaseCellRotation(58, 1), BaseCellRotation(65, 3), BaseCellRotation(75, 3)]], [[BaseCellRotation(15, 0), BaseCellRotation(22, 5), BaseCellRotation(33, 5)], [BaseCellRotation(28, 0), BaseCellRotation(31, 0), BaseCellRotation(41, 0)], [BaseCellRotation(42, 1), BaseCellRotation(44, 0), BaseCellRotation(53, 0)]], [[BaseCellRotation(4, 4), BaseCellRotation(8, 5), BaseCellRotation(16, 5)], [BaseCellRotation(12, 1), BaseCellRotation(15, 0), BaseCellRotation(22, 5)], [BaseCellRotation(26, 1), BaseCellRotation(28, 0), BaseCellRotation(31, 0)]]]) else ([[[BaseCellRotation(50, 0), BaseCellRotation(48, 0), BaseCellRotation(49, 3)], [BaseCellRotation(32, 0), BaseCellRotation(30, 3), BaseCellRotation(33, 3)], [BaseCellRotation(24, 3), BaseCellRotation(18, 3), BaseCellRotation(16, 3)]], [[BaseCellRotation(70, 0), BaseCellRotation(67, 0), BaseCellRotation(66, 3)], [BaseCellRotation(52, 3), BaseCellRotation(50, 0), BaseCellRotation(48, 0)], [BaseCellRotation(37, 3), BaseCellRotation(32, 0), BaseCellRotation(30, 3)]], [[BaseCellRotation(83, 0), BaseCellRotation(87, 3), BaseCellRotation(85, 3)], [BaseCellRotation(74, 3), BaseCellRotation(70, 0), BaseCellRotation(67, 0)], [BaseCellRotation(57, 1), BaseCellRotation(52, 3), BaseCellRotation(50, 0)]]])
  }

  /** Rows 6 to 7 of FaceIjkBaseCells. */
  function FaceBlock6(f: int): (r: seq<seq<seq<BaseCellRotation>>>)
    requires 6 <= f < 8
    ensures IsFaceRow(r)
  {
    if f < 7 then ([[[BaseCellRotation(25, 0), BaseCellRotation(23, 0), BaseCellRotation(24, 3)], [BaseCellRotation(17, 0), BaseCellRotation(11, 3), BaseCellRotation(10, 3)], [BaseCellRotation(14, 3), BaseCellRotation(6, 3), BaseCellRotation(2, 3)]], [[BaseCellRotation(45, 0), BaseCellRotation(39, 0), BaseCellRotation(37, 3)], [BaseCellRotation(35, 3), BaseCellRotation(25, 0), BaseCellRotation(23, 0)], [BaseCellRotation(27, 3), BaseCellRotation(17, 0), BaseCellRotation(11, 3)]], [[BaseCellRotation(63, 0), BaseCellRotation(59, 3), BaseCellRotation(57, 3)], [BaseCellRotation(56, 3), BaseCellRotation(45, 0), BaseCellRotation(39, 0)], [BaseCellRotation(46, 3), BaseCellRotation(35, 3), BaseCellRotation(25, 0)]]]) else ([[[BaseCellRotation(36, 0), BaseCellRotation(20, 0), BaseCellRotation(14, 3)], [BaseCellRotation(34, 0), BaseCellRotation(19, 3), BaseCellRotation(9, 3)], [BaseCellRotation(38, 3), BaseCellRotation(21, 3), BaseCellRotation(7, 3)]], [[BaseCellRotation(55, 0), BaseCellRotation(40, 0), BaseCellRotation(27, 3)], [BaseCellRotation(54, 3), BaseCellRotation(36, 0), BaseCellRotation(20, 0)], [BaseCellRotation(51, 3), BaseCellRotation(34, 0), BaseCellRotation(19, 3)]], [[BaseCellRotation(72, 0), BaseCellRotation(60, 3), BaseCellRotation(46, 3)], [BaseCellRotation(73, 3), BaseCellRotation(55, 0), BaseCellRotation(40, 0)], [BaseCellRotation(71, 3), BaseCellRotation(54, 3), BaseCellRotation(36, 0)]]])
  }

  /** Rows 8 to 9 of FaceIjkBaseCells. */
  function FaceBlock8(f: int): (r: seq<seq<seq<BaseCellRotation>>>)
    requires 8 <= f < 10
    ensures IsFaceRow(r)
  {
    if f < 9 then ([[[BaseCellRotation(64, 0), BaseCellRotation(47, 0), BaseCellRotation(38, 3)], [BaseCellRotation(62, 0), BaseCellRotation(43, 3), BaseCellRotation(29, 3)], [BaseCellRotation(58, 3), BaseCellRotation(42, 3), BaseCellRotation(26, 3)]], [[BaseCellRotation(84, 0), BaseCellRotation(69, 0), BaseCellRotation(51, 3)], [BaseCellRotation(82, 3), BaseCellRotation(64, 0), BaseCellRotation(47, 0)], [BaseCellRotation(76, 3), BaseCellRotation(62, 0), BaseCellRotation(43, 3)]], [[BaseCellRotation(97, 0), BaseCellRotation(89, 3), BaseCellRotation(71, 3)], [BaseCellRotation(98, 3), BaseCellRotation(84, 0), BaseCellRotation(69, 0)], [BaseCellRotation(96, 3), BaseCellRotation(82, 3), BaseCellRotation(64, 0)]]]) else ([[[BaseCellRotation(75, 0), BaseCellRotation(65, 0), BaseCellRotation(58, 3)], [BaseCellRotation(61, 0), BaseCellRotation(53, 3), BaseCellRotation(44, 3)], [BaseCellRotation(49, 3), BaseCellRotation(41, 3), BaseCellRotation(31, 3)]], [[BaseCellRotation(94, 0), BaseCellRotation(86, 0), BaseCellRotation(76, 3)], [BaseCellRotation(81, 3), BaseCellRotation(75, 0), BaseCellRotation(65, 0)], [BaseCellRotation(66, 3), BaseCellRotation(61, 0), BaseCellRotation(53, 3)]], [[BaseCellRotation(107, 0), BaseCellRotation(104, 3), BaseCellRotation(96, 3)], [BaseCellRotation(101, 3), BaseCellRotation(94, 0), BaseCellRotation(86, 0)], [BaseCellRotation(85, 3), BaseCellRotation(81, 3), BaseCellRotation(75, 0)]]])
  }

  /** Rows 10 to 11 of FaceIjkBaseCells. */
  function FaceBlock10(f: int): (r: seq<seq<seq<BaseCellRotation>>>)
    requires 10 <= f < 12
    ensures IsFaceRow(r)
  {
    if f < 11 then ([[[BaseCellRotation(57, 0), BaseCellRotation(59, 0), BaseCellRotation(63, 3)], [BaseCellRotation(74, 0), BaseCellRotation(78, 3), BaseCellRotation(79, 3)], [BaseCellRotation(83, 3), BaseCellRotation(92, 3), BaseCellRotation(95, 3)]], [[BaseCellRotation(37, 0), BaseCellRotation(39, 3), BaseCellRotation(45, 3)], [BaseCellRotation(52, 0), BaseCellRotation(57, 0), BaseCellRotation(59, 0)], [BaseCellRotation(70, 3), BaseCellRotation(74, 0), BaseCellRotation(78, 3)]], [[BaseCellRotation(24, 0), BaseCellRotation(23, 3), BaseCellRotation(25, 3)], [BaseCellRotation(32, 3), BaseCellRotation(37, 0), BaseCellRotation(39, 3)], [BaseCellRotation(50, 3), BaseCellRotation(52, 0), BaseCellRotation(57, 0)]]]) else ([[[BaseCellRotation(46, 0), BaseCellRotation(60, 0), BaseCellRotation(72, 3)], [BaseCellRotation(56, 0), BaseCellRotation(68, 3), BaseCellRotation(80, 3)], [BaseCellRotation(63, 3), BaseCellRotation(77, 3), BaseCellRotation(90, 3)]], [[BaseCellRotation(27, 0), BaseCellRotation(40, 3), BaseCellRotation(55, 3)], [BaseCellRotation(35, 0), BaseCellRotation(46, 0), BaseCellRotation(60, 0)], [BaseCellRotation(45, 3), BaseCellRotation(56, 0), BaseCellRotation(68, 3)]], [[BaseCellRotation(14, 0), BaseCellRotation(20, 3), BaseCellRotation(36, 3)], [BaseCellRotation(17, 3), BaseCellRotation(27, 0), BaseCellRotation(40, 3)], [BaseCellRotation(25, 3), BaseCellRotation(35, 0), BaseCellRotation(46, 0)]]])
  }

  /** Rows 12 to 13 of FaceIjkBaseCells. */
  function FaceBlock12(f: int): (r: seq<seq<seq<BaseCellRotation>>>)
    requires 12 <= f < 14
    ensures IsFaceRow(r)
  {
    if f < 13 then ([[[BaseCellRotation(71, 0), BaseCellRotation(89, 0), BaseCellRotation(97, 3)], [BaseCellRotation(73, 0), BaseCellRotation(91, 3), BaseCellRotation(103, 3)], [BaseCellRotation(72, 3), BaseCellRotation(88, 3), BaseCellRotation(105, 3)]], [[BaseCellRotation(51, 0), BaseCellRotation(69, 3), BaseCellRotation(84, 3)], [BaseCellRotation(54, 0), BaseCellRotation(71, 0), BaseCellRotation(89, 0)], [BaseCellRotation(55, 3), BaseCellRotation(73, 0), BaseCellRotation(91, 3)]], [[BaseCellRotation(38, 0), BaseCellRotation(47, 3), BaseCellRotation(64, 3)], [BaseCellRotation(34, 3), BaseCellRotation(51, 0), BaseCellRotation(69, 3)], [BaseCellRotation(36, 3), BaseCellRotation(54, 0), BaseCellRotation(71, 0)]]]) else ([[[BaseCellRotation(96, 0), BaseCellRotation(104, 0), BaseCellRotation(107, 3)], [BaseCellRotation(98, 0), BaseCellRotation(110, 3), BaseCellRotation(115, 3)], [BaseCellRotation(97, 3), BaseCellRotation(111, 3), BaseCellRotation(119, 3)]], [[BaseCellRotation(76, 0), BaseCellRotation(86, 3), BaseCellRotation(94, 3)], [BaseCellRotation(82, 0), BaseCellRotation(96, 0), BaseCellRotation(104, 0)], [BaseCellRotation(84, 3), BaseCellRotation(98, 0), BaseCellRotation(110, 3)]], [[BaseCellRotation(58, 0), BaseCellRotation(65, 3), BaseCellRotation(75, 3)], [BaseCellRotation(62, 3), BaseCellRotation(76, 0), BaseCellRotation(86, 3)], [BaseCellRotation(64, 3), BaseCellRotation(82, 0), BaseCellRotation(96, 0)]]])
  }

  /** Rows 14 to 15 of FaceIjkBaseCells. */
  function FaceBlock14(f: int): (r: seq<seq<seq<BaseCellRotation>>>)
    requires 14 <= f < 16
    ensures IsFaceRow(r)
  {
    if f < 15 then ([[[BaseCellRotation(85, 0), BaseCellRotation(87, 0), BaseCellRotation(83, 3)], [BaseCellRotation(101, 0), BaseCellRotation(102, 3), BaseCellRotation(100, 3)], [BaseCellRotation(107, 3), BaseCellRotation(112, 3), BaseCellRotation(114, 3)]], [[BaseCellRotation(66, 0), BaseCellRotation(67, 3), BaseCellRotation(70, 3)], [BaseCellRotation(81, 0), BaseCellRotation(85, 0), BaseCellRotation(87, 0)], [BaseCellRotation(94, 3), BaseCellRotation(101, 0), BaseCellRotation(102, 3)]], [[BaseCellRotation(49, 0), BaseCellRotation(48, 3), BaseCellRotation(50, 3)], [BaseCellRotation(61, 3), BaseCellRotation(66, 0), BaseCellRotation(67, 3)], [BaseCellRotation(75, 3), BaseCellRotation(81, 0), BaseCellRotation(85, 0)]]]) else ([[[BaseCellRotation(95, 0), BaseCellRotation(92, 0), BaseCellRotation(83, 0)], [BaseCellRotation(79, 0), BaseCellRotation(78, 0), BaseCellRotation(74, 3)], [BaseCellRotation(63, 1), BaseCellRotation(59, 3), BaseCellRotation(57, 3)]], [[BaseCellRotation(109, 0), BaseCellRotation(108, 0), BaseCellRotation(100, 5)], [BaseCellRotation(93, 1), BaseCellRotation(95, 0), BaseCellRotation(92, 0)], [BaseCellRotation(77, 1), BaseCellRotation(79, 0), BaseCellRotation(78, 0)]], [[BaseCellRotation(117, 4), BaseCellRotation(118, 5), BaseCellRotation(114, 5)], [BaseCellRotation(106, 1), BaseCellRotation(109, 0), BaseCellRotation(108, 0)], [BaseCellRotation(90, 1), BaseCellRotation(93, 1), BaseCellRotation(95, 0)]]])
  }

  /** Rows 16 to 17 of FaceIjkBaseCells. */
  function FaceBlock16(f: int): (r: seq<seq<seq<BaseCellRotation>>>)
    requires 16 <= f < 18
    ensures IsFaceRow(r)
  {
    if f < 17 then ([[[BaseCellRotation(90, 0), BaseCellRotation(77, 0), BaseCellRotation(63, 0)], [BaseCellRotation(80, 0), BaseCellRotation(68, 0), BaseCellRotation(56, 3)], [BaseCellRotation(72, 1), BaseCellRotation(60, 3), BaseCellRotation(46, 3)]], [[BaseCellRotation(106, 0), BaseCellRotation(93, 0), BaseCellRotation(79, 5)], [BaseCellRotation(99, 1), BaseCellRotation(90, 0), BaseCellRotation(77, 0)], [BaseCellRotation(88, 1), BaseCellRotation(80, 0), BaseCellRotation(68, 0)]], [[BaseCellRotation(117, 3), BaseCellRotation(109, 5), BaseCellRotation(95, 5)], [BaseCellRotation(113, 1), BaseCellRotation(106, 0), BaseCellRotation(93, 0)], [BaseCellRotation(105, 1), BaseCellRotation(99, 1), BaseCellRotation(90, 0)]]]) else ([[[BaseCellRotation(105, 0), BaseCellRotation(88, 0), BaseCellRotation(72, 0)], [BaseCellRotation(103, 0), BaseCellRotation(91, 0), BaseCellRotation(73, 3)], [BaseCellRotation(97, 1), BaseCellRotation(89, 3), BaseCellRotation(71, 3)]], [[BaseCellRotation(113, 0), BaseCellRotation(99, 0), BaseCellRotation(80, 5)], [BaseCellRotation(116, 1), BaseCellRotation(105, 0), BaseCellRotation(88, 0)], [BaseCellRotation(111, 1), BaseCellRotation(103, 0), BaseCellRotation(91, 0)]], [[BaseCellRotation(117, 2), BaseCellRotation(106, 5), BaseCellRotation(90, 5)], [BaseCellRotation(121, 1), BaseCellRotation(113, 0), BaseCellRotation(99, 0)], [BaseCellRotation(119, 1), BaseCellRotation(116, 1), BaseCellRotation(105, 0)]]])
  }

  /** Rows 18 to 19 of FaceIjkBaseCells. */
  function FaceBlock18(f: int): (r: seq<seq<seq<BaseCellRotation>>>)
    requires 18 <= f < 20
    ensures IsFaceRow(r)
  {
    if f < 19 then ([[[BaseCellRotation(119, 0), BaseCellRotation(111, 0), BaseCellRotation(97, 0)], [BaseCellRotation(115, 0), BaseCellRotation(110, 0), BaseCellRotation(98, 3)], [BaseCellRotation(107, 1), BaseCellRotation(104, 3), BaseCellRotation(96, 3)]], [[BaseCellRotation(121, 0), BaseCellRotation(116, 0), BaseCellRotation(103, 5)], [BaseCellRotation(120, 1), BaseCellRotation(119, 0), BaseCellRotation(111, 0)], [BaseCellRotation(112, 1), BaseCellRotation(115, 0), BaseCellRotation(110, 0)]], [[BaseCellRotation(117, 1), BaseCellRotation(113, 5), BaseCellRotation(105, 5)], [BaseCellRotation(118, 1), BaseCellRotation(121, 0), BaseCellRotation(116, 0)], [BaseCellRotation(114, 1), BaseCellRotation(120, 1), BaseCellRotation(119, 0)]]]) else ([[[BaseCellRotation(114, 0), BaseCellRotation(112, 0), BaseCellRotation(107, 0)], [BaseCellRotation(100, 0), BaseCellRotation(102, 0), BaseCellRotation(101, 3)], [BaseCellRotation(83, 1), BaseCellRotation(87, 3), BaseCellRotation(85, 3)]], [[BaseCellRotation(118, 0), BaseCellRotation(120, 0), BaseCellRotation(115, 5)], [BaseCellRotation(108, 1), BaseCellRotation(114, 0), BaseCellRotation(112, 0)], [BaseCellRotation(92, 1), BaseCellRotation(100, 0), BaseCellRotation(102, 0)]], [[BaseCellRotation(117, 0), BaseCellRotation(121, 5), BaseCellRotation(119, 5)], [BaseCellRotation(109, 1), BaseCellRotation(118, 0), BaseCellRotation(120, 0)], [BaseCellRotation(95, 1), BaseCellRotation(108, 1), BaseCellRotation(114, 0)]]])
  }

  /** faceIjkBaseCells: the base cell at each coordinate (i, j, k) of face
      f, with the rotation into its coordinate system. */
  function FaceIjkBaseCells(f: int): (r: seq<seq<seq<BaseCellRotation>>>)
    requires 0 <= f < NUM_ICOSA_FACES
    ensures IsFaceRow(r)
  {
    if f < 10 then if f < 4 then if f < 2 then FaceBlock0(f) else FaceBlock2(f) else if f < 6 then FaceBlock4(f) else if f < 8 then FaceBlock6(f) else FaceBlock8(f) else if f < 14 then if f < 12 then FaceBlock10(f) else FaceBlock12(f) else if f < 16 then FaceBlock14(f) else if f < 18 then FaceBlock16(f) else FaceBlock18(f)
  }

  /** Rows 0 to 3 of BaseCellDataOf. */
  function DataBlock0(b: int): (r: BaseCellData)
    requires 0 <= b < 4
    ensures r.isPentagon == IsBaseCellPentagonArr(b)
    ensures 0 <= r.homeFijk.face < NUM_ICOSA_FACES
    ensures 0 <= r.homeFijk.coord.i <= MAX_FACE_COORD && 0 <= r.homeFijk.coord.j <= MAX_FACE_COORD
      && 0 <= r.homeFijk.coord.k <= MAX_FACE_COORD
    ensures IsPolarBaseCell(b) <==> r.cwOffsetPent == (-1, -1)
    ensures !r.isPentagon ==> r.cwOffsetPent == (0, 0)
    ensures r.isPentagon && !IsPolarBaseCell(b) ==>
      0 <= r.cwOffsetPent.0 < NUM_ICOSA_FACES && 0 <= r.cwOffsetPent.1 < NUM_ICOSA_FACES && r.cwOffsetPent.0 != r.cwOffsetPent.1
  {
    if b < 2 then (if b < 1 then (BaseCellData(FaceIjk(1, Ijk(1, 0, 0)), false, (0, 0))) else (BaseCellData(FaceIjk(2, Ijk(1, 1, 0)), false, (0, 0)))) else (if b < 3 then (BaseCellData(FaceIjk(1, Ijk(0, 0, 0)), false, (0, 0))) else (BaseCellData(FaceIjk(2, Ijk(1, 0, 0)), false, (0, 0))))
  }

  /** Rows 4 to 7 of BaseCellDataOf. */
  function DataBlock4(b: int): (r: BaseCellData)
    requires 4 <= b < 8
    ensures r.isPentagon == IsBaseCellPentagonArr(b)
    ensures 0 <= r.homeFijk.face < NUM_ICOSA_FACES
    ensures 0 <= r.homeFijk.coord.i <= MAX_FACE_COORD && 0 <= r.homeFijk.coord.j <= MAX_FACE_COORD
      && 0 <= r.homeFijk.coord.k <= MAX_FACE_COORD
    ensures IsPolarBaseCell(b) <==> r.cwOffsetPent == (-1, -1)
    ensures !r.isPentagon ==> r.cwOffsetPent == (0, 0)
    ensures r.isPentagon && !IsPolarBaseCell(b) ==>
      0 <= r.cwOffsetPent.0 < NUM_ICOSA_FACES && 0 <= r.cwOffsetPent.1 < NUM_ICOSA_FACES && r.cwOffsetPent.0 != r.cwOffsetPent.1
  {
    if b < 6 then (if b < 5 then (BaseCellData(FaceIjk(0, Ijk(2, 0, 0)), true, (-1, -1))) else (BaseCellData(FaceIjk(1, Ijk(1, 1, 0)), false, (0, 0)))) else (if b < 7 then (BaseCellData(FaceIjk(1, Ijk(0, 0, 1)), false, (0, 0))) else (BaseCellData(FaceIjk(2, Ijk(0, 0, 0)), false, (0, 0))))
  }

  /** Rows 8 to 11 of BaseCellDataOf. */
  function DataBlock8(b: int): (r: BaseCellData)
    requires 8 <= b < 12
    ensures r.isPentagon == IsBaseCellPentagonArr(b)
    ensures 0 <= r.homeFijk.face < NUM_ICOSA_FACES
    ensures 0 <= r.homeFijk.coord.i <= MAX_FACE_COORD && 0 <= r.homeFijk.coord.j <= MAX_FACE_COORD
      && 0 <= r.homeFijk.coord.k <= MAX_FACE_COORD
    ensures IsPolarBaseCell(b) <==> r.cwOffsetPent == (-1, -1)
    ensures !r.isPentagon ==> r.cwOffsetPent == (0, 0)
    ensures r.isPentagon && !IsPolarBaseCell(b) ==>
      0 <= r.cwOffsetPent.0 < NUM_ICOSA_FACES && 0 <= r.cwOffsetPent.1 < NUM_ICOSA_FACES && r.cwOffsetPent.0 != r.cwOffsetPent.1
  {
    if b < 10 then (if b < 9 then (BaseCellData(FaceIjk(0, Ijk(1, 0, 0)), false, (0, 0))) else (BaseCellData(FaceIjk(2, Ijk(0, 1, 0)), false, (0, 0)))) else (if b < 11 then (BaseCellData(FaceIjk(1, Ijk(0, 1, 0)), false, (0, 0))) else (BaseCellData(FaceIjk(1, Ijk(0, 1, 1)), false, (0, 0))))
  }

  /** Rows 12 to 15 of BaseCellDataOf. */
  function DataBlock12(b: int): (r: BaseCellData)
    requires 12 <= b < 16
    ensures r.isPentagon == IsBaseCellPentagonArr(b)
    ensures 0 <= r.homeFijk.face < NUM_ICOSA_FACES
    ensures 0 <= r.homeFijk.coord.i <= MAX_FACE_COORD && 0 <= r.homeFijk.coord.j <= MAX_FACE_COORD
      && 0 <= r.homeFijk.coord.k <= MAX_FACE_COORD
    ensures IsPolarBaseCell(b) <==> r.cwOffsetPent == (-1, -1)
    ensures !r.isPentagon ==> r.cwOffsetPent == (0, 0)
    ensures r.isPentagon && !IsPolarBaseCell(b) ==>
      0 <= r.cwOffsetPent.0 < NUM_ICOSA_FACES && 0 <= r.cwOffsetPent.1 < NUM_ICOSA_FACES && r.cwOffsetPent.0 != r.cwOffsetPent.1
  {
    if b < 14 then (if b < 13 then (BaseCellData(FaceIjk(3, Ijk(1, 0, 0)), false, (0, 0))) else (BaseCellData(FaceIjk(3, Ijk(1, 1, 0)), false, (0, 0)))) else (if b < 15 then (BaseCellData(FaceIjk(11, Ijk(2, 0, 0)), true, (2, 6))) else (BaseCellData(FaceIjk(4, Ijk(1, 0, 0)), false, (0, 0))))
  }

  /** Rows 16 to 19 of BaseCellDataOf. */
  function DataBlock16(b: int): (r: BaseCellData)
    requires 16 <= b < 20
    ensures r.isPentagon == IsBaseCellPentagonArr(b)
    ensures 0 <= r.homeFijk.face < NUM_ICOSA_FACES
    ensures 0 <= r.homeFijk.coord.i <= MAX_FACE_COORD && 0 <= r.homeFijk.coord.j <= MAX_FACE_COORD
      && 0 <= r.homeFijk.coord.k <= MAX_FACE_COORD
    ensures IsPolarBaseCell(b) <==> r.cwOffsetPent == (-1, -1)
    ensures !r.isPentagon ==> r.cwOffsetPent == (0, 0)
    ensures r.isPentagon && !IsPolarBaseCell(b) ==>
      0 <= r.cwOffsetPent.0 < NUM_ICOSA_FACES && 0 <= r.cwOffsetPent.1 < NUM_ICOSA_FACES && r.cwOffsetPent.0 != r.cwOffsetPent.1
  {
    if b < 18 then (if b < 17 then (BaseCellData(FaceIjk(0, Ijk(0, 0, 0)), false, (0, 0))) else (BaseCellData(FaceIjk(6, Ijk(0, 1, 0)), false, (0, 0)))) else (if b < 19 then (BaseCellData(FaceIjk(0, Ijk(0, 0, 1)), false, (0, 0))) else (BaseCellData(FaceIjk(2, Ijk(0, 1, 1)), false, (0, 0))))
  }

  /** Rows 20 to 23 of BaseCellDataOf. */
  function DataBlock20(b: int): (r: BaseCellData)
    requires 20 <= b < 24
    ensures r.isPentagon == IsBaseCellPentagonArr(b)
    ensures 0 <= r.homeFijk.face < NUM_ICOSA_FACES
    ensures 0 <= r.homeFijk.coord.i <= MAX_FACE_COORD && 0 <= r.homeFijk.coord.j <= MAX_FACE_COORD
      && 0 <= r.homeFijk.coord.k <= MAX_FACE_COORD
    ensures IsPolarBaseCell(b) <==> r.cwOffsetPent == (-1, -1)
    ensures !r.isPentagon ==> r.cwOffsetPent == (0, 0)
    ensures r.isPentagon && !IsPolarBaseCell(b) ==>
      0 <= r.cwOffsetPent.0 < NUM_ICOSA_FACES && 0 <= r.cwOffsetPent.1 < NUM_ICOSA_FACES && r.cwOffsetPent.0 != r.cwOffsetPent.1
  {
    if b < 22 then (if b < 21 then (BaseCellData(FaceIjk(7, Ijk(0, 0, 1)), false, (0, 0))) else (BaseCellData(FaceIjk(2, Ijk(0, 0, 1)), false, (0, 0)))) else (if b < 23 then (BaseCellData(FaceIjk(0, Ijk(1, 1, 0)), false, (0, 0))) else (BaseCellData(FaceIjk(6, Ijk(0, 0, 1)), false, (0, 0))))
  }

  /** Rows 24 to 27 of BaseCellDataOf. */
  function DataBlock24(b: int): (r: BaseCellData)
    requires 24 <= b < 28
    ensures r.isPentagon == IsBaseCellPentagonArr(b)
    ensures 0 <= r.homeFijk.face < NUM_ICOSA_FACES
    ensures 0 <= r.homeFijk.coord.i <= MAX_FACE_COORD && 0 <= r.homeFijk.coord.j <= MAX_FACE_COORD
      && 0 <= r.homeFijk.coord.k <= MAX_FACE_COORD
    ensures IsPolarBaseCell(b) <==> r.cwOffsetPent == (-1, -1)
    ensures !r.isPentagon ==> r.cwOffsetPent == (0, 0)
    ensures r.isPentagon && !IsPolarBaseCell(b) ==>
      0 <= r.cwOffsetPent.0 < NUM_ICOSA_FACES && 0 <= r.cwOffsetPent.1 < NUM_ICOSA_FACES && r.cwOffsetPent.0 != r.cwOffsetPent.1
  {
    if b < 26 then (if b < 25 then (BaseCellData(FaceIjk(10, Ijk(2, 0, 0)), true, (1, 5))) else (BaseCellData(FaceIjk(6, Ijk(0, 0, 0)), false, (0, 0)))) else (if b < 27 then (BaseCellData(FaceIjk(3, Ijk(0, 0, 0)), false, (0, 0))) else (BaseCellData(FaceIjk(11, Ijk(1, 0, 0)), false, (0, 0))))
  }

  /** Rows 28 to 31 of BaseCellDataOf. */
  function DataBlock28(b: int): (r: BaseCellData)
    requires 28 <= b < 32
    ensures r.isPentagon == IsBaseCellPentagonArr(b)
    ensures 0 <= r.homeFijk.face < NUM_ICOSA_FACES
    ensures 0 <= r.homeFijk.coord.i <= MAX_FACE_COORD && 0 <= r.homeFijk.coord.j <= MAX_FACE_COORD
      && 0 <= r.homeFijk.coord.k <= MAX_FACE_COORD
    ensures IsPolarBaseCell(b) <==> r.cwOffsetPent == (-1, -1)
    ensures !r.isPentagon ==> r.cwOffsetPent == (0, 0)
    ensures r.isPentagon && !IsPolarBaseCell(b) ==>
      0 <= r.cwOffsetPent.0 < NUM_ICOSA_FACES && 0 <= r.cwOffsetPent.1 < NUM_ICOSA_FACES && r.cwOffsetPent.0 != r.cwOffsetPent.1
  {
    if b < 30 then (if b < 29 then (BaseCellData(FaceIjk(4, Ijk(1, 1, 0)), false, (0, 0))) else (BaseCellData(FaceIjk(3, Ijk(0, 1, 0)), false, (0, 0)))) else (if b < 31 then (BaseCellData(FaceIjk(0, Ijk(0, 1, 1)), false, (0, 0))) else (BaseCellData(FaceIjk(4, Ijk(0, 0, 0)), false, (0, 0))))
  }

  /** Rows 32 to 35 of BaseCellDataOf. */
  function DataBlock32(b: int): (r: BaseCellData)
    requires 32 <= b < 36
    ensures r.isPentagon == IsBaseCellPentagonArr(b)
    ensures 0 <= r.homeFijk.face < NUM_ICOSA_FACES
    ensures 0 <= r.homeFijk.coord.i <= MAX_FACE_COORD && 0 <= r.homeFijk.coord.j <= MAX_FACE_COORD
      && 0 <= r.homeFijk.coord.k <= MAX_FACE_COORD
    ensures IsPolarBaseCell(b) <==> r.cwOffsetPent == (-1, -1)
    ensures !r.isPentagon ==> r.cwOffsetPent == (0, 0)
    ensures r.isPentagon && !IsPolarBaseCell(b) ==>
      0 <= r.cwOffsetPent.0 < NUM_ICOSA_FACES && 0 <= r.cwOffsetPent.1 < NUM_ICOSA_FACES && r.cwOffsetPent.0 != r.cwOffsetPent.1
  {
    if b < 34 then (if b < 33 then (BaseCellData(FaceIjk(5, Ijk(0, 1, 0)), false, (0, 0))) else (BaseCellData(FaceIjk(0, Ijk(0, 1, 0)), false, (0, 0)))) else (if b < 35 then (BaseCellData(FaceIjk(7, Ijk(0, 1, 0)), false, (0, 0))) else (BaseCellData(FaceIjk(11, Ijk(1, 1, 0)), false, (0, 0))))
  }

  /** Rows 36 to 39 of BaseCellDataOf. */
  function DataBlock36(b: int): (r: BaseCellData)
    requires 36 <= b < 40
    ensures r.isPentagon == IsBaseCellPentagonArr(b)
    ensures 0 <= r.homeFijk.face < NUM_ICOSA_FACES
    ensures 0 <= r.homeFijk.coord.i <= MAX_FACE_COORD && 0 <= r.homeFijk.coord.j <= MAX_FACE_COORD
      && 0 <= r.homeFijk.coord.k <= MAX_FACE_COORD
    ensures IsPolarBaseCell(b) <==> r.cwOffsetPent == (-1, -1)
    ensures !r.isPentagon ==> r.cwOffsetPent == (0, 0)
    ensures r.isPentagon && !IsPolarBaseCell(b) ==>
      0 <= r.cwOffsetPent.0 < NUM_ICOSA_FACES && 0 <= r.cwOffsetPent.1 < NUM_ICOSA_FACES && r.cwOffsetPent.0 != r.cwOffsetPent.1
  {
    if b < 38 then (if b < 37 then (BaseCellData(FaceIjk(7, Ijk(0, 0, 0)), false, (0, 0))) else (BaseCellData(FaceIjk(10, Ijk(1, 0, 0)), false, (0, 0)))) else (if b < 39 then (BaseCellData(FaceIjk(12, Ijk(2, 0, 0)), true, (3, 7))) else (BaseCellData(FaceIjk(6, Ijk(1, 0, 1)), false, (0, 0))))
  }

  /** Rows 40 to 43 of BaseCellDataOf. */
  function DataBlock40(b: int): (r: BaseCellData)
    requires 40 <= b < 44
    ensures r.isPentagon == IsBaseCellPentagonArr(b)
    ensures 0 <= r.homeFijk.face < NUM_ICOSA_FACES
    ensures 0 <= r.homeFijk.coord.i <= MAX_FACE_COORD && 0 <= r.homeFijk.coord.j <= MAX_FACE_COORD
      && 0 <= r.homeFijk.coord.k <= MAX_FACE_COORD
    ensures IsPolarBaseCell(b) <==> r.cwOffsetPent == (-1, -1)
    ensures !r.isPentagon ==> r.cwOffsetPent == (0, 0)
    ensures r.isPentagon && !IsPolarBaseCell(b) ==>
      0 <= r.cwOffsetPent.0 < NUM_ICOSA_FACES && 0 <= r.cwOffsetPent.1 < NUM_ICOSA_FACES && r.cwOffsetPent.0 != r.cwOffsetPent.1
  {
    if b < 42 then (if b < 41 then (BaseCellData(FaceIjk(7, Ijk(1, 0, 1)), false, (0, 0))) else (BaseCellData(FaceIjk(4, Ijk(0, 0, 1)), false, (0, 0)))) else (if b < 43 then (BaseCellData(FaceIjk(3, Ijk(0, 0, 1)), false, (0, 0))) else (BaseCellData(FaceIjk(3, Ijk(0, 1, 1)), false, (0, 0))))
  }

  /** Rows 44 to 47 of BaseCellDataOf. */
  function DataBlock44(b: int): (r: BaseCellData)
    requires 44 <= b < 48
    ensures r.isPentagon == IsBaseCellPentagonArr(b)
    ensures 0 <= r.homeFijk.face < NUM_ICOSA_FACES
    ensures 0 <= r.homeFijk.coord.i <= MAX_FACE_COORD && 0 <= r.homeFijk.coord.j <= MAX_FACE_COORD
      && 0 <= r.homeFijk.coord.k <= MAX_FACE_COORD
    ensures IsPolarBaseCell(b) <==> r.cwOffsetPent == (-1, -1)
    ensures !r.isPentagon ==> r.cwOffsetPent == (0, 0)
    ensures r.isPentagon && !IsPolarBaseCell(b) ==>
      0 <= r.cwOffsetPent.0 < NUM_ICOSA_FACES && 0 <= r.cwOffsetPent.1 < NUM_ICOSA_FACES && r.cwOffsetPent.0 != r.cwOffsetPent.1
  {
    if b < 46 then (if b < 45 then (BaseCellData(FaceIjk(4, Ijk(0, 1, 0)), false, (0, 0))) else (BaseCellData(FaceIjk(6, Ijk(1, 0, 0)), false, (0, 0)))) else (if b < 47 then (BaseCellData(FaceIjk(11, Ijk(0, 0, 0)), false, (0, 0))) else (BaseCellData(FaceIjk(8, Ijk(0, 0, 1)), false, (0, 0))))
  }

  /** Rows 48 to 51 of BaseCellDataOf. */
  function DataBlock48(b: int): (r: BaseCellData)
    requires 48 <= b < 52
    ensures r.isPentagon == IsBaseCellPentagonArr(b)
    ensures 0 <= r.homeFijk.face < NUM_ICOSA_FACES
    ensures 0 <= r.homeFijk.coord.i <= MAX_FACE_COORD && 0 <= r.homeFijk.coord.j <= MAX_FACE_COORD
      && 0 <= r.homeFijk.coord.k <= MAX_FACE_COORD
    ensures IsPolarBaseCell(b) <==> r.cwOffsetPent == (-1, -1)
    ensures !r.isPentagon ==> r.cwOffsetPent == (0, 0)
    ensures r.isPentagon && !IsPolarBaseCell(b) ==>
      0 <= r.cwOffsetPent.0 < NUM_ICOSA_FACES && 0 <= r.cwOffsetPent.1 < NUM_ICOSA_FACES && r.cwOffsetPent.0 != r.cwOffsetPent.1
  {
    if b < 50 then (if b < 49 then (BaseCellData(FaceIjk(5, Ijk(0, 0, 1)), false, (0, 0))) else (BaseCellData(FaceIjk(14, Ijk(2, 0, 0)), true, (0, 9)))) else (if b < 51 then (BaseCellData(FaceIjk(5, Ijk(0, 0, 0)), false, (0, 0))) else (BaseCellData(FaceIjk(12, Ijk(1, 0, 0)), false, (0, 0))))
  }

  /** Rows 52 to 55 of BaseCellDataOf. */
  function DataBlock52(b: int): (r: BaseCellData)
    requires 52 <= b < 56
    ensures r.isPentagon == IsBaseCellPentagonArr(b)
    ensures 0 <= r.homeFijk.face < NUM_ICOSA_FACES
    ensures 0 <= r.homeFijk.coord.i <= MAX_FACE_COORD && 0 <= r.homeFijk.coord.j <= MAX_FACE_COORD
      && 0 <= r.homeFijk.coord.k <= MAX_FACE_COORD
    ensures IsPolarBaseCell(b) <==> r.cwOffsetPent == (-1, -1)
    ensures !r.isPentagon ==> r.cwOffsetPent == (0, 0)
    ensures r.isPentagon && !IsPolarBaseCell(b) ==>
      0 <= r.cwOffsetPent.0 < NUM_ICOSA_FACES && 0 <= r.cwOffsetPent.1 < NUM_ICOSA_FACES && r.cwOffsetPent.0 != r.cwOffsetPent.1
  {
    if b < 54 then (if b < 53 then (BaseCellData(FaceIjk(10, Ijk(1, 1, 0)), false, (0, 0))) else (BaseCellData(FaceIjk(4, Ijk(0, 1, 1)), false, (0, 0)))) else (if b < 55 then (BaseCellData(FaceIjk(12, Ijk(1, 1, 0)), false, (0, 0))) else (BaseCellData(FaceIjk(7, Ijk(1, 0, 0)), false, (0, 0))))
  }

  /** Rows 56 to 59 of BaseCellDataOf. */
  function DataBlock56(b: int): (r: BaseCellData)
    requires 56 <= b < 60
    ensures r.isPentagon == IsBaseCellPentagonArr(b)
    ensures 0 <= r.homeFijk.face < NUM_ICOSA_FACES
    ensures 0 <= r.homeFijk.coord.i <= MAX_FACE_COORD && 0 <= r.homeFijk.coord.j <= MAX_FACE_COORD
      && 0 <= r.homeFijk.coord.k <= MAX_FACE_COORD
    ensures IsPolarBaseCell(b) <==> r.cwOffsetPent == (-1, -1)
    ensures !r.isPentagon ==> r.cwOffsetPent == (0, 0)
    ensures r.isPentagon && !IsPolarBaseCell(b) ==>
      0 <= r.cwOffsetPent.0 < NUM_ICOSA_FACES && 0 <= r.cwOffsetPent.1 < NUM_ICOSA_FACES && r.cwOffsetPent.0 != r.cwOffsetPent.1
  {
    if b < 58 then (if b < 57 then (BaseCellData(FaceIjk(11, Ijk(0, 1, 0)), false, (0, 0))) else (BaseCellData(FaceIjk(10, Ijk(0, 0, 0)), false, (0, 0)))) else (if b < 59 then (BaseCellData(FaceIjk(13, Ijk(2, 0, 0)), true, (4, 8))) else (BaseCellData(FaceIjk(10, Ijk(0, 0, 1)), false, (0, 0))))
  }

  /** Rows 60 to 63 of BaseCellDataOf. */
  function DataBlock60(b: int): (r: BaseCellData)
    requires 60 <= b < 64
    ensures r.isPentagon == IsBaseCellPentagonArr(b)
    ensures 0 <= r.homeFijk.face < NUM_ICOSA_FACES
    ensures 0 <= r.homeFijk.coord.i <= MAX_FACE_COORD && 0 <= r.homeFijk.coord.j <= MAX_FACE_COORD
      && 0 <= r.homeFijk.coord.k <= MAX_FACE_COORD
    ensures IsPolarBaseCell(b) <==> r.cwOffsetPent == (-1, -1)
    ensures !r.isPentagon ==> r.cwOffsetPent == (0, 0)
    ensures r.isPentagon && !IsPolarBaseCell(b) ==>
      0 <= r.cwOffsetPent.0 < NUM_ICOSA_FACES && 0 <= r.cwOffsetPent.1 < NUM_ICOSA_FACES && r.cwOffsetPent.0 != r.cwOffsetPent.1
  {
    if b < 62 then (if b < 61 then (BaseCellData(FaceIjk(11, Ijk(0, 0, 1)), false, (0, 0))) else (BaseCellData(FaceIjk(9, Ijk(0, 1, 0)), false, (0, 0)))) else (if b < 63 then (BaseCellData(FaceIjk(8, Ijk(0, 1, 0)), false, (0, 0))) else (BaseCellData(FaceIjk(6, Ijk(2, 0, 0)), true, (11, 15))))
  }

  /** Rows 64 to 67 of BaseCellDataOf. */
  function DataBlock64(b: int): (r: BaseCellData)
    requires 64 <= b < 68
    ensures r.isPentagon == IsBaseCellPentagonArr(b)
    ensures 0 <= r.homeFijk.face < NUM_ICOSA_FACES
    ensures 0 <= r.homeFijk.coord.i <= MAX_FACE_COORD && 0 <= r.homeFijk.coord.j <= MAX_FACE_COORD
      && 0 <= r.homeFijk.coord.k <= MAX_FACE_COORD
    ensures IsPolarBaseCell(b) <==> r.cwOffsetPent == (-1, -1)
    ensures !r.isPentagon ==> r.cwOffsetPent == (0, 0)
    ensures r.isPentagon && !IsPolarBaseCell(b) ==>
      0 <= r.cwOffsetPent.0 < NUM_ICOSA_FACES && 0 <= r.cwOffsetPent.1 < NUM_ICOSA_FACES && r.cwOffsetPent.0 != r.cwOffsetPent.1
  {
    if b < 66 then (if b < 65 then (BaseCellData(FaceIjk(8, Ijk(0, 0, 0)), false, (0, 0))) else (BaseCellData(FaceIjk(9, Ijk(0, 0, 1)), false, (0, 0)))) else (if b < 67 then (BaseCellData(FaceIjk(14, Ijk(1, 0, 0)), false, (0, 0))) else (BaseCellData(FaceIjk(5, Ijk(1, 0, 1)), false, (0, 0))))
  }

  /** Rows 68 to 71 of BaseCellDataOf. */
  function DataBlock68(b: int): (r: BaseCellData)
    requires 68 <= b < 72
    ensures r.isPentagon == IsBaseCellPentagonArr(b)
    ensures 0 <= r.homeFijk.face < NUM_ICOSA_FACES
    ensures 0 <= r.homeFijk.coord.i <= MAX_FACE_COORD && 0 <= r.homeFijk.coord.j <= MAX_FACE_COORD
      && 0 <= r.homeFijk.coord.k <= MAX_FACE_COORD
    ensures IsPolarBaseCell(b) <==> r.cwOffsetPent == (-1, -1)
    ensures !r.isPentagon ==> r.cwOffsetPent == (0, 0)
    ensures r.isPentagon && !IsPolarBaseCell(b) ==>
      0 <= r.cwOffsetPent.0 < NUM_ICOSA_FACES && 0 <= r.cwOffsetPent.1 < NUM_ICOSA_FACES && r.cwOffsetPent.0 != r.cwOffsetPent.1
  {
    if b < 70 then (if b < 69 then (BaseCellData(FaceIjk(16, Ijk(0, 1, 1)), false, (0, 0))) else (BaseCellData(FaceIjk(8, Ijk(1, 0, 1)), false, (0, 0)))) else (if b < 71 then (BaseCellData(FaceIjk(5, Ijk(1, 0, 0)), false, (0, 0))) else (BaseCellData(FaceIjk(12, Ijk(0, 0, 0)), false, (0, 0))))
  }

  /** Rows 72 to 75 of BaseCellDataOf. */
  function DataBlock72(b: int): (r: BaseCellData)
    requires 72 <= b < 76
    ensures r.isPentagon == IsBaseCellPentagonArr(b)
    ensures 0 <= r.homeFijk.face < NUM_ICOSA_FACES
    ensures 0 <= r.homeFijk.coord.i <= MAX_FACE_COORD && 0 <= r.homeFijk.coord.j <= MAX_FACE_COORD
      && 0 <= r.homeFijk.coord.k <= MAX_FACE_COORD
    ensures IsPolarBaseCell(b) <==> r.cwOffsetPent == (-1, -1)
    ensures !r.isPentagon ==> r.cwOffsetPent == (0, 0)
    ensures r.isPentagon && !IsPolarBaseCell(b) ==>
      0 <= r.cwOffsetPent.0 < NUM_ICOSA_FACES && 0 <= r.cwOffsetPent.1 < NUM_ICOSA_FACES && r.cwOffsetPent.0 != r.cwOffsetPent.1
  {
    if b < 74 then (if b < 73 then (BaseCellData(FaceIjk(7, Ijk(2, 0, 0)), true, (12, 16))) else (BaseCellData(FaceIjk(12, Ijk(0, 1, 0)), false, (0, 0)))) else (if b < 75 then (BaseCellData(FaceIjk(10, Ijk(0, 1, 0)), false, (0, 0))) else (BaseCellData(FaceIjk(9, Ijk(0, 0, 0)), false, (0, 0))))
  }

  /** Rows 76 to 79 of BaseCellDataOf. */
  function DataBlock76(b: int): (r: BaseCellData)
    requires 76 <= b < 80
    ensures r.isPentagon == IsBaseCellPentagonArr(b)
    ensures 0 <= r.homeFijk.face < NUM_ICOSA_FACES
    ensures 0 <= r.homeFijk.coord.i <= MAX_FACE_COORD && 0 <= r.homeFijk.coord.j <= MAX_FACE_COORD
      && 0 <= r.homeFijk.coord.k <= MAX_FACE_COORD
    ensures IsPolarBaseCell(b) <==> r.cwOffsetPent == (-1, -1)
    ensures !r.isPentagon ==> r.cwOffsetPent == (0, 0)
    ensures r.isPentagon && !IsPolarBaseCell(b) ==>
      0 <= r.cwOffsetPent.0 < NUM_ICOSA_FACES && 0 <= r.cwOffsetPent.1 < NUM_ICOSA_FACES && r.cwOffsetPent.0 != r.cwOffsetPent.1
  {
    if b < 78 then (if b < 77 then (BaseCellData(FaceIjk(13, Ijk(1, 0, 0)), false, (0, 0))) else (BaseCellData(FaceIjk(16, Ijk(0, 0, 1)), false, (0, 0)))) else (if b < 79 then (BaseCellData(FaceIjk(15, Ijk(0, 1, 1)), false, (0, 0))) else (BaseCellData(FaceIjk(15, Ijk(0, 1, 0)), false, (0, 0))))
  }

  /** Rows 80 to 83 of BaseCellDataOf. */
  function DataBlock80(b: int): (r: BaseCellData)
    requires 80 <= b < 84
    ensures r.isPentagon == IsBaseCellPentagonArr(b)
    ensures 0 <= r.homeFijk.face < NUM_ICOSA_FACES
    ensures 0 <= r.homeFijk.coord.i <= MAX_FACE_COORD && 0 <= r.homeFijk.coord.j <= MAX_FACE_COORD
      && 0 <= r.homeFijk.coord.k <= MAX_FACE_COORD
    ensures IsPolarBaseCell(b) <==> r.cwOffsetPent == (-1, -1)
    ensures !r.isPentagon ==> r.cwOffsetPent == (0, 0)
    ensures r.isPentagon && !IsPolarBaseCell(b) ==>
      0 <= r.cwOffsetPent.0 < NUM_ICOSA_FACES && 0 <= r.cwOffsetPent.1 < NUM_ICOSA_FACES && r.cwOffsetPent.0 != r.cwOffsetPent.1
  {
    if b < 82 then (if b < 81 then (BaseCellData(FaceIjk(16, Ijk(0, 1, 0)), false, (0, 0))) else (BaseCellData(FaceIjk(14, Ijk(1, 1, 0)), false, (0, 0)))) else (if b < 83 then (BaseCellData(FaceIjk(13, Ijk(1, 1, 0)), false, (0, 0))) else (BaseCellData(FaceIjk(5, Ijk(2, 0, 0)), true, (10, 19))))
  }

  /** Rows 84 to 87 of BaseCellDataOf. */
  function DataBlock84(b: int): (r: BaseCellData)
    requires 84 <= b < 88
    ensures r.isPentagon == IsBaseCellPentagonArr(b)
    ensures 0 <= r.homeFijk.face < NUM_ICOSA_FACES
    ensures 0 <= r.homeFijk.coord.i <= MAX_FACE_COORD && 0 <= r.homeFijk.coord.j <= MAX_FACE_COORD
      && 0 <= r.homeFijk.coord.k <= MAX_FACE_COORD
    ensures IsPolarBaseCell(b) <==> r.cwOffsetPent == (-1, -1)
    ensures !r.isPentagon ==> r.cwOffsetPent == (0, 0)
    ensures r.isPentagon && !IsPolarBaseCell(b) ==>
      0 <= r.cwOffsetPent.0 < NUM_ICOSA_FACES && 0 <= r.cwOffsetPent.1 < NUM_ICOSA_FACES && r.cwOffsetPent.0 != r.cwOffsetPent.1
  {
    if b < 86 then (if b < 85 then (BaseCellData(FaceIjk(8, Ijk(1, 0, 0)), false, (0, 0))) else (BaseCellData(FaceIjk(14, Ijk(0, 0, 0)), false, (0, 0)))) else (if b < 87 then (BaseCellData(FaceIjk(9, Ijk(1, 0, 1)), false, (0, 0))) else (BaseCellData(FaceIjk(14, Ijk(0, 0, 1)), false, (0, 0))))
  }

  /** Rows 88 to 91 of BaseCellDataOf. */
  function DataBlock88(b: int): (r: BaseCellData)
    requires 88 <= b < 92
    ensures r.isPentagon == IsBaseCellPentagonArr(b)
    ensures 0 <= r.homeFijk.face < NUM_ICOSA_FACES
    ensures 0 <= r.homeFijk.coord.i <= MAX_FACE_COORD && 0 <= r.homeFijk.coord.j <= MAX_FACE_COORD
      && 0 <= r.homeFijk.coord.k <= MAX_FACE_COORD
    ensures IsPolarBaseCell(b) <==> r.cwOffsetPent == (-1, -1)
    ensures !r.isPentagon ==> r.cwOffsetPent == (0, 0)
    ensures r.isPentagon && !IsPolarBaseCell(b) ==>
      0 <= r.cwOffsetPent.0 < NUM_ICOSA_FACES && 0 <= r.cwOffsetPent.1 < NUM_ICOSA_FACES && r.cwOffsetPent.0 != r.cwOffsetPent.1
  {
    if b < 90 then (if b < 89 then (BaseCellData(FaceIjk(17, Ijk(0, 0, 1)), false, (0, 0))) else (BaseCellData(FaceIjk(12, Ijk(0, 0, 1)), false, (0, 0)))) else (if b < 91 then (BaseCellData(FaceIjk(16, Ijk(0, 0, 0)), false, (0, 0))) else (BaseCellData(FaceIjk(17, Ijk(0, 1, 1)), false, (0, 0))))
  }

  /** Rows 92 to 95 of BaseCellDataOf. */
  function DataBlock92(b: int): (r: BaseCellData)
    requires 92 <= b < 96
    ensures r.isPentagon == IsBaseCellPentagonArr(b)
    ensures 0 <= r.homeFijk.face < NUM_ICOSA_FACES
    ensures 0 <= r.homeFijk.coord.i <= MAX_FACE_COORD && 0 <= r.homeFijk.coord.j <= MAX_FACE_COORD
      && 0 <= r.homeFijk.coord.k <= MAX_FACE_COORD
    ensures IsPolarBaseCell(b) <==> r.cwOffsetPent == (-1, -1)
    ensures !r.isPentagon ==> r.cwOffsetPent == (0, 0)
    ensures r.isPentagon && !IsPolarBaseCell(b) ==>
      0 <= r.cwOffsetPent.0 < NUM_ICOSA_FACES && 0 <= r.cwOffsetPent.1 < NUM_ICOSA_FACES && r.cwOffsetPent.0 != r.cwOffsetPent.1
  {
    if b < 94 then (if b < 93 then (BaseCellData(FaceIjk(15, Ijk(0, 0, 1)), false, (0, 0))) else (BaseCellData(FaceIjk(16, Ijk(1, 0, 1)), false, (0, 0)))) else (if b < 95 then (BaseCellData(FaceIjk(9, Ijk(1, 0, 0)), false, (0, 0))) else (BaseCellData(FaceIjk(15, Ijk(0, 0, 0)), false, (0, 0))))
  }

  /** Rows 96 to 99 of BaseCellDataOf. */
  function DataBlock96(b: int): (r: BaseCellData)
    requires 96 <= b < 100
    ensures r.isPentagon == IsBaseCellPentagonArr(b)
    ensures 0 <= r.homeFijk.face < NUM_ICOSA_FACES
    ensures 0 <= r.homeFijk.coord.i <= MAX_FACE_COORD && 0 <= r.homeFijk.coord.j <= MAX_FACE_COORD
      && 0 <= r.homeFijk.coord.k <= MAX_FACE_COORD
    ensures IsPolarBaseCell(b) <==> r.cwOffsetPent == (-1, -1)
    ensures !r.isPentagon ==> r.cwOffsetPent == (0, 0)
    ensures r.isPentagon && !IsPolarBaseCell(b) ==>
      0 <= r.cwOffsetPent.0 < NUM_ICOSA_FACES && 0 <= r.cwOffsetPent.1 < NUM_ICOSA_FACES && r.cwOffsetPent.0 != r.cwOffsetPent.1
  {
    if b < 98 then (if b < 97 then (BaseCellData(FaceIjk(13, Ijk(0, 0, 0)), false, (0, 0))) else (BaseCellData(FaceIjk(8, Ijk(2, 0, 0)), true, (13, 17)))) else (if b < 99 then (BaseCellData(FaceIjk(13, Ijk(0, 1, 0)), false, (0, 0))) else (BaseCellData(FaceIjk(17, Ijk(1, 0, 1)), false, (0, 0))))
  }

  /** Rows 100 to 103 of BaseCellDataOf. */
  function DataBlock100(b: int): (r: BaseCellData)
    requires 100 <= b < 104
    ensures r.isPentagon == IsBaseCellPentagonArr(b)
    ensures 0 <= r.homeFijk.face < NUM_ICOSA_FACES
    ensures 0 <= r.homeFijk.coord.i <= MAX_FACE_COORD && 0 <= r.homeFijk.coord.j <= MAX_FACE_COORD
      && 0 <= r.homeFijk.coord.k <= MAX_FACE_COORD
    ensures IsPolarBaseCell(b) <==> r.cwOffsetPent == (-1, -1)
    ensures !r.isPentagon ==> r.cwOffsetPent == (0, 0)
    ensures r.isPentagon && !IsPolarBaseCell(b) ==>
      0 <= r.cwOffsetPent.0 < NUM_ICOSA_FACES && 0 <= r.cwOffsetPent.1 < NUM_ICOSA_FACES && r.cwOffsetPent.0 != r.cwOffsetPent.1
  {
    if b < 102 then (if b < 101 then (BaseCellData(FaceIjk(19, Ijk(0, 1, 0)), false, (0, 0))) else (BaseCellData(FaceIjk(14, Ijk(0, 1, 0)), false, (0, 0)))) else (if b < 103 then (BaseCellData(FaceIjk(19, Ijk(0, 1, 1)), false, (0, 0))) else (BaseCellData(FaceIjk(17, Ijk(0, 1, 0)), false, (0, 0))))
  }

  /** Rows 104 to 107 of BaseCellDataOf. */
  function DataBlock104(b: int): (r: BaseCellData)
    requires 104 <= b < 108
    ensures r.isPentagon == IsBaseCellPentagonArr(b)
    ensures 0 <= r.homeFijk.face < NUM_ICOSA_FACES
    ensures 0 <= r.homeFijk.coord.i <= MAX_FACE_COORD && 0 <= r.homeFijk.coord.j <= MAX_FACE_COORD
      && 0 <= r.homeFijk.coord.k <= MAX_FACE_COORD
    ensures IsPolarBaseCell(b) <==> r.cwOffsetPent == (-1, -1)
    ensures !r.isPentagon ==> r.cwOffsetPent == (0, 0)
    ensures r.isPentagon && !IsPolarBaseCell(b) ==>
      0 <= r.cwOffsetPent.0 < NUM_ICOSA_FACES && 0 <= r.cwOffsetPent.1 < NUM_ICOSA_FACES && r.cwOffsetPent.0 != r.cwOffsetPent.1
  {
    if b < 106 then (if b < 105 then (BaseCellData(FaceIjk(13, Ijk(0, 0, 1)), false, (0, 0))) else (BaseCellData(FaceIjk(17, Ijk(0, 0, 0)), false, (0, 0)))) else (if b < 107 then (BaseCellData(FaceIjk(16, Ijk(1, 0, 0)), false, (0, 0))) else (BaseCellData(FaceIjk(9, Ijk(2, 0, 0)), true, (14, 18))))
  }

  /** Rows 108 to 111 of BaseCellDataOf. */
  function DataBlock108(b: int): (r: BaseCellData)
    requires 108 <= b < 112
    ensures r.isPentagon == IsBaseCellPentagonArr(b)
    ensures 0 <= r.homeFijk.face < NUM_ICOSA_FACES
    ensures 0 <= r.homeFijk.coord.i <= MAX_FACE_COORD && 0 <= r.homeFijk.coord.j <= MAX_FACE_COORD
      && 0 <= r.homeFijk.coord.k <= MAX_FACE_COORD
    ensures IsPolarBaseCell(b) <==> r.cwOffsetPent == (-1, -1)
    ensures !r.isPentagon ==> r.cwOffsetPent == (0, 0)
    ensures r.isPentagon && !IsPolarBaseCell(b) ==>
      0 <= r.cwOffsetPent.0 < NUM_ICOSA_FACES && 0 <= r.cwOffsetPent.1 < NUM_ICOSA_FACES && r.cwOffsetPent.0 != r.cwOffsetPent.1
  {
    if b < 110 then (if b < 109 then (BaseCellData(FaceIjk(15, Ijk(1, 0, 1)), false, (0, 0))) else (BaseCellData(FaceIjk(15, Ijk(1, 0, 0)), false, (0, 0)))) else (if b < 111 then (BaseCellData(FaceIjk(18, Ijk(0, 1, 1)), false, (0, 0))) else (BaseCellData(FaceIjk(18, Ijk(0, 0, 1)), false, (0, 0))))
  }

  /** Rows 112 to 115 of BaseCellDataOf. */
  function DataBlock112(b: int): (r: BaseCellData)
    requires 112 <= b < 116
    ensures r.isPentagon == IsBaseCellPentagonArr(b)
    ensures 0 <= r.homeFijk.face < NUM_ICOSA_FACES
    ensures 0 <= r.homeFijk.coord.i <= MAX_FACE_COORD && 0 <= r.homeFijk.coord.j <= MAX_FACE_COORD
      && 0 <= r.homeFijk.coord.k <= MAX_FACE_COORD
    ensures IsPolarBaseCell(b) <==> r.cwOffsetPent == (-1, -1)
    ensures !r.isPentagon ==> r.cwOffsetPent == (0, 0)
    ensures r.isPentagon && !IsPolarBaseCell(b) ==>
      0 <= r.cwOffsetPent.0 < NUM_ICOSA_FACES && 0 <= r.cwOffsetPent.1 < NUM_ICOSA_FACES && r.cwOffsetPent.0 != r.cwOffsetPent.1
  {
    if b < 114 then (if b < 113 then (BaseCellData(FaceIjk(19, Ijk(0, 0, 1)), false, (0, 0))) else (BaseCellData(FaceIjk(17, Ijk(1, 0, 0)), false, (0, 0)))) else (if b < 115 then (BaseCellData(FaceIjk(19, Ijk(0, 0, 0)), false, (0, 0))) else (BaseCellData(FaceIjk(18, Ijk(0, 1, 0)), false, (0, 0))))
  }

  /** Rows 116 to 119 of BaseCellDataOf. */
  function DataBlock116(b: int): (r: BaseCellData)
    requires 116 <= b < 120
    ensures r.isPentagon == IsBaseCellPentagonArr(b)
    ensures 0 <= r.homeFijk.face < NUM_ICOSA_FACES
    ensures 0 <= r.homeFijk.coord.i <= MAX_FACE_COORD && 0 <= r.homeFijk.coord.j <= MAX_FACE_COORD
      && 0 <= r.homeFijk.coord.k <= MAX_FACE_COORD
    ensures IsPolarBaseCell(b) <==> r.cwOffsetPent == (-1, -1)
    ensures !r.isPentagon ==> r.cwOffsetPent == (0, 0)
    ensures r.isPentagon && !IsPolarBaseCell(b) ==>
      0 <= r.cwOffsetPent.0 < NUM_ICOSA_FACES && 0 <= r.cwOffsetPent.1 < NUM_ICOSA_FACES && r.cwOffsetPent.0 != r.cwOffsetPent.1
  {
    if b < 118 then (if b < 117 then (BaseCellData(FaceIjk(18, Ijk(1, 0, 1)), false, (0, 0))) else (BaseCellData(FaceIjk(19, Ijk(2, 0, 0)), true, (-1, -1)))) else (if b < 119 then (BaseCellData(FaceIjk(19, Ijk(1, 0, 0)), false, (0, 0))) else (BaseCellData(FaceIjk(18, Ijk(0, 0, 0)), false, (0, 0))))
  }

  /** Rows 120 to 121 of BaseCellDataOf. */
  function DataBlock120(b: int): (r: BaseCellData)
    requires 120 <= b < 122
    ensures r.isPentagon == IsBaseCellPentagonArr(b)
    ensures 0 <= r.homeFijk.face < NUM_ICOSA_FACES
    ensures 0 <= r.homeFijk.coord.i <= MAX_FACE_COORD && 0 <= r.homeFijk.coord.j <= MAX_FACE_COORD
      && 0 <= r.homeFijk.coord.k <= MAX_FACE_COORD
    ensures IsPolarBaseCell(b) <==> r.cwOffsetPent == (-1, -1)
    ensures !r.isPentagon ==> r.cwOffsetPent == (0, 0)
    ensures r.isPentagon && !IsPolarBaseCell(b) ==>
      0 <= r.cwOffsetPent.0 < NUM_ICOSA_FACES && 0 <= r.cwOffsetPent.1 < NUM_ICOSA_FACES && r.cwOffsetPent.0 != r.cwOffsetPent.1
  {
    if b < 121 then (BaseCellData(FaceIjk(19, Ijk(1, 0, 1)), false, (0, 0))) else (BaseCellData(FaceIjk(18, Ijk(1, 0, 0)), false, (0, 0)))
  }

  /** baseCellData: the home face and coordinate of b; the pentagon flag,
      which agrees with the list of pentagon base cells; and the clockwise
      offset faces, (-1, -1) exactly for the polar pentagons, two distinct
      faces for the other pentagons and (0, 0) for a hexagon. */
  function BaseCellDataOf(b: int): (r: BaseCellData)
    requires 0 <= b < NUM_BASE_CELLS
    ensures r.isPentagon == IsBaseCellPentagonArr(b)
    ensures 0 <= r.homeFijk.face < NUM_ICOSA_FACES
    ensures 0 <= r.homeFijk.coord.i <= MAX_FACE_COORD && 0 <= r.homeFijk.coord.j <= MAX_FACE_COORD
      && 0 <= r.homeFijk.coord.k <= MAX_FACE_COORD
    ensures IsPolarBaseCell(b) <==> r.cwOffsetPent == (-1, -1)
    ensures !r.isPentagon ==> r.cwOffsetPent == (0, 0)
    ensures r.isPentagon && !IsPolarBaseCell(b) ==>
      0 <= r.cwOffsetPent.0 < NUM_ICOSA_FACES && 0 <= r.cwOffsetPent.1 < NUM_ICOSA_FACES && r.cwOffsetPent.0 != r.cwOffsetPent.1
  {
    if b < 60 then if b < 28 then if b < 12 then if b < 4 then DataBlock0(b) else if b < 8 then DataBlock4(b) else DataBlock8(b) else if b < 20 then if b < 16 then DataBlock12(b) else DataBlock16(b) else if b < 24 then DataBlock20(b) else DataBlock24(b) else if b < 44 then if b < 36 then if b < 32 then DataBlock28(b) else DataBlock32(b) else if b < 40 then DataBlock36(b) else DataBlock40(b) else if b < 52 then if b < 48 then DataBlock44(b) else DataBlock48(b) else if b < 56 then DataBlock52(b) else DataBlock56(b) else if b < 92 then if b < 76 then if b < 68 then if b < 64 then DataBlock60(b) else DataBlock64(b) else if b < 72 then DataBlock68(b) else DataBlock72(b) else if b < 84 then if b < 80 then DataBlock76(b) else DataBlock80(b) else if b < 88 then DataBlock84(b) else DataBlock88(b) else if b < 108 then if b < 100 then if b < 96 then DataBlock92(b) else DataBlock96(b) else if b < 104 then DataBlock100(b) else DataBlock104(b) else if b < 116 then if b < 112 then DataBlock108(b) else DataBlock112(b) else if b < 120 then DataBlock116(b) else DataBlock120(b)
  }

  /** The entry at the home coordinate of b, on its home face, is b itself
      with no rotation. */
  predicate HomeEntry(b: int)
    requires 0 <= b < NUM_BASE_CELLS
  {
    var h := BaseCellDataOf(b).homeFijk;
    FaceIjkBaseCells(h.face)[h.coord.i][h.coord.j][h.coord.k] == BaseCellRotation(b, 0)
  }

  lemma HomeEntries0()
    ensures forall b | 0 <= b < 4 :: HomeEntry(b)
  {
    forall b | 0 <= b < 4
      ensures HomeEntry(b)
    {
      if b == 0 {
        assert BaseCellDataOf(0).homeFijk == FaceIjk(1, Ijk(1, 0, 0));
        assert FaceIjkBaseCells(1)[1][0][0] == BaseCellRotation(0, 0);
      } else if b == 1 {
        assert BaseCellDataOf(1).homeFijk == FaceIjk(2, Ijk(1, 1, 0));
        assert FaceIjkBaseCells(2)[1][1][0] == BaseCellRotation(1, 0);
      } else if b == 2 {
        assert BaseCellDataOf(2).homeFijk == FaceIjk(1, Ijk(0, 0, 0));
        assert FaceIjkBaseCells(1)[0][0][0] == BaseCellRotation(2, 0);
      } else {
        assert BaseCellDataOf(3).homeFijk == FaceIjk(2, Ijk(1, 0, 0));
        assert FaceIjkBaseCells(2)[1][0][0] == BaseCellRotation(3, 0);
      }
    }
  }

  lemma HomeEntries4()
    ensures forall b | 4 <= b < 8 :: HomeEntry(b)
  {
    forall b | 4 <= b < 8
      ensures HomeEntry(b)
    {
      if b == 4 {
        assert BaseCellDataOf(4).homeFijk == FaceIjk(0, Ijk(2, 0, 0));
        assert FaceIjkBaseCells(0)[2][0][0] == BaseCellRotation(4, 0);
      } else if b == 5 {
        assert BaseCellDataOf(5).homeFijk == FaceIjk(1, Ijk(1, 1, 0));
        assert FaceIjkBaseCells(1)[1][1][0] == BaseCellRotation(5, 0);
      } else if b == 6 {
        assert BaseCellDataOf(6).homeFijk == FaceIjk(1, Ijk(0, 0, 1));
        assert FaceIjkBaseCells(1)[0][0][1] == BaseCellRotation(6, 0);
      } else {
        assert BaseCellDataOf(7).homeFijk == FaceIjk(2, Ijk(0, 0, 0));
        assert FaceIjkBaseCells(2)[0][0][0] == BaseCellRotation(7, 0);
      }
    }
  }

  lemma HomeEntries8()
    ensures forall b | 8 <= b < 12 :: HomeEntry(b)
  {
    forall b | 8 <= b < 12
      ensures HomeEntry(b)
    {
      if b == 8 {
        assert BaseCellDataOf(8).homeFijk == FaceIjk(0, Ijk(1, 0, 0));
        assert FaceIjkBaseCells(0)[1][0][0] == BaseCellRotation(8, 0);
      } else if b == 9 {
        assert BaseCellDataOf(9).homeFijk == FaceIjk(2, Ijk(0, 1, 0));
        assert FaceIjkBaseCells(2)[0][1][0] == BaseCellRotation(9, 0);
      } else if b == 10 {
        assert BaseCellDataOf(10).homeFijk == FaceIjk(1, Ijk(0, 1, 0));
        assert FaceIjkBaseCells(1)[0][1][0] == BaseCellRotation(10, 0);
      } else {
        assert BaseCellDataOf(11).homeFijk == FaceIjk(1, Ijk(0, 1, 1));
        assert FaceIjkBaseCells(1)[0][1][1] == BaseCellRotation(11, 0);
      }
    }
  }

  lemma HomeEntries12()
    ensures forall b | 12 <= b < 16 :: HomeEntry(b)
  {
    forall b | 12 <= b < 16
      ensures HomeEntry(b)
    {
      if b == 12 {
        assert BaseCellDataOf(12).homeFijk == FaceIjk(3, Ijk(1, 0, 0));
        assert FaceIjkBaseCells(3)[1][0][0] == BaseCellRotation(12, 0);
      } else if b == 13 {
        assert BaseCellDataOf(13).homeFijk == FaceIjk(3, Ijk(1, 1, 0));
        assert FaceIjkBaseCells(3)[1][1][0] == BaseCellRotation(13, 0);
      } else if b == 14 {
        assert BaseCellDataOf(14).homeFijk == FaceIjk(11, Ijk(2, 0, 0));
        assert FaceIjkBaseCells(11)[2][0][0] == BaseCellRotation(14, 0);
      } else {
        assert BaseCellDataOf(15).homeFijk == FaceIjk(4, Ijk(1, 0, 0));
        assert FaceIjkBaseCells(4)[1][0][0] == BaseCellRotation(15, 0);
      }
    }
  }

  lemma HomeEntries16()
    ensures forall b | 16 <= b < 20 :: HomeEntry(b)
  {
    forall b | 16 <= b < 20
      ensures HomeEntry(b)
    {
      if b == 16 {
        assert BaseCellDataOf(16).homeFijk == FaceIjk(0, Ijk(0, 0, 0));
        assert FaceIjkBaseCells(0)[0][0][0] == BaseCellRotation(16, 0);
      } else if b == 17 {
        assert BaseCellDataOf(17).homeFijk == FaceIjk(6, Ijk(0, 1, 0));
        assert FaceIjkBaseCells(6)[0][1][0] == BaseCellRotation(17, 0);
      } else if b == 18 {
        assert BaseCellDataOf(18).homeFijk == FaceIjk(0, Ijk(0, 0, 1));
        assert FaceIjkBaseCells(0)[0][0][1] == BaseCellRotation(18, 0);
      } else {
        assert BaseCellDataOf(19).homeFijk == FaceIjk(2, Ijk(0, 1, 1));
        assert FaceIjkBaseCells(2)[0][1][1] == BaseCellRotation(19, 0);
      }
    }
  }

  lemma HomeEntries20()
    ensures forall b | 20 <= b < 24 :: HomeEntry(b)
  {
    forall b | 20 <= b < 24
      ensures HomeEntry(b)
    {
      if b == 20 {
        assert BaseCellDataOf(20).homeFijk == FaceIjk(7, Ijk(0, 0, 1));
        assert FaceIjkBaseCells(7)[0][0][1] == BaseCellRotation(20, 0);
      } else if b == 21 {
        assert BaseCellDataOf(21).homeFijk == FaceIjk(2, Ijk(0, 0, 1));
        assert FaceIjkBaseCells(2)[0][0][1] == BaseCellRotation(21, 0);
      } else if b == 22 {
        assert BaseCellDataOf(22).homeFijk == FaceIjk(0, Ijk(1, 1, 0));
        assert FaceIjkBaseCells(0)[1][1][0] == BaseCellRotation(22, 0);
      } else {
        assert BaseCellDataOf(23).homeFijk == FaceIjk(6, Ijk(0, 0, 1));
        assert FaceIjkBaseCells(6)[0][0][1] == BaseCellRotation(23, 0);
      }
    }
  }

  lemma HomeEntries24()
    ensures forall b | 24 <= b < 28 :: HomeEntry(b)
  {
    forall b | 24 <= b < 28
      ensures HomeEntry(b)
    {
      if b == 24 {
        assert BaseCellDataOf(24).homeFijk == FaceIjk(10, Ijk(2, 0, 0));
        assert FaceIjkBaseCells(10)[2][0][0] == BaseCellRotation(24, 0);
      } else if b == 25 {
        assert BaseCellDataOf(25).homeFijk == FaceIjk(6, Ijk(0, 0, 0));
        assert FaceIjkBaseCells(6)[0][0][0] == BaseCellRotation(25, 0);
      } else if b == 26 {
        assert BaseCellDataOf(26).homeFijk == FaceIjk(3, Ijk(0, 0, 0));
        assert FaceIjkBaseCells(3)[0][0][0] == BaseCellRotation(26, 0);
      } else {
        assert BaseCellDataOf(27).homeFijk == FaceIjk(11, Ijk(1, 0, 0));
        assert FaceIjkBaseCells(11)[1][0][0] == BaseCellRotation(27, 0);
      }
    }
  }

  lemma HomeEntries28()
    ensures forall b | 28 <= b < 32 :: HomeEntry(b)
  {
    forall b | 28 <= b < 32
      ensures HomeEntry(b)
    {
      if b == 28 {
        assert BaseCellDataOf(28).homeFijk == FaceIjk(4, Ijk(1, 1, 0));
        assert FaceIjkBaseCells(4)[1][1][0] == BaseCellRotation(28, 0);
      } else if b == 29 {
        assert BaseCellDataOf(29).homeFijk == FaceIjk(3, Ijk(0, 1, 0));
        assert FaceIjkBaseCells(3)[0][1][0] == BaseCellRotation(29, 0);
      } else if b == 30 {
        assert BaseCellDataOf(30).homeFijk == FaceIjk(0, Ijk(0, 1, 1));
        assert FaceIjkBaseCells(0)[0][1][1] == BaseCellRotation(30, 0);
      } else {
        assert BaseCellDataOf(31).homeFijk == FaceIjk(4, Ijk(0, 0, 0));
        assert FaceIjkBaseCells(4)[0][0][0] == BaseCellRotation(31, 0);
      }
    }
  }

  lemma HomeEntries32()
    ensures forall b | 32 <= b < 36 :: HomeEntry(b)
  {
    forall b | 32 <= b < 36
      ensures HomeEntry(b)
    {
      if b == 32 {
        assert BaseCellDataOf(32).homeFijk == FaceIjk(5, Ijk(0, 1, 0));
        assert FaceIjkBaseCells(5)[0][1][0] == BaseCellRotation(32, 0);
      } else if b == 33 {
        assert BaseCellDataOf(33).homeFijk == FaceIjk(0, Ijk(0, 1, 0));
        assert FaceIjkBaseCells(0)[0][1][0] == BaseCellRotation(33, 0);
      } else if b == 34 {
        assert BaseCellDataOf(34).homeFijk == FaceIjk(7, Ijk(0, 1, 0));
        assert FaceIjkBaseCells(7)[0][1][0] == BaseCellRotation(34, 0);
      } else {
        assert BaseCellDataOf(35).homeFijk == FaceIjk(11, Ijk(1, 1, 0));
        assert FaceIjkBaseCells(11)[1][1][0] == BaseCellRotation(35, 0);
      }
    }
  }

  lemma HomeEntries36()
    ensures forall b | 36 <= b < 40 :: HomeEntry(b)
  {
    forall b | 36 <= b < 40
      ensures HomeEntry(b)
    {
      if b == 36 {
        assert BaseCellDataOf(36).homeFijk == FaceIjk(7, Ijk(0, 0, 0));
        assert FaceIjkBaseCells(7)[0][0][0] == BaseCellRotation(36, 0);
      } else if b == 37 {
        assert BaseCellDataOf(37).homeFijk == FaceIjk(10, Ijk(1, 0, 0));
        assert FaceIjkBaseCells(10)[1][0][0] == BaseCellRotation(37, 0);
      } else if b == 38 {
        assert BaseCellDataOf(38).homeFijk == FaceIjk(12, Ijk(2, 0, 0));
        assert FaceIjkBaseCells(12)[2][0][0] == BaseCellRotation(38, 0);
      } else {
        assert BaseCellDataOf(39).homeFijk == FaceIjk(6, Ijk(1, 0, 1));
        assert FaceIjkBaseCells(6)[1][0][1] == BaseCellRotation(39, 0);
      }
    }
  }

  lemma HomeEntries40()
    ensures forall b | 40 <= b < 44 :: HomeEntry(b)
  {
    forall b | 40 <= b < 44
      ensures HomeEntry(b)
    {
      if b == 40 {
        assert BaseCellDataOf(40).homeFijk == FaceIjk(7, Ijk(1, 0, 1));
        assert FaceIjkBaseCells(7)[1][0][1] == BaseCellRotation(40, 0);
      } else if b == 41 {
        assert BaseCellDataOf(41).homeFijk == FaceIjk(4, Ijk(0, 0, 1));
        assert FaceIjkBaseCells(4)[0][0][1] == BaseCellRotation(41, 0);
      } else if b == 42 {
        assert BaseCellDataOf(42).homeFijk == FaceIjk(3, Ijk(0, 0, 1));
        assert FaceIjkBaseCells(3)[0][0][1] == BaseCellRotation(42, 0);
      } else {
        assert BaseCellDataOf(43).homeFijk == FaceIjk(3, Ijk(0, 1, 1));
        assert FaceIjkBaseCells(3)[0][1][1] == BaseCellRotation(43, 0);
      }
    }
  }

  lemma HomeEntries44()
    ensures forall b | 44 <= b < 48 :: HomeEntry(b)
  {
    forall b | 44 <= b < 48
      ensures HomeEntry(b)
    {
      if b == 44 {
        assert BaseCellDataOf(44).homeFijk == FaceIjk(4, Ijk(0, 1, 0));
        assert FaceIjkBaseCells(4)[0][1][0] == BaseCellRotation(44, 0);
      } else if b == 45 {
        assert BaseCellDataOf(45).homeFijk == FaceIjk(6, Ijk(1, 0, 0));
        assert FaceIjkBaseCells(6)[1][0][0] == BaseCellRotation(45, 0);
      } else if b == 46 {
        assert BaseCellDataOf(46).homeFijk == FaceIjk(11, Ijk(0, 0, 0));
        assert FaceIjkBaseCells(11)[0][0][0] == BaseCellRotation(46, 0);
      } else {
        assert BaseCellDataOf(47).homeFijk == FaceIjk(8, Ijk(0, 0, 1));
        assert FaceIjkBaseCells(8)[0][0][1] == BaseCellRotation(47, 0);
      }
    }
  }

  lemma HomeEntries48()
    ensures forall b | 48 <= b < 52 :: HomeEntry(b)
  {
    forall b | 48 <= b < 52
      ensures HomeEntry(b)
    {
      if b == 48 {
        assert BaseCellDataOf(48).homeFijk == FaceIjk(5, Ijk(0, 0, 1));
        assert FaceIjkBaseCells(5)[0][0][1] == BaseCellRotation(48, 0);
      } else if b == 49 {
        assert BaseCellDataOf(49).homeFijk == FaceIjk(14, Ijk(2, 0, 0));
        assert FaceIjkBaseCells(14)[2][0][0] == BaseCellRotation(49, 0);
      } else if b == 50 {
        assert BaseCellDataOf(50).homeFijk == FaceIjk(5, Ijk(0, 0, 0));
        assert FaceIjkBaseCells(5)[0][0][0] == BaseCellRotation(50, 0);
      } else {
        assert BaseCellDataOf(51).homeFijk == FaceIjk(12, Ijk(1, 0, 0));
        assert FaceIjkBaseCells(12)[1][0][0] == BaseCellRotation(51, 0);
      }
    }
  }

  lemma HomeEntries52()
    ensures forall b | 52 <= b < 56 :: HomeEntry(b)
  {
    forall b | 52 <= b < 56
      ensures HomeEntry(b)
    {
      if b == 52 {
        assert BaseCellDataOf(52).homeFijk == FaceIjk(10, Ijk(1, 1, 0));
        assert FaceIjkBaseCells(10)[1][1][0] == BaseCellRotation(52, 0);
      } else if b == 53 {
        assert BaseCellDataOf(53).homeFijk == FaceIjk(4, Ijk(0, 1, 1));
        assert FaceIjkBaseCells(4)[0][1][1] == BaseCellRotation(53, 0);
      } else if b == 54 {
        assert BaseCellDataOf(54).homeFijk == FaceIjk(12, Ijk(1, 1, 0));
        assert FaceIjkBaseCells(12)[1][1][0] == BaseCellRotation(54, 0);
      } else {
        assert BaseCellDataOf(55).homeFijk == FaceIjk(7, Ijk(1, 0, 0));
        assert FaceIjkBaseCells(7)[1][0][0] == BaseCellRotation(55, 0);
      }
    }
  }

  lemma HomeEntries56()
    ensures forall b | 56 <= b < 60 :: HomeEntry(b)
  {
    forall b | 56 <= b < 60
      ensures HomeEntry(b)
    {
      if b == 56 {
        assert BaseCellDataOf(56).homeFijk == FaceIjk(11, Ijk(0, 1, 0));
        assert FaceIjkBaseCells(11)[0][1][0] == BaseCellRotation(56, 0);
      } else if b == 57 {
        assert BaseCellDataOf(57).homeFijk == FaceIjk(10, Ijk(0, 0, 0));
        assert FaceIjkBaseCells(10)[0][0][0] == BaseCellRotation(57, 0);
      } else if b == 58 {
        assert BaseCellDataOf(58).homeFijk == FaceIjk(13, Ijk(2, 0, 0));
        assert FaceIjkBaseCells(13)[2][0][0] == BaseCellRotation(58, 0);
      } else {
        assert BaseCellDataOf(59).homeFijk == FaceIjk(10, Ijk(0, 0, 1));
        assert FaceIjkBaseCells(10)[0][0][1] == BaseCellRotation(59, 0);
      }
    }
  }

  lemma HomeEntries60()
    ensures forall b | 60 <= b < 64 :: HomeEntry(b)
  {
    forall b | 60 <= b < 64
      ensures HomeEntry(b)
    {
      if b == 60 {
        assert BaseCellDataOf(60).homeFijk == FaceIjk(11, Ijk(0, 0, 1));
        assert FaceIjkBaseCells(11)[0][0][1] == BaseCellRotation(60, 0);
      } else if b == 61 {
        assert BaseCellDataOf(61).homeFijk == FaceIjk(9, Ijk(0, 1, 0));
        assert FaceIjkBaseCells(9)[0][1][0] == BaseCellRotation(61, 0);
      } else if b == 62 {
        assert BaseCellDataOf(62).homeFijk == FaceIjk(8, Ijk(0, 1, 0));
        assert FaceIjkBaseCells(8)[0][1][0] == BaseCellRotation(62, 0);
      } else {
        assert BaseCellDataOf(63).homeFijk == FaceIjk(6, Ijk(2, 0, 0));
        assert FaceIjkBaseCells(6)[2][0][0] == BaseCellRotation(63, 0);
      }
    }
  }

  lemma HomeEntries64()
    ensures forall b | 64 <= b < 68 :: HomeEntry(b)
  {
    forall b | 64 <= b < 68
      ensures HomeEntry(b)
    {
      if b == 64 {
        assert BaseCellDataOf(64).homeFijk == FaceIjk(8, Ijk(0, 0, 0));
        assert FaceIjkBaseCells(8)[0][0][0] == BaseCellRotation(64, 0);
      } else if b == 65 {
        assert BaseCellDataOf(65).homeFijk == FaceIjk(9, Ijk(0, 0, 1));
        assert FaceIjkBaseCells(9)[0][0][1] == BaseCellRotation(65, 0);
      } else if b == 66 {
        assert BaseCellDataOf(66).homeFijk == FaceIjk(14, Ijk(1, 0, 0));
        assert FaceIjkBaseCells(14)[1][0][0] == BaseCellRotation(66, 0);
      } else {
        assert BaseCellDataOf(67).homeFijk == FaceIjk(5, Ijk(1, 0, 1));
        assert FaceIjkBaseCells(5)[1][0][1] == BaseCellRotation(67, 0);
      }
    }
  }

  lemma HomeEntries68()
    ensures forall b | 68 <= b < 72 :: HomeEntry(b)
  {
    forall b | 68 <= b < 72
      ensures HomeEntry(b)
    {
      if b == 68 {
        assert BaseCellDataOf(68).homeFijk == FaceIjk(16, Ijk(0, 1, 1));
        assert FaceIjkBaseCells(16)[0][1][1] == BaseCellRotation(68, 0);
      } else if b == 69 {
        assert BaseCellDataOf(69).homeFijk == FaceIjk(8, Ijk(1, 0, 1));
        assert FaceIjkBaseCells(8)[1][0][1] == BaseCellRotation(69, 0);
      } else if b == 70 {
        assert BaseCellDataOf(70).homeFijk == FaceIjk(5, Ijk(1, 0, 0));
        assert FaceIjkBaseCells(5)[1][0][0] == BaseCellRotation(70, 0);
      } else {
        assert BaseCellDataOf(71).homeFijk == FaceIjk(12, Ijk(0, 0, 0));
        assert FaceIjkBaseCells(12)[0][0][0] == BaseCellRotation(71, 0);
      }
    }
  }

  lemma HomeEntries72()
    ensures forall b | 72 <= b < 76 :: HomeEntry(b)
  {
    forall b | 72 <= b < 76
      ensures HomeEntry(b)
    {
      if b == 72 {
        assert BaseCellDataOf(72).homeFijk == FaceIjk(7, Ijk(2, 0, 0));
        assert FaceIjkBaseCells(7)[2][0][0] == BaseCellRotation(72, 0);
      } else if b == 73 {
        assert BaseCellDataOf(73).homeFijk == FaceIjk(12, Ijk(0, 1, 0));
        assert FaceIjkBaseCells(12)[0][1][0] == BaseCellRotation(73, 0);
      } else if b == 74 {
        assert BaseCellDataOf(74).homeFijk == FaceIjk(10, Ijk(0, 1, 0));
        assert FaceIjkBaseCells(10)[0][1][0] == BaseCellRotation(74, 0);
      } else {
        assert BaseCellDataOf(75).homeFijk == FaceIjk(9, Ijk(0, 0, 0));
        assert FaceIjkBaseCells(9)[0][0][0] == BaseCellRotation(75, 0);
      }
    }
  }

  lemma HomeEntries76()
    ensures forall b | 76 <= b < 80 :: HomeEntry(b)
  {
    forall b | 76 <= b < 80
      ensures HomeEntry(b)
    {
      if b == 76 {
        assert BaseCellDataOf(76).homeFijk == FaceIjk(13, Ijk(1, 0, 0));
        assert FaceIjkBaseCells(13)[1][0][0] == BaseCellRotation(76, 0);
      } else if b == 77 {
        assert BaseCellDataOf(77).homeFijk == FaceIjk(16, Ijk(0, 0, 1));
        assert FaceIjkBaseCells(16)[0][0][1] == BaseCellRotation(77, 0);
      } else if b == 78 {
        assert BaseCellDataOf(78).homeFijk == FaceIjk(15, Ijk(0, 1, 1));
        assert FaceIjkBaseCells(15)[0][1][1] == BaseCellRotation(78, 0);
      } else {
        assert BaseCellDataOf(79).homeFijk == FaceIjk(15, Ijk(0, 1, 0));
        assert FaceIjkBaseCells(15)[0][1][0] == BaseCellRotation(79, 0);
      }
    }
  }

  lemma HomeEntries80()
    ensures forall b | 80 <= b < 84 :: HomeEntry(b)
  {
    forall b | 80 <= b < 84
      ensures HomeEntry(b)
    {
      if b == 80 {
        assert BaseCellDataOf(80).homeFijk == FaceIjk(16, Ijk(0, 1, 0));
        assert FaceIjkBaseCells(16)[0][1][0] == BaseCellRotation(80, 0);
      } else if b == 81 {
        assert BaseCellDataOf(81).homeFijk == FaceIjk(14, Ijk(1, 1, 0));
        assert FaceIjkBaseCells(14)[1][1][0] == BaseCellRotation(81, 0);
      } else if b == 82 {
        assert BaseCellDataOf(82).homeFijk == FaceIjk(13, Ijk(1, 1, 0));
        assert FaceIjkBaseCells(13)[1][1][0] == BaseCellRotation(82, 0);
      } else {
        assert BaseCellDataOf(83).homeFijk == FaceIjk(5, Ijk(2, 0, 0));
        assert FaceIjkBaseCells(5)[2][0][0] == BaseCellRotation(83, 0);
      }
    }
  }

  lemma HomeEntries84()
    ensures forall b | 84 <= b < 88 :: HomeEntry(b)
  {
    forall b | 84 <= b < 88
      ensures HomeEntry(b)
    {
      if b == 84 {
        assert BaseCellDataOf(84).homeFijk == FaceIjk(8, Ijk(1, 0, 0));
        assert FaceIjkBaseCells(8)[1][0][0] == BaseCellRotation(84, 0);
      } else if b == 85 {
        assert BaseCellDataOf(85).homeFijk == FaceIjk(14, Ijk(0, 0, 0));
        assert FaceIjkBaseCells(14)[0][0][0] == BaseCellRotation(85, 0);
      } else if b == 86 {
        assert BaseCellDataOf(86).homeFijk == FaceIjk(9, Ijk(1, 0, 1));
        assert FaceIjkBaseCells(9)[1][0][1] == BaseCellRotation(86, 0);
      } else {
        assert BaseCellDataOf(87).homeFijk == FaceIjk(14, Ijk(0, 0, 1));
        assert FaceIjkBaseCells(14)[0][0][1] == BaseCellRotation(87, 0);
      }
    }
  }

  lemma HomeEntries88()
    ensures forall b | 88 <= b < 92 :: HomeEntry(b)
  {
    forall b | 88 <= b < 92
      ensures HomeEntry(b)
    {
      if b == 88 {
        assert BaseCellDataOf(88).homeFijk == FaceIjk(17, Ijk(0, 0, 1));
        assert FaceIjkBaseCells(17)[0][0][1] == BaseCellRotation(88, 0);
      } else if b == 89 {
        assert BaseCellDataOf(89).homeFijk == FaceIjk(12, Ijk(0, 0, 1));
        assert FaceIjkBaseCells(12)[0][0][1] == BaseCellRotation(89, 0);
      } else if b == 90 {
        assert BaseCellDataOf(90).homeFijk == FaceIjk(16, Ijk(0, 0, 0));
        assert FaceIjkBaseCells(16)[0][0][0] == BaseCellRotation(90, 0);
      } else {
        assert BaseCellDataOf(91).homeFijk == FaceIjk(17, Ijk(0, 1, 1));
        assert FaceIjkBaseCells(17)[0][1][1] == BaseCellRotation(91, 0);
      }
    }
  }

  lemma HomeEntries92()
    ensures forall b | 92 <= b < 96 :: HomeEntry(b)
  {
    forall b | 92 <= b < 96
      ensures HomeEntry(b)
    {
      if b == 92 {
        assert BaseCellDataOf(92).homeFijk == FaceIjk(15, Ijk(0, 0, 1));
        assert FaceIjkBaseCells(15)[0][0][1] == BaseCellRotation(92, 0);
      } else if b == 93 {
        assert BaseCellDataOf(93).homeFijk == FaceIjk(16, Ijk(1, 0, 1));
        assert FaceIjkBaseCells(16)[1][0][1] == BaseCellRotation(93, 0);
      } else if b == 94 {
        assert BaseCellDataOf(94).homeFijk == FaceIjk(9, Ijk(1, 0, 0));
        assert FaceIjkBaseCells(9)[1][0][0] == BaseCellRotation(94, 0);
      } else {
        assert BaseCellDataOf(95).homeFijk == FaceIjk(15, Ijk(0, 0, 0));
        assert FaceIjkBaseCells(15)[0][0][0] == BaseCellRotation(95, 0);
      }
    }
  }

  lemma HomeEntries96()
    ensures forall b | 96 <= b < 100 :: HomeEntry(b)
  {
    forall b | 96 <= b < 100
      ensures HomeEntry(b)
    {
      if b == 96 {
        assert BaseCellDataOf(96).homeFijk == FaceIjk(13, Ijk(0, 0, 0));
        assert FaceIjkBaseCells(13)[0][0][0] == BaseCellRotation(96, 0);
      } else if b == 97 {
        assert BaseCellDataOf(97).homeFijk == FaceIjk(8, Ijk(2, 0, 0));
        assert FaceIjkBaseCells(8)[2][0][0] == BaseCellRotation(97, 0);
      } else if b == 98 {
        assert BaseCellDataOf(98).homeFijk == FaceIjk(13, Ijk(0, 1, 0));
        assert FaceIjkBaseCells(13)[0][1][0] == BaseCellRotation(98, 0);
      } else {
        assert BaseCellDataOf(99).homeFijk == FaceIjk(17, Ijk(1, 0, 1));
        assert FaceIjkBaseCells(17)[1][0][1] == BaseCellRotation(99, 0);
      }
    }
  }

  lemma HomeEntries100()
    ensures forall b | 100 <= b < 104 :: HomeEntry(b)
  {
    forall b | 100 <= b < 104
      ensures HomeEntry(b)
    {
      if b == 100 {
        assert BaseCellDataOf(100).homeFijk == FaceIjk(19, Ijk(0, 1, 0));
        assert FaceIjkBaseCells(19)[0][1][0] == BaseCellRotation(100, 0);
      } else if b == 101 {
        assert BaseCellDataOf(101).homeFijk == FaceIjk(14, Ijk(0, 1, 0));
        assert FaceIjkBaseCells(14)[0][1][0] == BaseCellRotation(101, 0);
      } else if b == 102 {
        assert BaseCellDataOf(102).homeFijk == FaceIjk(19, Ijk(0, 1, 1));
        assert FaceIjkBaseCells(19)[0][1][1] == BaseCellRotation(102, 0);
      } else {
        assert BaseCellDataOf(103).homeFijk == FaceIjk(17, Ijk(0, 1, 0));
        assert FaceIjkBaseCells(17)[0][1][0] == BaseCellRotation(103, 0);
      }
    }
  }

  lemma HomeEntries104()
    ensures forall b | 104 <= b < 108 :: HomeEntry(b)
  {
    forall b | 104 <= b < 108
      ensures HomeEntry(b)
    {
      if b == 104 {
        assert BaseCellDataOf(104).homeFijk == FaceIjk(13, Ijk(0, 0, 1));
        assert FaceIjkBaseCells(13)[0][0][1] == BaseCellRotation(104, 0);
      } else if b == 105 {
        assert BaseCellDataOf(105).homeFijk == FaceIjk(17, Ijk(0, 0, 0));
        assert FaceIjkBaseCells(17)[0][0][0] == BaseCellRotation(105, 0);
      } else if b == 106 {
        assert BaseCellDataOf(106).homeFijk == FaceIjk(16, Ijk(1, 0, 0));
        assert FaceIjkBaseCells(16)[1][0][0] == BaseCellRotation(106, 0);
      } else {
        assert BaseCellDataOf(107).homeFijk == FaceIjk(9, Ijk(2, 0, 0));
        assert FaceIjkBaseCells(9)[2][0][0] == BaseCellRotation(107, 0);
      }
    }
  }

  lemma HomeEntries108()
    ensures forall b | 108 <= b < 112 :: HomeEntry(b)
  {
    forall b | 108 <= b < 112
      ensures HomeEntry(b)
    {
      if b == 108 {
        assert BaseCellDataOf(108).homeFijk == FaceIjk(15, Ijk(1, 0, 1));
        assert FaceIjkBaseCells(15)[1][0][1] == BaseCellRotation(108, 0);
      } else if b == 109 {
        assert BaseCellDataOf(109).homeFijk == FaceIjk(15, Ijk(1, 0, 0));
        assert FaceIjkBaseCells(15)[1][0][0] == BaseCellRotation(109, 0);
      } else if b == 110 {
        assert BaseCellDataOf(110).homeFijk == FaceIjk(18, Ijk(0, 1, 1));
        assert FaceIjkBaseCells(18)[0][1][1] == BaseCellRotation(110, 0);
      } else {
        assert BaseCellDataOf(111).homeFijk == FaceIjk(18, Ijk(0, 0, 1));
        assert FaceIjkBaseCells(18)[0][0][1] == BaseCellRotation(111, 0);
      }
    }
  }

  lemma HomeEntries112()
    ensures forall b | 112 <= b < 116 :: HomeEntry(b)
  {
    forall b | 112 <= b < 116
      ensures HomeEntry(b)
    {
      if b == 112 {
        assert BaseCellDataOf(112).homeFijk == FaceIjk(19, Ijk(0, 0, 1));
        assert FaceIjkBaseCells(19)[0][0][1] == BaseCellRotation(112, 0);
      } else if b == 113 {
        assert BaseCellDataOf(113).homeFijk == FaceIjk(17, Ijk(1, 0, 0));
        assert FaceIjkBaseCells(17)[1][0][0] == BaseCellRotation(113, 0);
      } else if b == 114 {
        assert BaseCellDataOf(114).homeFijk == FaceIjk(19, Ijk(0, 0, 0));
        assert FaceIjkBaseCells(19)[0][0][0] == BaseCellRotation(114, 0);
      } else {
        assert BaseCellDataOf(115).homeFijk == FaceIjk(18, Ijk(0, 1, 0));
        assert FaceIjkBaseCells(18)[0][1][0] == BaseCellRotation(115, 0);
      }
    }
  }

  lemma HomeEntries116()
    ensures forall b | 116 <= b < 120 :: HomeEntry(b)
  {
    forall b | 116 <= b < 120
      ensures HomeEntry(b)
    {
      if b == 116 {
        assert BaseCellDataOf(116).homeFijk == FaceIjk(18, Ijk(1, 0, 1));
        assert FaceIjkBaseCells(18)[1][0][1] == BaseCellRotation(116, 0);
      } else if b == 117 {
        assert BaseCellDataOf(117).homeFijk == FaceIjk(19, Ijk(2, 0, 0));
        assert FaceIjkBaseCells(19)[2][0][0] == BaseCellRotation(117, 0);
      } else if b == 118 {
        assert BaseCellDataOf(118).homeFijk == FaceIjk(19, Ijk(1, 0, 0));
        assert FaceIjkBaseCells(19)[1][0][0] == BaseCellRotation(118, 0);
      } else {
        assert BaseCellDataOf(119).homeFijk == FaceIjk(18, Ijk(0, 0, 0));
        assert FaceIjkBaseCells(18)[0][0][0] == BaseCellRotation(119, 0);
      }
    }
  }

  lemma HomeEntries120()
    ensures forall b | 120 <= b < 122 :: HomeEntry(b)
  {
    forall b | 120 <= b < 122
      ensures HomeEntry(b)
    {
      if b == 120 {
        assert BaseCellDataOf(120).homeFijk == FaceIjk(19, Ijk(1, 0, 1));
        assert FaceIjkBaseCells(19)[1][0][1] == BaseCellRotation(120, 0);
      } else {
        assert BaseCellDataOf(121).homeFijk == FaceIjk(18, Ijk(1, 0, 0));
        assert FaceIjkBaseCells(18)[1][0][0] == BaseCellRotation(121, 0);
      }
    }
  }

  /** Every base cell sits, unrotated, at its home coordinate. */
  lemma HomeEntries()
    ensures forall b | 0 <= b < NUM_BASE_CELLS :: HomeEntry(b)
  {
    HomeEntries0();
    HomeEntries4();
    HomeEntries8();
    HomeEntries12();
    HomeEntries16();
    HomeEntries20();
    HomeEntries24();
    HomeEntries28();
    HomeEntries32();
    HomeEntries36();
    HomeEntries40();
    HomeEntries44();
    HomeEntries48();
    HomeEntries52();
    HomeEntries56();
    HomeEntries60();
    HomeEntries64();
    HomeEntries68();
    HomeEntries72();
    HomeEntries76();
    HomeEntries80();
    HomeEntries84();
    HomeEntries88();
    HomeEntries92();
    HomeEntries96();
    HomeEntries100();
    HomeEntries104();
    HomeEntries108();
    HomeEntries112();
    HomeEntries116();
    HomeEntries120();
  }
}
