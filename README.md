# H3 integer core, modelled in Dafny

This project models the integer core of the H3 hexagonal grid library in
Dafny, together with the viewport helpers of its web explorer.

- **Index words.** An H3 index is a 64-bit word with fixed fields: a high
  bit, a mode, reserved bits, a resolution, a base cell and fifteen 3-bit
  digits. The model decodes the word into a `View` of these fields. It
  proves that every macro of h3Index.h reads or writes exactly one field,
  and it states everything above the bit layer on the view.
- **The H3 library.** On top of that come:
  - validity, parents, centre children and child positions;
  - digit rotations and the IJK lattice;
  - the child and resolution iterators;
  - the low-52 canonical cell sets;
  - directed and undirected edges;
  - the base cell tables;
  - the k-disk sizes and the spiral / hash-set disk;
  - the arc union-find of cellsToMultiPolygon;
  - the vertex graph and the linked-geo lists;
  - the polygon compact iterator's cell walk;
  - the CLI argument parser.
- **The web explorer.** Longitude range splitting, the zoom tables, the
  throttle state machine, and the resolution bounds.

Each C source file is one module, and there is no nesting. A few large
files are split further:
- h3Index.c into H3Hierarchy, H3ChildPos and H3IndexRotate;
- iterators.c into H3ChildOrder, H3ChildWalk and H3Iterators;
- cellsToMultiPoly.c into H3CellsToMultiPoly, H3ArcSet, H3UnionFind and
  H3ArcLoops.

The code follows the shape of its source:
- Code that updates state in place becomes imperative Dafny: methods with
  loop invariants, or classes with `modifies` frames. This covers the
  iterators, the low-52 array passes, the arc set, the vertex graph, the
  linked lists and the argument parser.
- Each such method is proved against a specification function, and the
  lemmas are stated about that function.
- The bit macros and the lookup tables are functions.

Calls into code outside the core are parameters of the operations that
make them. These are geometry, polygon containment, the map viewport,
timers, `sscanf` and the neighbour search. "## Left out" names each one.

## Model

| member | source | states |
|---|---|---|
| H3IndexBits.DecodeWithHighBit | src/h3lib/include/h3Index.h:100-105 | H3_SET_HIGH_BIT changes the high bit to v and no other field |
| H3IndexBits.DecodeWithMode | src/h3lib/include/h3Index.h:112-116 | H3_SET_MODE changes the mode to v and no other field |
| H3IndexBits.DecodeWithReserved | src/h3lib/include/h3Index.h:148-153 | H3_SET_RESERVED_BITS changes the reserved bits to v and no other field |
| H3IndexBits.DecodeWithResolution | src/h3lib/include/h3Index.h:134-138 | H3_SET_RESOLUTION changes the resolution to v and no other field, so reading it back gives v |
| H3IndexBits.DecodeWithBaseCell | src/h3lib/include/h3Index.h:123-127 | H3_SET_BASE_CELL changes the base cell to v and no other field |
| H3IndexBits.DecodeWithIndexDigit | src/h3lib/include/h3Index.h:161-165 | H3_SET_INDEX_DIGIT at resolution r changes digit r to v and no other field |
| H3IndexBits.IndexDigitWith | src/h3lib/include/h3Index.h:140-165 | H3_GET_INDEX_DIGIT of the digit just written gives it back; every other digit keeps its bits |
| H3IndexBits.InitDigitBits | src/h3lib/include/h3Index.h:85-90 | every digit of H3_INIT is 7 |
| H3IndexBits.DecodeInjective | src/h3lib/include/h3Index.h:26-90 | two words with the same decoded fields are the same word: the fields cover all 64 bits |
| H3IndexFields.SetResolutionView | src/h3lib/include/h3Index.h:129-138 | setting the resolution to v in 0..15 leaves a word whose view has resolution v and every other field unchanged |
| H3IndexFields.SetIndexDigitView | src/h3lib/include/h3Index.h:140-165 | setting digit r to d in 0..7 leaves a word whose digit r is d and every other field unchanged |
| H3IndexFields.SetModeView | src/h3lib/include/h3Index.h:107-116 | setting the mode changes only the mode field of the view |
| H3IndexFields.SetBaseCellView | src/h3lib/include/h3Index.h:118-127 | setting the base cell changes only the base cell field of the view |
| H3IndexFields.SetReservedBitsView | src/h3lib/include/h3Index.h:148-158 | setting the reserved bits changes only the reserved field of the view |
| H3IndexFields.SetHighBitView | src/h3lib/include/h3Index.h:95-105 | setting the high bit changes only the high-bit field of the view |
| H3IndexFields.GetIndexDigitView | src/h3lib/include/h3Index.h:140-146 | the digit getter reads digit r of the view |
| H3IndexFields.FieldsOfView | src/h3lib/include/h3Index.h:95-158 | each field getter reads its field of the view |
| H3IndexFields.ViewInjective | src/h3lib/include/h3Index.h:26-90 | two words with equal views are equal |
| H3IndexFields.InitView | src/h3lib/include/h3Index.h:85-90 | H3_INIT has high bit, mode, reserved bits, resolution and base cell 0, and all fifteen digits 7 |
| H3IndexFields.ZeroDigits | src/h3lib/include/h3Index.h:26-90 | the zero word has every digit 0 |
| H3IndexMasks.GoodTopBitsView | src/h3lib/lib/h3Index.c:158-163 | _hasGoodTopBits holds exactly when the high bit is 0, the mode is the cell mode and the reserved bits are 0 |
| H3IndexMasks.HasAny7UptoResView | src/h3lib/lib/h3Index.c:206-220 | _hasAny7UptoRes holds exactly when some digit among 1..res is 7 |
| H3IndexMasks.HasAll7AfterResView | src/h3lib/lib/h3Index.c:222-240 | _hasAll7AfterRes holds exactly when every digit after res is 7 |
| H3IndexValid.HasDeletedSubsequenceView | src/h3lib/lib/h3Index.c:242-288 | _hasDeletedSubsequence, through _firstOneIndex, holds exactly for a pentagon base cell whose first nonzero digit is the K axis digit 1 |
| H3IndexValid.IsValidCellSpec | src/h3lib/lib/h3Index.c:290-327 | isValidCell's early exits accept exactly the words with good top bits, a base cell below 122, no 7 among digits 1..res, only 7 after res and no deleted pentagon subsequence |
| H3Hierarchy.GetIndexDigitChecked | src/h3lib/lib/h3Index.c:108-114 | E_RES_DOMAIN exactly when res lies outside 1..15; otherwise the digit of resolution res, a value in 0..7 |
| H3Hierarchy.SetH3Index | src/h3lib/lib/h3Index.c:347-354 | the word has cell mode, resolution res, the given base cell, digits 1..res equal to initDigit and 7 after them |
| H3Hierarchy.CellViewValid | src/h3lib/lib/h3Index.c:290-354 | a word built by setH3Index is a valid cell exactly when the base cell is below 122, the digit is not 7 (at res > 0) and a pentagon base cell does not get the K axis digit |
| H3Hierarchy.CellToParent | src/h3lib/lib/h3Index.c:363-379 | E_RES_DOMAIN outside 0..15; E_RES_MISMATCH for a parent resolution finer than the cell's; h itself at equal resolutions; otherwise h at resolution parentRes with digits parentRes+1..childRes set to 7 |
| H3Hierarchy.ParentIdentity | src/h3lib/lib/h3Index.c:369-372 | a cell is its own parent at its own resolution |
| H3Hierarchy.ParentOfParent | src/h3lib/lib/h3Index.c:363-379 | the parent at p of the parent at q is the parent at p |
| H3Hierarchy.ParentValid | src/h3lib/lib/h3Index.c:363-379 | the parent of a valid cell is a valid cell |
| H3Hierarchy.CellToChildrenSize | src/h3lib/lib/h3Index.c:390-418 | E_RES_DOMAIN exactly when childRes lies outside res..15; otherwise 7^n for a hexagon and the pentagon count for a pentagon, between 1 and 7^n |
| H3Hierarchy.PentagonChildCountClosed | src/h3lib/lib/h3Index.c:413-414 | 6 divides 7^n - 1, and the pentagon count (centre child again a pentagon, five hexagon children) equals the source's 1 + 5(7^n - 1)/6 |
| H3Hierarchy.IsBaseCellPentagon | src/h3lib/lib/baseCells.c:824-826 | _isBaseCellPentagon as membership of the 12 pentagon base cells 4, 14, 24, 38, 49, 58, 63, 72, 83, 97, 107 and 117, false outside 0..121 where the source reads past its table; IsBaseCellPentagonData states that the baseCellData flag of each of the 122 base cells agrees with it |
| H3Hierarchy.IsPentagon | src/h3lib/lib/h3Index.c:789-792 | isPentagon: a pentagon base cell whose leading nonzero digit is 0; IsPentagonDigits states this is exactly a pentagon base cell with every digit 1..res equal to 0 |
| H3Hierarchy.IsPentagonDigits | src/h3lib/lib/h3Index.c:789-809 | isPentagon holds exactly for a pentagon base cell whose digits 1..res are all 0 |
| H3Hierarchy.MakeDirectChild | src/h3lib/lib/h3Index.c:430-435 | one resolution finer, with the new digit set to cellNumber and every other field kept |
| H3Hierarchy.DirectChildParent | src/h3lib/lib/h3Index.c:363-435 | the parent of a valid cell's direct child, at the cell's resolution, is the cell again |
| H3Hierarchy.ZeroIndexDigits | src/h3lib/lib/h3Index.c:460-472 | _zeroIndexDigits, clearing digits start..end one at a time instead of with one mask; ZeroIndexDigitsView states h itself for start > end and otherwise exactly digits start..end cleared, every other field kept |
| H3Hierarchy.ZeroIndexDigitsView | src/h3lib/lib/h3Index.c:460-472 | h itself when start > end; otherwise exactly digits start..end become 0 and every other field is kept |
| H3Hierarchy.CellToCenterChild | src/h3lib/lib/h3Index.c:483-491 | E_RES_DOMAIN exactly when childRes lies outside res..15; otherwise resolution childRes with digits res+1..childRes set to 0 |
| H3Hierarchy.CenterChildRoundTrip | src/h3lib/lib/h3Index.c:363-491 | the centre child of a valid cell is a valid cell whose parent at the cell's resolution is the cell |
| H3Hierarchy.IsResClassIII | src/h3lib/lib/h3Index.c:782 | 1 exactly for the odd resolutions, else 0 |
| H3Hierarchy.LeadingNonZeroDigit | src/h3lib/lib/h3Index.c:799-805 | the first nonzero digit among 1..res, and 0 exactly when all of them are 0 |
| H3Hierarchy.LeadingNonZeroExists | src/h3lib/lib/h3Index.c:799-805 | the leading nonzero digit is nonzero exactly when some digit is nonzero |
| H3Hierarchy.PentagonCount | src/h3lib/lib/h3Index.c:1233 | NUM_PENTAGONS is the number of pentagon base cells among the 122 |
| H3Hierarchy.GetPentagons | src/h3lib/lib/h3Index.c:1241-1254 | E_RES_DOMAIN outside 0..15 with the output untouched; otherwise slot i holds the resolution-res cell of the i-th pentagon base cell with digits 0 |
| H3Hierarchy.PentagonCellValid | src/h3lib/lib/h3Index.c:1241-1254 | every cell getPentagons writes is a valid cell and a pentagon |
| H3Hierarchy.UncompactCellsSize | src/h3lib/lib/h3Index.c:754-772 | the result is the specification UncompactSize of the first numCompacted entries |
| H3Hierarchy.UncompactSizeOk | src/h3lib/lib/h3Index.c:754-772 | success exactly when every non-null entry has resolution at most res and res is at most 15; the error is E_RES_MISMATCH; the count is at least the number of non-null entries |
| H3Hierarchy.UncompactSizeErrSticks | src/h3lib/lib/h3Index.c:763-767 | once a prefix fails every longer input fails: the loop returns at the first bad entry |
| H3ChildPos.PosDecode | src/h3lib/lib/h3Index.c:1371-1431 | every position below the child count decodes to a digit string that is valid below the parent, and that string's position is the position again |
| H3ChildPos.DecodePos | src/h3lib/lib/h3Index.c:1291-1369 | every digit string valid below the parent has a position below the child count, and decoding that position gives the string back |
| H3ChildPos.ChildPosOf | src/h3lib/lib/h3Index.c:1291-1369 | on success the parent resolution is within the child's and the position is below the child count and decodes to the child's digits below the parent |
| H3ChildPos.ChildPosToCellOf | src/h3lib/lib/h3Index.c:1371-1431 | on success the child resolution lies between the parent's and 15, and the cell has that resolution |
| H3ChildPos.CellPosRoundTrip | src/h3lib/lib/h3Index.c:1291-1431 | childPosToCell of cellToChildPos under the parent gives the child back |
| H3ChildPos.PosCellRoundTrip | src/h3lib/lib/h3Index.c:1291-1431 | cellToChildPos of childPosToCell gives the position back, and the cell's parent is the parent |
| H3ChildPos.ParentPentagon | src/h3lib/lib/h3Index.c:1303-1318 | the parent word is a pentagon exactly when the digits above the parent resolution are the pentagon's |
| H3ChildPos.ValidateChildPos | src/h3lib/lib/h3Index.c:1269-1289 | success exactly when the child resolution lies between the parent's and 15 and the position is below the child count; otherwise E_RES_DOMAIN for the resolution and E_DOMAIN for the position |
| H3ChildPos.CellToChildPos | src/h3lib/lib/h3Index.c:1291-1369 | the loop over digits returns the specification position, errors included |
| H3ChildPos.ValidatesOwnPosition | src/h3lib/lib/h3Index.c:1269-1369 | a position computed by cellToChildPos always passes validateChildPos |
| H3ChildPos.ChildPosToCell | src/h3lib/lib/h3Index.c:1371-1431 | the loop that rebuilds digits returns the specification cell, or its error |
| H3ChildPos.ChildPosToCellOk | src/h3lib/lib/h3Index.c:1371-1431 | every in-range position succeeds and gives the position-th child in order |
| H3IndexRotate.RotFacts | src/h3lib/lib/h3Index.c:862-885 | the ccw and cw digit rotations undo each other, keep digits digits, fix the centre and the invalid digit, and keep 1..6 within 1..6 |
| H3IndexRotate.RotatedDigitsInverse | src/h3lib/lib/h3Index.c:862-885 | rotating every digit ccw and then cw (or the reverse) gives the digits back |
| H3IndexRotate.RotatedHexagonValid | src/h3lib/lib/h3Index.c:862-885 | rotating a valid hexagon cell gives a valid cell |
| H3IndexRotate.Rotate60 | src/h3lib/lib/h3Index.c:862-885 | the loop rotates digits 1..res and leaves every other field and the digits below res unchanged |
| H3IndexRotate.H3Rotate60ccw | src/h3lib/lib/h3Index.c:862-873 | _h3Rotate60ccw: every digit up to res rotated ccw, nothing else changed |
| H3IndexRotate.H3Rotate60cw | src/h3lib/lib/h3Index.c:875-885 | _h3Rotate60cw: every digit up to res rotated cw, nothing else changed |
| H3IndexRotate.LeadingNonZeroRotated | src/h3lib/lib/h3Index.c:799-805 | the first non-zero digit of the rotated digits is the rotated first non-zero digit |
| H3IndexRotate.PentRotatedValid | src/h3lib/lib/h3Index.c:811-860 | a pentagon rotation of a valid cell never leaves K (digit 1) as the leading digit and gives a valid cell |
| H3IndexRotate.RotatePent60 | src/h3lib/lib/h3Index.c:811-860 | the loop rotates every digit and, the first time the leading digit becomes K, rotates once more |
| H3IndexRotate.H3RotatePent60ccw | src/h3lib/lib/h3Index.c:811-835 | _h3RotatePent60ccw as the specification pentagon rotation ccw |
| H3IndexRotate.H3RotatePent60cw | src/h3lib/lib/h3Index.c:837-860 | _h3RotatePent60cw as the specification pentagon rotation cw |
| CoordIjk.Normalized | src/h3lib/lib/coordijk.c:216-245 | the value _ijkNormalize leaves; NormalizedIsNormal, NormalizedUnique and NormalizedCanonical state it is the one normalized coordinate of the same lattice point |
| CoordIjk.NormalizedIsNormal | src/h3lib/lib/coordijk.c:216-245 | _ijkNormalize leaves all components non-negative with at least one zero and keeps the lattice point |
| CoordIjk.NormalizedUnique | src/h3lib/lib/coordijk.c:216-245 | two normalized coordinates of the same lattice point are equal |
| CoordIjk.NormalizedCanonical | src/h3lib/lib/coordijk.c:216-245 | two coordinates normalize alike exactly when they name the same lattice point; a coordinate is normalized exactly when normalizing keeps it |
| CoordIjk.PlusRespectsCells | src/h3lib/lib/coordijk.c:179-190 | adding to two coordinates of one lattice point lands on one lattice point |
| CoordIjk.UnitVecsDistinct | src/h3lib/lib/coordijk.c:254-267 | the seven unit vectors are normalized and name seven different lattice points |
| CoordIjk.RotateDigitInverse | src/h3lib/lib/coordijk.c:409-455 | the ccw and cw digit rotations undo each other; the centre and the invalid digit are fixed; 1..6 stays in 1..6 |
| CoordIjk.RotateDigitSix | src/h3lib/lib/coordijk.c:409-431 | six ccw digit rotations give the digit back |
| CoordIjk.RotateIj | src/h3lib/lib/coordijk.c:367-407 | a 60-degree rotation of the lattice is the linear map (i, j) to (i - j, i) ccw and (j, j - i) cw |
| CoordIjk.RotateInverse | src/h3lib/lib/coordijk.c:367-407 | a ccw rotation then a cw rotation (or the reverse) gives the normalized coordinate back |
| CoordIjk.RotateUnitVec | src/h3lib/lib/coordijk.c:367-455 | rotating a unit vector gives the unit vector of the rotated digit |
| CoordIjk.DistanceIsHexDistance | src/h3lib/lib/coordijk.c:503-509 | ijkDistance is the hexagonal distance of the two lattice points: non-negative, zero exactly on one point, symmetric |
| CoordIjk.HexDistanceMetric | src/h3lib/lib/coordijk.c:503-509 | the hexagonal distance is non-negative, zero exactly on equal points and symmetric |
| CoordIjk.FromIj | src/h3lib/lib/coordijk.c:530-536 | the value ijToIjk leaves, (i, j, 0) normalized; IjRoundTrip states it inverts ijkToIj in both directions |
| CoordIjk.IjRoundTrip | src/h3lib/lib/coordijk.c:518-535 | ijkToIj then ijToIjk gives the normalized coordinate back; ijToIjk then ijkToIj gives the IJ pair back |
| CoordIjk.ToCube | src/h3lib/lib/coordijk.c:542-546 | the value ijkToCube leaves, each line reading the components already rewritten; CubeRoundTrip states the components sum to zero |
| CoordIjk.FromCube | src/h3lib/lib/coordijk.c:552-556 | the value cubeToIjk leaves; CubeRoundTrip states it inverts ijkToCube on normalized coordinates and on cube coordinates |
| CoordIjk.CubeRoundTrip | src/h3lib/lib/coordijk.c:542-556 | ijkToCube gives cube coordinates summing to zero; the two conversions round-trip |
| CoordIjk.CoordIJK.SetIjk | src/h3lib/lib/coordijk.c:40-44 | the three components become the given values |
| CoordIjk.CoordIJK.Scale | src/h3lib/lib/coordijk.c:204-208 | every component multiplied by the factor |
| CoordIjk.CoordIJK.Normalize | src/h3lib/lib/coordijk.c:216-245 | the in-place normalization computes the specification Normalized |
| CoordIjk.CoordIJK.Rotate60ccw | src/h3lib/lib/coordijk.c:367-386 | the in-place rotation computes the specification ccw rotation |
| CoordIjk.CoordIJK.Rotate60cw | src/h3lib/lib/coordijk.c:388-407 | the in-place rotation computes the specification cw rotation |
| CoordIjk.CoordIJK.Neighbor | src/h3lib/lib/coordijk.c:355-360 | a digit 1..6 moves to the normalized neighbour in that direction; any other digit leaves the coordinate unchanged |
| CoordIjk.CoordIJK.SetFromIj | src/h3lib/lib/coordijk.c:530-535 | the coordinate becomes the normalized IJK of the pair |
| CoordIjk.CoordIJK.ToCubeInPlace | src/h3lib/lib/coordijk.c:542-548 | the coordinate becomes its cube form |
| CoordIjk.CoordIJK.FromCubeInPlace | src/h3lib/lib/coordijk.c:552-556 | the coordinate becomes the normalized IJK of the cube form |
| CoordIjk.Add | src/h3lib/lib/coordijk.c:179-183 | the sum is the component-wise sum of the two inputs, even when the output aliases an input |
| CoordIjk.Sub | src/h3lib/lib/coordijk.c:192-196 | the difference is the component-wise difference, even when the output aliases an input |
| CoordIjk.UnitIjkToDigit | src/h3lib/lib/coordijk.c:254-267 | a digit below 7 is the digit whose unit vector is the normalized input; INVALID_DIGIT exactly when the input is not a unit vector |
| CoordIjk.IjkDistance | src/h3lib/lib/coordijk.c:503-509 | the method computes the specification distance |
| CoordIjk.IjkToIj | src/h3lib/lib/coordijk.c:518-521 | the IJ pair of the lattice point |
| CoordIjk.UnitIjkToDigitCases | src/h3lib/lib/coordijk.c:254-267 | unit vectors are already normalized; (2,2,2) normalizes to the centre; (2,0,0) is not a unit vector |
| H3ChildOrder.PosZeros | src/h3lib/lib/iterators.c:214-240 | the all-centre digit string is valid below any parent and is at position 0 |
| H3ChildOrder.DecodeZero | src/h3lib/lib/iterators.c:214-240 | position 0 decodes to the all-centre digit string: the first child is the centre child |
| H3ChildOrder.PosSixes | src/h3lib/lib/iterators.c:254-258 | a digit string that is all sixes is at the last position |
| H3ChildOrder.PosBumped | src/h3lib/lib/iterators.c:244-280 | raising the last digit that is not 6 to its next allowed value and clearing the sixes after it moves to the next position |
| H3ChildOrder.DecodeNext | src/h3lib/lib/iterators.c:244-280 | the position after pos decodes to that bumped digit string, and it exists |
| H3ChildOrder.DecodeLast | src/h3lib/lib/iterators.c:254-258 | a position whose digits are all sixes is the last one |
| H3ChildOrder.SkipAt | src/h3lib/lib/iterators.c:260-272 | while the digits above the skip digit are zero, the pentagon step from 0 goes to 2, and the skip digit moves one place up exactly then |
| H3ChildOrder.LastNotSix | src/h3lib/lib/iterators.c:250-278 | the digit the carry stops at: every digit after it is 6 and it is not |
| H3ChildOrder.NextDigitLarger | src/h3lib/lib/iterators.c:250-278 | the next allowed value of a digit is larger than the digit |
| H3ChildOrder.NextChildAbove | src/h3lib/lib/iterators.c:244-280 | consecutive children agree above some digit below the parent and the later one has the larger digit there |
| H3ChildOrder.ChildWordsIncrease | src/h3lib/lib/iterators.c:244-280 | the word of each child is smaller than the word of the next child as unsigned 64-bit integers |
| H3ChildWalk.IncrementWord | src/h3lib/lib/iterators.c:33-37 | adding the digit unit to a word whose digit is not 7 raises that digit by one and changes nothing else |
| H3ChildWalk.CarryWord | src/h3lib/lib/iterators.c:33-37 | adding the digit unit where the digit is 7 clears it and raises the digit above by one (the carry iterStepChild relies on) |
| H3ChildWalk.IncrementView | src/h3lib/lib/iterators.c:33-37 | the same on the decoded view |
| H3ChildWalk.CarryView | src/h3lib/lib/iterators.c:33-37 | the same carry on the decoded view |
| H3ChildWalk.NextChildView | src/h3lib/lib/iterators.c:244-280 | setting the digit the carry stops at to its next value and clearing below gives the next child in order |
| H3ChildWalk.StepChild | src/h3lib/lib/iterators.c:244-280 | from a live iterator at position pos: the next word is not null exactly when pos + 1 is below the child count; it is then the child at pos + 1, a larger word, with the skip digit kept right; otherwise the null iterator |
| H3ChildWalk.NextLive | src/h3lib/lib/iterators.c:244-280 | the fields the loop finds form a live iterator at the next position with a larger word |
| H3ChildWalk.LiveWordsIncrease | src/h3lib/lib/iterators.c:244-280 | live iterators at consecutive positions hold increasing words |
| H3ChildWalk.CarryUp | src/h3lib/lib/iterators.c:250-278 | the digit loop either finds the next child or ends at the parent digit exactly when pos was the last position |
| H3ChildWalk.StartStep | src/h3lib/lib/iterators.c:246-250 | the first increment at the child resolution starts a pending carry |
| H3ChildWalk.StepDigit | src/h3lib/lib/iterators.c:251-277 | one turn of the loop: the pentagon skip or a stop gives the next child; a carry moves the pending digit one up |
| H3ChildWalk.LastChild | src/h3lib/lib/iterators.c:252-256 | a carry that reaches the parent digit means pos was the last position |
| H3ChildWalk.FirstChild | src/h3lib/lib/iterators.c:214-240 | the word iterInitParent builds is the first child (the centre child) and a live iterator at position 0; the skip digit is the child resolution exactly for pentagons |
| H3ChildWalk.FirstChildAt | src/h3lib/lib/iterators.c:222-226 | clearing the digits below the parent and setting the resolution gives the child at position 0 |
| H3Iterators.IterCellsChildren.Null | src/h3lib/lib/iterators.c:45-48 | _null_iter: h is H3_NULL, with parent resolution and skip digit -1 |
| H3Iterators.IterCellsChildren.InitParent | src/h3lib/lib/iterators.c:214-240 | null for a child resolution below the parent's, above 15, or a null parent; otherwise the centre child at position 0 of that parent |
| H3Iterators.IterCellsChildren.Step | src/h3lib/lib/iterators.c:244-280 | a null iterator stays null; a live one moves to the next position, staying live exactly when one is left, and its word grows |
| H3Iterators.IterInitBaseCellNum | src/h3lib/lib/iterators.c:284-295 | null for a base cell outside 0..121 or a resolution outside 0..15; otherwise the first descendant of that base cell |
| H3Iterators.IterCellsResolution.InitRes | src/h3lib/lib/iterators.c:297-304 | live exactly when res is in 0..15, on the first descendant of base cell 0 |
| H3Iterators.IterCellsResolution.Step | src/h3lib/lib/iterators.c:306-324 | the next descendant of the same base cell, else the first of the next base cell, else null after base cell 121; null stays null |
| H3Low52.KeyEqual | src/h3lib/lib/low52.c:10-17 | two cells share the comparison key exactly when their low 52 bits agree |
| H3Low52.CmpLow52 | src/h3lib/lib/low52.c:10-17 | cmpLow52 as the sign of the comparison of the 52-bit keys; CmpLow52Props states it is antisymmetric, in -1..1, and 0 exactly when the low 52 bits of the words agree |
| H3Low52.CmpLow52Props | src/h3lib/lib/low52.c:10-17 | cmpLow52 is antisymmetric, lies in -1..1, and is 0 exactly when the low 52 bits agree |
| H3Low52.RelatedIsKeys | src/h3lib/lib/low52.c:20-46 | the ancestor test cmpCanon makes on words is a test on keys and resolutions |
| H3Low52.CmpCanon | src/h3lib/lib/low52.c:20-46 | cmpCanon as the key comparison, doubled for unrelated cells; RelatedIsKeys ties relatedness to HIGH_BITS of the shifted words and CmpCanonProps states the meaning of each of the five values |
| H3Low52.CmpCanonProps | src/h3lib/lib/low52.c:20-46 | cmpCanon is one of -2..2: plus or minus 2 for unrelated cells ordered by key, plus or minus 1 for related ones, 0 for equal keys |
| H3Low52.NotDescBefore | src/h3lib/lib/low52.c:92-95 | a cell that is not a descendant and sorts before p compares -2 with p |
| H3Low52.SortedOrdered | src/h3lib/lib/low52.c:55-65 | sortedness by consecutive pairs is sortedness by the key |
| H3Low52.CanonicalSorted | src/h3lib/lib/low52.c:73-83 | a canonical array is sorted, with strictly increasing keys |
| H3Low52.ShortSorted | src/h3lib/lib/low52.c:55-83 | arrays of at most one cell are both sorted and canonical |
| H3Low52.IsLow52Sorted | src/h3lib/lib/low52.c:55-65 | true exactly when the first n cells are sorted by cmpLow52 (and for n at most 1) |
| H3Low52.IsCanonicalCells | src/h3lib/lib/low52.c:73-83 | true exactly when every consecutive pair of the first n cells compares -2 |
| H3Low52.InsertNext | src/h3lib/lib/low52.c:86-89 | one insertion pass: the first i + 1 cells are sorted, the first n cells are a permutation, the rest is untouched |
| H3Low52.SwapDown | src/h3lib/lib/low52.c:86-89 | the swap of two neighbours keeps the multiset of the first n cells |
| H3Low52.Low52Sort | src/h3lib/lib/low52.c:86-89 | E_SUCCESS; the first n cells are sorted by the low-52 key and a permutation of the input; the rest is untouched |
| H3Low52.NonZeroMembers | src/h3lib/lib/low52.c:127-145 | the packed cells are exactly the nonzero inputs |
| H3Low52.ShiftOutZeros | src/h3lib/lib/low52.c:127-145 | the first k cells become the nonzero inputs in their original order, cells k..n become zero, the rest is untouched; k is the nonzero count |
| H3Low52.SetDescToZero | src/h3lib/lib/low52.c:105-121 | each cell is kept or zeroed, every zeroed cell had a kept ancestor, and on sorted input the survivors are canonical |
| H3Low52.IsDesc | src/h3lib/lib/low52.c:92-95 | isDesc as cmpCanon -1 or 0; DescSelf states every cell is its own descendant and NotDescBefore that a non-descendant at or before p compares -2 |
| H3Low52.DescSelf | src/h3lib/lib/low52.c:92-95 | every cell is its own descendant |
| H3Low52.CanonicalizeCells | src/h3lib/lib/low52.c:154-161 | E_SUCCESS; the first numAfter cells are canonical, each input is among them or a descendant of one, and the rest of the first numBefore cells is zero |
| H3Low52.KStrategy | src/h3lib/lib/low52.c:269-274 | the probe lies in the search interval i <= k < j |
| H3Low52.SearchLeft | src/h3lib/lib/low52.c:276-299 | when h compares -2 with cell k, h is a descendant of no cell at or after k |
| H3Low52.SearchRight | src/h3lib/lib/low52.c:276-299 | when h compares 2 with cell k, h is a descendant of no cell at or before k |
| H3Low52.SearchAncestor | src/h3lib/lib/low52.c:288-290 | when h compares 1 with a cell, h is a descendant of none, provided h and the cells have the shape of valid cells |
| H3Low52.Lower52BsearchRich | src/h3lib/lib/low52.c:276-299 | false when n is at most 0; true only when h is the descendant of some cell; on a canonical array of cell-shaped words, true whenever h is such a descendant |
| H3Low52.EarlyExitNeedsCellShape | src/h3lib/lib/low52.c:288-290 | a concrete canonical array and word where cmpCanon is 1 yet h descends from a later cell, so completeness needs the cell shape |
| H3CellsToMultiPoly.InsertWord | src/h3lib/lib/cellsToMultiPoly.c:41-42 | one insertion pass of the copy sort: the first i + 1 words ascend, the first n are a permutation, the rest is untouched |
| H3CellsToMultiPoly.SortWords | src/h3lib/lib/cellsToMultiPoly.c:41-42 | the words ascend as unsigned integers and are a permutation of the input |
| H3CellsToMultiPoly.NoRepeatsCount | src/h3lib/lib/cellsToMultiPoly.c:34-49 | no repeats exactly when every value occurs at most once |
| H3CellsToMultiPoly.NoRepeatsPermutation | src/h3lib/lib/cellsToMultiPoly.c:34-49 | a permutation has repeats exactly when the original has, so checking the sorted copy checks the input |
| H3CellsToMultiPoly.AscendingNoRepeats | src/h3lib/lib/cellsToMultiPoly.c:43-47 | an ascending sequence without equal neighbours has no repeats at all |
| H3CellsToMultiPoly.HasRepeats | src/h3lib/lib/cellsToMultiPoly.c:34-49 | sorting a copy and comparing neighbours finds a repeat exactly when the first n cells repeat one |
| H3CellsToMultiPoly.ValidateCellSet | src/h3lib/lib/cellsToMultiPoly.c:14-53 | E_DOMAIN exactly for a negative count; E_CELL_INVALID or E_RES_MISMATCH at the first invalid cell or the first cell off the first cell's resolution; then E_DUPLICATE_INPUT exactly when a cell repeats; E_SUCCESS exactly when none of these holds |
| H3CellsToMultiPoly.GetNumEdges | src/h3lib/lib/cellsToMultiPoly.c:78-87 | six edges per cell less one per pentagon, so between 5n and 6n |
| H3CellsToMultiPoly.PentagonCountZero | src/h3lib/lib/cellsToMultiPoly.c:78-87 | without pentagons the count is zero, so the edge count is 6n |
| H3CellsToMultiPoly.HashEdge | src/h3lib/lib/cellsToMultiPoly.c:68-76 | the mixed word reduced modulo n: a bucket in 0..n-1 |
| H3CellsToMultiPoly.CountPolys | src/h3lib/lib/cellsToMultiPoly.c:418-430 | the loop counts the places where the root differs from the root before it, starting from H3_NULL |
| H3CellsToMultiPoly.RootSetSnoc | src/h3lib/lib/cellsToMultiPoly.c:418-430 | the set of roots grows by the appended root |
| H3CellsToMultiPoly.RootChangesSorted | src/h3lib/lib/cellsToMultiPoly.c:405-430 | on roots sorted so that equal roots are together and none is null, the count is the number of distinct roots: one polygon per component |
| H3CellsToMultiPoly.NewRoot | src/h3lib/lib/cellsToMultiPoly.c:420-426 | in an ascending sequence, a last root that differs from the one before it occurs nowhere earlier |
| H3UnionFind.Root | src/h3lib/lib/cellsToMultiPoly.c:209-219 | following parents ends at an arc that is its own parent; a root is its own root |
| H3UnionFind.MergeCoarser | src/h3lib/lib/cellsToMultiPoly.c:223-239 | a merge of two components keeps every pair of arcs that was together together |
| H3UnionFind.CoarserTrans | src/h3lib/lib/cellsToMultiPoly.c:247-289 | merging only merges, over any number of steps |
| H3UnionFind.RootAbove | src/h3lib/lib/cellsToMultiPoly.c:209-219 | a root sits above every arc below it, so getRoot's recursion ends |
| H3UnionFind.RootLevels | src/h3lib/lib/cellsToMultiPoly.c:209-219 | the roots depend on the parents alone, not on the levels used to prove termination |
| H3UnionFind.Compress | src/h3lib/lib/cellsToMultiPoly.c:209-219 | pointing an arc straight at its root keeps a forest and changes no arc's root |
| H3UnionFind.Link | src/h3lib/lib/cellsToMultiPoly.c:234-238 | putting root b under root a keeps a forest; arcs whose root was b get root a and no other root changes |
| H3ArcLoops.IterAdd | src/h3lib/lib/cellsToMultiPoly.c:306-313 | following next j + k times is following j times and then k times |
| H3ArcLoops.Returns | src/h3lib/lib/cellsToMultiPoly.c:306-313 | when next permutes the live arcs, every live arc comes back to itself within n steps, so the do-while ends |
| H3ArcLoops.Period | src/h3lib/lib/cellsToMultiPoly.c:306-313 | the first return: between 1 and n, back at the start, and not earlier |
| H3ArcLoops.WalkedCard | src/h3lib/lib/cellsToMultiPoly.c:306-313 | k steps without a repeat visit k distinct arcs |
| H3ArcLoops.SameLoop | src/h3lib/lib/cellsToMultiPoly.c:298-317 | an arc on the loop of x is live and has the same loop as x |
| H3ArcLoops.OneLeader | src/h3lib/lib/cellsToMultiPoly.c:298-317 | each loop has exactly one leader, its lowest-numbered arc: the arc where countLoops counts it |
| H3ArcLoops.LeadersCountLoops | src/h3lib/lib/cellsToMultiPoly.c:298-317 | the number of leaders below i is the number of distinct loops they lead |
| H3ArcLoops.LeaderLoopsAll | src/h3lib/lib/cellsToMultiPoly.c:298-317 | the loops led by arcs below n are all the loops of live arcs |
| H3ArcLoops.MarkAdd | src/h3lib/lib/cellsToMultiPoly.c:307-309 | marking one more arc visited is marking it in the flag sequence |
| H3ArcLoops.VisitStep | src/h3lib/lib/cellsToMultiPoly.c:303-315 | an arc is unvisited and live at its turn exactly when it leads its loop; marking its loop keeps the invariant that exactly the loops of leaders below are visited |
| H3ArcSet.CompressArc | src/h3lib/lib/cellsToMultiPoly.c:215-216 | the path-compression write keeps the forest and every component, and changes only the parent |
| H3ArcSet.LinkArcs | src/h3lib/lib/cellsToMultiPoly.c:234-238 | the rank and parent writes of unionArcs merge the two components and change no other rank |
| H3ArcSet.Splice | src/h3lib/lib/cellsToMultiPoly.c:279-283 | the four pointer writes of cancelArcPairs keep every pointer an arc |
| H3ArcSet.SpliceLinked | src/h3lib/lib/cellsToMultiPoly.c:271-283 | removing two live arcs that are not self-loops and stitching the loops keeps next and prev inverse on the live arcs |
| H3ArcSet.LinkedPermutes | src/h3lib/lib/cellsToMultiPoly.c:298-317 | when next and prev are inverse on the live arcs, next permutes them |
| H3ArcSet.SpliceLoneSelfLoop | src/h3lib/lib/cellsToMultiPoly.c:279-283 | a concrete three-arc case, arc 0 alone in its loop and arcs 1 and 2 a loop of two: removing 0 and 1 leaves arc 2 pointing at the removed arc 0 |
| H3ArcSet.FreeBucketsStore | src/h3lib/lib/cellsToMultiPoly.c:182-190 | filling an empty bucket leaves one fewer empty bucket |
| H3ArcSet.ProbeMissArc | src/h3lib/lib/cellsToMultiPoly.c:195-205 | an empty bucket reached by probing past other ids means no bucket holds the id |
| H3ArcSet.StoreArc | src/h3lib/lib/cellsToMultiPoly.c:182-190 | storing an arc at the first empty bucket of its probe keeps every id findable by probing |
| H3ArcSet.ProbeStep | src/h3lib/lib/cellsToMultiPoly.c:186-188 | the step j = (j + 1) % numBuckets moves to the next probe slot |
| H3ArcSet.Position | src/h3lib/lib/cellsToMultiPoly.c:195-205 | the index of an id, or none exactly when the id is absent |
| H3ArcSet.PartnerPair | src/h3lib/lib/cellsToMultiPoly.c:258-267 | the reverse of a reverse arc is the arc itself, and an arc is never its own reverse |
| H3ArcSet.PlaceArc | src/h3lib/lib/cellsToMultiPoly.c:182-190 | the probe loop for one arc finds an empty bucket, stores the arc there, and keeps every stored id findable |
| H3ArcSet.BucketsOutnumber | src/h3lib/lib/cellsToMultiPoly.c:154-155 | with a multiplier of at least 2 there are more buckets than arcs |
| H3ArcSet.FillBuckets | src/h3lib/lib/cellsToMultiPoly.c:182-190 | every arc is stored and findable, and an empty bucket is left, so lookups end |
| H3ArcSet.InitialForest | src/h3lib/lib/cellsToMultiPoly.c:97-150 | the parents cellToEdgeArcs sets up form a forest whose roots are those parents |
| H3ArcSet.CancelStep | src/h3lib/lib/cellsToMultiPoly.c:247-289 | one turn of the cancel loop removes an arc exactly when its reverse is present, and puts them in one component |
| H3ArcSet.ArcSet.constructor | src/h3lib/lib/cellsToMultiPoly.c:152-193 | createArcSet: the arcs as given, numArcs times the multiplier buckets, every arc findable, each arc's component its initial parent |
| H3ArcSet.ArcSet.FindArc | src/h3lib/lib/cellsToMultiPoly.c:195-205 | the arc with that id, or none exactly when no arc has it |
| H3ArcSet.ArcSet.GetRoot | src/h3lib/lib/cellsToMultiPoly.c:209-219 | the root of x, with x now pointing at it; only parents change and no component changes |
| H3ArcSet.ArcSet.UnionArcs | src/h3lib/lib/cellsToMultiPoly.c:223-239 | afterwards a and b have one root; the root of larger rank (a's on a tie) absorbs the other with the summed rank; only ranks and parents change |
| H3ArcSet.ArcSet.LinkComponents | src/h3lib/lib/cellsToMultiPoly.c:227-238 | the rank comparison and swap of unionArcs, on two roots |
| H3ArcSet.ArcSet.RemovePair | src/h3lib/lib/cellsToMultiPoly.c:275-283 | both arcs marked removed and the pointers stitched, components unchanged |
| H3ArcSet.ArcSet.CancelAt | src/h3lib/lib/cellsToMultiPoly.c:248-286 | one turn of cancelArcPairs: a live arc with its reverse present is removed with it, stitched and put in the same component; otherwise nothing is removed |
| H3ArcSet.ArcSet.CancelArcPairs | src/h3lib/lib/cellsToMultiPoly.c:247-289 | components only merge; starting with no arc removed, an arc ends removed exactly when its reverse is in the set, and each removed pair shares a component |
| H3ArcSet.ArcSet.ResetVisited | src/h3lib/lib/cellsToMultiPoly.c:291-295 | every visited flag cleared, nothing else changed |
| H3ArcSet.ArcSet.Advance | src/h3lib/lib/cellsToMultiPoly.c:308-309 | marks an arc visited and returns its next arc |
| H3ArcSet.ArcSet.MarkLoop | src/h3lib/lib/cellsToMultiPoly.c:306-313 | the do-while marks exactly the loop of the start arc visited |
| H3ArcSet.ArcSet.CountLoops | src/h3lib/lib/cellsToMultiPoly.c:298-317 | the number of distinct loops of live arcs; afterwards exactly the live arcs are visited and nothing else changed |
| VertexGraph.HashVertex | src/h3lib/lib/vertexGraph.c:69-71 | a bucket in 0..numBuckets-1 |
| VertexGraph.VertexNode.constructor | src/h3lib/lib/vertexGraph.c:73-77 | a node holding the two vertices |
| VertexGraph.FindIn | src/h3lib/lib/vertexGraph.c:161-179 | the first node of a bucket that matches the edge (the to-vertex not compared under the wildcard), or -1 exactly when none matches |
| VertexGraph.TotalUpdate | src/h3lib/lib/vertexGraph.c:86-152 | replacing one bucket changes the node count by the change in that bucket's length |
| VertexGraph.TotalZero | src/h3lib/lib/vertexGraph.c:196-210 | the node count is zero exactly when every bucket is empty |
| VertexGraph.BucketsReplace | src/h3lib/lib/vertexGraph.c:86-152 | a new bucket whose nodes all hash there keeps the graph well formed, and keeps edges distinct when the bucket holds no edge twice |
| VertexGraph.AppendNew | src/h3lib/lib/vertexGraph.c:104-114 | appending a node whose edge the bucket lacks keeps the nodes and the edges of the bucket distinct |
| VertexGraph.SpliceOut | src/h3lib/lib/vertexGraph.c:131-148 | unlinking node k leaves the other nodes in order, all distinct, without node k |
| VertexGraph.VertexGraph.constructor | src/h3lib/lib/vertexGraph.c:37-47 | initVertexGraph: numBuckets empty buckets, size 0, the resolution stored |
| VertexGraph.VertexGraph.FindNodeForEdge | src/h3lib/lib/vertexGraph.c:161-179 | the first matching node of the from-vertex's bucket; null exactly when no node of the graph matches |
| VertexGraph.VertexGraph.FindNodeForVertex | src/h3lib/lib/vertexGraph.c:187-189 | a node starting at the vertex, or null exactly when no node starts there |
| VertexGraph.VertexGraph.FindExisting | src/h3lib/lib/vertexGraph.c:99-110 | the corrected scan compares every node of the bucket, the tail included |
| VertexGraph.VertexGraph.ReplaceBucket | src/h3lib/lib/vertexGraph.c:86-152 | one bucket replaced and the size adjusted by the change in its length |
| VertexGraph.VertexGraph.AddVertexNode | src/h3lib/lib/vertexGraph.c:86-116 | an existing node for the edge is returned with the graph unchanged; otherwise a fresh node is appended to its bucket and the size grows by one; edges stay distinct |
| VertexGraph.VertexGraph.PositionOf | src/h3lib/lib/vertexGraph.c:134-146 | the place of the node in its bucket, or the bucket length exactly when it is absent |
| VertexGraph.VertexGraph.RemoveVertexNode | src/h3lib/lib/vertexGraph.c:125-152 | 0 exactly when the node was in its bucket, which then loses exactly that node and the size one; 1 with the graph unchanged otherwise |
| VertexGraph.VertexGraph.FirstVertexNode | src/h3lib/lib/vertexGraph.c:196-210 | null exactly when the graph is empty; otherwise the head of the first non-empty bucket |
| VertexGraph.VertexGraph.DestroyVertexGraph | src/h3lib/lib/vertexGraph.c:54-60 | every bucket emptied and the size 0 |
| VertexGraph.SearchAsWritten | src/h3lib/lib/vertexGraph.c:99-110 | the do-while of addVertexNode as written, stopping at the tail without comparing it; SearchAsWrittenMeaning and AsWrittenMissesLast state the node it finds and the tail it misses |
| VertexGraph.SearchAsWrittenMeaning | src/h3lib/lib/vertexGraph.c:99-110 | the do-while as written finds the first match among nodes c up to but not including the tail of a bucket of two or more |
| VertexGraph.AsWrittenMissesLast | src/h3lib/lib/vertexGraph.c:99-110 | when only the tail matches, the search as written reports no match although the tail matches |
| LinkedGeo.LinkedLatLng.constructor | src/h3lib/lib/linkedGeo.c:77-96 | a coordinate node with no successor |
| LinkedGeo.LinkedGeoLoop.constructor | src/h3lib/lib/linkedGeo.c:48-52 | an empty loop with no successor |
| LinkedGeo.LinkedGeoPolygon.constructor | src/h3lib/lib/linkedGeo.c:35-41 | an empty polygon with no successor |
| LinkedGeo.AddNewLinkedPolygon | src/h3lib/lib/linkedGeo.c:35-41 | a fresh empty polygon becomes the successor of the last polygon, which keeps its loops; the chain grows by it |
| LinkedGeo.AddLinkedLoop | src/h3lib/lib/linkedGeo.c:59-69 | the loop becomes the last loop, and also the first when the polygon was empty; the polygon's loops grow by it |
| LinkedGeo.AddNewLinkedLoop | src/h3lib/lib/linkedGeo.c:48-52 | a fresh empty loop appended to the polygon's loops |
| LinkedGeo.AddLinkedCoord | src/h3lib/lib/linkedGeo.c:77-96 | with a coordinate for the vertex, a fresh node appended at the end of the loop; otherwise no node and the loop unchanged |
| LinkedGeo.CountLinkedPolygons | src/h3lib/lib/linkedGeo.c:145-152 | the length of the polygon chain |
| LinkedGeo.CountLinkedLoops | src/h3lib/lib/linkedGeo.c:159-167 | the length of the polygon's loop chain |
| LinkedGeo.CountLinkedCoords | src/h3lib/lib/linkedGeo.c:174-182 | the length of the loop's coordinate chain |
| LinkedGeo.AddNewLinkedLoopCounts | src/h3lib/lib/linkedGeo.c:48-52 | adding a loop raises countLinkedLoops by one |
| LinkedGeo.AddNewLinkedPolygonCounts | src/h3lib/lib/linkedGeo.c:35-41 | adding a polygon raises countLinkedPolygons by one |
| LinkedGeo.NormalizeMultiPolygonExits | src/h3lib/lib/linkedGeo.c:300-311 | E_FAILED when the root already has a successor; E_SUCCESS with at most one loop; otherwise the hole assignment goes on |
| H3IndexFat.RotDigitMeaning | src/h3lib/lib/h3IndexFat.c:337-349 | the rotDigit table maps each digit 0..6 to its rotation |
| H3IndexFat.FatValidWord | src/h3lib/lib/h3IndexFat.c:96-110 | a valid fat index packs to a well-formed word that is a valid cell unless a pentagon has leading digit K; every valid hexagon-mode word unpacks to a valid fat index |
| H3IndexFat.FatEqualValid | src/h3lib/lib/h3IndexFat.c:367-374 | on valid fat indexes h3FatEquals is equality of resolution, base cell and all digits |
| H3IndexFat.IsResClassIII | src/h3lib/lib/h3IndexFat.c:246 | res % 2 with C's truncating remainder: non-zero exactly for odd res, and -1 for negative odd res |
| H3IndexFat.H3IndexFat.constructor | src/h3lib/lib/h3IndexFat.c:24-27 | the empty fat index: mode, resolution and base cell -1, every digit 7 |
| H3IndexFat.H3IndexFat.Init | src/h3lib/lib/h3IndexFat.c:71-75 | the empty index with hexagon mode and the given resolution |
| H3IndexFat.H3IndexFat.Set | src/h3lib/lib/h3IndexFat.c:85-89 | hexagon mode, the resolution and base cell given, digits below res the given digit and 7 from res on |
| H3IndexFat.H3IndexFat.IsValid | src/h3lib/lib/h3IndexFat.c:96-110 | the loop decides the specification validity: mode, base cell, resolution, digits below res at most 6 and 7 from res on |
| H3IndexFat.H3IndexFat.CopyFrom | src/h3lib/lib/h3IndexFat.c:117-121 | the resolution, base cell and digits below res copied, the rest 7; copying onto itself leaves only the mode and resolution |
| H3IndexFat.H3IndexFat.LeadingNonZeroDigit | src/h3lib/lib/h3IndexFat.c:231-237 | the first non-zero digit below res, and 0 exactly when all of them are 0 |
| H3IndexFat.H3IndexFat.IsPentagon | src/h3lib/lib/h3IndexFat.c:356-359 | a pentagon base cell with all digits below res 0 |
| H3IndexFat.H3IndexFat.Equals | src/h3lib/lib/h3IndexFat.c:367-374 | the loop decides the specification equality |
| H3IndexFat.H3IndexFat.Rotate60ccw | src/h3lib/lib/h3IndexFat.c:337-349 | every digit below res rotated ccw by table, the others kept |
| H3IndexFat.H3IndexFat.Rotate60cw | src/h3lib/lib/h3IndexFat.c:380-392 | every digit below res rotated cw by table, the others kept |
| H3IndexFat.H3IndexFat.RotatePent60ccw | src/h3lib/lib/h3IndexFat.c:304-331 | the pentagon rotation of the digits: rotated ccw, once more when the first non-zero digit becomes K |
| H3IndexFat.CopyEquals | src/h3lib/lib/h3IndexFat.c:117-121 | h3FatEquals holds after copyH3IndexFat, and a copy of a valid index is valid |
| H3IndexFat.RotateRoundTrip | src/h3lib/lib/h3IndexFat.c:337-392 | _h3FatRotate60cw after _h3FatRotate60ccw gives the digits back |
| H3DirectedEdge.GetDirectedEdgeOrigin | src/h3lib/lib/directedEdge.c:156-165 | E_DIR_EDGE_INVALID exactly when the mode is not the directed-edge mode; otherwise the word with cell mode and the reserved bits cleared |
| H3DirectedEdge.EdgeWord | src/h3lib/lib/directedEdge.c:142-148 | the origin with directed-edge mode and the direction in the reserved bits, nothing else changed |
| H3DirectedEdge.CellsToDirectedEdge | src/h3lib/lib/directedEdge.c:132-149 | E_NOT_NEIGHBORS exactly when the direction to the destination is INVALID_DIGIT; otherwise the edge word for that direction |
| H3DirectedEdge.OriginRoundTrip | src/h3lib/lib/directedEdge.c:132-165 | the origin of an edge built from a cell is that cell, and the reserved bits hold the direction |
| H3DirectedEdge.CellsToDirectedEdgeRoundTrip | src/h3lib/lib/directedEdge.c:132-165 | cellsToDirectedEdge succeeds for a valid cell and a real direction, and getDirectedEdgeOrigin gives the cell back |
| H3DirectedEdge.PentagonOfView | src/h3lib/lib/h3Index.c:789-792 | isPentagon of a word is the pentagon test on its view |
| H3DirectedEdge.IsValidDirectedEdgeSpec | src/h3lib/lib/directedEdge.c:189-206 | valid exactly with directed-edge mode, a direction 1..6, not K from a pentagon, and a valid origin cell |
| H3DirectedEdge.EdgeWordValid | src/h3lib/lib/directedEdge.c:189-206 | an edge built from a valid cell is valid exactly for directions 1..6 other than K from a pentagon |
| H3DirectedEdge.OriginToDirectedEdges | src/h3lib/lib/directedEdge.c:234-251 | E_SUCCESS; slot i holds the edge in direction i + 1, slot 0 H3_NULL for a pentagon; later slots are untouched |
| H3DirectedEdge.EdgeSlotsOfValidCell | src/h3lib/lib/directedEdge.c:234-251 | every edge written for a valid cell is a valid edge whose origin is the cell |
| H3DirectedEdge.NeighborSetsAreRotations | src/h3lib/lib/directedEdge.c:95-100 | the clockwise and counter-clockwise neighbour tables are the cw and ccw digit rotations |
| H3DirectedEdge.SiblingTest | src/h3lib/lib/directedEdge.c:70-106 | the sibling shortcut: true only for adjacent siblings, E_CELL_INVALID exactly on the invalid digit or a K digit under a pentagon parent, no verdict for siblings that are not adjacent |
| H3DirectedEdge.AreNeighborCells | src/h3lib/lib/directedEdge.c:38-123 | E_CELL_INVALID for a non-cell mode; false for equal cells; E_RES_MISMATCH across resolutions; otherwise the sibling shortcut or the search of the ring around origin |
| H3DirectedEdge.SiblingNeighbors | src/h3lib/lib/directedEdge.c:62-118 | at resolution 2 and up, the same-resolution verdict: the shortcut when the parents agree, the ring search otherwise |
| H3DirectedEdge.RingSearch | src/h3lib/lib/directedEdge.c:111-122 | true exactly when the destination is in the ring |
| H3DirectedEdge.GetDirectedEdgeDestination | src/h3lib/lib/directedEdge.c:172-182 | E_DIR_EDGE_INVALID for the wrong mode; otherwise the neighbour of the origin in the stored direction |
| H3DirectedEdge.DirectedEdgeToCells | src/h3lib/lib/directedEdge.c:214-227 | the origin and the destination, or the first error of the two |
| H3Edge.WrapDirectedEdgeError | src/h3lib/lib/edge.c:35-40 | E_DIR_EDGE_INVALID becomes E_UNDIR_EDGE_INVALID and every other error passes through |
| H3Edge.WrapIdempotent | src/h3lib/lib/edge.c:35-40 | wrapping twice is wrapping once |
| H3Edge.EdgeAsDirectedEdge | src/h3lib/lib/edge.c:48-54 | an undirected edge gets directed-edge mode and nothing else changes; other words pass through |
| H3Edge.LoHi | src/h3lib/lib/edge.c:62-73 | the lower and higher cell do not depend on the argument order, are the two cells, and are ordered |
| H3Edge.CellsToEdge | src/h3lib/lib/edge.c:62-73 | the only error is E_NOT_NEIGHBORS |
| H3Edge.CellsToEdgeSpec | src/h3lib/lib/edge.c:62-73 | E_NOT_NEIGHBORS exactly when there is no direction from the lower cell to the higher; otherwise the lower cell with edge mode and that direction |
| H3Edge.CellsToEdgeSymmetric | src/h3lib/lib/edge.c:62-73 | cellsToEdge(a, b) and cellsToEdge(b, a) agree |
| H3Edge.EdgeToCells | src/h3lib/lib/edge.c:117-126 | E_UNDIR_EDGE_INVALID for a word of neither edge mode, never E_DIR_EDGE_INVALID; on success the origin cell and its neighbour in the stored direction |
| H3Edge.ValidEdgeMeaning | src/h3lib/lib/edge.c:80-108 | a valid edge has edge mode, a direction 1..6, two valid cells in order, and is not K from a pentagon |
| H3Edge.CellsToEdgeRoundTrip | src/h3lib/lib/edge.c:62-126 | edgeToCells of cellsToEdge of two neighbours gives the lower and the higher cell |
| H3Edge.ValidEdgeOfParts | src/h3lib/lib/edge.c:80-108 | an edge word with ordered valid cells is valid exactly when it is not K from a pentagon |
| H3Edge.CellsToEdgeValid | src/h3lib/lib/edge.c:62-108 | the edge of two neighbouring valid cells is valid exactly when it is not K from a pentagon lower cell |
| H3Edge.Neighbors | src/h3lib/lib/edge.c:139-148 | the cells of the first n ring slots other than the origin and H3_NULL: at most n of them, one fewer when the origin is among those slots |
| H3Edge.NeighborsPrefix | src/h3lib/lib/edge.c:139-148 | scanning further only extends the neighbour list |
| H3Edge.EdgesForSnoc | src/h3lib/lib/edge.c:139-148 | writing the next edge extends the written edges by one neighbour |
| H3Edge.EdgeStep | src/h3lib/lib/edge.c:139-148 | one turn of the loop keeps the written edges those of the neighbours seen so far, or reports a neighbour without an edge |
| H3Edge.CellToEdges | src/h3lib/lib/edge.c:133-151 | the gridDisk error passes through; E_SUCCESS exactly when every neighbour has an edge, and then slot k holds the edge to the k-th neighbour and later slots are untouched; otherwise E_NOT_NEIGHBORS |
| H3BaseCellTables.BaseCellNeighbors | src/h3lib/lib/baseCells.c:38-163 | row b: itself at the centre, INVALID_BASE_CELL exactly in the K direction of a pentagon, every other entry a base cell |
| H3BaseCellTables.BaseCellNeighbor60CCWRots | src/h3lib/lib/baseCells.c:171-294 | row b: 0 at the centre, -1 exactly in the K direction of a pentagon, every entry below 6 |
| H3BaseCellTables.FaceIjkBaseCells | src/h3lib/lib/baseCells.c:308-688 | each face's 3x3x3 block of base-cell rotations |
| H3BaseCellTables.BaseCellDataOf | src/h3lib/lib/baseCells.c:697-821 | the pentagon flag agrees with the pentagon list; the home face and coordinates are in range; the offset faces are (-1,-1) exactly for the polar pentagons, (0,0) for hexagons, and two distinct faces otherwise |
| H3BaseCellTables.HomeEntries | src/h3lib/lib/baseCells.c:308-821 | every base cell's home face lists it at its home coordinates with 0 rotations |
| H3BaseCells.IsBaseCellPentagonData | src/h3lib/lib/baseCells.c:824-826 | the table flag of a base cell is the pentagon test |
| H3BaseCells.IsBaseCellPolarPentagon | src/h3lib/lib/baseCells.c:830-832 | 4 and 117 are pentagons, and exactly the base cells with no offset faces |
| H3BaseCells.FaceIjkToBaseCell | src/h3lib/lib/baseCells.c:842-845 | a base cell number |
| H3BaseCells.FaceIjkToBaseCellCCWrot60 | src/h3lib/lib/baseCells.c:855-858 | a rotation count 0..5 |
| H3BaseCells.BaseCellToFaceIjk | src/h3lib/lib/baseCells.c:862-864 | the home face and coordinates, which look up to the same base cell with 0 rotations |
| H3BaseCells.BaseCellIsCwOffset | src/h3lib/lib/baseCells.c:889-892 | a hexagon answers true only for face 0, a polar pentagon only for -1, another pentagon only for one of its faces |
| H3BaseCells.PentagonOffsetFaces | src/h3lib/lib/baseCells.c:889-892 | each non-polar pentagon has exactly two offset faces |
| H3BaseCells.GetBaseCellNeighbor | src/h3lib/lib/baseCells.c:896-898 | the centre direction gives the base cell itself; INVALID_BASE_CELL exactly for K from a pentagon; otherwise a base cell |
| H3BaseCells.GetBaseCellDirection | src/h3lib/lib/baseCells.c:903-911 | the first direction whose neighbour is the given one, or INVALID_DIGIT exactly when there is none; the centre for the base cell itself; K for INVALID_BASE_CELL from a pentagon |
| H3BaseCells.FirstRotationMeaning | src/h3lib/lib/baseCells.c:873-885 | the scan of a face's 27 entries finds the rotation of the first entry holding the base cell, or INVALID_ROTATIONS exactly when none does |
| H3BaseCells.BaseCellToCCWrot60 | src/h3lib/lib/baseCells.c:873-885 | the triple loop computes the corrected specification |
| H3BaseCells.BaseCellToCCWrot60Meaning | src/h3lib/lib/baseCells.c:873-885 | INVALID_ROTATIONS exactly for a face outside 0..19 or a face that does not list the base cell; otherwise the rotation of its first entry there |
| H3BaseCells.HomeFaceRotation | src/h3lib/lib/baseCells.c:862-885 | on its home face every base cell has a rotation |
| H3BaseCells.BaseCellToCCWrot60AsWritten | src/h3lib/lib/baseCells.c:874 | the guard as written: no result (a read past the table) exactly for a face the guard lets through that has no table row |
| H3BaseCells.GuardAdmitsFaceTwenty | src/h3lib/lib/baseCells.c:874 | face 20 passes the guard, has no row, and the intended answer is INVALID_ROTATIONS |
| H3BaseCells.Res0IndexView | src/h3lib/lib/baseCells.c:926-933 | the word built for a base cell decodes to resolution 0, that base cell, all digits 7 |
| H3BaseCells.Res0IndexValid | src/h3lib/lib/baseCells.c:926-933 | each such word is a valid cell of resolution 0 with that base cell, and different base cells give different words |
| H3BaseCells.GetRes0Indexes | src/h3lib/lib/baseCells.c:926-933 | slot bc holds the resolution-0 cell of base cell bc for all 122; later slots untouched |
| H3Algos.NewDigit | src/h3lib/lib/algos.c:76-95 | the digit tables give a digit 0..6 and leave the digit unchanged for the centre direction |
| H3Algos.NewAdjustment | src/h3lib/lib/algos.c:97-157 | the adjustment tables give a direction 0..6, the centre for the centre direction |
| H3Algos.DiskCellsClosed | src/h3lib/lib/algos.c:168-185 | the cells within distance k number 3k(k+1)+1 |
| H3Algos.MaxGridDiskSize | src/h3lib/lib/algos.c:168-185 | E_DOMAIN exactly for negative k; the disk size below K_ALL_CELLS_AT_RES_15; the number of resolution-15 cells from there on |
| H3Algos.MaxGridDiskSizeCap | src/h3lib/lib/algos.c:159-175 | K_ALL_CELLS_AT_RES_15 is the first k whose disk outnumbers the 569707381193162 cells of resolution 15 |
| H3Algos.DiskCellsMonotone | src/h3lib/lib/algos.c:168-185 | a larger k never gives a smaller disk |
| H3Algos.MaxGridDiskSizeFits | src/h3lib/lib/algos.c:168-185 | every size returned is positive and fits the int64_t output |
| H3Algos.MaxGridRingSize | src/h3lib/lib/algos.c:344-354 | E_DOMAIN exactly for negative k |
| H3Algos.DiskIsRings | src/h3lib/lib/algos.c:344-354 | a disk is the disk one smaller plus its outer ring; the disk of radius 0 is its ring |
| H3Algos.RingFitsDisk | src/h3lib/lib/algos.c:344-354 | a ring is never larger than the disk of the same radius |
| H3Algos.CRem6 | src/h3lib/lib/algos.c:458 | C's remainder by 6: the Euclidean one for a non-negative count, in -5..0 for a negative one |
| H3Algos.RotateCcwTimes | src/h3lib/lib/algos.c:459-461 | a direction stays a digit, and rotating never moves the centre or moves a real direction onto it |
| H3Algos.RotateDirection | src/h3lib/lib/algos.c:458-461 | the loop rotates the direction rotations times counter-clockwise |
| H3Algos.WalkStep | src/h3lib/lib/algos.c:494-510 | rewriting digit r + 1 moves the digit walk one resolution coarser and changes nothing outside the digits |
| H3Algos.AdjustDigit | src/h3lib/lib/algos.c:494-515 | one digit rewritten through the class II or class III tables; nothing else changes; the centre direction changes nothing |
| H3Algos.AdjustDigits | src/h3lib/lib/algos.c:472-516 | only the digits and the base cell can change; invalid only when an in-use digit is INVALID_DIGIT; the centre direction leaves the cell unchanged and reaches the base cell only at resolution 0 |
| H3Algos.NeighborStep | src/h3lib/lib/algos.c:474-490 | the base-cell neighbour in the direction and its rotation, or, across a deleted K direction, the IK neighbour |
| H3Algos.BaseCellStep | src/h3lib/lib/algos.c:474-492 | the new base cell is a neighbour of the old one; only the base cell and digits change; rotations only grow; the centre direction changes nothing |
| H3Algos.RotateHexagonTimes | src/h3lib/lib/algos.c:588-589 | rotating the digits leaves everything else, and a count of 0 leaves the cell |
| H3Algos.RotatePentagonTimes | src/h3lib/lib/algos.c:567-568 | the same for the pentagon rotation |
| H3Algos.LeaveKSubsequence | src/h3lib/lib/algos.c:520-565 | E_PENTAGON only inside one pentagon from its centre child toward K; E_FAILED only inside one pentagon; success rotates only the digits, from a leading JK or IK digit when inside one pentagon; nothing happens off the K digit |
| H3Algos.CrossingRotation | src/h3lib/lib/algos.c:570-586 | at most one extra rotation, none without a change of base cell, and one only in the polar and the IK cases the code names |
| H3Algos.PentagonStep | src/h3lib/lib/algos.c:518-586 | the pentagon branch: the same error cases, success keeps the new base cell and changes only digits, and without rotations or a K digit it changes nothing |
| H3Algos.TurnIntoFrame | src/h3lib/lib/algos.c:518-592 | E_PENTAGON only from a pentagon's centre child; success changes only the digits and leaves the rotation count in 0..5; H3_NULL on error |
| H3Algos.FinishNeighbor | src/h3lib/lib/algos.c:469-595 | success gives a cell on a neighbouring base cell that differs from the origin only in digits and base cell; E_PENTAGON only from a pentagon; rotations end in 0..5 |
| H3Algos.NeighborRotations | src/h3lib/lib/algos.c:449-596 | E_FAILED for a direction outside 0..6; E_CELL_INVALID exactly for a base cell past 121 or, otherwise only, an INVALID_DIGIT in use; E_PENTAGON only from a pentagon; success gives a cell on a neighbouring base cell, rotations in 0..5, and the origin itself for the centre direction |
| H3GridDisk.Steps | src/h3lib/lib/algos.c:275-278 | how many probe steps from a home reach a slot |
| H3GridDisk.SlotInjective | src/h3lib/lib/algos.c:275-278 | different probe steps from one home visit different slots |
| H3GridDisk.ProbeMiss | src/h3lib/lib/algos.c:275-278 | a probe that passed other cells and reached a free slot shows the cell is nowhere in the table |
| H3GridDisk.InsertTable | src/h3lib/lib/algos.c:275-286 | storing a new cell at the first free slot of its probe keeps the cells distinct and the probe chains unbroken |
| H3GridDisk.EmptyTable | src/h3lib/lib/algos.c:405-416 | the zeroed buffers are a table |
| H3GridDisk.Probe | src/h3lib/lib/algos.c:275-278 | the slot holding the cell or the first free slot from its home, every earlier slot on the way held another cell; no answer only when every slot holds another cell |
| H3GridDisk.Store | src/h3lib/lib/algos.c:283-286 | writes the cell and its distance at one slot, keeps the table, keeps every stored cell and never raises a distance |
| H3GridDisk.GridDiskDistancesInternal | src/h3lib/lib/algos.c:272-311 | the table stays a table, stored cells stay and their distances only fall, every change lies in distances curK..k, and on success the origin is stored within curK |
| H3GridDisk.VisitNeighbors | src/h3lib/lib/algos.c:292-310 | the six recursive calls keep the table and change only distances curK + 1..k; E_PENTAGON from a neighbour is skipped and any other error returned |
| H3GridDisk.SpiralOnRing | src/h3lib/lib/algos.c:697-737 | step i of side direction of ring r writes a slot of ring r inside the disk of radius k |
| H3GridDisk.SpiralAdvance | src/h3lib/lib/algos.c:725-737 | the output index counts up by one along a side, round a corner and onto the next ring |
| H3GridDisk.SpiralStep | src/h3lib/lib/algos.c:716-742 | writes one slot of the current ring and nothing else; on success a cell that is not a pentagon, with its ring as distance |
| H3GridDisk.Spiral | src/h3lib/lib/algos.c:688-744 | on success no slot of the disk holds a pentagon and each slot's distance is its ring, at most k |
| H3GridDisk.GridDiskDistancesUnsafe | src/h3lib/lib/algos.c:662-745 | E_DOMAIN for negative k with nothing written; otherwise the origin at slot 0 with distance 0; E_PENTAGON for a pentagon origin; on success no pentagon in the disk and each distance the slot's ring |
| H3GridDisk.RingSlotAdvance | src/h3lib/lib/algos.c:789-860 | the ring walk's output index advances by one per step and reaches 6k at the end |
| H3GridDisk.WalkOut | src/h3lib/lib/algos.c:808-821 | walking k steps out from the origin ends, on success, on a cell that is not a pentagon |
| H3GridDisk.WalkSide | src/h3lib/lib/algos.c:829-850 | one side of the ring: on success the output index reaches the next side and no slot written holds a pentagon |
| H3GridDisk.GridRingUnsafe | src/h3lib/lib/algos.c:789-860 | E_DOMAIN for negative k, the origin alone for k = 0, E_PENTAGON with nothing written for a pentagon origin, on success 6k slots without a pentagon |
| H3GridDisk.RingOfSound | src/h3lib/lib/algos.c:424-428 | every cell the ring filter keeps is a stored cell at distance exactly k |
| H3GridDisk.RingOfComplete | src/h3lib/lib/algos.c:424-428 | every stored cell at distance exactly k is kept |
| H3GridDisk.RingOfDistinct | src/h3lib/lib/algos.c:424-428 | the kept cells are distinct when the table's are |
| H3GridDisk.RingOfSnoc | src/h3lib/lib/algos.c:424-428 | one more slot scanned adds its cell exactly when it qualifies |
| H3GridDisk.FilterRing | src/h3lib/lib/algos.c:423-428 | the front of out holds exactly the table's cells at distance k, in table order; the rest is untouched |
| H3GridDisk.GridRingInternal | src/h3lib/lib/algos.c:392-432 | k = 0 writes only the origin; E_DOMAIN for negative k; on success the search's table holds the origin at distance 0 and only cells within k, and out holds its cells at distance k, the rest untouched |
| H3Polyfill.BaseCellNumToCell | src/h3lib/lib/polyfill.c:267-274 | H3_NULL exactly for a number outside 0..121; otherwise the resolution-0 cell of that base cell |
| H3Polyfill.BaseCellNumToCellValid | src/h3lib/lib/polyfill.c:267-274 | that cell is valid, at resolution 0, on the given base cell |
| H3Polyfill.ParentUp | src/h3lib/lib/polyfill.c:295-297 | clearing one resolution and its digit is the parent one level up |
| H3Polyfill.SkipOfParent | src/h3lib/lib/polyfill.c:301-306 | the step is 2 exactly when the parent is a pentagon and the digit is the centre |
| H3Polyfill.ClimbParent | src/h3lib/lib/polyfill.c:295-297 | the fast parent computation gives the parent one level up |
| H3Polyfill.AdvanceDigit | src/h3lib/lib/polyfill.c:300-307 | the digit is bumped to the next sibling, skipping a pentagon's missing K child |
| H3Polyfill.NextCell | src/h3lib/lib/polyfill.c:285-313 | the next cell in index order: the next sibling at the coarsest resolution whose digits are not used up, the next base cell, or H3_NULL after the last |
| H3Polyfill.NextViewUnique | src/h3lib/lib/polyfill.c:285-313 | the next cell is a function of the cell |
| H3Polyfill.NextCellUnique | src/h3lib/lib/polyfill.c:285-313 | on words: at most one next cell |
| H3Polyfill.NextCellCoarser | src/h3lib/lib/polyfill.c:285-313 | the next cell is never finer than the cell |
| H3Polyfill.NextCellOfBaseCell | src/h3lib/lib/polyfill.c:289-291 | a base cell is followed by the next base cell, the last one by H3_NULL |
| H3Polyfill.NextCellOfPentagon | src/h3lib/lib/polyfill.c:301-306 | the centre child of a pentagon is followed by its J sibling, not the missing K one |
| H3Polyfill.NextCellSkipsDeleted | src/h3lib/lib/polyfill.c:301-306 | no next cell is a deleted K child of a pentagon |
| H3Polyfill.NextSiblingValid | src/h3lib/lib/polyfill.c:300-307 | the next sibling of a valid cell is valid |
| H3Polyfill.NextCellValid | src/h3lib/lib/polyfill.c:285-313 | the next cell after a valid cell is valid or H3_NULL |
| H3Polyfill.IterCellsPolygonCompact.constructor | src/h3lib/lib/polyfill.c:319-359 | E_RES_DOMAIN for a resolution outside 0..15, then a flag error, then E_DOMAIN for missing holes, each leaving the iterator done; otherwise base cell 0, not started, with the arguments saved |
| H3Polyfill.IterCellsPolygonCompact.IterError | src/h3lib/lib/polyfill.c:276-279 | the iterator is done and holds the error |
| H3Polyfill.IterCellsPolygonCompact.Destroy | src/h3lib/lib/polyfill.c:603-614 | the iterator is done with E_SUCCESS |
| H3Polyfill.IterCellsPolygonCompact.Step | src/h3lib/lib/polyfill.c:409-596 | a done iterator stays done; the first step considers the current cell and later ones the next cell; an empty polygon ends the iteration; otherwise the search's cell, its error, or the end |
| H3Polyfill.IterCellsPolygonCompact.DestroyThenStep | src/h3lib/lib/polyfill.c:409-414 | stepping a destroyed iterator leaves it done |
| H3Polyfill.PolygonToCellsExperimental | src/h3lib/lib/polyfill.c:707-720 | all cells written and the iterator's final error when they fit; otherwise the first size cells and E_MEMORY_BOUNDS; the rest of out untouched |
| Args.Arg.constructor | src/apps/applib/include/args.h:36-76 | an argument with its names, required flag and scan format, not yet found and without a value |
| Args.FirstArg | src/apps/applib/lib/args.c:108-123 | the first declared argument with one of its names equal to the word, or -1 exactly when none has |
| Args.FirstMissing | src/apps/applib/lib/args.c:165-171 | the first required argument not found, or -1 exactly when there is none |
| Args.ParseFrom | src/apps/applib/lib/args.c:105-175 | parsing from word i on only adds matches after the ones already made |
| Args.MatchesName | src/apps/applib/lib/args.c:113-120 | the loop over the name slots answers whether one of the set names equals the word |
| Args.FindArg | src/apps/applib/lib/args.c:108-123 | the loop over the arguments finds the first match |
| Args.FoundUpdate | src/apps/applib/lib/args.c:151 | setting one found flag is a point update of the found flags |
| Args.RecordMatch | src/apps/applib/lib/args.c:131-153 | only the matched argument changes: it is found, its value is the scanned next word when it takes one, and the next word to read and the help flag are those of the specification |
| Args.MatchStep | src/apps/applib/lib/args.c:125-153 | one matched word either ends the parse with the specification's outcome or moves on to a later word with the same outcome still ahead |
| Args.FindMissing | src/apps/applib/lib/args.c:165-171 | the loop finds the first required argument not found |
| Args.ParseArgsList | src/apps/applib/lib/args.c:99-175 | the return code, message, detail, found flags and values are those of the specification |
| Args.ParseArgs | src/apps/applib/lib/args.c:63-79 | the parse error if there is one, PARSE_ARGS_HELP when help was given, PARSE_ARGS_SUCCESS otherwise |
| Args.ParseFromStep | src/apps/applib/lib/args.c:125-153 | a matching word that does not stop the parse marks its argument found and parsing goes on from the next word |
| Args.ParseFromStop | src/apps/applib/lib/args.c:125-175 | where the parse stops: success exactly with all words read and help given or nothing required missing; PARSE_ARGS_MISSING_REQUIRED exactly with all words read, no help and a required argument missing; a message exactly on failure |
| Args.ParseFromCodes | src/apps/applib/lib/args.c:99-175 | the parse returns one of the six codes, with a message exactly when it fails |
| Args.ParseFromFound | src/apps/applib/lib/args.c:125-153 | the arguments found at the end are those found before plus the ones matched, each matched once and none found twice |
| Args.ParseFromRequired | src/apps/applib/lib/args.c:147-172 | MISSING_REQUIRED only without help and with a required argument not found; success without help only with every required argument found |
| Args.RepeatedArgument | src/apps/applib/lib/args.c:125-129 | the same flag twice in a row is PARSE_ARGS_REPEATED_ARGUMENT, naming the repeated word |
| Args.MissingValueAtEnd | src/apps/applib/lib/args.c:125-139 | a value-taking argument as the last word is MISSING_VALUE, or REPEATED_ARGUMENT when it was already found |
| Args.UnknownArgument | src/apps/applib/lib/args.c:156-159 | a word that names no argument is PARSE_ARGS_UNKNOWN_ARGUMENT, with no detail, and finds nothing |
| ExplorerRange.JsRemMeaning | website/src/components/explorer/useHex.ts:16 | JavaScript's remainder: the dividend plus a multiple of the divisor, with the dividend's sign and below the divisor in size |
| ExplorerRange.AdjustUpward | website/src/components/explorer/useHex.ts:14-17 | with min < max the result lies in [min, max) and differs from the value by whole ranges |
| ExplorerRange.AdjustDownward | website/src/components/explorer/useHex.ts:14-17 | with max < min the result lies in (max, min] and differs from the value by whole ranges |
| ExplorerRange.AdjustToRange | website/src/components/explorer/useHex.ts:14-17 | no number (NaN) exactly for an empty range; for min < max the result lies in [min, max), for max < min in (max, min]; AdjustToRangeMeaning adds that it differs from the value by whole ranges |
| ExplorerRange.AdjustToRangeMeaning | website/src/components/explorer/useHex.ts:14-17 | no number (NaN) exactly for an empty range; otherwise the value moved by whole ranges into the half-open range |
| ExplorerRange.AdjustToRangeUnique | website/src/components/explorer/useHex.ts:14-17 | that number is the only one in the range that differs from the value by whole ranges |
| ExplorerRange.AdjustLongitude | website/src/components/explorer/useHex.ts:19-21 | a longitude in [-180, 180) that differs from the input by whole turns |
| ExplorerRange.AdjustLongitudeTurns | website/src/components/explorer/useHex.ts:19-21 | longitudes already in range are kept, and whole turns do not change the result |
| ExplorerRange.NextMeridian | website/src/components/explorer/useHex.ts:80 | the next of the two split meridians, 0 or 180, above a normalised position |
| ExplorerRange.Advance | website/src/components/explorer/useHex.ts:79-81 | each turn of the loop moves the position forward |
| ExplorerRange.AdvanceOnMeridian | website/src/components/explorer/useHex.ts:79-81 | the position lands on a split meridian, and from one it moves half a turn |
| ExplorerRange.SplitLongitudeRange | website/src/components/explorer/useHex.ts:68-90 | the loop computes the specification of the split |
| ExplorerRange.PiecesFromMeaning | website/src/components/explorer/useHex.ts:74-87 | no pieces exactly when the start is not below the end; every piece is well formed, every piece but the last ends on a split meridian, and the widths add up to the range |
| ExplorerRange.SplitLongitude | website/src/components/explorer/useHex.ts:68-90 | splitLongitudeRange's pieces as a function of the bounds; SplitLongitudeMeaning states they are empty exactly for an empty range, each well formed, cut only at 0 or 180, and as wide in all as the range |
| ExplorerRange.SplitLongitudeMeaning | website/src/components/explorer/useHex.ts:68-90 | the same for the whole range from minLon to maxLon |
| ExplorerHex.VisibleBounds | website/src/components/explorer/useHex.ts:30-58 | the corners of the viewport, or the fallback box around the origin when the viewport fails |
| ExplorerHex.BoundsToPolygon | website/src/components/explorer/useHex.ts:92-98 | a closed ring of five points |
| ExplorerHex.VisibleBoundsCorners | website/src/components/explorer/useHex.ts:30-98 | the ring's fourth point is the top left corner and its second the bottom right one |
| ExplorerHex.BoundsToPolygonArea | website/src/components/explorer/useHex.ts:92-98 | the ring encloses the box: twice its signed area is twice width times height |
| ExplorerHex.FallbackPolygon | website/src/components/explorer/useHex.ts:49-57 | the fallback box encloses a positive area |
| ExplorerHex.SplitPolygon | website/src/components/explorer/useHex.ts:60-66 | one box per longitude piece, each keeping the latitudes |
| ExplorerHex.ZoomTable | website/src/components/explorer/useHex.ts:100-123 | 22 zoom levels, each to a resolution 0..15, never decreasing, every resolution reached |
| ExplorerHex.ZoomMonotone | website/src/components/explorer/useHex.ts:100-123 | a higher zoom never gives a coarser resolution |
| ExplorerHex.ZoomEntries | website/src/components/explorer/useHex.ts:125 | the entries of the zoom table in key order |
| ExplorerHex.LastKeyOfMeaning | website/src/components/explorer/useHex.ts:125 | the fold maps each value to the last key that has it, and keeps the rest of the start map |
| ExplorerHex.ResolutionToZoomMeaning | website/src/components/explorer/useHex.ts:125 | every resolution 0..15 and nothing else has a zoom: the highest zoom that maps to it |
| ExplorerHex.ZoomLookup | website/src/components/explorer/useHex.ts:184 | a resolution 0..15 exactly for a rounded zoom 0..21, undefined otherwise |
| ExplorerHex.DedupFromMeaning | website/src/components/explorer/useHex.ts:132-138 | the spread of a Set: distinct, holding exactly the elements not already seen |
| ExplorerHex.DedupMeaning | website/src/components/explorer/useHex.ts:132-138 | distinct, the same elements, and a list that is already distinct stays as it is |
| ExplorerHex.DedupOfDistinct | website/src/components/explorer/useHex.ts:132-138 | nothing is dropped from a distinct list with nothing seen |
| ExplorerHex.FlattenMembers | website/src/components/explorer/useHex.ts:134-136 | flatMap holds exactly the members of the pieces |
| ExplorerHex.CellsOfPieces | website/src/components/explorer/useHex.ts:130-136 | polygonToCells of each piece's ring, piece by piece |
| ExplorerHex.GetHexagons | website/src/components/explorer/useHex.ts:127-140 | getHexagons as the deduplicated flattening of polygonToCells per piece; GetHexagonsMeaning states the cells are distinct and exactly those of some piece |
| ExplorerHex.GetHexagonsMeaning | website/src/components/explorer/useHex.ts:127-140 | distinct cells, exactly those polygonToCells gives for some piece of the split bounds |
| ExplorerHex.HexView.constructor | website/src/components/explorer/useHex.ts:147-149 | no hexagons and resolution 0 at the start |
| ExplorerHex.HexView.HandleResize | website/src/components/explorer/useHex.ts:178-194 | a frozen resolution changes nothing; otherwise the resolution of the rounded zoom and the hexagons of the visible bounds at it |
| ExplorerUtils.DelayMeaning | website/src/components/explorer/utils.ts:34 | the delay is never negative, zero exactly once the wait is over, and a timer due after it fires no sooner than the wait after the last run |
| ExplorerUtils.Throttle.constructor | website/src/components/explorer/utils.ts:16-19 | not throttling, nothing pending, nothing run |
| ExplorerUtils.Throttle.Call | website/src/components/explorer/utils.ts:20-37 | the first call runs at once and starts throttling; later calls replace the pending timer with one due after the delay |
| ExplorerUtils.Throttle.Fire | website/src/components/explorer/utils.ts:28-33 | the timer runs its call only once the wait since the last run is over, which it always is when it fires when due |
| ExplorerUtils.MinResolution | website/src/components/explorer/utils.ts:102-105 | the smallest resolution, and none exactly for an empty list |
| ExplorerUtils.FindIndexBelow | website/src/components/explorer/utils.ts:114-115 | the first index whose area is below the given one, or -1 exactly when none is |
| ExplorerUtils.MaxAcceptableResolution | website/src/components/explorer/utils.ts:114-115 | one less than that index: -2 exactly when no area is below, else the last resolution whose area is not below |
| ExplorerUtils.MaxAcceptableResolutionMonotone | website/src/components/explorer/utils.ts:114-115 | a larger area never gives a finer resolution |
| ExplorerUtils.MaxAcceptableResolutionCounts | website/src/components/explorer/utils.ts:110-115 | with strictly shrinking areas, the resolutions up to the result are exactly those whose area is not below |

## Left out

Changes of behaviour and weaker contracts:

- H3Hierarchy.IsBaseCellPentagon: adds a `0 <= bc < 122` guard. `_isBaseCellPentagon` (src/h3lib/lib/baseCells.c:824-826) indexes its table without one, so base cells 122..127, which the 7-bit field can hold, read past the table in C and read as "not a pentagon" here. This flows into isPentagon, the iterators, cellToChildPos and isValidDirectedEdge.
- H3Hierarchy.ZeroIndexDigits: clears the digits start..end one at a time instead of building the single shifted mask of `_zeroIndexDigits` (src/h3lib/lib/h3Index.c:460-472). It requires `start > end || (1 <= start && end <= 15)`, the range every caller passes; the two forms agree there, and `ZeroIndexDigitsView` states the result.
- Integer widths: `int` and `int64_t` are unbounded integers, so C overflow is not modelled (for example the count `numOut` of uncompactCellsSize, or `6 * numCells` in getNumEdges). Overflow that matters is written out: the 64-bit index word is a `bv64`, the remainder of `*rotations % 6` follows C (CRem6), and JavaScript's `%` is JsRem.
- H3Low52.Low52Sort, H3CellsToMultiPoly.SortWords: `qsort` is modelled as an insertion sort. Sortedness and permutation are proved, but `qsort` is not stable, so the order of cells with equal keys may differ.
- H3Low52.Lower52BsearchRich: completeness (every cell of the set that holds h is found) is proved only when h has sevens below its resolution and no cell of the set has a 7 as its last digit, which every valid cell satisfies. `EarlyExitNeedsCellShape` shows that the early exit on a comparison result of 1 misses descendants for other words.
- H3ArcSet.ArcSet.CancelArcPairs: proves that components only merge and that exactly the arcs with a partner are removed. It does not prove that the prev/next pointers still form loops after the splices: splicing when one of the two arcs is alone in its loop (its own next) breaks that (SpliceLoneSelfLoop); excluding it needs the fact that no cell boundary loop shrinks to a single arc, which rests on reverseDirectedEdge and the cell geometry and is not modelled.
- H3ArcSet.ArcSet.CountLoops: requires next to be a permutation of the live arcs and the ids to be distinct. In the source this follows from cancelArcPairs, which is the gap above.
- H3ArcSet.ArcSet.FindArc: requires a non-empty arc set. With no arcs the source's `hashEdge` divides by zero, but cancelArcPairs never calls it then.
- H3GridDisk.GridDiskDistancesInternal, H3GridDisk.FilterRing: return E_MEMORY_BOUNDS where the source would probe forever in a full table or write past the caller's buffer. Neither happens for buffers of the sizes maxGridDiskSize and maxGridRingSize give, but the model does not prove those sizes suffice, because that needs the distinctness of the cells h3NeighborRotations reaches.
- H3GridDisk.Spiral, H3GridDisk.GridRingUnsafe: state the error codes, the slots written and that no pentagon is output. They do not state which cells are written, because h3NeighborRotations is given no geometric meaning here.
- H3Algos.NeighborRotations: states the error codes, that only the base cell and the digits change, that the new base cell neighbours the old one, and the range of the rotation count. It does not state that the result is the adjacent cell in the given direction, which would need the IJK geometry of the faces.
- ExplorerUtils.MinResolution: returns no value for an empty list where `Math.min()` gives `Infinity`.
- ExplorerRange.AdjustToRange: returns no value for an empty range where JavaScript gives `NaN`. Longitudes are integers in millionths of a degree; floating-point rounding is not modelled.
- ExplorerHex.ZoomLookup: a rounded zoom outside 0..21 gives no resolution, where the source gets `undefined` and passes it on to polygonToCells.

Foreign calls, taken as parameters:

- directionForNeighbor (src/h3lib/lib/algos.c:606-622), in cellsToDirectedEdge and cellsToEdge. It needs the local IJ coordinates of localij.c, which is not part of this model.
- The neighbour function behind getDirectedEdgeDestination and edgeToCells (h3NeighborRotations with its direction).
- gridDisk of radius 1, in areNeighborCells and cellToEdges. Its ring is a parameter, and cellToEdges assumes the origin is in it, as gridDisk guarantees.
- reverseDirectedEdge, in cancelArcPairs. It becomes a function parameter, so its NEVER error path is not modelled.
- cellToEdgeArcs (src/h3lib/lib/cellsToMultiPoly.c:97-148): the ArcSet constructor takes the arcs it would produce (ids and loop order) as input.
- HASH_TABLE_MULTIPLIER: its definition is not part of this model, so it is a parameter of at least 2.
- The polygon search of iterStepPolygonCompact (src/h3lib/lib/polyfill.c:430-593): bounding boxes, containment and the geodesic mode are one function parameter that gives the next accepted cell or an error. validatePolygonFlags becomes the flag error passed to the constructor.
- sscanf in _parseArgsList is a `Scan` function of the value word and the format; as in C, a zero result is a failed parse.
- In the explorer: viewport unprojection (WebMercatorViewport), polygonToCells, getHexagonAreaAvg (the area table is a parameter) and the clock (times are parameters of the throttle's methods). `setTimeout`/`clearTimeout` become the single pending timer.
- The error enumeration of h3api.h is not part of this model's sources; H3Error lists the codes 0..16 in their documented order.

Not modelled:

- Memory allocation: every E_MEMORY_ALLOC path (malloc/calloc failing) and `free`. Dafny allocation does not fail.
- NEVER/ALWAYS branches the source marks unreachable, beyond those the model proves dead with `assert false`.
- checkCellsToMultiPolyOverflow, createSortableLoop and createSortableLoopSet (loop areas are floating point), the cmp_SortableLoop sort, createMultiPolygon and createGlobeMultiPolygon: they compute and order floating-point areas.
- _upAp7/_downAp7 and the other floating-point rounding of coordijk.c (lroundl).
- lower52Bsearch_slow and compactCells, with its hash table.
- cellToBBox, maxPolygonToCellsSize(Experimental), getAverageCellArea and the geometric branches of polygonToCells.
- toCells, getH3Center, split64BitNumber and isBigIntString of utils.ts: they rest on BigInt, JSON.parse and isValidCell of the JavaScript library.
- The H3HexagonLayer built in useHex.ts and the `console` logging.
- printHelp and all output of the applications.

## Findings

| source | as written | input that shows it | evidently intended | confidence | as-written member | corrected member |
|---|---|---|---|---|---|---|
| src/h3lib/lib/baseCells.c:874 | the guard `face > NUM_ICOSA_FACES` lets face 20 through, and the loop then reads `faceIjkBaseCells[20]`, one row past the 20-row table | any base cell with face = 20 | `face >= NUM_ICOSA_FACES`: INVALID_ROTATIONS for face 20 | not executed | H3BaseCells.BaseCellToCCWrot60AsWritten (GuardAdmitsFaceTwenty) | H3BaseCells.BaseCellToCCWrot60 (BaseCellToCCWrot60Meaning) |
| src/h3lib/lib/vertexGraph.c:99-110 | the do-while moves to the tail and then stops without comparing it, so a bucket of two or more nodes never compares its last node with the edge being added | numBuckets = 1: add (1, 2), add (3, 4), then add (3, 4) again; the third call appends a duplicate node and grows size to 3 | every node of the bucket is compared, and an existing edge is returned without growing the graph | not executed | VertexGraph.SearchAsWritten (AsWrittenMissesLast, SearchAsWrittenMeaning) | VertexGraph.VertexGraph.AddVertexNode (FindExisting, FindIn) |
