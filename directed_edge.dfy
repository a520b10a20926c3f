// Directed edges of directedEdge.c.  A directed edge is the index of its
// origin cell with mode 2 (H3_DIRECTEDEDGE_MODE) and the direction of the
// destination in the three reserved bits.  The model states each word
// operation through the fields of the word (H3IndexFields.ViewOf) and proves
// the round trip from a cell to its edges and back.  The IJK direction finder
// (directionForNeighbor), gridDisk and h3NeighborRotations are outside this
// model and enter as parameters.

module H3DirectedEdge {
  import opened H3Api
  import opened H3IndexFields
  import opened H3Hierarchy
  import opened H3IndexValid
  import opened CoordIjk

  /** A direction digit as directionForNeighbor returns it: 0..6, or 7
      for cells that are not neighbors. */
  type Direction = d: int | IsDigit(d)

  // ------------------------------------------------------------ origins

  /** getDirectedEdgeOrigin: E_DIR_EDGE_INVALID unless the word has the
      directed-edge mode; otherwise the same word as a cell, with the
      reserved bits cleared. */
  function GetDirectedEdgeOrigin(edge: H3Index): (r: Result<H3Index>)
    ensures ViewOf(edge).mode != H3_DIRECTEDEDGE_MODE <==> r == Err(E_DIR_EDGE_INVALID)
    ensures r.Ok? ==> ViewOf(r.value) == ViewOf(edge).(mode := H3_CELL_MODE, reserved := 0)
  {
    FieldsOfView(edge);
    if GetMode(edge) != H3_DIRECTEDEDGE_MODE then Err(E_DIR_EDGE_INVALID)
    else
      var c := SetMode(edge, H3_CELL_MODE);
      SetModeView(edge, H3_CELL_MODE);
      SetReservedBitsView(c, 0);
      Ok(SetReservedBits(c, 0))
  }

  /** The word of the directed edge from origin in direction d. */
  function EdgeWord(origin: H3Index, d: int): (e: H3Index)
    requires IsDigit(d)
    ensures ViewOf(e) == ViewOf(origin).(mode := H3_DIRECTEDEDGE_MODE, reserved := d)
  {
    var m := SetMode(origin, H3_DIRECTEDEDGE_MODE);
    SetModeView(origin, H3_DIRECTEDEDGE_MODE);
    SetReservedBitsView(m, d);
    SetReservedBits(m, d)
  }

  /** cellsToDirectedEdge, given the direction directionForNeighbor finds
      from origin to the destination: E_NOT_NEIGHBORS when that is the
      invalid digit, and otherwise the origin with the directed-edge mode
      and the direction in the reserved bits. */
  function CellsToDirectedEdge(origin: H3Index, direction: int): (r: Result<H3Index>)
    requires IsDigit(direction)
    ensures direction == INVALID_DIGIT <==> r == Err(E_NOT_NEIGHBORS)
    ensures r.Ok? ==> ViewOf(r.value) == ViewOf(origin).(mode := H3_DIRECTEDEDGE_MODE, reserved := direction)
  {
    if direction == INVALID_DIGIT then Err(E_NOT_NEIGHBORS)
    else Ok(EdgeWord(origin, direction))
  }

  /** The origin of the edge from a cell whose reserved bits are clear (as
      they are for every valid cell) is that cell again, and the direction
      stays readable in the reserved bits. */
  lemma OriginRoundTrip(origin: H3Index, d: int)
    requires IsDigit(d) && ViewOf(origin).mode == H3_CELL_MODE && ViewOf(origin).reserved == 0
    ensures GetDirectedEdgeOrigin(EdgeWord(origin, d)) == Ok(origin)
    ensures GetReservedBits(EdgeWord(origin, d)) == d
  {
    var e := EdgeWord(origin, d);
    FieldsOfView(e);
    ViewInjective(GetDirectedEdgeOrigin(e).value, origin);
  }

  /** The edge word found for a real direction gives back its origin. */
  lemma CellsToDirectedEdgeRoundTrip(origin: H3Index, direction: int)
    requires IsValidCell(origin) && IsDigit(direction) && direction != INVALID_DIGIT
    ensures CellsToDirectedEdge(origin, direction).Ok?
    ensures GetDirectedEdgeOrigin(CellsToDirectedEdge(origin, direction).value) == Ok(origin)
  {
    IsValidCellSpec(origin);
    OriginRoundTrip(origin, direction);
  }

  // --------------------------------------------------------- validity

  /** isPentagon read off the fields of a word. */
  predicate PentagonView(v: View)
    requires WellFormedView(v)
  {
    IsBaseCellPentagon(v.baseCell) && LeadingNonZeroFrom(v.digits, 0, v.res) == CENTER_DIGIT
  }

  lemma PentagonOfView(h: H3Index)
    ensures IsPentagon(h) <==> PentagonView(ViewOf(h))
  {
    FieldsOfView(h);
  }

  /** isValidDirectedEdge: a direction 1..6 in the reserved bits, the
      directed-edge mode, not the deleted K direction out of a pentagon,
      and a valid cell as origin. */
  predicate IsValidDirectedEdge(edge: H3Index)
  {
    var dir := GetReservedBits(edge);
    if dir <= CENTER_DIGIT || dir >= NUM_DIGITS then false
    else match GetDirectedEdgeOrigin(edge)
      case Err(_) => false
      case Ok(origin) => if IsPentagon(origin) && dir == K_AXES_DIGIT then false else IsValidCell(origin)
  }

  /** A directed edge is valid exactly when its fields say so. */
  lemma IsValidDirectedEdgeSpec(edge: H3Index)
    ensures IsValidDirectedEdge(edge) <==>
      var v := ViewOf(edge);
      var o := v.(mode := H3_CELL_MODE, reserved := 0);
      v.mode == H3_DIRECTEDEDGE_MODE && 1 <= v.reserved <= 6
      && !(PentagonView(o) && v.reserved == K_AXES_DIGIT)
      && IsValidCellView(o)
  {
    FieldsOfView(edge);
    var r := GetDirectedEdgeOrigin(edge);
    if r.Ok? {
      PentagonOfView(r.value);
      IsValidCellSpec(r.value);
    }
  }

  /** Every real direction out of a valid cell, except K out of a
      pentagon, makes a valid directed edge, and no other direction does. */
  lemma EdgeWordValid(origin: H3Index, d: int)
    requires IsValidCell(origin) && IsDigit(d)
    ensures IsValidDirectedEdge(EdgeWord(origin, d)) <==> 1 <= d <= 6 && !(IsPentagon(origin) && d == K_AXES_DIGIT)
  {
    var e := EdgeWord(origin, d);
    IsValidCellSpec(origin);
    IsValidDirectedEdgeSpec(e);
    PentagonOfView(origin);
    assert ViewOf(e).(mode := H3_CELL_MODE, reserved := 0) == ViewOf(origin);
  }

  // ------------------------------------------------------- all six edges

  /** What originToDirectedEdges writes in slot i: H3_NULL for the K
      direction out of a pentagon, otherwise the edge in direction i + 1. */
  function EdgeSlot(origin: H3Index, isPent: bool, i: int): H3Index
    requires 0 <= i < 6
  {
    if isPent && i == 0 then H3_NULL else EdgeWord(origin, i + 1)
  }

  /** originToDirectedEdges: slot i holds the edge whose reserved bits are
      i + 1, except that slot 0 is H3_NULL for a pentagon. */
  method OriginToDirectedEdges(origin: H3Index, edges: array<H3Index>) returns (e: H3Error)
    requires edges.Length >= 6
    modifies edges
    ensures e == E_SUCCESS
    ensures IsPentagon(origin) ==> edges[0] == H3_NULL
    ensures forall i | 0 <= i < 6 && !(IsPentagon(origin) && i == 0) ::
      ViewOf(edges[i]) == ViewOf(origin).(mode := H3_DIRECTEDEDGE_MODE, reserved := i + 1)
    ensures forall i | 6 <= i < edges.Length :: edges[i] == old(edges[i])
  {
    var isPent := IsPentagon(origin);
    for i := 0 to 6
      invariant forall t | 0 <= t < i :: edges[t] == EdgeSlot(origin, isPent, t)
      invariant forall t | 6 <= t < edges.Length :: edges[t] == old(edges[t])
    {
      if isPent && i == 0 {
        edges[i] := H3_NULL;
      } else {
        edges[i] := EdgeWord(origin, i + 1);
      }
    }
    forall t | 0 <= t < 6 && !(isPent && t == 0)
      ensures ViewOf(edges[t]) == ViewOf(origin).(mode := H3_DIRECTEDEDGE_MODE, reserved := t + 1)
    {
      assert edges[t] == EdgeWord(origin, t + 1);
    }
    e := E_SUCCESS;
  }

  /** Every edge originToDirectedEdges writes for a valid cell is valid
      and has that cell as origin. */
  lemma EdgeSlotsOfValidCell(origin: H3Index, i: int)
    requires IsValidCell(origin) && 0 <= i < 6 && !(IsPentagon(origin) && i == 0)
    ensures IsValidDirectedEdge(EdgeWord(origin, i + 1))
    ensures GetDirectedEdgeOrigin(EdgeWord(origin, i + 1)) == Ok(origin)
  {
    EdgeWordValid(origin, i + 1);
    IsValidCellSpec(origin);
    OriginRoundTrip(origin, i + 1);
  }

  // ------------------------------------------------------ neighbor test

  /** The clockwise neighbor table of areNeighborCells. */
  function NeighborSetClockwise(d: int): int
    requires 0 <= d < NUM_DIGITS
  {
    [CENTER_DIGIT, JK_AXES_DIGIT, IJ_AXES_DIGIT, J_AXES_DIGIT, IK_AXES_DIGIT, K_AXES_DIGIT, I_AXES_DIGIT][d]
  }

  /** The counter-clockwise neighbor table of areNeighborCells. */
  function NeighborSetCounterclockwise(d: int): int
    requires 0 <= d < NUM_DIGITS
  {
    [CENTER_DIGIT, IK_AXES_DIGIT, JK_AXES_DIGIT, K_AXES_DIGIT, IJ_AXES_DIGIT, I_AXES_DIGIT, J_AXES_DIGIT][d]
  }

  /** The two tables hold the digit turned by sixty degrees one way and
      the other: the two siblings next to d around the center sibling. */
  lemma NeighborSetsAreRotations(d: int)
    requires 0 <= d < NUM_DIGITS
    ensures NeighborSetClockwise(d) == Rotate60cwDigit(d)
    ensures NeighborSetCounterclockwise(d) == Rotate60ccwDigit(d)
  {
  }

  /** Two cells of the same resolution r >= 2 have the same parent at
      resolution r - 1. */
  predicate SameParent(v: View, w: View)
    requires WellFormedView(v) && WellFormedView(w)
  {
    2 <= v.res && ParentView(v, v.res - 1) == ParentView(w, v.res - 1)
  }

  /** Siblings that touch inside the seven children of their parent: one
      of them is the center child, or their digits are one sixty-degree
      turn apart. */
  predicate AdjacentSiblings(od: int, dd: int)
  {
    od == CENTER_DIGIT || dd == CENTER_DIGIT
    || (0 <= od < NUM_DIGITS && (dd == Rotate60cwDigit(od) || dd == Rotate60ccwDigit(od)))
  }

  /** The sibling digits for which the shortcut refuses the pair as
      invalid: a digit 7 in the origin, or the deleted K digit under a
      pentagon parent. */
  predicate BadSiblings(v: View, od: int, dd: int)
    requires WellFormedView(v) && 2 <= v.res
  {
    od != CENTER_DIGIT && dd != CENTER_DIGIT
    && (od >= INVALID_DIGIT
        || ((od == K_AXES_DIGIT || dd == K_AXES_DIGIT) && PentagonView(ParentView(v, v.res - 1))))
  }

  /** The shortcut decision for two siblings with digits od and dd. */
  method SiblingTest(originParent: H3Index, od: int, dd: int) returns (r: Option<Result<bool>>)
    requires IsDigit(od) && IsDigit(dd)
    ensures r == Some(Ok(true)) ==> AdjacentSiblings(od, dd)
    ensures r.Some? ==> r.value == Ok(true) || r.value == Err(E_CELL_INVALID)
    ensures r == Some(Err(E_CELL_INVALID)) <==>
      od != CENTER_DIGIT && dd != CENTER_DIGIT
      && (od >= INVALID_DIGIT || ((od == K_AXES_DIGIT || dd == K_AXES_DIGIT) && IsPentagon(originParent)))
    ensures r.None? ==> !AdjacentSiblings(od, dd)
  {
    if od == CENTER_DIGIT || dd == CENTER_DIGIT {
      return Some(Ok(true));
    }
    if od >= INVALID_DIGIT {
      return Some(Err(E_CELL_INVALID));
    }
    if (od == K_AXES_DIGIT || dd == K_AXES_DIGIT) && IsPentagon(originParent) {
      return Some(Err(E_CELL_INVALID));
    }
    NeighborSetsAreRotations(od);
    if NeighborSetClockwise(od) == dd || NeighborSetCounterclockwise(od) == dd {
      return Some(Ok(true));
    }
    return None;
  }

  /** The verdict of areNeighborCells on two distinct cells of the same
      resolution: true only for cells in the ring or touching siblings,
      false only for cells outside the ring, E_CELL_INVALID only for bad
      sibling digits, and the ring alone deciding cells that are not
      siblings. */
  predicate SameResVerdict(r: Result<bool>, v: View, w: View, destination: H3Index, ring: seq<H3Index>)
    requires WellFormedView(v) && WellFormedView(w) && 1 <= v.res
  {
    (r == Ok(true) ==>
       destination in ring || (SameParent(v, w) && AdjacentSiblings(v.digits[v.res - 1], w.digits[v.res - 1])))
    && (r == Ok(false) ==> destination !in ring)
    && (r.Err? ==>
          r == Err(E_CELL_INVALID) && SameParent(v, w) && BadSiblings(v, v.digits[v.res - 1], w.digits[v.res - 1]))
    && (!SameParent(v, w) ==> r == Ok(destination in ring))
  }

  /** areNeighborCells, given ring, the seven cells gridDisk(origin, 1)
      writes.  E_CELL_INVALID for a word that is not a cell, false for a
      cell and itself, E_RES_MISMATCH for different resolutions; then
      siblings under the same parent are decided from their last digits
      (true when they touch, E_CELL_INVALID for a digit 7 or the deleted
      K digit under a pentagon), and every other pair by looking for the
      destination in the ring. */
  method AreNeighborCells(origin: H3Index, destination: H3Index, ring: seq<H3Index>) returns (r: Result<bool>)
    requires |ring| == 7
    ensures ViewOf(origin).mode != H3_CELL_MODE || ViewOf(destination).mode != H3_CELL_MODE ==> r == Err(E_CELL_INVALID)
    ensures ViewOf(origin).mode == H3_CELL_MODE && ViewOf(destination).mode == H3_CELL_MODE ==>
      (origin == destination ==> r == Ok(false))
      && (origin != destination && ViewOf(origin).res != ViewOf(destination).res ==> r == Err(E_RES_MISMATCH))
      && (origin != destination && ViewOf(origin).res == ViewOf(destination).res && ViewOf(origin).res == 0 ==>
            r == Ok(destination in ring))
      && (origin != destination && ViewOf(origin).res == ViewOf(destination).res && ViewOf(origin).res >= 1 ==>
            SameResVerdict(r, ViewOf(origin), ViewOf(destination), destination, ring))
  {
    FieldsOfView(origin);
    FieldsOfView(destination);
    if GetMode(origin) != H3_CELL_MODE || GetMode(destination) != H3_CELL_MODE {
      return Err(E_CELL_INVALID);
    }
    if origin == destination {
      return Ok(false);
    }
    if GetResolution(origin) != GetResolution(destination) {
      return Err(E_RES_MISMATCH);
    }
    var parentRes := GetResolution(origin) - 1;
    if parentRes > 0 {
      r := SiblingNeighbors(origin, destination, ring);
    } else {
      r := RingSearch(destination, ring);
    }
  }

  /** The sibling shortcut of areNeighborCells for two distinct cells of
      the same resolution r >= 2, falling back to the ring. */
  method SiblingNeighbors(origin: H3Index, destination: H3Index, ring: seq<H3Index>) returns (r: Result<bool>)
    requires ViewOf(origin).res == ViewOf(destination).res >= 2
    ensures SameResVerdict(r, ViewOf(origin), ViewOf(destination), destination, ring)
  {
    FieldsOfView(origin);
    FieldsOfView(destination);
    var parentRes := GetResolution(origin) - 1;
    var op := CellToParent(origin, parentRes);
    var dp := CellToParent(destination, parentRes);
    if op.value == dp.value {
      var od := GetIndexDigit(origin, parentRes + 1);
      var dd := GetIndexDigit(destination, parentRes + 1);
      GetIndexDigitView(origin, parentRes + 1);
      GetIndexDigitView(destination, parentRes + 1);
      PentagonOfView(op.value);
      var s := SiblingTest(op.value, od, dd);
      if s.Some? {
        return s.value;
      }
    } else if ViewOf(op.value) == ViewOf(dp.value) {
      ViewInjective(op.value, dp.value);
    }
    r := RingSearch(destination, ring);
  }

  /** The search of the gridDisk ring for the destination. */
  method RingSearch(destination: H3Index, ring: seq<H3Index>) returns (r: Result<bool>)
    ensures r == Ok(destination in ring)
  {
    for i := 0 to |ring|
      invariant destination !in ring[..i]
    {
      if ring[i] == destination {
        return Ok(true);
      }
    }
    assert ring[..|ring|] == ring;
    return Ok(false);
  }

  // ---------------------------------------------------- destinations

  /** getDirectedEdgeDestination, given neighbor, the h3NeighborRotations
      step from a cell in a direction: the origin's error for a word that
      is not a directed edge, and otherwise the neighbor of the origin in
      the direction of the reserved bits. */
  function GetDirectedEdgeDestination(edge: H3Index, neighbor: (H3Index, int) -> Result<H3Index>): (r: Result<H3Index>)
    ensures ViewOf(edge).mode != H3_DIRECTEDEDGE_MODE ==> r == Err(E_DIR_EDGE_INVALID)
    ensures ViewOf(edge).mode == H3_DIRECTEDEDGE_MODE ==>
      r == neighbor(GetDirectedEdgeOrigin(edge).value, ViewOf(edge).reserved)
  {
    FieldsOfView(edge);
    var direction := GetReservedBits(edge);
    match GetDirectedEdgeOrigin(edge)
      case Err(e) => Err(e)
      case Ok(origin) => neighbor(origin, direction)
  }

  /** directedEdgeToCells: the origin and the destination, or the error of
      whichever of the two lookups fails first. */
  function DirectedEdgeToCells(edge: H3Index, neighbor: (H3Index, int) -> Result<H3Index>): (r: Result<(H3Index, H3Index)>)
    ensures ViewOf(edge).mode != H3_DIRECTEDEDGE_MODE ==> r == Err(E_DIR_EDGE_INVALID)
    ensures r.Ok? ==> Ok(r.value.0) == GetDirectedEdgeOrigin(edge) && Ok(r.value.1) == GetDirectedEdgeDestination(edge, neighbor)
    ensures ViewOf(edge).mode == H3_DIRECTEDEDGE_MODE && GetDirectedEdgeDestination(edge, neighbor).Err? ==>
      r == Err(GetDirectedEdgeDestination(edge, neighbor).error)
  {
    match GetDirectedEdgeOrigin(edge)
      case Err(e) => Err(e)
      case Ok(origin) =>
        match GetDirectedEdgeDestination(edge, neighbor)
          case Err(e) => Err(e)
          case Ok(dest) => Ok((origin, dest))
  }
}
