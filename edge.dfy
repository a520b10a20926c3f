// Undirected edges of edge.c.  An undirected edge is the directed edge from
// the smaller of its two cells (in the unsigned order of the index words) to
// the larger, with mode 3 (H3_EDGE_MODE) in place of mode 2.  The direction
// finder (directionForNeighbor), the neighbor step that yields the
// destination of a directed edge (h3NeighborRotations) and gridDisk enter as
// parameters.

module H3Edge {
  import opened H3Api
  import opened H3IndexFields
  import opened H3Hierarchy
  import opened H3IndexValid
  import opened H3DirectedEdge

  /** wrapDirectedEdgeError: E_DIR_EDGE_INVALID becomes E_UNDIR_EDGE_INVALID,
      every other code (success included) passes through. */
  function WrapDirectedEdgeError(err: H3Error): (r: H3Error)
    ensures r != E_DIR_EDGE_INVALID
    ensures err != E_DIR_EDGE_INVALID ==> r == err
    ensures r == E_UNDIR_EDGE_INVALID <==> err == E_DIR_EDGE_INVALID || err == E_UNDIR_EDGE_INVALID
  {
    if err == E_DIR_EDGE_INVALID then E_UNDIR_EDGE_INVALID else err
  }

  /** Wrapping twice is wrapping once. */
  lemma WrapIdempotent(err: H3Error)
    ensures WrapDirectedEdgeError(WrapDirectedEdgeError(err)) == WrapDirectedEdgeError(err)
  {
  }

  /** edgeAsDirectedEdge: an undirected edge read as the directed edge from
      its owning cell; any other word is returned unchanged, so that it does
      not turn into a valid-looking directed edge. */
  function EdgeAsDirectedEdge(edge: H3Index): (r: H3Index)
    ensures ViewOf(edge).mode == H3_EDGE_MODE ==> ViewOf(r) == ViewOf(edge).(mode := H3_DIRECTEDEDGE_MODE)
    ensures ViewOf(edge).mode != H3_EDGE_MODE ==> r == edge
  {
    FieldsOfView(edge);
    SetModeView(edge, H3_DIRECTEDEDGE_MODE);
    if GetMode(edge) == H3_EDGE_MODE then SetMode(edge, H3_DIRECTEDEDGE_MODE) else edge
  }

  /** The unsigned comparison of two index words, on their values. */
  predicate Below(a: H3Index, b: H3Index)
  {
    a as int < b as int
  }

  /** The smaller and the larger of two words. */
  function Lo(a: H3Index, b: H3Index): H3Index { if Below(a, b) then a else b }
  function Hi(a: H3Index, b: H3Index): H3Index { if Below(a, b) then b else a }

  /** Two words with the same value are the same word. */
  lemma ValueInjective(a: H3Index, b: H3Index)
    requires a as int == b as int
    ensures a == b
  {
    assert (a as int) as bv64 == a;
    assert (b as int) as bv64 == b;
  }

  /** Lo and Hi do not depend on the order of their arguments, are the two
      words, and are ordered. */
  lemma LoHi(a: H3Index, b: H3Index)
    ensures Lo(a, b) == Lo(b, a) && Hi(a, b) == Hi(b, a)
    ensures !Below(Hi(a, b), Lo(a, b))
    ensures {Lo(a, b), Hi(a, b)} == {a, b}
  {
    if !Below(a, b) && !Below(b, a) {
      ValueInjective(a, b);
    }
  }

  /** cellsToEdge: the directed edge from the smaller cell to the larger,
      with the undirected-edge mode; E_NOT_NEIGHBORS when the direction
      finder finds no direction between them. */
  function CellsToEdge(cell1: H3Index, cell2: H3Index, dirFor: (H3Index, H3Index) -> Direction): (r: Result<H3Index>)
    ensures r.Err? ==> r.error == E_NOT_NEIGHBORS
  {
    var cell1IsOrigin := Below(cell1, cell2);
    var origin := if cell1IsOrigin then cell1 else cell2;
    var dest := if cell1IsOrigin then cell2 else cell1;
    match CellsToDirectedEdge(origin, dirFor(origin, dest))
      case Err(e) => Err(e)
      case Ok(out) => Ok(SetMode(out, H3_EDGE_MODE))
  }

  /** The edge of two cells is the smaller cell with the undirected-edge
      mode and the direction from it to the larger one in the reserved bits;
      there is none exactly when the direction finder finds no direction. */
  lemma CellsToEdgeSpec(cell1: H3Index, cell2: H3Index, dirFor: (H3Index, H3Index) -> Direction)
    ensures dirFor(Lo(cell1, cell2), Hi(cell1, cell2)) == INVALID_DIGIT <==> CellsToEdge(cell1, cell2, dirFor) == Err(E_NOT_NEIGHBORS)
    ensures CellsToEdge(cell1, cell2, dirFor).Ok? ==>
      ViewOf(CellsToEdge(cell1, cell2, dirFor).value)
        == ViewOf(Lo(cell1, cell2)).(mode := H3_EDGE_MODE, reserved := dirFor(Lo(cell1, cell2), Hi(cell1, cell2)))
  {
    var r := CellsToDirectedEdge(Lo(cell1, cell2), dirFor(Lo(cell1, cell2), Hi(cell1, cell2)));
    if r.Ok? {
      SetModeView(r.value, H3_EDGE_MODE);
    }
  }

  /** The undirected edge of two cells does not depend on their order. */
  lemma CellsToEdgeSymmetric(cell1: H3Index, cell2: H3Index, dirFor: (H3Index, H3Index) -> Direction)
    ensures CellsToEdge(cell1, cell2, dirFor) == CellsToEdge(cell2, cell1, dirFor)
  {
    LoHi(cell1, cell2);
    CellsToEdgeSpec(cell1, cell2, dirFor);
    CellsToEdgeSpec(cell2, cell1, dirFor);
    var r1, r2 := CellsToEdge(cell1, cell2, dirFor), CellsToEdge(cell2, cell1, dirFor);
    if r1.Ok? {
      ViewInjective(r1.value, r2.value);
    }
  }

  /** edgeToCells: the owning cell and the other cell of the edge.  A
      directed edge is accepted too, since edgeAsDirectedEdge leaves it as
      it is, and the errors say "undirected edge" rather than "directed
      edge". */
  function EdgeToCells(edge: H3Index, neighbor: (H3Index, int) -> Result<H3Index>): (r: Result<(H3Index, H3Index)>)
    ensures ViewOf(edge).mode != H3_EDGE_MODE && ViewOf(edge).mode != H3_DIRECTEDEDGE_MODE ==> r == Err(E_UNDIR_EDGE_INVALID)
    ensures r.Err? ==> r.error != E_DIR_EDGE_INVALID
    ensures r.Ok? ==>
      ViewOf(r.value.0) == ViewOf(edge).(mode := H3_CELL_MODE, reserved := 0)
      && neighbor(r.value.0, ViewOf(edge).reserved) == Ok(r.value.1)
  {
    var directedEdge := EdgeAsDirectedEdge(edge);
    match DirectedEdgeToCells(directedEdge, neighbor)
      case Err(e) => Err(WrapDirectedEdgeError(e))
      case Ok(cells) => Ok(cells)
  }

  /** isValidEdge: the undirected-edge mode, a direction 1..6, cells the
      edge resolves to, not the deleted K direction out of a pentagon, the
      owning cell not larger than the other one, and both cells valid. */
  predicate IsValidEdge(edge: H3Index, neighbor: (H3Index, int) -> Result<H3Index>)
  {
    if GetMode(edge) != H3_EDGE_MODE then false
    else
      var neighborDirection := GetReservedBits(edge);
      if neighborDirection <= CENTER_DIGIT || neighborDirection >= NUM_DIGITS then false
      else match EdgeToCells(edge, neighbor)
        case Err(_) => false
        case Ok(cells) =>
          if IsPentagon(cells.0) && neighborDirection == K_AXES_DIGIT then false
          else if Below(cells.1, cells.0) then false
          else IsValidCell(cells.0) && IsValidCell(cells.1)
  }

  /** A valid edge has the undirected-edge mode, a real direction, and two
      valid cells in order, the first being the edge word as a cell. */
  lemma ValidEdgeMeaning(edge: H3Index, neighbor: (H3Index, int) -> Result<H3Index>)
    requires IsValidEdge(edge, neighbor)
    ensures ViewOf(edge).mode == H3_EDGE_MODE && 1 <= ViewOf(edge).reserved <= 6
    ensures EdgeToCells(edge, neighbor).Ok?
    ensures var (c0, c1) := EdgeToCells(edge, neighbor).value;
      !Below(c1, c0) && IsValidCell(c0) && IsValidCell(c1)
      && ViewOf(c0) == ViewOf(edge).(mode := H3_CELL_MODE, reserved := 0)
      && !(IsPentagon(c0) && ViewOf(edge).reserved == K_AXES_DIGIT)
  {
    FieldsOfView(edge);
  }

  /** The edge of two valid cells, when the direction finder and the
      neighbor step agree (the step from the smaller cell in the direction
      found reaches the larger one), resolves back to the two cells, owning
      cell first. */
  lemma CellsToEdgeRoundTrip(a: H3Index, b: H3Index, dirFor: (H3Index, H3Index) -> Direction,
                             neighbor: (H3Index, int) -> Result<H3Index>)
    requires IsValidCell(a) && IsValidCell(b)
    requires dirFor(Lo(a, b), Hi(a, b)) != INVALID_DIGIT
    requires neighbor(Lo(a, b), dirFor(Lo(a, b), Hi(a, b))) == Ok(Hi(a, b))
    ensures CellsToEdge(a, b, dirFor).Ok?
    ensures EdgeToCells(CellsToEdge(a, b, dirFor).value, neighbor) == Ok((Lo(a, b), Hi(a, b)))
  {
    var lo, hi := Lo(a, b), Hi(a, b);
    var d := dirFor(lo, hi);
    CellsToEdgeSpec(a, b, dirFor);
    var e := CellsToEdge(a, b, dirFor).value;
    var de := EdgeAsDirectedEdge(e);
    ViewInjective(de, EdgeWord(lo, d));
    IsValidCellSpec(lo);
    OriginRoundTrip(lo, d);
    FieldsOfView(de);
  }

  /** isValidEdge on an edge whose mode, direction and cells are known. */
  lemma ValidEdgeOfParts(e: H3Index, lo: H3Index, hi: H3Index, d: int, neighbor: (H3Index, int) -> Result<H3Index>)
    requires GetMode(e) == H3_EDGE_MODE && GetReservedBits(e) == d && 1 <= d <= 6
    requires EdgeToCells(e, neighbor) == Ok((lo, hi)) && !Below(hi, lo)
    requires IsValidCell(lo) && IsValidCell(hi)
    ensures IsValidEdge(e, neighbor) <==> !(IsPentagon(lo) && d == K_AXES_DIGIT)
  {
  }

  /** Such an edge is valid unless it is the deleted K direction out of a
      pentagon. */
  lemma CellsToEdgeValid(a: H3Index, b: H3Index, dirFor: (H3Index, H3Index) -> Direction,
                         neighbor: (H3Index, int) -> Result<H3Index>)
    requires IsValidCell(a) && IsValidCell(b)
    requires 1 <= dirFor(Lo(a, b), Hi(a, b)) <= 6
    requires neighbor(Lo(a, b), dirFor(Lo(a, b), Hi(a, b))) == Ok(Hi(a, b))
    ensures CellsToEdge(a, b, dirFor).Ok?
    ensures IsValidEdge(CellsToEdge(a, b, dirFor).value, neighbor)
      <==> !(IsPentagon(Lo(a, b)) && dirFor(Lo(a, b), Hi(a, b)) == K_AXES_DIGIT)
  {
    CellsToEdgeRoundTrip(a, b, dirFor, neighbor);
    CellsToEdgeSpec(a, b, dirFor);
    LoHi(a, b);
    var e := CellsToEdge(a, b, dirFor).value;
    FieldsOfView(e);
    ValidEdgeOfParts(e, Lo(a, b), Hi(a, b), dirFor(Lo(a, b), Hi(a, b)), neighbor);
  }

  // ---------------------------------------------------------- cellToEdges

  /** The entries of ring[..n] other than origin and H3_NULL, in order: the
      neighbors cellToEdges makes edges to.  When the ring holds the origin
      there is at least one entry fewer. */
  function Neighbors(ring: seq<H3Index>, origin: H3Index, n: int): (s: seq<H3Index>)
    requires 0 <= n <= |ring|
    ensures |s| <= n
    ensures origin in ring[..n] ==> |s| <= n - 1
    ensures forall k | 0 <= k < |s| :: s[k] != origin && s[k] != H3_NULL && s[k] in ring[..n]
  {
    if n == 0 then []
    else
      var s := Neighbors(ring, origin, n - 1);
      assert ring[..n] == ring[..n - 1] + [ring[n - 1]];
      if ring[n - 1] != origin && ring[n - 1] != H3_NULL then s + [ring[n - 1]] else s
  }

  /** The neighbors of a shorter prefix come first. */
  lemma {:induction false} NeighborsPrefix(ring: seq<H3Index>, origin: H3Index, n: int, m: int)
    requires 0 <= n <= m <= |ring|
    ensures Neighbors(ring, origin, n) <= Neighbors(ring, origin, m)
    decreases m - n
  {
    if n < m {
      NeighborsPrefix(ring, origin, n, m - 1);
    }
  }

  /** es starts with the edges from origin to each cell of ns, all of them
      found. */
  ghost predicate EdgesFor(es: seq<H3Index>, ns: seq<H3Index>, origin: H3Index, dirFor: (H3Index, H3Index) -> Direction)
  {
    |ns| <= |es|
    && forall k | 0 <= k < |ns| ::
         CellsToEdge(origin, ns[k], dirFor).Ok? && es[k] == CellsToEdge(origin, ns[k], dirFor).value
  }

  /** Writing the edge to one more neighbor right after those written. */
  lemma EdgesForSnoc(es: seq<H3Index>, ns: seq<H3Index>, x: H3Index, origin: H3Index, dirFor: (H3Index, H3Index) -> Direction)
    requires EdgesFor(es, ns, origin, dirFor) && |ns| < |es| && CellsToEdge(origin, x, dirFor).Ok?
    ensures EdgesFor(es[|ns| := CellsToEdge(origin, x, dirFor).value], ns + [x], origin, dirFor)
  {
  }

  /** The state of cellToEdges after i entries of the ring: an edge for
      each neighbor among them, and the slots after those as they were. */
  ghost predicate EdgeLoop(es: seq<H3Index>, s0: seq<H3Index>, ring: seq<H3Index>, origin: H3Index,
                           dirFor: (H3Index, H3Index) -> Direction, i: int, idx: int)
  {
    0 <= i <= |ring| && |es| == |s0| && idx == |Neighbors(ring, origin, i)| <= 6
    && EdgesFor(es, Neighbors(ring, origin, i), origin, dirFor)
    && forall k | idx <= k < |es| :: es[k] == s0[k]
  }

  /** One entry of the ring: the edge to it when it is a neighbor, or the
      failure that makes cellToEdges stop. */
  method EdgeStep(origin: H3Index, ring: seq<H3Index>, dirFor: (H3Index, H3Index) -> Direction,
                  edges: array<H3Index>, i: int, idx: int, ghost s0: seq<H3Index>) returns (ok: bool, i': int, idx': int)
    requires |ring| == 7 && origin in ring && 0 <= i < 7 && edges.Length >= 6
    requires EdgeLoop(edges[..], s0, ring, origin, dirFor, i, idx)
    modifies edges
    ensures i' == i + 1
    ensures ok ==> EdgeLoop(edges[..], s0, ring, origin, dirFor, i', idx')
    ensures !ok ==> exists k | 0 <= k < |Neighbors(ring, origin, 7)| :: CellsToEdge(origin, Neighbors(ring, origin, 7)[k], dirFor).Err?
  {
    ghost var ns := Neighbors(ring, origin, i);
    i' := i + 1;
    if ring[i] != origin && ring[i] != H3_NULL {
      assert i' == 7 ==> ring[..i'] == ring;
      var r := CellsToEdge(origin, ring[i], dirFor);
      if r.Err? {
        NeighborsPrefix(ring, origin, i', 7);
        assert Neighbors(ring, origin, 7)[idx] == ring[i];
        return false, i', idx;
      }
      EdgesForSnoc(edges[..], ns, ring[i], origin, dirFor);
      edges[idx] := r.value;
      assert Neighbors(ring, origin, i') == ns + [ring[i]];
      return true, i', idx + 1;
    } else {
      assert Neighbors(ring, origin, i') == ns;
      return true, i', idx;
    }
  }

  /** cellToEdges, given the error and the seven cells of gridDisk(origin,
      1): the disk's error if it failed; otherwise the edges to every
      neighbor in the ring, in ring order, or E_NOT_NEIGHBORS as soon as one
      of them has no direction. */
  method CellToEdges(origin: H3Index, diskErr: H3Error, ring: seq<H3Index>,
                     dirFor: (H3Index, H3Index) -> Direction, edges: array<H3Index>) returns (e: H3Error)
    requires diskErr == E_SUCCESS ==> |ring| == 7 && origin in ring
    requires edges.Length >= 6
    modifies edges
    ensures diskErr != E_SUCCESS ==> e == diskErr
    ensures diskErr == E_SUCCESS ==>
      var ns := Neighbors(ring, origin, |ring|);
      (e == E_SUCCESS <==> forall k | 0 <= k < |ns| :: CellsToEdge(origin, ns[k], dirFor).Ok?)
      && (e != E_SUCCESS ==> e == E_NOT_NEIGHBORS)
      && (e == E_SUCCESS ==> forall k | 0 <= k < |ns| :: edges[k] == CellsToEdge(origin, ns[k], dirFor).value)
      && (e == E_SUCCESS ==> forall k | |ns| <= k < edges.Length :: edges[k] == old(edges[k]))
  {
    if diskErr != E_SUCCESS {
      return diskErr;
    }
    ghost var s0 := edges[..];
    var edgesIndex := 0;
    var i := 0;
    while i < 7
      invariant EdgeLoop(edges[..], s0, ring, origin, dirFor, i, edgesIndex)
    {
      var ok;
      ok, i, edgesIndex := EdgeStep(origin, ring, dirFor, edges, i, edgesIndex, s0);
      if !ok {
        return E_NOT_NEIGHBORS;
      }
    }
    assert ring[..7] == ring;
    e := E_SUCCESS;
  }
}
