// The linked geometry of linkedGeo.c: a chain of polygons, each holding a
// chain of loops through first / last pointers, each loop a chain of
// coordinates.  The pointers are fields updated in place; a chain is
// described by the ghost sequence of the nodes it links, in order.

module LinkedGeo {
  import opened H3Api

  /** A coordinate in radians. */
  datatype LatLng = LatLng(lat: real, lng: real)

  class LinkedLatLng {
    var vertex: LatLng
    var next: LinkedLatLng?

    constructor (vertex: LatLng)
      ensures this.vertex == vertex && next == null
    {
      this.vertex := vertex;
      next := null;
    }
  }

  class LinkedGeoLoop {
    var first: LinkedLatLng?
    var last: LinkedLatLng?
    var next: LinkedGeoLoop?

    /** A zeroed loop, as calloc leaves it. */
    constructor ()
      ensures first == null && last == null && next == null
    {
      first, last, next := null, null, null;
    }
  }

  class LinkedGeoPolygon {
    var first: LinkedGeoLoop?
    var last: LinkedGeoLoop?
    var next: LinkedGeoPolygon?

    /** A zeroed polygon, as calloc leaves it. */
    constructor ()
      ensures first == null && last == null && next == null
    {
      first, last, next := null, null, null;
    }
  }

  // ------------------------------------------------------------- chains

  /** Following next from head visits exactly cs, in order, and ends. */
  ghost predicate CoordChain(head: LinkedLatLng?, cs: seq<LinkedLatLng>)
    reads set i | 0 <= i < |cs| :: cs[i]
  {
    (if cs == [] then head == null else head == cs[0] && cs[|cs| - 1].next == null)
    && forall i | 0 <= i < |cs| - 1 :: cs[i].next == cs[i + 1]
  }

  ghost predicate LoopChain(head: LinkedGeoLoop?, ls: seq<LinkedGeoLoop>)
    reads set i | 0 <= i < |ls| :: ls[i]
  {
    (if ls == [] then head == null else head == ls[0] && ls[|ls| - 1].next == null)
    && forall i | 0 <= i < |ls| - 1 :: ls[i].next == ls[i + 1]
  }

  ghost predicate PolygonChain(head: LinkedGeoPolygon?, ps: seq<LinkedGeoPolygon>)
    reads set i | 0 <= i < |ps| :: ps[i]
  {
    (if ps == [] then head == null else head == ps[0] && ps[|ps| - 1].next == null)
    && forall i | 0 <= i < |ps| - 1 :: ps[i].next == ps[i + 1]
  }

  /** A loop whose first .. last pointers span the coordinates cs. */
  ghost predicate LoopHolds(loop: LinkedGeoLoop, cs: seq<LinkedLatLng>)
    reads loop, set i | 0 <= i < |cs| :: cs[i]
  {
    CoordChain(loop.first, cs) && loop.last == if cs == [] then null else cs[|cs| - 1]
  }

  /** A polygon whose first .. last pointers span the loops ls. */
  ghost predicate PolygonHolds(polygon: LinkedGeoPolygon, ls: seq<LinkedGeoLoop>)
    reads polygon, set i | 0 <= i < |ls| :: ls[i]
  {
    LoopChain(polygon.first, ls) && polygon.last == if ls == [] then null else ls[|ls| - 1]
  }

  // ----------------------------------------------------------- building

  /** addNewLinkedPolygon: a new zeroed polygon linked after polygon, whose
      next must be unset.  Appended to the chain polygon ends, the new
      polygon extends it by one. */
  method AddNewLinkedPolygon(polygon: LinkedGeoPolygon, ghost ps: seq<LinkedGeoPolygon>) returns (next: LinkedGeoPolygon)
    requires polygon.next == null
    modifies polygon
    ensures fresh(next) && next.first == null && next.last == null && next.next == null
    ensures polygon.next == next && polygon.first == old(polygon.first) && polygon.last == old(polygon.last)
    ensures old(PolygonChain(if ps == [] then null else ps[0], ps)) && ps != [] && ps[|ps| - 1] == polygon ==>
      PolygonChain(ps[0], ps + [next])
  {
    next := new LinkedGeoPolygon();
    polygon.next := next;
  }

  /** addLinkedLoop: loop linked after the polygon's last loop, or made its
      first loop when it has none; either way it becomes the last loop.  A
      loop that ends its own chain and is not yet in the polygon extends
      the polygon's loops by one. */
  method AddLinkedLoop(polygon: LinkedGeoPolygon, loop: LinkedGeoLoop, ghost ls: seq<LinkedGeoLoop>) returns (r: LinkedGeoLoop)
    requires polygon.last == null ==> polygon.first == null
    modifies polygon, polygon.last
    ensures r == loop && polygon.last == loop && polygon.next == old(polygon.next)
    ensures old(polygon.last) == null ==> polygon.first == loop
    ensures old(polygon.last) != null ==> polygon.first == old(polygon.first) && old(polygon.last).next == loop
    ensures old(PolygonHolds(polygon, ls)) && loop.next == null && !(loop in ls) ==> PolygonHolds(polygon, ls + [loop])
  {
    if PolygonHolds(polygon, ls) && ls != [] {
      // Only the last node of a chain has no successor, so it is no other node.
      forall i | 0 <= i < |ls| - 1
        ensures ls[i] != ls[|ls| - 1]
      {
        assert ls[i].next == ls[i + 1];
      }
    }
    var last := polygon.last;
    if last == null {
      polygon.first := loop;
    } else {
      last.next := loop;
    }
    polygon.last := loop;
    r := loop;
  }

  /** addNewLinkedLoop: a new zeroed loop added to the polygon. */
  method AddNewLinkedLoop(polygon: LinkedGeoPolygon, ghost ls: seq<LinkedGeoLoop>) returns (loop: LinkedGeoLoop)
    requires polygon.last == null ==> polygon.first == null
    modifies polygon, polygon.last
    ensures fresh(loop) && loop.first == null && loop.last == null
    ensures polygon.last == loop && polygon.next == old(polygon.next)
    ensures old(PolygonHolds(polygon, ls)) ==> PolygonHolds(polygon, ls + [loop])
  {
    loop := new LinkedGeoLoop();
    loop := AddLinkedLoop(polygon, loop, ls);
  }

  /** addLinkedCoord: the coordinate of the vertex appended to the loop, or
      null when vertexToLatLng fails.  A successful append extends the
      loop's coordinates by the new one. */
  method AddLinkedCoord(loop: LinkedGeoLoop, vertex: H3Index, vertexToLatLng: H3Index -> Result<LatLng>,
                        ghost cs: seq<LinkedLatLng>) returns (coord: LinkedLatLng?)
    requires loop.last == null ==> loop.first == null
    modifies loop, loop.last
    ensures vertexToLatLng(vertex).Err? ==> coord == null && loop.first == old(loop.first) && loop.last == old(loop.last)
    ensures vertexToLatLng(vertex).Ok? ==>
      coord != null && fresh(coord) && coord.vertex == vertexToLatLng(vertex).value && coord.next == null
      && loop.last == coord && (old(loop.last) == null ==> loop.first == coord)
    ensures loop.next == old(loop.next)
    ensures old(LoopHolds(loop, cs)) && coord != null ==> LoopHolds(loop, cs + [coord])
    ensures old(LoopHolds(loop, cs)) && coord == null ==> LoopHolds(loop, cs)
  {
    var latLng := vertexToLatLng(vertex);
    if latLng.Err? {
      return null;
    }
    if LoopHolds(loop, cs) && cs != [] {
      forall i | 0 <= i < |cs| - 1
        ensures cs[i] != cs[|cs| - 1]
      {
        assert cs[i].next == cs[i + 1];
      }
    }
    coord := new LinkedLatLng(latLng.value);
    var last := loop.last;
    if last == null {
      loop.first := coord;
    } else {
      last.next := coord;
    }
    loop.last := coord;
  }

  // ----------------------------------------------------------- counting

  /** countLinkedPolygons: the length of the chain from polygon. */
  method CountLinkedPolygons(polygon: LinkedGeoPolygon?, ghost ps: seq<LinkedGeoPolygon>) returns (count: int)
    requires PolygonChain(polygon, ps)
    ensures count == |ps|
  {
    count := 0;
    var p := polygon;
    while p != null
      invariant 0 <= count <= |ps|
      invariant p == if count < |ps| then ps[count] else null
      decreases |ps| - count
    {
      count := count + 1;
      p := p.next;
    }
  }

  /** countLinkedLoops: the number of loops of the polygon. */
  method CountLinkedLoops(polygon: LinkedGeoPolygon, ghost ls: seq<LinkedGeoLoop>) returns (count: int)
    requires LoopChain(polygon.first, ls)
    ensures count == |ls|
  {
    count := 0;
    var loop := polygon.first;
    while loop != null
      invariant 0 <= count <= |ls|
      invariant loop == if count < |ls| then ls[count] else null
      decreases |ls| - count
    {
      count := count + 1;
      loop := loop.next;
    }
  }

  /** countLinkedCoords: the number of coordinates of the loop. */
  method CountLinkedCoords(loop: LinkedGeoLoop, ghost cs: seq<LinkedLatLng>) returns (count: int)
    requires CoordChain(loop.first, cs)
    ensures count == |cs|
  {
    count := 0;
    var coord := loop.first;
    while coord != null
      invariant 0 <= count <= |cs|
      invariant coord == if count < |cs| then cs[count] else null
      decreases |cs| - count
    {
      count := count + 1;
      coord := coord.next;
    }
  }

  /** Adding a new loop and counting again gives one more loop. */
  method AddNewLinkedLoopCounts(polygon: LinkedGeoPolygon, ghost ls: seq<LinkedGeoLoop>) returns (before: int, after: int)
    requires PolygonHolds(polygon, ls)
    modifies polygon, polygon.last
    ensures after == before + 1
  {
    before := CountLinkedLoops(polygon, ls);
    var loop := AddNewLinkedLoop(polygon, ls);
    after := CountLinkedLoops(polygon, ls + [loop]);
  }

  /** Adding a new polygon after the last one and counting again gives one
      more polygon. */
  method AddNewLinkedPolygonCounts(root: LinkedGeoPolygon, last: LinkedGeoPolygon, ghost ps: seq<LinkedGeoPolygon>)
    returns (before: int, after: int)
    requires ps != [] && PolygonChain(root, ps) && ps[|ps| - 1] == last
    modifies last
    ensures after == before + 1
  {
    before := CountLinkedPolygons(root, ps);
    assert last.next == null;
    var next := AddNewLinkedPolygon(last, ps);
    after := CountLinkedPolygons(root, ps + [next]);
  }

  // -------------------------------------------------------- normalizing

  /** The early exits of normalizeMultiPolygon: E_FAILED, touching
      nothing, for a root that is not a single polygon; E_SUCCESS, touching
      nothing, for at most one loop.  None stands for the geometric
      regrouping of the loops that follows otherwise. */
  method NormalizeMultiPolygonExits(root: LinkedGeoPolygon, ghost ls: seq<LinkedGeoLoop>) returns (r: Option<H3Error>)
    requires LoopChain(root.first, ls)
    ensures root.next != null ==> r == Some(E_FAILED)
    ensures root.next == null && |ls| <= 1 ==> r == Some(E_SUCCESS)
    ensures root.next == null && |ls| > 1 ==> r == None
  {
    if root.next != null {
      return Some(E_FAILED);
    }
    var loopCount := CountLinkedLoops(root, ls);
    if loopCount <= 1 {
      return Some(E_SUCCESS);
    }
    return None;
  }
}
