// The web explorer's viewport-to-cells pipeline (useHex.ts): the visible
// bounds, their split at the meridians, each piece as a closed rectangle,
// the zoom and resolution tables, the deduplicated union of the cells of
// the pieces, and the resize handler that stores them.  Unprojecting the
// viewport and polygonToCells are calls into other libraries: they appear
// as parameters.

module ExplorerHex {
  import opened H3Api
  import opened ExplorerRange

  /** A longitude/latitude pair, in the order [lon, lat] of the source. */
  datatype Point = Point(lon: int, lat: int)

  datatype Bounds = Bounds(minLat: int, minLon: int, maxLat: int, maxLon: int)

  /** The bounds getVisibleBounds returns when unprojecting fails. */
  const FALLBACK_BOUNDS: Bounds := Bounds(-DEGREE, -DEGREE, DEGREE, DEGREE)

  /** getVisibleBounds: the box between the unprojected top-left and
      bottom-right screen corners, or the fallback box when unprojecting
      throws (corners == None). */
  function VisibleBounds(corners: Option<(Point, Point)>): (b: Bounds)
    ensures corners.None? ==> b.minLat < 0 < b.maxLat && b.minLon < 0 < b.maxLon
  {
    match corners
    case None => FALLBACK_BOUNDS
    case Some((topLeft, bottomRight)) =>
      Bounds(bottomRight.lat, topLeft.lon, topLeft.lat, bottomRight.lon)
  }

  /** boundsToPolygon: the ring SW, SE, NE, NW, SW. */
  function BoundsToPolygon(b: Bounds): (ring: seq<Point>)
    ensures |ring| == 5 && ring[0] == ring[4]
  {
    [Point(b.minLon, b.minLat), Point(b.maxLon, b.minLat), Point(b.maxLon, b.maxLat),
     Point(b.minLon, b.maxLat), Point(b.minLon, b.minLat)]
  }

  /** Twice the signed area of a ring (the shoelace sum over its edges);
      positive for a counterclockwise ring. */
  function TwiceArea(ring: seq<Point>): int
  {
    if |ring| < 2 then 0
    else ring[0].lon * ring[1].lat - ring[1].lon * ring[0].lat + TwiceArea(ring[1..])
  }

  /** The polygon of the visible bounds passes through both unprojected
      corners: the top-left one is its NW vertex and the bottom-right one
      its SE vertex. */
  lemma VisibleBoundsCorners(topLeft: Point, bottomRight: Point)
    ensures var ring := BoundsToPolygon(VisibleBounds(Some((topLeft, bottomRight))));
      ring[3] == topLeft && ring[1] == bottomRight
  {
  }

  /** boundsToPolygon is a closed ring of four corners of the box taken
      counterclockwise: its signed area is the area of the box, so a box
      with min < max in both coordinates gives a ring of positive area. */
  lemma BoundsToPolygonArea(b: Bounds)
    ensures TwiceArea(BoundsToPolygon(b)) == 2 * (b.maxLon - b.minLon) * (b.maxLat - b.minLat)
  {
    var ring := BoundsToPolygon(b);
    assert ring[1..][1..][1..][1..][1..] == [];
    assert TwiceArea(ring[3..]) == b.minLon * b.minLat - b.minLon * b.maxLat;
    assert TwiceArea(ring[2..]) == b.maxLon * b.maxLat - b.minLon * b.maxLat + TwiceArea(ring[3..]);
    assert TwiceArea(ring[1..]) == b.maxLon * b.maxLat - b.maxLon * b.minLat + TwiceArea(ring[2..]);
    assert TwiceArea(ring) == b.minLon * b.minLat - b.maxLon * b.minLat + TwiceArea(ring[1..]);
  }

  /** The fallback box is a ring of positive area around (0, 0). */
  lemma FallbackPolygon()
    ensures TwiceArea(BoundsToPolygon(VisibleBounds(None))) > 0
  {
    BoundsToPolygonArea(FALLBACK_BOUNDS);
  }

  /** splitPolygon: the bounds cut into the longitude pieces of
      splitLongitudeRange, each with the full latitude span. */
  function SplitPolygon(b: Bounds): (pieces: seq<Bounds>)
    ensures var ps := SplitLongitude(b.minLon, b.maxLon);
      |pieces| == |ps| && forall i | 0 <= i < |ps| ::
        pieces[i] == Bounds(b.minLat, ps[i].0, b.maxLat, ps[i].1)
  {
    var ps := SplitLongitude(b.minLon, b.maxLon);
    seq(|ps|, i requires 0 <= i < |ps| => Bounds(b.minLat, ps[i].0, b.maxLat, ps[i].1))
  }

  /** The zoom level to resolution table ZOOM_TO_RESOLUTION: its keys are
      the zooms 0..21, so the table is the list of its values by zoom. */
  const ZOOM_TO_RESOLUTION: seq<int> :=
    [0, 0, 1, 2, 2, 3, 4, 5, 5, 6, 6, 7, 8, 9, 10, 11, 11, 12, 12, 13, 14, 15]

  const MAX_ZOOM: int := 21

  /** ZOOM_TO_RESOLUTION has the keys 0..21, its values are resolutions
      0..15, consecutive zooms never lower the resolution, and every
      resolution is the value of some zoom, the witness zoom being given. */
  lemma ZoomTable()
    ensures |ZOOM_TO_RESOLUTION| == MAX_ZOOM + 1
    ensures forall z | 0 <= z <= MAX_ZOOM :: 0 <= ZOOM_TO_RESOLUTION[z] <= MAX_H3_RES
    ensures forall z | 0 <= z < MAX_ZOOM :: ZOOM_TO_RESOLUTION[z] <= ZOOM_TO_RESOLUTION[z + 1]
    ensures forall r | 0 <= r <= MAX_H3_RES :: ZOOM_TO_RESOLUTION[ZoomOf(r)] == r
  {
  }

  /** A zoom of each resolution (the first one in the table). */
  function ZoomOf(r: int): (z: int)
    requires 0 <= r <= MAX_H3_RES
    ensures 0 <= z <= MAX_ZOOM
  {
    [0, 2, 3, 5, 6, 7, 9, 11, 12, 13, 14, 15, 17, 19, 20, 21][r]
  }

  /** The table is non-decreasing over any two zooms, not only neighbours. */
  lemma {:induction false} ZoomMonotone(z1: int, z2: int)
    requires 0 <= z1 <= z2 <= MAX_ZOOM
    ensures ZOOM_TO_RESOLUTION[z1] <= ZOOM_TO_RESOLUTION[z2]
    decreases z2 - z1
  {
    ZoomTable();
    if z1 < z2 {
      ZoomMonotone(z1 + 1, z2);
    }
  }

  /** Object.entries(ZOOM_TO_RESOLUTION): the (zoom, resolution) pairs in
      increasing key order. */
  function ZoomEntries(): (es: seq<(int, int)>)
    ensures |es| == MAX_ZOOM + 1
    ensures forall z | 0 <= z <= MAX_ZOOM :: es[z] == (z, ZOOM_TO_RESOLUTION[z])
  {
    seq(MAX_ZOOM + 1, z requires 0 <= z <= MAX_ZOOM => (z, ZOOM_TO_RESOLUTION[z]))
  }

  /** The reduce of RESOLUTION_TO_ZOOM: each entry (k, v) sets acc[v] to k,
      so a later entry overwrites an earlier one. */
  function LastKeyOf(es: seq<(int, int)>, acc: map<int, int>): map<int, int>
    decreases |es|
  {
    if es == [] then acc else LastKeyOf(es[1..], acc[es[0].1 := es[0].0])
  }

  /** After the reduce, v is a key exactly when it was one before or some
      entry has the value v; then the reduce maps it to the key of the last
      such entry, and otherwise keeps the old value. */
  lemma {:induction false} LastKeyOfMeaning(es: seq<(int, int)>, acc: map<int, int>, v: int)
    ensures var m := LastKeyOf(es, acc);
      (v in m <==> v in acc || exists i | 0 <= i < |es| :: es[i].1 == v)
      && ((exists i | 0 <= i < |es| :: es[i].1 == v) ==>
            exists i | 0 <= i < |es| :: es[i].1 == v && m[v] == es[i].0
              && forall j | i < j < |es| :: es[j].1 != v)
      && ((forall i | 0 <= i < |es| :: es[i].1 != v) && v in acc ==> m[v] == acc[v])
    decreases |es|
  {
    if es != [] {
      var acc' := acc[es[0].1 := es[0].0];
      LastKeyOfMeaning(es[1..], acc', v);
      var m := LastKeyOf(es, acc);
      assert m == LastKeyOf(es[1..], acc');
      if exists i | 1 <= i < |es| :: es[i].1 == v {
        var i' :| 0 <= i' < |es[1..]| && es[1..][i'].1 == v && m[v] == es[1..][i'].0
          && forall j | i' < j < |es[1..]| :: es[1..][j].1 != v;
        assert es[i' + 1].1 == v && m[v] == es[i' + 1].0;
        forall j | i' + 1 < j < |es|
          ensures es[j].1 != v
        {
          assert es[j] == es[1..][j - 1];
        }
      } else if es[0].1 == v {
        forall i | 0 <= i < |es[1..]|
          ensures es[1..][i].1 != v
        {
          assert es[1..][i] == es[i + 1];
        }
        assert m[v] == es[0].0;
      } else {
        forall i | 0 <= i < |es[1..]|
          ensures es[1..][i].1 != v
        {
          assert es[1..][i] == es[i + 1];
        }
      }
    }
  }

  /** RESOLUTION_TO_ZOOM, the reduce over the entries of ZOOM_TO_RESOLUTION. */
  function ResolutionToZoom(): map<int, int>
  {
    LastKeyOf(ZoomEntries(), map[])
  }

  /** RESOLUTION_TO_ZOOM has the keys 0..15; the zoom it gives for r maps
      back to r, and it is the largest zoom that does. */
  lemma ResolutionToZoomMeaning(r: int)
    ensures r in ResolutionToZoom() <==> 0 <= r <= MAX_H3_RES
    ensures 0 <= r <= MAX_H3_RES ==> var z := ResolutionToZoom()[r];
      0 <= z <= MAX_ZOOM && ZOOM_TO_RESOLUTION[z] == r
      && forall z' | z < z' <= MAX_ZOOM :: ZOOM_TO_RESOLUTION[z'] != r
  {
    var es := ZoomEntries();
    ZoomTable();
    LastKeyOfMeaning(es, map[], r);
    if 0 <= r <= MAX_H3_RES {
      assert es[ZoomOf(r)].1 == r;
    } else {
      forall i | 0 <= i < |es|
        ensures es[i].1 != r
      {
        assert es[i] == (i, ZOOM_TO_RESOLUTION[i]);
      }
    }
  }

  /** The zoom lookup of handleResize: ZOOM_TO_RESOLUTION at the rounded
      zoom, or None for the `undefined` of a zoom outside the table. */
  function ZoomLookup(roundedZoom: int): (r: Option<int>)
    ensures r.Some? <==> 0 <= roundedZoom <= MAX_ZOOM
    ensures r.Some? ==> 0 <= r.value <= MAX_H3_RES
  {
    ZoomTable();
    if 0 <= roundedZoom < |ZOOM_TO_RESOLUTION| then Some(ZOOM_TO_RESOLUTION[roundedZoom]) else None
  }

  /** No element occurs twice. */
  predicate Distinct<T(==)>(xs: seq<T>)
  {
    forall i, j | 0 <= i < j < |xs| :: xs[i] != xs[j]
  }

  /** `[...new Set(xs)]` past the elements already in seen: the first
      occurrence of each element, in order. */
  function DedupFrom<T(==)>(xs: seq<T>, seen: set<T>): seq<T>
  {
    if xs == [] then []
    else if xs[0] in seen then DedupFrom(xs[1..], seen)
    else [xs[0]] + DedupFrom(xs[1..], seen + {xs[0]})
  }

  function Dedup<T(==)>(xs: seq<T>): seq<T>
  {
    DedupFrom(xs, {})
  }

  /** DedupFrom keeps every element of xs not yet seen, once each, and
      nothing else. */
  lemma {:induction false} DedupFromMeaning<T>(xs: seq<T>, seen: set<T>)
    ensures var d := DedupFrom(xs, seen);
      Distinct(d) && forall x :: x in d <==> x in xs && x !in seen
  {
    if xs != [] {
      var rest := xs[1..];
      assert forall x :: x in xs <==> x == xs[0] || x in rest;
      if xs[0] in seen {
        DedupFromMeaning(rest, seen);
      } else {
        DedupFromMeaning(rest, seen + {xs[0]});
        var d := DedupFrom(xs, seen);
        assert d[1..] == DedupFrom(rest, seen + {xs[0]});
        forall i, j | 0 <= i < j < |d|
          ensures d[i] != d[j]
        {
          if i > 0 {
            assert d[i] == d[1..][i - 1] && d[j] == d[1..][j - 1];
          } else {
            assert d[j] == d[1..][j - 1];
          }
        }
      }
    }
  }

  /** The deduplicated list holds each element of xs exactly once, and a
      list without repeats is its own deduplication. */
  lemma DedupMeaning<T>(xs: seq<T>)
    ensures Distinct(Dedup(xs)) && forall x :: x in Dedup(xs) <==> x in xs
    ensures Distinct(xs) ==> Dedup(xs) == xs
  {
    DedupFromMeaning(xs, {});
    if Distinct(xs) {
      DedupOfDistinct(xs, {});
    }
  }

  lemma {:induction false} DedupOfDistinct<T>(xs: seq<T>, seen: set<T>)
    requires Distinct(xs) && forall x | x in xs :: x !in seen
    ensures DedupFrom(xs, seen) == xs
  {
    if xs != [] {
      forall x | x in xs[1..]
        ensures x !in seen + {xs[0]}
      {
        var k :| 0 <= k < |xs[1..]| && xs[1..][k] == x;
        assert xs[k + 1] == x;
      }
      DedupOfDistinct(xs[1..], seen + {xs[0]});
    }
  }

  /** The concatenation of a list of lists (the flatMap). */
  function Flatten<T>(xss: seq<seq<T>>): seq<T>
  {
    if xss == [] then [] else xss[0] + Flatten(xss[1..])
  }

  lemma {:induction false} FlattenMembers<T>(xss: seq<seq<T>>, x: T)
    ensures x in Flatten(xss) <==> exists i | 0 <= i < |xss| :: x in xss[i]
  {
    if xss != [] {
      FlattenMembers(xss[1..], x);
      if exists i | 1 <= i < |xss| :: x in xss[i] {
        var i :| 1 <= i < |xss| && x in xss[i];
        assert xss[1..][i - 1] == xss[i];
      }
      if exists i | 0 <= i < |xss[1..]| :: x in xss[1..][i] {
        var i :| 0 <= i < |xss[1..]| && x in xss[1..][i];
        assert xss[1..][i] == xss[i + 1];
      }
    }
  }

  /** getHexagons: the polygons of the pieces of the bounds, the cells
      polygonToCells returns for each, flattened and deduplicated. */
  function GetHexagons(b: Bounds, resolution: Option<int>,
                       polygonToCells: (seq<Point>, Option<int>) -> seq<string>): seq<string>
  {
    Dedup(Flatten(CellsOfPieces(SplitPolygon(b), resolution, polygonToCells)))
  }

  /** polygonToCells of the polygon of each piece. */
  function CellsOfPieces(pieces: seq<Bounds>, resolution: Option<int>,
                         polygonToCells: (seq<Point>, Option<int>) -> seq<string>): (xss: seq<seq<string>>)
    ensures |xss| == |pieces|
    ensures forall i | 0 <= i < |pieces| :: xss[i] == polygonToCells(BoundsToPolygon(pieces[i]), resolution)
  {
    seq(|pieces|, i requires 0 <= i < |pieces| => polygonToCells(BoundsToPolygon(pieces[i]), resolution))
  }

  /** getHexagons lists each cell of any piece's polygon exactly once, and
      no other cell. */
  lemma GetHexagonsMeaning(b: Bounds, resolution: Option<int>,
                           polygonToCells: (seq<Point>, Option<int>) -> seq<string>, cell: string)
    ensures Distinct(GetHexagons(b, resolution, polygonToCells))
    ensures var pieces := SplitPolygon(b);
      cell in GetHexagons(b, resolution, polygonToCells) <==>
        exists i | 0 <= i < |pieces| :: cell in polygonToCells(BoundsToPolygon(pieces[i]), resolution)
  {
    var xss := CellsOfPieces(SplitPolygon(b), resolution, polygonToCells);
    DedupMeaning(Flatten(xss));
    FlattenMembers(xss, cell);
  }

  /** The state of the useHex hook: the cells shown and the resolution
      (None models `undefined`). */
  class HexView {
    var hexagons: seq<string>
    var resolution: Option<int>
    const resolutionFrozen: bool

    /** useState([]) and useState(0). */
    constructor(frozen: bool)
      ensures hexagons == [] && resolution == Some(0) && resolutionFrozen == frozen
    {
      hexagons := [];
      resolution := Some(0);
      resolutionFrozen := frozen;
    }

    /** handleResize for a view state with the rounded zoom roundedZoom and
        the unprojected corners: nothing changes while the resolution is
        frozen; otherwise the resolution of the zoom is stored, and the
        cells of the visible bounds at that resolution. */
    method HandleResize(roundedZoom: int, corners: Option<(Point, Point)>,
                        polygonToCells: (seq<Point>, Option<int>) -> seq<string>)
      modifies this
      ensures resolutionFrozen ==> hexagons == old(hexagons) && resolution == old(resolution)
      ensures !resolutionFrozen ==>
        resolution == ZoomLookup(roundedZoom)
        && hexagons == GetHexagons(VisibleBounds(corners), resolution, polygonToCells)
    {
      if resolutionFrozen {
        return;
      }
      var res := ZoomLookup(roundedZoom);
      resolution := res;
      var bounds := VisibleBounds(corners);
      hexagons := GetHexagons(bounds, res, polygonToCells);
    }
  }
}
