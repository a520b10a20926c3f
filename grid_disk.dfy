// The traversals of algos.c built on h3NeighborRotations: the safe disk
// search, which keeps the cells it meets in an open-addressed table with
// linear probing, the ring filter built on it, and the two spiral walks
// that give up on meeting a pentagon.

module H3GridDisk {
  import opened H3Api
  import opened H3Hierarchy
  import opened H3Algos

  /** h3NeighborRotations as the traversals use it: only its error codes
      matter to them. */
  method Move(cur: H3Index, dir: int, rotations: int) returns (err: H3Error, rotations': int, next: H3Index)
    requires 0 <= dir < 7
    ensures err == E_SUCCESS || err == E_FAILED || err == E_CELL_INVALID || err == E_PENTAGON
  {
    err, rotations', next := NeighborRotations(cur, dir, rotations);
  }

  // ------------------------------------------------ the probe table

  /** The slot a cell's probe starts from: the index modulo the table size. */
  function Home(h: H3Index, n: int): (r: int)
    requires n > 0
    ensures 0 <= r < n
  {
    (h as int) % n
  }

  /** The slot j steps after home in a table of n slots, wrapping round. */
  function Slot(home: int, j: int, n: int): (r: int)
    requires 0 <= home < n && 0 <= j < n
    ensures 0 <= r < n
  {
    if home + j < n then home + j else home + j - n
  }

  /** The number of steps from home to slot p. */
  function Steps(home: int, p: int, n: int): (r: int)
    requires 0 <= home < n && 0 <= p < n
    ensures 0 <= r < n && Slot(home, r, n) == p
  {
    if p >= home then p - home else p - home + n
  }

  /** Two probes of fewer than n steps from the same home meet only when
      they took the same number of steps. */
  lemma SlotInjective(home: int, i: int, j: int, n: int)
    requires 0 <= home < n && 0 <= i < n && 0 <= j < n && Slot(home, i, n) == Slot(home, j, n)
    ensures i == j
  {
  }

  /** No cell is stored twice; 0 marks a free slot. */
  ghost predicate Distinct(s: seq<H3Index>)
  {
    forall i, j | 0 <= i < j < |s| && s[i] != 0 :: s[i] != s[j]
  }

  /** Linear probing without deletion: every slot between a stored cell's
      home and the slot it sits in is taken. */
  ghost predicate ProbeOk(s: seq<H3Index>)
  {
    forall p, j | 0 <= p < |s| && s[p] != 0 && 0 <= j < Steps(Home(s[p], |s|), p, |s|) ::
      s[Slot(Home(s[p], |s|), j, |s|)] != 0
  }

  /** ProbeOk at one slot and one step. */
  lemma ProbeOkAt(s: seq<H3Index>, p: int, j: int)
    requires ProbeOk(s) && 0 <= p < |s| && 0 <= j < |s|
    ensures s[p] != 0 && j < Steps(Home(s[p], |s|), p, |s|) ==> s[Slot(Home(s[p], |s|), j, |s|)] != 0
  {
  }

  /** The probe table stays a set. */
  ghost predicate Table(s: seq<H3Index>)
  {
    |s| > 0 && Distinct(s) && ProbeOk(s)
  }

  /** A probe from h's home that went t steps past slots that hold other
      cells and reached a free slot shows that h is not in the table. */
  lemma ProbeMiss(s: seq<H3Index>, h: H3Index, t: int)
    requires Table(s) && 0 <= t < |s| && h != 0
    requires forall j | 0 <= j < t :: s[Slot(Home(h, |s|), j, |s|)] != h
    requires s[Slot(Home(h, |s|), t, |s|)] == 0
    ensures forall q | 0 <= q < |s| :: s[q] != h
  {
    var n, home := |s|, Home(h, |s|);
    forall q | 0 <= q < n
      ensures s[q] != h
    {
      ProbeOkAt(s, q, t);
    }
  }

  /** Storing h in the free slot its probe reached keeps the table a set,
      given that h was not in it. */
  lemma InsertTable(s: seq<H3Index>, h: H3Index, t: int)
    requires Table(s) && 0 <= t < |s|
    requires forall j | 0 <= j < t :: s[Slot(Home(h, |s|), j, |s|)] != 0
    requires s[Slot(Home(h, |s|), t, |s|)] == 0
    requires forall q | 0 <= q < |s| :: s[q] != h
    ensures Table(s[Slot(Home(h, |s|), t, |s|) := h])
  {
    var n, home := |s|, Home(h, |s|);
    var off := Slot(home, t, n);
    var s' := s[off := h];
    forall p, j | 0 <= p < n && s'[p] != 0 && 0 <= j < Steps(Home(s'[p], n), p, n)
      ensures s'[Slot(Home(s'[p], n), j, n)] != 0
    {
      if p == off {
        SlotInjective(home, Steps(home, off, n), t, n);
      } else {
        assert s[p] == s'[p];
      }
    }
  }

  /** Writing a stored cell back into its own slot keeps the table. */
  lemma RewriteTable(s: seq<H3Index>, off: int)
    requires Table(s) && 0 <= off < |s|
    ensures Table(s[off := s[off]])
  {
    assert s[off := s[off]] == s;
  }

  /** A table of free slots. */
  lemma EmptyTable(s: seq<H3Index>)
    requires |s| > 0 && forall i | 0 <= i < |s| :: s[i] == 0
    ensures Table(s)
  {
  }

  /** Every cell stored in the old table is still stored in the same slot,
      at a distance no greater than before. */
  ghost predicate Kept(o: seq<H3Index>, od: seq<int>, s: seq<H3Index>, d: seq<int>)
  {
    |s| == |o| && |d| == |od| == |o|
    && forall i | 0 <= i < |o| && o[i] != 0 :: s[i] == o[i] && d[i] <= od[i]
  }

  /** Every slot that changed, in its cell or its distance, holds a
      distance between lo and hi. */
  ghost predicate ChangedWithin(o: seq<H3Index>, od: seq<int>, s: seq<H3Index>, d: seq<int>, lo: int, hi: int)
    requires |s| == |o| && |d| == |od| == |o|
  {
    forall i | 0 <= i < |o| && (s[i] != o[i] || d[i] != od[i]) :: lo <= d[i] <= hi
  }

  lemma KeptTrans(a: seq<H3Index>, ad: seq<int>, b: seq<H3Index>, bd: seq<int>, c: seq<H3Index>, cd: seq<int>)
    requires Kept(a, ad, b, bd) && Kept(b, bd, c, cd)
    ensures Kept(a, ad, c, cd)
  {
  }

  lemma ChangedTrans(a: seq<H3Index>, ad: seq<int>, b: seq<H3Index>, bd: seq<int>, c: seq<H3Index>, cd: seq<int>,
                     lo: int, hi: int, lo': int, hi': int)
    requires |b| == |a| && |bd| == |ad| == |a| && |c| == |a| && |cd| == |a|
    requires ChangedWithin(a, ad, b, bd, lo, hi) && ChangedWithin(b, bd, c, cd, lo', hi') && lo <= lo' && hi' <= hi
    ensures ChangedWithin(a, ad, c, cd, lo, hi)
  {
    forall i | 0 <= i < |a| && (c[i] != a[i] || cd[i] != ad[i])
      ensures lo <= cd[i] <= hi
    {
      if c[i] == b[i] && cd[i] == bd[i] {
        assert b[i] != a[i] || bd[i] != ad[i];
      }
    }
  }

  /** origin is stored at a distance of at most curK. */
  ghost predicate Reached(s: seq<H3Index>, d: seq<int>, origin: H3Index, curK: int)
  {
    exists i | 0 <= i < |s| && i < |d| :: s[i] == origin && d[i] <= curK
  }

  /** The probe loop of _gridDiskDistancesInternal: the slot holding
      origin or, failing that, the first free slot from origin's home, and
      the steps taken to reach it; None when every slot holds another
      cell, where the C code probes for ever. */
  method Probe(out: array<H3Index>, origin: H3Index) returns (r: Option<(int, int)>)
    requires out.Length > 0
    ensures r.Some? ==>
      0 <= r.value.1 < out.Length && r.value.0 == Slot(Home(origin, out.Length), r.value.1, out.Length)
      && (out[r.value.0] == 0 || out[r.value.0] == origin)
      && forall j | 0 <= j < r.value.1 :: out[Slot(Home(origin, out.Length), j, out.Length)] != 0
                                          && out[Slot(Home(origin, out.Length), j, out.Length)] != origin
    ensures r.None? ==> forall q | 0 <= q < out.Length :: out[q] != 0 && out[q] != origin
  {
    var n := out.Length;
    var home := Home(origin, n);
    var off, t := home, 0;
    while out[off] != 0 && out[off] != origin
      invariant 0 <= t < n && off == Slot(home, t, n)
      invariant forall j | 0 <= j < t :: out[Slot(home, j, n)] != 0 && out[Slot(home, j, n)] != origin
      decreases n - t
    {
      if t == n - 1 {
        forall q | 0 <= q < n
          ensures out[q] != 0 && out[q] != origin
        {
          assert out[Slot(home, Steps(home, q, n), n)] == out[q];
        }
        return None;
      }
      off := if off + 1 < n then off + 1 else 0;
      t := t + 1;
    }
    return Some((off, t));
  }

  /** Storing origin at distance curK in the slot its probe reached. */
  method Store(out: array<H3Index>, distances: array<int>, origin: H3Index, curK: int, off: int, ghost t: int)
    requires out.Length == distances.Length && out as object != distances && Table(out[..])
    requires 0 <= t < out.Length && off == Slot(Home(origin, out.Length), t, out.Length)
    requires out[off] == 0 || (out[off] == origin && distances[off] > curK)
    requires forall j | 0 <= j < t :: out[Slot(Home(origin, out.Length), j, out.Length)] != 0
                                      && out[Slot(Home(origin, out.Length), j, out.Length)] != origin
    modifies out, distances
    ensures out[..] == old(out[..])[off := origin] && distances[..] == old(distances[..])[off := curK]
    ensures Table(out[..])
    ensures Kept(old(out[..]), old(distances[..]), out[..], distances[..])
    ensures ChangedWithin(old(out[..]), old(distances[..]), out[..], distances[..], curK, curK)
  {
    ghost var s := out[..];
    if out[off] == 0 && origin != 0 {
      ProbeMiss(s, origin, t);
      InsertTable(s, origin, t);
    } else {
      RewriteTable(s, off);
    }
    ghost var d := distances[..];
    out[off] := origin;
    assert out[..] == s[off := origin];
    distances[off] := curK;
    assert distances[..] == d[off := curK] && out[..] == s[off := origin];
  }

  /** _gridDiskDistancesInternal: origin added to the probe table at
      distance curK, unless it is there already at a distance no greater,
      and then each of its neighbors at curK + 1 while curK < k.  The table
      remains a set of distinct cells, a cell stored stays in its slot with
      a distance that never grows, every changed slot holds a distance
      between curK and k, and on success a nonzero origin is stored at
      distance at most curK.  The C code probes for ever in a full table
      that lacks origin; the model gives E_MEMORY_BOUNDS there. */
  method GridDiskDistancesInternal(origin: H3Index, k: int, out: array<H3Index>, distances: array<int>, curK: int)
    returns (err: H3Error)
    requires out.Length == distances.Length && out as object != distances && Table(out[..])
    modifies out, distances
    decreases if k > curK then k - curK else 0, 1
    ensures Table(out[..])
    ensures Kept(old(out[..]), old(distances[..]), out[..], distances[..])
    ensures ChangedWithin(old(out[..]), old(distances[..]), out[..], distances[..], curK, if curK > k then curK else k)
    ensures err == E_SUCCESS || err == E_FAILED || err == E_CELL_INVALID || err == E_MEMORY_BOUNDS
    ensures err == E_SUCCESS && origin != 0 ==> Reached(out[..], distances[..], origin, curK)
  {
    var slot := Probe(out, origin);
    if slot.None? {
      return E_MEMORY_BOUNDS;
    }
    var off := slot.value.0;
    if out[off] == origin && distances[off] <= curK {
      return E_SUCCESS;
    }
    Store(out, distances, origin, curK, off, slot.value.1);
    if curK >= k {
      return E_SUCCESS;
    }
    ghost var o, od := out[..], distances[..];
    err := VisitNeighbors(origin, k, out, distances, curK, off);
    KeptTrans(old(out[..]), old(distances[..]), o, od, out[..], distances[..]);
    ChangedTrans(old(out[..]), old(distances[..]), o, od, out[..], distances[..], curK, k, curK, k);
  }

  /** The recursion of _gridDiskDistancesInternal into the six neighbors
      of origin at distance curK + 1: a neighbor in a pentagon's deleted
      direction is skipped, any other error is passed on. */
  method VisitNeighbors(origin: H3Index, k: int, out: array<H3Index>, distances: array<int>, curK: int, off: int)
    returns (err: H3Error)
    requires out.Length == distances.Length && out as object != distances && Table(out[..]) && curK < k
    requires 0 <= off < out.Length && out[off] == origin && distances[off] <= curK
    modifies out, distances
    decreases k - curK, 0
    ensures Table(out[..])
    ensures Kept(old(out[..]), old(distances[..]), out[..], distances[..])
    ensures ChangedWithin(old(out[..]), old(distances[..]), out[..], distances[..], curK + 1, k)
    ensures err == E_SUCCESS || err == E_FAILED || err == E_CELL_INVALID || err == E_MEMORY_BOUNDS
    ensures err == E_SUCCESS && origin != 0 ==> Reached(out[..], distances[..], origin, curK)
  {
    for i := 0 to 6
      invariant Table(out[..])
      invariant Kept(old(out[..]), old(distances[..]), out[..], distances[..])
      invariant ChangedWithin(old(out[..]), old(distances[..]), out[..], distances[..], curK + 1, k)
      invariant origin != 0 ==> out[off] == origin && distances[off] <= curK
    {
      var e, _, neighbor := Move(origin, DIRECTIONS[i], 0);
      if e != E_PENTAGON {
        if e != E_SUCCESS {
          return e;
        }
        ghost var o, od := out[..], distances[..];
        e := GridDiskDistancesInternal(neighbor, k, out, distances, curK + 1);
        KeptTrans(old(out[..]), old(distances[..]), o, od, out[..], distances[..]);
        ChangedTrans(old(out[..]), old(distances[..]), o, od, out[..], distances[..], curK + 1, k, curK + 1, k);
        if e != E_SUCCESS {
          return e;
        }
      }
    }
    err := E_SUCCESS;
  }

  // ------------------------------------------------ the spiral walks

  /** Position t of the spiral lies on ring r: past the DiskCells(r - 1)
      cells of the smaller disk and within the disk of radius r. */
  predicate OnRing(t: int, r: int)
  {
    1 <= r && DiskCells(r - 1) <= t < DiskCells(r)
  }

  /** The spiral position of step i on side direction of ring r. */
  function SpiralIndex(ring: int, direction: int, i: int): int
    requires ring >= 1
  {
    DiskCells(ring - 1) + ring * direction + i
  }

  /** A step on ring r lands on ring r, inside the disk of radius k. */
  lemma SpiralOnRing(ring: int, direction: int, i: int, k: int)
    requires 1 <= ring <= k && 0 <= direction < 6 && 0 <= i < ring
    ensures OnRing(SpiralIndex(ring, direction, i), ring) && SpiralIndex(ring, direction, i) < DiskCells(k)
  {
    assert ring * direction <= ring * 5;
    DiskCellsMonotone(ring, k);
  }

  /** The counters after a step: along the side, then round the corner,
      then out to the next ring; the position moves on by one. */
  lemma SpiralAdvance(ring: int, direction: int, i: int)
    requires 1 <= ring && 0 <= direction < 6 && 0 <= i < ring
    ensures i + 1 < ring ==> SpiralIndex(ring, direction, i + 1) == SpiralIndex(ring, direction, i) + 1
    ensures i + 1 == ring && direction < 5 ==> SpiralIndex(ring, direction + 1, 0) == SpiralIndex(ring, direction, i) + 1
    ensures i + 1 == ring && direction == 5 ==> SpiralIndex(ring + 1, 0, 0) == SpiralIndex(ring, direction, i) + 1
  {
  }

  /** Writing one spiral position. */
  method Emit(out: array<H3Index>, distances: array?<int>, idx: int, cell: H3Index, ring: int)
    requires 0 <= idx < out.Length && (distances != null ==> idx < distances.Length && out as object != distances)
    modifies out, distances
    ensures out[..] == old(out[..])[idx := cell]
    ensures distances != null ==> distances[..] == old(distances[..])[idx := ring]
  {
    out[idx] := cell;
    if distances != null {
      distances[idx] := ring;
    }
  }

  /** One step of the spiral: the move out to the next ring when a ring
      starts, the move along the side, and the cell reached written at idx
      with its ring; E_PENTAGON when either move reaches a pentagon,
      errors of the moves passed on.  Nothing but position idx is
      written. */
  method SpiralStep(cur: H3Index, ring: int, direction: int, i: int, rotations: int, k: int,
                    out: array<H3Index>, distances: array?<int>, idx: int)
    returns (err: H3Error, cur': H3Index, rotations': int)
    requires 1 <= ring <= k && 0 <= direction < 6 && 0 <= i < ring && idx == SpiralIndex(ring, direction, i)
    requires out.Length >= DiskCells(k) && (distances != null ==> distances.Length >= DiskCells(k) && out as object != distances)
    modifies out, distances
    ensures err == E_SUCCESS || err == E_FAILED || err == E_CELL_INVALID || err == E_PENTAGON
    ensures 1 <= idx < DiskCells(k) && OnRing(idx, ring)
    ensures forall t | 0 <= t < out.Length && t != idx :: out[t] == old(out[t])
    ensures distances != null ==> forall t | 0 <= t < distances.Length && t != idx :: distances[t] == old(distances[t])
    ensures err == E_SUCCESS ==>
      !IsPentagon(cur') && out[..] == old(out[..])[idx := cur']
      && (distances != null ==> distances[..] == old(distances[..])[idx := ring])
  {
    SpiralOnRing(ring, direction, i, k);
    cur', rotations' := cur, rotations;
    if direction == 0 && i == 0 {
      var e, turned, next := Move(cur, NEXT_RING_DIRECTION, rotations);
      if e != E_SUCCESS {
        return e, cur, rotations;
      }
      cur', rotations' := next, turned;
      if IsPentagon(cur') {
        return E_PENTAGON, cur', rotations';
      }
    }
    var e, turned, next := Move(cur', DIRECTIONS[direction], rotations');
    if e != E_SUCCESS {
      return e, cur', rotations';
    }
    cur', rotations' := next, turned;
    Emit(out, distances, idx, cur', ring);
    err := if IsPentagon(cur') then E_PENTAGON else E_SUCCESS;
  }

  /** The rings of gridDiskDistancesUnsafe after origin: step after step
      of the spiral, each cell reached written with its ring, until ring k
      is complete or a step fails. */
  method Spiral(origin: H3Index, k: int, out: array<H3Index>, distances: array?<int>) returns (err: H3Error)
    requires k >= 0 && out.Length >= DiskCells(k) && out[0] == origin && !IsPentagon(origin)
    requires distances != null ==> distances.Length >= DiskCells(k) && out as object != distances && distances[0] == 0
    modifies out, distances
    ensures out[0] == origin && (distances != null ==> distances[0] == 0)
    ensures err == E_SUCCESS || err == E_PENTAGON || err == E_FAILED || err == E_CELL_INVALID
    ensures err == E_SUCCESS ==> forall t | 0 <= t < DiskCells(k) :: !IsPentagon(out[t])
    ensures err == E_SUCCESS && distances != null ==>
      forall t | 0 < t < DiskCells(k) :: distances[t] <= k && OnRing(t, distances[t])
  {
    var idx := 1;
    var cur, ring, direction, i, rotations := origin, 1, 0, 0, 0;
    while ring <= k
      invariant 1 <= ring <= k + 1 && 0 <= direction < 6 && 0 <= i < ring
      invariant ring == k + 1 ==> direction == 0 && i == 0
      invariant idx == SpiralIndex(ring, direction, i) && idx <= DiskCells(k)
      invariant out[0] == origin && !IsPentagon(cur)
      invariant forall t | 0 <= t < idx :: !IsPentagon(out[t])
      invariant distances != null ==>
        distances[0] == 0 && forall t | 0 < t < idx :: distances[t] <= k && OnRing(t, distances[t])
      decreases k - ring, 5 - direction, ring - i
    {
      var e;
      e, cur, rotations := SpiralStep(cur, ring, direction, i, rotations, k, out, distances, idx);
      if e != E_SUCCESS {
        return e;
      }
      SpiralAdvance(ring, direction, i);
      idx := idx + 1;
      i := i + 1;
      if i == ring {
        i := 0;
        direction := direction + 1;
        if direction == 6 {
          direction := 0;
          ring := ring + 1;
        }
      }
    }
    err := E_SUCCESS;
  }

  /** gridDiskDistancesUnsafe: the spiral from origin outwards, ring by
      ring and side by side, writing each cell it reaches and its ring.
      E_DOMAIN for negative k, touching nothing; otherwise origin at 0
      with distance 0, and E_PENTAGON as soon as a pentagon is reached,
      origin included.  On success every one of the DiskCells(k) positions
      is written with a cell that is not a pentagon, position t with the
      ring that holds t. */
  method GridDiskDistancesUnsafe(origin: H3Index, k: int, out: array<H3Index>, distances: array?<int>) returns (err: H3Error)
    requires k >= 0 ==> out.Length >= DiskCells(k) && (distances != null ==> distances.Length >= DiskCells(k))
    requires distances != null ==> out as object != distances
    modifies out, distances
    ensures k < 0 ==> err == E_DOMAIN && out[..] == old(out[..]) && (distances != null ==> distances[..] == old(distances[..]))
    ensures k >= 0 ==> out[0] == origin && (distances != null ==> distances[0] == 0)
    ensures err == E_SUCCESS || err == E_DOMAIN || err == E_PENTAGON || err == E_FAILED || err == E_CELL_INVALID
    ensures k >= 0 && IsPentagon(origin) ==> err == E_PENTAGON
    ensures err == E_SUCCESS ==> forall t | 0 <= t < DiskCells(k) :: !IsPentagon(out[t])
    ensures err == E_SUCCESS && distances != null ==>
      forall t | 0 < t < DiskCells(k) :: distances[t] <= k && OnRing(t, distances[t])
  {
    if k < 0 {
      return E_DOMAIN;
    }
    out[0] := origin;
    if distances != null {
      distances[0] := 0;
    }
    if IsPentagon(origin) {
      return E_PENTAGON;
    }
    err := Spiral(origin, k, out, distances);
  }

  /** The ring walk's next output position after step pos of side
      direction: one past the first cell and the steps before, the very
      last step, which returns to the first cell, not counted. */
  function RingSlot(direction: int, pos: int, k: int): int
  {
    if 1 + direction * k + pos < 6 * k then 1 + direction * k + pos else 6 * k
  }

  /** How RingSlot moves: by one along a side, except at the last step of
      the last side; unchanged round a corner. */
  lemma RingSlotAdvance(direction: int, pos: int, k: int)
    requires 1 <= k && 0 <= direction < 6 && 0 <= pos < k
    ensures (pos != k - 1 || direction != 5) ==>
      RingSlot(direction, pos, k) < 6 * k && RingSlot(direction, pos + 1, k) == RingSlot(direction, pos, k) + 1
    ensures pos == k - 1 && direction == 5 ==> RingSlot(direction, pos + 1, k) == RingSlot(direction, pos, k) == 6 * k
    ensures RingSlot(direction, k, k) == RingSlot(direction + 1, 0, k)
    ensures 1 <= RingSlot(direction, pos, k)
  {
    assert direction * k <= 5 * k;
    assert (direction + 1) * k == direction * k + k;
  }

  /** The first leg of the ring walk: k steps in the next-ring direction,
      E_PENTAGON on reaching a pentagon. */
  method WalkOut(origin: H3Index, k: int) returns (err: H3Error, cur: H3Index, rotations: int)
    requires k >= 1
    ensures err == E_SUCCESS || err == E_PENTAGON || err == E_FAILED || err == E_CELL_INVALID
    ensures err == E_SUCCESS ==> !IsPentagon(cur)
  {
    cur, rotations := origin, 0;
    for ring := 0 to k
      invariant ring > 0 ==> !IsPentagon(cur)
      invariant ring == 0 ==> cur == origin
    {
      var e, turned, next := Move(cur, NEXT_RING_DIRECTION, rotations);
      if e != E_SUCCESS {
        return e, cur, rotations;
      }
      cur, rotations := next, turned;
      if IsPentagon(cur) {
        return E_PENTAGON, cur, rotations;
      }
    }
    err := E_SUCCESS;
  }

  /** One side of the ring walk: k steps in the side's direction, each
      cell reached written at the next position but the very last, which
      is the first cell again; E_PENTAGON on writing a pentagon. */
  method WalkSide(cur: H3Index, rotations: int, direction: int, k: int, out: array<H3Index>, idx: int)
    returns (err: H3Error, cur': H3Index, rotations': int, idx': int)
    requires 1 <= k && 0 <= direction < 6 && idx == RingSlot(direction, 0, k) && out.Length >= 6 * k
    requires forall t | 0 <= t < idx :: !IsPentagon(out[t])
    modifies out
    ensures err == E_SUCCESS || err == E_PENTAGON || err == E_FAILED || err == E_CELL_INVALID
    ensures err == E_SUCCESS ==> idx' == RingSlot(direction + 1, 0, k) && forall t | 0 <= t < idx' :: !IsPentagon(out[t])
  {
    cur', rotations', idx' := cur, rotations, idx;
    RingSlotAdvance(direction, 0, k);
    for pos := 0 to k
      invariant idx' == RingSlot(direction, pos, k) && idx' <= 6 * k
      invariant forall t | 0 <= t < idx' :: !IsPentagon(out[t])
    {
      var e, turned, next := Move(cur', DIRECTIONS[direction], rotations');
      if e != E_SUCCESS {
        return e, cur', rotations', idx';
      }
      cur', rotations' := next, turned;
      RingSlotAdvance(direction, pos, k);
      if pos != k - 1 || direction != 5 {
        out[idx'] := cur';
        idx' := idx' + 1;
        if IsPentagon(cur') {
          return E_PENTAGON, cur', rotations', idx';
        }
      }
    }
    RingSlotAdvance(direction, 0, k);
    err := E_SUCCESS;
  }

  /** gridRingUnsafe: the hollow ring at distance k, walked from the cell
      k steps out along the next-ring direction round the six sides.
      E_DOMAIN for negative k, touching nothing; for k = 0 only origin
      written; E_PENTAGON when origin or any cell on the way is a pentagon,
      and when the walk does not come back to the cell it started from.
      On success the 6k positions hold cells that are not pentagons. */
  method GridRingUnsafe(origin: H3Index, k: int, out: array<H3Index>) returns (err: H3Error)
    requires k >= 0 ==> out.Length >= (if k == 0 then 1 else 6 * k)
    modifies out
    ensures k < 0 ==> err == E_DOMAIN && out[..] == old(out[..])
    ensures k == 0 ==> err == E_SUCCESS && out[..] == old(out[..])[0 := origin]
    ensures k > 0 && IsPentagon(origin) ==> err == E_PENTAGON && out[..] == old(out[..])
    ensures err == E_SUCCESS || err == E_DOMAIN || err == E_PENTAGON || err == E_FAILED || err == E_CELL_INVALID
    ensures err == E_SUCCESS && k > 0 ==> forall t | 0 <= t < 6 * k :: !IsPentagon(out[t])
  {
    if k < 0 {
      return E_DOMAIN;
    }
    if k == 0 {
      out[0] := origin;
      return E_SUCCESS;
    }
    if IsPentagon(origin) {
      return E_PENTAGON;
    }
    var cur, rotations;
    err, cur, rotations := WalkOut(origin, k);
    if err != E_SUCCESS {
      return;
    }
    var lastIndex := cur;
    out[0] := cur;
    var idx := 1;
    for direction := 0 to 6
      invariant idx == RingSlot(direction, 0, k) && idx <= 6 * k
      invariant forall t | 0 <= t < idx :: !IsPentagon(out[t])
    {
      var e;
      e, cur, rotations, idx := WalkSide(cur, rotations, direction, k, out, idx);
      if e != E_SUCCESS {
        return e;
      }
      RingSlotAdvance(direction, 0, k);
    }
    if lastIndex != cur {
      return E_PENTAGON;
    }
    err := E_SUCCESS;
  }

  // ------------------------------------------------ the ring filter

  /** The cells of the table at distance exactly k, in slot order. */
  function RingOf(s: seq<H3Index>, d: seq<int>, k: int): seq<H3Index>
    requires |d| == |s|
  {
    if s == [] then []
    else RingOf(s[..|s| - 1], d[..|s| - 1], k) + (if s[|s| - 1] != 0 && d[|s| - 1] == k then [s[|s| - 1]] else [])
  }

  /** Every cell RingOf lists sits, nonzero, in a slot at distance k. */
  lemma {:induction false} RingOfSound(s: seq<H3Index>, d: seq<int>, k: int, x: H3Index) returns (i: int)
    requires |d| == |s| && x in RingOf(s, d, k)
    ensures 0 <= i < |s| && s[i] == x && x != 0 && d[i] == k
  {
    var n := |s| - 1;
    if x in RingOf(s[..n], d[..n], k) {
      i := RingOfSound(s[..n], d[..n], k, x);
      assert s[..n][i] == s[i] && d[..n][i] == d[i];
    } else {
      i := n;
    }
  }

  /** Every nonzero cell at distance k is listed by RingOf. */
  lemma {:induction false} RingOfComplete(s: seq<H3Index>, d: seq<int>, k: int, i: int)
    requires |d| == |s| && 0 <= i < |s| && s[i] != 0 && d[i] == k
    ensures s[i] in RingOf(s, d, k)
  {
    var n := |s| - 1;
    if i < n {
      assert s[..n][i] == s[i] && d[..n][i] == d[i];
      RingOfComplete(s[..n], d[..n], k, i);
    }
  }

  /** RingOf of a table without repeats lists no cell twice. */
  lemma {:induction false} RingOfDistinct(s: seq<H3Index>, d: seq<int>, k: int)
    requires |d| == |s| && Distinct(s)
    ensures forall i, j | 0 <= i < j < |RingOf(s, d, k)| :: RingOf(s, d, k)[i] != RingOf(s, d, k)[j]
  {
    if s != [] {
      var n := |s| - 1;
      assert Distinct(s[..n]);
      RingOfDistinct(s[..n], d[..n], k);
      var r := RingOf(s[..n], d[..n], k);
      if s[n] != 0 && d[n] == k {
        forall i | 0 <= i < |r|
          ensures r[i] != s[n]
        {
          var q := RingOfSound(s[..n], d[..n], k, r[i]);
          assert s[..n][q] == s[q];
        }
      }
    }
  }

  /** RingOf over one more slot. */
  lemma RingOfSnoc(s: seq<H3Index>, d: seq<int>, k: int, i: int)
    requires |d| == |s| && 0 <= i < |s|
    ensures RingOf(s[..i + 1], d[..i + 1], k)
         == RingOf(s[..i], d[..i], k) + (if s[i] != 0 && d[i] == k then [s[i]] else [])
  {
    assert s[..i + 1][..i] == s[..i] && d[..i + 1][..i] == d[..i];
  }

  /** The filter loop of _gridRingInternal: the cells of the disk table at
      distance exactly k copied to the front of out, in slot order.  The C
      code writes past the end of out when the table holds more; the model
      stops with E_MEMORY_BOUNDS there. */
  method FilterRing(diskOut: array<H3Index>, diskDistances: array<int>, k: int, out: array<H3Index>) returns (err: H3Error, count: int)
    requires diskOut.Length == diskDistances.Length && out != diskOut && out as object != diskDistances
    modifies out
    ensures err == E_SUCCESS || err == E_MEMORY_BOUNDS
    ensures err == E_SUCCESS ==>
      count == |RingOf(diskOut[..], diskDistances[..], k)| && count <= out.Length
      && out[..count] == RingOf(diskOut[..], diskDistances[..], k) && out[count..] == old(out[count..])
  {
    count := 0;
    for i := 0 to diskOut.Length
      invariant count <= i && count <= out.Length && RingOf(diskOut[..i], diskDistances[..i], k) == out[..count]
      invariant forall j | count <= j < out.Length :: out[j] == old(out[j])
    {
      RingOfSnoc(diskOut[..], diskDistances[..], k, i);
      assert diskOut[..][..i + 1] == diskOut[..i + 1] && diskDistances[..][..i + 1] == diskDistances[..i + 1];
      assert diskOut[..][..i] == diskOut[..i] && diskDistances[..][..i] == diskDistances[..i];
      if diskOut[i] != 0 && diskDistances[i] == k {
        if count == out.Length {
          return E_MEMORY_BOUNDS, count;
        }
        ghost var prefix := out[..count];
        out[count] := diskOut[i];
        assert out[..count + 1] == prefix + [diskOut[i]];
        count := count + 1;
      }
    }
    assert diskOut[..diskOut.Length] == diskOut[..] && diskDistances[..diskDistances.Length] == diskDistances[..];
    assert out[count..] == old(out[count..]);
    err := E_SUCCESS;
  }

  /** _gridRingInternal: the ring at distance exactly k by filtering the
      safe disk search.  k = 0 writes only origin; errors of
      maxGridDiskSize and of the search are passed on.  On success, with
      disk and dists the search's table, the front of out holds the cells
      of the table at distance k, each once, and the rest of out is
      untouched; the table holds a nonzero origin at distance 0 and every
      cell it holds lies within distance k. */
  method GridRingInternal(origin: H3Index, k: int, out: array<H3Index>)
    returns (err: H3Error, ghost disk: seq<H3Index>, ghost dists: seq<int>)
    requires k == 0 ==> out.Length >= 1
    modifies out
    ensures k == 0 ==> err == E_SUCCESS && out[..] == old(out[..])[0 := origin]
    ensures k < 0 ==> err == E_DOMAIN && out[..] == old(out[..])
    ensures err == E_SUCCESS || err == E_DOMAIN || err == E_FAILED || err == E_CELL_INVALID || err == E_MEMORY_BOUNDS
    ensures err == E_SUCCESS && k > 0 ==>
      |dists| == |disk| && Table(disk)
      && (origin != 0 ==> Reached(disk, dists, origin, 0))
      && (forall i | 0 <= i < |disk| && disk[i] != 0 :: 0 <= dists[i] <= k)
      && |RingOf(disk, dists, k)| <= out.Length
      && out[..|RingOf(disk, dists, k)|] == RingOf(disk, dists, k)
      && out[|RingOf(disk, dists, k)|..] == old(out[|RingOf(disk, dists, k)|..])
  {
    disk, dists := [], [];
    if k == 0 {
      out[0] := origin;
      return E_SUCCESS, disk, dists;
    }
    var size := MaxGridDiskSize(k);
    if size.Err? {
      return size.error, disk, dists;
    }
    var diskOut := new H3Index[size.value](_ => 0);
    var diskDistances := new int[size.value](_ => 0);
    EmptyTable(diskOut[..]);
    ghost var o, od := diskOut[..], diskDistances[..];
    err := GridDiskDistancesInternal(origin, k, diskOut, diskDistances, 0);
    if err != E_SUCCESS {
      return err, disk, dists;
    }
    disk, dists := diskOut[..], diskDistances[..];
    assert forall i | 0 <= i < |disk| && disk[i] != 0 :: disk[i] != o[i];
    var count;
    err, count := FilterRing(diskOut, diskDistances, k, out);
  }
}
