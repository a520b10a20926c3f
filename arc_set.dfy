// The ArcSet of cellsToMultiPoly.c: one arc per directed edge of the input
// cells, linked into a loop per cell by next/prev, grouped by a union-find
// forest, and looked up through a linear-probing table of buckets. Arc
// pointers are indices into the arcs array; NULL is -1.

module H3ArcSet {
  import opened H3Api
  import opened H3GridDisk
  import opened H3CellsToMultiPoly
  import opened H3UnionFind
  import opened H3ArcLoops

  /** The arc that stands for NULL. */
  const NO_ARC := -1

  datatype Arc = Arc(id: H3Index, isVisited: bool, isRemoved: bool, next: int, prev: int, parent: int, rank: int)

  function IdsOf(s: seq<Arc>): (r: seq<H3Index>)
    ensures |r| == |s| && forall i {:trigger r[i]} | 0 <= i < |s| :: r[i] == s[i].id
  {
    seq(|s|, i requires 0 <= i < |s| => s[i].id)
  }

  function ParentsOf(s: seq<Arc>): (r: seq<int>)
    ensures |r| == |s| && forall i {:trigger r[i]} | 0 <= i < |s| :: r[i] == s[i].parent
  {
    seq(|s|, i requires 0 <= i < |s| => s[i].parent)
  }

  function NextsOf(s: seq<Arc>): (r: seq<int>)
    ensures |r| == |s| && forall i {:trigger r[i]} | 0 <= i < |s| :: r[i] == s[i].next
  {
    seq(|s|, i requires 0 <= i < |s| => s[i].next)
  }

  function PrevsOf(s: seq<Arc>): (r: seq<int>)
    ensures |r| == |s| && forall i {:trigger r[i]} | 0 <= i < |s| :: r[i] == s[i].prev
  {
    seq(|s|, i requires 0 <= i < |s| => s[i].prev)
  }

  function VisitedOf(s: seq<Arc>): (r: seq<bool>)
    ensures |r| == |s| && forall i {:trigger r[i]} | 0 <= i < |s| :: r[i] == s[i].isVisited
  {
    seq(|s|, i requires 0 <= i < |s| => s[i].isVisited)
  }

  function RemovedOf(s: seq<Arc>): (r: seq<bool>)
    ensures |r| == |s| && forall i {:trigger r[i]} | 0 <= i < |s| :: r[i] == s[i].isRemoved
  {
    seq(|s|, i requires 0 <= i < |s| => s[i].isRemoved)
  }

  /** The fields the splice leaves alone (id, marks, parent, rank) agree. */
  predicate SameCore(s: seq<Arc>, t: seq<Arc>)
  {
    |s| == |t|
    && forall x | 0 <= x < |s| ::
      t[x].id == s[x].id && t[x].isVisited == s[x].isVisited && t[x].parent == s[x].parent && t[x].rank == s[x].rank
  }

  lemma SameCoreViews(s: seq<Arc>, t: seq<Arc>)
    requires SameCore(s, t)
    ensures IdsOf(t) == IdsOf(s) && ParentsOf(t) == ParentsOf(s)
  {
  }

  lemma SameCoreTrans(s: seq<Arc>, t: seq<Arc>, u: seq<Arc>)
    requires SameCore(s, t) && SameCore(t, u)
    ensures SameCore(s, u)
  {
  }

  /** One write of cancelArcPairs' splice: x's prev set to v. */
  lemma PrevWrite(s: seq<Arc>, x: int, v: int)
    requires 0 <= x < |s|
    ensures var t := s[x := s[x].(prev := v)];
      NextsOf(t) == NextsOf(s) && PrevsOf(t) == PrevsOf(s)[x := v] && RemovedOf(t) == RemovedOf(s) && SameCore(s, t)
  {
    var t := s[x := s[x].(prev := v)];
    assert PrevsOf(t) == PrevsOf(s)[x := v];
  }

  /** x's next set to v. */
  lemma NextWrite(s: seq<Arc>, x: int, v: int)
    requires 0 <= x < |s|
    ensures var t := s[x := s[x].(next := v)];
      NextsOf(t) == NextsOf(s)[x := v] && PrevsOf(t) == PrevsOf(s) && RemovedOf(t) == RemovedOf(s) && SameCore(s, t)
  {
    var t := s[x := s[x].(next := v)];
    assert NextsOf(t) == NextsOf(s)[x := v];
  }

  /** x marked removed. */
  lemma RemovedWrite(s: seq<Arc>, x: int)
    requires 0 <= x < |s|
    ensures var t := s[x := s[x].(isRemoved := true)];
      NextsOf(t) == NextsOf(s) && PrevsOf(t) == PrevsOf(s) && RemovedOf(t) == RemovedOf(s)[x := true] && SameCore(s, t)
  {
    var t := s[x := s[x].(isRemoved := true)];
    assert RemovedOf(t) == RemovedOf(s)[x := true];
  }

  /** t differs from s in visited marks at most. */
  predicate VisitedOnly(s: seq<Arc>, t: seq<Arc>)
  {
    |s| == |t| && forall x | 0 <= x < |s| :: t[x] == s[x].(isVisited := t[x].isVisited)
  }

  /** One more arc marked visited. */
  lemma VisitWrite(s0: seq<Arc>, s: seq<Arc>, x: int)
    requires VisitedOnly(s0, s) && 0 <= x < |s|
    ensures var t := s[x := s[x].(isVisited := true)];
      VisitedOnly(s0, t) && VisitedOf(t) == VisitedOf(s)[x := true]
  {
    var t := s[x := s[x].(isVisited := true)];
    assert VisitedOf(t) == VisitedOf(s)[x := true];
  }

  /** countLoops' do-while k steps along the loop of live arc s: cur is
      where it stands, and t marks visited the arcs walked so far on top
      of the marks vis0 it started from. */
  ghost predicate WalkProgress(s0: seq<Arc>, t: seq<Arc>, vis0: seq<bool>, s: int, k: nat, cur: int)
  {
    && VisitedOnly(s0, t) && |vis0| == |s0| && NoRepeats(IdsOf(s0)) && Permutes(NextsOf(s0), RemovedOf(s0))
    && 0 <= s < |s0| && !s0[s].isRemoved
    && 1 <= k <= Period(NextsOf(s0), RemovedOf(s0), s) && cur == Iter(NextsOf(s0), s, k)
    && VisitedOf(t) == Mark(vis0, Walked(NextsOf(s0), s, k))
  }

  /** The first step: s itself marked, standing on its next arc. */
  lemma WalkStart(s0: seq<Arc>, t: seq<Arc>, vis0: seq<bool>, s: int)
    requires VisitedOnly(s0, t) && NoRepeats(IdsOf(s0)) && Permutes(NextsOf(s0), RemovedOf(s0))
    requires 0 <= s < |s0| && !s0[s].isRemoved
    requires |vis0| == |s0| && VisitedOf(t) == vis0[s := true]
    ensures WalkProgress(s0, t, vis0, s, 1, NextsOf(s0)[s])
  {
    MarkAdd(vis0, {}, s);
    assert Mark(vis0, {}) == vis0;
  }

  /** While the start id has not come round the walk is inside the loop,
      and marking cur and moving on to its next arc is one more step. */
  lemma WalkStep(s0: seq<Arc>, t: seq<Arc>, t': seq<Arc>, vis0: seq<bool>, s: int, k: nat, cur: int)
    requires WalkProgress(s0, t, vis0, s, k, cur) && t[cur].id != s0[s].id
    requires VisitedOnly(s0, t') && VisitedOf(t') == VisitedOf(t)[cur := true]
    ensures k < Period(NextsOf(s0), RemovedOf(s0), s)
    ensures WalkProgress(s0, t', vis0, s, k + 1, NextsOf(s0)[cur])
  {
    assert t[cur].id == IdsOf(s0)[cur] && s0[s].id == IdsOf(s0)[s];
    MarkAdd(vis0, Walked(NextsOf(s0), s, k), cur);
  }

  /** When the start id comes round the walk has marked exactly s's loop. */
  lemma WalkDone(s0: seq<Arc>, t: seq<Arc>, vis0: seq<bool>, s: int, k: nat, cur: int)
    requires WalkProgress(s0, t, vis0, s, k, cur) && t[cur].id == s0[s].id
    ensures VisitedOf(t) == Mark(vis0, LoopOf(NextsOf(s0), RemovedOf(s0), s))
  {
    assert t[cur].id == IdsOf(s0)[cur] && s0[s].id == IdsOf(s0)[s];
  }

  /** countLoops before arc i: n walks started so far, from the leaders
      below i, and t marks visited exactly the live arcs of their loops;
      s0 is the array just after the reset. */
  ghost predicate CountProgress(s0: seq<Arc>, t: seq<Arc>, i: int, n: int)
  {
    && VisitedOnly(s0, t) && NoRepeats(IdsOf(s0)) && Permutes(NextsOf(s0), RemovedOf(s0))
    && 0 <= i <= |s0| && VisitedBelow(NextsOf(s0), RemovedOf(s0), VisitedOf(t), i)
    && n == Leaders(NextsOf(s0), RemovedOf(s0), i)
  }

  /** After the reset nothing is visited and no walk has started. */
  lemma CountStart(a0: seq<Arc>, s0: seq<Arc>)
    requires |s0| == |a0| && forall x | 0 <= x < |a0| :: s0[x] == a0[x].(isVisited := false)
    requires NoRepeats(IdsOf(a0)) && Permutes(NextsOf(a0), RemovedOf(a0))
    ensures CountProgress(s0, s0, 0, 0)
    ensures NextsOf(s0) == NextsOf(a0) && RemovedOf(s0) == RemovedOf(a0)
  {
    assert VisitedOnly(a0, s0);
    VisitedOnlyViews(a0, s0);
  }

  /** Arc i: a walk starts exactly when it is live and unvisited, and it
      marks i's loop. */
  lemma CountStep(s0: seq<Arc>, t: seq<Arc>, t': seq<Arc>, i: int, n: int)
    requires CountProgress(s0, t, i, n) && i < |s0|
    requires !t[i].isVisited && !t[i].isRemoved ==>
      VisitedOnly(s0, t') && VisitedOf(t') == Mark(VisitedOf(t), LoopOf(NextsOf(s0), RemovedOf(s0), i))
    requires t[i].isVisited || t[i].isRemoved ==> t' == t
    ensures CountProgress(s0, t', i + 1, n + if !t[i].isVisited && !t[i].isRemoved then 1 else 0)
  {
    assert t[i].isRemoved == RemovedOf(s0)[i] && t[i].isVisited == VisitedOf(t)[i];
    VisitStep(NextsOf(s0), RemovedOf(s0), VisitedOf(t), VisitedOf(t'), i);
  }

  /** At the end n counts the distinct loops, and exactly the live arcs
      are marked visited. */
  lemma CountDone(a0: seq<Arc>, s0: seq<Arc>, t: seq<Arc>, n: int)
    requires |s0| == |a0| && forall x | 0 <= x < |a0| :: s0[x] == a0[x].(isVisited := false)
    requires CountProgress(s0, t, |s0|, n)
    ensures NextsOf(s0) == NextsOf(a0) && RemovedOf(s0) == RemovedOf(a0)
    ensures n == |LoopsBelow(NextsOf(a0), RemovedOf(a0), |a0|)|
    ensures forall x | 0 <= x < |a0| :: t[x] == a0[x].(isVisited := !a0[x].isRemoved)
  {
    assert VisitedOnly(a0, s0);
    VisitedOnlyViews(a0, s0);
    var nx, rm := NextsOf(s0), RemovedOf(s0);
    LeadersCountLoops(nx, rm, |s0|);
    LeaderLoopsAll(nx, rm);
    forall x | 0 <= x < |a0|
      ensures t[x] == a0[x].(isVisited := !a0[x].isRemoved)
    {
      assert VisitedOf(t)[x] == t[x].isVisited && rm[x] == s0[x].isRemoved;
    }
  }

  lemma VisitedOnlyViews(s: seq<Arc>, t: seq<Arc>)
    requires VisitedOnly(s, t)
    ensures IdsOf(t) == IdsOf(s) && ParentsOf(t) == ParentsOf(s)
    ensures NextsOf(t) == NextsOf(s) && PrevsOf(t) == PrevsOf(s) && RemovedOf(t) == RemovedOf(s)
  {
  }

  /** t differs from s in parents at most. */
  predicate ParentsOnly(s: seq<Arc>, t: seq<Arc>)
  {
    |s| == |t| && forall x | 0 <= x < |s| :: t[x] == s[x].(parent := t[x].parent)
  }

  /** t differs from s in parents and ranks at most. */
  predicate RanksAndParentsOnly(s: seq<Arc>, t: seq<Arc>)
  {
    |s| == |t| && forall x | 0 <= x < |s| :: t[x] == s[x].(parent := t[x].parent, rank := t[x].rank)
  }

  lemma ParentsOnlyViews(s: seq<Arc>, t: seq<Arc>)
    requires ParentsOnly(s, t)
    ensures RanksAndParentsOnly(s, t)
    ensures IdsOf(t) == IdsOf(s) && NextsOf(t) == NextsOf(s) && PrevsOf(t) == PrevsOf(s) && RemovedOf(t) == RemovedOf(s)
  {
  }

  lemma RanksAndParentsViews(s: seq<Arc>, t: seq<Arc>)
    requires RanksAndParentsOnly(s, t)
    ensures IdsOf(t) == IdsOf(s) && NextsOf(t) == NextsOf(s) && PrevsOf(t) == PrevsOf(s) && RemovedOf(t) == RemovedOf(s)
  {
  }

  /** getRoot's write on the arcs: x pointed at its root keeps the forest,
      every root and everything but parents. */
  lemma CompressArc(s: seq<Arc>, lv: seq<int>, bound: int, x: int)
    requires Forest(ParentsOf(s), lv, bound) && 0 <= x < |s|
    ensures var t := s[x := s[x].(parent := Root(ParentsOf(s), lv, bound, x))];
      Forest(ParentsOf(t), lv, bound) && Roots(ParentsOf(t), lv, bound) == Roots(ParentsOf(s), lv, bound)
      && ParentsOnly(s, t) && IdsOf(t) == IdsOf(s) && NextsOf(t) == NextsOf(s) && PrevsOf(t) == PrevsOf(s)
  {
    var par := ParentsOf(s);
    var t := s[x := s[x].(parent := Root(par, lv, bound, x))];
    assert ParentsOf(t) == par[x := Root(par, lv, bound, x)];
    Compress(par, lv, bound, x);
    ParentsOnlyViews(s, t);
    assert Roots(ParentsOf(t), lv, bound) == Roots(par, lv, bound);
  }

  /** unionArcs' writes on the arcs: root b under root a, a's rank grown
      by b's. */
  lemma LinkArcs(s: seq<Arc>, lv: seq<int>, bound: int, a: int, b: int)
    requires Forest(ParentsOf(s), lv, bound) && 0 <= a < |s| && 0 <= b < |s|
    requires s[a].parent == a && s[b].parent == b && a != b
    ensures var t := s[a := s[a].(rank := s[a].rank + s[b].rank)][b := s[b].(parent := a)];
      Forest(ParentsOf(t), LinkLevels(lv, a, b), LinkBound(lv, bound, b))
      && Roots(ParentsOf(t), LinkLevels(lv, a, b), LinkBound(lv, bound, b)) == Merge(Roots(ParentsOf(s), lv, bound), a, b)
      && RanksAndParentsOnly(s, t) && IdsOf(t) == IdsOf(s) && NextsOf(t) == NextsOf(s) && PrevsOf(t) == PrevsOf(s)
      && forall y | 0 <= y < |s| && y != a :: t[y].rank == s[y].rank
  {
    var par := ParentsOf(s);
    var t := s[a := s[a].(rank := s[a].rank + s[b].rank)][b := s[b].(parent := a)];
    assert ParentsOf(t) == LinkParents(par, a, b);
    Link(par, lv, bound, a, b);
    RanksAndParentsViews(s, t);
    assert Roots(ParentsOf(t), LinkLevels(lv, a, b), LinkBound(lv, bound, b)) == Merge(Roots(par, lv, bound), a, b);
  }

  lemma ParentsOnlyTrans(s: seq<Arc>, t: seq<Arc>, u: seq<Arc>)
    requires ParentsOnly(s, t) && ParentsOnly(t, u)
    ensures ParentsOnly(s, u)
  {
  }

  lemma RanksAndParentsTrans(s: seq<Arc>, t: seq<Arc>, u: seq<Arc>)
    requires ParentsOnly(s, t) && RanksAndParentsOnly(t, u)
    ensures RanksAndParentsOnly(s, u)
  {
  }

  /** Every pointer is an arc of n. */
  predicate InRange(s: seq<int>, n: int)
  {
    |s| == n && forall x | 0 <= x < n :: 0 <= s[x] < n
  }

  // ---------------------------------------------------------- the loops

  /** Arc x, if not removed, is linked both ways to live neighbours. */
  predicate LinkedAt(nx: seq<int>, pv: seq<int>, rm: seq<bool>, x: int)
    requires InRange(nx, |rm|) && InRange(pv, |rm|) && 0 <= x < |rm|
  {
    !rm[x] ==> !rm[nx[x]] && pv[nx[x]] == x && !rm[pv[x]] && nx[pv[x]] == x
  }

  /** The loops are consistent doubly-linked cycles among the arcs not
      removed. */
  predicate Linked(nx: seq<int>, pv: seq<int>, rm: seq<bool>)
    requires InRange(nx, |rm|) && InRange(pv, |rm|)
  {
    forall x | 0 <= x < |rm| :: LinkedAt(nx, pv, rm, x)
  }

  /** The four pointer writes of cancelArcPairs, in the source's order,
      each reading the pointers as the writes before it left them; the
      result is the new (next, prev). */
  function Splice(nx: seq<int>, pv: seq<int>, a: int, b: int): (r: (seq<int>, seq<int>))
    requires InRange(nx, |nx|) && InRange(pv, |nx|) && 0 <= a < |nx| && 0 <= b < |nx|
    ensures InRange(r.0, |nx|) && InRange(r.1, |nx|)
  {
    var p1 := pv[nx[a] := pv[b]];
    var n1 := nx[p1[a] := nx[b]];
    var p2 := p1[n1[b] := p1[a]];
    var n2 := n1[p2[b] := n1[a]];
    (n2, p2)
  }

  /** Removing two distinct live arcs, neither its own successor, keeps
      the loops consistent: a's predecessor now leads to b's successor and
      b's predecessor to a's successor, whichever of them coincide. */
  lemma SpliceLinked(nx: seq<int>, pv: seq<int>, rm: seq<bool>, a: int, b: int)
    requires InRange(nx, |rm|) && InRange(pv, |rm|) && Linked(nx, pv, rm)
    requires 0 <= a < |rm| && 0 <= b < |rm| && a != b && !rm[a] && !rm[b] && nx[a] != a && nx[b] != b
    ensures Linked(Splice(nx, pv, a, b).0, Splice(nx, pv, a, b).1, rm[a := true][b := true])
  {
    var r := Splice(nx, pv, a, b);
    var rm' := rm[a := true][b := true];
    assert LinkedAt(nx, pv, rm, a) && LinkedAt(nx, pv, rm, b);
    assert LinkedAt(nx, pv, rm, nx[a]) && LinkedAt(nx, pv, rm, pv[a]);
    assert LinkedAt(nx, pv, rm, nx[b]) && LinkedAt(nx, pv, rm, pv[b]);
    forall x | 0 <= x < |rm|
      ensures LinkedAt(r.0, r.1, rm', x)
    {
      assert LinkedAt(nx, pv, rm, x);
      assert LinkedAt(nx, pv, rm, nx[x]) && LinkedAt(nx, pv, rm, pv[x]);
    }
  }

  /** Loops linked both ways make next one-to-one on the live arcs. */
  lemma LinkedPermutes(nx: seq<int>, pv: seq<int>, rm: seq<bool>)
    requires InRange(nx, |rm|) && InRange(pv, |rm|) && Linked(nx, pv, rm)
    ensures Permutes(nx, rm)
  {
    forall x | 0 <= x < |nx| && !rm[x]
      ensures !rm[nx[x]]
    {
      assert LinkedAt(nx, pv, rm, x);
    }
    forall x, y | 0 <= x < |nx| && 0 <= y < |nx|
      ensures OneToOneAt(nx, rm, x, y)
    {
      assert LinkedAt(nx, pv, rm, x) && LinkedAt(nx, pv, rm, y);
    }
  }

  /** Why SpliceLinked needs its last hypothesis: arc 0 alone in its loop
      and arcs 1 and 2 in a loop of two; removing 0 and 1 leaves arc 2
      pointing at the removed arc 0. */
  lemma SpliceLoneSelfLoop()
    ensures !Linked(Splice([0, 2, 1], [0, 2, 1], 0, 1).0, Splice([0, 2, 1], [0, 2, 1], 0, 1).1,
                    [false, false, false][0 := true][1 := true])
  {
    var r := Splice([0, 2, 1], [0, 2, 1], 0, 1);
    var rm := [false, false, false][0 := true][1 := true];
    var nx, pv := [0, 2, 1], [0, 2, 1];
    var p1 := pv[nx[0] := pv[1]];
    assert p1 == [2, 2, 1];
    var n1 := nx[p1[0] := nx[1]];
    assert n1 == [0, 2, 2];
    var p2 := p1[n1[1] := p1[0]];
    assert p2 == [2, 2, 2];
    var n2 := n1[p2[1] := n1[0]];
    assert n2 == [0, 2, 0];
    assert r == (n2, p2);
    assert rm == [true, true, false];
    assert !LinkedAt(r.0, r.1, rm, 2);
  }

  // ------------------------------------------------ the bucket table

  /** Every bucket holds NULL or an arc, no arc twice, and linear probing
      finds every stored arc. */
  ghost predicate Buckets(ids: seq<H3Index>, bk: seq<int>)
  {
    (forall p | 0 <= p < |bk| :: NO_ARC <= bk[p] < |ids|)
    && (forall p, q | 0 <= p < q < |bk| && bk[p] != NO_ARC :: bk[p] != bk[q])
    && forall p | 0 <= p < |bk| :: ProbedAt(ids, bk, p)
  }

  /** The buckets between the hash of the id stored at p and p are taken. */
  ghost predicate ProbedAt(ids: seq<H3Index>, bk: seq<int>, p: int)
    requires 0 <= p < |bk| && NO_ARC <= bk[p] < |ids|
  {
    bk[p] != NO_ARC ==>
      forall j | 0 <= j < Steps(HashEdge(ids[bk[p]], |bk|), p, |bk|) ::
        bk[Slot(HashEdge(ids[bk[p]], |bk|), j, |bk|)] != NO_ARC
  }

  /** The number of NULL buckets. */
  function FreeBuckets(bk: seq<int>): (r: int)
    ensures 0 <= r <= |bk|
  {
    if bk == [] then 0
    else FreeBuckets(bk[..|bk| - 1]) + (if bk[|bk| - 1] == NO_ARC then 1 else 0)
  }

  lemma {:induction false} FreeBucketsAll(bk: seq<int>)
    requires forall p | 0 <= p < |bk| :: bk[p] == NO_ARC
    ensures FreeBuckets(bk) == |bk|
  {
    if bk != [] {
      FreeBucketsAll(bk[..|bk| - 1]);
    }
  }

  lemma {:induction false} FreeBucketsStore(bk: seq<int>, p: int, v: int)
    requires 0 <= p < |bk| && bk[p] == NO_ARC && v != NO_ARC
    ensures FreeBuckets(bk[p := v]) == FreeBuckets(bk) - 1
  {
    var n := |bk|;
    if p < n - 1 {
      assert bk[p := v][..n - 1] == bk[..n - 1][p := v];
      FreeBucketsStore(bk[..n - 1], p, v);
    } else {
      assert bk[p := v][..n - 1] == bk[..n - 1];
    }
  }

  lemma {:induction false} FreeBucketWitness(bk: seq<int>)
    requires FreeBuckets(bk) > 0
    ensures NO_ARC in bk
  {
    var n := |bk|;
    if bk[n - 1] != NO_ARC {
      FreeBucketWitness(bk[..n - 1]);
      assert NO_ARC in bk[..n - 1];
    } else {
      assert bk[n - 1] == NO_ARC;
    }
  }

  lemma EmptyBuckets(ids: seq<H3Index>, bk: seq<int>)
    requires forall p | 0 <= p < |bk| :: bk[p] == NO_ARC
    ensures Buckets(ids, bk)
  {
  }

  /** A probe for e that passed t buckets holding other ids and reached a
      NULL bucket shows that no stored arc has id e. */
  lemma ProbeMissArc(ids: seq<H3Index>, bk: seq<int>, e: H3Index, t: int)
    requires Buckets(ids, bk) && 0 <= t < |bk|
    requires forall j | 0 <= j < t ::
      bk[Slot(HashEdge(e, |bk|), j, |bk|)] != NO_ARC && ids[bk[Slot(HashEdge(e, |bk|), j, |bk|)]] != e
    requires bk[Slot(HashEdge(e, |bk|), t, |bk|)] == NO_ARC
    ensures forall q | 0 <= q < |bk| && bk[q] != NO_ARC :: ids[bk[q]] != e
  {
    var n, home := |bk|, HashEdge(e, |bk|);
    forall q | 0 <= q < n && bk[q] != NO_ARC
      ensures ids[bk[q]] != e
    {
      assert ProbedAt(ids, bk, q);
      var h := HashEdge(ids[bk[q]], n);
      var s := Steps(h, q, n);
      if t < s {
        assert bk[Slot(h, t, n)] != NO_ARC;
      } else if s < t {
        assert Slot(h, s, n) == q;
      }
    }
  }

  lemma SlotDistinct(home: int, i: int, j: int, n: int)
    requires 0 <= home < n && 0 <= i < n && 0 <= j < n && i != j
    ensures Slot(home, i, n) != Slot(home, j, n)
  {
  }

  /** Storing arc i in the NULL bucket its probe reached keeps the table,
      given that i was not stored yet. */
  lemma StoreArc(ids: seq<H3Index>, bk: seq<int>, i: int, t: int)
    requires Buckets(ids, bk) && 0 <= i < |ids| && 0 <= t < |bk| && i !in bk
    requires forall j | 0 <= j < t :: bk[Slot(HashEdge(ids[i], |bk|), j, |bk|)] != NO_ARC
    requires bk[Slot(HashEdge(ids[i], |bk|), t, |bk|)] == NO_ARC
    ensures Buckets(ids, bk[Slot(HashEdge(ids[i], |bk|), t, |bk|) := i])
  {
    var n, home := |bk|, HashEdge(ids[i], |bk|);
    var off := Slot(home, t, n);
    var bk' := bk[off := i];
    forall p, q | 0 <= p < q < n && bk'[p] != NO_ARC
      ensures bk'[p] != bk'[q]
    {
      if p != off && q != off {
        assert bk'[p] == bk[p] && bk'[q] == bk[q];
      } else if p == off {
        assert bk[q] in bk;
      } else {
        assert bk[p] in bk;
      }
    }
    forall p | 0 <= p < n
      ensures ProbedAt(ids, bk', p)
    {
      if p == off {
        forall j | 0 <= j < Steps(home, p, n)
          ensures bk'[Slot(home, j, n)] != NO_ARC
        {
          SlotInjective(home, Steps(home, off, n), t, n);
          SlotDistinct(home, j, t, n);
        }
      } else {
        assert ProbedAt(ids, bk, p);
        assert bk'[p] == bk[p];
      }
    }
  }

  /** Storing arc i in a NULL bucket extends the stored arcs by i. */
  lemma StoredStep(bk: seq<int>, i: int, j: int)
    requires StoredBelow(bk, i) && 0 <= j < |bk| && bk[j] == NO_ARC && i >= 0
    ensures StoredBelow(bk[j := i], i + 1)
  {
    var bk' := bk[j := i];
    forall a | 0 <= a < i + 1
      ensures a in bk'
    {
      if a < i {
        assert a in bk;
        var q :| 0 <= q < |bk| && bk[q] == a;
        assert bk'[q] == a;
      } else {
        assert bk'[j] == a;
      }
    }
  }

  /** One linear-probing step, j := (j + 1) % n, is one more step along
      the probe from home. */
  lemma ProbeStep(home: int, t: int, j: int, n: int)
    requires 0 <= home < n && 0 <= t < n - 1 && j == Slot(home, t, n)
    ensures (j + 1) % n == Slot(home, t + 1, n)
  {
    if j + 1 < n {
      assert (j + 1) % n == j + 1;
    } else {
      assert j + 1 == n;
      assert (j + 1) % n == 0;
    }
  }

  /** The arcs before i are stored and no other. */
  ghost predicate StoredBelow(bk: seq<int>, i: int)
  {
    (forall p | 0 <= p < |bk| :: bk[p] < i) && forall a | 0 <= a < i :: a in bk
  }

  // ------------------------------------------------------ reverse pairs

  /** The first arc with id e, or NO_ARC. */
  function Position(ids: seq<H3Index>, e: H3Index): (r: int)
    ensures NO_ARC <= r < |ids|
    ensures r == NO_ARC <==> e !in ids
    ensures r != NO_ARC ==> ids[r] == e
  {
    if ids == [] then NO_ARC
    else if ids[0] == e then 0
    else
      var p := Position(ids[1..], e);
      if p == NO_ARC then NO_ARC else p + 1
  }

  lemma {:induction false} PositionOf(ids: seq<H3Index>, x: int)
    requires NoRepeats(ids) && 0 <= x < |ids|
    ensures Position(ids, ids[x]) == x
  {
    var r := Position(ids, ids[x]);
    assert ids[r] == ids[x];
  }

  /** What the geometry promises of the ids and of reverseDirectedEdge:
      no id twice, no edge its own reverse, and reversing a reverse that is
      present gives the edge back. */
  predicate Pairing(ids: seq<H3Index>, reverse: H3Index -> H3Index)
  {
    NoRepeats(ids)
    && forall x | 0 <= x < |ids| ::
      reverse(ids[x]) != ids[x] && (reverse(ids[x]) in ids ==> reverse(reverse(ids[x])) == ids[x])
  }

  /** The arc whose id is the reverse of arc x's, or NO_ARC. */
  function Partner(ids: seq<H3Index>, reverse: H3Index -> H3Index, x: int): (r: int)
    requires 0 <= x < |ids|
    ensures NO_ARC <= r < |ids|
  {
    Position(ids, reverse(ids[x]))
  }

  /** Partners come in pairs of two different arcs. */
  lemma PartnerPair(ids: seq<H3Index>, reverse: H3Index -> H3Index, x: int)
    requires Pairing(ids, reverse) && 0 <= x < |ids| && Partner(ids, reverse, x) != NO_ARC
    ensures Partner(ids, reverse, x) != x
    ensures Partner(ids, reverse, Partner(ids, reverse, x)) == x
  {
    var b := Partner(ids, reverse, x);
    assert ids[b] == reverse(ids[x]);
    PositionOf(ids, x);
  }

  // ------------------------------------------------------------ filling

  /** The probe loop of createArcSet for arc i: from the hash of its id,
      step to the next bucket until a NULL one, and store i there. */
  method PlaceArc(arcs: array<Arc>, buckets: array<int>, i: int)
    requires arcs as object != buckets && 0 <= i < arcs.Length <= buckets.Length
    requires Buckets(IdsOf(arcs[..]), buckets[..]) && StoredBelow(buckets[..], i)
    requires FreeBuckets(buckets[..]) == buckets.Length - i
    modifies buckets
    ensures Buckets(IdsOf(arcs[..]), buckets[..]) && StoredBelow(buckets[..], i + 1)
    ensures FreeBuckets(buckets[..]) == buckets.Length - i - 1
  {
    ghost var ids, bk := IdsOf(arcs[..]), buckets[..];
    var n := buckets.Length;
    var home := HashEdge(arcs[i].id, n);
    FreeBucketWitness(bk);
    ghost var p0 :| 0 <= p0 < n && bk[p0] == NO_ARC;
    ghost var t0 := Steps(home, p0, n);
    var j := home;
    ghost var t := 0;
    while buckets[j] != NO_ARC
      invariant 0 <= t <= t0 && j == Slot(home, t, n)
      invariant forall q | 0 <= q < t :: bk[Slot(home, q, n)] != NO_ARC
      invariant buckets[..] == bk
      decreases t0 - t
    {
      ProbeStep(home, t, j, n);
      j := (j + 1) % n;
      t := t + 1;
    }
    assert i !in bk;
    StoreArc(ids, bk, i, t);
    FreeBucketsStore(bk, j, i);
    StoredStep(bk, i, j);
    buckets[j] := i;
    assert buckets[..] == bk[j := i];
  }

  /** With a multiplier of at least two there are more buckets than
      arcs, unless there are no arcs. */
  lemma BucketsOutnumber(n: int, multiplier: int)
    requires n >= 0 && multiplier >= 2
    ensures n <= n * multiplier && (n > 0 ==> n < n * multiplier)
  {
    assert n * multiplier == n * (multiplier - 2) + 2 * n;
    assert n * (multiplier - 2) >= 0;
  }

  /** The bucket loop of createArcSet: every arc placed in turn. */
  method FillBuckets(arcs: array<Arc>, buckets: array<int>)
    requires arcs as object != buckets && forall p | 0 <= p < buckets.Length :: buckets[p] == NO_ARC
    requires arcs.Length <= buckets.Length && (arcs.Length > 0 ==> arcs.Length < buckets.Length)
    modifies buckets
    ensures Buckets(IdsOf(arcs[..]), buckets[..]) && StoredBelow(buckets[..], arcs.Length)
    ensures arcs.Length > 0 ==> NO_ARC in buckets[..]
  {
    EmptyBuckets(IdsOf(arcs[..]), buckets[..]);
    FreeBucketsAll(buckets[..]);
    var i := 0;
    while i < arcs.Length
      invariant 0 <= i <= arcs.Length
      invariant Buckets(IdsOf(arcs[..]), buckets[..]) && StoredBelow(buckets[..], i)
      invariant FreeBuckets(buckets[..]) == buckets.Length - i
    {
      PlaceArc(arcs, buckets, i);
      i := i + 1;
    }
    if arcs.Length > 0 {
      FreeBucketWitness(buckets[..]);
    }
  }

  /** Each cell's loop starts as one component whose root is its first
      arc: roots on level 1, the other arcs on level 0. */
  function InitialLevels(arcs0: seq<Arc>): (r: seq<int>)
    ensures |r| == |arcs0|
  {
    seq(|arcs0|, x requires 0 <= x < |arcs0| => if arcs0[x].parent == x then 1 else 0)
  }

  /** The parents cellToEdgeArcs sets up, each pointing at its own root,
      form a forest whose roots are those parents. */
  lemma InitialForest(arcs0: seq<Arc>)
    requires forall x | 0 <= x < |arcs0| :: 0 <= arcs0[x].parent < |arcs0| && arcs0[arcs0[x].parent].parent == arcs0[x].parent
    ensures Forest(ParentsOf(arcs0), InitialLevels(arcs0), 1)
    ensures forall x | 0 <= x < |arcs0| :: Root(ParentsOf(arcs0), InitialLevels(arcs0), 1, x) == arcs0[x].parent
  {
    var par, lv := ParentsOf(arcs0), InitialLevels(arcs0);
    forall x | 0 <= x < |arcs0|
      ensures 0 <= par[x] < |par| && 0 <= lv[x] <= 1 && (par[x] == x || lv[par[x]] > lv[x])
    {
      assert par[par[x]] == par[x];
    }
    forall x | 0 <= x < |arcs0|
      ensures Root(par, lv, 1, x) == arcs0[x].parent
    {
      assert par[par[x]] == par[x];
    }
  }

  /** What cancelArcPairs has done so far: every removed arc has its
      reverse present, removed and in its own component. */
  predicate Cancelled(ids: seq<H3Index>, reverse: H3Index -> H3Index, rm: seq<bool>, c: seq<int>)
  {
    |rm| == |ids| && |c| == |ids|
    && forall x | 0 <= x < |ids| && rm[x] ::
      Partner(ids, reverse, x) != NO_ARC && rm[Partner(ids, reverse, x)] && c[x] == c[Partner(ids, reverse, x)]
  }

  /** The removed marks after cancelArcPairs looks at arc i. */
  function CancelMarks(ids: seq<H3Index>, reverse: H3Index -> H3Index, rm: seq<bool>, i: int): (r: seq<bool>)
    requires |rm| == |ids| && 0 <= i < |ids|
    ensures |r| == |rm|
  {
    var b := Partner(ids, reverse, i);
    if rm[i] || b == NO_ARC then rm else rm[i := true][b := true]
  }

  /** One step of cancelArcPairs keeps what it has done so far. */
  lemma CancelStep(ids: seq<H3Index>, reverse: H3Index -> H3Index, rm: seq<bool>, c: seq<int>, c': seq<int>, i: int)
    requires Pairing(ids, reverse) && 0 <= i < |ids| && Cancelled(ids, reverse, rm, c) && Coarser(c, c')
    requires !rm[i] && Partner(ids, reverse, i) != NO_ARC ==> c'[i] == c'[Partner(ids, reverse, i)]
    ensures Cancelled(ids, reverse, CancelMarks(ids, reverse, rm, i), c')
    ensures Partner(ids, reverse, i) != NO_ARC ==> CancelMarks(ids, reverse, rm, i)[i]
    ensures forall x | 0 <= x < |rm| && rm[x] :: CancelMarks(ids, reverse, rm, i)[x]
  {
    var rm' := CancelMarks(ids, reverse, rm, i);
    var b := Partner(ids, reverse, i);
    if !rm[i] && b != NO_ARC {
      PartnerPair(ids, reverse, i);
    }
    forall x | 0 <= x < |ids| && rm'[x]
      ensures Partner(ids, reverse, x) != NO_ARC && rm'[Partner(ids, reverse, x)] && c'[x] == c'[Partner(ids, reverse, x)]
    {
      if !rm[x] {
        assert x == i || x == b;
        if x == b {
          PartnerPair(ids, reverse, i);
        }
      }
    }
  }

  /** cancelArcPairs' loop before arc i: components only merged since c0,
      and, when pre holds, what is removed is cancelled and every arc
      before i that has its reverse is removed. */
  predicate CancelProgress(ids: seq<H3Index>, reverse: H3Index -> H3Index, pre: bool, c0: seq<int>, rm: seq<bool>, c: seq<int>, i: int)
  {
    Coarser(c0, c) && |rm| == |ids|
    && (pre ==> Cancelled(ids, reverse, rm, c) && forall x | 0 <= x < i && x < |ids| && Partner(ids, reverse, x) != NO_ARC :: rm[x])
  }

  lemma CancelProgressStep(ids: seq<H3Index>, reverse: H3Index -> H3Index, pre: bool, c0: seq<int>,
                           rm: seq<bool>, c: seq<int>, rm': seq<bool>, c': seq<int>, i: int)
    requires 0 <= i < |ids| && CancelProgress(ids, reverse, pre, c0, rm, c, i) && Coarser(c, c')
    requires pre ==> Pairing(ids, reverse) && rm' == CancelMarks(ids, reverse, rm, i)
    requires pre && !rm[i] && Partner(ids, reverse, i) != NO_ARC ==> c'[i] == c'[Partner(ids, reverse, i)]
    requires |rm'| == |ids|
    ensures CancelProgress(ids, reverse, pre, c0, rm', c', i + 1)
  {
    CoarserTrans(c0, c, c');
    if pre {
      CancelStep(ids, reverse, rm, c, c', i);
    }
  }

  // ----------------------------------------------------------- the set

  /** The bucket table over the arcs' ids: it finds every arc and keeps a
      NULL bucket. */
  ghost predicate Probing(ids: seq<H3Index>, bk: seq<int>)
  {
    Buckets(ids, bk) && StoredBelow(bk, |ids|) && (|ids| > 0 ==> NO_ARC in bk)
  }

  class ArcSet {
    const arcs: array<Arc>
    const buckets: array<int>
    /** The ids and the bucket table, which no operation after
        createArcSet changes. */
    ghost const ids: seq<H3Index>
    ghost const table: seq<int>
    /** Levels of the union-find forest, for termination only. */
    ghost var lv: seq<int>
    ghost var bound: int

    /** The table finds every arc and keeps a NULL bucket, the pointers are
        arcs, and the parents form a forest. */
    ghost predicate Valid()
      reads this, arcs, buckets
    {
      arcs as object != buckets && buckets[..] == table && IdsOf(arcs[..]) == ids && Probing(ids, table)
      && InRange(NextsOf(arcs[..]), arcs.Length) && InRange(PrevsOf(arcs[..]), arcs.Length)
      && Forest(ParentsOf(arcs[..]), lv, bound)
    }

    /** The root of every arc's component. */
    ghost function Components(): (r: seq<int>)
      requires Valid()
      reads this, arcs, buckets
      ensures |r| == arcs.Length && forall x | 0 <= x < arcs.Length :: 0 <= r[x] < arcs.Length && arcs[r[x]].parent == r[x]
    {
      Roots(ParentsOf(arcs[..]), lv, bound)
    }

    /** The component arc x belongs to. */
    ghost function RootOf(x: int): (r: int)
      requires Valid() && 0 <= x < arcs.Length
      reads this, arcs, buckets
      ensures 0 <= r < arcs.Length && arcs[r].parent == r
    {
      Components()[x]
    }

    /** createArcSet, given the arcs cellToEdgeArcs made: each parent is
        the root of its cell's loop; the buckets, multiplier times as many
        as the arcs, are filled by linear probing. */
    constructor(arcs0: seq<Arc>, multiplier: int)
      requires multiplier >= 2
      requires InRange(NextsOf(arcs0), |arcs0|) && InRange(PrevsOf(arcs0), |arcs0|)
      requires forall x | 0 <= x < |arcs0| :: 0 <= arcs0[x].parent < |arcs0| && arcs0[arcs0[x].parent].parent == arcs0[x].parent
      ensures Valid() && arcs[..] == arcs0 && buckets.Length == |arcs0| * multiplier
      ensures forall x | 0 <= x < |arcs0| :: RootOf(x) == arcs0[x].parent
    {
      var n := |arcs0|;
      var a := new Arc[n](i requires 0 <= i < n => arcs0[i]);
      var b := new int[n * multiplier](_ => NO_ARC);
      assert a[..] == arcs0;
      BucketsOutnumber(n, multiplier);
      FillBuckets(a, b);
      arcs, buckets := a, b;
      ids, table := IdsOf(arcs0), b[..];
      lv, bound := InitialLevels(arcs0), 1;
      InitialForest(arcs0);
      new;
    }

    /** findArc: the arc with id e, or NO_ARC when no arc has it. */
    method FindArc(e: H3Index) returns (r: int)
      requires Valid() && arcs.Length > 0
      ensures r != NO_ARC ==> 0 <= r < arcs.Length && arcs[r].id == e
      ensures r == NO_ARC ==> forall x | 0 <= x < arcs.Length :: arcs[x].id != e
    {
      ghost var bk := table;
      var n := buckets.Length;
      var home := HashEdge(e, n);
      ghost var p0 :| 0 <= p0 < n && bk[p0] == NO_ARC;
      ghost var t0 := Steps(home, p0, n);
      var j := home;
      ghost var t := 0;
      while buckets[j] != NO_ARC && arcs[buckets[j]].id != e
        invariant 0 <= t <= t0 && j == Slot(home, t, n)
        invariant forall q | 0 <= q < t :: bk[Slot(home, q, n)] != NO_ARC && ids[bk[Slot(home, q, n)]] != e
        decreases t0 - t
      {
        ProbeStep(home, t, j, n);
        j := (j + 1) % n;
        t := t + 1;
      }
      r := buckets[j];
      if r == NO_ARC {
        ProbeMissArc(ids, bk, e, t);
        forall x | 0 <= x < arcs.Length
          ensures arcs[x].id != e
        {
          assert x in bk;
          var q :| 0 <= q < n && bk[q] == x;
          assert ids[bk[q]] != e;
        }
      }
    }

    /** getRoot: the root of x's component, with x pointed straight at it
        (and, by the recursion, every arc on the way). Components and
        everything but parents stay as they were. */
    method GetRoot(x: int) returns (r: int)
      requires Valid() && 0 <= x < arcs.Length
      modifies arcs
      ensures Valid() && Components() == old(Components())
      ensures r == old(RootOf(x)) && arcs[x].parent == r
      ensures ParentsOnly(old(arcs[..]), arcs[..])
      decreases bound - lv[x]
    {
      var p := arcs[x].parent;
      assert ParentsOf(arcs[..])[x] == p;
      if p == x {
        return x;
      }
      assert RootOf(x) == RootOf(p);
      r := GetRoot(p);
      ghost var s := arcs[..];
      CompressArc(s, lv, bound, x);
      SetParent(x, r);
    }

    method SetParent(x: int, r: int)
      requires 0 <= x < arcs.Length
      modifies arcs
      ensures arcs[..] == old(arcs[..])[x := old(arcs[x]).(parent := r)]
    {
      arcs[x] := arcs[x].(parent := r);
    }

    /** unionArcs' two writes, b's rank added to a's and b put under a,
        with the levels that keep the forest. */
    method LinkRoots(a: int, b: int, ghost s: seq<Arc>)
      requires 0 <= a < arcs.Length && 0 <= b < arcs.Length && a != b && arcs[..] == s
      requires |lv| == arcs.Length
      modifies this, arcs
      ensures arcs[..] == s[a := s[a].(rank := s[a].rank + s[b].rank)][b := s[b].(parent := a)]
      ensures lv == LinkLevels(old(lv), a, b) && bound == LinkBound(old(lv), old(bound), b)
    {
      arcs[a] := arcs[a].(rank := arcs[a].rank + arcs[b].rank);
      arcs[b] := arcs[b].(parent := a);
      lv, bound := LinkLevels(lv, a, b), LinkBound(lv, bound, b);
    }

    /** The single writes of the splice, each stated on the pointer
        views; s0 is the arcs before the splice, whose ids, parents, ranks
        and visited marks no write touches. */
    method SetPrev(x: int, v: int, ghost s0: seq<Arc>)
      requires 0 <= x < arcs.Length && SameCore(s0, arcs[..])
      modifies arcs
      ensures SameCore(s0, arcs[..]) && RemovedOf(arcs[..]) == old(RemovedOf(arcs[..]))
      ensures NextsOf(arcs[..]) == old(NextsOf(arcs[..])) && PrevsOf(arcs[..]) == old(PrevsOf(arcs[..]))[x := v]
    {
      ghost var s := arcs[..];
      arcs[x] := arcs[x].(prev := v);
      assert arcs[..] == s[x := s[x].(prev := v)];
      PrevWrite(s, x, v);
      SameCoreTrans(s0, s, arcs[..]);
    }

    method SetNext(x: int, v: int, ghost s0: seq<Arc>)
      requires 0 <= x < arcs.Length && SameCore(s0, arcs[..])
      modifies arcs
      ensures SameCore(s0, arcs[..]) && RemovedOf(arcs[..]) == old(RemovedOf(arcs[..]))
      ensures NextsOf(arcs[..]) == old(NextsOf(arcs[..]))[x := v] && PrevsOf(arcs[..]) == old(PrevsOf(arcs[..]))
    {
      ghost var s := arcs[..];
      arcs[x] := arcs[x].(next := v);
      assert arcs[..] == s[x := s[x].(next := v)];
      NextWrite(s, x, v);
      SameCoreTrans(s0, s, arcs[..]);
    }

    method MarkRemoved(x: int, ghost s0: seq<Arc>)
      requires 0 <= x < arcs.Length && SameCore(s0, arcs[..])
      modifies arcs
      ensures SameCore(s0, arcs[..]) && RemovedOf(arcs[..]) == old(RemovedOf(arcs[..]))[x := true]
      ensures NextsOf(arcs[..]) == old(NextsOf(arcs[..])) && PrevsOf(arcs[..]) == old(PrevsOf(arcs[..]))
    {
      ghost var s := arcs[..];
      arcs[x] := arcs[x].(isRemoved := true);
      assert arcs[..] == s[x := s[x].(isRemoved := true)];
      RemovedWrite(s, x);
      SameCoreTrans(s0, s, arcs[..]);
    }

    lemma PointersIn()
      requires InRange(NextsOf(arcs[..]), arcs.Length) && InRange(PrevsOf(arcs[..]), arcs.Length)
      ensures forall x | 0 <= x < arcs.Length :: 0 <= arcs[x].next < arcs.Length && 0 <= arcs[x].prev < arcs.Length
    {
      forall x | 0 <= x < arcs.Length
        ensures 0 <= arcs[x].next < arcs.Length && 0 <= arcs[x].prev < arcs.Length
      {
        assert NextsOf(arcs[..])[x] == arcs[x].next && PrevsOf(arcs[..])[x] == arcs[x].prev;
      }
    }

    /** The four pointer writes of cancelArcPairs, in their order, each
        reading the pointers the ones before it left. */
    method StitchLoops(a: int, b: int, ghost s0: seq<Arc>)
      requires 0 <= a < arcs.Length && 0 <= b < arcs.Length && SameCore(s0, arcs[..])
      requires InRange(NextsOf(arcs[..]), arcs.Length) && InRange(PrevsOf(arcs[..]), arcs.Length)
      modifies arcs
      ensures SameCore(s0, arcs[..]) && RemovedOf(arcs[..]) == old(RemovedOf(arcs[..]))
      ensures (NextsOf(arcs[..]), PrevsOf(arcs[..])) == Splice(old(NextsOf(arcs[..])), old(PrevsOf(arcs[..])), a, b)
    {
      ghost var nx, pv := NextsOf(arcs[..]), PrevsOf(arcs[..]);
      ghost var p1 := pv[nx[a] := pv[b]];
      ghost var n1 := nx[p1[a] := nx[b]];
      ghost var p2 := p1[n1[b] := p1[a]];
      PointersIn();
      SetPrev(arcs[a].next, arcs[b].prev, s0);
      assert PrevsOf(arcs[..]) == p1 && NextsOf(arcs[..]) == nx;
      PointersIn();
      SetNext(arcs[a].prev, arcs[b].next, s0);
      assert PrevsOf(arcs[..]) == p1 && NextsOf(arcs[..]) == n1;
      PointersIn();
      SetPrev(arcs[b].next, arcs[a].prev, s0);
      assert PrevsOf(arcs[..]) == p2 && NextsOf(arcs[..]) == n1;
      PointersIn();
      SetNext(arcs[b].prev, arcs[a].next, s0);
    }

    /** The removal of a pair in cancelArcPairs: both arcs marked removed
        and the two loops stitched together where they met. Nothing else
        changes. */
    method RemovePair(a: int, b: int)
      requires Valid() && 0 <= a < arcs.Length && 0 <= b < arcs.Length
      modifies arcs
      ensures Valid() && Components() == old(Components())
      ensures (NextsOf(arcs[..]), PrevsOf(arcs[..])) == Splice(old(NextsOf(arcs[..])), old(PrevsOf(arcs[..])), a, b)
      ensures RemovedOf(arcs[..]) == old(RemovedOf(arcs[..]))[a := true][b := true]
      ensures SameCore(old(arcs[..]), arcs[..])
    {
      ghost var s0 := arcs[..];
      MarkRemoved(a, s0);
      MarkRemoved(b, s0);
      StitchLoops(a, b, s0);
      SameCoreViews(s0, arcs[..]);
    }

    /** The link unionArcs makes between two roots: the one of larger
        rank (ra on a tie) stays a root, takes the other under it and adds
        its rank. */
    method LinkComponents(ra: int, rb: int)
      requires Valid() && 0 <= ra < arcs.Length && 0 <= rb < arcs.Length
      requires arcs[ra].parent == ra && arcs[rb].parent == rb
      modifies this, arcs
      ensures Valid()
      ensures var (w, l) := if old(arcs[ra].rank) < old(arcs[rb].rank) then (rb, ra) else (ra, rb);
        Components() == Merge(old(Components()), w, l)
        && arcs[w].rank == (if ra == rb then old(arcs[w].rank) else old(arcs[w].rank + arcs[l].rank))
        && forall y | 0 <= y < arcs.Length && y != w :: arcs[y].rank == old(arcs[y].rank)
      ensures RanksAndParentsOnly(old(arcs[..]), arcs[..])
    {
      ghost var s := arcs[..];
      assert ParentsOf(s)[ra] == ra && ParentsOf(s)[rb] == rb;
      var w, l := ra, rb;
      if arcs[ra].rank < arcs[rb].rank {
        w, l := rb, ra;
      }
      if w != l {
        LinkArcs(s, lv, bound, w, l);
        LinkRoots(w, l, s);
      } else {
        assert Merge(Components(), w, l) == Components();
        ParentsOnlyViews(s, s);
      }
    }

    /** unionArcs: after it a and b share a root. When their roots
        differed, the one of larger rank (a's on a tie) becomes the root of
        both components and its rank the sum of the two; no other component
        changes. */
    method UnionArcs(a: int, b: int)
      requires Valid() && 0 <= a < arcs.Length && 0 <= b < arcs.Length
      modifies this, arcs
      ensures Valid() && RootOf(a) == RootOf(b)
      ensures var ra, rb := old(RootOf(a)), old(RootOf(b));
        if old(arcs[ra].rank) < old(arcs[rb].rank) then
          Components() == Merge(old(Components()), rb, ra)
          && (ra != rb ==> arcs[rb].rank == old(arcs[ra].rank + arcs[rb].rank))
        else
          Components() == Merge(old(Components()), ra, rb)
          && (ra != rb ==> arcs[ra].rank == old(arcs[ra].rank + arcs[rb].rank))
      ensures forall y | 0 <= y < arcs.Length && y != RootOf(a) :: arcs[y].rank == old(arcs[y].rank)
      ensures RanksAndParentsOnly(old(arcs[..]), arcs[..])
    {
      ghost var s0 := arcs[..];
      var ra := GetRoot(a);
      ghost var s1 := arcs[..];
      var rb := GetRoot(b);
      ghost var s2 := arcs[..];
      ParentsOnlyTrans(s0, s1, s2);
      assert arcs[ra].rank == s0[ra].rank && arcs[rb].rank == s0[rb].rank;
      LinkComponents(ra, rb);
      RanksAndParentsTrans(s0, s2, arcs[..]);
    }

    /** One pass of cancelArcPairs' loop at arc i: a live arc whose reverse
        edge is in the set is removed with that arc, their loops are
        stitched together and their components joined; otherwise nothing
        changes. */
    method CancelAt(i: int, reverse: H3Index -> H3Index)
      requires Valid() && 0 <= i < arcs.Length
      modifies this, arcs
      ensures Valid() && Coarser(old(Components()), Components())
      ensures NoRepeats(ids) ==> RemovedOf(arcs[..]) == CancelMarks(ids, reverse, old(RemovedOf(arcs[..])), i)
      ensures NoRepeats(ids) && !old(arcs[i].isRemoved) && Partner(ids, reverse, i) != NO_ARC ==>
        RootOf(i) == RootOf(Partner(ids, reverse, i))
        && (NextsOf(arcs[..]), PrevsOf(arcs[..])) == Splice(old(NextsOf(arcs[..])), old(PrevsOf(arcs[..])), i, Partner(ids, reverse, i))
    {
      if arcs[i].isRemoved {
        return;
      }
      assert arcs[i].id == ids[i];
      var b := FindArc(reverse(arcs[i].id));
      if b == NO_ARC {
        assert reverse(ids[i]) !in ids by {
          forall x | 0 <= x < |ids|
            ensures ids[x] != reverse(ids[i])
          {
            assert ids[x] == arcs[x].id;
          }
        }
        return;
      }
      if NoRepeats(ids) {
        assert ids[b] == reverse(ids[i]);
        PositionOf(ids, b);
      }
      ghost var c0 := Components();
      RemovePair(i, b);
      ghost var s1 := arcs[..];
      UnionArcs(i, b);
      RanksAndParentsViews(s1, arcs[..]);
      MergeCoarser(c0, RootOf(i), c0[i]);
      MergeCoarser(c0, RootOf(i), c0[b]);
    }

    /** cancelArcPairs: every arc whose reverse edge is in the set is
        removed; components only merge. When the ids are distinct, reverse
        pairs them up and no arc was removed before, exactly the arcs whose
        reverse is present end removed, each in one component with its
        reverse. */
    method CancelArcPairs(reverse: H3Index -> H3Index)
      requires Valid()
      modifies this, arcs
      ensures Valid() && Coarser(old(Components()), Components())
      ensures Pairing(ids, reverse) && old(forall x | 0 <= x < arcs.Length :: !arcs[x].isRemoved) ==>
        Cancelled(ids, reverse, RemovedOf(arcs[..]), Components())
        && forall x | 0 <= x < arcs.Length :: arcs[x].isRemoved <==> Partner(ids, reverse, x) != NO_ARC
    {
      ghost var pre := Pairing(ids, reverse) && forall x | 0 <= x < arcs.Length :: !arcs[x].isRemoved;
      ghost var c0 := Components();
      var i := 0;
      while i < arcs.Length
        invariant 0 <= i <= arcs.Length && Valid()
        invariant CancelProgress(ids, reverse, pre, c0, RemovedOf(arcs[..]), Components(), i)
      {
        ghost var rm, c := RemovedOf(arcs[..]), Components();
        assert rm[i] == arcs[i].isRemoved;
        CancelAt(i, reverse);
        CancelProgressStep(ids, reverse, pre, c0, rm, c, RemovedOf(arcs[..]), Components(), i);
        i := i + 1;
      }
      assert forall x | 0 <= x < arcs.Length :: RemovedOf(arcs[..])[x] == arcs[x].isRemoved;
    }

    /** resetVisited: every visited mark cleared, nothing else changed. */
    method ResetVisited()
      requires Valid()
      modifies arcs
      ensures Valid() && Components() == old(Components())
      ensures forall x | 0 <= x < arcs.Length :: arcs[x] == old(arcs[x]).(isVisited := false)
    {
      ghost var s0 := arcs[..];
      for i := 0 to arcs.Length
        invariant forall x | 0 <= x < i :: arcs[x] == s0[x].(isVisited := false)
        invariant forall x | i <= x < arcs.Length :: arcs[x] == s0[x]
      {
        arcs[i] := arcs[i].(isVisited := false);
      }
      assert VisitedOnly(s0, arcs[..]);
      VisitedOnlyViews(s0, arcs[..]);
    }

    method MarkVisited(x: int, ghost s0: seq<Arc>)
      requires 0 <= x < arcs.Length && VisitedOnly(s0, arcs[..])
      modifies arcs
      ensures VisitedOnly(s0, arcs[..]) && VisitedOf(arcs[..]) == old(VisitedOf(arcs[..]))[x := true]
    {
      ghost var s := arcs[..];
      arcs[x] := arcs[x].(isVisited := true);
      assert arcs[..] == s[x := s[x].(isVisited := true)];
      VisitWrite(s0, s, x);
    }

    /** Marks arc x visited and steps to its next arc. */
    method Advance(x: int, ghost s0: seq<Arc>) returns (y: int)
      requires 0 <= x < arcs.Length && VisitedOnly(s0, arcs[..])
      modifies arcs
      ensures VisitedOnly(s0, arcs[..]) && VisitedOf(arcs[..]) == old(VisitedOf(arcs[..]))[x := true]
      ensures y == NextsOf(s0)[x]
    {
      MarkVisited(x, s0);
      assert arcs[x].next == NextsOf(s0)[x];
      y := arcs[x].next;
    }

    /** countLoops' do-while from arc s: it marks visited exactly the arcs
        of s's loop, stopping when the id it started from comes round. */
    method MarkLoop(s: int, ghost s0: seq<Arc>)
      requires VisitedOnly(s0, arcs[..]) && 0 <= s < arcs.Length && !s0[s].isRemoved
      requires NoRepeats(IdsOf(s0)) && Permutes(NextsOf(s0), RemovedOf(s0))
      modifies arcs
      ensures VisitedOnly(s0, arcs[..])
      ensures VisitedOf(arcs[..]) == Mark(old(VisitedOf(arcs[..])), LoopOf(NextsOf(s0), RemovedOf(s0), s))
    {
      ghost var vis0 := VisitedOf(arcs[..]);
      assert arcs[s].id == s0[s].id;
      var start := arcs[s].id;
      var cur := Advance(s, s0);
      WalkStart(s0, arcs[..], vis0, s);
      ghost var k: nat := 1;
      while arcs[cur].id != start
        invariant WalkProgress(s0, arcs[..], vis0, s, k, cur)
        decreases Period(NextsOf(s0), RemovedOf(s0), s) - k
      {
        ghost var t := arcs[..];
        var c := Advance(cur, s0);
        WalkStep(s0, t, arcs[..], vis0, s, k, cur);
        cur, k := c, k + 1;
      }
      WalkDone(s0, arcs[..], vis0, s, k, cur);
    }

    /** countLoops' scan over the arcs after the reset: a walk from each
        live arc not yet visited. */
    method WalkLoops(ghost s0: seq<Arc>) returns (numLoops: int)
      requires CountProgress(s0, arcs[..], 0, 0)
      modifies arcs
      ensures CountProgress(s0, arcs[..], arcs.Length, numLoops)
    {
      numLoops := 0;
      for i := 0 to arcs.Length
        invariant CountProgress(s0, arcs[..], i, numLoops)
      {
        ghost var t, n := arcs[..], numLoops;
        if !arcs[i].isVisited && !arcs[i].isRemoved {
          numLoops := numLoops + 1;
          MarkLoop(i, s0);
        }
        CountStep(s0, t, arcs[..], i, n);
      }
    }

    /** countLoops: the number of distinct loops through the live arcs,
        each walked once; afterwards exactly the live arcs are marked
        visited and nothing else has changed. It needs what cancelArcPairs
        leaves when the cells' edges are distinct: next one-to-one on the
        live arcs, without which its walk would not come back. */
    method CountLoops() returns (numLoops: int)
      requires Valid() && NoRepeats(ids) && Permutes(NextsOf(arcs[..]), RemovedOf(arcs[..]))
      modifies arcs
      ensures Valid() && Components() == old(Components())
      ensures numLoops == |LoopsBelow(old(NextsOf(arcs[..])), old(RemovedOf(arcs[..])), arcs.Length)|
      ensures forall x | 0 <= x < arcs.Length :: arcs[x] == old(arcs[x]).(isVisited := !old(arcs[x].isRemoved))
    {
      ghost var a0 := arcs[..];
      ResetVisited();
      ghost var s0 := arcs[..];
      CountStart(a0, s0);
      numLoops := WalkLoops(s0);
      CountDone(a0, s0, arcs[..], numLoops);
      VisitedOnlyViews(s0, arcs[..]);
    }
  }
}
