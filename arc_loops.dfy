// The loops of an arc set. Once cancelArcPairs is done, an arc's next
// pointer leads around the boundary of one polygon loop; when next maps the
// live arcs one-to-one into themselves, following it from a live arc comes
// back to that arc. countLoops (cellsToMultiPoly.c) walks each loop once,
// starting from the first arc of the loop it meets, which is the loop's
// lowest-numbered arc. This module gives the loops, their lowest arcs and
// their number.

module H3ArcLoops {

  /** Every next pointer is an arc. */
  predicate Successors(nx: seq<int>)
  {
    forall x | 0 <= x < |nx| :: 0 <= nx[x] < |nx|
  }

  /** next maps the live arcs one-to-one into the live arcs. */
  predicate Permutes(nx: seq<int>, rm: seq<bool>)
  {
    |rm| == |nx| && Successors(nx)
    && (forall x | 0 <= x < |nx| && !rm[x] :: !rm[nx[x]])
    && forall x, y | 0 <= x < |nx| && 0 <= y < |nx| :: OneToOneAt(nx, rm, x, y)
  }

  /** Two live arcs with the same successor are the same arc. */
  predicate OneToOneAt(nx: seq<int>, rm: seq<bool>, x: int, y: int)
    requires |rm| == |nx| && 0 <= x < |nx| && 0 <= y < |nx|
  {
    !rm[x] && !rm[y] && nx[x] == nx[y] ==> x == y
  }

  /** The arc k steps along next from x. */
  function Iter(nx: seq<int>, x: int, k: nat): (r: int)
    requires Successors(nx) && 0 <= x < |nx|
    ensures 0 <= r < |nx|
  {
    if k == 0 then x else nx[Iter(nx, x, k - 1)]
  }

  lemma {:induction false} IterLive(nx: seq<int>, rm: seq<bool>, x: int, k: nat)
    requires Permutes(nx, rm) && 0 <= x < |nx| && !rm[x]
    ensures !rm[Iter(nx, x, k)]
  {
    if k > 0 {
      IterLive(nx, rm, x, k - 1);
    }
  }

  lemma {:induction false} IterAdd(nx: seq<int>, x: int, j: nat, k: nat)
    requires Successors(nx) && 0 <= x < |nx|
    ensures Iter(nx, x, j + k) == Iter(nx, Iter(nx, x, j), k)
  {
    if k > 0 {
      IterAdd(nx, x, j, k - 1);
    }
  }

  /** Since next is one-to-one on live arcs, two equal points of a walk
      step back together to its start. */
  lemma {:induction false} BackStep(nx: seq<int>, rm: seq<bool>, x: int, i: nat, j: nat)
    requires Permutes(nx, rm) && 0 <= x < |nx| && !rm[x] && i <= j
    requires Iter(nx, x, i) == Iter(nx, x, j)
    ensures Iter(nx, x, j - i) == x
  {
    if i > 0 {
      var a, b := Iter(nx, x, i - 1), Iter(nx, x, j - 1);
      IterLive(nx, rm, x, i - 1);
      IterLive(nx, rm, x, j - 1);
      assert OneToOneAt(nx, rm, a, b);
      BackStep(nx, rm, x, i - 1, j - 1);
    }
  }

  /** The arcs of the first k steps of the walk from x. */
  function Walked(nx: seq<int>, x: int, k: nat): (r: set<int>)
    requires Successors(nx) && 0 <= x < |nx|
    ensures forall y | y in r :: 0 <= y < |nx|
  {
    if k == 0 then {} else Walked(nx, x, k - 1) + {Iter(nx, x, k - 1)}
  }

  lemma {:induction false} WalkedIter(nx: seq<int>, x: int, k: nat, j: nat)
    requires Successors(nx) && 0 <= x < |nx| && j < k
    ensures Iter(nx, x, j) in Walked(nx, x, k)
  {
    if j < k - 1 {
      WalkedIter(nx, x, k - 1, j);
    }
  }

  lemma {:induction false} WalkedIndex(nx: seq<int>, x: int, k: nat, y: int) returns (j: nat)
    requires Successors(nx) && 0 <= x < |nx| && y in Walked(nx, x, k)
    ensures j < k && Iter(nx, x, j) == y
  {
    if y == Iter(nx, x, k - 1) {
      j := k - 1;
    } else {
      j := WalkedIndex(nx, x, k - 1, y);
    }
  }

  /** A walk whose first k points are distinct covers k arcs. */
  lemma {:induction false} WalkedCard(nx: seq<int>, x: int, k: nat)
    requires Successors(nx) && 0 <= x < |nx|
    requires forall i, j | 0 <= i < j < k :: Iter(nx, x, i) != Iter(nx, x, j)
    ensures |Walked(nx, x, k)| == k
  {
    if k > 0 {
      WalkedCard(nx, x, k - 1);
      assert Iter(nx, x, k - 1) !in Walked(nx, x, k - 1) by {
        if Iter(nx, x, k - 1) in Walked(nx, x, k - 1) {
          var j := WalkedIndex(nx, x, k - 1, Iter(nx, x, k - 1));
        }
      }
    }
  }

  /** The arcs 0 .. n-1. */
  function Range(n: nat): (r: set<int>)
    ensures |r| == n && forall y :: y in r <==> 0 <= y < n
  {
    if n == 0 then {} else Range(n - 1) + {n - 1}
  }

  lemma {:induction false} SubsetCard(a: set<int>, b: set<int>)
    requires a <= b
    ensures |a| <= |b|
    decreases b
  {
    if x :| x in b {
      SubsetCard(a - {x}, b - {x});
    } else {
      assert forall y :: y !in a;
    }
  }

  /** The walk from a live arc comes back to it within as many steps as
      there are arcs. */
  lemma Returns(nx: seq<int>, rm: seq<bool>, x: int)
    requires Permutes(nx, rm) && 0 <= x < |nx| && !rm[x]
    ensures exists p | 1 <= p <= |nx| :: Iter(nx, x, p) == x
  {
    var n := |nx|;
    assert exists i, j | 0 <= i < j <= n :: Iter(nx, x, i) == Iter(nx, x, j) by {
      if forall i, j | 0 <= i < j <= n :: Iter(nx, x, i) != Iter(nx, x, j) {
        WalkedCard(nx, x, n + 1);
        SubsetCard(Walked(nx, x, n + 1), Range(n));
      }
    }
    var i, j :| 0 <= i < j <= n && Iter(nx, x, i) == Iter(nx, x, j);
    BackStep(nx, rm, x, i, j);
    assert Iter(nx, x, j - i) == x;
  }

  /** The first return to x at step k or later, given one at step w. */
  function FirstReturn(nx: seq<int>, x: int, k: nat, w: nat): (r: nat)
    requires Successors(nx) && 0 <= x < |nx| && 1 <= k <= w && Iter(nx, x, w) == x
    requires forall q | 1 <= q < k :: Iter(nx, x, q) != x
    ensures k <= r <= w && Iter(nx, x, r) == x && forall q | 1 <= q < r :: Iter(nx, x, q) != x
    decreases w - k
  {
    if Iter(nx, x, k) == x then k else FirstReturn(nx, x, k + 1, w)
  }

  /** The length of x's loop: the first step at which the walk is back. */
  ghost function Period(nx: seq<int>, rm: seq<bool>, x: int): (p: nat)
    requires Permutes(nx, rm) && 0 <= x < |nx| && !rm[x]
    ensures 1 <= p <= |nx| && Iter(nx, x, p) == x && forall q | 1 <= q < p :: Iter(nx, x, q) != x
  {
    Returns(nx, rm, x);
    var w :| 1 <= w <= |nx| && Iter(nx, x, w) == x;
    FirstReturn(nx, x, 1, w)
  }

  /** The arcs of x's loop. */
  ghost function LoopOf(nx: seq<int>, rm: seq<bool>, x: int): (r: set<int>)
    requires Permutes(nx, rm) && 0 <= x < |nx| && !rm[x]
    ensures forall y | y in r :: 0 <= y < |nx|
  {
    Walked(nx, x, Period(nx, rm, x))
  }

  /** However far the walk goes, it stays on the loop. */
  lemma {:induction false} Periodic(nx: seq<int>, rm: seq<bool>, x: int, m: nat)
    requires Permutes(nx, rm) && 0 <= x < |nx| && !rm[x]
    ensures Iter(nx, x, m) in LoopOf(nx, rm, x)
    decreases m
  {
    var p := Period(nx, rm, x);
    if m < p {
      WalkedIter(nx, x, p, m);
    } else {
      IterAdd(nx, x, p, m - p);
      Periodic(nx, rm, x, m - p);
    }
  }

  /** The loop of an arc on x's walk lies within x's loop. */
  lemma LoopWithin(nx: seq<int>, rm: seq<bool>, x: int, j: nat)
    requires Permutes(nx, rm) && 0 <= x < |nx| && !rm[x]
    ensures !rm[Iter(nx, x, j)] && LoopOf(nx, rm, Iter(nx, x, j)) <= LoopOf(nx, rm, x)
  {
    IterLive(nx, rm, x, j);
    var y := Iter(nx, x, j);
    forall z | z in LoopOf(nx, rm, y)
      ensures z in LoopOf(nx, rm, x)
    {
      var k := WalkedIndex(nx, y, Period(nx, rm, y), z);
      IterAdd(nx, x, j, k);
      Periodic(nx, rm, x, j + k);
    }
  }

  /** Every arc of x's loop is live and has the same loop. */
  lemma SameLoop(nx: seq<int>, rm: seq<bool>, x: int, y: int)
    requires Permutes(nx, rm) && 0 <= x < |nx| && !rm[x] && y in LoopOf(nx, rm, x)
    ensures 0 <= y < |nx| && !rm[y] && LoopOf(nx, rm, y) == LoopOf(nx, rm, x)
  {
    var px := Period(nx, rm, x);
    var j := WalkedIndex(nx, x, px, y);
    LoopWithin(nx, rm, x, j);
    IterAdd(nx, x, j, px - j);
    assert Iter(nx, y, px - j) == x;
    LoopWithin(nx, rm, y, px - j);
  }

  /** The lowest arc among the first k steps of the walk from x. */
  function MinWalk(nx: seq<int>, x: int, k: nat): (r: int)
    requires Successors(nx) && 0 <= x < |nx| && k >= 1
    ensures r in Walked(nx, x, k) && forall y | y in Walked(nx, x, k) :: r <= y
  {
    if k == 1 then x
    else
      var m, z := MinWalk(nx, x, k - 1), Iter(nx, x, k - 1);
      if z < m then z else m
  }

  /** The lowest arc of x's loop. */
  ghost function LoopMin(nx: seq<int>, rm: seq<bool>, x: int): (r: int)
    requires Permutes(nx, rm) && 0 <= x < |nx| && !rm[x]
    ensures r in LoopOf(nx, rm, x) && forall y | y in LoopOf(nx, rm, x) :: r <= y
  {
    MinWalk(nx, x, Period(nx, rm, x))
  }

  lemma SameMin(nx: seq<int>, rm: seq<bool>, x: int, y: int)
    requires Permutes(nx, rm) && 0 <= x < |nx| && !rm[x] && y in LoopOf(nx, rm, x)
    ensures 0 <= y < |nx| && !rm[y] && LoopMin(nx, rm, y) == LoopMin(nx, rm, x)
  {
    SameLoop(nx, rm, x, y);
  }

  /** A live arc that is the lowest of its loop. */
  ghost predicate Leader(nx: seq<int>, rm: seq<bool>, x: int)
    requires Permutes(nx, rm)
  {
    0 <= x < |nx| && !rm[x] && LoopMin(nx, rm, x) == x
  }

  /** Every loop has exactly one leader, its lowest arc. */
  lemma OneLeader(nx: seq<int>, rm: seq<bool>, x: int)
    requires Permutes(nx, rm) && 0 <= x < |nx| && !rm[x]
    ensures LoopMin(nx, rm, x) in LoopOf(nx, rm, x) && Leader(nx, rm, LoopMin(nx, rm, x))
    ensures forall l | l in LoopOf(nx, rm, x) && Leader(nx, rm, l) :: l == LoopMin(nx, rm, x)
  {
    SameMin(nx, rm, x, LoopMin(nx, rm, x));
    forall l | l in LoopOf(nx, rm, x) && Leader(nx, rm, l)
      ensures l == LoopMin(nx, rm, x)
    {
      SameMin(nx, rm, x, l);
    }
  }

  /** The number of leaders below i. */
  ghost function Leaders(nx: seq<int>, rm: seq<bool>, i: int): (r: nat)
    requires Permutes(nx, rm) && 0 <= i <= |nx|
    ensures r <= i
  {
    if i == 0 then 0 else Leaders(nx, rm, i - 1) + if Leader(nx, rm, i - 1) then 1 else 0
  }

  /** The distinct loops through the live arcs below i. */
  ghost function LoopsBelow(nx: seq<int>, rm: seq<bool>, i: int): set<set<int>>
    requires Permutes(nx, rm) && 0 <= i <= |nx|
  {
    set x | 0 <= x < i && !rm[x] :: LoopOf(nx, rm, x)
  }

  /** The loops of the leaders below i. */
  ghost function LeaderLoops(nx: seq<int>, rm: seq<bool>, i: int): set<set<int>>
    requires Permutes(nx, rm) && 0 <= i <= |nx|
  {
    set l | 0 <= l < i && Leader(nx, rm, l) :: LoopOf(nx, rm, l)
  }

  lemma LeaderLoopsStep(nx: seq<int>, rm: seq<bool>, i: int)
    requires Permutes(nx, rm) && 0 < i <= |nx|
    ensures LeaderLoops(nx, rm, i) ==
      if Leader(nx, rm, i - 1) then LeaderLoops(nx, rm, i - 1) + {LoopOf(nx, rm, i - 1)} else LeaderLoops(nx, rm, i - 1)
  {
  }

  /** Two leaders never share a loop. */
  lemma LeaderLoopsDistinct(nx: seq<int>, rm: seq<bool>, i: int)
    requires Permutes(nx, rm) && 0 <= i < |nx| && Leader(nx, rm, i)
    ensures LoopOf(nx, rm, i) !in LeaderLoops(nx, rm, i)
  {
    forall l | 0 <= l < i && Leader(nx, rm, l)
      ensures LoopOf(nx, rm, l) != LoopOf(nx, rm, i)
    {
      Periodic(nx, rm, i, 0);
      if i in LoopOf(nx, rm, l) {
        OneLeader(nx, rm, l);
      }
    }
  }

  /** The loops are as many as their leaders: counting leaders counts
      the distinct loops. */
  lemma {:induction false} LeadersCountLoops(nx: seq<int>, rm: seq<bool>, i: int)
    requires Permutes(nx, rm) && 0 <= i <= |nx|
    ensures Leaders(nx, rm, i) == |LeaderLoops(nx, rm, i)|
  {
    if i > 0 {
      LeadersCountLoops(nx, rm, i - 1);
      if Leader(nx, rm, i - 1) {
        LeaderLoopsDistinct(nx, rm, i - 1);
      }
      LeaderLoopsStep(nx, rm, i);
    }
  }

  /** Those loops are all the loops through live arcs: every live arc's
      loop is its leader's. */
  lemma LeaderLoopsAll(nx: seq<int>, rm: seq<bool>)
    requires Permutes(nx, rm)
    ensures LeaderLoops(nx, rm, |nx|) == LoopsBelow(nx, rm, |nx|)
  {
    forall x | 0 <= x < |nx| && !rm[x]
      ensures LoopOf(nx, rm, x) in LeaderLoops(nx, rm, |nx|)
    {
      OneLeader(nx, rm, x);
      SameLoop(nx, rm, x, LoopMin(nx, rm, x));
    }
  }

  /** The visited marks vis with the arcs of w marked too. */
  function Mark(vis: seq<bool>, w: set<int>): (r: seq<bool>)
    ensures |r| == |vis| && forall x | 0 <= x < |vis| :: r[x] == (vis[x] || x in w)
  {
    seq(|vis|, x requires 0 <= x < |vis| => vis[x] || x in w)
  }

  lemma MarkAdd(vis: seq<bool>, w: set<int>, c: int)
    requires 0 <= c < |vis|
    ensures Mark(vis, w + {c}) == Mark(vis, w)[c := true]
  {
    assert Mark(vis, w + {c}) == Mark(vis, w)[c := true];
  }

  /** What countLoops has visited before arc i: exactly the live arcs
      whose loop has an arc below i. */
  ghost predicate VisitedBelow(nx: seq<int>, rm: seq<bool>, vis: seq<bool>, i: int)
    requires Permutes(nx, rm)
  {
    |vis| == |nx| && forall x | 0 <= x < |nx| :: vis[x] == (!rm[x] && LoopMin(nx, rm, x) < i)
  }

  /** countLoops at arc i: it starts a walk exactly at a leader, and the
      walk marks exactly the leader's loop. */
  lemma VisitStep(nx: seq<int>, rm: seq<bool>, vis: seq<bool>, vis': seq<bool>, i: int)
    requires Permutes(nx, rm) && 0 <= i < |nx| && VisitedBelow(nx, rm, vis, i) && |vis'| == |vis|
    requires !vis[i] && !rm[i] ==> vis' == Mark(vis, LoopOf(nx, rm, i))
    requires vis[i] || rm[i] ==> vis' == vis
    ensures (!vis[i] && !rm[i]) == Leader(nx, rm, i)
    ensures VisitedBelow(nx, rm, vis', i + 1)
  {
    if !rm[i] {
      Periodic(nx, rm, i, 0);
    }
    forall x | 0 <= x < |nx|
      ensures vis'[x] == (!rm[x] && LoopMin(nx, rm, x) < i + 1)
    {
      if !rm[x] && LoopMin(nx, rm, x) == i {
        SameMin(nx, rm, x, i);
        SameLoop(nx, rm, x, i);
        Periodic(nx, rm, x, 0);
      }
      if !vis[i] && !rm[i] && x in LoopOf(nx, rm, i) {
        SameMin(nx, rm, i, x);
      }
    }
  }
}
