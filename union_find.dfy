// The union-find forest of cellsToMultiPoly.c as a value: each arc's parent
// index, and a ghost level per arc that strictly grows towards the root so
// that following parents terminates. getRoot's path compression and
// unionArcs' linking are proved here on sequences; the ArcSet class applies
// them to its array of arcs.

module H3UnionFind {

  /** Every parent is an arc; a non-root's parent sits on a higher level;
      no level passes the bound. */
  ghost predicate Forest(par: seq<int>, lv: seq<int>, bound: int)
  {
    |lv| == |par|
    && forall x | 0 <= x < |par| ::
      0 <= par[x] < |par| && 0 <= lv[x] <= bound && (par[x] == x || lv[par[x]] > lv[x])
  }

  /** The arc reached by following parents until one is its own parent. */
  ghost function Root(par: seq<int>, lv: seq<int>, bound: int, x: int): (r: int)
    requires Forest(par, lv, bound) && 0 <= x < |par|
    ensures 0 <= r < |par| && par[r] == r
    ensures par[x] == x ==> r == x
    decreases bound - lv[x]
  {
    if par[x] == x then x else Root(par, lv, bound, par[x])
  }

  /** Every arc's root: the component each arc is in. */
  ghost function Roots(par: seq<int>, lv: seq<int>, bound: int): (r: seq<int>)
    requires Forest(par, lv, bound)
    ensures |r| == |par| && forall y | 0 <= y < |par| :: r[y] == Root(par, lv, bound, y)
  {
    seq(|par|, y requires 0 <= y < |par| => Root(par, lv, bound, y))
  }

  /** The components after the one whose root is lose joins the one whose
      root is keep. */
  function Merge(rs: seq<int>, keep: int, lose: int): (r: seq<int>)
    ensures |r| == |rs| && forall y | 0 <= y < |rs| :: r[y] == if rs[y] == lose then keep else rs[y]
  {
    seq(|rs|, y requires 0 <= y < |rs| => if rs[y] == lose then keep else rs[y])
  }

  /** Components only merge from c to d: arcs together in c stay
      together in d. */
  predicate Coarser(c: seq<int>, d: seq<int>)
  {
    |c| == |d| && forall x, y | 0 <= x < |c| && 0 <= y < |c| && c[x] == c[y] :: d[x] == d[y]
  }

  lemma CoarserTrans(c: seq<int>, d: seq<int>, e: seq<int>)
    requires Coarser(c, d) && Coarser(d, e)
    ensures Coarser(c, e)
  {
  }

  /** A merge of two components only merges. */
  lemma MergeCoarser(c: seq<int>, keep: int, lose: int)
    ensures Coarser(c, Merge(c, keep, lose))
  {
  }

  /** A root is at least as high as every arc below it. */
  lemma {:induction false} RootAbove(par: seq<int>, lv: seq<int>, bound: int, x: int)
    requires Forest(par, lv, bound) && 0 <= x < |par|
    ensures Root(par, lv, bound, x) == x || lv[Root(par, lv, bound, x)] > lv[x]
    decreases bound - lv[x]
  {
    if par[x] != x {
      RootAbove(par, lv, bound, par[x]);
    }
  }

  /** The levels only serve termination: two level assignments over the
      same parents find the same roots. */
  lemma {:induction false} RootLevels(par: seq<int>, lv: seq<int>, bound: int, lv': seq<int>, bound': int, x: int)
    requires Forest(par, lv, bound) && Forest(par, lv', bound') && 0 <= x < |par|
    ensures Root(par, lv, bound, x) == Root(par, lv', bound', x)
    decreases bound - lv[x]
  {
    if par[x] != x {
      RootLevels(par, lv, bound, lv', bound', par[x]);
    }
  }

  /** Pointing x straight at its root (getRoot's path compression) keeps
      the forest and every arc's root. */
  lemma Compress(par: seq<int>, lv: seq<int>, bound: int, x: int)
    requires Forest(par, lv, bound) && 0 <= x < |par|
    ensures Forest(par[x := Root(par, lv, bound, x)], lv, bound)
    ensures forall y | 0 <= y < |par| ::
      Root(par[x := Root(par, lv, bound, x)], lv, bound, y) == Root(par, lv, bound, y)
  {
    RootAbove(par, lv, bound, x);
    var par' := par[x := Root(par, lv, bound, x)];
    forall y | 0 <= y < |par|
      ensures Root(par', lv, bound, y) == Root(par, lv, bound, y)
    {
      CompressAt(par, lv, bound, x, y);
    }
  }

  lemma {:induction false} CompressAt(par: seq<int>, lv: seq<int>, bound: int, x: int, y: int)
    requires Forest(par, lv, bound) && 0 <= x < |par| && 0 <= y < |par|
    requires Forest(par[x := Root(par, lv, bound, x)], lv, bound)
    ensures Root(par[x := Root(par, lv, bound, x)], lv, bound, y) == Root(par, lv, bound, y)
    decreases bound - lv[y]
  {
    var par' := par[x := Root(par, lv, bound, x)];
    if y == x {
      var r := Root(par, lv, bound, x);
      assert par'[r] == r;
    } else if par[y] != y {
      CompressAt(par, lv, bound, x, par[y]);
    }
  }

  /** The forest after unionArcs links root b under root a. */
  function LinkParents(par: seq<int>, a: int, b: int): seq<int>
    requires 0 <= b < |par|
  {
    par[b := a]
  }

  /** Its levels: a rises above b if it was not already. */
  function LinkLevels(lv: seq<int>, a: int, b: int): seq<int>
    requires 0 <= a < |lv| && 0 <= b < |lv|
  {
    lv[a := if lv[a] > lv[b] then lv[a] else lv[b] + 1]
  }

  function LinkBound(lv: seq<int>, bound: int, b: int): int
    requires 0 <= b < |lv|
  {
    if bound > lv[b] then bound else lv[b] + 1
  }

  /** Linking root b under root a keeps a forest, and every arc whose
      root was b now has root a; no other root changes. */
  lemma Link(par: seq<int>, lv: seq<int>, bound: int, a: int, b: int)
    requires Forest(par, lv, bound) && 0 <= a < |par| && 0 <= b < |par|
    requires par[a] == a && par[b] == b && a != b
    ensures Forest(LinkParents(par, a, b), LinkLevels(lv, a, b), LinkBound(lv, bound, b))
    ensures forall y | 0 <= y < |par| ::
      Root(LinkParents(par, a, b), LinkLevels(lv, a, b), LinkBound(lv, bound, b), y)
      == if Root(par, lv, bound, y) == b then a else Root(par, lv, bound, y)
  {
    var par', lv', bound' := LinkParents(par, a, b), LinkLevels(lv, a, b), LinkBound(lv, bound, b);
    assert Forest(par', lv', bound') by {
      forall x | 0 <= x < |par|
        ensures 0 <= par'[x] < |par| && 0 <= lv'[x] <= bound' && (par'[x] == x || lv'[par'[x]] > lv'[x])
      {
        if x != b && par[x] != x {
          assert lv[par[x]] > lv[x];
        }
      }
    }
    forall y | 0 <= y < |par|
      ensures Root(par', lv', bound', y) == if Root(par, lv, bound, y) == b then a else Root(par, lv, bound, y)
    {
      LinkAt(par, lv, bound, a, b, y);
    }
  }

  lemma {:induction false} LinkAt(par: seq<int>, lv: seq<int>, bound: int, a: int, b: int, y: int)
    requires Forest(par, lv, bound) && 0 <= a < |par| && 0 <= b < |par| && 0 <= y < |par|
    requires par[a] == a && par[b] == b && a != b
    requires Forest(LinkParents(par, a, b), LinkLevels(lv, a, b), LinkBound(lv, bound, b))
    ensures Root(LinkParents(par, a, b), LinkLevels(lv, a, b), LinkBound(lv, bound, b), y)
      == if Root(par, lv, bound, y) == b then a else Root(par, lv, bound, y)
    decreases bound - lv[y]
  {
    var par', lv', bound' := LinkParents(par, a, b), LinkLevels(lv, a, b), LinkBound(lv, bound, b);
    if y == b {
      assert par'[b] == a && par'[a] == a;
    } else if par[y] != y {
      LinkAt(par, lv, bound, a, b, par[y]);
    }
  }
}
