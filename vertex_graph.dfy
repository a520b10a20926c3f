// The vertex graph of vertexGraph.c: a hash table of directed edges between
// vertex indexes, each bucket a singly linked list of nodes.  A bucket is a
// sequence of node objects in list order (the order the next pointers give),
// so that nodes keep their identity and can be removed by reference.

module VertexGraph {
  import opened H3Api

  /** _hashVertex: the vertex modulo the number of buckets.  The 64-bit
      remainder is below numBuckets, so the cast to uint32 keeps it. */
  function HashVertex(vertex: H3Index, numBuckets: int): (h: int)
    requires numBuckets > 0
    ensures 0 <= h < numBuckets
  {
    (vertex as int) % numBuckets
  }

  /** A node of the graph, the edge from one vertex to another. */
  class VertexNode {
    const from: H3Index
    const to: H3Index

    /** _initVertexNode. */
    constructor (fromVtx: H3Index, toVtx: H3Index)
      ensures from == fromVtx && to == toVtx
    {
      from := fromVtx;
      to := toVtx;
    }
  }

  /** The node test of the searches: the same start vertex and the same end
      vertex, where a wildcard search accepts any end for H3_NULL. */
  predicate Matches(n: VertexNode, fromVtx: H3Index, toVtx: H3Index, wildcard: bool)
  {
    n.from == fromVtx && ((wildcard && toVtx == H3_NULL) || n.to == toVtx)
  }

  /** The position of the first matching node of a bucket, or -1. */
  function FindIn(bucket: seq<VertexNode>, fromVtx: H3Index, toVtx: H3Index, wildcard: bool): (k: int)
    ensures -1 <= k < |bucket|
    ensures k >= 0 ==>
      Matches(bucket[k], fromVtx, toVtx, wildcard) && forall j | 0 <= j < k :: !Matches(bucket[j], fromVtx, toVtx, wildcard)
    ensures k == -1 ==> forall j | 0 <= j < |bucket| :: !Matches(bucket[j], fromVtx, toVtx, wildcard)
  {
    if bucket == [] then -1
    else if Matches(bucket[0], fromVtx, toVtx, wildcard) then 0
    else
      var k := FindIn(bucket[1..], fromVtx, toVtx, wildcard);
      if k == -1 then -1 else k + 1
  }

  /** The number of nodes in all buckets. */
  function Total(bs: seq<seq<VertexNode>>): nat
  {
    if bs == [] then 0 else |bs[0]| + Total(bs[1..])
  }

  /** Replacing one bucket changes the count by the difference in length. */
  lemma {:induction false} TotalUpdate(bs: seq<seq<VertexNode>>, h: int, nb: seq<VertexNode>)
    requires 0 <= h < |bs|
    ensures Total(bs[h := nb]) == Total(bs) - |bs[h]| + |nb|
  {
    if h == 0 {
      assert bs[h := nb][1..] == bs[1..];
    } else {
      TotalUpdate(bs[1..], h - 1, nb);
      assert bs[h := nb][1..] == bs[1..][h - 1 := nb];
    }
  }

  /** The count is zero exactly when every bucket is empty. */
  lemma {:induction false} TotalZero(bs: seq<seq<VertexNode>>)
    ensures Total(bs) == 0 <==> forall b | 0 <= b < |bs| :: bs[b] == []
  {
    if bs != [] {
      TotalZero(bs[1..]);
      assert forall b | 1 <= b < |bs| :: bs[b] == bs[1..][b - 1];
    }
  }

  /** Every node in the bucket of its start vertex and no node twice in a
      bucket (so nowhere twice, since a node has one bucket). */
  ghost predicate BucketsOk(bs: seq<seq<VertexNode>>, numBuckets: int)
  {
    (forall b, k | 0 <= b < |bs| && 0 <= k < |bs[b]| :: numBuckets > 0 && HashVertex(bs[b][k].from, numBuckets) == b)
    && (forall b, i, j | 0 <= b < |bs| && 0 <= i < j < |bs[b]| :: bs[b][i] != bs[b][j])
  }

  /** No edge stored twice. */
  ghost predicate DistinctEdges(bs: seq<seq<VertexNode>>)
  {
    forall b, i, j | 0 <= b < |bs| && 0 <= i < j < |bs[b]| :: !Matches(bs[b][j], bs[b][i].from, bs[b][i].to, false)
  }

  /** Replacing bucket h by a bucket of distinct nodes that all hash to h
      keeps the buckets in order; keeping the edges distinct as well keeps
      DistinctEdges. */
  lemma BucketsReplace(bs: seq<seq<VertexNode>>, numBuckets: int, h: int, nb: seq<VertexNode>)
    requires BucketsOk(bs, numBuckets) && 0 <= h < |bs|
    requires forall k | 0 <= k < |nb| :: numBuckets > 0 && HashVertex(nb[k].from, numBuckets) == h
    requires forall i, j | 0 <= i < j < |nb| :: nb[i] != nb[j]
    ensures BucketsOk(bs[h := nb], numBuckets)
    ensures DistinctEdges(bs) && (forall i, j | 0 <= i < j < |nb| :: !Matches(nb[j], nb[i].from, nb[i].to, false))
      ==> DistinctEdges(bs[h := nb])
  {
    var cs: seq<seq<VertexNode>> := bs[h := nb];
    forall b, k | 0 <= b < |cs| && 0 <= k < |cs[b]|
      ensures numBuckets > 0 && HashVertex(cs[b][k].from, numBuckets) == b
    {
      if b != h {
        assert cs[b][k] == bs[b][k];
      } else {
        assert cs[b][k] == nb[k];
      }
    }
    forall b, i, j | 0 <= b < |cs| && 0 <= i < j < |cs[b]|
      ensures cs[b][i] != cs[b][j]
    {
      if b != h {
        assert cs[b][i] == bs[b][i] && cs[b][j] == bs[b][j];
      } else {
        assert cs[b][i] == nb[i] && cs[b][j] == nb[j];
      }
    }
    if DistinctEdges(bs) && (forall i, j | 0 <= i < j < |nb| :: !Matches(nb[j], nb[i].from, nb[i].to, false)) {
      forall b, i, j | 0 <= b < |cs| && 0 <= i < j < |cs[b]|
        ensures !Matches(cs[b][j], cs[b][i].from, cs[b][i].to, false)
      {
        if b != h {
          assert cs[b][i] == bs[b][i] && cs[b][j] == bs[b][j];
        } else {
          assert cs[b][i] == nb[i] && cs[b][j] == nb[j];
        }
      }
      assert DistinctEdges(cs);
    }
    assert BucketsOk(cs, numBuckets);
  }

  /** Appending a node that is not yet in a bucket, for an edge the bucket
      does not hold, keeps its nodes distinct and, with distinct edges
      before, its edges distinct. */
  lemma AppendNew(bucket: seq<VertexNode>, node: VertexNode)
    requires !(node in bucket)
    requires forall i, j | 0 <= i < j < |bucket| :: bucket[i] != bucket[j]
    requires FindIn(bucket, node.from, node.to, false) == -1
    ensures var nb := bucket + [node];
      (forall i, j | 0 <= i < j < |nb| :: nb[i] != nb[j])
      && ((forall i, j | 0 <= i < j < |bucket| :: !Matches(bucket[j], bucket[i].from, bucket[i].to, false)) ==>
            forall i, j | 0 <= i < j < |nb| :: !Matches(nb[j], nb[i].from, nb[i].to, false))
  {
    var nb := bucket + [node];
    assert forall j | 0 <= j < |bucket| :: nb[j] == bucket[j];
  }

  /** Splicing position k out of a bucket of distinct nodes: the rest is
      the other nodes in order, without the node at k. */
  lemma SpliceOut(bucket: seq<VertexNode>, k: int)
    requires 0 <= k < |bucket|
    requires forall i, j | 0 <= i < j < |bucket| :: bucket[i] != bucket[j]
    ensures var rest := bucket[..k] + bucket[k + 1..];
      |rest| == |bucket| - 1
      && (forall j | 0 <= j < |rest| :: rest[j] == if j < k then bucket[j] else bucket[j + 1])
      && (forall i, j | 0 <= i < j < |rest| :: rest[i] != rest[j])
      && !(bucket[k] in rest)
  {
    var rest := bucket[..k] + bucket[k + 1..];
    assert forall j | 0 <= j < |rest| :: rest[j] == if j < k then bucket[j] else bucket[j + 1];
  }

  class VertexGraph {
    var buckets: array<seq<VertexNode>>
    const numBuckets: int
    var size: int
    const res: int

    /** One bucket per hash value (none without buckets), every node in the
        bucket of its start vertex, no node twice, and size counting the
        nodes. */
    ghost predicate Valid()
      reads this, buckets
    {
      buckets.Length == (if numBuckets > 0 then numBuckets else 0)
      && size == Total(buckets[..])
      && BucketsOk(buckets[..], numBuckets)
    }

    /** No edge is stored twice. */
    ghost predicate NoDuplicateEdges()
      reads this, buckets
    {
      DistinctEdges(buckets[..])
    }

    /** initVertexGraph: numBuckets empty buckets. */
    constructor (numBuckets: int, res: int)
      ensures Valid() && NoDuplicateEdges() && fresh(buckets)
      ensures this.numBuckets == numBuckets && this.res == res && size == 0
      ensures forall b | 0 <= b < buckets.Length :: buckets[b] == []
    {
      this.numBuckets := numBuckets;
      this.res := res;
      size := 0;
      buckets := new seq<VertexNode>[if numBuckets > 0 then numBuckets else 0](_ => []);
      new;
      TotalZero(buckets[..]);
    }

    /** findNodeForEdge: the first node of the start vertex's bucket for
        this edge (any edge from fromVtx when toVtx is H3_NULL), or null
        when the graph holds no such edge. */
    method FindNodeForEdge(fromVtx: H3Index, toVtx: H3Index) returns (node: VertexNode?)
      requires Valid() && numBuckets > 0
      ensures var bucket := buckets[HashVertex(fromVtx, numBuckets)];
        var k := FindIn(bucket, fromVtx, toVtx, true);
        node == if k == -1 then null else bucket[k]
      ensures node == null <==> forall b, k | 0 <= b < buckets.Length && 0 <= k < |buckets[b]| ::
        !Matches(buckets[b][k], fromVtx, toVtx, true)
    {
      var bucket := buckets[HashVertex(fromVtx, numBuckets)];
      var i := 0;
      while i < |bucket|
        invariant 0 <= i <= |bucket|
        invariant forall j | 0 <= j < i :: !Matches(bucket[j], fromVtx, toVtx, true)
      {
        if bucket[i].from == fromVtx && (toVtx == H3_NULL || bucket[i].to == toVtx) {
          return bucket[i];
        }
        i := i + 1;
      }
      return null;
    }

    /** findNodeForVertex: the first node for any edge from fromVtx. */
    method FindNodeForVertex(fromVtx: H3Index) returns (node: VertexNode?)
      requires Valid() && numBuckets > 0
      ensures node != null ==> node.from == fromVtx
      ensures node == null <==> forall b, k | 0 <= b < buckets.Length && 0 <= k < |buckets[b]| ::
        buckets[b][k].from != fromVtx
    {
      node := FindNodeForEdge(fromVtx, H3_NULL);
    }

    /** The search of addVertexNode over the whole bucket: the position of
        the node for this exact edge, or -1. */
    method FindExisting(bucket: seq<VertexNode>, fromVtx: H3Index, toVtx: H3Index) returns (k: int)
      ensures k == FindIn(bucket, fromVtx, toVtx, false)
    {
      k := 0;
      while k < |bucket|
        invariant 0 <= k <= |bucket|
        invariant forall j | 0 <= j < k :: !Matches(bucket[j], fromVtx, toVtx, false)
      {
        if bucket[k].from == fromVtx && bucket[k].to == toVtx {
          return k;
        }
        k := k + 1;
      }
      k := -1;
    }

    /** The one change addVertexNode and removeVertexNode make: bucket h
        replaced and the size adjusted by the change in its length. */
    method ReplaceBucket(h: int, nb: seq<VertexNode>)
      requires Valid() && 0 <= h < buckets.Length
      requires forall k | 0 <= k < |nb| :: numBuckets > 0 && HashVertex(nb[k].from, numBuckets) == h
      requires forall i, j | 0 <= i < j < |nb| :: nb[i] != nb[j]
      modifies buckets, this`size
      ensures Valid()
      ensures buckets[..] == old(buckets[..])[h := nb] && size == old(size) - |old(buckets[h])| + |nb|
      ensures old(NoDuplicateEdges()) && (forall i, j | 0 <= i < j < |nb| :: !Matches(nb[j], nb[i].from, nb[i].to, false))
        ==> NoDuplicateEdges()
    {
      TotalUpdate(buckets[..], h, nb);
      BucketsReplace(buckets[..], numBuckets, h, nb);
      size := size - |buckets[h]| + |nb|;
      buckets[h] := nb;
    }

    /** addVertexNode: the node already holding this edge, or a new node
        appended to the end of its bucket. */
    method AddVertexNode(fromVtx: H3Index, toVtx: H3Index) returns (node: VertexNode)
      requires Valid() && numBuckets > 0
      modifies buckets, this`size
      ensures Valid()
      ensures old(NoDuplicateEdges()) ==> NoDuplicateEdges()
      ensures var h := HashVertex(fromVtx, numBuckets);
        var k := FindIn(old(buckets[h]), fromVtx, toVtx, false);
        node in buckets[h] && node.from == fromVtx && node.to == toVtx
        && (k == -1 ==> fresh(node) && buckets[..] == old(buckets[..])[h := old(buckets[h]) + [node]] && size == old(size) + 1)
        && (k != -1 ==> node == old(buckets[h])[k] && buckets[..] == old(buckets[..]) && size == old(size))
    {
      var h := HashVertex(fromVtx, numBuckets);
      var bucket := buckets[h];
      var k := FindExisting(bucket, fromVtx, toVtx);
      if k >= 0 {
        return bucket[k];
      }
      node := new VertexNode(fromVtx, toVtx);
      var nb := bucket + [node];
      assert forall j | 0 <= j < |bucket| :: nb[j] == bucket[j];
      AppendNew(bucket, node);
      ReplaceBucket(h, nb);
    }

    /** The position of node in a bucket, or the bucket's length. */
    method PositionOf(bucket: seq<VertexNode>, node: VertexNode) returns (k: int)
      ensures 0 <= k <= |bucket| && (k < |bucket| ==> bucket[k] == node)
      ensures k == |bucket| <==> !(node in bucket)
    {
      k := 0;
      while k < |bucket| && bucket[k] != node
        invariant 0 <= k <= |bucket|
        invariant forall j | 0 <= j < k :: bucket[j] != node
      {
        k := k + 1;
      }
    }

    /** removeVertexNode: 0 after splicing the node out of its bucket, 1
        when the graph does not hold it. */
    method RemoveVertexNode(node: VertexNode) returns (r: int)
      requires Valid() && numBuckets > 0
      modifies buckets, this`size
      ensures Valid()
      ensures old(NoDuplicateEdges()) ==> NoDuplicateEdges()
      ensures var h := HashVertex(node.from, numBuckets);
        (r == 0 <==> node in old(buckets[h])) && (r == 0 || r == 1) && !(node in buckets[h])
      ensures var h := HashVertex(node.from, numBuckets);
        r == 0 ==>
          size == old(size) - 1
          && exists k | 0 <= k < |old(buckets[h])| ::
               old(buckets[h])[k] == node && buckets[..] == old(buckets[..])[h := old(buckets[h])[..k] + old(buckets[h])[k + 1..]]
      ensures r == 1 ==> buckets[..] == old(buckets[..]) && size == old(size)
    {
      var h := HashVertex(node.from, numBuckets);
      var bucket := buckets[h];
      var k := PositionOf(bucket, node);
      if k == |bucket| {
        return 1;
      }
      SpliceOut(bucket, k);
      ReplaceBucket(h, bucket[..k] + bucket[k + 1..]);
      return 0;
    }

    /** firstVertexNode: the head of the first nonempty bucket, null when
        the graph is empty. */
    method FirstVertexNode() returns (node: VertexNode?)
      requires Valid()
      ensures node == null <==> size == 0
      ensures node != null ==> exists b | 0 <= b < buckets.Length ::
        buckets[b] != [] && node == buckets[b][0] && forall c | 0 <= c < b :: buckets[c] == []
    {
      TotalZero(buckets[..]);
      var i := 0;
      while i < numBuckets
        invariant 0 <= i <= buckets.Length
        invariant forall c | 0 <= c < i :: buckets[c] == []
      {
        if buckets[i] != [] {
          return buckets[i][0];
        }
        i := i + 1;
      }
      return null;
    }

    /** destroyVertexGraph: removes the first node until none is left. */
    method DestroyVertexGraph()
      requires Valid()
      modifies buckets, this`size
      ensures Valid() && size == 0
      ensures forall b | 0 <= b < buckets.Length :: buckets[b] == []
    {
      var node := FirstVertexNode();
      while node != null
        invariant Valid()
        invariant node == null <==> size == 0
        invariant node != null ==> numBuckets > 0 && node in buckets[HashVertex(node.from, numBuckets)]
        decreases size
      {
        var _ := RemoveVertexNode(node);
        node := FirstVertexNode();
      }
      TotalZero(buckets[..]);
    }
  }

  // ------------------------------------------------- the search as written

  /** The do-while of addVertexNode from the node at position c, as
      written: test the node, step to the next one if there is one, and go
      on while the current node has a successor.  The result is the
      position returned, or -1 when the loop falls through to appending. */
  function SearchAsWritten(bucket: seq<VertexNode>, fromVtx: H3Index, toVtx: H3Index, c: int): (k: int)
    requires 0 <= c < |bucket|
    decreases |bucket| - c
  {
    if bucket[c].from == fromVtx && bucket[c].to == toVtx then c
    else
      var next := if c + 1 < |bucket| then c + 1 else c;
      if next + 1 < |bucket| then SearchAsWritten(bucket, fromVtx, toVtx, next) else -1
  }

  /** The loop as written tests only the nodes before the last one of a
      bucket of two or more nodes. */
  lemma {:induction false} SearchAsWrittenMeaning(bucket: seq<VertexNode>, fromVtx: H3Index, toVtx: H3Index, c: int)
    requires 0 <= c < |bucket|
    requires |bucket| == 1 || c < |bucket| - 1
    ensures var tested := if |bucket| == 1 then 1 else |bucket| - 1;
      var k := FindIn(bucket[c..tested], fromVtx, toVtx, false);
      SearchAsWritten(bucket, fromVtx, toVtx, c) == if k == -1 then -1 else c + k
    decreases |bucket| - c
  {
    var tested := if |bucket| == 1 then 1 else |bucket| - 1;
    if !Matches(bucket[c], fromVtx, toVtx, false) && c + 2 < |bucket| {
      SearchAsWrittenMeaning(bucket, fromVtx, toVtx, c + 1);
      assert bucket[c..tested][1..] == bucket[c + 1..tested];
    }
  }

  /** So when the only node for the edge is the last of two or more, the
      loop misses it and addVertexNode appends a second node for an edge
      it already holds. */
  lemma AsWrittenMissesLast(bucket: seq<VertexNode>)
    requires |bucket| >= 2
    requires forall j | 0 <= j < |bucket| - 1 :: !Matches(bucket[j], bucket[|bucket| - 1].from, bucket[|bucket| - 1].to, false)
    ensures var last := bucket[|bucket| - 1];
      SearchAsWritten(bucket, last.from, last.to, 0) == -1
      && FindIn(bucket, last.from, last.to, false) == |bucket| - 1
  {
    var last := bucket[|bucket| - 1];
    SearchAsWrittenMeaning(bucket, last.from, last.to, 0);
    assert forall j | 0 <= j < |bucket| - 1 :: bucket[0..|bucket| - 1][j] == bucket[j];
  }
}
