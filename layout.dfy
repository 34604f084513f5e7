/**
 * The layout engine of src/js/flowchart.js: the depth of a node
 * (`getDepth`), the room its subtree needs across the layout direction
 * (`getDeptSize`), its index among its first parent's children
 * (`getSiblingIndex`), the auto-layout block of `FlowChart.render`
 * (depth buckets, centred packing and the overlap fixed point) and
 * `layoutNode`.
 *
 * The nodes are a snapshot taken after the graph rebuild: a sequence of
 * `LNode` values whose `parents` and `children` hold indices into the
 * sequence. The memo caches of getDepth / getDeptSize / getSiblingIndex
 * are taken as fresh, so each is the plain recursive definition.
 * Coordinates are reals: the packing divides by 2 without flooring.
 */
module Layout {
  import opened Base
  import opened Bounds
  import opened ElementProps

  datatype LNode = LNode(
    beginType: bool, endType: bool,
    parents: seq<nat>, children: seq<nat>,
    /** The node's rendered size. */
    width: real, height: real)

  type Graph = seq<LNode>

  /** Every parent and child reference names a node of the snapshot. */
  predicate WellFormed(g: Graph)
  {
    forall i :: 0 <= i < |g| ==>
      && (forall k :: 0 <= k < |g[i].parents| ==> g[i].parents[k] < |g|)
      && (forall k :: 0 <= k < |g[i].children| ==> g[i].children[k] < |g|)
  }

  /** getDepth follows `parents[0]` unless the node is a begin node or has no parent. */
  predicate HasFirstParent(n: LNode)
  {
    !n.beginType && |n.parents| > 0
  }

  /**
   * A ranking under which every first parent ranks below its child. One
   * exists exactly when no first-parent chain runs in a circle, which is
   * what getDepth needs to return at all.
   */
  ghost predicate Ranked(g: Graph, rank: seq<nat>)
  {
    && WellFormed(g)
    && |rank| == |g|
    && forall i :: 0 <= i < |g| ==>
         && rank[i] < |g|
         && (HasFirstParent(g[i]) ==> rank[g[i].parents[0]] < rank[i])
  }

  // ---------------------------------------------------------------------
  // getDepth
  // ---------------------------------------------------------------------

  /** getDepth: one more than the first parent's depth, 0 for a begin node or an orphan. */
  function Depth(g: Graph, ghost rank: seq<nat>, i: nat): (d: nat)
    requires Ranked(g, rank) && i < |g|
    ensures d <= rank[i]
    ensures d == 0 <==> !HasFirstParent(g[i])
    decreases rank[i]
  {
    if HasFirstParent(g[i]) then Depth(g, rank, g[i].parents[0]) + 1 else 0
  }

  /** The depth is the same whichever ranking witnesses that the chains end. */
  lemma {:induction false} DepthRankFree(g: Graph, r1: seq<nat>, r2: seq<nat>, i: nat)
    requires Ranked(g, r1) && Ranked(g, r2) && i < |g|
    ensures Depth(g, r1, i) == Depth(g, r2, i)
    decreases r1[i]
  {
    if HasFirstParent(g[i]) {
      DepthRankFree(g, r1, r2, g[i].parents[0]);
    }
  }

  /** The node `k` steps up the first-parent chain from `i`, stopping at its top. */
  function Up(g: Graph, i: nat, k: nat): (r: nat)
    requires WellFormed(g) && i < |g|
    ensures r < |g|
    decreases k
  {
    if k == 0 || !HasFirstParent(g[i]) then i else Up(g, g[i].parents[0], k - 1)
  }

  /**
   * The depth is the length of the first-parent chain: every node less
   * than `Depth` steps up still has a first parent, and the node exactly
   * `Depth` steps up has none.
   */
  lemma {:induction false} DepthIsChainLength(g: Graph, rank: seq<nat>, i: nat)
    requires Ranked(g, rank) && i < |g|
    ensures !HasFirstParent(g[Up(g, i, Depth(g, rank, i))])
    ensures forall k :: 0 <= k < Depth(g, rank, i) ==> HasFirstParent(g[Up(g, i, k)])
    decreases rank[i]
  {
    if HasFirstParent(g[i]) {
      var p := g[i].parents[0];
      DepthIsChainLength(g, rank, p);
      forall k | 0 <= k < Depth(g, rank, i) ensures HasFirstParent(g[Up(g, i, k)]) {
        if k > 0 {
          assert Up(g, i, k) == Up(g, p, k - 1);
        }
      }
    }
  }

  // ---------------------------------------------------------------------
  // getSiblingIndex
  // ---------------------------------------------------------------------

  /**
   * getSiblingIndex: the position of the node among its first parent's
   * children (-1 when it is not listed there), 0 for a begin node or an
   * orphan.
   */
  function SiblingIndex(g: Graph, i: nat): (r: int)
    requires WellFormed(g) && i < |g|
    ensures !HasFirstParent(g[i]) ==> r == 0
    ensures HasFirstParent(g[i]) ==>
              var siblings := g[g[i].parents[0]].children;
              && (i in siblings ==> 0 <= r < |siblings| && siblings[r] == i && i !in siblings[..r])
              && (i !in siblings ==> r == -1)
  {
    if HasFirstParent(g[i]) then IndexOf(g[g[i].parents[0]].children, i) else 0
  }

  // ---------------------------------------------------------------------
  // getDeptSize
  // ---------------------------------------------------------------------

  /** The node's own extent across the layout direction. */
  function OwnSize(n: LNode, horz: bool): real
  {
    if horz then n.height else n.width
  }

  /**
   * getDeptSize: the larger of the node's own extent and the extents of
   * its children one level deeper, laid side by side with `space` between
   * them.
   */
  function DepthSize(g: Graph, ghost rank: seq<nat>, horz: bool, space: real, i: nat): (r: real)
    requires Ranked(g, rank) && i < |g|
    ensures r >= OwnSize(g[i], horz)
    decreases |g| - Depth(g, rank, i), |g[i].children| + 1
  {
    var own := OwnSize(g[i], horz);
    if |g[i].children| > 0 then Max(own, ChildrenSize(g, rank, horz, space, i, |g[i].children|)) else own
  }

  /**
   * The loop of getDeptSize over the first `k` children: a child one level
   * deeper adds its DepthSize, preceded by `space` once the running total
   * is non-zero (the source tests it for truthiness).
   */
  function ChildrenSize(g: Graph, ghost rank: seq<nat>, horz: bool, space: real, i: nat, k: nat): (r: real)
    requires Ranked(g, rank) && i < |g| && k <= |g[i].children|
    decreases |g| - Depth(g, rank, i), k
  {
    if k == 0 then 0.0
    else
      var acc := ChildrenSize(g, rank, horz, space, i, k - 1);
      var c := g[i].children[k - 1];
      if Depth(g, rank, c) == Depth(g, rank, i) + 1 then
        (if acc != 0.0 then acc + space else acc) + DepthSize(g, rank, horz, space, c)
      else acc
  }

  /** One level deeper in the tree this node's depth-size is computed from. */
  predicate CountsAsChild(g: Graph, rank: seq<nat>, i: nat, c: nat)
    requires Ranked(g, rank) && i < |g| && c < |g|
  {
    Depth(g, rank, c) == Depth(g, rank, i) + 1
  }

  /** Every extent is non-negative. */
  predicate Sized(g: Graph)
  {
    forall i :: 0 <= i < |g| ==> g[i].width >= 0.0 && g[i].height >= 0.0
  }

  /**
   * With non-negative sizes and spacing the running total only grows, and
   * it covers each counted child's depth-size.
   */
  lemma {:induction false} ChildrenSizeCovers(g: Graph, rank: seq<nat>, horz: bool, space: real, i: nat, k: nat)
    requires Ranked(g, rank) && i < |g| && k <= |g[i].children| && Sized(g) && space >= 0.0
    ensures ChildrenSize(g, rank, horz, space, i, k) >= 0.0
    ensures forall m :: 0 <= m < k && CountsAsChild(g, rank, i, g[i].children[m]) ==>
              ChildrenSize(g, rank, horz, space, i, k) >= DepthSize(g, rank, horz, space, g[i].children[m])
  {
    if k > 0 {
      ChildrenSizeCovers(g, rank, horz, space, i, k - 1);
      var c := g[i].children[k - 1];
      if CountsAsChild(g, rank, i, c) {
        assert DepthSize(g, rank, horz, space, c) >= OwnSize(g[c], horz) >= 0.0;
      }
    }
  }

  /** A node's depth-size is at least that of each child one level deeper. */
  lemma ParentCoversChild(g: Graph, rank: seq<nat>, horz: bool, space: real, i: nat, m: nat)
    requires Ranked(g, rank) && i < |g| && m < |g[i].children| && Sized(g) && space >= 0.0
    requires CountsAsChild(g, rank, i, g[i].children[m])
    ensures DepthSize(g, rank, horz, space, i) >= DepthSize(g, rank, horz, space, g[i].children[m])
  {
    ChildrenSizeCovers(g, rank, horz, space, i, |g[i].children|);
  }

  /** A node without children one level deeper needs only its own extent. */
  lemma {:induction false} LeafNeedsOwnSize(g: Graph, rank: seq<nat>, horz: bool, space: real, i: nat)
    requires Ranked(g, rank) && i < |g| && Sized(g)
    requires forall m :: 0 <= m < |g[i].children| ==> !CountsAsChild(g, rank, i, g[i].children[m])
    ensures DepthSize(g, rank, horz, space, i) == OwnSize(g[i], horz)
  {
    var n := |g[i].children|;
    if n > 0 {
      NoChildCounted(g, rank, horz, space, i, n);
    }
  }

  lemma {:induction false} NoChildCounted(g: Graph, rank: seq<nat>, horz: bool, space: real, i: nat, k: nat)
    requires Ranked(g, rank) && i < |g| && k <= |g[i].children|
    requires forall m :: 0 <= m < k ==> !CountsAsChild(g, rank, i, g[i].children[m])
    ensures ChildrenSize(g, rank, horz, space, i, k) == 0.0
  {
    if k > 0 {
      NoChildCounted(g, rank, horz, space, i, k - 1);
    }
  }

  /**
   * getDeptSize as the source computes it: a loop over the children,
   * recursing into each child one level deeper.
   */
  method ComputeDepthSize(g: Graph, ghost rank: seq<nat>, horz: bool, space: real, i: nat) returns (r: real)
    requires Ranked(g, rank) && i < |g|
    ensures r == DepthSize(g, rank, horz, space, i)
    decreases |g| - Depth(g, rank, i), |g[i].children| + 1
  {
    var children := g[i].children;
    var depthSize := OwnSize(g[i], horz);
    if |children| > 0 {
      var childDepth := Depth(g, rank, i) + 1;
      var total := 0.0;
      var k := 0;
      while k < |children|
        invariant k <= |children|
        invariant total == ChildrenSize(g, rank, horz, space, i, k)
      {
        var c := children[k];
        if Depth(g, rank, c) == childDepth {
          if total != 0.0 {
            total := total + space;
          }
          var s := ComputeDepthSize(g, rank, horz, space, c);
          total := total + s;
        }
        k := k + 1;
      }
      depthSize := Max(depthSize, total);
    }
    r := depthSize;
  }

  // ---------------------------------------------------------------------
  // Auto layout: depth buckets
  // ---------------------------------------------------------------------

  /** The numeric layout options of the chart. */
  datatype Options = Options(
    /** `autoLayoutDirection === 'horz'`. */
    horz: bool,
    vertSpace: real, horzSpace: real, padding: real,
    nodeHeight: real, nodeMinWidth: real, nodeMaxWidth: real,
    /** 0 when grid snapping is off. */
    adsorptionGrid: real)

  /** Every listed node is in the snapshot. */
  predicate InGraph(g: Graph, auto: seq<nat>)
  {
    forall k :: 0 <= k < |auto| ==> auto[k] < |g|
  }

  /**
   * The extent the auto layout reserves for a node: getDeptSize for a
   * regular node, its own extent for an end node. The spacing passed to
   * getDeptSize is `vertSpace` in both directions.
   */
  function LayoutSize(g: Graph, ghost rank: seq<nat>, o: Options, v: nat): (r: real)
    requires Ranked(g, rank) && v < |g|
    ensures r >= OwnSize(g[v], o.horz)
  {
    if g[v].endType then OwnSize(g[v], o.horz) else DepthSize(g, rank, o.horz, o.vertSpace, v)
  }

  /** An entry of `depthsMap`: the nodes of one depth and the sum of their extents. */
  datatype Bucket = Bucket(list: seq<nat>, size: real)

  /**
   * Adds `v` to bucket `d`, creating the bucket when it is missing; writing
   * past the end grows the JavaScript array and leaves holes (None).
   */
  function Put(b: seq<Option<Bucket>>, d: nat, v: nat, size: real): (r: seq<Option<Bucket>>)
    ensures |r| == if d < |b| then |b| else d + 1
    ensures forall e :: 0 <= e < |r| && e != d ==> r[e] == (if e < |b| then b[e] else None)
    ensures r[d] == if d < |b| && b[d].Some? then Some(Bucket(b[d].value.list + [v], b[d].value.size + size))
                    else Some(Bucket([v], size))
  {
    var grown := if d < |b| then b else b + seq(d + 1 - |b|, _ => None);
    grown[d := if d < |b| && b[d].Some? then Some(Bucket(b[d].value.list + [v], b[d].value.size + size))
               else Some(Bucket([v], size))]
  }

  /** Every bucket lists nodes of the snapshot. */
  predicate BucketsInGraph(g: Graph, buckets: seq<Option<Bucket>>)
  {
    forall d :: 0 <= d < |buckets| && buckets[d].Some? ==> InGraph(g, buckets[d].value.list)
  }

  /** The first loop of the auto layout: each regular node joins the bucket of its depth. */
  function FillDepths(g: Graph, ghost rank: seq<nat>, o: Options, auto: seq<nat>): (r: (seq<Option<Bucket>>, real))
    requires Ranked(g, rank) && InGraph(g, auto)
    ensures BucketsInGraph(g, r.0)
    decreases |auto|
  {
    if auto == [] then ([], 0.0)
    else
      var (b, m) := FillDepths(g, rank, o, auto[..|auto| - 1]);
      var v := auto[|auto| - 1];
      if g[v].endType then (b, m)
      else (Put(b, Depth(g, rank, v), v, LayoutSize(g, rank, o, v)), Max(m, LayoutSize(g, rank, o, v)))
  }

  /** `endDepthNodes`: the end nodes of the list, in order. */
  function EndNodes(g: Graph, auto: seq<nat>): (r: seq<nat>)
    requires InGraph(g, auto)
    ensures InGraph(g, r)
    decreases |auto|
  {
    if auto == [] then []
    else
      var v := auto[|auto| - 1];
      EndNodes(g, auto[..|auto| - 1]) + (if g[v].endType then [v] else [])
  }

  /**
   * The second loop: each end node opens a bucket of its own at the end of
   * `depthsMap` (its depth is re-read as the array's length every time).
   */
  function FillEnds(g: Graph, horz: bool, ends: seq<nat>, b: seq<Option<Bucket>>, m: real): (r: (seq<Option<Bucket>>, real))
    requires InGraph(g, ends)
    ensures |r.0| == |b| + |ends| && r.0[..|b|] == b
    ensures forall k :: 0 <= k < |ends| ==> r.0[|b| + k] == Some(Bucket([ends[k]], OwnSize(g[ends[k]], horz)))
    ensures r.1 >= m && forall k :: 0 <= k < |ends| ==> r.1 >= OwnSize(g[ends[k]], horz)
    ensures BucketsInGraph(g, b) ==> BucketsInGraph(g, r.0)
    decreases |ends|
  {
    if ends == [] then (b, m)
    else
      var (b', m') := FillEnds(g, horz, ends[..|ends| - 1], b, m);
      var v := ends[|ends| - 1];
      (Put(b', |b'|, v, OwnSize(g[v], horz)), Max(m', OwnSize(g[v], horz)))
  }

  /** `depthsMap` and `maxDepthSize` once both loops are done. */
  function Buckets(g: Graph, ghost rank: seq<nat>, o: Options, auto: seq<nat>): (r: (seq<Option<Bucket>>, real))
    requires Ranked(g, rank) && InGraph(g, auto)
    ensures BucketsInGraph(g, r.0)
  {
    var (b, m) := FillDepths(g, rank, o, auto);
    FillEnds(g, o.horz, EndNodes(g, auto), b, m)
  }

  /** The two bucket-filling loops of the auto layout. */
  method FillBuckets(g: Graph, ghost rank: seq<nat>, o: Options, auto: seq<nat>)
    returns (buckets: seq<Option<Bucket>>, maxSize: real)
    requires Ranked(g, rank) && InGraph(g, auto)
    ensures (buckets, maxSize) == Buckets(g, rank, o, auto)
  {
    var ends;
    buckets, maxSize, ends := FillDepthsLoop(g, rank, o, auto);
    buckets, maxSize := FillEndsLoop(g, o.horz, ends, buckets, maxSize);
  }

  /** The first loop: regular nodes into the buckets of their depths, end nodes set aside. */
  method FillDepthsLoop(g: Graph, ghost rank: seq<nat>, o: Options, auto: seq<nat>)
    returns (buckets: seq<Option<Bucket>>, maxSize: real, ends: seq<nat>)
    requires Ranked(g, rank) && InGraph(g, auto)
    ensures (buckets, maxSize) == FillDepths(g, rank, o, auto)
    ensures ends == EndNodes(g, auto)
  {
    buckets, maxSize, ends := [], 0.0, [];
    var i := 0;
    while i < |auto|
      invariant i <= |auto|
      invariant (buckets, maxSize) == FillDepths(g, rank, o, auto[..i])
      invariant ends == EndNodes(g, auto[..i])
    {
      var v := auto[i];
      assert auto[..i + 1][..i] == auto[..i];
      if g[v].endType {
        ends := ends + [v];
      } else {
        var size := LayoutSize(g, rank, o, v);
        buckets := Put(buckets, Depth(g, rank, v), v, size);
        maxSize := Max(maxSize, size);
      }
      i := i + 1;
    }
    assert auto[..i] == auto;
  }

  /** The second loop: one new bucket per end node. */
  method FillEndsLoop(g: Graph, horz: bool, ends: seq<nat>, b: seq<Option<Bucket>>, m: real)
    returns (buckets: seq<Option<Bucket>>, maxSize: real)
    requires InGraph(g, ends)
    ensures (buckets, maxSize) == FillEnds(g, horz, ends, b, m)
  {
    buckets, maxSize := b, m;
    var k := 0;
    while k < |ends|
      invariant k <= |ends|
      invariant (buckets, maxSize) == FillEnds(g, horz, ends[..k], b, m)
    {
      var v := ends[k];
      assert ends[..k + 1][..k] == ends[..k];
      var size := OwnSize(g[v], horz);
      buckets := Put(buckets, |buckets|, v, size);
      maxSize := Max(maxSize, size);
      k := k + 1;
    }
    assert ends[..k] == ends;
  }

  /** After the first loop every bucket d holds only regular listed nodes of depth d. */
  lemma {:induction false} FillDepthsMembers(g: Graph, rank: seq<nat>, o: Options, auto: seq<nat>)
    requires Ranked(g, rank) && InGraph(g, auto)
    ensures var (b, m) := FillDepths(g, rank, o, auto);
            && m >= 0.0
            && forall d, w :: 0 <= d < |b| && b[d].Some? && w in b[d].value.list ==>
                 w in auto && w < |g| && !g[w].endType && Depth(g, rank, w) == d
    decreases |auto|
  {
    if auto != [] {
      var front := auto[..|auto| - 1];
      FillDepthsMembers(g, rank, o, front);
      assert auto == front + [auto[|auto| - 1]];
    }
  }

  /** After the first loop every regular listed node is in the bucket of its depth, and `maxDepthSize` covers it. */
  lemma {:induction false} FillDepthsHolds(g: Graph, rank: seq<nat>, o: Options, auto: seq<nat>)
    requires Ranked(g, rank) && InGraph(g, auto)
    ensures var (b, m) := FillDepths(g, rank, o, auto);
            forall k :: 0 <= k < |auto| && !g[auto[k]].endType ==>
              var d := Depth(g, rank, auto[k]);
              d < |b| && b[d].Some? && auto[k] in b[d].value.list && m >= LayoutSize(g, rank, o, auto[k])
    decreases |auto|
  {
    if auto != [] {
      var front := auto[..|auto| - 1];
      FillDepthsHolds(g, rank, o, front);
      var v := auto[|auto| - 1];
      var (b0, m0) := FillDepths(g, rank, o, front);
      var (b, m) := FillDepths(g, rank, o, auto);
      forall k | 0 <= k < |auto| && !g[auto[k]].endType
        ensures var d := Depth(g, rank, auto[k]);
                d < |b| && b[d].Some? && auto[k] in b[d].value.list && m >= LayoutSize(g, rank, o, auto[k])
      {
        if k < |auto| - 1 {
          assert auto[k] == front[k];
          var d := Depth(g, rank, auto[k]);
          assert d < |b0| && b0[d].Some? && auto[k] in b0[d].value.list;
          if !g[v].endType && Depth(g, rank, v) == d {
            assert b[d].value.list == b0[d].value.list + [v];
          }
        }
      }
    }
  }

  /** The end nodes of the list are exactly its members of end type. */
  lemma {:induction false} EndNodesMembers(g: Graph, auto: seq<nat>)
    requires InGraph(g, auto)
    ensures forall v :: v in EndNodes(g, auto) <==> v in auto && g[v].endType
    decreases |auto|
  {
    if auto != [] {
      var front := auto[..|auto| - 1];
      EndNodesMembers(g, front);
      assert auto == front + [auto[|auto| - 1]];
    }
  }

  /**
   * After both loops every listed node sits in a bucket: a regular node in
   * the bucket of its depth, an end node alone in a bucket past all depth
   * buckets; and `maxDepthSize` covers every listed node's extent.
   */
  lemma BucketsPlaceEveryNode(g: Graph, rank: seq<nat>, o: Options, auto: seq<nat>)
    requires Ranked(g, rank) && InGraph(g, auto)
    ensures var (b, m) := Buckets(g, rank, o, auto);
            && m >= 0.0
            && (forall k :: 0 <= k < |auto| ==> m >= LayoutSize(g, rank, o, auto[k]))
            && (forall k :: 0 <= k < |auto| && !g[auto[k]].endType ==>
                  var d := Depth(g, rank, auto[k]);
                  d < |b| && b[d].Some? && auto[k] in b[d].value.list)
            && (forall k :: 0 <= k < |auto| && g[auto[k]].endType ==>
                  exists d :: |FillDepths(g, rank, o, auto).0| <= d < |b| && b[d] == Some(Bucket([auto[k]], OwnSize(g[auto[k]], o.horz))))
  {
    FillDepthsMembers(g, rank, o, auto);
    FillDepthsHolds(g, rank, o, auto);
    EndNodesMembers(g, auto);
    var (b0, m0) := FillDepths(g, rank, o, auto);
    var ends := EndNodes(g, auto);
    var (b, m) := FillEnds(g, o.horz, ends, b0, m0);
    forall k | 0 <= k < |auto| && !g[auto[k]].endType
      ensures var d := Depth(g, rank, auto[k]); d < |b| && b[d].Some? && auto[k] in b[d].value.list
    {
      var d := Depth(g, rank, auto[k]);
      assert b[..|b0|][d] == b0[d];
    }
    forall k | 0 <= k < |auto| && g[auto[k]].endType
      ensures exists d :: |b0| <= d < |b| && b[d] == Some(Bucket([auto[k]], OwnSize(g[auto[k]], o.horz)))
      ensures m >= LayoutSize(g, rank, o, auto[k])
    {
      assert auto[k] in ends;
      var e :| 0 <= e < |ends| && ends[e] == auto[k];
      assert b[|b0| + e] == Some(Bucket([auto[k]], OwnSize(g[auto[k]], o.horz)));
    }
  }

  // ---------------------------------------------------------------------
  // Auto layout: centred packing
  // ---------------------------------------------------------------------

  /** `nodeSize`: the step along the layout direction reserved for a depth. */
  function NodeExtent(o: Options): real
  {
    if o.horz then (o.nodeMinWidth + o.nodeMaxWidth) / 2.0 else o.nodeHeight
  }

  /** The coordinate along the layout direction of every node of depth `d`. */
  function MainOffset(o: Options, d: nat): real
  {
    o.padding + d as real * (o.vertSpace + NodeExtent(o))
  }

  /** How far past the bucket's first slot the k-th node's slot starts: the slots before it plus one space each. */
  function Start(g: Graph, ghost rank: seq<nat>, o: Options, list: seq<nat>, k: nat): real
    requires Ranked(g, rank) && InGraph(g, list) && k <= |list|
  {
    if k == 0 then 0.0 else Start(g, rank, o, list, k - 1) + LayoutSize(g, rank, o, list[k - 1]) + o.vertSpace
  }

  /** The cross-direction coordinate of the k-th node: centred in its slot. */
  function Cross(g: Graph, ghost rank: seq<nat>, o: Options, list: seq<nat>, first: real, k: nat): real
    requires Ranked(g, rank) && InGraph(g, list) && k < |list|
  {
    first + Start(g, rank, o, list, k) + (LayoutSize(g, rank, o, list[k]) - OwnSize(g[list[k]], o.horz)) / 2.0
  }

  /** The (left, top) a layout puts a node at. */
  function At(o: Options, main: real, cross: real): (real, real)
  {
    if o.horz then (main, cross) else (cross, main)
  }

  /** The positions the packing loop gives the first `k` nodes of bucket `d`. */
  function PlaceList(g: Graph, ghost rank: seq<nat>, o: Options, list: seq<nat>, d: nat, first: real, k: nat): (r: map<nat, (real, real)>)
    requires Ranked(g, rank) && InGraph(g, list) && k <= |list|
    ensures forall v :: v in r <==> v in list[..k]
  {
    if k == 0 then map[]
    else PlaceList(g, rank, o, list, d, first, k - 1)[list[k - 1] := At(o, MainOffset(o, d), Cross(g, rank, o, list, first, k - 1))]
  }

  /** The first slot of a bucket: centred against the widest bucket. */
  function FirstSlot(o: Options, maxSize: real, b: Bucket): real
  {
    o.padding + (maxSize - b.size) / 2.0
  }

  /**
   * The packing loop over the first `n` buckets: None when one of them is
   * a hole, where the source fails reading the size of an undefined entry.
   */
  function PlaceAll(g: Graph, ghost rank: seq<nat>, o: Options, buckets: seq<Option<Bucket>>, maxSize: real, n: nat)
    : (r: Option<map<nat, (real, real)>>)
    requires Ranked(g, rank) && BucketsInGraph(g, buckets) && n <= |buckets|
    ensures r.Some? <==> forall d :: 0 <= d < n ==> buckets[d].Some?
    ensures r.Some? ==> forall v :: v in r.value <==> exists d :: 0 <= d < n && v in buckets[d].value.list
  {
    if n == 0 then Some(map[])
    else
      var prev := PlaceAll(g, rank, o, buckets, maxSize, n - 1);
      if prev.None? || buckets[n - 1].None? then None
      else
        var b := buckets[n - 1].value;
        var here := PlaceList(g, rank, o, b.list, n - 1, FirstSlot(o, maxSize, b), |b.list|);
        assert b.list[..|b.list|] == b.list;
        Some(prev.value + here)
  }

  /** The packing loop of the auto layout. */
  method Pack(g: Graph, ghost rank: seq<nat>, o: Options, buckets: seq<Option<Bucket>>, maxSize: real)
    returns (r: Option<map<nat, (real, real)>>)
    requires Ranked(g, rank) && BucketsInGraph(g, buckets)
    ensures r == PlaceAll(g, rank, o, buckets, maxSize, |buckets|)
  {
    var positions: map<nat, (real, real)> := map[];
    var d := 0;
    while d < |buckets|
      invariant d <= |buckets|
      invariant PlaceAll(g, rank, o, buckets, maxSize, d) == Some(positions)
    {
      if buckets[d].None? {
        return None;
      }
      var here := PackBucket(g, rank, o, buckets[d].value, d, maxSize);
      assert PlaceAll(g, rank, o, buckets, maxSize, d + 1) == Some(positions + here);
      positions := positions + here;
      d := d + 1;
    }
    r := Some(positions);
  }

  /** The inner loop: the nodes of bucket `d`, one slot after another. */
  method PackBucket(g: Graph, ghost rank: seq<nat>, o: Options, b: Bucket, d: nat, maxSize: real)
    returns (here: map<nat, (real, real)>)
    requires Ranked(g, rank) && InGraph(g, b.list)
    ensures here == PlaceList(g, rank, o, b.list, d, FirstSlot(o, maxSize, b), |b.list|)
  {
    var first := FirstSlot(o, maxSize, b);
    var prev := first;
    here := map[];
    var i := 0;
    while i < |b.list|
      invariant i <= |b.list|
      invariant prev == first + Start(g, rank, o, b.list, i)
      invariant here == PlaceList(g, rank, o, b.list, d, first, i)
    {
      var v := b.list[i];
      var size := LayoutSize(g, rank, o, v);
      var cross := prev + (size - OwnSize(g[v], o.horz)) / 2.0;
      here := here[v := At(o, MainOffset(o, d), cross)];
      prev := prev + size + o.vertSpace;
      i := i + 1;
    }
  }

  /** Every node of a bucket gets the spot the packing formula gives its position in the bucket. */
  lemma {:induction false} PlaceListAt(g: Graph, rank: seq<nat>, o: Options, list: seq<nat>, d: nat, first: real, k: nat, j: nat)
    requires Ranked(g, rank) && InGraph(g, list) && j < k <= |list| && NoDuplicates(list)
    ensures PlaceList(g, rank, o, list, d, first, k)[list[j]] == At(o, MainOffset(o, d), Cross(g, rank, o, list, first, j))
  {
    var prev := PlaceList(g, rank, o, list, d, first, k - 1);
    var at := At(o, MainOffset(o, d), Cross(g, rank, o, list, first, k - 1));
    assert PlaceList(g, rank, o, list, d, first, k) == prev[list[k - 1] := at];
    if j < k - 1 {
      PlaceListAt(g, rank, o, list, d, first, k - 1, j);
      assert list[j] != list[k - 1];
    }
  }

  /**
   * Within one bucket the nodes follow one another across the layout
   * direction: each node ends at least `vertSpace` before the next begins.
   */
  lemma {:induction false} PackedApart(g: Graph, rank: seq<nat>, o: Options, list: seq<nat>, first: real, j: nat, k: nat)
    requires Ranked(g, rank) && InGraph(g, list) && Sized(g) && o.vertSpace >= 0.0
    requires j < k < |list|
    ensures Cross(g, rank, o, list, first, j) + OwnSize(g[list[j]], o.horz) + o.vertSpace
         <= Cross(g, rank, o, list, first, k)
  {
    StartGrows(g, rank, o, list, j + 1, k);
  }

  lemma {:induction false} StartGrows(g: Graph, rank: seq<nat>, o: Options, list: seq<nat>, j: nat, k: nat)
    requires Ranked(g, rank) && InGraph(g, list) && Sized(g) && o.vertSpace >= 0.0
    requires j <= k <= |list|
    ensures Start(g, rank, o, list, j) <= Start(g, rank, o, list, k)
    decreases k - j
  {
    if j < k {
      StartGrows(g, rank, o, list, j, k - 1);
      assert LayoutSize(g, rank, o, list[k - 1]) >= OwnSize(g[list[k - 1]], o.horz) >= 0.0;
    }
  }

  // ---------------------------------------------------------------------
  // Auto layout: the overlap fixed point
  // ---------------------------------------------------------------------

  /** A positioned node: its corner and its size. */
  datatype Box = Box(left: real, top: real, width: real, height: real)

  function AsRect(b: Box): Rect
  {
    Rect(Some(b.left), Some(b.top), Some(b.width), Some(b.height))
  }

  /** isIntersectWith on two positioned nodes: neither lies strictly beside, above or below the other. */
  predicate Overlaps(a: Box, b: Box)
  {
    !(b.left + b.width < a.left || b.left > a.left + a.width
      || b.top + b.height < a.top || b.top > a.top + a.height)
  }

  /** Overlaps is the rectangle test of getBounds / isIntersectWith on the two boxes. */
  lemma OverlapsIsIntersect(a: Box, b: Box)
    ensures Overlaps(a, b) <==> Intersects(Derive(AsRect(a)), Derive(AsRect(b)))
    ensures Overlaps(a, b) <==> Overlaps(b, a)
  {
  }

  /** One move of the overlap loop: forward across the depth axis by one space plus the node's own extent. */
  function Nudged(o: Options, b: Box): Box
  {
    if o.horz then b.(top := b.top + o.vertSpace + b.height) else b.(left := b.left + o.horzSpace + b.width)
  }

  /** `n` moves of the overlap loop. */
  function Repeat(o: Options, b: Box, n: nat): Box
  {
    if n == 0 then b else Nudged(o, Repeat(o, b, n - 1))
  }

  /**
   * However many times a node is moved, it keeps its size and its
   * coordinate along the depth axis, and its coordinate across that axis
   * has advanced by that many steps of space plus extent.
   */
  lemma {:induction false} RepeatForward(o: Options, b: Box, n: nat)
    ensures var r := Repeat(o, b, n);
            && r.width == b.width && r.height == b.height
            && (o.horz ==> r.left == b.left && r.top == b.top + n as real * (o.vertSpace + b.height))
            && (!o.horz ==> r.top == b.top && r.left == b.left + n as real * (o.horzSpace + b.width))
  {
    if n > 0 {
      RepeatForward(o, b, n - 1);
    }
  }

  lemma {:induction false} RepeatAdd(o: Options, b: Box, m: nat, n: nat)
    ensures Repeat(o, Repeat(o, b, m), n) == Repeat(o, b, m + n)
  {
    if n > 0 {
      RepeatAdd(o, b, m, n - 1);
    }
  }

  /** No node of the list overlaps one listed before it (and so, by symmetry, none overlaps another). */
  ghost predicate Apart(s: seq<Box>)
  {
    forall i, j :: 0 <= j < i < |s| ==> !Overlaps(s[i], s[j])
  }

  /**
   * The inner loop for node `i`: checked against every node listed before
   * it, from the last one down, and moved each time it overlaps one.
   */
  method CheckRow(boxes: array<Box>, o: Options, i: nat) returns (hit: bool, ghost n: nat)
    requires i < boxes.Length
    modifies boxes
    ensures forall k :: 0 <= k < boxes.Length && k != i ==> boxes[k] == old(boxes[k])
    ensures boxes[i] == Repeat(o, old(boxes[i]), n) && (hit <==> n > 0)
    ensures i == 0 ==> n == 0
    ensures !hit ==> forall j :: 0 <= j < i ==> !Overlaps(boxes[i], boxes[j])
  {
    hit, n := false, 0;
    var j := boxes.Length - 1;
    while j >= 0
      invariant -1 <= j < boxes.Length
      invariant forall k :: 0 <= k < boxes.Length && k != i ==> boxes[k] == old(boxes[k])
      invariant boxes[i] == Repeat(o, old(boxes[i]), n) && (hit <==> n > 0)
      invariant i == 0 ==> n == 0
      invariant !hit ==> forall k :: j < k < i ==> !Overlaps(boxes[i], boxes[k])
    {
      if j < i && Overlaps(boxes[i], boxes[j]) {
        hit := true;
        boxes[i] := Nudged(o, boxes[i]);
        n := n + 1;
      }
      j := j - 1;
    }
  }

  /** One pass of the outer loop body: every node from the last to the first. */
  method Sweep(boxes: array<Box>, o: Options) returns (hit: bool, ghost steps: seq<nat>)
    modifies boxes
    ensures |steps| == boxes.Length
    ensures forall k :: 0 <= k < boxes.Length ==> boxes[k] == Repeat(o, old(boxes[k]), steps[k])
    ensures boxes.Length > 0 ==> steps[0] == 0
    ensures !hit ==> boxes[..] == old(boxes[..]) && Apart(boxes[..])
  {
    hit := false;
    steps := seq(boxes.Length, _ => 0);
    var i := boxes.Length - 1;
    while i >= 0
      invariant -1 <= i < boxes.Length
      invariant |steps| == boxes.Length
      invariant forall k :: 0 <= k < boxes.Length ==> boxes[k] == Repeat(o, old(boxes[k]), steps[k])
      invariant forall k :: 0 <= k <= i ==> steps[k] == 0
      invariant boxes.Length > 0 ==> steps[0] == 0
      invariant !hit ==> boxes[..] == old(boxes[..])
      invariant !hit ==> forall a, b :: 0 <= b < a < boxes.Length && i < a ==> !Overlaps(boxes[a], boxes[b])
    {
      var rowHit;
      ghost var n;
      rowHit, n := CheckRow(boxes, o, i);
      steps := steps[i := n];
      if rowHit {
        hit := true;
      }
      i := i - 1;
    }
  }

  /**
   * `while (needCheckOverlay)`: sweep until a pass moves nothing, for at
   * most `fuel` passes. When it converges no two nodes overlap; every node
   * has only been moved forward across the depth axis, and the first
   * node has not moved.
   */
  method Unoverlap(boxes: array<Box>, o: Options, fuel: nat) returns (converged: bool, ghost steps: seq<nat>)
    modifies boxes
    ensures |steps| == boxes.Length
    ensures forall k :: 0 <= k < boxes.Length ==> boxes[k] == Repeat(o, old(boxes[k]), steps[k])
    ensures boxes.Length > 0 ==> steps[0] == 0
    ensures converged ==> Apart(boxes[..])
  {
    var needCheck := true;
    var rounds := fuel;
    steps := seq(boxes.Length, _ => 0);
    while needCheck && rounds > 0
      invariant |steps| == boxes.Length
      invariant forall k :: 0 <= k < boxes.Length ==> boxes[k] == Repeat(o, old(boxes[k]), steps[k])
      invariant boxes.Length > 0 ==> steps[0] == 0
      invariant !needCheck ==> Apart(boxes[..])
    {
      ghost var before := boxes[..];
      ghost var more;
      needCheck, more := Sweep(boxes, o);
      forall k | 0 <= k < boxes.Length
        ensures boxes[k] == Repeat(o, old(boxes[k]), steps[k] + more[k])
      {
        RepeatAdd(o, old(boxes[k]), steps[k], more[k]);
      }
      steps := seq(boxes.Length, k requires 0 <= k < boxes.Length => steps[k] + more[k]);
      rounds := rounds - 1;
    }
    converged := !needCheck;
  }

  // ---------------------------------------------------------------------
  // Auto layout: the whole block
  // ---------------------------------------------------------------------

  /** Every listed node is in one of the buckets. */
  lemma BucketsHoldAll(g: Graph, rank: seq<nat>, o: Options, auto: seq<nat>)
    requires Ranked(g, rank) && InGraph(g, auto)
    ensures var b := Buckets(g, rank, o, auto).0;
            forall k :: 0 <= k < |auto| ==> exists d, j :: 0 <= d < |b| && b[d].Some? && 0 <= j < |b[d].value.list| && b[d].value.list[j] == auto[k]
  {
    BucketsPlaceEveryNode(g, rank, o, auto);
    var b0 := FillDepths(g, rank, o, auto).0;
    var b := Buckets(g, rank, o, auto).0;
    forall k | 0 <= k < |auto|
      ensures exists d, j :: 0 <= d < |b| && b[d].Some? && 0 <= j < |b[d].value.list| && b[d].value.list[j] == auto[k]
    {
      if g[auto[k]].endType {
        var d :| |b0| <= d < |b| && b[d] == Some(Bucket([auto[k]], OwnSize(g[auto[k]], o.horz)));
        assert b[d].value.list[0] == auto[k];
      } else {
        var d := Depth(g, rank, auto[k]);
        var j :| 0 <= j < |b[d].value.list| && b[d].value.list[j] == auto[k];
      }
    }
  }

  /** The box of each listed node at the position the packing gave it. */
  function Packed(g: Graph, auto: seq<nat>, pos: map<nat, (real, real)>): (r: seq<Box>)
    requires InGraph(g, auto) && forall k :: 0 <= k < |auto| ==> auto[k] in pos
    ensures |r| == |auto|
  {
    seq(|auto|, k requires 0 <= k < |auto| => Box(pos[auto[k]].0, pos[auto[k]].1, g[auto[k]].width, g[auto[k]].height))
  }

  /** Once the packing succeeds, every listed node has a position. */
  lemma AllPacked(g: Graph, rank: seq<nat>, o: Options, auto: seq<nat>)
    requires Ranked(g, rank) && InGraph(g, auto)
    ensures var (b, m) := Buckets(g, rank, o, auto);
            var p := PlaceAll(g, rank, o, b, m, |b|);
            p.Some? ==> forall k :: 0 <= k < |auto| ==> auto[k] in p.value
  {
    BucketsHoldAll(g, rank, o, auto);
  }

  /** The boxes of the listed nodes, in a new array. */
  method BoxesAt(g: Graph, auto: seq<nat>, pos: map<nat, (real, real)>) returns (boxes: array<Box>)
    requires InGraph(g, auto) && forall k :: 0 <= k < |auto| ==> auto[k] in pos
    ensures fresh(boxes) && boxes[..] == Packed(g, auto, pos)
  {
    boxes := new Box[|auto|];
    var i := 0;
    while i < |auto|
      invariant i <= |auto|
      invariant boxes[..i] == Packed(g, auto, pos)[..i]
    {
      var v := auto[i];
      boxes[i] := Box(pos[v].0, pos[v].1, g[v].width, g[v].height);
      i := i + 1;
    }
    assert boxes[..] == boxes[..i];
  }

  /** The positions the packing gives the listed nodes (a hole leaves none). */
  function PackedPositions(g: Graph, ghost rank: seq<nat>, o: Options, auto: seq<nat>): Option<map<nat, (real, real)>>
    requires Ranked(g, rank) && InGraph(g, auto)
  {
    var (b, m) := Buckets(g, rank, o, auto);
    PlaceAll(g, rank, o, b, m, |b|)
  }

  /**
   * The auto-layout block of `render` for the nodes without a position:
   * fill the depth buckets, pack them, then run the overlap loop for at
   * most `fuel` passes. It fails exactly when the packing meets a hole,
   * a depth below the last bucket that no listed node has.
   */
  method AutoLayout(g: Graph, ghost rank: seq<nat>, o: Options, auto: seq<nat>, fuel: nat)
    returns (r: Result<seq<Box>, string>, converged: bool, ghost steps: seq<nat>)
    requires Ranked(g, rank) && InGraph(g, auto)
    ensures var b := Buckets(g, rank, o, auto).0; r.Ok? <==> forall d :: 0 <= d < |b| ==> b[d].Some?
    ensures r.Ok? ==>
              var pos := PackedPositions(g, rank, o, auto);
              && pos.Some? && (forall k :: 0 <= k < |auto| ==> auto[k] in pos.value)
              && |r.value| == |auto| == |steps|
              && (forall k :: 0 <= k < |auto| ==> r.value[k] == Repeat(o, Packed(g, auto, pos.value)[k], steps[k]))
              && (|auto| > 0 ==> steps[0] == 0)
              && (converged ==> Apart(r.value))
  {
    var buckets, maxSize := FillBuckets(g, rank, o, auto);
    var placed := Pack(g, rank, o, buckets, maxSize);
    if placed.None? {
      return Err("depthsMap has a hole"), false, [];
    }
    AllPacked(g, rank, o, auto);
    var boxes := BoxesAt(g, auto, placed.value);
    converged, steps := Unoverlap(boxes, o, fuel);
    r := Ok(boxes[..]);
  }

  // ---------------------------------------------------------------------
  // layoutNode
  // ---------------------------------------------------------------------

  /** The union of the positioned parents' boxes. */
  datatype Edges = Edges(left: real, top: real, right: real, bottom: real)

  /** Grows the union by one parent box (the first one starts it). */
  function Join(e: Option<Edges>, b: Box): (r: Edges)
    ensures r.left <= b.left && r.top <= b.top && r.right >= b.left + b.width && r.bottom >= b.top + b.height
    ensures e.Some? ==> r.left <= e.value.left && r.top <= e.value.top && r.right >= e.value.right && r.bottom >= e.value.bottom
  {
    if e.None? then Edges(b.left, b.top, b.width + b.left, b.height + b.top)
    else Edges(Min(e.value.left, b.left), Min(e.value.top, b.top),
               Max(e.value.right, b.width + b.left), Max(e.value.bottom, b.height + b.top))
  }

  /**
   * The inner forEach over a parent's children: every child that has no
   * sibling index yet gets the next value of the shared counter.
   */
  function Assign(children: seq<nat>, sibs: map<nat, nat>, c: nat): (r: (map<nat, nat>, nat))
    ensures r.1 >= c
    ensures r.0.Keys == sibs.Keys + set k | 0 <= k < |children| :: children[k]
    ensures forall v :: v in sibs ==> r.0[v] == sibs[v]
    decreases |children|
  {
    if children == [] then (sibs, c)
    else
      var (s, n) := Assign(children[..|children| - 1], sibs, c);
      var v := children[|children| - 1];
      assert children == children[..|children| - 1] + [v];
      if v in s then (s, n) else (s[v := n], n + 1)
  }

  /** Distinct sibling indices, all below the counter. */
  predicate Numbered(sibs: map<nat, nat>, c: nat)
  {
    && (forall v :: v in sibs ==> sibs[v] < c)
    && (forall v, w :: v in sibs && w in sibs && v != w ==> sibs[v] != sibs[w])
  }

  /** Numbering keeps the indices distinct and below the counter; the children already numbered keep theirs. */
  lemma {:induction false} AssignNumbers(children: seq<nat>, sibs: map<nat, nat>, c: nat)
    requires Numbered(sibs, c)
    ensures var (s, n) := Assign(children, sibs, c); Numbered(s, n)
    decreases |children|
  {
    if children != [] {
      AssignNumbers(children[..|children| - 1], sibs, c);
    }
  }

  /** Where the parent forEach has got to: the union so far, the sibling indices, and the shared counter. */
  datatype Joined = Joined(union: Option<Edges>, sibs: map<nat, nat>, counter: nat)

  /**
   * The forEach over the first `k` parents of node `i`: an unpositioned
   * parent is skipped; a positioned one widens the union and, while node
   * `i` has no sibling index, numbers that parent's children.
   */
  function JoinParents(g: Graph, i: nat, boxes: seq<Option<Box>>, sibs: map<nat, nat>, k: nat): (r: Joined)
    requires WellFormed(g) && i < |g| && |boxes| == |g[i].parents| && k <= |boxes|
    ensures r.union.None? <==> forall m :: 0 <= m < k ==> boxes[m].None?
    decreases k
  {
    if k == 0 then Joined(None, sibs, 0)
    else
      var prev := JoinParents(g, i, boxes, sibs, k - 1);
      if boxes[k - 1].None? then prev
      else
        var u := Join(prev.union, boxes[k - 1].value);
        if i in prev.sibs then prev.(union := Some(u))
        else
          var (s, n) := Assign(g[g[i].parents[k - 1]].children, prev.sibs, prev.counter);
          Joined(Some(u), s, n)
  }

  /** The union covers every positioned parent. */
  lemma {:induction false} UnionCoversParents(g: Graph, i: nat, boxes: seq<Option<Box>>, sibs: map<nat, nat>, k: nat)
    requires WellFormed(g) && i < |g| && |boxes| == |g[i].parents| && k <= |boxes|
    ensures var u := JoinParents(g, i, boxes, sibs, k).union;
            forall m :: 0 <= m < k && boxes[m].Some? ==>
              var b := boxes[m].value;
              u.value.left <= b.left && u.value.top <= b.top && u.value.right >= b.left + b.width && u.value.bottom >= b.top + b.height
    decreases k
  {
    if k > 0 {
      UnionCoversParents(g, i, boxes, sibs, k - 1);
    }
  }

  /** The parent forEach of layoutNode with its nested children forEach. */
  method JoinParentsLoop(g: Graph, i: nat, boxes: seq<Option<Box>>, sibs: map<nat, nat>) returns (r: Joined)
    requires WellFormed(g) && i < |g| && |boxes| == |g[i].parents|
    ensures r == JoinParents(g, i, boxes, sibs, |boxes|)
  {
    var union: Option<Edges> := None;
    var numbered: map<nat, nat> := sibs;
    var counter := 0;
    var k := 0;
    while k < |boxes|
      invariant k <= |boxes|
      invariant Joined(union, numbered, counter) == JoinParents(g, i, boxes, sibs, k)
    {
      if boxes[k].Some? {
        union := Some(Join(union, boxes[k].value));
        if i !in numbered {
          numbered, counter := AssignLoop(g[g[i].parents[k]].children, numbered, counter);
        }
      }
      k := k + 1;
    }
    r := Joined(union, numbered, counter);
  }

  /** The children forEach: numbers, in order, every child not numbered yet. */
  method AssignLoop(children: seq<nat>, sibs: map<nat, nat>, c: nat) returns (numbered: map<nat, nat>, counter: nat)
    ensures (numbered, counter) == Assign(children, sibs, c)
  {
    numbered, counter := sibs, c;
    var m := 0;
    while m < |children|
      invariant m <= |children|
      invariant (numbered, counter) == Assign(children[..m], sibs, c)
    {
      assert children[..m + 1][..m] == children[..m];
      if children[m] !in numbered {
        numbered := numbered[children[m] := counter];
        counter := counter + 1;
      }
      m := m + 1;
    }
    assert children[..m] == children;
  }

  /** The bounds and position of a node as layoutNode reads and leaves them; a coordinate that is NaN is None. */
  datatype NodeState = NodeState(left: Option<real>, top: Option<real>, position: NodePosition)

  function Floor(x: real): real { x.Floor as real }

  /** `Math.round(x / grid) * grid`. */
  function Snap(x: real, grid: real): real
    requires grid != 0.0
  {
    (x / grid + 0.5).Floor as real * grid
  }

  /** Snapping a coordinate that is NaN leaves NaN. */
  function SnapCoord(x: Option<real>, grid: real): (r: Option<real>)
    requires grid != 0.0
    ensures r.Some? <==> x.Some?
  {
    if x.Some? then Some(Snap(x.value, grid)) else None
  }

  /** The placement relative to the direction anchor: beside it on the named side, one space away. */
  function BesideAnchor(side: Side, a: Box, w: real, h: real, o: Options): (real, real)
  {
    match side
    case Top => (Floor(a.left + a.width / 2.0 - w / 2.0), a.top - o.vertSpace - h)
    case Left => (a.left - o.horzSpace - w, Floor(a.top + a.height / 2.0 - h / 2.0))
    case Bottom => (Floor(a.left + a.width / 2.0 - w / 2.0), a.top + a.height + o.vertSpace)
    case Right => (a.left + a.width + o.horzSpace, Floor(a.top + a.height / 2.0 - h / 2.0))
  }

  /** The placement below the parents' union (right of it in the horizontal layout), offset by the sibling index. */
  function BelowParents(u: Edges, sibling: Option<nat>, o: Options): (r: (Option<real>, Option<real>))
  {
    if o.horz then
      (Some(u.right + o.horzSpace),
       if sibling.Some? then Some(u.top + sibling.value as real * (o.nodeHeight + o.vertSpace)) else None)
    else
      (if sibling.Some? then Some(u.left + sibling.value as real * (o.nodeMinWidth + o.horzSpace)) else None,
       Some(u.bottom + o.vertSpace))
  }

  /** The placement of an orphan: at the canvas's left, below what the canvas holds. */
  function BelowCanvas(c: Area, o: Options): (real, real)
  {
    (c.left, c.top + c.height + (if c.height <= o.padding then 0.0 else o.vertSpace - o.padding))
  }

  /** Whether layoutNode computes a new position: the node has none, or it was never marked custom. */
  predicate NeedsPlacing(s: NodeState)
  {
    !(s.left.Some? && s.top.Some?) || s.position.custom == Unset
  }

  /**
   * layoutNode on node `i`. `anchor` is the box of the element that
   * `position.from` names, when there is one; `parentBoxes` holds the box
   * of each parent that has a position; `sibs` the sibling indices given
   * so far. The four placements are tried in the source's order: the
   * centre point, the direction anchor, the parents, the canvas. Grid
   * snapping follows unless `skipPosition`. Err is the TypeError raised
   * when no parent has a position.
   */
  function LayoutNode(g: Graph, i: nat, s: NodeState, anchor: Option<Box>, parentBoxes: seq<Option<Box>>,
                      sibs: map<nat, nat>, canvas: Area, o: Options, skipPosition: bool)
    : (r: Result<(NodeState, map<nat, nat>), string>)
    requires WellFormed(g) && i < |g| && |parentBoxes| == |g[i].parents|
    ensures r.Err? <==> NeedsPlacing(s) && PlacedFromParents(g, i, s, anchor) && forall m :: 0 <= m < |parentBoxes| ==> parentBoxes[m].None?
    ensures r.Ok? && NeedsPlacing(s) ==> r.value.0.position.custom != Unset
    ensures r.Ok? && !NeedsPlacing(s) ==> r.value.0.position == s.position && r.value.1 == sibs
  {
    var placed :=
      if !NeedsPlacing(s) then Ok((s, sibs))
      else
        var w, h := g[i].width, g[i].height;
        var p := s.position;
        if p.centerLeft.Some? && p.centerTop.Some? then
          Ok((NodeState(Some(p.centerLeft.value - Floor(w / 2.0)), Some(p.centerTop.value - Floor(h / 2.0)), p), sibs))
        else if FromAnchor(s, anchor) then
          var (l, t) := BesideAnchor(SideNamed(p.direction.value).value, anchor.value, w, h, o);
          Ok((NodeState(Some(l), Some(t), p.(direction := None, from := None, custom := AutoCustom)), sibs))
        else if |g[i].parents| > 0 then
          var j := JoinParents(g, i, parentBoxes, sibs, |parentBoxes|);
          if j.union.None? then Err("no parent has a position")
          else
            var (l, t) := BelowParents(j.union.value, if i in j.sibs then Some(j.sibs[i]) else None, o);
            Ok((NodeState(l, t, p), j.sibs))
        else
          var (l, t) := BelowCanvas(canvas, o);
          Ok((NodeState(Some(l), Some(t), p), sibs));
    if placed.Err? then placed
    else
      var (n, sb) := placed.value;
      var marked := if NeedsPlacing(s) && n.position.custom == Unset then n.(position := n.position.(custom := Manual)) else n;
      if !skipPosition && o.adsorptionGrid != 0.0 then
        Ok((marked.(left := SnapCoord(marked.left, o.adsorptionGrid), top := SnapCoord(marked.top, o.adsorptionGrid)), sb))
      else Ok((marked, sb))
  }

  /** The direction branch applies: a known side, a `from` reference, and an element it names. */
  predicate FromAnchor(s: NodeState, anchor: Option<Box>)
  {
    s.position.direction.Some? && SideNamed(s.position.direction.value).Some? && s.position.from.Some? && anchor.Some?
  }

  /** The parent branch applies: no centre point and no usable anchor, but some parent. */
  predicate PlacedFromParents(g: Graph, i: nat, s: NodeState, anchor: Option<Box>)
    requires i < |g|
  {
    !(s.position.centerLeft.Some? && s.position.centerTop.Some?) && !FromAnchor(s, anchor) && |g[i].parents| > 0
  }

  /** A node with a position that is marked custom keeps its place; only grid snapping may move it. */
  lemma PinnedNodeStays(g: Graph, i: nat, s: NodeState, anchor: Option<Box>, parentBoxes: seq<Option<Box>>,
                        sibs: map<nat, nat>, canvas: Area, o: Options)
    requires WellFormed(g) && i < |g| && |parentBoxes| == |g[i].parents| && !NeedsPlacing(s)
    ensures LayoutNode(g, i, s, anchor, parentBoxes, sibs, canvas, o, true) == Ok((s, sibs))
    ensures o.adsorptionGrid == 0.0 ==> LayoutNode(g, i, s, anchor, parentBoxes, sibs, canvas, o, false) == Ok((s, sibs))
  {
  }

  /** Placed from its centre point, the node's box is centred there (to the pixel below). */
  lemma CentredOnCentrePoint(g: Graph, i: nat, s: NodeState, anchor: Option<Box>, parentBoxes: seq<Option<Box>>,
                             sibs: map<nat, nat>, canvas: Area, o: Options)
    requires WellFormed(g) && i < |g| && |parentBoxes| == |g[i].parents| && NeedsPlacing(s)
    requires s.position.centerLeft.Some? && s.position.centerTop.Some?
    ensures var r := LayoutNode(g, i, s, anchor, parentBoxes, sibs, canvas, o, true);
            && r.Ok? && r.value.1 == sibs
            && var n := r.value.0;
            && n.left.Some? && n.top.Some?
            && s.position.centerLeft.value <= n.left.value + g[i].width / 2.0 < s.position.centerLeft.value + 1.0
            && s.position.centerTop.value <= n.top.value + g[i].height / 2.0 < s.position.centerTop.value + 1.0
  {
    var w, h := g[i].width, g[i].height;
    FloorHalf(w);
    FloorHalf(h);
  }

  lemma FloorHalf(w: real)
    ensures w / 2.0 - 1.0 < Floor(w / 2.0) <= w / 2.0
  {
  }

  /**
   * Placed beside its direction anchor, the node keeps one space (positive
   * spacing) between itself and the anchor, so the two do not intersect;
   * the direction and its anchor are used up and the node is marked 'auto'.
   */
  lemma BesideAnchorClear(g: Graph, i: nat, s: NodeState, anchor: Option<Box>, parentBoxes: seq<Option<Box>>,
                          sibs: map<nat, nat>, canvas: Area, o: Options)
    requires WellFormed(g) && i < |g| && |parentBoxes| == |g[i].parents| && NeedsPlacing(s)
    requires !(s.position.centerLeft.Some? && s.position.centerTop.Some?) && FromAnchor(s, anchor)
    requires o.vertSpace > 0.0 && o.horzSpace > 0.0 && g[i].width >= 0.0 && g[i].height >= 0.0
    requires anchor.value.width >= 0.0 && anchor.value.height >= 0.0
    ensures var r := LayoutNode(g, i, s, anchor, parentBoxes, sibs, canvas, o, true);
            && r.Ok? && r.value.1 == sibs
            && var n := r.value.0;
            && n.left.Some? && n.top.Some?
            && !Overlaps(Box(n.left.value, n.top.value, g[i].width, g[i].height), anchor.value)
            && n.position == s.position.(direction := None, from := None, custom := AutoCustom)
  {
  }

  /**
   * Placed from its parents, the node starts one space past the bottom
   * (right, in the horizontal layout) of every positioned parent.
   */
  lemma BelowEveryParent(g: Graph, i: nat, s: NodeState, anchor: Option<Box>, parentBoxes: seq<Option<Box>>,
                         sibs: map<nat, nat>, canvas: Area, o: Options)
    requires WellFormed(g) && i < |g| && |parentBoxes| == |g[i].parents| && NeedsPlacing(s)
    requires PlacedFromParents(g, i, s, anchor)
    ensures var r := LayoutNode(g, i, s, anchor, parentBoxes, sibs, canvas, o, true);
            r.Ok? ==>
              var n := r.value.0;
              forall m :: 0 <= m < |parentBoxes| && parentBoxes[m].Some? ==>
                var b := parentBoxes[m].value;
                && (!o.horz ==> n.top.Some? && n.top.value >= b.top + b.height + o.vertSpace)
                && (o.horz ==> n.left.Some? && n.left.value >= b.left + b.width + o.horzSpace)
  {
    UnionCoversParents(g, i, parentBoxes, sibs, |parentBoxes|);
  }

  /** Children numbered by the parent loop get distinct sibling indices. */
  lemma {:induction false} JoinKeepsNumbering(g: Graph, i: nat, boxes: seq<Option<Box>>, sibs: map<nat, nat>, k: nat)
    requires WellFormed(g) && i < |g| && |boxes| == |g[i].parents| && k <= |boxes| && Numbered(sibs, 0)
    ensures var j := JoinParents(g, i, boxes, sibs, k); Numbered(j.sibs, j.counter)
    decreases k
  {
    if k > 0 {
      JoinKeepsNumbering(g, i, boxes, sibs, k - 1);
      var prev := JoinParents(g, i, boxes, sibs, k - 1);
      if boxes[k - 1].Some? && i !in prev.sibs {
        AssignNumbers(g[g[i].parents[k - 1]].children, prev.sibs, prev.counter);
      }
    }
  }

  /** Grid snapping lands on a multiple of the grid, at most half a cell away. */
  lemma SnapOnGrid(x: real, grid: real)
    requires grid > 0.0
    ensures var r := Snap(x, grid);
            && (r / grid).Floor as real == r / grid
            && x - grid / 2.0 < r <= x + grid / 2.0
  {
    var q := x / grid + 0.5;
    var f := q.Floor as real;
    var r := Snap(x, grid);
    assert r == f * grid;
    assert r / grid == f;
    assert q - 1.0 < f <= q;
    assert x / grid * grid == x;
    assert q * grid == x + grid / 2.0 && (q - 1.0) * grid == x - grid / 2.0;
    MulStrict(q - 1.0, f, grid);
    MulWeak(f, q, grid);
  }

  lemma MulStrict(a: real, b: real, c: real)
    requires a < b && c > 0.0
    ensures a * c < b * c
  {
  }

  lemma MulWeak(a: real, b: real, c: real)
    requires a <= b && c > 0.0
    ensures a * c <= b * c
  {
  }
}
