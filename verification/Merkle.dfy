/**
  The Merkle root of a block's transaction IDs: the layer-by-layer loop, the perfect binary tree
  it computes, and what equal roots say about the lists.
 */
module Merkle {
  import opened ByteStrings
  import opened Base
  import opened Types

  /** 64 hex zeros: the root stored for an empty list. */
  const ZERO_MERKLE_ROOT: Bytes := Zeros(64)

  // ---------------------------------------------------------------------------
  // The tree
  // ---------------------------------------------------------------------------

  function Pow2(d: nat): (p: nat)
    ensures p > 0
  {
    if d == 0 then 1 else 2 * Pow2(d - 1)
  }

  /** Number of rounds that bring `n` nodes down to one. */
  function Depth(n: nat): nat {
    if n <= 1 then 0 else 1 + Depth((n + 1) / 2)
  }

  /** The number of rounds is the binary logarithm, rounded up. */
  lemma {:induction false} DepthIsCeilLog2(n: nat)
    requires n > 0
    ensures n <= Pow2(Depth(n))
    ensures n > 1 ==> Pow2(Depth(n) - 1) < n
  {
    if n > 1 {
      DepthIsCeilLog2((n + 1) / 2);
    }
  }

  /** The node of height `d` above the leaves `lo` to `lo + 2^d - 1`. */
  function Node(h: Hash, s: seq<Bytes>, lo: nat, d: nat): Bytes
    requires lo + Pow2(d) <= |s|
    decreases d
  {
    if d == 0 then s[lo] else h(Node(h, s, lo, d - 1) + Node(h, s, lo + Pow2(d - 1), d - 1))
  }

  /** Which of `n` leaves stands at place `i` of the padded bottom layer of a tree of depth `d`:
      follow the path to place `i` from the root, and wherever a layer of odd length has no right
      child take its last node instead. */
  function LeafIndex(n: nat, d: nat, i: nat): (j: nat)
    requires n > 0 && i < Pow2(d)
    ensures j < n
  {
    if d == 0 then 0
    else
      var parent := LeafIndex((n + 1) / 2, d - 1, i / 2);
      if 2 * parent + i % 2 < n then 2 * parent + i % 2 else n - 1
  }

  /** The first `k` places of the padded bottom layer. */
  function PadUpTo(s: seq<Bytes>, d: nat, k: nat): (p: seq<Bytes>)
    requires |s| > 0 && k <= Pow2(d)
    ensures |p| == k
  {
    if k == 0 then [] else PadUpTo(s, d, k - 1) + [s[LeafIndex(|s|, d, k - 1)]]
  }

  /** The bottom layer, padded by the duplications of every layer above it. */
  function Pad(s: seq<Bytes>): (p: seq<Bytes>)
    requires |s| > 0
    ensures |p| == Pow2(Depth(|s|))
  {
    PadUpTo(s, Depth(|s|), Pow2(Depth(|s|)))
  }

  lemma {:induction false} PadAt(s: seq<Bytes>, d: nat, k: nat, i: nat)
    requires |s| > 0 && i < k <= Pow2(d)
    ensures PadUpTo(s, d, k)[i] == s[LeafIndex(|s|, d, i)]
  {
    if i < k - 1 {
      PadAt(s, d, k - 1, i);
    }
  }

  /** The root node over the leaves `s`. */
  function Root(h: Hash, s: seq<Bytes>): Bytes
    requires |s| > 0
  {
    Node(h, Pad(s), 0, Depth(|s|))
  }

  /** A leaf is the decoded ID, or the digest of the text of an ID that is no hex. */
  function Leaf(h: Hash, id: Bytes): Bytes {
    match HexDecode(id)
    case Some(b) => b
    case None => h(id)
  }

  function Leaves(h: Hash, txs: seq<Transaction>): (s: seq<Bytes>)
    ensures |s| == |txs|
    ensures forall i :: 0 <= i < |txs| ==> s[i] == Leaf(h, txs[i].id)
  {
    if |txs| == 0 then [] else Leaves(h, txs[..|txs| - 1]) + [Leaf(h, txs[|txs| - 1].id)]
  }

  function MerkleOf(h: Hash, txs: seq<Transaction>): Bytes {
    if |txs| == 0 then ZERO_MERKLE_ROOT else HexEncode(Root(h, Leaves(h, txs)))
  }

  // ---------------------------------------------------------------------------
  // Layers
  // ---------------------------------------------------------------------------

  /** A layer made even by duplicating its last node. */
  function Even(layer: seq<Bytes>): (e: seq<Bytes>)
    requires |layer| > 0
    ensures |e| % 2 == 0
  {
    if |layer| % 2 != 0 then layer + [layer[|layer| - 1]] else layer
  }

  /** The first `k` nodes of the layer above. */
  function AboveUpTo(h: Hash, layer: seq<Bytes>, k: nat): (next: seq<Bytes>)
    requires 2 * k <= |layer|
    ensures |next| == k
  {
    if k == 0 then [] else AboveUpTo(h, layer, k - 1) + [h(layer[2 * k - 2] + layer[2 * k - 1])]
  }

  /** The layer above. */
  function Above(h: Hash, layer: seq<Bytes>): (next: seq<Bytes>)
    ensures |next| == |layer| / 2
  {
    AboveUpTo(h, layer, |layer| / 2)
  }

  lemma {:induction false} AboveUpToAt(h: Hash, layer: seq<Bytes>, k: nat, i: nat)
    requires i < k && 2 * k <= |layer|
    ensures AboveUpTo(h, layer, k)[i] == h(layer[2 * i] + layer[2 * i + 1])
  {
    if i < k - 1 {
      AboveUpToAt(h, layer, k - 1, i);
    }
  }

  lemma AboveAt(h: Hash, layer: seq<Bytes>, i: nat)
    requires 2 * i + 1 < |layer|
    ensures Above(h, layer)[i] == h(layer[2 * i] + layer[2 * i + 1])
  {
    AboveUpToAt(h, layer, |layer| / 2, i);
  }

  /** A tree built from the bottom up is the one split from the top down. */
  lemma {:induction false} NodeByLayer(h: Hash, s: seq<Bytes>, lo: nat, d: nat)
    requires d > 0 && 2 * lo + Pow2(d) <= |s|
    ensures lo + Pow2(d - 1) <= |Above(h, s)|
    ensures Node(h, s, 2 * lo, d) == Node(h, Above(h, s), lo, d - 1)
    decreases d
  {
    hide Above;
    if d == 1 {
      AboveAt(h, s, lo);
      assert Node(h, s, 2 * lo + 1, 0) == s[2 * lo + 1];
    } else {
      NodeByLayer(h, s, lo, d - 1);
      NodeByLayer(h, s, lo + Pow2(d - 2), d - 1);
    }
  }

  /** The two children of a node, after padding. */
  lemma LeafIndexChildren(n: nat, j: nat)
    requires n > 1 && j < Pow2(Depth(n) - 1)
    ensures var parent := LeafIndex((n + 1) / 2, Depth(n) - 1, j);
            && LeafIndex(n, Depth(n), 2 * j) == 2 * parent
            && LeafIndex(n, Depth(n), 2 * j + 1) == if 2 * parent + 1 < n then 2 * parent + 1 else n - 1
  {
    assert (2 * j) / 2 == j && (2 * j + 1) / 2 == j;
  }

  lemma EvenAt(s: seq<Bytes>, i: nat)
    requires |s| > 0 && i < |Even(s)|
    ensures Even(s)[i] == s[if i < |s| then i else |s| - 1]
  {
  }

  /** A node of the layer above, from the unpadded layer. */
  lemma AboveEvenAt(h: Hash, s: seq<Bytes>, p: nat)
    requires |s| > 0 && 2 * p < |s|
    ensures p < |Above(h, Even(s))|
    ensures Above(h, Even(s))[p] == h(s[2 * p] + s[if 2 * p + 1 < |s| then 2 * p + 1 else |s| - 1])
  {
    EvenAt(s, 2 * p);
    EvenAt(s, 2 * p + 1);
    AboveAt(h, Even(s), p);
  }

  /** A node of the layer above the padded bottom layer. */
  lemma AbovePadAt(h: Hash, s: seq<Bytes>, j: nat)
    requires |s| > 1 && j < Pow2(Depth(|s|) - 1)
    ensures j < |Above(h, Pad(s))|
    ensures Above(h, Pad(s))[j] ==
            h(s[LeafIndex(|s|, Depth(|s|), 2 * j)] + s[LeafIndex(|s|, Depth(|s|), 2 * j + 1)])
  {
    PadAt(s, Depth(|s|), Pow2(Depth(|s|)), 2 * j);
    PadAt(s, Depth(|s|), Pow2(Depth(|s|)), 2 * j + 1);
    AboveAt(h, Pad(s), j);
  }

  lemma EvenHalf(s: seq<Bytes>)
    requires |s| > 0
    ensures |Even(s)| / 2 == (|s| + 1) / 2
  {
  }

  lemma DepthStep(n: nat)
    requires n > 1
    ensures Depth(n) > 0 && Depth((n + 1) / 2) == Depth(n) - 1 && (n + 1) / 2 > 0
    ensures Pow2(Depth(n)) / 2 == Pow2(Depth(n) - 1)
  {
  }

  lemma PadLengths(h: Hash, s: seq<Bytes>)
    requires |s| > 1
    ensures |Above(h, Even(s))| == (|s| + 1) / 2
    ensures |Above(h, Pad(s))| == |Pad(Above(h, Even(s)))| == Pow2(Depth(|s|) - 1)
  {
    hide Pad, Above, Even, Depth, Pow2;
    EvenHalf(s);
    DepthStep(|s|);
  }

  lemma PadUpAt(h: Hash, s: seq<Bytes>, j: nat)
    requires |s| > 1 && j < Pow2(Depth(|s|) - 1)
    ensures |Above(h, Even(s))| == (|s| + 1) / 2
    ensures j < |Pad(Above(h, Even(s)))|
    ensures Pad(Above(h, Even(s)))[j] == Above(h, Even(s))[LeafIndex((|s| + 1) / 2, Depth(|s|) - 1, j)]
  {
    hide Above, Even;
    PadLengths(h, s);
    PadAt(Above(h, Even(s)), Depth(|s|) - 1, Pow2(Depth(|s|) - 1), j);
  }

  lemma PadAboveAt(h: Hash, s: seq<Bytes>, j: nat)
    requires |s| > 1 && j < Pow2(Depth(|s|) - 1)
    ensures j < |Above(h, Pad(s))| && j < |Pad(Above(h, Even(s)))|
    ensures Above(h, Pad(s))[j] == Pad(Above(h, Even(s)))[j]
  {
    hide Above, Pad, Even, LeafIndex;
    LeafIndexChildren(|s|, j);
    AbovePadAt(h, s, j);
    PadUpAt(h, s, j);
    AboveEvenAt(h, s, LeafIndex((|s| + 1) / 2, Depth(|s|) - 1, j));
  }

  /** Padding and climbing one layer commute. */
  lemma PadAbove(h: Hash, s: seq<Bytes>)
    requires |s| > 1
    ensures Above(h, Pad(s)) == Pad(Above(h, Even(s)))
  {
    PadLengths(h, s);
    var a, b := Above(h, Pad(s)), Pad(Above(h, Even(s)));
    forall j: nat | j < |a|
      ensures a[j] == b[j]
    {
      PadAboveAt(h, s, j);
    }
  }

  /** One round of the loop keeps the root. */
  lemma RootAbove(h: Hash, s: seq<Bytes>)
    requires |s| > 1
    ensures 0 < |Above(h, Even(s))| < |s|
    ensures Depth(|Above(h, Even(s))|) + 1 == Depth(|s|)
    ensures Root(h, Above(h, Even(s))) == Root(h, s)
  {
    PadLengths(h, s);
    PadAbove(h, s);
    NodeByLayer(h, Pad(s), 0, Depth(|s|));
  }

  // ---------------------------------------------------------------------------
  // The loop
  // ---------------------------------------------------------------------------

  lemma LayerDone(h: Hash, layer: seq<Bytes>, next: seq<Bytes>)
    requires |layer| % 2 == 0 && 2 * |next| == |layer|
    requires forall j :: 0 <= j < |next| ==> next[j] == h(layer[2 * j] + layer[2 * j + 1])
    ensures next == Above(h, layer)
  {
    forall j: nat | j < |next|
      ensures next[j] == Above(h, layer)[j]
    {
      AboveAt(h, layer, j);
    }
  }

  lemma RootOfOne(h: Hash, node: Bytes)
    ensures Root(h, [node]) == node
  {
    PadAt([node], 0, 1, 0);
  }

  method LeafLayer(h: Hash, txs: seq<Transaction>) returns (layer: seq<Bytes>)
    ensures layer == Leaves(h, txs)
  {
    var leaves := new Bytes[|txs|];
    for i := 0 to |txs|
      invariant forall j :: 0 <= j < i ==> leaves[j] == Leaf(h, txs[j].id)
    {
      match HexDecode(txs[i].id)
      case Some(decoded) => leaves[i] := decoded;
      case None => leaves[i] := h(txs[i].id);
    }
    layer := leaves[..];
  }

  /** One round: duplicate the last node of an odd layer, then hash the pairs. */
  method NextLayer(h: Hash, nodes: seq<Bytes>) returns (next: seq<Bytes>)
    requires |nodes| > 1
    ensures next == Above(h, Even(nodes))
  {
    var layer := nodes;
    if |layer| % 2 != 0 {
      layer := layer + [layer[|layer| - 1]];
    }
    var pairs := new Bytes[|layer| / 2];
    var i := 0;
    while i < |layer|
      invariant 0 <= i <= |layer| && i % 2 == 0
      invariant forall j :: 0 <= j < i / 2 ==> pairs[j] == h(layer[2 * j] + layer[2 * j + 1])
    {
      pairs[i / 2] := h(layer[i] + layer[i + 1]);
      i := i + 2;
    }
    LayerDone(h, layer, pairs[..]);
    next := pairs[..];
  }

  method MerkleRoot(h: Hash, txs: seq<Transaction>) returns (root: Bytes, ghost rounds: nat)
    ensures root == MerkleOf(h, txs)
    ensures rounds == Depth(|txs|)
  {
    rounds := 0;
    if |txs| == 0 {
      return ZERO_MERKLE_ROOT, 0;
    }
    var layer := LeafLayer(h, txs);
    ghost var result := Root(h, layer);
    while |layer| > 1
      invariant |layer| > 0
      invariant Root(h, layer) == result
      invariant rounds + Depth(|layer|) == Depth(|txs|)
      decreases |layer|
    {
      RootAbove(h, layer);
      layer := NextLayer(h, layer);
      rounds := rounds + 1;
    }
    RootOfOne(h, layer[0]);
    assert layer == [layer[0]];
    root := HexEncode(layer[0]);
  }

  // ---------------------------------------------------------------------------
  // Binding
  // ---------------------------------------------------------------------------

  /** All leaves are `w` bytes long. */
  predicate Uniform(s: seq<Bytes>, w: nat) {
    forall i :: 0 <= i < |s| ==> |s[i]| == w
  }

  lemma {:induction false} NodeLength(h: Hash, s: seq<Bytes>, lo: nat, d: nat, w: nat)
    requires lo + Pow2(d) <= |s| && Uniform(s, w)
    ensures |Node(h, s, lo, d)| == if d == 0 then w else 32
  {
  }

  /** What is hashed for the parent of the nodes of height `d` at `lo` and beside it. */
  function Input(h: Hash, s: seq<Bytes>, lo: nat, d: nat): Bytes
    requires lo + 2 * Pow2(d) <= |s|
  {
    Node(h, s, lo, d) + Node(h, s, lo + Pow2(d), d)
  }

  /** Nodes with the same input have the same children. */
  lemma SameChildren(h: Hash, s: seq<Bytes>, t: seq<Bytes>, lo: nat, d: nat, w: nat)
    requires lo + 2 * Pow2(d) <= |s| == |t| && Uniform(s, w) && Uniform(t, w)
    requires Input(h, s, lo, d) == Input(h, t, lo, d)
    ensures Node(h, s, lo, d) == Node(h, t, lo, d)
    ensures Node(h, s, lo + Pow2(d), d) == Node(h, t, lo + Pow2(d), d)
  {
    hide Node;
    NodeLength(h, s, lo, d, w);
    NodeLength(h, t, lo, d, w);
    var (a, b) := (Node(h, s, lo, d), Node(h, s, lo + Pow2(d), d));
    var (a', b') := (Node(h, t, lo, d), Node(h, t, lo + Pow2(d), d));
    assert a == (a + b)[..|a|] && a' == (a' + b')[..|a|];
    assert b == (a + b)[|a|..] && b' == (a' + b')[|a|..];
  }

  lemma WalkDown(h: Hash, s: seq<Bytes>, t: seq<Bytes>, lo: nat, d: nat, w: nat, i: nat)
    requires lo + Pow2(d) <= |s| == |t| && Uniform(s, w) && Uniform(t, w)
    requires lo <= i < lo + Pow2(d) && s[i] != t[i]
    requires Node(h, s, lo, d) == Node(h, t, lo, d)
    ensures d > 0 && Pow2(d) == 2 * Pow2(d - 1)
    ensures h(Input(h, s, lo, d - 1)) == h(Input(h, t, lo, d - 1))
    ensures Input(h, s, lo, d - 1) == Input(h, t, lo, d - 1) ==>
              && Node(h, s, lo, d - 1) == Node(h, t, lo, d - 1)
              && Node(h, s, lo + Pow2(d - 1), d - 1) == Node(h, t, lo + Pow2(d - 1), d - 1)
  {
    if Input(h, s, lo, d - 1) == Input(h, t, lo, d - 1) {
      SameChildren(h, s, t, lo, d - 1, w);
    }
  }

  /** Two nodes that agree although leaf `i` below them does not hold a collision: walk down to
      leaf `i` until the inputs of a node differ. */
  function TreeCollision(h: Hash, s: seq<Bytes>, t: seq<Bytes>, lo: nat, d: nat, w: nat, i: nat): (c: Collision)
    requires lo + Pow2(d) <= |s| == |t| && Uniform(s, w) && Uniform(t, w)
    requires lo <= i < lo + Pow2(d) && s[i] != t[i]
    requires Node(h, s, lo, d) == Node(h, t, lo, d)
    ensures c.Of(h)
    decreases d
  {
    WalkDown(h, s, t, lo, d, w, i);
    var u := Input(h, s, lo, d - 1);
    var v := Input(h, t, lo, d - 1);
    if u != v then Collision(u, v)
    else
      var mid := lo + Pow2(d - 1);
      if i < mid then TreeCollision(h, s, t, lo, d - 1, w, i)
      else TreeCollision(h, s, t, mid, d - 1, w, i)
  }

  lemma PadUniform(s: seq<Bytes>, w: nat)
    requires |s| > 0 && Uniform(s, w)
    ensures Uniform(Pad(s), w)
  {
    forall i | 0 <= i < |Pad(s)|
      ensures |Pad(s)[i]| == w
    {
      PadAt(s, Depth(|s|), Pow2(Depth(|s|)), i);
    }
  }

  /** The first `k` pairs of a layer, each run together. */
  function PairsUpTo(layer: seq<Bytes>, k: nat): (p: seq<Bytes>)
    requires 2 * k <= |layer|
    ensures |p| == k
  {
    if k == 0 then [] else PairsUpTo(layer, k - 1) + [layer[2 * k - 2] + layer[2 * k - 1]]
  }

  lemma {:induction false} PairsUpToAt(layer: seq<Bytes>, k: nat, i: nat)
    requires i < k && 2 * k <= |layer|
    ensures PairsUpTo(layer, k)[i] == layer[2 * i] + layer[2 * i + 1]
  {
    if i < k - 1 {
      PairsUpToAt(layer, k - 1, i);
    }
  }

  /** All that the root depends on: the pairs of the padded bottom layer run together, or the leaf if
      there is only one. */
  function Bottom(s: seq<Bytes>): (p: seq<Bytes>)
    requires |s| > 0
    ensures |p| == if |s| == 1 then 1 else Pow2(Depth(|s|) - 1)
  {
    if |s| == 1 then s else PairsUpTo(Pad(s), Pow2(Depth(|s|) - 1))
  }

  lemma BottomAt(h: Hash, s: seq<Bytes>, i: nat)
    requires |s| > 1 && i < |Bottom(s)|
    ensures |Above(h, Pad(s))| == |Bottom(s)|
    ensures Bottom(s)[i] == Pad(s)[2 * i] + Pad(s)[2 * i + 1]
    ensures Above(h, Pad(s))[i] == h(Bottom(s)[i])
  {
    hide Pad;
    PairsUpToAt(Pad(s), |Bottom(s)|, i);
    AboveAt(h, Pad(s), i);
  }

  lemma RootFromAbove(h: Hash, s: seq<Bytes>)
    requires |s| > 1
    ensures |Above(h, Pad(s))| == Pow2(Depth(|s|) - 1)
    ensures Root(h, s) == Node(h, Above(h, Pad(s)), 0, Depth(|s|) - 1)
  {
    hide Pad, Node;
    NodeByLayer(h, Pad(s), 0, Depth(|s|));
  }

  lemma AboveUniform(h: Hash, s: seq<Bytes>)
    requires |s| > 1
    ensures Uniform(Above(h, Pad(s)), 32)
  {
    hide Pad, Above, Bottom;
    RootFromAbove(h, s);
    forall i | 0 <= i < |Above(h, Pad(s))|
      ensures |Above(h, Pad(s))[i]| == 32
    {
      AboveAt(h, Pad(s), i);
    }
  }

  /** Lists of one tree depth whose padded bottom layers run together alike share their root. */
  lemma SameBottomSameRoot(h: Hash, s: seq<Bytes>, t: seq<Bytes>)
    requires |s| > 0 && |t| > 0 && Depth(|s|) == Depth(|t|) && Bottom(s) == Bottom(t)
    ensures Root(h, s) == Root(h, t)
  {
    hide Pad, Above, Node;
    if |s| > 1 {
      RootFromAbove(h, s);
      RootFromAbove(h, t);
      var x, y := Above(h, Pad(s)), Above(h, Pad(t));
      forall i: nat | i < |x|
        ensures x[i] == y[i]
      {
        hide Bottom;
        BottomAt(h, s, i);
        BottomAt(h, t, i);
      }
      assert x == y;
    }
  }

  lemma RootOfLeaf(h: Hash, s: seq<Bytes>)
    requires |s| == 1
    ensures Bottom(s) == [Root(h, s)]
  {
    RootOfOne(h, s[0]);
    assert s == [s[0]];
  }

  lemma DepthZero(n: nat)
    requires n > 0
    ensures Depth(n) == 0 <==> n == 1
  {
  }

  lemma SingleLeaves(h: Hash, s: seq<Bytes>, t: seq<Bytes>)
    requires |s| > 0 && |t| > 0 && Depth(|s|) == Depth(|t|)
    requires Root(h, s) == Root(h, t) && Bottom(s) != Bottom(t)
    ensures |s| > 1 && |t| > 1 && |Bottom(s)| == |Bottom(t)|
  {
    hide Bottom, Root, Depth;
    DepthZero(|s|);
    DepthZero(|t|);
    if |s| == 1 {
      RootOfLeaf(h, s);
      RootOfLeaf(h, t);
    }
  }

  lemma RootCollisionReady(h: Hash, s: seq<Bytes>, t: seq<Bytes>)
    requires |s| > 0 && |t| > 0 && Depth(|s|) == Depth(|t|)
    requires Root(h, s) == Root(h, t) && Bottom(s) != Bottom(t)
    ensures |s| > 1 && |t| > 1 && |Bottom(s)| == |Bottom(t)| == Pow2(Depth(|s|) - 1)
    ensures var (x, y, d) := (Above(h, Pad(s)), Above(h, Pad(t)), Depth(|s|) - 1);
            && |x| == |y| == Pow2(d) && Uniform(x, 32) && Uniform(y, 32)
            && Node(h, x, 0, d) == Node(h, y, 0, d)
            && forall i :: 0 <= i < |x| ==> x[i] == h(Bottom(s)[i]) && y[i] == h(Bottom(t)[i])
  {
    hide Pad, Above, Node, Bottom, Uniform;
    SingleLeaves(h, s, t);
    RootFromAbove(h, s);
    RootFromAbove(h, t);
    AboveUniform(h, s);
    AboveUniform(h, t);
    forall i | 0 <= i < |Bottom(s)|
      ensures Above(h, Pad(s))[i] == h(Bottom(s)[i]) && Above(h, Pad(t))[i] == h(Bottom(t)[i])
    {
      BottomAt(h, s, i);
      BottomAt(h, t, i);
    }
  }

  /** The collision behind one root over two lists of one tree depth that run together differently at
      the bottom: it is at the bottom, or on the way up from there. */
  function RootCollision(h: Hash, s: seq<Bytes>, t: seq<Bytes>): (c: Collision)
    requires |s| > 0 && |t| > 0 && Depth(|s|) == Depth(|t|)
    requires Root(h, s) == Root(h, t) && Bottom(s) != Bottom(t)
    ensures c.Of(h)
  {
    RootCollisionReady(h, s, t);
    var i := FirstDifference(Bottom(s), Bottom(t));
    if h(Bottom(s)[i]) == h(Bottom(t)[i]) then Collision(Bottom(s)[i], Bottom(t)[i])
    else
      TreeCollision(h, Above(h, Pad(s)), Above(h, Pad(t)), 0, Depth(|s|) - 1, 32, i)
  }

  /** The layer after `k` rounds. */
  function Climb(h: Hash, s: seq<Bytes>, k: nat): (layer: seq<Bytes>)
    requires |s| > 0 && k <= Depth(|s|)
    ensures |layer| > 0 && Depth(|layer|) == Depth(|s|) - k
    decreases k
  {
    if k == 0 then s else Climb(h, Above(h, Even(s)), k - 1)
  }

  /** Depths are not bound: every layer on the way up, passed off as a list of leaves, has the root of
      the leaves below it. */
  lemma {:induction false} DepthsNotBound(h: Hash, s: seq<Bytes>, k: nat)
    requires |s| > 0 && k <= Depth(|s|)
    ensures Root(h, Climb(h, s, k)) == Root(h, s)
    decreases k
  {
    hide Root, Above, Even;
    if k > 0 {
      RootAbove(h, s);
      DepthsNotBound(h, Above(h, Even(s)), k - 1);
    }
  }

  /** The layer of the tree over `t` that has the depth of the tree over `s`. */
  function AtDepthOf(h: Hash, s: seq<Bytes>, t: seq<Bytes>): (u: seq<Bytes>)
    requires |s| > 0 && |t| > 0 && Depth(|s|) <= Depth(|t|)
    ensures |u| > 0 && Depth(|u|) == Depth(|s|)
  {
    Climb(h, t, Depth(|t|) - Depth(|s|))
  }

  /** When two lists share their root: lists of any lengths and depths, of leaves of any lengths. Climb
      the deeper tree to the depth of the other; the roots agree if what is run together at the bottom
      agrees there, and if they agree otherwise, a collision is at hand. */
  lemma RootsAgreeExactly(h: Hash, s: seq<Bytes>, t: seq<Bytes>)
    requires |s| > 0 && |t| > 0 && Depth(|s|) <= Depth(|t|)
    ensures var u := AtDepthOf(h, s, t);
            && Root(h, u) == Root(h, t)
            && (Bottom(s) == Bottom(u) ==> Root(h, s) == Root(h, t))
            && (Root(h, s) == Root(h, t) && Bottom(s) != Bottom(u) ==> RootCollision(h, s, u).Of(h))
  {
    hide Root, Bottom, Climb, Depth;
    var u := AtDepthOf(h, s, t);
    DepthsNotBound(h, t, Depth(|t|) - Depth(|s|));
    if Bottom(s) == Bottom(u) {
      SameBottomSameRoot(h, s, u);
    }
  }

  lemma SplitPair(a: Bytes, b: Bytes, c: Bytes, d: Bytes)
    requires |a| == |c| && a + b == c + d
    ensures a == c && b == d
  {
    assert a == (a + b)[..|a|] && c == (c + d)[..|a|];
    assert b == (a + b)[|a|..] && d == (c + d)[|a|..];
  }

  lemma BottomPlace(h: Hash, s: seq<Bytes>, t: seq<Bytes>, w: nat, i: nat)
    requires |s| > 1 && |t| > 1 && Depth(|s|) == Depth(|t|) && Uniform(s, w) && Uniform(t, w)
    requires Bottom(s) == Bottom(t) && i < |Pad(s)|
    ensures |Pad(t)| == |Pad(s)| && Pad(s)[i] == Pad(t)[i]
  {
    hide Pad, Bottom, Above;
    PadUniform(s, w);
    PadUniform(t, w);
    var j := i / 2;
    assert i == 2 * j || i == 2 * j + 1;
    BottomAt(h, s, j);
    BottomAt(h, t, j);
    SplitPair(Pad(s)[2 * j], Pad(s)[2 * j + 1], Pad(t)[2 * j], Pad(t)[2 * j + 1]);
  }

  /** Among leaves of one length the bottom determines the padded layer. */
  lemma BottomIsPad(h: Hash, s: seq<Bytes>, t: seq<Bytes>, w: nat)
    requires |s| > 0 && |t| > 0 && Depth(|s|) == Depth(|t|) && Uniform(s, w) && Uniform(t, w)
    ensures Bottom(s) == Bottom(t) <==> Pad(s) == Pad(t)
  {
    if |s| == 1 {
      PadAt(s, 0, 1, 0);
      PadAt(t, 0, 1, 0);
      assert Pad(s) == s && Pad(t) == t;
    } else if Bottom(s) == Bottom(t) {
      hide Pad, Bottom;
      forall i | 0 <= i < |Pad(s)|
        ensures |Pad(t)| == |Pad(s)| && Pad(s)[i] == Pad(t)[i]
      {
        BottomPlace(h, s, t, w, i);
      }
      assert Pad(s) == Pad(t);
    }
  }

  lemma {:induction false} ClimbUniform(h: Hash, s: seq<Bytes>, k: nat)
    requires |s| > 0 && k <= Depth(|s|) && Uniform(s, 32)
    ensures Uniform(Climb(h, s, k), 32)
    decreases k
  {
    if k > 0 {
      var next := Above(h, Even(s));
      forall i | 0 <= i < |next|
        ensures |next[i]| == 32
      {
        AboveAt(h, Even(s), i);
      }
      ClimbUniform(h, next, k - 1);
    }
  }

  /** For leaves of 32 bytes, as digests are: roots agree if the padded layers do at the depth of the
      flatter tree, and if they agree otherwise, a collision is at hand. */
  lemma DigestRootsAgreeExactly(h: Hash, s: seq<Bytes>, t: seq<Bytes>)
    requires |s| > 0 && |t| > 0 && Depth(|s|) <= Depth(|t|) && Uniform(s, 32) && Uniform(t, 32)
    ensures var u := AtDepthOf(h, s, t);
            && Root(h, u) == Root(h, t)
            && (Pad(s) == Pad(u) ==> Root(h, s) == Root(h, t))
            && (Root(h, s) == Root(h, t) && Pad(s) != Pad(u) ==>
                  Bottom(s) != Bottom(u) && RootCollision(h, s, u).Of(h))
  {
    hide Root, Bottom, Climb, Pad, Uniform, Depth;
    var u := AtDepthOf(h, s, t);
    ClimbUniform(h, t, Depth(|t|) - Depth(|s|));
    BottomIsPad(h, s, u, 32);
    RootsAgreeExactly(h, s, t);
  }

  lemma LeafPlaceStep(n: nat, j: nat, parent: nat)
    requires n > 1 && j < n && parent < Pow2(Depth(n) - 1)
    requires LeafIndex((n + 1) / 2, Depth(n) - 1, parent) == j / 2
    ensures 2 * parent + j % 2 < Pow2(Depth(n)) && LeafIndex(n, Depth(n), 2 * parent + j % 2) == j
  {
    hide LeafIndex;
    LeafIndexChildren(n, parent);
  }

  /** Where leaf `j` stands in the padded layer: padding loses no leaf. */
  function LeafPlace(n: nat, j: nat): (i: nat)
    requires j < n
    ensures i < Pow2(Depth(n)) && LeafIndex(n, Depth(n), i) == j
  {
    if n == 1 then 0
    else
      var parent := LeafPlace((n + 1) / 2, j / 2);
      LeafPlaceStep(n, j, parent);
      2 * parent + j % 2
  }

  /** An ID as the node computes it: 32 bytes in lower-case hex. */
  predicate CanonicalId(id: Bytes) {
    HexDecode(id).Some? && |HexDecode(id).value| == 32 && HexEncode(HexDecode(id).value) == id
  }

  predicate CanonicalIds(txs: seq<Transaction>) {
    forall i :: 0 <= i < |txs| ==> CanonicalId(txs[i].id)
  }

  lemma DifferentIdsDifferentBottom(h: Hash, a: seq<Transaction>, b: seq<Transaction>, j: nat)
    requires |a| == |b| && CanonicalIds(a) && CanonicalIds(b)
    requires j < |a| && a[j].id != b[j].id
    requires MerkleOf(h, a) == MerkleOf(h, b)
    ensures Bottom(Leaves(h, a)) != Bottom(Leaves(h, b))
    ensures Root(h, Leaves(h, a)) == Root(h, Leaves(h, b))
  {
    hide Bottom, Root, LeafIndex;
    var s, t := Leaves(h, a), Leaves(h, b);
    var i := LeafPlace(|a|, j);
    PadAt(s, Depth(|s|), Pow2(Depth(|s|)), i);
    PadAt(t, Depth(|t|), Pow2(Depth(|t|)), i);
    assert s[j] != t[j];
    BottomIsPad(h, s, t, 32);
    HexEncodeInjective(Root(h, s), Root(h, t));
  }

  /** The collision behind two equally long lists of transactions with one Merkle root and
      different IDs at place `j`. */
  function MerkleCollision(h: Hash, a: seq<Transaction>, b: seq<Transaction>, j: nat): (c: Collision)
    requires |a| == |b| && CanonicalIds(a) && CanonicalIds(b)
    requires j < |a| && a[j].id != b[j].id
    requires MerkleOf(h, a) == MerkleOf(h, b)
    ensures c.Of(h)
  {
    DifferentIdsDifferentBottom(h, a, b, j);
    RootCollision(h, Leaves(h, a), Leaves(h, b))
  }

  // --- What roots do not tell apart, without any collision ---

  /** A list of odd length, three or more, and the list with its last leaf repeated share their root. */
  lemma {:induction false} OddTailAmbiguous(h: Hash, s: seq<Bytes>)
    requires |s| >= 3 && |s| % 2 == 1
    ensures Root(h, s + [s[|s| - 1]]) == Root(h, s)
  {
    var t := s + [s[|s| - 1]];
    assert Even(s) == t && Even(t) == t;
    RootAbove(h, s);
    RootAbove(h, t);
  }

  /** The boundary between two sibling leaves may move. */
  lemma MixedLengthsNotBound(h: Hash, x: Bytes, y: Bytes, z: Bytes)
    ensures Root(h, [x, y + z]) == Root(h, [x + y, z])
  {
    hide Root, Bottom, Above;
    var s, t := [x, y + z], [x + y, z];
    RootAbove(h, s);
    RootAbove(h, t);
    AboveAt(h, s, 0);
    AboveAt(h, t, 0);
    assert x + (y + z) == x + y + z;
    assert Even(s) == s && Even(t) == t;
    assert Above(h, s) == Above(h, t);
  }

  // ---------------------------------------------------------------------------
  // Inclusion
  // ---------------------------------------------------------------------------

  /** From a node at place `j` of its layer up to the root, given the sibling in every layer. */
  function Fold(h: Hash, node: Bytes, j: nat, siblings: seq<Bytes>): Bytes
    decreases |siblings|
  {
    if |siblings| == 0 then node
    else Fold(h, if j % 2 == 0 then h(node + siblings[0]) else h(siblings[0] + node), j / 2, siblings[1..])
  }

  /** Every node folds with the siblings on its path to the root: as many as the tree is deep. */
  lemma {:induction false} PathToRoot(h: Hash, layer: seq<Bytes>, j: nat) returns (siblings: seq<Bytes>)
    requires j < |layer|
    ensures |siblings| == Depth(|layer|)
    ensures Fold(h, layer[j], j, siblings) == Root(h, layer)
    ensures |layer| > 1 ==>
              siblings[0] == layer[if j % 2 == 1 then j - 1 else if j + 1 < |layer| then j + 1 else j]
    decreases |layer|
  {
    hide Root, Above, Even, Depth;
    if |layer| == 1 {
      RootOfOne(h, layer[0]);
      assert layer == [layer[0]];
      DepthZero(1);
      siblings := [];
    } else {
      RootAbove(h, layer);
      AboveEvenAt(h, layer, j / 2);
      var rest := PathToRoot(h, Above(h, Even(layer)), j / 2);
      var sibling := layer[if j % 2 == 1 then j - 1 else if j + 1 < |layer| then j + 1 else j];
      siblings := [sibling] + rest;
      assert siblings[1..] == rest;
    }
  }

  /** Every transaction is included in the root by its ID: the decoded bytes of the ID, or the digest of its
      text if it is no hex, fold with as many siblings as the tree is deep to the bytes whose hex text the
      root is. */
  lemma Inclusion(h: Hash, txs: seq<Transaction>, j: nat) returns (siblings: seq<Bytes>)
    requires j < |txs|
    ensures |siblings| == Depth(|txs|)
    ensures var id := txs[j].id;
            var leaf := if HexDecode(id).Some? then HexDecode(id).value else h(id);
            MerkleOf(h, txs) == HexEncode(Fold(h, leaf, j, siblings))
  {
    hide Root, Fold, Depth, HexDecode;
    siblings := PathToRoot(h, Leaves(h, txs), j);
  }

  /** The root of no transactions is 64 zeros, that of one with a right ID the ID itself, and that of two the
      digest of both decoded IDs, in order. */
  lemma SmallRoots(h: Hash, a: Transaction, b: Transaction)
    ensures |MerkleOf(h, [])| == 64 && forall i :: 0 <= i < 64 ==> MerkleOf(h, [])[i] == '0' as int
    ensures CanonicalId(a.id) ==> MerkleOf(h, [a]) == a.id
    ensures CanonicalId(a.id) && CanonicalId(b.id) ==>
              MerkleOf(h, [a, b]) == HexEncode(h(HexDecode(a.id).value + HexDecode(b.id).value))
  {
    hide HexDecode, HexEncode, Root, Leaves;
    RootOfOne(h, Leaves(h, [a])[0]);
    assert Leaves(h, [a]) == [Leaves(h, [a])[0]];
    var s := Leaves(h, [a, b]);
    RootAbove(h, s);
    AboveEvenAt(h, s, 0);
    RootOfOne(h, Above(h, Even(s))[0]);
    assert Above(h, Even(s)) == [Above(h, Even(s))[0]];
  }
}
