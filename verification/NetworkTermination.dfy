/** Block flooding comes to rest: a potential that every step lowers, on any peer multigraph. */
module NetworkTermination {
  import opened ByteStrings
  import opened Base
  import opened Types
  import opened BlockJson
  import opened Hashing
  import opened Merkle
  import opened Balances
  import opened Validation
  import opened Chain
  import opened Network
  import opened NetworkSafety

  // ---------------------------------------------------------------------------
  // Counting
  // ---------------------------------------------------------------------------

  /** Messages in all queues (or on all wires). */
  function Count(q: seq<seq<Bytes>>): nat {
    if |q| == 0 then 0 else Count(q[..|q| - 1]) + |q[|q| - 1]|
  }

  lemma {:induction false} CountUpdate(q: seq<seq<Bytes>>, l: nat, x: seq<Bytes>)
    requires l < |q|
    ensures Count(q[l := x]) == Count(q) - |q[l]| + |x|
  {
    var r := q[l := x];
    if l < |q| - 1 {
      CountUpdate(q[..|q| - 1], l, x);
      assert r[..|q| - 1] == q[..|q| - 1][l := x];
    } else {
      assert r[..|q| - 1] == q[..|q| - 1];
    }
  }

  /** How many of the first `k` links node `n` floods into. */
  function OutDegree(links: seq<Link>, n: nat, k: nat): nat
    requires k <= |links|
  {
    if k == 0 then 0 else OutDegree(links, n, k - 1) + if links[k - 1].src == n then 1 else 0
  }

  lemma {:induction false} FloodCount(
      links: seq<Link>, queue: seq<seq<Bytes>>, n: nat, except: Option<nat>, payload: Bytes)
    requires |queue| <= |links|
    ensures Count(Flood(links, queue, n, except, payload)) <= Count(queue) + OutDegree(links, n, |queue|)
  {
    if |queue| > 0 {
      var init := queue[..|queue| - 1];
      FloodCount(links, init, n, except, payload);
      assert Flood(links, queue, n, except, payload)[..|init|] == Flood(links, init, n, except, payload);
    }
  }

  /** What one flood by node `n` can cost: the flood and two moves for each message. */
  function FloodCost(c: Config, n: nat): nat {
    2 * OutDegree(c.links, n, |c.links|) + 1
  }

  /** What accepting one block can cost node `n`: the acceptance and the flood. */
  function Weight(c: Config, n: nat): nat {
    FloodCost(c, n) + 1
  }

  function FloodCosts(c: Config, fs: seq<Flooding>): nat {
    if |fs| == 0 then 0 else FloodCosts(c, fs[..|fs| - 1]) + FloodCost(c, fs[|fs| - 1].node)
  }

  lemma {:induction false} FloodCostsConcat(c: Config, a: seq<Flooding>, b: seq<Flooding>)
    ensures FloodCosts(c, a + b) == FloodCosts(c, a) + FloodCosts(c, b)
  {
    hide FloodCost;
    if |b| == 0 {
      assert a + b == a;
    } else {
      FloodCostsConcat(c, a, b[..|b| - 1]);
      assert (a + b)[..|a + b| - 1] == a + b[..|b| - 1];
    }
  }

  lemma FloodCostsOne(c: Config, f: Flooding)
    ensures FloodCosts(c, [f]) == FloodCost(c, f.node)
  {
    hide FloodCost;
    assert [f][..0] == [];
  }

  lemma FloodCostsRemove(c: Config, fs: seq<Flooding>, i: nat)
    requires i < |fs|
    ensures FloodCosts(c, RemoveAt(fs, i)) == FloodCosts(c, fs) - FloodCost(c, fs[i].node)
  {
    hide FloodCost, FloodCosts;
    FloodCostsConcat(c, fs[..i], fs[i + 1..]);
    FloodCostsConcat(c, fs[..i] + [fs[i]], fs[i + 1..]);
    FloodCostsConcat(c, fs[..i], [fs[i]]);
    FloodCostsOne(c, fs[i]);
    assert fs == fs[..i] + [fs[i]] + fs[i + 1..];
  }

  /** Weight of the acceptances still open to the first `k` nodes, when no block reaches index `m`. */
  function Open(c: Config, m: nat, nodes: seq<State>, k: nat): int
    requires k <= |nodes|
  {
    if k == 0 then 0 else Open(c, m, nodes, k - 1) + (m - |nodes[k - 1].blocks|) * Weight(c, k - 1)
  }

  lemma {:induction false} OpenUpdate(c: Config, m: nat, nodes: seq<State>, k: nat, n: nat, t: State)
    requires k <= |nodes| && n < |nodes| && |t.blocks| == |nodes[n].blocks| + 1
    ensures Open(c, m, nodes[n := t], k) == Open(c, m, nodes, k) - if n < k then Weight(c, n) else 0
  {
    hide Weight;
    if k > 0 {
      OpenUpdate(c, m, nodes, k - 1, n, t);
      if n == k - 1 {
        OneLess(m - |nodes[n].blocks|, Weight(c, n));
      }
    }
  }

  lemma OneLess(x: int, w: int)
    ensures (x - 1) * w == x * w - w
  {
  }

  lemma {:induction false} OpenNonNegative(c: Config, m: nat, nodes: seq<State>, k: nat)
    requires k <= |nodes|
    requires forall n :: 0 <= n < k ==> |nodes[n].blocks| <= m
    ensures Open(c, m, nodes, k) >= 0
  {
    hide Weight;
    if k > 0 {
      OpenNonNegative(c, m, nodes, k - 1);
      Product(m - |nodes[k - 1].blocks|, Weight(c, k - 1));
    }
  }

  lemma Product(x: nat, y: nat)
    ensures x * y >= 0
  {
  }

  /** The potential: open acceptances by weight, blocks still to be produced, floods decided on by cost,
      and for each message the moves left to it. */
  function Potential(c: Config, m: nat, s: Net): int {
    Open(c, m, s.nodes, |s.nodes|) + |s.pending| + FloodCosts(c, s.floods) + 2 * Count(s.queue) + Count(s.wire)
  }

  // ---------------------------------------------------------------------------
  // The indices on their way
  // ---------------------------------------------------------------------------

  /** A property of block indices. */
  type Indices = int -> bool

  predicate Carries(d: Decoder, ix: Indices, payload: Bytes) {
    match d.block(payload)
    case None => true
    case Some(b) => ix(b.header.index)
  }

  /** Every block still to be produced, and every block in a message, has an index in `ix`. */
  predicate OnTheWay(d: Decoder, ix: Indices, s: Net) {
    && (forall i :: 0 <= i < |s.pending| ==> ix(s.pending[i].1.header.index))
    && (forall i :: 0 <= i < |s.floods| ==> Carries(d, ix, s.floods[i].payload))
    && (forall l, k :: 0 <= l < |s.queue| && 0 <= k < |s.queue[l]| ==> Carries(d, ix, s.queue[l][k]))
    && (forall l, k :: 0 <= l < |s.wire| && 0 <= k < |s.wire[l]| ==> Carries(d, ix, s.wire[l][k]))
  }

  lemma ReceiveOnTheWay(
      ix: Indices, c: Config, s: Net, n: nat, b: Block, payload: Bytes, except: Option<nat>)
    requires WellFormed(c, s) && n < |s.nodes| && OnTheWay(c.decoder, ix, s)
    requires Carries(c.decoder, ix, payload)
    ensures OnTheWay(c.decoder, ix, Receive(c, s, n, b, payload, except))
  {
    hide Accepts, Add, Carries;
  }

  lemma SpreadOnTheWay(ix: Indices, c: Config, s: Net, i: nat)
    requires WellFormed(c, s) && i < |s.floods| && OnTheWay(c.decoder, ix, s)
    ensures OnTheWay(c.decoder, ix, Next(c, s, Spread(i)))
  {
    hide Flood, Carries;
    var f := s.floods[i];
    var t := Next(c, s, Spread(i));
    assert forall j :: 0 <= j < |t.floods| ==> t.floods[j] in s.floods;
    forall l, k | 0 <= l < |t.queue| && 0 <= k < |t.queue[l]|
      ensures Carries(c.decoder, ix, t.queue[l][k])
    {
      FloodAt(c.links, s.queue, f.node, f.except, f.payload, l);
      if k < |s.queue[l]| {
        assert t.queue[l][k] == s.queue[l][k];
      }
    }
  }

  lemma ProducedCarries(d: Decoder, ix: Indices, b: Block)
    requires d.ReadsBack() && ix(b.header.index)
    ensures Carries(d, ix, MarshalPayload(b))
  {
    hide MarshalPayload;
    assert d.block(MarshalPayload(b)) == Some(SanitizeBlock(b));
  }

  lemma RemoveAtOnTheWay(d: Decoder, ix: Indices, s: Net, l: nat, k: nat)
    requires OnTheWay(d, ix, s) && l < |s.wire| && k < |s.wire[l]|
    ensures OnTheWay(d, ix, s.(wire := s.wire[l := RemoveAt(s.wire[l], k)]))
  {
    hide Carries;
    var r := RemoveAt(s.wire[l], k);
    forall j | 0 <= j < |r|
      ensures Carries(d, ix, r[j])
    {
      assert r[j] == s.wire[l][if j < k then j else j + 1];
    }
  }

  /** No step but a forgery brings new indices on their way. */
  lemma NextOnTheWay(ix: Indices, c: Config, s: Net, step: Step)
    requires WellFormed(c, s) && OnTheWay(c.decoder, ix, s) && Enabled(c, s, step) && !step.Inject?
    requires c.decoder.ReadsBack()
    ensures OnTheWay(c.decoder, ix, Next(c, s, step))
  {
    hide Receive, Flood, Carries, MarshalPayload, RemoveAt;
    match step {
      case Spread(i) => SpreadOnTheWay(ix, c, s, i);
      case Produce(i) =>
        var (n, b) := s.pending[i];
        var t := s.(pending := RemoveAt(s.pending, i));
        assert forall j :: 0 <= j < |t.pending| ==> t.pending[j] in s.pending;
        ProducedCarries(c.decoder, ix, b);
        ReceiveOnTheWay(ix, c, t, n, b, MarshalPayload(b), None);
      case Write(l) =>
      case Deliver(l, k) =>
        RemoveAtOnTheWay(c.decoder, ix, s, l, k);
        var t := s.(wire := s.wire[l := RemoveAt(s.wire[l], k)]);
        var payload := s.wire[l][k];
        match c.decoder.block(payload) {
          case None =>
          case Some(b) => ReceiveOnTheWay(ix, c, t, c.links[l].dst, b, payload, Some(c.links[l].back));
        }
      case LoseQueued(l) =>
      case LoseWritten(l, k) => RemoveAtOnTheWay(c.decoder, ix, s, l, k);
    }
  }

  lemma AcceptedIndex(c: Config, s: State, b: Block)
    requires |s.blocks| > 0
    ensures Accepts(c.engine, s.blocks, s.balances, b) ==>
              b.header.index == |s.blocks| && |Add(c.engine, s, b).blocks| == |s.blocks| + 1
  {
    hide Stage, ApplyAll;
  }

  lemma CarriedIndex(d: Decoder, ix: Indices, payload: Bytes)
    requires Carries(d, ix, payload) && d.block(payload).Some?
    ensures ix(d.block(payload).value.header.index)
  {
  }

  lemma ReceiveGrows(ix: Indices, c: Config, s: Net, n: nat, b: Block, payload: Bytes, except: Option<nat>, m: nat)
    requires WellFormed(c, s) && n < |s.nodes| && m < |s.nodes| && ix(b.header.index)
    ensures var t := Receive(c, s, n, b, payload, except);
            && |t.nodes| == |s.nodes|
            && (t.nodes[m] != s.nodes[m] ==>
                  ix(|s.nodes[m].blocks|) && |t.nodes[m].blocks| == |s.nodes[m].blocks| + 1)
  {
    hide Accepts, Add;
    AcceptedIndex(c, s.nodes[n], b);
  }

  /** A node changes only when the index it is waiting for is on its way, and then by one block. */
  lemma NextGrows(ix: Indices, c: Config, s: Net, step: Step, m: nat)
    requires WellFormed(c, s) && OnTheWay(c.decoder, ix, s) && Enabled(c, s, step) && m < |s.nodes|
    ensures var t := Next(c, s, step);
            && |t.nodes| == |s.nodes|
            && (t.nodes[m] != s.nodes[m] ==>
                  ix(|s.nodes[m].blocks|) && |t.nodes[m].blocks| == |s.nodes[m].blocks| + 1)
  {
    hide Receive, Flood, Carries, MarshalPayload, RemoveAt;
    match step {
      case Produce(i) =>
        var (n, b) := s.pending[i];
        var t := s.(pending := RemoveAt(s.pending, i));
        assert forall j :: 0 <= j < |t.pending| ==> t.pending[j] in s.pending;
        ReceiveGrows(ix, c, t, n, b, MarshalPayload(b), None, m);
      case Deliver(l, k) =>
        var t := s.(wire := s.wire[l := RemoveAt(s.wire[l], k)]);
        var payload := s.wire[l][k];
        match c.decoder.block(payload) {
          case None =>
          case Some(b) =>
            CarriedIndex(c.decoder, ix, payload);
            ReceiveGrows(ix, c, t, c.links[l].dst, b, payload, Some(c.links[l].back), m);
        }
      case _ =>
    }
  }

  // ---------------------------------------------------------------------------
  // What is lost stays lost
  // ---------------------------------------------------------------------------

  /** Nothing is ever asked for again: once no block of the index that node `m` is waiting for is on its
      way anywhere, the ledger of that node never changes again, whatever the others hold. */
  lemma {:induction false} StalledForGood(c: Config, s: Net, steps: seq<Step>, m: nat)
    requires WellFormed(c, s) && IsRun(c, s, steps) && m < |s.nodes| && c.decoder.ReadsBack()
    requires forall i :: 0 <= i < |steps| ==> !steps[i].Inject?
    requires OnTheWay(c.decoder, x => x != |s.nodes[m].blocks|, s)
    ensures After(c, s, steps).nodes[m] == s.nodes[m]
    decreases |steps|
  {
    hide Next, Enabled, OnTheWay;
    if |steps| > 0 {
      var ix: Indices := x => x != |s.nodes[m].blocks|;
      NextWellFormed(c, s, steps[0]);
      NextOnTheWay(ix, c, s, steps[0]);
      NextGrows(ix, c, s, steps[0], m);
      StalledForGood(c, Next(c, s, steps[0]), steps[1..], m);
    }
  }

  // ---------------------------------------------------------------------------
  // Termination
  // ---------------------------------------------------------------------------

  /** No chain is longer than `m`, and no block on its way has index `m` or more. */
  predicate Below(m: nat, d: Decoder, s: Net) {
    && (forall n :: 0 <= n < |s.nodes| ==> |s.nodes[n].blocks| <= m)
    && OnTheWay(d, x => x < m, s)
  }

  lemma NextBelow(m: nat, c: Config, s: Net, step: Step)
    requires WellFormed(c, s) && Below(m, c.decoder, s) && Enabled(c, s, step) && !step.Inject?
    requires c.decoder.ReadsBack()
    ensures Below(m, c.decoder, Next(c, s, step))
  {
    hide Next, OnTheWay, Enabled;
    var ix: Indices := x => x < m;
    NextWellFormed(c, s, step);
    NextOnTheWay(ix, c, s, step);
    forall n | 0 <= n < |Next(c, s, step).nodes|
      ensures |Next(c, s, step).nodes[n].blocks| <= m
    {
      NextGrows(ix, c, s, step, n);
    }
  }

  lemma ReceivePotential(m: nat, c: Config, s: Net, n: nat, b: Block, payload: Bytes, except: Option<nat>)
    requires WellFormed(c, s) && n < |s.nodes|
    ensures WellFormed(c, Receive(c, s, n, b, payload, except))
    ensures Potential(c, m, Receive(c, s, n, b, payload, except)) <= Potential(c, m, s)
  {
    hide Accepts, Add, Count, Open, FloodCost, FloodCosts;
    ReceiveWellFormed(c, s, n, b, payload, except);
    AcceptedIndex(c, s.nodes[n], b);
    if Accepts(c.engine, s.nodes[n].blocks, s.nodes[n].balances, b) {
      OpenUpdate(c, m, s.nodes, |s.nodes|, n, Add(c.engine, s.nodes[n], b));
      FloodCostsConcat(c, s.floods, [Flooding(n, payload, except)]);
      FloodCostsOne(c, Flooding(n, payload, except));
    }
  }

  /** Every step but a forgery lowers the potential. */
  lemma NextPotential(m: nat, c: Config, s: Net, step: Step)
    requires WellFormed(c, s) && Enabled(c, s, step) && !step.Inject?
    ensures Potential(c, m, Next(c, s, step)) < Potential(c, m, s)
  {
    hide Receive, Flood, Count, Open, FloodCosts, OutDegree, MarshalPayload, RemoveAt;
    match step {
      case Spread(i) =>
        var f := s.floods[i];
        FloodCostsRemove(c, s.floods, i);
        FloodCount(c.links, s.queue, f.node, f.except, f.payload);
      case Produce(i) =>
        var (n, b) := s.pending[i];
        var t := s.(pending := RemoveAt(s.pending, i));
        assert forall j :: 0 <= j < |t.pending| ==> t.pending[j] in s.pending;
        ReceivePotential(m, c, t, n, b, MarshalPayload(b), None);
      case Write(l) =>
        CountUpdate(s.queue, l, s.queue[l][1..]);
        CountUpdate(s.wire, l, s.wire[l] + [s.queue[l][0]]);
      case Deliver(l, k) =>
        CountUpdate(s.wire, l, RemoveAt(s.wire[l], k));
        var t := s.(wire := s.wire[l := RemoveAt(s.wire[l], k)]);
        match c.decoder.block(s.wire[l][k]) {
          case None =>
          case Some(b) => ReceivePotential(m, c, t, c.links[l].dst, b, s.wire[l][k], Some(c.links[l].back));
        }
      case LoseQueued(l) =>
        CountUpdate(s.queue, l, s.queue[l][1..]);
      case LoseWritten(l, k) =>
        CountUpdate(s.wire, l, RemoveAt(s.wire[l], k));
    }
  }

  lemma {:induction false} RunPotential(m: nat, c: Config, s: Net, steps: seq<Step>)
    requires WellFormed(c, s) && IsRun(c, s, steps)
    requires forall i :: 0 <= i < |steps| ==> !steps[i].Inject?
    ensures |steps| + Potential(c, m, After(c, s, steps)) <= Potential(c, m, s)
    decreases |steps|
  {
    hide Next, Enabled, Potential;
    if |steps| > 0 {
      NextWellFormed(c, s, steps[0]);
      NextPotential(m, c, s, steps[0]);
      RunPotential(m, c, Next(c, s, steps[0]), steps[1..]);
    }
  }

  lemma {:induction false} RunBelow(m: nat, c: Config, s: Net, steps: seq<Step>)
    requires WellFormed(c, s) && Below(m, c.decoder, s) && IsRun(c, s, steps)
    requires c.decoder.ReadsBack()
    requires forall i :: 0 <= i < |steps| ==> !steps[i].Inject?
    ensures Below(m, c.decoder, After(c, s, steps))
    decreases |steps|
  {
    hide Next, Enabled, Below;
    if |steps| > 0 {
      NextWellFormed(c, s, steps[0]);
      NextBelow(m, c, s, steps[0]);
      RunBelow(m, c, Next(c, s, steps[0]), steps[1..]);
    }
  }

  lemma BelowHeights(m: nat, d: Decoder, s: Net)
    requires Below(m, d, s)
    ensures forall n :: 0 <= n < |s.nodes| ==> |s.nodes[n].blocks| <= m
  {
    hide OnTheWay;
  }

  /** Termination from any state at all, reachable or not, whatever is in flight: take an index `m`
      that no block in it reaches; every run is at most as long as the potential. */
  lemma FloodingTerminates(m: nat, c: Config, s: Net, steps: seq<Step>)
    requires WellFormed(c, s) && Below(m, c.decoder, s) && IsRun(c, s, steps)
    requires c.decoder.ReadsBack()
    requires forall i :: 0 <= i < |steps| ==> !steps[i].Inject?
    ensures |steps| <= Potential(c, m, s)
  {
    hide Below, Open, Count, IsRun, After;
    RunPotential(m, c, s, steps);
    RunBelow(m, c, s, steps);
    var t := After(c, s, steps);
    BelowHeights(m, c.decoder, t);
    OpenNonNegative(c, m, t.nodes, |t.nodes|);
  }

  /** An index that no chain and no int64 exceeds. */
  function IndexBound(nodes: seq<State>): (m: nat)
    ensures m >= TWO_63
    ensures forall n :: 0 <= n < |nodes| ==> |nodes[n].blocks| <= m
  {
    if |nodes| == 0 then TWO_63
    else
      var m := IndexBound(nodes[..|nodes| - 1]);
      if |nodes[|nodes| - 1].blocks| <= m then m else |nodes[|nodes| - 1].blocks|
  }

  /** So from every state every run is finite. */
  lemma EveryRunEnds(c: Config, s: Net, steps: seq<Step>)
    requires WellFormed(c, s) && IsRun(c, s, steps) && c.decoder.ReadsBack()
    requires forall i :: 0 <= i < |steps| ==> !steps[i].Inject?
    ensures |steps| <= Potential(c, IndexBound(s.nodes), s)
  {
    hide IsRun, Potential;
    FloodingTerminates(IndexBound(s.nodes), c, s, steps);
  }

  // ---------------------------------------------------------------------------
  // From a fresh network
  // ---------------------------------------------------------------------------

  /** The blocks to be produced. */
  function Produced(pending: seq<(nat, Block)>): (ps: set<Block>)
    ensures |ps| <= |pending|
    ensures forall i :: 0 <= i < |pending| ==> pending[i].1 in ps
  {
    if |pending| == 0 then {} else Produced(pending[..|pending| - 1]) + {pending[|pending| - 1].1}
  }

  lemma {:induction false} SubsetSize<T>(a: set<T>, b: set<T>)
    requires a <= b
    ensures |a| <= |b|
  {
    if a != {} {
      var x :| x in a;
      SubsetSize(a - {x}, b - {x});
    }
  }

  lemma SameIndex(ps: set<Block>, x: Block) returns (p: Block)
    requires ComesFrom(ps, x)
    ensures p in ps && p.header.index == x.header.index
  {
    if x in ps {
      p := x;
    } else {
      p :| p in ps && x == SanitizeBlock(p);
    }
  }

  /** Different blocks of one chain go back to different produced blocks. */
  lemma {:induction false} Origins(ps: set<Block>, blocks: seq<Block>, k: nat) returns (qs: set<Block>)
    requires 0 < k <= |blocks|
    requires forall i :: 0 < i < k ==> blocks[i].header.index == i && ComesFrom(ps, blocks[i])
    ensures qs <= ps && |qs| == k - 1
    ensures forall q :: q in qs ==> q.header.index < k
  {
    hide ComesFrom;
    if k == 1 {
      qs := {};
    } else {
      var rest := Origins(ps, blocks, k - 1);
      var p := SameIndex(ps, blocks[k - 1]);
      qs := rest + {p};
    }
  }

  /** A chain is no longer than the number of blocks produced. */
  lemma HeightByProduction(ps: set<Block>, e: Engine, g: Accounts, blocks: seq<Block>)
    requires ValidChain(e, g, blocks)
    requires forall i :: 0 < i < |blocks| ==> ComesFrom(ps, blocks[i])
    ensures |blocks| <= |ps| + 1
  {
    hide ValidChain, ComesFrom, Signed, MerkleOf, BlockHash;
    forall i | 0 < i < |blocks|
      ensures blocks[i].header.index == i
    {
      ChainShape(e, g, blocks, i);
    }
    var qs := Origins(ps, blocks, |blocks|);
    SubsetSize(qs, ps);
  }

  lemma {:induction false} EmptyCount(q: seq<seq<Bytes>>)
    requires forall l :: 0 <= l < |q| ==> q[l] == []
    ensures Count(q) == 0
  {
    if |q| > 0 {
      EmptyCount(q[..|q| - 1]);
    }
  }

  /** All weights together. */
  function TotalWeight(c: Config, k: nat): nat {
    if k == 0 then 0 else TotalWeight(c, k - 1) + Weight(c, k - 1)
  }

  lemma {:induction false} FreshOpen(c: Config, m: nat, nodes: seq<State>, k: nat)
    requires k <= |nodes| && m > 0
    requires forall n :: 0 <= n < k ==> |nodes[n].blocks| == 1
    ensures Open(c, m, nodes, k) == (m - 1) * TotalWeight(c, k)
  {
    hide Weight;
    if k > 0 {
      FreshOpen(c, m, nodes, k - 1);
      Distribute(m - 1, TotalWeight(c, k - 1), Weight(c, k - 1));
    }
  }

  lemma Distribute(x: int, a: int, b: int)
    ensures x * (a + b) == x * a + x * b
  {
  }

  lemma Grows(x: nat, a: int, b: int)
    requires a <= b
    ensures x * a + x <= x * (b + 1)
  {
    Distribute(x, b, 1);
    Distribute(x, a, b - a);
    Product(x, b - a);
  }

  /** The out-degrees of the first `n` nodes, over the first `k` links. */
  function OutDegrees(links: seq<Link>, n: nat, k: nat): nat
    requires k <= |links|
  {
    if n == 0 then 0 else OutDegrees(links, n - 1, k) + OutDegree(links, n - 1, k)
  }

  lemma {:induction false} OneMoreLink(links: seq<Link>, n: nat, k: nat)
    requires 0 < k <= |links|
    ensures OutDegrees(links, n, k) == OutDegrees(links, n, k - 1) + if links[k - 1].src < n then 1 else 0
  {
    if n > 0 {
      OneMoreLink(links, n - 1, k);
    }
  }

  lemma {:induction false} NoLinks(links: seq<Link>, n: nat)
    ensures OutDegrees(links, n, 0) == 0
  {
    if n > 0 {
      NoLinks(links, n - 1);
    }
  }

  /** Every link leaves at most one node. */
  lemma {:induction false} LinksShared(links: seq<Link>, n: nat, k: nat)
    requires k <= |links|
    ensures OutDegrees(links, n, k) <= k
  {
    if k == 0 {
      NoLinks(links, n);
    } else {
      LinksShared(links, n, k - 1);
      OneMoreLink(links, n, k);
    }
  }

  lemma {:induction false} WeightsByDegree(c: Config, n: nat)
    ensures TotalWeight(c, n) == 2 * OutDegrees(c.links, n, |c.links|) + 2 * n
  {
    hide OutDegree;
    if n > 0 {
      WeightsByDegree(c, n - 1);
    }
  }

  lemma StartPotential(c: Config, pending: seq<(nat, Block)>, m: nat)
    requires CanStart(c, pending) && m > 0
    ensures Potential(c, m, Start(c, pending)) == (m - 1) * TotalWeight(c, |c.genesis|) + |pending|
  {
    hide Open, Count, TotalWeight, FloodCost;
    var s := Start(c, pending);
    EmptyCount(s.queue);
    EmptyCount(s.wire);
    FreshOpen(c, m, s.nodes, |s.nodes|);
  }

  lemma StartProvenance(c: Config, pending: seq<(nat, Block)>)
    requires CanStart(c, pending)
    ensures Provenance(Produced(pending), Start(c, pending))
  {
    hide ComesFrom, CarriesOne;
  }

  /** In a run from a fresh network no chain gets longer than the number of blocks produced. */
  lemma RunHeights(c: Config, pending: seq<(nat, Block)>, steps: seq<Step>)
    requires CanStart(c, pending) && c.decoder.ReadsBack()
    requires WellFormed(c, Start(c, pending)) && IsRun(c, Start(c, pending), steps)
    requires forall i :: 0 <= i < |steps| ==> !steps[i].Inject?
    ensures forall n :: 0 <= n < |c.genesis| ==> |After(c, Start(c, pending), steps).nodes[n].blocks| <= |pending| + 1
  {
    hide IsRun, After, Start, ValidChain, CanStart, Produced, ComesFrom, CarriesOne;
    StartSafe(c, pending);
    StartProvenance(c, pending);
    RunSafe(c, Start(c, pending), steps);
    RunProvenance(Produced(pending), c, Start(c, pending), steps);
    var t := After(c, Start(c, pending), steps);
    forall n | 0 <= n < |c.genesis|
      ensures |t.nodes[n].blocks| <= |pending| + 1
    {
      HeightByProduction(Produced(pending), c.engine, c.genesis[n], t.nodes[n].blocks);
    }
  }

  /** From a fresh network every run is at most this long, whatever the links and the blocks: for each
      block to be produced one production, one acceptance and one flood at every node, and two moves of
      a message over every link. */
  lemma FreshNetworkTerminates(c: Config, pending: seq<(nat, Block)>, steps: seq<Step>)
    requires CanStart(c, pending) && c.decoder.ReadsBack()
    requires WellFormed(c, Start(c, pending)) && IsRun(c, Start(c, pending), steps)
    requires forall i :: 0 <= i < |steps| ==> !steps[i].Inject?
    ensures |steps| <= |pending| * (2 * |c.links| + 2 * |c.genesis| + 1)
  {
    hide IsRun, After, Start, TotalWeight, OutDegrees, Open, Count, CanStart, FloodCosts;
    var m := |pending| + 1;
    StartPotential(c, pending, m);
    RunPotential(m, c, Start(c, pending), steps);
    RunHeights(c, pending, steps);
    var t := After(c, Start(c, pending), steps);
    OpenNonNegative(c, m, t.nodes, |t.nodes|);
    WeightsByDegree(c, |c.genesis|);
    LinksShared(c.links, |c.genesis|, |c.links|);
    Grows(|pending|, TotalWeight(c, |c.genesis|), 2 * |c.links| + 2 * |c.genesis|);
  }
}
