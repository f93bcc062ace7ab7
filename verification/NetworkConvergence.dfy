/**
  What a network at rest has delivered. With one producer, ordered connections and nothing lost, every
  node that the producer reaches holds its whole chain; after a single lost message it may not, for good.
 */
module NetworkConvergence {
  import opened ByteStrings
  import opened Base
  import opened Types
  import opened BlockJson
  import opened Hashing
  import opened Merkle
  import opened Balances
  import opened Validation
  import opened Chain
  import opened PeerQueue
  import opened Network
  import opened NetworkSafety
  import opened NetworkTermination

  // ---------------------------------------------------------------------------
  // Orderly runs
  // ---------------------------------------------------------------------------

  /** Both directions of every connection are links between the same two nodes. */
  predicate Proper(c: Config) {
    forall l :: 0 <= l < |c.links| ==>
                  var k := c.links[l];
                  && k.src < |c.genesis| && k.dst < |c.genesis| && k.back < |c.links|
                  && c.links[k.back].src == k.dst && c.links[k.back].dst == k.src
  }

  /** The flood is meant for link `l`. */
  predicate Matches(c: Config, f: Flooding, l: nat)
    requires l < |c.links|
  {
    c.links[l].src == f.node && f.except != Some(l)
  }

  /** Connections deliver in order, a node carries out its floods in the order it decided on them and finds
      room in its queues, and nothing is lost or forged. */
  predicate Orderly(c: Config, s: Net, step: Step)
    requires WellFormed(c, s) && Enabled(c, s, step)
  {
    match step
    case Produce(_) => true
    case Spread(i) =>
      && (forall j :: 0 <= j < i ==> s.floods[j].node != s.floods[i].node)
      && (forall l :: 0 <= l < |c.links| && Matches(c, s.floods[i], l) ==> |s.queue[l]| < 64)
    case Write(_) => true
    case Deliver(_, k) => k == 0
    case _ => false
  }

  predicate OrderlyRun(c: Config, s: Net, steps: seq<Step>)
    requires WellFormed(c, s) && IsRun(c, s, steps)
    decreases |steps|
  {
    |steps| == 0 ||
    (Orderly(c, s, steps[0]) && (NextWellFormed(c, s, steps[0]); OrderlyRun(c, Next(c, s, steps[0]), steps[1..])))
  }

  /** Nothing is on its way. */
  predicate AtRest(s: Net) {
    && s.floods == []
    && (forall l :: 0 <= l < |s.queue| ==> s.queue[l] == [])
    && (forall l :: 0 <= l < |s.wire| ==> s.wire[l] == [])
  }

  /** Orderly runs never get stuck: they can go on until the network is at rest. */
  lemma NotStuck(c: Config, s: Net) returns (step: Step)
    requires WellFormed(c, s) && !AtRest(s)
    ensures Enabled(c, s, step) && Orderly(c, s, step) && !step.Produce?
  {
    if l :| 0 <= l < |s.wire| && s.wire[l] != [] {
      step := Deliver(l, 0);
    } else if l :| 0 <= l < |s.queue| && s.queue[l] != [] {
      step := Write(l);
    } else {
      step := Spread(0);
    }
  }

  // ---------------------------------------------------------------------------
  // What is on its way over one link, in order
  // ---------------------------------------------------------------------------

  /** The payloads of the floods that are meant for link `l`. */
  function Awaiting(c: Config, fs: seq<Flooding>, l: nat): seq<Bytes>
    requires l < |c.links|
  {
    if |fs| == 0 then []
    else (if Matches(c, fs[0], l) then [fs[0].payload] else []) + Awaiting(c, fs[1..], l)
  }

  lemma {:induction false} AwaitingSnoc(c: Config, fs: seq<Flooding>, f: Flooding, l: nat)
    requires l < |c.links|
    ensures Awaiting(c, fs + [f], l) == Awaiting(c, fs, l) + if Matches(c, f, l) then [f.payload] else []
  {
    hide Matches;
    if |fs| == 0 {
      assert [f][1..] == [];
    } else {
      assert (fs + [f])[1..] == fs[1..] + [f];
      AwaitingSnoc(c, fs[1..], f, l);
    }
  }

  lemma RemoveTail<T>(q: seq<T>, i: nat)
    requires i < |q|
    ensures i == 0 ==> RemoveAt(q, i) == q[1..]
    ensures i > 0 ==>
              RemoveAt(q, i) != [] && RemoveAt(q, i)[0] == q[0] && RemoveAt(q, i)[1..] == RemoveAt(q[1..], i - 1)
  {
  }

  lemma {:induction false} AwaitingRemove(c: Config, fs: seq<Flooding>, i: nat, l: nat)
    requires l < |c.links| && i < |fs|
    requires Matches(c, fs[i], l) ==> forall j :: 0 <= j < i ==> !Matches(c, fs[j], l)
    ensures Awaiting(c, fs, l) ==
            (if Matches(c, fs[i], l) then [fs[i].payload] else []) + Awaiting(c, RemoveAt(fs, i), l)
  {
    hide Matches, RemoveAt;
    RemoveTail(fs, i);
    if i > 0 {
      AwaitingRemove(c, fs[1..], i - 1, l);
    }
  }

  function Stream(c: Config, s: Net, l: nat): seq<Bytes>
    requires WellFormed(c, s) && l < |c.links|
  {
    s.wire[l] + s.queue[l] + Awaiting(c, s.floods, l)
  }

  // ---------------------------------------------------------------------------
  // Feeding
  // ---------------------------------------------------------------------------

  /** The payload decodes to the block of the chain `p` at its index. */
  predicate Holds(d: Decoder, p: seq<Block>, payload: Bytes) {
    match d.block(payload)
    case None => false
    case Some(b) => 0 < b.header.index < |p| && p[b.header.index] == b
  }

  function Ix(d: Decoder, payload: Bytes): int {
    match d.block(payload)
    case None => 0
    case Some(b) => b.header.index
  }

  /** Some payload carries a block of index `i`. */
  predicate Occurs(d: Decoder, q: seq<Bytes>, i: int) {
    exists k :: 0 <= k < |q| && Ix(d, q[k]) == i
  }

  /** The payloads `q` carry blocks of the chain `p`, in ascending order and below `high`, and none from
      `low` up is missing. */
  predicate Feeds(d: Decoder, p: seq<Block>, q: seq<Bytes>, low: nat, high: nat) {
    && (forall k :: 0 <= k < |q| ==> Holds(d, p, q[k]) && Ix(d, q[k]) < high)
    && (forall i, k :: 0 <= i < k < |q| ==> Ix(d, q[i]) < Ix(d, q[k]))
    && (forall i :: low <= i < high ==> Occurs(d, q, i))
  }

  lemma FeedsLonger(d: Decoder, p: seq<Block>, p': seq<Block>, q: seq<Bytes>, low: nat, high: nat, low': nat)
    requires Feeds(d, p, q, low, high) && p <= p' && low <= low'
    ensures Feeds(d, p', q, low', high)
  {
    forall k | 0 <= k < |q|
      ensures Holds(d, p', q[k])
    {
      assert Holds(d, p, q[k]);
    }
  }

  /** The first payload is the next block that is missing, or one that is there already. */
  lemma FeedsFirst(d: Decoder, p: seq<Block>, q: seq<Bytes>, low: nat, high: nat)
    requires Feeds(d, p, q, low, high) && |q| > 0
    ensures Holds(d, p, q[0]) && 0 < Ix(d, q[0]) <= low && Ix(d, q[0]) < high
    ensures Feeds(d, p, q[1..], if Ix(d, q[0]) == low then low + 1 else low, high)
  {
    hide Holds, Ix;
    assert Holds(d, p, q[0]) && Ix(d, q[0]) < high;
    HoldsIndex(d, p, q[0]);
    if low < high {
      assert Occurs(d, q, low);
      var k :| 0 <= k < |q| && Ix(d, q[k]) == low;
      assert Ix(d, q[0]) <= Ix(d, q[k]);
    }
    var low' := if Ix(d, q[0]) == low then low + 1 else low;
    forall i | low' <= i < high
      ensures Occurs(d, q[1..], i)
    {
      assert Occurs(d, q, i);
      var k :| 0 <= k < |q| && Ix(d, q[k]) == i;
      assert q[1..][k - 1] == q[k];
    }
  }

  lemma HoldsIndex(d: Decoder, p: seq<Block>, payload: Bytes)
    requires Holds(d, p, payload)
    ensures 0 < Ix(d, payload) < |p| && d.block(payload) == Some(p[Ix(d, payload)])
  {
  }

  lemma FeedsAppend(d: Decoder, p: seq<Block>, q: seq<Bytes>, low: nat, high: nat, x: Bytes)
    requires Feeds(d, p, q, low, high) && Holds(d, p, x) && Ix(d, x) == high
    ensures Feeds(d, p, q + [x], low, high + 1)
  {
    hide Holds, Ix;
    forall i | low <= i < high + 1
      ensures Occurs(d, q + [x], i)
    {
      if i == high {
        assert (q + [x])[|q|] == x;
      } else {
        assert Occurs(d, q, i);
        var k :| 0 <= k < |q| && Ix(d, q[k]) == i;
        assert (q + [x])[k] == q[k];
      }
    }
  }

  lemma FeedsSkip(d: Decoder, p: seq<Block>, q: seq<Bytes>, low: nat, high: nat)
    requires Feeds(d, p, q, low, high) && low > high
    ensures Feeds(d, p, q, low, high + 1)
  {
  }

  // ---------------------------------------------------------------------------
  // The invariant
  // ---------------------------------------------------------------------------

  /** Link `l` is about to feed its destination all that it misses of its source. */
  predicate LinkFeeds(c: Config, s: Net, p: nat, l: nat)
    requires WellFormed(c, s) && Proper(c) && l < |c.links| && p < |c.genesis|
  {
    Feeds(c.decoder, s.nodes[p].blocks, Stream(c, s, l),
          |s.nodes[c.links[l].dst].blocks|, |s.nodes[c.links[l].src].blocks|)
  }

  /** Every chain is a prefix of the chain of node `p`, from one genesis map. */
  predicate Follows(c: Config, g: Accounts, s: Net, p: nat)
    requires WellFormed(c, s) && p < |c.genesis|
  {
    && (forall n :: 0 <= n < |s.nodes| ==>
          ValidState(c.engine, g, s.nodes[n]) && s.nodes[n].blocks <= s.nodes[p].blocks)
    && (forall i :: 0 <= i < |s.pending| ==> s.pending[i].0 == p && ValidBlock(s.pending[i].1))
  }

  predicate Converging(c: Config, g: Accounts, s: Net, p: nat)
    requires WellFormed(c, s) && Proper(c) && p < |c.genesis|
  {
    Follows(c, g, s, p) && forall l :: 0 <= l < |c.links| ==> LinkFeeds(c, s, p, l)
  }

  /** The next block of a longer chain is accepted, and one that is there is not. */
  lemma PrefixAccepts(e: Engine, g: Accounts, s: State, p: seq<Block>, j: nat)
    requires ValidState(e, g, s) && ValidChain(e, g, p) && s.blocks <= p && 0 < j < |p|
    ensures j == |s.blocks| ==>
              Accepts(e, s.blocks, s.balances, p[j]) && Add(e, s, p[j]).blocks == p[..j + 1]
    ensures j < |s.blocks| ==> !Accepts(e, s.blocks, s.balances, p[j])
  {
    hide Accepts, ValidChain, Replay, ApplyAll, Signed, MerkleOf, BlockHash;
    ChainShape(e, g, p, j);
    if j == |s.blocks| {
      AcceptedInTurn(e, g, p, j);
      assert s.blocks == p[..j];
    } else if j < |s.blocks| {
      IndexTaken(e, s, p[j]);
    }
  }

  lemma IndexTaken(e: Engine, s: State, b: Block)
    requires |s.blocks| > 0 && b.header.index != |s.blocks|
    ensures !Accepts(e, s.blocks, s.balances, b)
  {
    hide Stage;
  }

  /** Node `n` takes the block of index |blocks| and floods it: what its links feed, before and after. */
  lemma GrowthFeeds(
      c: Config, s: Net, n: nat, b: Block, payload: Bytes, except: Option<nat>, p: seq<Block>, p': seq<Block>, l: nat)
    requires WellFormed(c, s) && Proper(c) && n < |c.genesis| && l < |c.links| && p <= p'
    requires Accepts(c.engine, s.nodes[n].blocks, s.nodes[n].balances, b)
    requires var k := c.links[l];
             && Feeds(c.decoder, p, Stream(c, s, l), |s.nodes[k.dst].blocks| + (if k.dst == n then 1 else 0),
                      |s.nodes[k.src].blocks|)
             && (k.src == n && except == Some(l) ==>
                   |s.nodes[k.dst].blocks| + (if k.dst == n then 1 else 0) > |s.nodes[n].blocks|)
    requires Holds(c.decoder, p', payload) && Ix(c.decoder, payload) == |s.nodes[n].blocks|
    ensures var t := Receive(c, s, n, b, payload, except);
            && WellFormed(c, t)
            && Feeds(c.decoder, p', Stream(c, t, l), |t.nodes[c.links[l].dst].blocks|, |t.nodes[c.links[l].src].blocks|)
  {
    hide Accepts, ApplyAll, Holds, Feeds, Ix, Awaiting;
    ReceiveWellFormed(c, s, n, b, payload, except);
    var k := c.links[l];
    var q := Stream(c, s, l);
    var low := |s.nodes[k.dst].blocks| + if k.dst == n then 1 else 0;
    FeedsLonger(c.decoder, p, p', q, low, |s.nodes[k.src].blocks|, low);
    var f := Flooding(n, payload, except);
    AwaitingSnoc(c, s.floods, f, l);
    var t := Receive(c, s, n, b, payload, except);
    if Matches(c, f, l) {
      FeedsAppend(c.decoder, p', q, low, |s.nodes[n].blocks|, payload);
      assert Stream(c, t, l) == q + [payload];
    } else {
      assert Stream(c, t, l) == q;
      if k.src == n {
        FeedsSkip(c.decoder, p', q, low, |s.nodes[n].blocks|);
      }
    }
  }

  lemma GrowthFollows(
      c: Config, g: Accounts, s: Net, p: nat, n: nat, b: Block, payload: Bytes, except: Option<nat>)
    requires WellFormed(c, s) && p < |c.genesis| && n < |c.genesis| && Follows(c, g, s, p)
    requires Accepts(c.engine, s.nodes[n].blocks, s.nodes[n].balances, b)
    requires n == p || s.nodes[n].blocks + [b] <= s.nodes[p].blocks
    ensures var t := Receive(c, s, n, b, payload, except);
            WellFormed(c, t) && Follows(c, g, t, p) && s.nodes[p].blocks <= t.nodes[p].blocks
  {
    hide Accepts, ApplyAll, ValidState, ValidBlock;
    ReceiveWellFormed(c, s, n, b, payload, except);
    AddKeepsValid(c.engine, g, s.nodes[n], b);
  }

  /** An acceptance keeps the invariant, given what the links feed when it is counted in already. */
  lemma GrowthConverges(
      c: Config, g: Accounts, s: Net, p: nat, n: nat, b: Block, payload: Bytes, except: Option<nat>)
    requires WellFormed(c, s) && Proper(c) && p < |c.genesis| && n < |c.genesis| && Follows(c, g, s, p)
    requires Accepts(c.engine, s.nodes[n].blocks, s.nodes[n].balances, b)
    requires n == p || s.nodes[n].blocks + [b] <= s.nodes[p].blocks
    requires c.decoder.block(payload) == Some(b)
    requires forall l :: 0 <= l < |c.links| ==>
                           var k := c.links[l];
                           var low := |s.nodes[k.dst].blocks| + if k.dst == n then 1 else 0;
                           && Feeds(c.decoder, s.nodes[p].blocks, Stream(c, s, l), low, |s.nodes[k.src].blocks|)
                           && (k.src == n && except == Some(l) ==> low > |s.nodes[n].blocks|)
    ensures WellFormed(c, Receive(c, s, n, b, payload, except))
    ensures Converging(c, g, Receive(c, s, n, b, payload, except), p)
  {
    hide Accepts, ApplyAll, Stream, Feeds, ValidState, Follows, Add;
    GrowthFollows(c, g, s, p, n, b, payload, except);
    AcceptedIndex(c, s.nodes[n], b);
    var t := Receive(c, s, n, b, payload, except);
    assert Holds(c.decoder, t.nodes[p].blocks, payload) && Ix(c.decoder, payload) == |s.nodes[n].blocks| by {
      AddAppends(c.engine, s.nodes[n], b);
    }
    forall l | 0 <= l < |c.links|
      ensures LinkFeeds(c, t, p, l)
    {
      GrowthFeeds(c, s, n, b, payload, except, s.nodes[p].blocks, t.nodes[p].blocks, l);
    }
  }

  lemma AddAppends(e: Engine, s: State, b: Block)
    requires |s.blocks| > 0 && Accepts(e, s.blocks, s.balances, b)
    ensures Add(e, s, b).blocks == s.blocks + [b]
  {
    hide Accepts, ApplyAll;
  }

  lemma ProduceConverges(c: Config, g: Accounts, s: Net, p: nat, i: nat)
    requires WellFormed(c, s) && Proper(c) && p < |c.genesis| && Converging(c, g, s, p)
    requires c.decoder.ReadsBack() && i < |s.pending|
    ensures WellFormed(c, Next(c, s, Produce(i))) && Converging(c, g, Next(c, s, Produce(i)), p)
  {
    hide Accepts, Feeds, ValidState, MarshalPayload, ValidBlock, Receive, RemoveAt;
    NextWellFormed(c, s, Produce(i));
    var b := s.pending[i].1;
    var t := s.(pending := RemoveAt(s.pending, i));
    assert forall j :: 0 <= j < |t.pending| ==> t.pending[j] in s.pending;
    assert Follows(c, g, t, p);
    forall l | 0 <= l < |c.links|
      ensures Stream(c, t, l) == Stream(c, s, l)
      ensures var k := c.links[l];
              var low := |t.nodes[k.dst].blocks| + if k.dst == p then 1 else 0;
              Feeds(c.decoder, t.nodes[p].blocks, Stream(c, t, l), low, |t.nodes[k.src].blocks|)
    {
      var k := c.links[l];
      assert LinkFeeds(c, s, p, l);
      FeedsLonger(c.decoder, s.nodes[p].blocks, s.nodes[p].blocks, Stream(c, s, l), |s.nodes[k.dst].blocks|,
                  |s.nodes[k.src].blocks|, |s.nodes[k.dst].blocks| + if k.dst == p then 1 else 0);
    }
    BlockSurvivesWire(c.decoder, b);
    if Accepts(c.engine, t.nodes[p].blocks, t.nodes[p].balances, b) {
      GrowthConverges(c, g, t, p, p, b, MarshalPayload(b), None);
    } else {
      RefusedStays(c, t, p, b, MarshalPayload(b), None);
      SameStreams(c, g, s, t, p);
    }
  }

  lemma RefusedStays(c: Config, s: Net, n: nat, b: Block, payload: Bytes, except: Option<nat>)
    requires WellFormed(c, s) && n < |s.nodes|
    requires !Accepts(c.engine, s.nodes[n].blocks, s.nodes[n].balances, b)
    ensures Receive(c, s, n, b, payload, except) == s
  {
    hide Accepts;
  }

  /** A step that changes neither nodes nor what is on its way over any link. */
  lemma SameStreams(c: Config, g: Accounts, s: Net, t: Net, p: nat)
    requires WellFormed(c, s) && WellFormed(c, t) && Proper(c) && p < |c.genesis| && Converging(c, g, s, p)
    requires t.nodes == s.nodes && Follows(c, g, t, p)
    requires forall l :: 0 <= l < |c.links| ==> Stream(c, t, l) == Stream(c, s, l)
    ensures Converging(c, g, t, p)
  {
    hide Feeds, Stream, Follows;
    forall l | 0 <= l < |c.links|
      ensures LinkFeeds(c, t, p, l)
    {
      assert LinkFeeds(c, s, p, l);
    }
  }

  lemma SpreadConverges(c: Config, g: Accounts, s: Net, p: nat, i: nat)
    requires WellFormed(c, s) && Proper(c) && p < |c.genesis| && Converging(c, g, s, p)
    requires Enabled(c, s, Spread(i)) && Orderly(c, s, Spread(i))
    ensures WellFormed(c, Next(c, s, Spread(i))) && Converging(c, g, Next(c, s, Spread(i)), p)
  {
    hide Feeds, ValidState, ValidBlock, Flood, RemoveAt, Awaiting;
    NextWellFormed(c, s, Spread(i));
    var f := s.floods[i];
    var t := Next(c, s, Spread(i));
    forall l | 0 <= l < |c.links|
      ensures Stream(c, t, l) == Stream(c, s, l)
    {
      FloodAt(c.links, s.queue, f.node, f.except, f.payload, l);
      AwaitingRemove(c, s.floods, i, l);
      if Matches(c, f, l) {
        assert s.wire[l] + (s.queue[l] + [f.payload]) + Awaiting(c, t.floods, l) ==
               s.wire[l] + s.queue[l] + ([f.payload] + Awaiting(c, t.floods, l));
      }
    }
    SameStreams(c, g, s, t, p);
  }

  lemma WriteConverges(c: Config, g: Accounts, s: Net, p: nat, l: nat)
    requires WellFormed(c, s) && Proper(c) && p < |c.genesis| && Converging(c, g, s, p)
    requires Enabled(c, s, Write(l))
    ensures WellFormed(c, Next(c, s, Write(l))) && Converging(c, g, Next(c, s, Write(l)), p)
  {
    hide Feeds, ValidState, ValidBlock, Awaiting;
    NextWellFormed(c, s, Write(l));
    var t := Next(c, s, Write(l));
    assert s.wire[l] + [s.queue[l][0]] + s.queue[l][1..] == s.wire[l] + s.queue[l];
    SameStreams(c, g, s, t, p);
  }

  /** The state once the first message of link `l` is taken off. */
  function Taken(s: Net, l: nat): Net
    requires l < |s.wire| && |s.wire[l]| > 0
  {
    s.(wire := s.wire[l := RemoveAt(s.wire[l], 0)])
  }

  /** What is left to feed once the first message of link `l` is taken off and, if it is the next block of
      its destination, counted in. */
  lemma TakenFeeds(c: Config, g: Accounts, s: Net, p: nat, l: nat, m: nat)
    requires WellFormed(c, s) && Proper(c) && p < |c.genesis| && Converging(c, g, s, p)
    requires l < |c.links| && |s.wire[l]| > 0 && m < |c.links|
    ensures var t := Taken(s, l);
            var (j, n, k) := (Ix(c.decoder, s.wire[l][0]), c.links[l].dst, c.links[m]);
            && WellFormed(c, t)
            && 0 < j < |s.nodes[p].blocks| && j <= |s.nodes[n].blocks| && j < |s.nodes[c.links[l].src].blocks|
            && c.decoder.block(s.wire[l][0]) == Some(s.nodes[p].blocks[j])
            && Feeds(c.decoder, t.nodes[p].blocks, Stream(c, t, m),
                     |t.nodes[k.dst].blocks| + (if k.dst == n && j == |s.nodes[n].blocks| then 1 else 0),
                     |t.nodes[k.src].blocks|)
  {
    hide Feeds, ValidState, ValidBlock, Awaiting, Holds, Ix;
    var t := Taken(s, l);
    var (n, k) := (c.links[l].dst, c.links[m]);
    var q := Stream(c, s, l);
    assert q[0] == s.wire[l][0];
    assert LinkFeeds(c, s, p, l) && LinkFeeds(c, s, p, m);
    FeedsFirst(c.decoder, s.nodes[p].blocks, q, |s.nodes[n].blocks|, |s.nodes[c.links[l].src].blocks|);
    HoldsIndex(c.decoder, s.nodes[p].blocks, q[0]);
    if m == l {
      assert Stream(c, t, l) == q[1..];
    } else {
      var j := Ix(c.decoder, s.wire[l][0]);
      FeedsLonger(c.decoder, s.nodes[p].blocks, s.nodes[p].blocks, Stream(c, s, m), |s.nodes[k.dst].blocks|,
                  |s.nodes[k.src].blocks|,
                  |s.nodes[k.dst].blocks| + if k.dst == n && j == |s.nodes[n].blocks| then 1 else 0);
    }
  }

  lemma TakenFollows(c: Config, g: Accounts, s: Net, p: nat, l: nat)
    requires WellFormed(c, s) && Proper(c) && p < |c.genesis| && Converging(c, g, s, p)
    requires l < |c.links| && |s.wire[l]| > 0
    ensures WellFormed(c, Taken(s, l)) && Follows(c, g, Taken(s, l), p)
  {
    hide ValidState, ValidBlock, RemoveAt, LinkFeeds;
  }

  lemma NodeFollows(c: Config, g: Accounts, s: Net, p: nat, n: nat, j: nat)
    requires WellFormed(c, s) && Proper(c) && p < |c.genesis| && n < |c.genesis| && Converging(c, g, s, p)
    requires 0 < j < |s.nodes[p].blocks| && j <= |s.nodes[n].blocks|
    ensures var b := s.nodes[p].blocks[j];
            && (j == |s.nodes[n].blocks| ==>
                  && Accepts(c.engine, s.nodes[n].blocks, s.nodes[n].balances, b)
                  && s.nodes[n].blocks + [b] <= s.nodes[p].blocks)
            && (j < |s.nodes[n].blocks| ==> !Accepts(c.engine, s.nodes[n].blocks, s.nodes[n].balances, b))
  {
    hide Accepts, Add, ValidChain, ValidBlock, LinkFeeds;
    PrefixAccepts(c.engine, g, s.nodes[n], s.nodes[p].blocks, j);
  }

  lemma DeliverIs(c: Config, s: Net, l: nat, b: Block)
    requires WellFormed(c, s) && Enabled(c, s, Deliver(l, 0)) && c.decoder.block(s.wire[l][0]) == Some(b)
    ensures WellFormed(c, Taken(s, l)) && Taken(s, l).nodes == s.nodes
    ensures Next(c, s, Deliver(l, 0)) ==
            Receive(c, Taken(s, l), c.links[l].dst, b, s.wire[l][0], Some(c.links[l].back))
  {
    hide Receive, RemoveAt;
  }

  lemma NextTakenFeeds(c: Config, g: Accounts, s: Net, p: nat, l: nat, m: nat)
    requires WellFormed(c, s) && Proper(c) && p < |c.genesis| && Converging(c, g, s, p) && m < |c.links|
    requires Enabled(c, s, Deliver(l, 0)) && Ix(c.decoder, s.wire[l][0]) == |s.nodes[c.links[l].dst].blocks|
    ensures WellFormed(c, Taken(s, l))
    ensures var (t, n, k) := (Taken(s, l), c.links[l].dst, c.links[m]);
            var low := |t.nodes[k.dst].blocks| + if k.dst == n then 1 else 0;
            && Feeds(c.decoder, t.nodes[p].blocks, Stream(c, t, m), low, |t.nodes[k.src].blocks|)
            && (k.src == n && Some(c.links[l].back) == Some(m) ==> low > |t.nodes[n].blocks|)
  {
    hide Feeds, Stream, RemoveAt, Ix, Converging;
    TakenFeeds(c, g, s, p, l, m);
  }

  /** The message was the next block of its destination. */
  lemma NextTaken(c: Config, g: Accounts, s: Net, p: nat, l: nat)
    requires WellFormed(c, s) && Proper(c) && p < |c.genesis| && Converging(c, g, s, p)
    requires Enabled(c, s, Deliver(l, 0)) && Ix(c.decoder, s.wire[l][0]) == |s.nodes[c.links[l].dst].blocks|
    ensures WellFormed(c, Next(c, s, Deliver(l, 0))) && Converging(c, g, Next(c, s, Deliver(l, 0)), p)
  {
    hide Accepts, Feeds, Stream, Receive, RemoveAt, Ix, Add, Follows, Converging, Next, Taken;
    var t, n := Taken(s, l), c.links[l].dst;
    TakenFeeds(c, g, s, p, l, l);
    DeliverIs(c, s, l, s.nodes[p].blocks[Ix(c.decoder, s.wire[l][0])]);
    TakenFollows(c, g, s, p, l);
    var j := Ix(c.decoder, s.wire[l][0]);
    var b := s.nodes[p].blocks[j];
    NodeFollows(c, g, s, p, n, j);
    forall m | 0 <= m < |c.links|
      ensures var k := c.links[m];
              var low := |t.nodes[k.dst].blocks| + if k.dst == n then 1 else 0;
              && Feeds(c.decoder, t.nodes[p].blocks, Stream(c, t, m), low, |t.nodes[k.src].blocks|)
              && (k.src == n && Some(c.links[l].back) == Some(m) ==> low > |t.nodes[n].blocks|)
    {
      NextTakenFeeds(c, g, s, p, l, m);
    }
    GrowthConverges(c, g, t, p, n, b, s.wire[l][0], Some(c.links[l].back));
  }

  /** It was a block that its destination has. */
  lemma OldTaken(c: Config, g: Accounts, s: Net, p: nat, l: nat)
    requires WellFormed(c, s) && Proper(c) && p < |c.genesis| && Converging(c, g, s, p)
    requires Enabled(c, s, Deliver(l, 0)) && Ix(c.decoder, s.wire[l][0]) < |s.nodes[c.links[l].dst].blocks|
    ensures WellFormed(c, Next(c, s, Deliver(l, 0))) && Converging(c, g, Next(c, s, Deliver(l, 0)), p)
  {
    hide Accepts, Feeds, Stream, Receive, RemoveAt, Ix, Add, ValidChain, Follows;
    var t, n := Taken(s, l), c.links[l].dst;
    TakenFeeds(c, g, s, p, l, l);
    TakenFollows(c, g, s, p, l);
    var j := Ix(c.decoder, s.wire[l][0]);
    NodeFollows(c, g, s, p, n, j);
    RefusedStays(c, t, n, s.nodes[p].blocks[j], s.wire[l][0], Some(c.links[l].back));
    forall m | 0 <= m < |c.links|
      ensures LinkFeeds(c, t, p, m)
    {
      TakenFeeds(c, g, s, p, l, m);
    }
  }

  lemma DeliverConverges(c: Config, g: Accounts, s: Net, p: nat, l: nat)
    requires WellFormed(c, s) && Proper(c) && p < |c.genesis| && Converging(c, g, s, p)
    requires Enabled(c, s, Deliver(l, 0))
    ensures WellFormed(c, Next(c, s, Deliver(l, 0))) && Converging(c, g, Next(c, s, Deliver(l, 0)), p)
  {
    hide Converging, Next, Ix;
    TakenFeeds(c, g, s, p, l, l);
    if Ix(c.decoder, s.wire[l][0]) == |s.nodes[c.links[l].dst].blocks| {
      NextTaken(c, g, s, p, l);
    } else {
      OldTaken(c, g, s, p, l);
    }
  }

  lemma {:induction false} RunConverges(c: Config, g: Accounts, s: Net, p: nat, steps: seq<Step>)
    requires WellFormed(c, s) && Proper(c) && p < |c.genesis| && Converging(c, g, s, p) && c.decoder.ReadsBack()
    requires IsRun(c, s, steps) && OrderlyRun(c, s, steps)
    ensures Converging(c, g, After(c, s, steps), p)
    decreases |steps|
  {
    hide Converging, Next, Enabled;
    if |steps| > 0 {
      NextConverges(c, g, s, p, steps[0]);
      RunConverges(c, g, Next(c, s, steps[0]), p, steps[1..]);
    }
  }

  lemma NextConverges(c: Config, g: Accounts, s: Net, p: nat, step: Step)
    requires WellFormed(c, s) && Proper(c) && p < |c.genesis| && Converging(c, g, s, p) && c.decoder.ReadsBack()
    requires Enabled(c, s, step) && Orderly(c, s, step)
    ensures WellFormed(c, Next(c, s, step)) && Converging(c, g, Next(c, s, step), p)
  {
    hide Converging, Next;
    match step {
      case Produce(i) => ProduceConverges(c, g, s, p, i);
      case Spread(i) => SpreadConverges(c, g, s, p, i);
      case Write(l) => WriteConverges(c, g, s, p, l);
      case Deliver(l, k) => DeliverConverges(c, g, s, p, l);
      case _ =>
    }
  }

  // ---------------------------------------------------------------------------
  // At rest
  // ---------------------------------------------------------------------------

  /** The links `path` lead from node `m` to node `n`. */
  predicate Path(c: Config, path: seq<nat>, m: nat, n: nat) {
    if |path| == 0 then m == n
    else path[0] < |c.links| && c.links[path[0]].src == m && Path(c, path[1..], c.links[path[0]].dst, n)
  }

  lemma RestFeeds(c: Config, g: Accounts, s: Net, p: nat, l: nat)
    requires WellFormed(c, s) && Proper(c) && p < |c.genesis| && Converging(c, g, s, p) && AtRest(s)
    requires l < |c.links|
    ensures |s.nodes[c.links[l].src].blocks| <= |s.nodes[c.links[l].dst].blocks|
  {
    hide Follows, Holds;
    assert LinkFeeds(c, s, p, l);
    assert Stream(c, s, l) == [];
    var low, high := |s.nodes[c.links[l].dst].blocks|, |s.nodes[c.links[l].src].blocks|;
    assert low < high ==> Occurs(c.decoder, Stream(c, s, l), low);
  }

  lemma {:induction false} PathFeeds(c: Config, g: Accounts, s: Net, p: nat, path: seq<nat>, m: nat, n: nat)
    requires WellFormed(c, s) && Proper(c) && p < |c.genesis| && Converging(c, g, s, p) && AtRest(s)
    requires m < |c.genesis| && Path(c, path, m, n)
    ensures n < |c.genesis| && |s.nodes[m].blocks| <= |s.nodes[n].blocks|
    decreases |path|
  {
    hide Converging, AtRest;
    if |path| > 0 {
      RestFeeds(c, g, s, p, path[0]);
      PathFeeds(c, g, s, p, path[1..], c.links[path[0]].dst, n);
    }
  }

  lemma StartFollows(c: Config, g: Accounts, pending: seq<(nat, Block)>, p: nat)
    requires CanStart(c, pending) && WellFormed(c, Start(c, pending)) && p < |c.genesis|
    requires forall n :: 0 <= n < |c.genesis| ==> c.genesis[n] == g
    requires forall i :: 0 <= i < |pending| ==> pending[i].0 == p && ValidBlock(pending[i].1)
    ensures Follows(c, g, Start(c, pending), p)
  {
    hide ValidState, ValidBlock, Init;
    InitIsValid(c.engine, g);
  }

  lemma NothingAwaiting(c: Config, l: nat)
    requires l < |c.links|
    ensures Awaiting(c, [], l) == []
  {
  }

  lemma FeedsNothing(d: Decoder, p: seq<Block>, n: nat)
    ensures Feeds(d, p, [], n, n)
  {
  }

  lemma StartConverges(c: Config, g: Accounts, pending: seq<(nat, Block)>, p: nat)
    requires CanStart(c, pending) && Proper(c) && p < |c.genesis|
    requires forall n :: 0 <= n < |c.genesis| ==> c.genesis[n] == g
    requires forall i :: 0 <= i < |pending| ==> pending[i].0 == p && ValidBlock(pending[i].1)
    ensures WellFormed(c, Start(c, pending)) && Converging(c, g, Start(c, pending), p)
  {
    hide Follows, Feeds, Awaiting, Init;
    StartSafe(c, pending);
    StartFollows(c, g, pending, p);
    var s := Start(c, pending);
    forall l | 0 <= l < |c.links|
      ensures LinkFeeds(c, s, p, l)
    {
      assert Stream(c, s, l) == [] by {
        NothingAwaiting(c, l);
      }
      FeedsNothing(c.decoder, s.nodes[p].blocks, |Init(g).blocks|);
    }
  }

  /** The positive half. One node produces blocks of valid text, all nodes are seeded alike, and the run is
      orderly: when it comes to rest - and it does, for it is finite and never stuck - every node that the
      producer reaches over any links is in the state of the producer. */
  lemma AllCaughtUp(
      c: Config, g: Accounts, pending: seq<(nat, Block)>, steps: seq<Step>, p: nat, path: seq<nat>, n: nat)
    requires CanStart(c, pending) && Proper(c) && c.decoder.ReadsBack() && p < |c.genesis|
    requires forall n :: 0 <= n < |c.genesis| ==> c.genesis[n] == g
    requires forall i :: 0 <= i < |pending| ==> pending[i].0 == p && ValidBlock(pending[i].1)
    requires WellFormed(c, Start(c, pending)) && IsRun(c, Start(c, pending), steps)
    requires OrderlyRun(c, Start(c, pending), steps)
    requires AtRest(After(c, Start(c, pending), steps)) && Path(c, path, p, n)
    ensures n < |c.genesis|
    ensures var t := After(c, Start(c, pending), steps); t.nodes[n] == t.nodes[p]
  {
    hide Start, IsRun, After, OrderlyRun, LinkFeeds, ValidChain, Replay, AtRest;
    StartConverges(c, g, pending, p);
    RunConverges(c, g, Start(c, pending), p, steps);
    var t := After(c, Start(c, pending), steps);
    PathFeeds(c, g, t, p, path, p, n);
    assert t.nodes[n].blocks == t.nodes[p].blocks;
  }

  // ---------------------------------------------------------------------------
  // After one loss
  // ---------------------------------------------------------------------------

  /** Two nodes and one connection. */
  function Pair(e: Engine, d: Decoder, g: Accounts): Config {
    Config(e, d, [g, g], [Link(0, 1, 1), Link(1, 0, 0)])
  }

  /** An empty block on top of genesis, which every fresh ledger accepts. */
  function FirstBlock(e: Engine): Block {
    BareBlock(e, [GENESIS], [])
  }

  /** The pair with something on its way over link 0 only. */
  function Midway(
      nodes: seq<State>, more: seq<(nat, Block)>, floods: seq<Flooding>, queue: seq<Bytes>, wire: seq<Bytes>): Net
  {
    Net(nodes, more, floods, [queue, []], [wire, []])
  }

  /** Node 0 has produced the first block, and its message to node 1 has been lost. */
  function Lost(e: Engine, g: Accounts, more: seq<(nat, Block)>): Net {
    Midway([Add(e, Init(g), FirstBlock(e)), Init(g)], more, [], [], [])
  }

  const LOSE_FIRST: seq<Step> := [Produce(0), Spread(0), Write(0), LoseWritten(0, 0)]

  lemma FirstBlockAccepted(e: Engine, g: Accounts)
    ensures Accepts(e, Init(g).blocks, g, FirstBlock(e))
    ensures |Add(e, Init(g), FirstBlock(e)).blocks| == 2
  {
    hide Accepts, Signed, Funded, BareBlock;
    BareAccepted(e, [GENESIS], g, []);
    StageNothing(e, g);
    AddAppends(e, Init(g), FirstBlock(e));
  }

  predicate PairReady(nodes: seq<State>, more: seq<(nat, Block)>) {
    && |nodes| == 2 && |nodes[0].blocks| > 0 && |nodes[1].blocks| > 0
    && forall i :: 0 <= i < |more| ==> more[i].0 < 2
  }

  /** The step leads from `s` to `t`. */
  predicate Leads(c: Config, s: Net, step: Step, t: Net) {
    WellFormed(c, s) && WellFormed(c, t) && Enabled(c, s, step) && Next(c, s, step) == t
  }

  lemma ProducesFirst(e: Engine, d: Decoder, g: Accounts, more: seq<(nat, Block)>)
    requires forall i :: 0 <= i < |more| ==> more[i].0 < 2
    ensures var (c, b) := (Pair(e, d, g), FirstBlock(e));
            && PairReady([Add(e, Init(g), b), Init(g)], more)
            && Leads(c, Start(c, [(0, b)] + more), Produce(0),
                     Midway([Add(e, Init(g), b), Init(g)], more, [Flooding(0, MarshalPayload(b), None)], [], []))
  {
    hide Accepts, Add, MarshalPayload, FirstBlock;
    var c, b := Pair(e, d, g), FirstBlock(e);
    FirstBlockAccepted(e, g);
    assert RemoveAt([(0, b)] + more, 0) == more;
    assert Start(c, [(0, b)] + more).nodes == [Init(g), Init(g)];
  }

  lemma FloodsPair(links: seq<Link>, queue: seq<seq<Bytes>>, payload: Bytes)
    requires links == [Link(0, 1, 1), Link(1, 0, 0)] && |queue| == 2 && queue[0] == [] && queue[1] == []
    ensures Flood(links, queue, 0, None, payload) == [[payload], []]
  {
    hide Flood;
    var r := Flood(links, queue, 0, None, payload);
    FloodAt(links, queue, 0, None, payload, 0);
    FloodAt(links, queue, 0, None, payload, 1);
    assert r[0] == [payload] && r[1] == [];
  }

  lemma SpreadsFirst(e: Engine, d: Decoder, g: Accounts, nodes: seq<State>, more: seq<(nat, Block)>, payload: Bytes)
    requires PairReady(nodes, more)
    ensures Leads(Pair(e, d, g), Midway(nodes, more, [Flooding(0, payload, None)], [], []), Spread(0),
                  Midway(nodes, more, [], [payload], []))
  {
    hide Flood;
    var s := Midway(nodes, more, [Flooding(0, payload, None)], [], []);
    FloodsPair(Pair(e, d, g).links, s.queue, payload);
    assert RemoveAt(s.floods, 0) == [];
  }

  lemma WritesFirst(e: Engine, d: Decoder, g: Accounts, nodes: seq<State>, more: seq<(nat, Block)>, payload: Bytes)
    requires PairReady(nodes, more)
    ensures Leads(Pair(e, d, g), Midway(nodes, more, [], [payload], []), Write(0),
                  Midway(nodes, more, [], [], [payload]))
  {
    var s := Midway(nodes, more, [], [payload], []);
    assert s.queue[0][1..] == [] && s.wire[0] + [payload] == [payload];
    assert s.queue[0 := []] == [[], []] && s.wire[0 := [payload]] == [[payload], []];
  }

  lemma LosesWritten(e: Engine, d: Decoder, g: Accounts, nodes: seq<State>, more: seq<(nat, Block)>, payload: Bytes)
    requires PairReady(nodes, more)
    ensures Leads(Pair(e, d, g), Midway(nodes, more, [], [], [payload]), LoseWritten(0, 0),
                  Midway(nodes, more, [], [], []))
  {
    var s := Midway(nodes, more, [], [], [payload]);
    assert RemoveAt(s.wire[0], 0) == [];
    assert s.wire[0 := []] == [[], []];
  }

  lemma FourSteps(c: Config, s0: Net, s1: Net, s2: Net, s3: Net, s4: Net)
    requires Leads(c, s0, Produce(0), s1) && Leads(c, s1, Spread(0), s2)
    requires Leads(c, s2, Write(0), s3) && Leads(c, s3, LoseWritten(0, 0), s4)
    ensures WellFormed(c, s0) && IsRun(c, s0, LOSE_FIRST) && After(c, s0, LOSE_FIRST) == s4
  {
    hide Next, Enabled, WellFormed;
    var t := LOSE_FIRST;
    assert t[1..] == [Spread(0), Write(0), LoseWritten(0, 0)];
    assert t[1..][1..] == [Write(0), LoseWritten(0, 0)];
    assert t[1..][1..][1..] == [LoseWritten(0, 0)];
    assert t[1..][1..][1..][1..] == [];
  }

  /** A run of four steps leads to the state after the loss. */
  lemma LosesFirst(e: Engine, d: Decoder, g: Accounts, more: seq<(nat, Block)>)
    requires forall i :: 0 <= i < |more| ==> more[i].0 < 2
    ensures var (c, s) := (Pair(e, d, g), Start(Pair(e, d, g), [(0, FirstBlock(e))] + more));
            && WellFormed(c, s) && IsRun(c, s, LOSE_FIRST)
            && After(c, s, LOSE_FIRST) == Lost(e, g, more)
  {
    hide Add, MarshalPayload, FirstBlock, IsRun, After, Leads, Start, Pair, Midway, PairReady, LOSE_FIRST;
    var c, b := Pair(e, d, g), FirstBlock(e);
    var payload, nodes := MarshalPayload(b), [Add(e, Init(g), b), Init(g)];
    ProducesFirst(e, d, g, more);
    SpreadsFirst(e, d, g, nodes, more, payload);
    WritesFirst(e, d, g, nodes, more, payload);
    LosesWritten(e, d, g, nodes, more, payload);
    FourSteps(c, Start(c, [(0, b)] + more), Midway(nodes, more, [Flooding(0, payload, None)], [], []),
              Midway(nodes, more, [], [payload], []), Midway(nodes, more, [], [], [payload]), Lost(e, g, more));
  }

  /** One lost message is enough: once the first block of node 0 is lost on its way to node 1, however the run
      goes on, with whatever both nodes go on to produce at other heights, node 1 never leaves genesis. */
  lemma OneLossIsForGood(e: Engine, d: Decoder, g: Accounts, more: seq<(nat, Block)>, steps: seq<Step>)
    requires d.ReadsBack()
    requires forall i :: 0 <= i < |more| ==> more[i].0 < 2 && more[i].1.header.index != 1
    requires WellFormed(Pair(e, d, g), Lost(e, g, more)) && IsRun(Pair(e, d, g), Lost(e, g, more), steps)
    requires forall i :: 0 <= i < |steps| ==> !steps[i].Inject?
    ensures var t := After(Pair(e, d, g), Lost(e, g, more), steps);
            |t.nodes| == 2 && |t.nodes[0].blocks| >= 2 && t.nodes[1] == Init(g)
  {
    hide Accepts, Add, FirstBlock, IsRun, After, LOSE_FIRST, Start, MarshalPayload;
    var c, s := Pair(e, d, g), Lost(e, g, more);
    FirstBlockAccepted(e, g);
    StalledForGood(c, s, steps, 1);
    NetworkSafety.RunExtends(c, s, steps);
  }
}
