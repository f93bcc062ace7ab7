/** What every run of the network keeps: each node's ledger invariant, the queue bound, append-only
    chains, one history per block hash across all nodes, and no block that nobody produced. */
module NetworkSafety {
  import opened ByteStrings
  import opened Base
  import opened Types
  import opened BlockJson
  import opened Balances
  import opened Validation
  import opened Chain
  import opened ChainBinding
  import opened PeerQueue
  import opened Network

  predicate Safe(c: Config, s: Net)
    requires WellFormed(c, s)
  {
    && (forall n :: 0 <= n < |s.nodes| ==> ValidState(c.engine, c.genesis[n], s.nodes[n]))
    && (forall l :: 0 <= l < |s.queue| ==> |s.queue[l]| <= 64)
  }

  /** One link's queue after a flood. */
  lemma {:induction false} FloodAt(
      links: seq<Link>, queue: seq<seq<Bytes>>, n: nat, except: Option<nat>, payload: Bytes, l: nat)
    requires |queue| <= |links| && l < |queue|
    ensures Flood(links, queue, n, except, payload)[l] ==
            if links[l].src == n && except != Some(l) && |queue[l]| < 64 then queue[l] + [payload]
            else queue[l]
  {
    if l < |queue| - 1 {
      FloodAt(links, queue[..|queue| - 1], n, except, payload, l);
    }
  }

  lemma ReceiveSafe(c: Config, s: Net, n: nat, b: Block, payload: Bytes, except: Option<nat>)
    requires WellFormed(c, s) && Safe(c, s) && n < |s.nodes|
    ensures WellFormed(c, Receive(c, s, n, b, payload, except))
    ensures Safe(c, Receive(c, s, n, b, payload, except))
  {
    hide ValidState, Add;
    ReceiveWellFormed(c, s, n, b, payload, except);
    AddKeepsValid(c.engine, c.genesis[n], s.nodes[n], b);
  }

  lemma NextSafe(c: Config, s: Net, step: Step)
    requires WellFormed(c, s) && Safe(c, s) && Enabled(c, s, step)
    ensures WellFormed(c, Next(c, s, step)) && Safe(c, Next(c, s, step))
  {
    hide Receive, Flood, ValidState, MarshalPayload;
    NextWellFormed(c, s, step);
    match step {
      case Spread(i) =>
        var f := s.floods[i];
        forall l | 0 <= l < |s.queue|
          ensures |Flood(c.links, s.queue, f.node, f.except, f.payload)[l]| <= 64
        {
          FloodAt(c.links, s.queue, f.node, f.except, f.payload, l);
        }
      case Produce(i) =>
        var (n, b) := s.pending[i];
        var t := s.(pending := RemoveAt(s.pending, i));
        assert WellFormed(c, t);
        ReceiveSafe(c, t, n, b, MarshalPayload(b), None);
      case Deliver(l, k) =>
        var t := s.(wire := s.wire[l := RemoveAt(s.wire[l], k)]);
        match c.decoder.block(s.wire[l][k]) {
          case None =>
          case Some(b) => ReceiveSafe(c, t, c.links[l].dst, b, s.wire[l][k], Some(c.links[l].back));
        }
      case _ =>
    }
  }

  lemma {:induction false} RunSafe(c: Config, s: Net, steps: seq<Step>)
    requires WellFormed(c, s) && Safe(c, s) && IsRun(c, s, steps)
    ensures Safe(c, After(c, s, steps))
    decreases |steps|
  {
    hide Safe, Next, Enabled;
    if |steps| > 0 {
      NextSafe(c, s, steps[0]);
      RunSafe(c, Next(c, s, steps[0]), steps[1..]);
    }
  }

  /** A network that can start: links between existing nodes, productions at existing nodes. */
  predicate CanStart(c: Config, pending: seq<(nat, Block)>) {
    && (forall l :: 0 <= l < |c.links| ==> c.links[l].dst < |c.genesis|)
    && (forall i :: 0 <= i < |pending| ==> pending[i].0 < |c.genesis|)
  }

  lemma StartSafe(c: Config, pending: seq<(nat, Block)>)
    requires CanStart(c, pending)
    ensures WellFormed(c, Start(c, pending)) && Safe(c, Start(c, pending))
  {
    hide ValidState;
    forall n | 0 <= n < |c.genesis|
      ensures ValidState(c.engine, c.genesis[n], Start(c, pending).nodes[n])
    {
      InitIsValid(c.engine, c.genesis[n]);
    }
  }

  // ---------------------------------------------------------------------------
  // Chains only grow
  // ---------------------------------------------------------------------------

  predicate Extends(s: Net, t: Net) {
    |s.nodes| == |t.nodes| && forall n :: 0 <= n < |s.nodes| ==> s.nodes[n].blocks <= t.nodes[n].blocks
  }

  lemma NextExtends(c: Config, s: Net, step: Step)
    requires WellFormed(c, s) && Enabled(c, s, step)
    ensures Extends(s, Next(c, s, step))
  {
    hide Flood, Accepts, ApplyAll, MarshalPayload;
  }

  lemma {:induction false} RunExtends(c: Config, s: Net, steps: seq<Step>)
    requires WellFormed(c, s) && IsRun(c, s, steps)
    ensures Extends(s, After(c, s, steps))
    decreases |steps|
  {
    hide Next, Enabled;
    if |steps| > 0 {
      NextWellFormed(c, s, steps[0]);
      NextExtends(c, s, steps[0]);
      var mid := Next(c, s, steps[0]);
      RunExtends(c, mid, steps[1..]);
      forall n | 0 <= n < |s.nodes|
        ensures s.nodes[n].blocks <= After(c, s, steps).nodes[n].blocks
      {
        assert mid.nodes[n].blocks <= After(c, mid, steps[1..]).nodes[n].blocks;
      }
    }
  }

  // ---------------------------------------------------------------------------
  // Traffic
  // ---------------------------------------------------------------------------

  /** The messages on their way over a link. */
  function Traffic(s: Net, l: nat): multiset<Bytes>
    requires l < |s.queue| && l < |s.wire|
  {
    multiset(s.queue[l]) + multiset(s.wire[l])
  }

  lemma RemoveAtMultiset<T>(q: seq<T>, k: nat)
    requires k < |q|
    ensures multiset(RemoveAt(q, k)) == multiset(q) - multiset{q[k]}
  {
    assert q == q[..k] + [q[k]] + q[k + 1..];
  }

  /** A flood that node `f.node` carries out reaches link `l`. */
  predicate Reaches(c: Config, s: Net, f: Flooding, l: nat)
    requires WellFormed(c, s) && l < |c.links|
  {
    c.links[l].src == f.node && f.except != Some(l) && |s.queue[l]| < 64
  }

  /** What has entered and left a link. */
  datatype Tally = Tally(
    flooded: multiset<Bytes>,
    forged: multiset<Bytes>,
    delivered: multiset<Bytes>,
    lost: multiset<Bytes>)
  {
    function Plus(t: Tally): Tally {
      Tally(flooded + t.flooded, forged + t.forged, delivered + t.delivered, lost + t.lost)
    }
  }

  const NOTHING: Tally := Tally(multiset{}, multiset{}, multiset{}, multiset{})

  function StepTally(c: Config, s: Net, step: Step, l: nat): Tally
    requires WellFormed(c, s) && Enabled(c, s, step) && l < |c.links|
  {
    match step
    case Spread(i) =>
      if Reaches(c, s, s.floods[i], l) then NOTHING.(flooded := multiset{s.floods[i].payload}) else NOTHING
    case Inject(k, payload) => if k == l then NOTHING.(forged := multiset{payload}) else NOTHING
    case Deliver(k, at) => if k == l then NOTHING.(delivered := multiset{s.wire[l][at]}) else NOTHING
    case LoseWritten(k, at) => if k == l then NOTHING.(lost := multiset{s.wire[l][at]}) else NOTHING
    case LoseQueued(k) => if k == l then NOTHING.(lost := multiset{s.queue[l][0]}) else NOTHING
    case Write(_) => NOTHING
    case Produce(_) => NOTHING
  }

  function RunTally(c: Config, s: Net, steps: seq<Step>, l: nat): Tally
    requires WellFormed(c, s) && IsRun(c, s, steps) && l < |c.links|
    decreases |steps|
  {
    if |steps| == 0 then NOTHING
    else
      NextWellFormed(c, s, steps[0]);
      StepTally(c, s, steps[0], l).Plus(RunTally(c, Next(c, s, steps[0]), steps[1..], l))
  }

  lemma HeadMultiset<T>(q: seq<T>)
    requires |q| > 0
    ensures multiset(q) == multiset(q[1..]) + multiset{q[0]}
  {
    assert q == [q[0]] + q[1..];
  }

  lemma ReceiveTraffic(c: Config, s: Net, n: nat, b: Block, payload: Bytes, except: Option<nat>)
    requires WellFormed(c, s) && n < |s.nodes|
    ensures Receive(c, s, n, b, payload, except).queue == s.queue
    ensures Receive(c, s, n, b, payload, except).wire == s.wire
  {
  }

  /** The books of a link after one step. */
  predicate Balanced(c: Config, s: Net, t: Tally, u: Net, l: nat)
    requires WellFormed(c, s) && WellFormed(c, u) && l < |c.links|
  {
    Traffic(s, l) + t.flooded + t.forged == Traffic(u, l) + t.delivered + t.lost
  }

  lemma SpreadBalances(c: Config, s: Net, i: nat, l: nat)
    requires WellFormed(c, s) && Enabled(c, s, Spread(i)) && l < |c.links|
    ensures WellFormed(c, Next(c, s, Spread(i)))
    ensures Balanced(c, s, StepTally(c, s, Spread(i), l), Next(c, s, Spread(i)), l)
  {
    hide Flood, RemoveAt;
    var f := s.floods[i];
    FloodAt(c.links, s.queue, f.node, f.except, f.payload, l);
  }

  lemma QueueBalances(c: Config, s: Net, k: nat, l: nat)
    requires WellFormed(c, s) && Enabled(c, s, Write(k)) && l < |c.links|
    ensures Balanced(c, s, StepTally(c, s, Write(k), l), Next(c, s, Write(k)), l)
    ensures Balanced(c, s, StepTally(c, s, LoseQueued(k), l), Next(c, s, LoseQueued(k)), l)
  {
    HeadMultiset(s.queue[k]);
  }

  lemma TakenBalances(c: Config, s: Net, k: nat, at: nat, l: nat)
    requires WellFormed(c, s) && Enabled(c, s, LoseWritten(k, at)) && l < |c.links|
    ensures var u := s.(wire := s.wire[k := RemoveAt(s.wire[k], at)]);
            && Balanced(c, s, StepTally(c, s, LoseWritten(k, at), l), u, l)
            && Balanced(c, s, StepTally(c, s, Deliver(k, at), l), u, l)
  {
    hide RemoveAt;
    RemoveAtMultiset(s.wire[k], at);
  }

  lemma NextBalances(c: Config, s: Net, step: Step, l: nat)
    requires WellFormed(c, s) && Enabled(c, s, step) && l < |c.links|
    ensures WellFormed(c, Next(c, s, step))
    ensures Balanced(c, s, StepTally(c, s, step, l), Next(c, s, step), l)
  {
    hide Receive, Flood, MarshalPayload, RemoveAt;
    NextWellFormed(c, s, step);
    match step {
      case Produce(i) =>
        var (n, b) := s.pending[i];
        assert forall j :: 0 <= j < |RemoveAt(s.pending, i)| ==> RemoveAt(s.pending, i)[j] in s.pending;
        ReceiveTraffic(c, s.(pending := RemoveAt(s.pending, i)), n, b, MarshalPayload(b), None);
      case Inject(k, payload) =>
      case Spread(i) => SpreadBalances(c, s, i, l);
      case Write(k) => QueueBalances(c, s, k, l);
      case LoseQueued(k) => QueueBalances(c, s, k, l);
      case Deliver(k, at) =>
        TakenBalances(c, s, k, at, l);
        var t := s.(wire := s.wire[k := RemoveAt(s.wire[k], at)]);
        match c.decoder.block(s.wire[k][at]) {
          case None =>
          case Some(b) => ReceiveTraffic(c, t, c.links[k].dst, b, s.wire[k][at], Some(c.links[k].back));
        }
      case LoseWritten(k, at) => TakenBalances(c, s, k, at, l);
    }
  }

  lemma BooksAddUp(before: multiset<Bytes>, between: multiset<Bytes>, after: multiset<Bytes>, t: Tally, u: Tally)
    requires before + t.flooded + t.forged == between + t.delivered + t.lost
    requires between + u.flooded + u.forged == after + u.delivered + u.lost
    ensures before + t.Plus(u).flooded + t.Plus(u).forged == after + t.Plus(u).delivered + t.Plus(u).lost
  {
    var left := before + t.Plus(u).flooded + t.Plus(u).forged;
    var right := after + t.Plus(u).delivered + t.Plus(u).lost;
    forall x: Bytes
      ensures left[x] == right[x]
    {
      assert (before + t.flooded + t.forged)[x] == (between + t.delivered + t.lost)[x];
      assert (between + u.flooded + u.forged)[x] == (after + u.delivered + u.lost)[x];
    }
  }

  /** Over any run, message by message and with their numbers: what was under way on a link and what was
      flooded or forged onto it since is what was delivered, what was lost, and what is under way. */
  lemma {:induction false} RunBalances(c: Config, s: Net, steps: seq<Step>, l: nat)
    requires WellFormed(c, s) && IsRun(c, s, steps) && l < |c.links|
    ensures Balanced(c, s, RunTally(c, s, steps, l), After(c, s, steps), l)
    decreases |steps|
  {
    hide Next, Enabled, StepTally, Traffic;
    if |steps| > 0 {
      var mid := Next(c, s, steps[0]);
      NextBalances(c, s, steps[0], l);
      RunBalances(c, mid, steps[1..], l);
      BooksAddUp(Traffic(s, l), Traffic(mid, l), Traffic(After(c, s, steps), l),
                 StepTally(c, s, steps[0], l), RunTally(c, mid, steps[1..], l));
    }
  }

  function Deliveries(steps: seq<Step>, l: nat): nat {
    if |steps| == 0 then 0
    else (if steps[0].Deliver? && steps[0].link == l then 1 else 0) + Deliveries(steps[1..], l)
  }

  function Losses(steps: seq<Step>, l: nat): nat {
    if |steps| == 0 then 0
    else
      (if (steps[0].LoseWritten? || steps[0].LoseQueued?) && steps[0].link == l then 1 else 0)
      + Losses(steps[1..], l)
  }

  function Forgeries(steps: seq<Step>, l: nat): nat {
    if |steps| == 0 then 0
    else (if steps[0].Inject? && steps[0].link == l then 1 else 0) + Forgeries(steps[1..], l)
  }

  lemma StepTallySizes(c: Config, s: Net, step: Step, l: nat)
    requires WellFormed(c, s) && Enabled(c, s, step) && l < |c.links|
    ensures var t := StepTally(c, s, step, l);
            && |t.delivered| == (if step.Deliver? && step.link == l then 1 else 0)
            && |t.lost| == (if (step.LoseWritten? || step.LoseQueued?) && step.link == l then 1 else 0)
            && |t.forged| == (if step.Inject? && step.link == l then 1 else 0)
  {
  }

  lemma {:induction false} TallySizes(c: Config, s: Net, steps: seq<Step>, l: nat)
    requires WellFormed(c, s) && IsRun(c, s, steps) && l < |c.links|
    ensures var t := RunTally(c, s, steps, l);
            && |t.delivered| == Deliveries(steps, l) && |t.lost| == Losses(steps, l)
            && |t.forged| == Forgeries(steps, l)
    decreases |steps|
  {
    hide Next, StepTally, Enabled;
    if |steps| > 0 {
      NextWellFormed(c, s, steps[0]);
      StepTallySizes(c, s, steps[0], l);
      TallySizes(c, Next(c, s, steps[0]), steps[1..], l);
    }
  }

  /** The books of a run hold one entry for each delivery, loss and forgery on the link. */
  lemma TallyCounts(c: Config, s: Net, steps: seq<Step>, l: nat)
    requires WellFormed(c, s) && IsRun(c, s, steps) && l < |c.links|
    ensures var t := RunTally(c, s, steps, l);
            && |t.delivered| == Deliveries(steps, l) && |t.lost| == Losses(steps, l)
            && |t.forged| == Forgeries(steps, l)
            && |Traffic(s, l)| + |t.flooded| + Forgeries(steps, l) ==
               |Traffic(After(c, s, steps), l)| + Deliveries(steps, l) + Losses(steps, l)
            && |Traffic(s, l)| == |s.queue[l]| + |s.wire[l]|
  {
    hide Next, Traffic, After, RunTally, IsRun, Deliveries, Losses, Forgeries;
    TrafficSize(s, l);
    TallySizes(c, s, steps, l);
    RunBalances(c, s, steps, l);
    BalancedSizes(Traffic(s, l), Traffic(After(c, s, steps), l), RunTally(c, s, steps, l));
  }

  lemma TrafficSize(s: Net, l: nat)
    requires l < |s.queue| && l < |s.wire|
    ensures |Traffic(s, l)| == |s.queue[l]| + |s.wire[l]|
  {
  }

  lemma BalancedSizes(before: multiset<Bytes>, after: multiset<Bytes>, t: Tally)
    requires before + t.flooded + t.forged == after + t.delivered + t.lost
    ensures |before| + |t.flooded| + |t.forged| == |after| + |t.delivered| + |t.lost|
  {
    assert |before + t.flooded + t.forged| == |after + t.delivered + t.lost|;
  }

  // ---------------------------------------------------------------------------
  // At most one message per block, and none back
  // ---------------------------------------------------------------------------

  /** Floods decided on that are meant for link `l`. */
  function Meant(c: Config, fs: seq<Flooding>, l: nat): nat
    requires l < |c.links|
  {
    if |fs| == 0 then 0
    else
      var (init, f) := (fs[..|fs| - 1], fs[|fs| - 1]);
      Meant(c, init, l) + if f.node == c.links[l].src && f.except != Some(l) then 1 else 0
  }

  lemma {:induction false} MeantRemove(c: Config, fs: seq<Flooding>, l: nat, i: nat)
    requires l < |c.links| && i < |fs|
    ensures Meant(c, fs, l) ==
            Meant(c, RemoveAt(fs, i), l) + if fs[i].node == c.links[l].src && fs[i].except != Some(l) then 1 else 0
  {
    var r := RemoveAt(fs, i);
    if i < |fs| - 1 {
      MeantRemove(c, fs[..|fs| - 1], l, i);
      assert r[..|r| - 1] == RemoveAt(fs[..|fs| - 1], i);
    } else {
      assert r == fs[..|fs| - 1];
    }
  }

  lemma MeantSnoc(c: Config, fs: seq<Flooding>, l: nat, f: Flooding)
    requires l < |c.links|
    ensures Meant(c, fs + [f], l) ==
            Meant(c, fs, l) + if f.node == c.links[l].src && f.except != Some(l) then 1 else 0
  {
    assert (fs + [f])[..|fs|] == fs;
  }

  /** A step that commits a block which came in by the connection that `l` is the outward direction of. */
  predicate CameBy(c: Config, s: Net, step: Step, l: nat)
    requires WellFormed(c, s) && Enabled(c, s, step) && l < |c.links|
  {
    && step.Deliver?
    && c.links[step.link].back == l && c.links[step.link].dst == c.links[l].src
    && Next(c, s, step).nodes != s.nodes
  }

  /** How many blocks a run commits at the source of `l` that came in by the same connection. */
  function CommittedBy(c: Config, s: Net, steps: seq<Step>, l: nat): nat
    requires WellFormed(c, s) && IsRun(c, s, steps) && l < |c.links|
    decreases |steps|
  {
    if |steps| == 0 then 0
    else
      NextWellFormed(c, s, steps[0]);
      (if CameBy(c, s, steps[0], l) then 1 else 0) + CommittedBy(c, Next(c, s, steps[0]), steps[1..], l)
  }

  lemma ReceiveMeant(c: Config, s: Net, n: nat, b: Block, payload: Bytes, except: Option<nat>, l: nat)
    requires WellFormed(c, s) && n < |s.nodes| && l < |c.links| && c.links[l].src < |s.nodes|
    ensures var (t, m) := (Receive(c, s, n, b, payload, except), c.links[l].src);
            && |t.nodes| == |s.nodes|
            && (t.nodes == s.nodes ==> t.floods == s.floods)
            && (t.nodes != s.nodes ==>
                  && |t.nodes[m].blocks| == |s.nodes[m].blocks| + (if m == n then 1 else 0)
                  && Meant(c, t.floods, l) == Meant(c, s.floods, l) + if n == m && except != Some(l) then 1 else 0)
  {
    hide Accepts, ApplyAll, Meant;
    MeantSnoc(c, s.floods, l, Flooding(n, payload, except));
  }

  lemma NextMeant(c: Config, s: Net, step: Step, l: nat)
    requires WellFormed(c, s) && Enabled(c, s, step) && l < |c.links| && c.links[l].src < |s.nodes|
    ensures WellFormed(c, Next(c, s, step))
    ensures var (t, n) := (Next(c, s, step), c.links[l].src);
            |StepTally(c, s, step, l).flooded| + (if CameBy(c, s, step, l) then 1 else 0)
              + Meant(c, t.floods, l) + |s.nodes[n].blocks|
            <= Meant(c, s.floods, l) + |t.nodes[n].blocks|
  {
    hide Receive, Flood, MarshalPayload, RemoveAt, Meant;
    NextWellFormed(c, s, step);
    match step {
      case Produce(i) =>
        var (n, b) := s.pending[i];
        assert forall j :: 0 <= j < |RemoveAt(s.pending, i)| ==> RemoveAt(s.pending, i)[j] in s.pending;
        ReceiveMeant(c, s.(pending := RemoveAt(s.pending, i)), n, b, MarshalPayload(b), None, l);
      case Spread(i) => MeantRemove(c, s.floods, l, i);
      case Deliver(k, at) =>
        var t := s.(wire := s.wire[k := RemoveAt(s.wire[k], at)]);
        match c.decoder.block(s.wire[k][at]) {
          case None =>
          case Some(b) => ReceiveMeant(c, t, c.links[k].dst, b, s.wire[k][at], Some(c.links[k].back), l);
        }
      case _ =>
    }
  }

  /** Over any run a link is flooded with at most one message for each block that its source commits, and
      with none for the blocks that came in by the same connection. */
  lemma {:induction false} RunFloodsOnce(c: Config, s: Net, steps: seq<Step>, l: nat)
    requires WellFormed(c, s) && IsRun(c, s, steps) && l < |c.links| && c.links[l].src < |s.nodes|
    ensures var n := c.links[l].src;
            |RunTally(c, s, steps, l).flooded| + CommittedBy(c, s, steps, l) + |s.nodes[n].blocks|
            <= Meant(c, s.floods, l) + |After(c, s, steps).nodes[n].blocks|
    decreases |steps|
  {
    hide Next, Enabled, StepTally, Meant, CameBy;
    if |steps| > 0 {
      NextMeant(c, s, steps[0], l);
      RunFloodsOnce(c, Next(c, s, steps[0]), steps[1..], l);
    }
  }

  /** From a fresh network without forged messages: what is flooded onto a link is what is delivered, lost
      and under way, message by message and with their numbers; and it is at most one message for each
      block that the source of the link holds above genesis and did not get over the same connection. */
  lemma LinkTraffic(c: Config, pending: seq<(nat, Block)>, steps: seq<Step>, l: nat)
    requires CanStart(c, pending) && l < |c.links| && c.links[l].src < |c.genesis|
    requires WellFormed(c, Start(c, pending)) && IsRun(c, Start(c, pending), steps)
    requires forall i :: 0 <= i < |steps| ==> !steps[i].Inject?
    ensures var (s, t) := (Start(c, pending), After(c, Start(c, pending), steps));
            var tally := RunTally(c, s, steps, l);
            && tally.flooded == tally.delivered + tally.lost + Traffic(t, l)
            && |tally.flooded| + CommittedBy(c, s, steps, l) < |t.nodes[c.links[l].src].blocks|
  {
    hide After, RunTally, CommittedBy, IsRun;
    var s := Start(c, pending);
    RunBalances(c, s, steps, l);
    RunFloodsOnce(c, s, steps, l);
    NoForgery(c, s, steps, l);
    assert Traffic(s, l) == multiset{};
    var tally := RunTally(c, s, steps, l);
    assert multiset{} + tally.flooded + tally.forged == tally.flooded;
    assert Traffic(After(c, s, steps), l) + tally.delivered + tally.lost ==
           tally.delivered + tally.lost + Traffic(After(c, s, steps), l);
  }

  lemma {:induction false} NoForgery(c: Config, s: Net, steps: seq<Step>, l: nat)
    requires WellFormed(c, s) && IsRun(c, s, steps) && l < |c.links|
    requires forall i :: 0 <= i < |steps| ==> !steps[i].Inject?
    ensures RunTally(c, s, steps, l).forged == multiset{}
    decreases |steps|
  {
    hide Next, Enabled;
    if |steps| > 0 {
      NextWellFormed(c, s, steps[0]);
      NoForgery(c, Next(c, s, steps[0]), steps[1..], l);
    }
  }

  // ---------------------------------------------------------------------------
  // One history per hash
  // ---------------------------------------------------------------------------

  /** Network safety. After any two runs - two moments of one run, or two different runs - of
      networks of one engine, any node of the one and any node of the other that hold equal hashes at
      some height have the same blocks up to there, or a collision is at hand. How they were seeded plays
      no part in that; their balances at that height agree on exactly the accounts on which their genesis
      maps do. Reordered, duplicated, lost and forged messages are all allowed. */
  lemma OneHistoryPerHash(
      c: Config, pending: seq<(nat, Block)>, steps: seq<Step>, m: nat,
      c': Config, pending': seq<(nat, Block)>, steps': seq<Step>, n: nat, h: nat)
    requires CanStart(c, pending) && CanStart(c', pending') && c.engine == c'.engine
    requires WellFormed(c, Start(c, pending)) && IsRun(c, Start(c, pending), steps)
    requires WellFormed(c', Start(c', pending')) && IsRun(c', Start(c', pending'), steps')
    requires m < |c.genesis| && n < |c'.genesis|
    requires var (a, b) := (After(c, Start(c, pending), steps).nodes[m].blocks,
                            After(c', Start(c', pending'), steps').nodes[n].blocks);
             h < |a| && h < |b| && a[h].hash == b[h].hash
    ensures var (a, b) := (After(c, Start(c, pending), steps).nodes[m].blocks,
                           After(c', Start(c', pending'), steps').nodes[n].blocks);
            var (g, g') := (c.genesis[m], c'.genesis[n]);
            && ValidChain(c.engine, g, a) && ValidChain(c.engine, g', b)
            && (SameHistory(a, b, h) ==>
                  && (forall k ::
                        Bal(Replay(g, a[..h + 1]), k) == Bal(Replay(g', b[..h + 1]), k) <==> Bal(g, k) == Bal(g', k))
                  && (g == g' ==> Replay(g, a[..h + 1]) == Replay(g', b[..h + 1])))
            && (!SameHistory(a, b, h) ==> ChainCollision(c.engine, g, a, g', b, h).Of(c.engine.hash))
  {
    hide ValidChain, SameHistory, Start, After, IsRun, Replay, CanStart, Bal;
    StartSafe(c, pending);
    StartSafe(c', pending');
    RunSafe(c, Start(c, pending), steps);
    RunSafe(c', Start(c', pending'), steps');
    var a := After(c, Start(c, pending), steps).nodes[m].blocks;
    var b := After(c', Start(c', pending'), steps').nodes[n].blocks;
    HashBindsHistory(c.engine, c.genesis[m], a, c'.genesis[n], b, h);
  }

  // ---------------------------------------------------------------------------
  // Nothing is invented
  // ---------------------------------------------------------------------------

  /** `x` is one of the blocks `ps`, as it was produced or as it was decoded. */
  predicate ComesFrom(ps: set<Block>, x: Block) {
    x in ps || exists p :: p in ps && x == SanitizeBlock(p)
  }

  predicate CarriesOne(ps: set<Block>, payload: Bytes) {
    exists p :: p in ps && payload == MarshalPayload(p)
  }

  /** Everything held, waiting or in flight goes back to the blocks `ps`. */
  predicate Provenance(ps: set<Block>, s: Net) {
    && (forall n, i :: 0 <= n < |s.nodes| && 0 < i < |s.nodes[n].blocks| ==> ComesFrom(ps, s.nodes[n].blocks[i]))
    && (forall i :: 0 <= i < |s.pending| ==> s.pending[i].1 in ps)
    && (forall i :: 0 <= i < |s.floods| ==> CarriesOne(ps, s.floods[i].payload))
    && (forall l, k :: 0 <= l < |s.queue| && 0 <= k < |s.queue[l]| ==> CarriesOne(ps, s.queue[l][k]))
    && (forall l, k :: 0 <= l < |s.wire| && 0 <= k < |s.wire[l]| ==> CarriesOne(ps, s.wire[l][k]))
  }

  lemma ReceiveProvenance(
      ps: set<Block>, c: Config, s: Net, n: nat, b: Block, payload: Bytes, except: Option<nat>)
    requires WellFormed(c, s) && n < |s.nodes| && Provenance(ps, s)
    requires ComesFrom(ps, b) && CarriesOne(ps, payload)
    ensures Provenance(ps, Receive(c, s, n, b, payload, except))
  {
    hide Accepts, ApplyAll, ComesFrom, CarriesOne;
  }

  lemma SpreadProvenance(ps: set<Block>, c: Config, s: Net, i: nat)
    requires WellFormed(c, s) && i < |s.floods| && Provenance(ps, s)
    ensures Provenance(ps, Next(c, s, Spread(i)))
  {
    hide Flood, ComesFrom, CarriesOne;
    var f := s.floods[i];
    var t := Next(c, s, Spread(i));
    assert forall j :: 0 <= j < |t.floods| ==> t.floods[j] in s.floods;
    forall l, k | 0 <= l < |t.queue| && 0 <= k < |t.queue[l]|
      ensures CarriesOne(ps, t.queue[l][k])
    {
      FloodAt(c.links, s.queue, f.node, f.except, f.payload, l);
      if k < |s.queue[l]| {
        assert t.queue[l][k] == s.queue[l][k];
      }
    }
  }

  lemma DecodedComesFrom(d: Decoder, ps: set<Block>, payload: Bytes)
    requires d.ReadsBack() && CarriesOne(ps, payload)
    ensures d.block(payload).Some? && ComesFrom(ps, d.block(payload).value)
  {
    hide MarshalPayload, SanitizeBlock;
    var p :| p in ps && payload == MarshalPayload(p);
    assert d.block(MarshalPayload(p)) == Some(SanitizeBlock(p));
  }

  lemma RemoveAtProvenance(ps: set<Block>, s: Net, l: nat, k: nat)
    requires Provenance(ps, s) && l < |s.wire| && k < |s.wire[l]|
    ensures Provenance(ps, s.(wire := s.wire[l := RemoveAt(s.wire[l], k)]))
  {
    hide ComesFrom, CarriesOne;
    var r := RemoveAt(s.wire[l], k);
    forall j | 0 <= j < |r|
      ensures CarriesOne(ps, r[j])
    {
      assert r[j] == s.wire[l][if j < k then j else j + 1];
    }
  }

  lemma NextProvenance(ps: set<Block>, c: Config, s: Net, step: Step)
    requires WellFormed(c, s) && Provenance(ps, s) && Enabled(c, s, step) && !step.Inject?
    requires c.decoder.ReadsBack()
    ensures Provenance(ps, Next(c, s, step))
  {
    hide Receive, Flood, ComesFrom, CarriesOne, MarshalPayload, RemoveAt;
    match step {
      case Spread(i) => SpreadProvenance(ps, c, s, i);
      case Produce(i) =>
        var (n, b) := s.pending[i];
        var t := s.(pending := RemoveAt(s.pending, i));
        assert forall j :: 0 <= j < |t.pending| ==> t.pending[j] in s.pending;
        ProducedKnown(ps, b);
        ReceiveProvenance(ps, c, t, n, b, MarshalPayload(b), None);
      case Write(l) =>
      case Deliver(l, k) =>
        RemoveAtProvenance(ps, s, l, k);
        DecodedComesFrom(c.decoder, ps, s.wire[l][k]);
        var t := s.(wire := s.wire[l := RemoveAt(s.wire[l], k)]);
        var b := c.decoder.block(s.wire[l][k]).value;
        ReceiveProvenance(ps, c, t, c.links[l].dst, b, s.wire[l][k], Some(c.links[l].back));
      case LoseQueued(l) =>
      case LoseWritten(l, k) => RemoveAtProvenance(ps, s, l, k);
    }
  }

  lemma ProducedKnown(ps: set<Block>, b: Block)
    requires b in ps
    ensures ComesFrom(ps, b) && CarriesOne(ps, MarshalPayload(b))
  {
  }

  /** In every run without forged messages, every committed block is one of those that some node set
      out to produce, up to the decoding of its text. */
  lemma {:induction false} RunProvenance(ps: set<Block>, c: Config, s: Net, steps: seq<Step>)
    requires WellFormed(c, s) && Provenance(ps, s) && IsRun(c, s, steps) && c.decoder.ReadsBack()
    requires forall i :: 0 <= i < |steps| ==> !steps[i].Inject?
    ensures Provenance(ps, After(c, s, steps))
    decreases |steps|
  {
    hide Provenance, Next, Enabled;
    if |steps| > 0 {
      NextWellFormed(c, s, steps[0]);
      NextProvenance(ps, c, s, steps[0]);
      RunProvenance(ps, c, Next(c, s, steps[0]), steps[1..]);
    }
  }
}
