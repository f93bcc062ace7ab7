/**
  Gossip of transactions. A transaction that passes is handed on every time it arrives, to all peers but the
  one it came from, so whether its gossip ends is a matter of the connections alone: it ends exactly if a
  message cannot walk over them for ever without turning back.
 */
module TxGossip {
  import opened ByteStrings
  import opened Base
  import opened BlockJson
  import opened Balances
  import opened Validation
  import opened PeerServer
  import opened Network

  // ---------------------------------------------------------------------------
  // Steps
  // ---------------------------------------------------------------------------

  /** For each link the messages on their way over it, queued or written. */
  type Flight = seq<seq<Bytes>>

  /** A node handles a message, and some of its links may lose what it hands on, as a full queue does; or a
      message is lost. */
  datatype GossipStep = Handle(link: nat, at: nat, lost: set<nat>) | Lose(link: nat, at: nat)

  predicate Passes(c: Config, payload: Bytes) {
    TxVerdict(c.decoder, c.engine, payload).Pass?
  }

  predicate Possible(c: Config, f: Flight, step: GossipStep) {
    |f| == |c.links| && step.link < |f| && step.at < |f[step.link]|
  }

  /** A message that came by link `l` goes on by link `m`: from the node where it arrived, and not back. */
  predicate Continues(links: seq<Link>, l: nat, m: nat)
    requires l < |links| && m < |links|
  {
    links[m].src == links[l].dst && links[l].back != m
  }

  function HandOn(links: seq<Link>, f: Flight, l: nat, lost: set<nat>, payload: Bytes): (r: Flight)
    requires |f| <= |links| && l < |links|
    ensures |r| == |f|
  {
    if |f| == 0 then []
    else
      var m := |f| - 1;
      var rest := HandOn(links, f[..m], l, lost, payload);
      rest + [if Continues(links, l, m) && m !in lost then f[m] + [payload] else f[m]]
  }

  function GossipNext(c: Config, f: Flight, step: GossipStep): (r: Flight)
    requires Possible(c, f, step)
    ensures |r| == |f|
  {
    var taken := f[step.link := RemoveAt(f[step.link], step.at)];
    var payload := f[step.link][step.at];
    match step
    case Handle(l, _, lost) => if Passes(c, payload) then HandOn(c.links, taken, l, lost, payload) else taken
    case Lose(_, _) => taken
  }

  predicate IsGossip(c: Config, f: Flight, steps: seq<GossipStep>)
    decreases |steps|
  {
    |steps| == 0 || (Possible(c, f, steps[0]) && IsGossip(c, GossipNext(c, f, steps[0]), steps[1..]))
  }

  lemma {:induction false} HandOnAt(links: seq<Link>, f: Flight, l: nat, lost: set<nat>, payload: Bytes, m: nat)
    requires |f| <= |links| && l < |links| && m < |f|
    ensures HandOn(links, f, l, lost, payload)[m] ==
            if Continues(links, l, m) && m !in lost then f[m] + [payload] else f[m]
  {
    if m < |f| - 1 {
      HandOnAt(links, f[..|f| - 1], l, lost, payload, m);
    }
  }

  // ---------------------------------------------------------------------------
  // Walks
  // ---------------------------------------------------------------------------

  /** Links that lead on from one to the next without ever turning back. */
  predicate Walk(links: seq<Link>, w: seq<nat>) {
    && (forall i :: 0 <= i < |w| ==> w[i] < |links|)
    && (forall i, j :: 0 <= i < |w| && 0 <= j < |w| && j == i + 1 ==> Continues(links, w[i], w[j]))
  }

  /** No walk that starts with link `l` makes more than `k` moves from there. */
  ghost predicate Bounded(links: seq<Link>, l: nat, k: nat) {
    forall w: seq<nat> :: Walk(links, w) && |w| > 0 && w[0] == l ==> |w| <= k + 1
  }

  /** The same for all links that a message is on. */
  ghost predicate AllBounded(links: seq<Link>, f: Flight, k: nat) {
    forall l :: 0 <= l < |f| && f[l] != [] ==> Bounded(links, l, k)
  }

  lemma PrependWalk(links: seq<Link>, l: nat, w: seq<nat>)
    requires l < |links| && Walk(links, w) && |w| > 0 && Continues(links, l, w[0])
    ensures Walk(links, [l] + w)
  {
    var v := [l] + w;
    forall i, j | 0 <= i < |v| && 0 <= j < |v| && j == i + 1
      ensures Continues(links, v[i], v[j])
    {
      if i > 0 {
        assert v[i] == w[i - 1] && v[j] == w[j - 1];
      }
    }
  }

  lemma BoundedNext(links: seq<Link>, l: nat, m: nat, k: nat)
    requires l < |links| && m < |links| && Bounded(links, l, k) && Continues(links, l, m)
    ensures k > 0 && Bounded(links, m, k - 1)
  {
    assert Walk(links, [m]);
    PrependWalk(links, l, [m]);
    forall w: seq<nat> | Walk(links, w) && |w| > 0 && w[0] == m
      ensures |w| <= k
    {
      PrependWalk(links, l, w);
    }
  }

  // ---------------------------------------------------------------------------
  // What a message can cost
  // ---------------------------------------------------------------------------

  /** All handlings that a message on link `l` can lead to, within `k` moves. */
  function Cost(links: seq<Link>, l: nat, k: nat): nat
    requires l < |links|
    decreases k, 0
  {
    if k == 0 then 1 else 1 + Costs(links, l, k - 1, |links|)
  }

  /** The same from where it goes on to, over the first `n` links. */
  function Costs(links: seq<Link>, l: nat, k: nat, n: nat): nat
    requires l < |links| && n <= |links|
    decreases k, n + 1
  {
    if n == 0 then 0
    else Costs(links, l, k, n - 1) + if Continues(links, l, n - 1) then Cost(links, n - 1, k) else 0
  }

  lemma {:induction false} CostSettles(links: seq<Link>, l: nat, k: nat)
    requires l < |links| && Bounded(links, l, k)
    ensures Cost(links, l, k) == 1 + Costs(links, l, k, |links|)
    decreases k, |links| + 1
  {
    CostsSettle(links, l, k, |links|);
  }

  lemma {:induction false} CostsSettle(links: seq<Link>, l: nat, k: nat, n: nat)
    requires l < |links| && n <= |links| && Bounded(links, l, k)
    ensures Costs(links, l, k, n) == if k == 0 then 0 else Costs(links, l, k - 1, n)
    decreases k, n
  {
    hide Bounded, Continues;
    if n > 0 {
      CostsSettle(links, l, k, n - 1);
      if Continues(links, l, n - 1) {
        BoundedNext(links, l, n - 1, k);
        CostSettles(links, n - 1, k - 1);
      }
    }
  }

  /** The cost of all messages on their way. */
  function TotalCost(links: seq<Link>, f: Flight, k: nat): nat
    requires |f| <= |links|
  {
    if |f| == 0 then 0
    else TotalCost(links, f[..|f| - 1], k) + |f[|f| - 1]| * Cost(links, |f| - 1, k)
  }

  lemma Times(a: int, b: int, c: int)
    ensures (a + b) * c == a * c + b * c
  {
  }

  lemma {:induction false} TakeCost(links: seq<Link>, f: Flight, k: nat, l: nat, x: seq<Bytes>)
    requires |f| <= |links| && l < |f| && |x| == |f[l]| - 1
    ensures TotalCost(links, f[l := x], k) == TotalCost(links, f, k) - Cost(links, l, k)
  {
    hide Cost;
    var g := f[l := x];
    if l < |f| - 1 {
      TakeCost(links, f[..|f| - 1], k, l, x);
      assert g[..|f| - 1] == f[..|f| - 1][l := x];
    } else {
      assert g[..|f| - 1] == f[..|f| - 1];
      Times(|x|, 1, Cost(links, l, k));
    }
  }

  lemma {:induction false} HandOnCost(
      links: seq<Link>, f: Flight, k: nat, l: nat, lost: set<nat>, payload: Bytes)
    requires |f| <= |links| && l < |links|
    ensures TotalCost(links, HandOn(links, f, l, lost, payload), k) <= TotalCost(links, f, k) + Costs(links, l, k, |f|)
  {
    hide Cost, Continues;
    if |f| > 0 {
      var m := |f| - 1;
      HandOnCost(links, f[..m], k, l, lost, payload);
      assert HandOn(links, f, l, lost, payload)[..m] == HandOn(links, f[..m], l, lost, payload);
      Times(|f[m]|, 1, Cost(links, m, k));
    }
  }

  lemma NextCost(c: Config, f: Flight, step: GossipStep, k: nat)
    requires Possible(c, f, step) && AllBounded(c.links, f, k)
    ensures AllBounded(c.links, GossipNext(c, f, step), k)
    ensures TotalCost(c.links, GossipNext(c, f, step), k) < TotalCost(c.links, f, k)
  {
    hide Bounded, TotalCost, Cost, Costs, RemoveAt, HandOn, Continues, Passes;
    var l := step.link;
    var taken := f[l := RemoveAt(f[l], step.at)];
    TakeCost(c.links, f, k, l, RemoveAt(f[l], step.at));
    CostSettles(c.links, l, k);
    forall m | 0 <= m < |f| && GossipNext(c, f, step)[m] != []
      ensures Bounded(c.links, m, k)
    {
      if f[m] == [] {
        HandOnAt(c.links, taken, l, step.lost, f[l][step.at], m);
        BoundedNext(c.links, l, m, k);
        BoundedMore(c.links, m, k - 1, k);
      }
    }
    if step.Handle? && Passes(c, f[l][step.at]) {
      HandOnCost(c.links, taken, k, l, step.lost, f[l][step.at]);
    }
  }

  lemma BoundedMore(links: seq<Link>, l: nat, j: nat, k: nat)
    requires Bounded(links, l, j) && j <= k
    ensures Bounded(links, l, k)
  {
  }

  lemma {:induction false} GossipEnds(c: Config, f: Flight, steps: seq<GossipStep>, k: nat)
    requires |f| == |c.links| && AllBounded(c.links, f, k) && IsGossip(c, f, steps)
    ensures |steps| <= TotalCost(c.links, f, k)
    decreases |steps|
  {
    hide AllBounded, GossipNext, TotalCost;
    if |steps| > 0 {
      NextCost(c, f, steps[0], k);
      GossipEnds(c, GossipNext(c, f, steps[0]), steps[1..], k);
    }
  }

  // ---------------------------------------------------------------------------
  // A run along a walk
  // ---------------------------------------------------------------------------

  predicate AllPass(c: Config, f: Flight) {
    forall l, k :: 0 <= l < |f| && 0 <= k < |f[l]| ==> Passes(c, f[l][k])
  }

  lemma HandleFirst(c: Config, f: Flight, l: nat, m: nat)
    requires |f| == |c.links| && l < |f| && m < |f| && f[l] != [] && AllPass(c, f) && Continues(c.links, l, m)
    ensures AllPass(c, GossipNext(c, f, Handle(l, 0, {}))) && GossipNext(c, f, Handle(l, 0, {}))[m] != []
  {
    hide Passes, HandOn, Continues;
    var payload := f[l][0];
    var taken := f[l := RemoveAt(f[l], 0)];
    var r := GossipNext(c, f, Handle(l, 0, {}));
    assert Passes(c, payload);
    HandOnAt(c.links, taken, l, {}, payload, m);
    forall i, k | 0 <= i < |r| && 0 <= k < |r[i]|
      ensures Passes(c, r[i][k])
    {
      HandOnAt(c.links, taken, l, {}, payload, i);
      assert r[i][k] == payload || r[i][k] in taken[i];
      assert r[i][k] == payload || r[i][k] in f[i];
    }
  }

  /** Wherever a message that passes can walk, there is a run that takes it there. */
  lemma {:induction false} WalkRun(c: Config, f: Flight, w: seq<nat>) returns (steps: seq<GossipStep>)
    requires |f| == |c.links| && AllPass(c, f) && Walk(c.links, w) && |w| > 0 && f[w[0]] != []
    ensures IsGossip(c, f, steps) && |steps| == |w|
    decreases |w|
  {
    hide AllPass, GossipNext, Continues;
    var step := Handle(w[0], 0, {});
    if |w| == 1 {
      steps := [step];
    } else {
      assert Continues(c.links, w[0], w[1]);
      HandleFirst(c, f, w[0], w[1]);
      TailWalk(c.links, w);
      var rest := WalkRun(c, GossipNext(c, f, step), w[1..]);
      steps := [step] + rest;
      assert steps[1..] == rest;
    }
  }

  lemma TailWalk(links: seq<Link>, w: seq<nat>)
    requires Walk(links, w) && |w| > 0
    ensures Walk(links, w[1..])
  {
    forall i, j | 0 <= i < |w[1..]| && 0 <= j < |w[1..]| && j == i + 1
      ensures Continues(links, w[1..][i], w[1..][j])
    {
      assert Continues(links, w[i + 1], w[j + 1]);
    }
  }

  // ---------------------------------------------------------------------------
  // Exactly when gossip ends
  // ---------------------------------------------------------------------------

  ghost predicate RunsWithin(c: Config, f: Flight, n: nat) {
    forall steps :: IsGossip(c, f, steps) ==> |steps| <= n
  }

  /** Gossip of transactions that pass ends, its runs having a bound, exactly if the walks from where they are
      have one. */
  lemma GossipEndsExactly(c: Config, f: Flight)
    requires |f| == |c.links| && AllPass(c, f)
    ensures (exists n: nat :: RunsWithin(c, f, n)) <==> (exists k: nat :: AllBounded(c.links, f, k))
  {
    hide IsGossip, AllPass, Walk, TotalCost;
    if n: nat :| RunsWithin(c, f, n) {
      forall l | 0 <= l < |f| && f[l] != []
        ensures Bounded(c.links, l, n)
      {
        forall w: seq<nat> | Walk(c.links, w) && |w| > 0 && w[0] == l
          ensures |w| <= n + 1
        {
          var steps := WalkRun(c, f, w);
        }
      }
      assert AllBounded(c.links, f, n);
    }
    if k: nat :| AllBounded(c.links, f, k) {
      forall steps | IsGossip(c, f, steps)
        ensures |steps| <= TotalCost(c.links, f, k)
      {
        GossipEnds(c, f, steps, k);
      }
      assert RunsWithin(c, f, TotalCost(c.links, f, k));
    }
  }

  // ---------------------------------------------------------------------------
  // The condition can be checked
  // ---------------------------------------------------------------------------

  /** Different numbers below `n` are at most `n`. */
  lemma {:induction false} DifferentBelow(w: seq<nat>, n: nat)
    requires forall i :: 0 <= i < |w| ==> w[i] < n
    requires forall i, j :: 0 <= i < j < |w| ==> w[i] != w[j]
    ensures |w| <= n
  {
    if |w| > 0 {
      assert w[0] < n;
      if p :| 0 <= p < |w| && w[p] == n - 1 {
        var v := w[..p] + w[p + 1..];
        assert forall i :: 0 <= i < |v| ==> v[i] == w[if i < p then i else i + 1];
        DifferentBelow(v, n - 1);
      } else {
        DifferentBelow(w, n - 1);
      }
    }
  }

  /** A walk over more links than there are passes over one of them twice, and can be made longer. */
  lemma Pump(links: seq<Link>, w: seq<nat>) returns (v: seq<nat>)
    requires Walk(links, w) && |w| > |links|
    ensures Walk(links, v) && |v| > |w| && v[0] == w[0]
  {
    hide Continues;
    if forall i, j :: 0 <= i < j < |w| ==> w[i] != w[j] {
      DifferentBelow(w, |links|);
      assert false;
    }
    var i, j :| 0 <= i < j < |w| && w[i] == w[j];
    v := w[..j] + w[i..];
    forall a, b | 0 <= a < b < |v| && b == a + 1
      ensures Continues(links, v[a], v[b])
    {
      if b < j {
        assert v[a] == w[a] && v[b] == w[b];
      } else if b == j {
        assert v[a] == w[a] && v[b] == w[j];
      } else {
        assert v[a] == w[a - j + i] && v[b] == w[b - j + i];
      }
    }
  }

  lemma {:induction false} PumpTo(links: seq<Link>, w: seq<nat>, n: nat) returns (v: seq<nat>)
    requires Walk(links, w) && |w| > |links|
    ensures Walk(links, v) && |v| > n && |v| > 0 && v[0] == w[0]
    decreases n - |w|
  {
    hide Walk;
    if |w| > n {
      v := w;
    } else {
      var u := Pump(links, w);
      v := PumpTo(links, u, n);
    }
  }

  /** Walks are bounded exactly if none has more links than there are. */
  lemma BoundedByLinks(links: seq<Link>, f: Flight)
    requires |links| > 0
    ensures (exists k: nat :: AllBounded(links, f, k)) <==> AllBounded(links, f, |links| - 1)
  {
    hide Walk;
    if k: nat :| AllBounded(links, f, k) {
      forall l | 0 <= l < |f| && f[l] != []
        ensures Bounded(links, l, |links| - 1)
      {
        assert Bounded(links, l, k);
        forall w: seq<nat> | Walk(links, w) && |w| > 0 && w[0] == l
          ensures |w| <= |links|
        {
          if |w| > |links| {
            var v := PumpTo(links, w, k + 1);
          }
        }
      }
    }
  }

  // ---------------------------------------------------------------------------
  // A ring
  // ---------------------------------------------------------------------------

  /** Three nodes, each connected to both others. */
  const RING: seq<Link> :=
    [Link(0, 1, 3), Link(1, 2, 4), Link(2, 0, 5), Link(1, 0, 0), Link(2, 1, 1), Link(0, 2, 2)]

  /** Node 0 has broadcast one message. */
  function Broadcast(payload: Bytes): Flight {
    [[payload], [], [], [], [], [payload]]
  }

  /** Round and round, from link `first` on. */
  function Around(first: nat, n: nat): (w: seq<nat>)
    requires first < 3
    ensures |w| == n && forall i :: 0 <= i < n ==> w[i] < 3
    ensures n > 0 ==> w[0] == first
    decreases n
  {
    if n == 0 then [] else [first] + Around((first + 1) % 3, n - 1)
  }

  lemma RingContinues(first: nat)
    requires first < 3
    ensures |RING| == 6 && Continues(RING, first, (first + 1) % 3)
  {
  }

  lemma {:induction false} AroundWalks(first: nat, n: nat)
    requires first < 3
    ensures Walk(RING, Around(first, n))
    decreases n
  {
    hide RING, Continues;
    RingContinues(first);
    if n > 1 {
      AroundWalks((first + 1) % 3, n - 1);
      PrependWalk(RING, first, Around((first + 1) % 3, n - 1));
    }
  }

  /** On three nodes in a ring a single transaction that passes is handed on for ever: it has runs of every
      length. */
  lemma RingNeverEnds(c: Config, payload: Bytes, n: nat) returns (steps: seq<GossipStep>)
    requires c.links == RING && Passes(c, payload)
    ensures IsGossip(c, Broadcast(payload), steps) && |steps| == n
  {
    hide Passes, Walk, GossipNext, Around;
    if n == 0 {
      steps := [];
    } else {
      AroundWalks(0, n);
      steps := WalkRun(c, Broadcast(payload), Around(0, n));
    }
  }
}
