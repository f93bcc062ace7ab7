/**
  The node network as a step system: any number of nodes, each with its own ledger, on any peer
  multigraph. Blocks are produced locally, flooded into bounded queues, written to the wire, delivered,
  lost; for safety the wire may even carry bytes nobody sent.
 */
module Network {
  import opened ByteStrings
  import opened Base
  import opened Types
  import opened BlockJson
  import opened Balances
  import opened Validation
  import opened Chain
  import opened PeerQueue

  /** One direction of a connection: `src` floods into it, `dst` reads from it. `back` is the link of
      the same connection in the other direction. Nodes may share several connections. */
  datatype Link = Link(src: nat, dst: nat, back: nat)

  datatype Config = Config(engine: Engine, decoder: Decoder, genesis: seq<Accounts>, links: seq<Link>)

  /** A flood that a node has decided on but not carried out yet: it has added the block to its ledger,
      and other steps may come in between. */
  datatype Flooding = Flooding(node: nat, payload: Bytes, except: Option<nat>)

  /** `pending` are the blocks that nodes are still going to produce. */
  datatype Net = Net(
    nodes: seq<State>,
    pending: seq<(nat, Block)>,
    floods: seq<Flooding>,
    queue: seq<seq<Bytes>>,
    wire: seq<seq<Bytes>>)

  datatype Step =
    | Produce(i: nat)
    | Spread(i: nat)
    | Write(link: nat)
    | Deliver(link: nat, at: nat)
    | LoseQueued(link: nat)
    | LoseWritten(link: nat, at: nat)
    | Inject(link: nat, payload: Bytes)

  predicate WellFormed(c: Config, s: Net) {
    && |s.nodes| == |c.genesis|
    && |s.queue| == |s.wire| == |c.links|
    && (forall n :: 0 <= n < |s.nodes| ==> |s.nodes[n].blocks| > 0)
    && (forall l :: 0 <= l < |c.links| ==> c.links[l].dst < |c.genesis|)
    && (forall i :: 0 <= i < |s.pending| ==> s.pending[i].0 < |c.genesis|)
  }

  predicate Enabled(c: Config, s: Net, step: Step)
    requires WellFormed(c, s)
  {
    match step
    case Produce(i) => i < |s.pending|
    case Spread(i) => i < |s.floods|
    case Write(l) => l < |c.links| && |s.queue[l]| > 0
    case Deliver(l, k) => l < |c.links| && k < |s.wire[l]|
    case LoseQueued(l) => l < |c.links| && |s.queue[l]| > 0
    case LoseWritten(l, k) => l < |c.links| && k < |s.wire[l]|
    case Inject(l, _) => l < |c.links|
  }

  /** Node `n` floods: into each of its links but `except`, unless the queue is full. */
  function Flood(links: seq<Link>, queue: seq<seq<Bytes>>, n: nat, except: Option<nat>, payload: Bytes)
    : (r: seq<seq<Bytes>>)
    requires |queue| <= |links|
    ensures |r| == |queue|
  {
    if |queue| == 0 then []
    else
      var l := |queue| - 1;
      var rest := Flood(links, queue[..l], n, except, payload);
      if links[l].src == n && except != Some(l) && |queue[l]| < SEND_QUEUE_DEPTH then rest + [queue[l] + [payload]]
      else rest + [queue[l]]
  }

  /** Node `n` hands `b` to its ledger and, if it is accepted, sets out to flood `payload`. */
  function Receive(c: Config, s: Net, n: nat, b: Block, payload: Bytes, except: Option<nat>): Net
    requires WellFormed(c, s) && n < |s.nodes|
  {
    if Accepts(c.engine, s.nodes[n].blocks, s.nodes[n].balances, b) then
      s.(nodes := s.nodes[n := Add(c.engine, s.nodes[n], b)],
         floods := s.floods + [Flooding(n, payload, except)])
    else s
  }

  function RemoveAt<T>(q: seq<T>, k: nat): (r: seq<T>)
    requires k < |q|
    ensures |r| == |q| - 1
    ensures forall x :: x in r ==> x in q
  {
    q[..k] + q[k + 1..]
  }

  function Next(c: Config, s: Net, step: Step): Net
    requires WellFormed(c, s) && Enabled(c, s, step)
  {
    match step
    case Produce(i) =>
      var (n, b) := s.pending[i];
      Receive(c, s.(pending := RemoveAt(s.pending, i)), n, b, MarshalPayload(b), None)
    case Spread(i) =>
      var f := s.floods[i];
      s.(floods := RemoveAt(s.floods, i), queue := Flood(c.links, s.queue, f.node, f.except, f.payload))
    case Write(l) =>
      s.(queue := s.queue[l := s.queue[l][1..]], wire := s.wire[l := s.wire[l] + [s.queue[l][0]]])
    case Deliver(l, k) =>
      var payload := s.wire[l][k];
      var t := s.(wire := s.wire[l := RemoveAt(s.wire[l], k)]);
      (match c.decoder.block(payload)
       case None => t
       case Some(b) => Receive(c, t, c.links[l].dst, b, payload, Some(c.links[l].back)))
    case LoseQueued(l) => s.(queue := s.queue[l := s.queue[l][1..]])
    case LoseWritten(l, k) => s.(wire := s.wire[l := RemoveAt(s.wire[l], k)])
    case Inject(l, payload) => s.(wire := s.wire[l := s.wire[l] + [payload]])
  }

  lemma ReceiveWellFormed(c: Config, s: Net, n: nat, b: Block, payload: Bytes, except: Option<nat>)
    requires WellFormed(c, s) && n < |s.nodes|
    ensures WellFormed(c, Receive(c, s, n, b, payload, except))
  {
    hide Accepts, ApplyAll;
  }

  lemma NextWellFormed(c: Config, s: Net, step: Step)
    requires WellFormed(c, s) && Enabled(c, s, step)
    ensures WellFormed(c, Next(c, s, step))
  {
    hide Receive, Flood, MarshalPayload;
    match step {
      case Produce(i) =>
        var (n, b) := s.pending[i];
        var t := s.(pending := RemoveAt(s.pending, i));
        assert forall j :: 0 <= j < |t.pending| ==> t.pending[j] in s.pending;
        ReceiveWellFormed(c, t, n, b, MarshalPayload(b), None);
      case Deliver(l, k) =>
        var t := s.(wire := s.wire[l := RemoveAt(s.wire[l], k)]);
        match c.decoder.block(s.wire[l][k]) {
          case None =>
          case Some(b) => ReceiveWellFormed(c, t, c.links[l].dst, b, s.wire[l][k], Some(c.links[l].back));
        }
      case _ =>
    }
  }

  // ---------------------------------------------------------------------------
  // Runs
  // ---------------------------------------------------------------------------

  /** The steps can be taken one after the other from `s`. */
  predicate IsRun(c: Config, s: Net, steps: seq<Step>)
    requires WellFormed(c, s)
    decreases |steps|
  {
    |steps| == 0 ||
    (Enabled(c, s, steps[0]) && (NextWellFormed(c, s, steps[0]); IsRun(c, Next(c, s, steps[0]), steps[1..])))
  }

  function After(c: Config, s: Net, steps: seq<Step>): (t: Net)
    requires WellFormed(c, s) && IsRun(c, s, steps)
    ensures WellFormed(c, t)
    decreases |steps|
  {
    if |steps| == 0 then s
    else
      NextWellFormed(c, s, steps[0]);
      After(c, Next(c, s, steps[0]), steps[1..])
  }

  /** All nodes fresh from their own genesis, nothing in flight. */
  function Start(c: Config, pending: seq<(nat, Block)>): Net {
    Net(seq(|c.genesis|, n requires 0 <= n < |c.genesis| => Init(c.genesis[n])), pending, [],
        seq(|c.links|, _ => []), seq(|c.links|, _ => []))
  }
}
