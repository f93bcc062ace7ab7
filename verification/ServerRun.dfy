/**
  The outbound side of a whole server: connections that come and go, floods with an origin, writers that
  drain, fail, and outlive their entry in the peer table.
 */
module ServerRun {
  import opened ByteStrings
  import opened Base
  import opened Framing
  import opened PeerQueue

  datatype Conn = Conn(addr: Bytes, out: Outbound)

  /** All connections there have ever been, in order of registration, and the peer table: which
      connection stands under an address. */
  datatype Server = Server(conns: seq<Conn>, table: map<Bytes, nat>)

  const EMPTY: Server := Server([], map[])

  /** A flood names the address that the packet came from, if it came from a peer. The read loop of a
      connection ends with `Disconnect`; its writer may go on. */
  datatype ServerEvent =
    | Register(addr: Bytes)
    | Disconnect(conn: nat)
    | FloodPacket(origin: Option<Bytes>, packet: Packet)
    | WriteNext(conn: nat)
    | WriteFails(conn: nat, bytes: nat)

  predicate Registered(s: Server, i: nat) {
    i < |s.conns| && s.conns[i].addr in s.table && s.table[s.conns[i].addr] == i
  }

  /** The flood reaches connection `i`: it stands in the table, and its address is not the origin's. */
  predicate Reaches(s: Server, origin: Option<Bytes>, i: nat) {
    Registered(s, i) && origin != Some(s.conns[i].addr)
  }

  /** The first `n` connections after a flood. */
  function FloodUpTo(s: Server, origin: Option<Bytes>, p: Packet, n: nat): (r: seq<Conn>)
    requires n <= |s.conns|
    ensures |r| == n
  {
    if n == 0 then []
    else
      var c := s.conns[n - 1];
      FloodUpTo(s, origin, p, n - 1) + [if Reaches(s, origin, n - 1) then c.(out := Offer(c.out, p)) else c]
  }

  function DrainConn(s: Server, i: nat, failAt: Option<nat>): Server {
    if i < |s.conns| then s.(conns := s.conns[i := s.conns[i].(out := Drain(s.conns[i].out, failAt))]) else s
  }

  function ServerStep(s: Server, ev: ServerEvent): Server {
    match ev
    case Register(a) => Server(s.conns + [Conn(a, IDLE)], s.table[a := |s.conns|])
    case Disconnect(i) => if i < |s.conns| then s.(table := s.table - {s.conns[i].addr}) else s
    case FloodPacket(origin, p) => s.(conns := FloodUpTo(s, origin, p, |s.conns|))
    case WriteNext(i) => DrainConn(s, i, None)
    case WriteFails(i, n) => DrainConn(s, i, Some(n))
  }

  function ServerRun(evs: seq<ServerEvent>): Server {
    if |evs| == 0 then EMPTY else ServerStep(ServerRun(evs[..|evs| - 1]), evs[|evs| - 1])
  }

  lemma {:induction false} FloodUpToAt(s: Server, origin: Option<Bytes>, p: Packet, n: nat, i: nat)
    requires i < n <= |s.conns|
    ensures var c := s.conns[i];
            FloodUpTo(s, origin, p, n)[i] == if Reaches(s, origin, i) then c.(out := Offer(c.out, p)) else c
  {
    hide Offer;
    if i < n - 1 {
      FloodUpToAt(s, origin, p, n - 1, i);
    }
  }

  // ---------------------------------------------------------------------------
  // The history of one connection
  // ---------------------------------------------------------------------------

  /** What an event in state `s` is for the queue and the writer of connection `i`. */
  function Own(s: Server, i: nat, ev: ServerEvent): Option<Event> {
    match ev
    case FloodPacket(origin, p) => if Reaches(s, origin, i) then Some(Offered(p)) else None
    case WriteNext(j) => if i == j then Some(Written) else None
    case WriteFails(j, n) => if i == j then Some(Failed(n)) else None
    case _ => None
  }

  /** All that happens to connection `i` in a run. */
  function OwnRun(evs: seq<ServerEvent>, i: nat): seq<Event> {
    if |evs| == 0 then []
    else
      var (init, last) := (evs[..|evs| - 1], evs[|evs| - 1]);
      if i >= |ServerRun(init).conns| then []
      else
        match Own(ServerRun(init), i, last)
        case None => OwnRun(init, i)
        case Some(e) => OwnRun(init, i) + [e]
  }

  lemma StepConn(s: Server, ev: ServerEvent, i: nat)
    requires i < |s.conns|
    ensures var t := ServerStep(s, ev);
            && |s.conns| <= |t.conns|
            && t.conns[i].addr == s.conns[i].addr
            && t.conns[i].out ==
               match Own(s, i, ev)
               case None => s.conns[i].out
               case Some(e) => Step(s.conns[i].out, e)
  {
    hide Offer, Drain;
    match ev {
      case FloodPacket(origin, p) => FloodUpToAt(s, origin, p, |s.conns|, i);
      case _ =>
    }
  }

  lemma NewConn(s: Server, ev: ServerEvent, i: nat)
    requires |s.conns| <= i < |ServerStep(s, ev).conns|
    ensures ServerStep(s, ev).conns[i].out == IDLE
  {
  }

  lemma StepsSnoc(o: Outbound, evs: seq<Event>, e: Event)
    ensures Steps(o, []) == o
    ensures Steps(o, evs + [e]) == Step(Steps(o, evs), e)
  {
    hide Step;
    assert (evs + [e])[..|evs|] == evs;
  }

  /** Every connection, registered or not any more, has gone through its own events from idle. */
  lemma {:induction false} ConnHistory(evs: seq<ServerEvent>, i: nat)
    requires i < |ServerRun(evs).conns|
    ensures ServerRun(evs).conns[i].out == Steps(IDLE, OwnRun(evs, i))
  {
    hide ServerStep, Own, Step, IDLE, Steps;
    var init, last := evs[..|evs| - 1], evs[|evs| - 1];
    var s := ServerRun(init);
    if i < |s.conns| {
      ConnHistory(init, i);
      StepConn(s, last, i);
      match Own(s, i, last) {
        case None =>
        case Some(e) => StepsSnoc(IDLE, OwnRun(init, i), e);
      }
    } else {
      NewConn(s, last, i);
      StepsSnoc(IDLE, [], Written);
    }
  }

  /** The accounting of every connection over every run of the server. */
  lemma ServerAccounted(evs: seq<ServerEvent>, i: nat)
    requires i < |ServerRun(evs).conns|
    ensures Accounted(ServerRun(evs).conns[i].out)
  {
    hide ServerRun, Accounted, Steps, OwnRun;
    ConnHistory(evs, i);
    RunAccounted(OwnRun(evs, i));
  }

  // ---------------------------------------------------------------------------
  // Who is offered what
  // ---------------------------------------------------------------------------

  /** The packets flooded since connection `i` was registered that came from another address. */
  function FloodedSince(evs: seq<ServerEvent>, i: nat): seq<Packet> {
    if |evs| == 0 then []
    else
      var (init, last) := (evs[..|evs| - 1], evs[|evs| - 1]);
      var s := ServerRun(init);
      if i >= |s.conns| then []
      else
        match last
        case FloodPacket(origin, p) =>
          if origin != Some(s.conns[i].addr) then FloodedSince(init, i) + [p] else FloodedSince(init, i)
        case _ => FloodedSince(init, i)
  }

  /** A connection that has left the table does not come back. */
  lemma NeverBack(s: Server, ev: ServerEvent, i: nat)
    requires i < |s.conns| && Registered(ServerStep(s, ev), i)
    ensures Registered(s, i)
  {
    StepConn(s, ev, i);
  }

  lemma OfferedStep(s: Server, ev: ServerEvent, i: nat)
    requires i < |s.conns|
    ensures i < |ServerStep(s, ev).conns|
    ensures ServerStep(s, ev).conns[i].out.offered ==
            if ev.FloodPacket? && Reaches(s, ev.origin, i) then s.conns[i].out.offered + [ev.packet]
            else s.conns[i].out.offered
  {
    StepConn(s, ev, i);
  }

  /** Over any run: a registered connection has been offered, in order, exactly the packets flooded since
      its registration that came from another address; one that was replaced or removed, the first of
      these. */
  lemma {:induction false} OfferedExactly(evs: seq<ServerEvent>, i: nat)
    requires i < |ServerRun(evs).conns|
    ensures ServerRun(evs).conns[i].out.offered <= FloodedSince(evs, i)
    ensures Registered(ServerRun(evs), i) ==> ServerRun(evs).conns[i].out.offered == FloodedSince(evs, i)
  {
    hide ServerStep, Registered;
    var init, last := evs[..|evs| - 1], evs[|evs| - 1];
    var s := ServerRun(init);
    if i < |s.conns| {
      OfferedExactly(init, i);
      OfferedStep(s, last, i);
      if Registered(ServerStep(s, last), i) {
        NeverBack(s, last, i);
      }
    } else {
      NewConn(s, last, i);
    }
  }

  lemma {:induction false} SubsequenceOfPrefix<T>(a: seq<T>, p: seq<T>, b: seq<T>)
    requires Subsequence(a, p) && p <= b
    ensures Subsequence(a, b)
    decreases |b|
  {
    if |p| < |b| {
      SubsequenceOfPrefix(a, p, b[..|b| - 1]);
    } else {
      assert p == b;
    }
  }

  /** End to end over any run of the server: whatever a remote side has read is an order-preserving
      selection of the packets flooded, since its connection was registered, from other addresses. */
  lemma RemoteReadsOthersFloods(evs: seq<ServerEvent>, i: nat, arrived: Bytes)
    requires i < |ServerRun(evs).conns| && arrived <= ServerRun(evs).conns[i].out.wire
    requires forall k :: 0 <= k < |FloodedSince(evs, i)| ==> Fits(FloodedSince(evs, i)[k])
    ensures Subsequence(ReadAll(arrived).0, FloodedSince(evs, i))
  {
    hide ServerRun, Steps, OwnRun, FloodedSince, ReadAll, Subsequence, Fits, Registered, IDLE;
    var own := OwnRun(evs, i);
    ConnHistory(evs, i);
    OfferedExactly(evs, i);
    RunOffered(own);
    assert OfferedIn(own) <= FloodedSince(evs, i);
    RemoteReadsSelection(own, arrived);
    SubsequenceOfPrefix(ReadAll(arrived).0, OfferedIn(own), FloodedSince(evs, i));
  }

  // ---------------------------------------------------------------------------
  // The table
  // ---------------------------------------------------------------------------

  predicate TableValid(s: Server) {
    forall a :: a in s.table ==> s.table[a] < |s.conns| && s.conns[s.table[a]].addr == a
  }

  lemma StepTableValid(s: Server, ev: ServerEvent)
    requires TableValid(s)
    ensures TableValid(ServerStep(s, ev))
  {
    forall a | a in ServerStep(s, ev).table && a in s.table
      ensures s.table[a] < |ServerStep(s, ev).conns| && ServerStep(s, ev).conns[s.table[a]].addr == a
    {
      StepConn(s, ev, s.table[a]);
    }
  }

  lemma {:induction false} RunTableValid(evs: seq<ServerEvent>)
    ensures TableValid(ServerRun(evs))
  {
    hide ServerStep;
    if |evs| > 0 {
      RunTableValid(evs[..|evs| - 1]);
      StepTableValid(ServerRun(evs[..|evs| - 1]), evs[|evs| - 1]);
    }
  }

  /** The peers as they stand in the table. */
  function Table(s: Server): map<Bytes, Outbound>
    requires TableValid(s)
  {
    map a | a in s.table :: s.conns[s.table[a]].out
  }

  lemma FloodTable(s: Server, origin: Option<Bytes>, p: Packet)
    requires TableValid(s)
    ensures var t := ServerStep(s, FloodPacket(origin, p));
            && TableValid(t)
            && Table(t) ==
               map a | a in Table(s) :: if origin == Some(a) then Table(s)[a] else Offer(Table(s)[a], p)
  {
    hide Offer, FloodUpTo;
    StepTableValid(s, FloodPacket(origin, p));
    forall a | a in s.table
      ensures var i := s.table[a];
              FloodUpTo(s, origin, p, |s.conns|)[i].out ==
              if origin == Some(a) then s.conns[i].out else Offer(s.conns[i].out, p)
    {
      FloodUpToAt(s, origin, p, |s.conns|, s.table[a]);
    }
  }

  lemma DrainTable(s: Server, i: nat, failAt: Option<nat>)
    requires TableValid(s)
    ensures TableValid(DrainConn(s, i, failAt))
    ensures Registered(s, i) ==>
              Table(DrainConn(s, i, failAt)) ==
              Table(s)[s.conns[i].addr := Drain(Table(s)[s.conns[i].addr], failAt)]
  {
    hide Drain;
  }

  /** What a step does to the peers in the table. */
  lemma StepTable(s: Server, ev: ServerEvent)
    requires TableValid(s)
    ensures TableValid(ServerStep(s, ev))
    ensures var (m, n) := (Table(s), Table(ServerStep(s, ev)));
            match ev
            case Register(a) => n == m[a := IDLE]
            case Disconnect(i) => n == if i < |s.conns| then m - {s.conns[i].addr} else m
            case FloodPacket(origin, p) =>
              n == map a | a in m :: if origin == Some(a) then m[a] else Offer(m[a], p)
            case WriteNext(i) => Registered(s, i) ==> n == m[s.conns[i].addr := Drain(m[s.conns[i].addr], None)]
            case WriteFails(i, k) =>
              Registered(s, i) ==> n == m[s.conns[i].addr := Drain(m[s.conns[i].addr], Some(k))]
  {
    hide Offer, Drain, IDLE, DrainConn, FloodUpTo;
    StepTableValid(s, ev);
    match ev {
      case FloodPacket(origin, p) => FloodTable(s, origin, p);
      case WriteNext(i) => DrainTable(s, i, None);
      case WriteFails(i, k) => DrainTable(s, i, Some(k));
      case _ =>
    }
  }

  lemma RunSnoc(evs: seq<ServerEvent>, ev: ServerEvent)
    ensures ServerRun(evs + [ev]) == ServerStep(ServerRun(evs), ev)
  {
    hide ServerStep;
    assert (evs + [ev])[..|evs|] == evs;
  }

  /** A read loop that ends takes out whatever stands under its address: all other connections stay
      registered exactly when no newer one stands there. */
  lemma DisconnectTakes(evs: seq<ServerEvent>, i: nat)
    requires i < |ServerRun(evs).conns|
    ensures var (s, t) := (ServerRun(evs), ServerRun(evs + [Disconnect(i)]));
            && |t.conns| == |s.conns|
            && (forall j: nat :: Registered(t, j) <==> Registered(s, j) && s.conns[j].addr != s.conns[i].addr)
            && ((forall j: nat :: Registered(s, j) && j != i ==> Registered(t, j)) <==>
                  (s.conns[i].addr in s.table ==> s.table[s.conns[i].addr] == i))
  {
    hide ServerRun;
    var s, t := ServerRun(evs), ServerRun(evs + [Disconnect(i)]);
    RunTableValid(evs);
    RunSnoc(evs, Disconnect(i));
    if s.conns[i].addr in s.table && s.table[s.conns[i].addr] != i {
      var j := s.table[s.conns[i].addr];
      assert Registered(s, j) && !Registered(t, j);
    }
  }

  /** A newer connection under one address does get lost: it stands no longer in the table, hears no
      flood, and yet is connected. */
  lemma NewerConnectionLost(a: Bytes)
    ensures var s := ServerRun([Register(a), Register(a), Disconnect(0)]);
            |s.conns| == 2 && s.conns[1].addr == a && a !in s.table
  {
    RunSnoc([], Register(a));
    RunSnoc([Register(a)], Register(a));
    RunSnoc([Register(a), Register(a)], Disconnect(0));
    assert [] + [Register(a)] == [Register(a)];
    assert [Register(a)] + [Register(a)] == [Register(a), Register(a)];
    assert [Register(a), Register(a)] + [Disconnect(0)] == [Register(a), Register(a), Disconnect(0)];
  }
}
