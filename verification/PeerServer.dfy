/**
  The peer server: the peer table, flooding into the peers' queues, the writer and the read loop of a
  peer, and the handler of block messages.
 */
module PeerServer {
  import opened ByteStrings
  import opened Base
  import opened Types
  import opened BlockJson
  import opened Hashing
  import opened Balances
  import opened Validation
  import opened Chain
  import opened LedgerObject
  import opened Framing
  import opened PeerQueue

  const MSG_TRANSACTION: byte := 3
  const MSG_BLOCK: byte := 4

  /** Capacities of the channels to the application. */
  const INBOUND_TXS: nat := 4096
  const INBOUND_BLOCKS: nat := 64

  /** A connected remote node, known by its address. */
  class Peer {
    const addr: Bytes
    var send: seq<Packet>
    var wire: Bytes
    var writing: bool
    ghost var offered: seq<Packet>
    ghost var dequeued: seq<Packet>
    ghost var dropped: nat

    ghost function Log(): Outbound
      reads this
    {
      Outbound(offered, dropped, send, dequeued, wire, writing)
    }

    ghost predicate Valid()
      reads this
    {
      Accounted(Log())
    }

    constructor (addr: Bytes)
      ensures this.addr == addr && Valid() && Log() == IDLE
    {
      this.addr := addr;
      send, wire, writing := [], [], true;
      offered, dequeued, dropped := [], [], 0;
      new;
      IdleAccounted();
    }

    /** A send that never blocks: the packet is dropped when the queue is full. */
    method Enqueue(pkt: Packet)
      requires Valid()
      modifies this
      ensures Valid() && Log() == Offer(old(Log()), pkt)
      ensures offered == old(offered) + [pkt]
      ensures send == (if |old(send)| < 64 then old(send) + [pkt] else old(send))
      ensures dropped == (if |old(send)| < 64 then old(dropped) else old(dropped) + 1)
    {
      OfferAccounted(Log(), pkt);
      if |send| < SEND_QUEUE_DEPTH {
        send := send + [pkt];
      } else {
        dropped := dropped + 1;
      }
      offered := offered + [pkt];
    }

    /** One turn of the writer loop: take the next packet and write its frame, in one go or up to
        the byte where the connection fails. */
    method WriteNext(failAt: Option<nat>)
      requires Valid() && writing && |send| > 0
      modifies this
      ensures Valid() && Log() == Drain(old(Log()), failAt)
      ensures send == old(send)[1..] && dequeued == old(dequeued) + [old(send)[0]]
      ensures var frame := Frame(old(send)[0]);
              match failAt
              case None => writing && wire == old(wire) + frame
              case Some(n) => !writing && wire == old(wire) + if n < |frame| then frame[..n] else frame
    {
      hide Accounted, Frame;
      DrainAccounted(Log(), failAt);
      var pkt := send[0];
      send := send[1..];
      dequeued := dequeued + [pkt];
      var frame := Frame(pkt);
      match failAt {
        case None =>
          wire := wire + frame;
        case Some(n) =>
          wire := wire + (if n < |frame| then frame[..n] else frame);
          writing := false;
      }
    }
  }

  // ---------------------------------------------------------------------------
  // What a message does
  // ---------------------------------------------------------------------------

  datatype HandleError =
    | DecodeTransaction
    | InvalidTransaction(why: TxError)
    | DecodeBlock
    | InvalidBlock(reason: BlockError)
    | UnknownType

  function TxVerdict(d: Decoder, e: Engine, payload: Bytes): Outcome<HandleError> {
    match d.tx(payload)
    case None => Fail(DecodeTransaction)
    case Some(tx) =>
      match CheckTx(e, tx)
      case Fail(why) => Fail(InvalidTransaction(why))
      case Pass => Pass
  }

  function BlockVerdict(d: Decoder, e: Engine, s: State, payload: Bytes): Outcome<HandleError>
    requires |s.blocks| > 0
  {
    match d.block(payload)
    case None => Fail(DecodeBlock)
    case Some(b) =>
      match CheckBlock(e, s.blocks, s.balances, b)
      case Fail(reason) => Fail(InvalidBlock(reason))
      case Pass => Pass
  }

  function Verdict(d: Decoder, e: Engine, s: State, p: Packet): Outcome<HandleError>
    requires |s.blocks| > 0
  {
    if p.kind == MSG_TRANSACTION then TxVerdict(d, e, p.payload)
    else if p.kind == MSG_BLOCK then BlockVerdict(d, e, s, p.payload)
    else Fail(UnknownType)
  }

  /** What a block message does to the ledger. */
  function AddDecoded(d: Decoder, e: Engine, s: State, payload: Bytes): State
    requires |s.blocks| > 0
  {
    match d.block(payload)
    case None => s
    case Some(b) => Add(e, s, b)
  }

  /** The decodable blocks among packets. */
  function BlocksIn(d: Decoder, ps: seq<Packet>): seq<Block> {
    if |ps| == 0 then []
    else
      var p := ps[|ps| - 1];
      var init := BlocksIn(d, ps[..|ps| - 1]);
      if p.kind != MSG_BLOCK then init
      else
        match d.block(p.payload)
        case None => init
        case Some(b) => init + [b]
  }

  /** The packets that pass when all are handled in turn: blocks that extend the chain when they come,
      and every well-signed transaction, as often as it comes. */
  function Relayed(d: Decoder, e: Engine, s: State, ps: seq<Packet>): seq<Packet>
    requires |s.blocks| > 0
  {
    if |ps| == 0 then []
    else
      var (init, last) := (ps[..|ps| - 1], ps[|ps| - 1]);
      Relayed(d, e, s, init) + if Verdict(d, e, Run(e, s, BlocksIn(d, init)), last).Pass? then [last] else []
  }

  lemma NothingHandled(d: Decoder, e: Engine, s: State)
    requires |s.blocks| > 0
    ensures Run(e, s, BlocksIn(d, [])) == s
    ensures Relayed(d, e, s, []) == []
  {
  }

  lemma RunPacket(d: Decoder, e: Engine, s: State, ps: seq<Packet>, p: Packet)
    requires |s.blocks| > 0
    ensures var t := Run(e, s, BlocksIn(d, ps));
            && Run(e, s, BlocksIn(d, ps + [p])) == (if p.kind == 4 then AddDecoded(d, e, t, p.payload) else t)
            && Relayed(d, e, s, ps + [p]) ==
               Relayed(d, e, s, ps) + if Verdict(d, e, t, p).Pass? then [p] else []
  {
    hide Add, Run, Verdict;
    assert (ps + [p])[..|ps|] == ps;
    if d.block(p.payload).Some? {
      RunSnoc(e, s, BlocksIn(d, ps), d.block(p.payload).value);
    }
  }

  lemma OfferAdds()
    ensures forall o, p :: Offer(o, p).offered == o.offered + [p]
  {
  }

  /** When a transaction payload passes: it decodes, the sender is hex, the ID is the hex digest of the
      canonical bytes, and the signature on these verifies under the sender's key. */
  predicate SoundTx(d: Decoder, e: Engine, payload: Bytes) {
    match d.tx(payload)
    case None => false
    case Some(tx) =>
      && HexDecode(tx.sender).Some?
      && tx.id == HexEncode(e.hash(Canonical(tx)))
      && e.verify(Canonical(tx), tx.signature, Slice(HexDecode(tx.sender).value))
  }

  /** Only two kinds of packet are passed on: a block exactly when it changes the ledger, and a
      transaction exactly when it is sound, whether or not it was seen before. */
  lemma RelayedExactly(d: Decoder, e: Engine, s: State, p: Packet)
    requires |s.blocks| > 0
    ensures p.kind == 4 ==> (Verdict(d, e, s, p).Pass? <==> AddDecoded(d, e, s, p.payload) != s)
    ensures p.kind == 3 ==>
              forall t: State :: |t.blocks| > 0 ==> Verdict(d, e, t, p) == Verdict(d, e, s, p)
    ensures p.kind == 3 ==> (Verdict(d, e, s, p).Pass? <==> SoundTx(d, e, p.payload))
    ensures Verdict(d, e, s, p).Pass? ==> p.kind == 4 || p.kind == 3
  {
    hide CheckBlock, CheckTx, ApplyAll, HexDecode, HexEncode, Canonical;
    if d.tx(p.payload).Some? {
      CheckTxOutright(e, d.tx(p.payload).value);
    }
  }

  /** A transaction packet that is not sound is passed on to nobody, wherever it stands in a stream. */
  lemma {:induction false} UnsoundNeverRelayed(d: Decoder, e: Engine, s: State, ps: seq<Packet>, p: Packet)
    requires |s.blocks| > 0 && p.kind == 3 && !SoundTx(d, e, p.payload)
    ensures p !in Relayed(d, e, s, ps)
  {
    hide Verdict, Run, BlocksIn, SoundTx;
    if |ps| > 0 {
      var init, last := ps[..|ps| - 1], ps[|ps| - 1];
      UnsoundNeverRelayed(d, e, s, init, p);
      RelayedExactly(d, e, Run(e, s, BlocksIn(d, init)), last);
    }
  }

  /** When the read loop of `p` takes out what stands under its address, all others keep their place exactly
      when no newer connection stands there. */
  lemma OthersStay(peers: map<Bytes, Peer>, p: Peer)
    requires forall a :: a in peers ==> peers[a].addr == a
    ensures (forall a :: a in peers && peers[a] != p ==> a in peers - {p.addr}) <==>
              (p.addr in peers ==> peers[p.addr] == p)
  {
  }

  class PeerServer {
    const ledger: Ledger
    const decoder: Decoder
    var peers: map<Bytes, Peer>
    var inboundTx: seq<Transaction>
    var inboundBlock: seq<Block>

    ghost predicate Valid()
      reads this, peers.Values, ledger
    {
      && ledger.Valid()
      && forall a :: a in peers ==> peers[a].addr == a && peers[a].Valid()
    }

    constructor (ledger: Ledger, decoder: Decoder)
      requires ledger.Valid()
      ensures this.ledger == ledger && this.decoder == decoder
      ensures Valid() && peers == map[] && inboundTx == [] && inboundBlock == []
    {
      hide ValidState, Accounted;
      this.ledger, this.decoder := ledger, decoder;
      peers := map[];
      inboundTx, inboundBlock := [], [];
    }

    /** Puts a fresh peer under its address, in place of an earlier connection if there is one. */
    method RegisterPeer(addr: Bytes) returns (p: Peer)
      requires Valid()
      modifies this`peers
      ensures Valid() && fresh(p) && p.addr == addr && p.Log() == IDLE
      ensures p.send == [] && p.wire == [] && p.writing && p.offered == [] && p.dropped == 0
      ensures peers == old(peers)[addr := p]
    {
      hide ValidState, Accounted;
      p := new Peer(addr);
      peers := peers[addr := p];
    }

    /** Takes out whatever is registered under the address. */
    method RemovePeer(addr: Bytes)
      requires Valid()
      modifies this`peers
      ensures Valid() && peers == old(peers) - {addr}
    {
      hide ValidState, Accounted;
      peers := peers - {addr};
    }

    /** Offers the packet to every peer but the one it came from, each exactly once; a full queue
        loses it for that peer only. */
    method Flood(origin: Option<Bytes>, pkt: Packet)
      requires Valid()
      modifies peers.Values
      ensures Valid()
      ensures forall a :: a in peers ==>
                peers[a].Log() ==
                if origin == Some(a) then old(peers[a].Log()) else Offer(old(peers[a].Log()), pkt)
    {
      hide Accounted, Offer, ValidState;
      var left := peers.Keys;
      while left != {}
        invariant left <= peers.Keys
        invariant forall a :: a in peers ==> peers[a].addr == a && peers[a].Valid()
        invariant forall a :: a in left ==> peers[a].Log() == old(peers[a].Log())
        invariant forall a :: a in peers && a !in left ==>
                    peers[a].Log() ==
                    if origin == Some(a) then old(peers[a].Log()) else Offer(old(peers[a].Log()), pkt)
        decreases left
      {
        var a :| a in left;
        if origin != Some(a) {
          peers[a].Enqueue(pkt);
        }
        left := left - {a};
      }
    }

    method BroadcastBlock(b: Block)
      requires Valid()
      modifies peers.Values
      ensures Valid()
      ensures forall a :: a in peers ==>
                peers[a].Log() == Offer(old(peers[a].Log()), Packet(4, MarshalPayload(b)))
    {
      var payload := MarshalPayload(b);
      Flood(None, Packet(MSG_BLOCK, payload));
    }

    method BroadcastTransaction(tx: Transaction)
      requires Valid()
      modifies peers.Values
      ensures Valid()
      ensures forall a :: a in peers ==>
                peers[a].Log() == Offer(old(peers[a].Log()), Packet(3, MarshalTxPayload(tx)))
    {
      var payload := MarshalTxPayload(tx);
      Flood(None, Packet(MSG_TRANSACTION, payload));
    }

    /** A transaction message: decoded, checked for ID and signature - balances are not looked at - and
        passed on unchanged to all other peers, every time it arrives. */
    method HandleTransaction(origin: Bytes, payload: Bytes) returns (r: Outcome<HandleError>)
      requires Valid()
      modifies this`inboundTx, peers.Values
      ensures Valid()
      ensures r == TxVerdict(decoder, ledger.engine, payload)
      ensures r == Fail(DecodeTransaction) <==> decoder.tx(payload).None?
      ensures r.Pass? <==>
                && decoder.tx(payload).Some?
                && var tx := decoder.tx(payload).value;
                   && HexDecode(tx.sender).Some?
                   && tx.id == HexEncode(ledger.engine.hash(Canonical(tx)))
                   && ledger.engine.verify(Canonical(tx), tx.signature, Slice(HexDecode(tx.sender).value))
      ensures inboundTx ==
              if r.Pass? && |old(inboundTx)| < 4096 then old(inboundTx) + [decoder.tx(payload).value]
              else old(inboundTx)
      ensures forall a :: a in peers ==>
                peers[a].Log() ==
                if r.Fail? || a == origin then old(peers[a].Log())
                else Offer(old(peers[a].Log()), Packet(3, payload))
    {
      hide CheckTx, Committable, Accounted, ValidState, Offer, HexDecode, HexEncode, Canonical;
      var decoded := decoder.tx(payload);
      if decoded.None? {
        return Fail(DecodeTransaction);
      }
      var checked := ledger.ValidateTransaction(decoded.value);
      if checked.Fail? {
        return Fail(InvalidTransaction(checked.error));
      }
      if |inboundTx| < INBOUND_TXS {
        inboundTx := inboundTx + [decoded.value];
      }
      Flood(Some(origin), Packet(MSG_TRANSACTION, payload));
      return Pass;
    }

    /** A block message: decoded, added to the ledger, and passed on unchanged to all other peers if
        and only if the ledger took it. */
    method HandleBlock(origin: Bytes, payload: Bytes) returns (r: Outcome<HandleError>)
      requires Valid()
      modifies this`inboundBlock, peers.Values, ledger
      ensures Valid()
      ensures r == BlockVerdict(decoder, ledger.engine, old(ledger.Value()), payload)
      ensures r == Fail(DecodeBlock) <==> decoder.block(payload).None?
      ensures r.Pass? <==>
                && decoder.block(payload).Some?
                && Accepts(ledger.engine, old(ledger.blocks), old(ledger.balances), decoder.block(payload).value)
      ensures ledger.Value() == AddDecoded(decoder, ledger.engine, old(ledger.Value()), payload)
      ensures inboundBlock ==
              if r.Pass? && |old(inboundBlock)| < 64 then old(inboundBlock) + [decoder.block(payload).value]
              else old(inboundBlock)
      ensures forall a :: a in peers ==>
                peers[a].Log() ==
                if r.Fail? || a == origin then old(peers[a].Log())
                else Offer(old(peers[a].Log()), Packet(4, payload))
    {
      hide CheckBlock, Accounted, ValidState, Offer, ApplyAll, Stage, Total;
      var decoded := decoder.block(payload);
      if decoded.None? {
        return Fail(DecodeBlock);
      }
      var added := ledger.AddBlock(decoded.value);
      if added.Fail? {
        return Fail(InvalidBlock(added.error));
      }
      if |inboundBlock| < INBOUND_BLOCKS {
        inboundBlock := inboundBlock + [decoded.value];
      }
      Flood(Some(origin), Packet(MSG_BLOCK, payload));
      return Pass;
    }

    /** Dispatch on the type byte; only block messages reach the ledger. */
    method HandlePacket(origin: Bytes, pkt: Packet) returns (r: Outcome<HandleError>)
      requires Valid()
      modifies this`inboundTx, this`inboundBlock, peers.Values, ledger
      ensures Valid()
      ensures r == Verdict(decoder, ledger.engine, old(ledger.Value()), pkt)
      ensures ledger.Value() ==
              if pkt.kind == 4 then AddDecoded(decoder, ledger.engine, old(ledger.Value()), pkt.payload)
              else old(ledger.Value())
      ensures pkt.kind != 3 ==> inboundTx == old(inboundTx)
      ensures pkt.kind != 4 ==> inboundBlock == old(inboundBlock)
      ensures forall a :: a in peers ==>
                peers[a].Log() ==
                if r.Fail? || a == origin then old(peers[a].Log()) else Offer(old(peers[a].Log()), pkt)
    {
      hide ValidState, Accounted, Offer, AddDecoded;
      if pkt.kind == MSG_TRANSACTION {
        r := HandleTransaction(origin, pkt.payload);
      } else if pkt.kind == MSG_BLOCK {
        r := HandleBlock(origin, pkt.payload);
      } else {
        r := Fail(UnknownType);
      }
    }

    /** Since the peers had been offered `was`, all but the origin have been offered `sent` as well. */
    ghost predicate Heard(was: map<Bytes, seq<Packet>>, origin: Bytes, sent: seq<Packet>)
      reads this, peers.Values
    {
      && was.Keys == peers.Keys
      && forall a :: a in peers ==> peers[a].offered == was[a] + if a == origin then [] else sent
    }

    lemma HeardNothing(was: map<Bytes, seq<Packet>>, origin: Bytes)
      requires was == map a | a in peers :: peers[a].offered
      ensures Heard(was, origin, [])
    {
    }

    lemma HeardAll(was: map<Bytes, seq<Packet>>, origin: Bytes, sent: seq<Packet>)
      requires Heard(was, origin, sent)
      ensures was.Keys == peers.Keys
      ensures forall a :: a in peers ==> peers[a].offered == was[a] + if a == origin then [] else sent
    {
    }

    lemma LedgerHoldsGenesis()
      requires Valid()
      ensures |ledger.blocks| > 0
    {
      hide ValidState, Accounted;
    }

    /** One turn of the read loop: the verdict is logged and no more. */
    method HandleNext(origin: Bytes, pkt: Packet)
      requires Valid()
      modifies this`inboundTx, this`inboundBlock, peers.Values, ledger
      ensures Valid() && |old(ledger.Value()).blocks| > 0
      ensures ledger.Value() ==
              if pkt.kind == 4 then AddDecoded(decoder, ledger.engine, old(ledger.Value()), pkt.payload)
              else old(ledger.Value())
      ensures forall a :: a in peers ==>
                peers[a].offered ==
                old(peers[a].offered) +
                if a != origin && Verdict(decoder, ledger.engine, old(ledger.Value()), pkt).Pass? then [pkt] else []
    {
      hide Valid, ValidState, Accounted, Offer, AddDecoded, Verdict;
      LedgerHoldsGenesis();
      ghost var logs := map a | a in peers :: peers[a].Log();
      OfferAdds();
      var r := HandlePacket(origin, pkt);
      assert forall a :: a in peers ==>
          peers[a].Log() == if r.Fail? || a == origin then logs[a] else Offer(logs[a], pkt);
    }

    /** The same after the packets `done`. */
    method HandleAfter(origin: Bytes, pkt: Packet, ghost start: State, ghost done: seq<Packet>,
                       ghost was: map<Bytes, seq<Packet>>)
      requires Valid() && |start.blocks| > 0
      requires ledger.Value() == Run(ledger.engine, start, BlocksIn(decoder, done))
      requires Heard(was, origin, Relayed(decoder, ledger.engine, start, done))
      modifies this`inboundTx, this`inboundBlock, peers.Values, ledger
      ensures Valid()
      ensures ledger.Value() == Run(ledger.engine, start, BlocksIn(decoder, done + [pkt]))
      ensures Heard(was, origin, Relayed(decoder, ledger.engine, start, done + [pkt]))
    {
      hide Valid, ValidState, AddDecoded, Verdict, Run, BlocksIn, Relayed;
      RunPacket(decoder, ledger.engine, start, done, pkt);
      HandleNext(origin, pkt);
    }

    /** The read loop of a connection over its whole life, with nobody else at the ledger or flooding
        meanwhile: the ledger ends where handing it the decoded blocks in stream order takes it; every
        other peer has been offered exactly the packets that passed, unchanged and in stream order, and
        this one nothing. At the end whatever stands under its address goes. */
    method RunPeer(p: Peer, reader: Reader)
      requires Valid()
      modifies this, peers.Values, ledger, reader
      ensures Valid()
      ensures peers == old(peers) - {p.addr}
      ensures ledger.Value() ==
              Run(ledger.engine, old(ledger.Value()), BlocksIn(decoder, ReadAll(old(reader.Stream())).0))
      ensures forall a :: a in old(peers) ==>
                old(peers)[a].offered ==
                old(peers[a].offered) +
                if a == p.addr then []
                else Relayed(decoder, ledger.engine, old(ledger.Value()), ReadAll(old(reader.Stream())).0)
    {
      hide Valid, ValidState, ReadFrom, ReadAll, Accounted, Add, Offer, Run, Relayed, BlocksIn, Verdict, AddDecoded,
           Concat, Heard;
      ghost var start := ledger.Value();
      ghost var all := ReadAll(reader.Stream()).0;
      ghost var done: seq<Packet> := [];
      ghost var was := map a | a in peers :: peers[a].offered;
      assert [] + all == all;
      LedgerHoldsGenesis();
      NothingHandled(decoder, ledger.engine, start);
      HeardNothing(was, p.addr);
      while true
        invariant Valid() && peers == old(peers)
        invariant done + ReadAll(reader.Stream()).0 == all
        invariant ledger.Value() == Run(ledger.engine, start, BlocksIn(decoder, done))
        invariant Heard(was, p.addr, Relayed(decoder, ledger.engine, start, done))
        decreases |reader.Stream()|
      {
        ReadAllStep(reader.Stream(), done);
        var got := reader.ReadPacket();
        if !got.GotPacket? {
          break;
        }
        HandleAfter(p.addr, got.packet, start, done, was);
        done := done + [got.packet];
      }
      HeardAll(was, p.addr, Relayed(decoder, ledger.engine, start, done));
      RemovePeer(p.addr);
    }
  }
}
