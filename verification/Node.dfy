/**
  The node's own part: building transactions and blocks, the pool of pending transactions and the
  block producer, alone and with other writers on the same ledger in between.
 */
module Node {
  import opened ByteStrings
  import opened Base
  import opened Types
  import opened BlockJson
  import opened Hashing
  import opened Merkle
  import opened Balances
  import opened Validation
  import opened Chain
  import opened ChainBinding
  import opened LedgerObject
  import opened Framing
  import opened PeerQueue
  import opened PeerServer

  /** Signing with one private key: a signature, or an error. */
  type Signer = Bytes -> Option<Bytes>

  /** The signer's signatures verify under `key`. */
  ghost predicate SignsFor(e: Engine, sign: Signer, key: Bytes) {
    forall msg: Bytes :: sign(msg).Some? ==> e.verify(msg, Slice(sign(msg).value), Slice(key))
  }

  // ---------------------------------------------------------------------------
  // Building
  // ---------------------------------------------------------------------------

  /** A signed transfer from the node's key to itself. */
  method BuildTx(e: Engine, key: Bytes, sign: Signer, amount: uint64, timestamp: int64)
    returns (r: Option<Transaction>)
    ensures var bare := Transaction([], HexEncode(key), HexEncode(key), amount, Nil, timestamp);
            && (r.Some? <==> sign(Canonical(bare)).Some?)
            && (r.Some? ==>
                  r.value == bare.(id := HexEncode(e.hash(Canonical(bare))),
                                   signature := Slice(sign(Canonical(bare)).value)))
    ensures r.Some? && SignsFor(e, sign, key) ==> CheckTx(e, r.value).Pass?
  {
    var pubHex := HexEncode(key);
    var tx := Transaction([], pubHex, pubHex, amount, Nil, timestamp);
    tx := tx.(id := TxId(e.hash, tx));
    var canonical := CanonicalTxBytes(tx);
    var sig := sign(canonical);
    if sig.None? {
      return None;
    }
    tx := tx.(signature := Slice(sig.value));
    HexRoundTrip(key);
    assert Canonical(tx) == canonical;
    return Some(tx);
  }

  /** The block built on tip `last` for height `height`. */
  function Assemble(e: Engine, txs: seq<Transaction>, last: Block, height: nat, key: Bytes, sign: Signer,
                    timestamp: int64): Option<Block>
    requires height < TWO_63
  {
    var header := Header(height, last.hash, timestamp, MerkleOf(e.hash, txs), 0);
    var b := Block(header, Slice(txs), [], Nil, Slice(key));
    var hashed := b.(hash := BlockHash(e.hash, b));
    match sign(hashed.hash)
    case None => None
    case Some(sig) => Some(hashed.(signature := Slice(sig)))
  }

  // ---------------------------------------------------------------------------
  // The builder against a ledger that others write to
  // ---------------------------------------------------------------------------

  /** When an assembled block is accepted, whatever it was built on and whoever signed it. */
  lemma AssembledAccepted(e: Engine, s: State, txs: seq<Transaction>, last: Block, height: nat, key: Bytes,
                          sign: Signer, timestamp: int64)
    requires |s.blocks| > 0 && height < TWO_63
    requires Assemble(e, txs, last, height, key, sign, timestamp).Some?
    ensures var b := Assemble(e, txs, last, height, key, sign, timestamp).value;
            && b.Txs() == txs
            && (Accepts(e, s.blocks, s.balances, b) <==>
                  && height == |s.blocks| && last.hash == s.blocks[|s.blocks| - 1].hash
                  && Signed(e, txs) && Funded(s.balances, txs)
                  && (key != [] ==> e.verify(b.hash, b.signature, Slice(key))))
            && (SignsFor(e, sign, key) ==> e.verify(b.hash, b.signature, Slice(key)))
  {
    hide Accepts, MerkleOf, Signed, Funded;
    var b := Assemble(e, txs, last, height, key, sign, timestamp).value;
    AcceptsExactly(e, s.blocks, s.balances, b);
    assert BlockHash(e.hash, b) == BlockHash(e.hash, b.(hash := [], signature := Nil));
  }

  /** The block is built on what the ledger holds now; if the signer works, the ledger takes it exactly
      when the transactions pass their checks in order. */
  method BuildBlock(txs: seq<Transaction>, ledger: Ledger, key: Bytes, sign: Signer, timestamp: int64)
    returns (r: Option<Block>)
    requires ledger.Valid() && |ledger.blocks| < TWO_63
    ensures r == Assemble(ledger.engine, txs, ledger.blocks[|ledger.blocks| - 1], |ledger.blocks|, key, sign, timestamp)
    ensures var bare := Block(Header(|ledger.blocks|, ledger.blocks[|ledger.blocks| - 1].hash, timestamp,
                                     MerkleOf(ledger.engine.hash, txs), 0),
                              Slice(txs), [], Nil, Slice(key));
            var hash := HexEncode(ledger.engine.hash(PutHeader(bare.header, PutTxs(Slice(txs), []))));
            && (r.Some? <==> sign(hash).Some?)
            && (r.Some? ==> r.value == bare.(hash := hash, signature := Slice(sign(hash).value)))
    ensures r.Some? && SignsFor(ledger.engine, sign, key) ==>
              (Accepts(ledger.engine, ledger.blocks, ledger.balances, r.value) <==>
                 Signed(ledger.engine, txs) && Funded(ledger.balances, txs))
  {
    hide ValidState, MerkleOf, Accepts, Signed, Funded, SignsFor, PutHeader, PutTxs, HexEncode;
    var e := ledger.engine;
    var last := ledger.LatestBlock();
    var height := ledger.Height();
    var root, _ := MerkleRoot(e.hash, txs);
    var b := Block(Header(height, last.hash, timestamp, root, 0), Slice(txs), [], Nil, Slice(key));
    var hash := HexEncode(e.hash(Preimage(b)));
    BlockHashOutright(e.hash, b);
    b := b.(hash := hash);
    var sig := sign(hash);
    if sig.None? {
      return None;
    }
    r := Some(b.(signature := Slice(sig.value)));
    if SignsFor(e, sign, key) {
      AssembledAccepted(e, ledger.Value(), txs, last, height, key, sign, timestamp);
    }
  }

  /** Completeness: if no block lands between reading the tip and committing, a batch that passes the
      transaction checks in order is always committed. */
  lemma UndisturbedCommit(e: Engine, s: State, txs: seq<Transaction>, key: Bytes, sign: Signer, timestamp: int64)
    requires 0 < |s.blocks| < TWO_63 && SignsFor(e, sign, key)
    requires Signed(e, txs) && Funded(s.balances, txs)
    requires Assemble(e, txs, s.blocks[|s.blocks| - 1], |s.blocks|, key, sign, timestamp).Some?
    ensures var b := Assemble(e, txs, s.blocks[|s.blocks| - 1], |s.blocks|, key, sign, timestamp).value;
            Add(e, s, b) == State(s.blocks + [b], ApplyAll(s.balances, txs))
  {
    hide Accepts, Signed, Funded, ApplyAll, Assemble;
    AssembledAccepted(e, s, txs, s.blocks[|s.blocks| - 1], |s.blocks|, key, sign, timestamp);
  }

  /** Two blocks of one chain with one hash are a collision or - where the lower one is the genesis block,
      whose hash is a constant - a preimage of that constant. */
  predicate Clash(e: Engine, blocks: seq<Block>, h: nat, k: nat) {
    && h < k < |blocks| && blocks[h].hash == blocks[k].hash
    && (h > 0 ==>
          && Consistent(e, blocks[h]) && Consistent(e, blocks[k]) && !SameCovered(blocks[h], blocks[k])
          && BlockCollision(e, blocks[h], blocks[k]).Of(e.hash))
    && (h == 0 ==> HexEncode(e.hash(Preimage(blocks[k]))) == Zeros(64))
  }

  lemma TipsOfOneHash(e: Engine, g: Accounts, blocks: seq<Block>, h: nat, k: nat)
    requires ValidChain(e, g, blocks) && h < k < |blocks| && blocks[h].hash == blocks[k].hash
    ensures Clash(e, blocks, h, k)
  {
    hide ValidChain, Consistent, Signed, MerkleOf;
    if h > 0 {
      HashBindsHeight(e, g, blocks, g, blocks, h, k);
    } else {
      GenesisFirst(e, g, blocks);
      ChainShape(e, g, blocks, k);
    }
  }

  /** A commit to a ledger that has grown since its tip was read. */
  lemma LateCommit(e: Engine, g: Accounts, s: State, t: State, b: Block)
    requires ValidState(e, g, t) && 0 < |s.blocks| && s.blocks <= t.blocks && s.blocks != t.blocks
    requires b.header.previousHash == s.blocks[|s.blocks| - 1].hash && Accepts(e, t.blocks, t.balances, b)
    ensures Clash(e, t.blocks, |s.blocks| - 1, |t.blocks| - 1)
  {
    hide ValidChain, Accepts, Replay, Clash, Signed, Funded, MerkleOf, BlockHash;
    AcceptsExactly(e, t.blocks, t.balances, b);
    assert t.blocks[|s.blocks| - 1] == s.blocks[|s.blocks| - 1];
    TipsOfOneHash(e, g, t.blocks, |s.blocks| - 1, |t.blocks| - 1);
  }

  lemma AssembledOnTip(e: Engine, txs: seq<Transaction>, last: Block, height: nat, key: Bytes, sign: Signer,
                       timestamp: int64)
    requires height < TWO_63 && Assemble(e, txs, last, height, key, sign, timestamp).Some?
    ensures Assemble(e, txs, last, height, key, sign, timestamp).value.header.previousHash == last.hash
  {
    hide MerkleOf, BlockHash;
  }

  lemma RunGrows(e: Engine, g: Accounts, s: State, between: seq<Block>, later: seq<Block>)
    requires ValidState(e, g, s)
    ensures var mid := Run(e, s, between);
            && ValidState(e, g, Run(e, mid, later))
            && s.blocks <= mid.blocks <= Run(e, mid, later).blocks
  {
    hide ValidState, Run;
    RunExtends(e, s, between);
    RunExtends(e, Run(e, s, between), later);
    RunKeepsValid(e, g, s, between);
    RunKeepsValid(e, g, Run(e, s, between), later);
  }

  /** The builder reads the tip, then the height, and commits later; any blocks may be added in each
      gap. Whoever signed, the commit changes the ledger only if none was, up to a collision or a preimage
      of the genesis hash, and only for a batch that passes its checks; otherwise it leaves the ledger as it
      is. If the signer works, it does change it then. */
  lemma InterleavedCommit(e: Engine, g: Accounts, s: State, between: seq<Block>, later: seq<Block>,
                          txs: seq<Transaction>, key: Bytes, sign: Signer, timestamp: int64)
    requires ValidState(e, g, s)
    requires |Run(e, s, between).blocks| < TWO_63
    requires Assemble(e, txs, s.blocks[|s.blocks| - 1], |Run(e, s, between).blocks|, key, sign, timestamp).Some?
    ensures var (last, height) := (s.blocks[|s.blocks| - 1], |Run(e, s, between).blocks|);
            var b := Assemble(e, txs, last, height, key, sign, timestamp).value;
            var t := Run(e, Run(e, s, between), later);
            && s.blocks <= t.blocks
            && (Accepts(e, t.blocks, t.balances, b) ==> Signed(e, txs) && Funded(t.balances, txs))
            && (t.blocks == s.blocks && SignsFor(e, sign, key) && Signed(e, txs) && Funded(t.balances, txs) ==>
                  Accepts(e, t.blocks, t.balances, b))
            && (t.blocks != s.blocks && Accepts(e, t.blocks, t.balances, b) ==>
                  Clash(e, t.blocks, |s.blocks| - 1, |t.blocks| - 1))
            && (!Accepts(e, t.blocks, t.balances, b) ==> Add(e, t, b) == t)
  {
    hide ValidState, Accepts, Signed, Funded, Assemble, Run, Clash, SignsFor;
    var last, mid := s.blocks[|s.blocks| - 1], Run(e, s, between);
    var t := Run(e, mid, later);
    RunGrows(e, g, s, between, later);
    AssembledAccepted(e, t, txs, last, |mid.blocks|, key, sign, timestamp);
    AssembledOnTip(e, txs, last, |mid.blocks|, key, sign, timestamp);
    var b := Assemble(e, txs, last, |mid.blocks|, key, sign, timestamp).value;
    if t.blocks == s.blocks {
      assert mid.blocks == s.blocks;
    } else if Accepts(e, t.blocks, t.balances, b) {
      LateCommit(e, g, s, t, b);
    }
  }

  // ---------------------------------------------------------------------------
  // Transfers of a key to itself
  // ---------------------------------------------------------------------------

  predicate SelfTransfers(txs: seq<Transaction>) {
    forall i :: 0 <= i < |txs| ==> txs[i].sender == txs[i].receiver
  }

  lemma SelfTransferStep(m: Accounts, tx: Transaction, a: Bytes)
    requires tx.sender == tx.receiver
    ensures Bal(ApplyTx(m, tx), a) == Bal(m, a)
  {
  }

  /** Transfers of keys to themselves move nothing, funded or not. */
  lemma {:induction false} SelfTransfersMoveNothing(m: Accounts, txs: seq<Transaction>, a: Bytes)
    requires SelfTransfers(txs)
    ensures Bal(ApplyAll(m, txs), a) == Bal(m, a)
  {
    hide Bal, ApplyTx;
    if |txs| > 0 {
      SelfTransfersMoveNothing(m, txs[..|txs| - 1], a);
      SelfTransferStep(ApplyAll(m, txs[..|txs| - 1]), txs[|txs| - 1], a);
    }
  }

  /** The node's balance never depletes: a batch of its own transactions, none above its balance, is
      funded however long it is. */
  lemma OwnBatchFunded(m: Accounts, txs: seq<Transaction>)
    requires SelfTransfers(txs)
    ensures Funded(m, txs) <==> (forall i :: 0 <= i < |txs| ==> txs[i].amount <= Bal(m, txs[i].sender))
  {
    hide Bal, ApplyAll;
    forall i | 0 <= i < |txs|
      ensures Bal(ApplyAll(m, txs[..i]), txs[i].sender) == Bal(m, txs[i].sender)
    {
      SelfTransfersMoveNothing(m, txs[..i], txs[i].sender);
    }
  }

  /** Each node seeds its ledger with its own key alone. Where all transactions are transfers of a key
      to itself, as nodes build them, its chain then holds none of anybody else, zero amounts apart:
      no block with another node's transactions is ever accepted. */
  lemma OwnTransactionsOnly(e: Engine, own: Bytes, x: uint64, blocks: seq<Block>, i: nat)
    requires ValidChain(e, map[own := x], blocks) && SelfTransfers(AllTxs(blocks)) && i < |AllTxs(blocks)|
    ensures AllTxs(blocks)[i].sender == own || AllTxs(blocks)[i].amount == 0
  {
    hide ValidChain, AllTxs, ApplyAll;
    var g: Accounts := map[own := x];
    var txs := AllTxs(blocks);
    ChainFunded(e, g, blocks);
    SelfTransfersMoveNothing(g, txs[..i], txs[i].sender);
    assert txs[i].amount <= Bal(g, txs[i].sender);
  }

  /** The pool also takes in what other nodes gossip. On such a chain a batch of transfers of keys to
      themselves passes exactly if each is of nothing, or is the node's own and within its seed: one
      transaction of another node has the whole batch refused, and it is taken out of the pool for good. */
  lemma ForeignTransactionSpoilsBatch(e: Engine, own: Bytes, x: uint64, s: State, batch: seq<Transaction>)
    requires ValidState(e, map[own := x], s) && SelfTransfers(AllTxs(s.blocks)) && SelfTransfers(batch)
    ensures Funded(s.balances, batch) <==>
              forall i :: 0 <= i < |batch| ==>
                batch[i].amount == 0 || (batch[i].sender == own && batch[i].amount <= x)
  {
    hide ValidChain, AllTxs, ApplyAll, Replay, Funded;
    var g: Accounts := map[own := x];
    ReplayIsApply(g, s.blocks);
    OwnBatchFunded(s.balances, batch);
    forall i | 0 <= i < |batch|
      ensures Bal(s.balances, batch[i].sender) == if batch[i].sender == own then x else 0
    {
      SelfTransfersMoveNothing(g, AllTxs(s.blocks), batch[i].sender);
    }
  }

  // ---------------------------------------------------------------------------
  // The producer
  // ---------------------------------------------------------------------------

  /** Some message gets no signature. */
  ghost predicate SignFails(sign: Signer) {
    exists msg: Bytes :: sign(msg).None?
  }

  lemma BuildFails(e: Engine, txs: seq<Transaction>, last: Block, height: nat, key: Bytes, sign: Signer,
                   timestamp: int64)
    requires height < TWO_63 && Assemble(e, txs, last, height, key, sign, timestamp).None?
    ensures SignFails(sign)
  {
    hide MerkleOf, BlockHash;
  }

  lemma AddIsAccept(e: Engine, s: State, b: Block)
    requires |s.blocks| > 0
    ensures CheckBlock(e, s.blocks, s.balances, b).Pass? <==> Accepts(e, s.blocks, s.balances, b)
    ensures Accepts(e, s.blocks, s.balances, b) ==> Signed(e, b.Txs()) && Funded(s.balances, b.Txs())
    ensures Accepts(e, s.blocks, s.balances, b) ==> Add(e, s, b) == State(s.blocks + [b], ApplyAll(s.balances, b.Txs()))
    ensures !Accepts(e, s.blocks, s.balances, b) ==> Add(e, s, b) == s
  {
    hide CheckBlock, ApplyAll, MerkleOf, BlockHash, Signed, Funded;
    AcceptsExactly(e, s.blocks, s.balances, b);
  }

  const PENDING_CAPACITY: nat := 4096
  const BATCH_SIZE: nat := 10

  class Producer {
    const server: PeerServer
    const key: Bytes
    var pending: seq<Transaction>

    ghost predicate Valid()
      reads this, server, server.peers.Values, server.ledger
    {
      server.Valid() && |pending| <= PENDING_CAPACITY
    }

    constructor (server: PeerServer, key: Bytes)
      requires server.Valid()
      ensures this.server == server && this.key == key && pending == [] && Valid()
    {
      hide ValidState, Accounted;
      this.server := server;
      this.key := key;
      pending := [];
    }

    /** A send to the pool that never blocks: dropped when full. */
    method Submit(tx: Transaction)
      requires Valid()
      modifies this
      ensures Valid()
      ensures pending == if |old(pending)| < 4096 then old(pending) + [tx] else old(pending)
    {
      if |pending| < PENDING_CAPACITY {
        pending := pending + [tx];
      }
    }

    /** Takes the oldest pending transactions, ten at most. */
    method DrainBatch() returns (batch: seq<Transaction>)
      requires Valid()
      modifies this
      ensures Valid() && batch + pending == old(pending)
      ensures |batch| == if |old(pending)| < 10 then |old(pending)| else 10
    {
      hide ValidState, Accounted;
      batch := [];
      while |batch| < BATCH_SIZE && |pending| > 0
        invariant Valid() && batch + pending == old(pending)
        invariant |batch| <= BATCH_SIZE
        decreases |pending|
      {
        assert batch + pending == batch + [pending[0]] + pending[1..];
        batch := batch + [pending[0]];
        pending := pending[1..];
      }
    }

    /** Builds, adds and broadcasts one block with nobody else at the ledger. What is committed goes to
        every peer, and otherwise nothing changes. If the signer works, the ledger takes the block
        exactly when every transaction of the batch passes its checks in order. */
    method ProduceBlock(batch: seq<Transaction>, sign: Signer, timestamp: int64) returns (produced: Option<Block>)
      requires Valid() && |server.ledger.blocks| < TWO_63
      modifies server.peers.Values, server.ledger
      ensures Valid()
      ensures !SignFails(sign) && SignsFor(server.ledger.engine, sign, key) ==>
                (produced.Some? <==> Signed(server.ledger.engine, batch) && Funded(old(server.ledger.balances), batch))
      ensures produced.Some? ==>
                && produced.value.Txs() == batch
                && produced.value.header.timestamp == timestamp && produced.value.header.nonce == 0
                && produced.value.producerKey == Slice(key)
                && sign(produced.value.hash).Some?
                && produced.value.signature == Slice(sign(produced.value.hash).value)
                && Signed(server.ledger.engine, batch) && Funded(old(server.ledger.balances), batch)
                && server.ledger.blocks == old(server.ledger.blocks) + [produced.value]
                && server.ledger.balances == ApplyAll(old(server.ledger.balances), batch)
      ensures produced.None? ==> server.ledger.Value() == old(server.ledger.Value())
      ensures forall a :: a in server.peers ==>
                server.peers[a].Log() ==
                if produced.None? then old(server.peers[a].Log())
                else Offer(old(server.peers[a].Log()), Packet(4, MarshalPayload(produced.value)))
    {
      hide ValidState, Accounted, Assemble, CheckBlock, Signed, Funded, ApplyAll, Offer, SignsFor, SignFails,
           MarshalPayload, MerkleOf, BlockHash, Stage, Accepts, PutHeader, PutTxs, HexEncode, Total;
      ghost var s := server.ledger.Value();
      var built := BuildBlock(batch, server.ledger, key, sign, timestamp);
      if built.None? {
        BuildFails(server.ledger.engine, batch, s.blocks[|s.blocks| - 1], |s.blocks|, key, sign, timestamp);
        return None;
      }
      AddIsAccept(server.ledger.engine, s, built.value);
      var added := server.ledger.AddBlock(built.value);
      if added.Fail? {
        return None;
      }
      server.BroadcastBlock(built.value);
      return built;
    }

    /** One tick of the producer: a batch leaves the pool for good, and a block is made of it if there is
        anything in it. */
    method Tick(sign: Signer, timestamp: int64) returns (batch: seq<Transaction>, produced: Option<Block>)
      requires Valid() && |server.ledger.blocks| < TWO_63
      modifies this, server.peers.Values, server.ledger
      ensures Valid() && batch + pending == old(pending)
      ensures |batch| == if |old(pending)| < 10 then |old(pending)| else 10
      ensures forall a :: a in server.peers ==>
                server.peers[a].Log() ==
                if produced.None? then old(server.peers[a].Log())
                else Offer(old(server.peers[a].Log()), Packet(4, MarshalPayload(produced.value)))
      ensures produced.Some? ==>
                && batch != [] && produced.value.Txs() == batch
                && server.ledger.blocks == old(server.ledger.blocks) + [produced.value]
                && server.ledger.balances == ApplyAll(old(server.ledger.balances), batch)
      ensures produced.None? ==> server.ledger.Value() == old(server.ledger.Value())
      ensures batch != [] && !SignFails(sign) && SignsFor(server.ledger.engine, sign, key) ==>
                (produced.Some? <==> Signed(server.ledger.engine, batch) && Funded(old(server.ledger.balances), batch))
    {
      hide ValidState, Accounted, Signed, Funded, ApplyAll, Offer, SignsFor, SignFails, MarshalPayload, HexEncode;
      batch := DrainBatch();
      if |batch| == 0 {
        return batch, None;
      }
      produced := ProduceBlock(batch, sign, timestamp);
    }
  }
}
