/** What the ledger checks of a transaction and of a block, in the order it checks it. */
module Validation {
  import opened ByteStrings
  import opened Base
  import opened Types
  import opened BlockJson
  import opened Hashing
  import opened Merkle
  import opened Balances

  /** The parts of a crypto engine that consensus uses, and SHA-256. `verify` takes message,
      signature and public key; it is any function of those. */
  datatype Engine = Engine(hash: Hash, verify: (Bytes, Slice<byte>, Slice<byte>) -> bool)

  datatype TxError = BadSenderKey | IdMismatch | BadSignature | InsufficientBalance

  datatype BlockError =
    | IndexMismatch
    | PreviousHashMismatch
    | BadTransaction(index: nat, why: TxError)
    | MerkleRootMismatch
    | HashMismatch
    | BadProducerSignature

  /** ID and signature, without a look at balances: ValidateTransaction as the code has it. */
  function CheckTx(e: Engine, tx: Transaction): Outcome<TxError> {
    match HexDecode(tx.sender)
    case None => Fail(BadSenderKey)
    case Some(key) =>
      if tx.id != TxId(e.hash, tx) then Fail(IdMismatch)
      else if !e.verify(Canonical(tx), tx.signature, Slice(key)) then Fail(BadSignature)
      else Pass
  }

  function CheckTxWith(e: Engine, tx: Transaction, m: Accounts): Outcome<TxError> {
    if CheckTx(e, tx).Fail? then CheckTx(e, tx)
    else if Bal(m, tx.sender) < tx.amount then Fail(InsufficientBalance)
    else Pass
  }

  datatype Staging = Staged(balances: Accounts) | Rejected(index: nat, why: TxError)

  /** The transactions of a block checked and applied in turn on a copy of the balances. */
  function Stage(e: Engine, m: Accounts, txs: seq<Transaction>): (r: Staging)
    ensures r.Rejected? ==> r.index < |txs|
  {
    if |txs| == 0 then Staged(m)
    else
      var last := txs[|txs| - 1];
      match Stage(e, m, txs[..|txs| - 1])
      case Rejected(i, why) => Rejected(i, why)
      case Staged(n) =>
        match CheckTxWith(e, last, n)
        case Fail(why) => Rejected(|txs| - 1, why)
        case Pass => Staged(ApplyTx(n, last))
  }

  function CheckBlock(e: Engine, blocks: seq<Block>, m: Accounts, b: Block): Outcome<BlockError>
    requires |blocks| > 0
  {
    if b.header.index != |blocks| then Fail(IndexMismatch)
    else if b.header.previousHash != blocks[|blocks| - 1].hash then Fail(PreviousHashMismatch)
    else
      match Stage(e, m, b.Txs())
      case Rejected(i, why) => Fail(BadTransaction(i, why))
      case Staged(_) =>
        if b.header.merkleRoot != MerkleOf(e.hash, b.Txs()) then Fail(MerkleRootMismatch)
        else if b.hash != BlockHash(e.hash, b) then Fail(HashMismatch)
        else if |b.producerKey.Elems()| > 0 && !e.verify(b.hash, b.signature, b.producerKey) then
          Fail(BadProducerSignature)
        else Pass
  }

  predicate Accepts(e: Engine, blocks: seq<Block>, m: Accounts, b: Block)
    requires |blocks| > 0
  {
    CheckBlock(e, blocks, m, b).Pass?
  }

  /** Every transaction has its ID and its signature right. */
  predicate Signed(e: Engine, txs: seq<Transaction>) {
    forall i :: 0 <= i < |txs| ==> CheckTx(e, txs[i]).Pass?
  }

  lemma SignedSnoc(e: Engine, txs: seq<Transaction>)
    requires |txs| > 0
    ensures Signed(e, txs) <==> Signed(e, txs[..|txs| - 1]) && CheckTx(e, txs[|txs| - 1]).Pass?
  {
    hide CheckTx;
    forall i | 0 <= i < |txs| - 1
      ensures txs[..|txs| - 1][i] == txs[i]
    {
    }
  }

  lemma StageNothing(e: Engine, m: Accounts)
    ensures Signed(e, []) && Funded(m, [])
  {
  }

  /** Staging passes exactly when all transactions are signed and funded in turn, and then leaves
      what applying them to the live map would leave. */
  lemma {:induction false} StageIsApply(e: Engine, m: Accounts, txs: seq<Transaction>)
    ensures Stage(e, m, txs).Staged? <==> Signed(e, txs) && Funded(m, txs)
    ensures Stage(e, m, txs).Staged? ==> Stage(e, m, txs).balances == ApplyAll(m, txs)
  {
    hide CheckTx, ApplyTx, Bal, Signed, Funded;
    if |txs| == 0 {
      assert Signed(e, txs) && Funded(m, txs) by {
        StageNothing(e, m);
      }
    } else {
      StageIsApply(e, m, txs[..|txs| - 1]);
      SignedSnoc(e, txs);
      FundedSnoc(m, txs);
    }
  }

  /** A refusal names the first transaction that fails, with the reason it fails for. */
  lemma {:induction false} StageNamesFirst(e: Engine, m: Accounts, txs: seq<Transaction>)
    requires Stage(e, m, txs).Rejected?
    ensures var i := Stage(e, m, txs).index;
            && Signed(e, txs[..i]) && Funded(m, txs[..i])
            && CheckTxWith(e, txs[i], ApplyAll(m, txs[..i])) == Fail(Stage(e, m, txs).why)
  {
    hide CheckTx, ApplyTx, Bal, CheckTxWith;
    var init := txs[..|txs| - 1];
    StageIsApply(e, m, init);
    if Stage(e, m, init).Rejected? {
      StageNamesFirst(e, m, init);
      var i := Stage(e, m, txs).index;
      assert init[..i] == txs[..i] && init[i] == txs[i];
    }
  }

  /** Exact acceptance of a block's transactions: IDs and signatures, and for every transaction the
      sender's starting balance plus receipts minus payments earlier in the block covers it. */
  lemma StageExactly(e: Engine, m: Accounts, txs: seq<Transaction>)
    requires Total(m) <= MAX_UINT64
    ensures Stage(e, m, txs).Staged? <==> Signed(e, txs) && Covered(m, txs)
  {
    hide Stage, Total, Funded, Covered;
    StageIsApply(e, m, txs);
    FundedExactly(m, txs);
  }

  /** The same on every map, whatever its total: the flows count modulo 2^64. */
  lemma StageExactlyModulo(e: Engine, m: Accounts, txs: seq<Transaction>)
    ensures Stage(e, m, txs).Staged? <==>
              && Signed(e, txs)
              && (forall i :: 0 <= i < |txs| ==> txs[i].amount <= Flow(m, txs[..i], txs[i].sender) % TWO_64)
  {
    hide Stage, Flow, ApplyAll, Bal;
    StageIsApply(e, m, txs);
    forall i | 0 <= i < |txs|
      ensures Bal(ApplyAll(m, txs[..i]), txs[i].sender) == Flow(m, txs[..i], txs[i].sender) % TWO_64
    {
      BalanceModulo(m, txs[..i], txs[i].sender);
    }
  }

  /** Acceptance of a block spelled out. */
  lemma AcceptsExactly(e: Engine, blocks: seq<Block>, m: Accounts, b: Block)
    requires |blocks| > 0
    ensures Accepts(e, blocks, m, b) <==>
              && b.header.index == |blocks|
              && b.header.previousHash == blocks[|blocks| - 1].hash
              && Signed(e, b.Txs()) && Funded(m, b.Txs())
              && b.header.merkleRoot == MerkleOf(e.hash, b.Txs())
              && b.hash == BlockHash(e.hash, b)
              && (|b.producerKey.Elems()| > 0 ==> e.verify(b.hash, b.signature, b.producerKey))
  {
    hide Stage, Signed, Funded, MerkleOf, BlockHash;
    StageIsApply(e, m, b.Txs());
  }

  /** The producer's signature is enforced only where a producer key is given: any accepted block is
      accepted without key, under every signature, and its hash does not change. */
  lemma ProducerKeyOptional(e: Engine, blocks: seq<Block>, m: Accounts, b: Block, signature: Slice<byte>)
    requires |blocks| > 0
    ensures var bare := b.(signature := signature, producerKey := Nil);
            Accepts(e, blocks, m, b) <==>
              && Accepts(e, blocks, m, bare)
              && (|b.producerKey.Elems()| > 0 ==> e.verify(b.hash, b.signature, b.producerKey))
  {
    hide Stage, Signed, Funded, MerkleOf;
    var bare := b.(signature := signature, producerKey := Nil);
    assert BlockHash(e.hash, bare) == BlockHash(e.hash, b);
    AcceptsExactly(e, blocks, m, b);
    AcceptsExactly(e, blocks, m, bare);
  }

  // ---------------------------------------------------------------------------
  // Blocks without a producer
  // ---------------------------------------------------------------------------

  /** The plainest block on top of `blocks`: no producer key, no signature. */
  function BareBlock(e: Engine, blocks: seq<Block>, txs: seq<Transaction>): Block
    requires 0 < |blocks| < TWO_63
  {
    var header := Header(|blocks|, blocks[|blocks| - 1].hash, 0, MerkleOf(e.hash, txs), 0);
    var b := Block(header, Slice(txs), [], Nil, Nil);
    b.(hash := BlockHash(e.hash, b))
  }

  /** It is accepted exactly when its transactions are. */
  lemma BareAccepted(e: Engine, blocks: seq<Block>, m: Accounts, txs: seq<Transaction>)
    requires 0 < |blocks| < TWO_63
    ensures var b := BareBlock(e, blocks, txs);
            b.Txs() == txs && (Accepts(e, blocks, m, b) <==> Signed(e, txs) && Funded(m, txs))
  {
    hide Accepts, MerkleOf, Signed, Funded;
    var b := BareBlock(e, blocks, txs);
    AcceptsExactly(e, blocks, m, b);
    assert BlockHash(e.hash, b) == BlockHash(e.hash, b.(hash := []));
  }

  lemma JustOne(e: Engine, m: Accounts, tx: Transaction)
    ensures Signed(e, [tx]) <==> CheckTx(e, tx).Pass?
    ensures Funded(m, [tx]) <==> tx.amount <= Bal(m, tx.sender)
  {
    hide CheckTx;
    assert [tx][..0] == [];
    assert [tx][0] == tx;
  }

  /** A transaction passes against a balance map exactly when a block of it alone would be accepted on
      top of any chain with these balances. */
  lemma CheckTxWithExactly(e: Engine, tx: Transaction, m: Accounts, blocks: seq<Block>)
    requires 0 < |blocks| < TWO_63
    ensures CheckTxWith(e, tx, m).Pass? <==> Accepts(e, blocks, m, BareBlock(e, blocks, [tx]))
  {
    hide CheckTx, Accepts, BareBlock, Signed, Funded;
    BareAccepted(e, blocks, m, [tx]);
    JustOne(e, m, tx);
  }

  // ---------------------------------------------------------------------------
  // The checks spelled out
  // ---------------------------------------------------------------------------

  /** Which check a transaction fails, and when it passes: its sender is hex, its ID is the hex digest of
      its canonical bytes, and its signature on them verifies under the sender's key. */
  lemma CheckTxOutright(e: Engine, tx: Transaction)
    ensures var (r, key, bytes) := (CheckTx(e, tx), HexDecode(tx.sender), Canonical(tx));
            && (r == Fail(BadSenderKey) <==> key.None?)
            && (r == Fail(IdMismatch) <==> key.Some? && tx.id != HexEncode(e.hash(bytes)))
            && (r == Fail(BadSignature) <==>
                  && key.Some? && tx.id == HexEncode(e.hash(bytes))
                  && !e.verify(bytes, tx.signature, Slice(key.value)))
            && (r == Pass <==>
                  && key.Some? && tx.id == HexEncode(e.hash(bytes))
                  && e.verify(bytes, tx.signature, Slice(key.value)))
  {
    hide HexDecode, HexEncode, Canonical;
  }

  lemma SignedOutright(e: Engine, txs: seq<Transaction>)
    ensures Signed(e, txs) <==>
              forall i :: 0 <= i < |txs| ==>
                && HexDecode(txs[i].sender).Some?
                && txs[i].id == HexEncode(e.hash(Canonical(txs[i])))
                && e.verify(Canonical(txs[i]), txs[i].signature, Slice(HexDecode(txs[i].sender).value))
  {
    hide CheckTx, HexDecode, HexEncode, Canonical;
    forall i | 0 <= i < |txs|
      ensures CheckTx(e, txs[i]).Pass? <==>
                && HexDecode(txs[i].sender).Some?
                && txs[i].id == HexEncode(e.hash(Canonical(txs[i])))
                && e.verify(Canonical(txs[i]), txs[i].signature, Slice(HexDecode(txs[i].sender).value))
    {
      CheckTxOutright(e, txs[i]);
    }
  }

  /** The first failing check of a block, in order. */
  lemma CheckBlockNames(e: Engine, blocks: seq<Block>, m: Accounts, b: Block)
    requires |blocks| > 0
    ensures var (r, staging) := (CheckBlock(e, blocks, m, b), Stage(e, m, b.Txs()));
            var linked := b.header.index == |blocks| && b.header.previousHash == blocks[|blocks| - 1].hash;
            var rooted := linked && staging.Staged? && b.header.merkleRoot == MerkleOf(e.hash, b.Txs());
            var hashed := rooted && b.hash == BlockHash(e.hash, b);
            && (r == Fail(IndexMismatch) <==> b.header.index != |blocks|)
            && (r == Fail(PreviousHashMismatch) <==> b.header.index == |blocks| && !linked)
            && (forall i, why :: r == Fail(BadTransaction(i, why)) <==> linked && staging == Rejected(i, why))
            && (r == Fail(MerkleRootMismatch) <==> linked && staging.Staged? && !rooted)
            && (r == Fail(HashMismatch) <==> rooted && !hashed)
            && (r == Fail(BadProducerSignature) <==>
                  hashed && |b.producerKey.Elems()| > 0 && !e.verify(b.hash, b.signature, b.producerKey))
  {
    hide Stage, MerkleOf, BlockHash;
  }

  /** Acceptance of a block, with nothing left to look up but the tree: index, link, each ID and signature,
      each amount against the flows modulo 2^64, Merkle root, the hex digest of both JSON texts, and the
      producer's signature where a key is given. */
  lemma AcceptsOutright(e: Engine, blocks: seq<Block>, m: Accounts, b: Block)
    requires |blocks| > 0
    ensures Accepts(e, blocks, m, b) <==>
              && b.header.index == |blocks|
              && b.header.previousHash == blocks[|blocks| - 1].hash
              && (forall i :: 0 <= i < |b.Txs()| ==>
                    && HexDecode(b.Txs()[i].sender).Some?
                    && b.Txs()[i].id == HexEncode(e.hash(Canonical(b.Txs()[i])))
                    && e.verify(Canonical(b.Txs()[i]), b.Txs()[i].signature, Slice(HexDecode(b.Txs()[i].sender).value)))
              && (forall i :: 0 <= i < |b.Txs()| ==>
                    b.Txs()[i].amount <= Flow(m, b.Txs()[..i], b.Txs()[i].sender) % 0x1_0000_0000_0000_0000)
              && b.header.merkleRoot == MerkleOf(e.hash, b.Txs())
              && b.hash == HexEncode(e.hash(PutHeader(b.header, PutTxs(b.transactions, []))))
              && (|b.producerKey.Elems()| > 0 ==> e.verify(b.hash, b.signature, b.producerKey))
  {
    hide Stage, MerkleOf, BlockHash, Accepts, Signed, Funded, HexDecode, HexEncode, Canonical, Flow, PutHeader, PutTxs;
    AcceptsExactly(e, blocks, m, b);
    SignedOutright(e, b.Txs());
    StageIsApply(e, m, b.Txs());
    StageExactlyModulo(e, m, b.Txs());
    BlockHashOutright(e.hash, b);
    if Signed(e, b.Txs()) {
      assert Funded(m, b.Txs()) <==>
             forall i :: 0 <= i < |b.Txs()| ==>
               b.Txs()[i].amount <= Flow(m, b.Txs()[..i], b.Txs()[i].sender) % TWO_64;
    }
  }
}
