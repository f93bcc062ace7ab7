/**
  What a block hash commits to. Two blocks that ledgers have accepted, with one hash, have the same
  header and transactions, and so has everything before them; otherwise two byte strings with one
  digest are computed. No assumption is made on the text of the blocks: the strings that JSON could
  confuse are pinned by the transaction IDs.
 */
module ChainBinding {
  import opened ByteStrings
  import opened Base
  import opened Types
  import opened JsonText
  import opened BlockJson
  import opened Hashing
  import opened Merkle
  import opened Balances
  import opened Validation
  import opened Chain

  // ---------------------------------------------------------------------------
  // One block
  // ---------------------------------------------------------------------------

  /** What validation has established of a committed block, without reference to the chain. */
  predicate Consistent(e: Engine, b: Block) {
    && Ascii(b.header.previousHash)
    && b.header.merkleRoot == MerkleOf(e.hash, b.Txs())
    && b.hash == BlockHash(e.hash, b)
    && Signed(e, b.Txs())
  }

  /** Header and transactions: what the hash covers. Signature and producer key are not covered. */
  predicate SameCovered(a: Block, b: Block) {
    a.header == b.header && a.transactions == b.transactions
  }

  lemma HashIsAscii(e: Engine, g: Accounts, blocks: seq<Block>, i: nat)
    requires ValidChain(e, g, blocks) && i < |blocks|
    ensures Ascii(blocks[i].hash)
  {
    hide ValidChain, Signed;
    if i == 0 {
      GenesisFirst(e, g, blocks);
    } else {
      ChainShape(e, g, blocks, i);
    }
  }

  lemma AcceptedIsConsistent(e: Engine, g: Accounts, blocks: seq<Block>, b: Block)
    requires ValidChain(e, g, blocks) && Accepts(e, blocks, Replay(g, blocks), b)
    ensures Consistent(e, b)
  {
    hide ValidChain, Accepts, Signed, Funded, MerkleOf, BlockHash;
    HashIsAscii(e, g, blocks, |blocks| - 1);
    AcceptsExactly(e, blocks, Replay(g, blocks), b);
  }

  lemma CommittedIsConsistent(e: Engine, g: Accounts, blocks: seq<Block>, i: nat)
    requires ValidChain(e, g, blocks) && 0 < i < |blocks|
    ensures Consistent(e, blocks[i])
  {
    hide ValidChain, Accepts, Consistent;
    PrefixIsValid(e, g, blocks, i);
    AcceptedInTurn(e, g, blocks, i);
    AcceptedIsConsistent(e, g, blocks[..i], blocks[i]);
  }

  lemma MerkleIsAscii(h: Hash, txs: seq<Transaction>)
    ensures Ascii(MerkleOf(h, txs))
  {
  }

  /** Decoding changes nothing of a consistent header. */
  lemma HeaderIsText(e: Engine, b: Block)
    requires Consistent(e, b)
    ensures SanitizeHeader(b.header) == b.header
  {
    hide Signed, MerkleOf, BlockHash;
    MerkleIsAscii(e.hash, b.Txs());
    AsciiSanitize(b.header.previousHash);
    AsciiSanitize(b.header.merkleRoot);
  }

  /** Nor of a signed transaction, its receiver apart. */
  lemma TxIsText(e: Engine, tx: Transaction)
    requires CheckTx(e, tx).Pass?
    ensures SanitizeTx(tx) == tx.(receiver := Sanitize(tx.receiver))
    ensures tx.id == TxId(e.hash, tx)
  {
    HexIsAscii(tx.sender);
    AsciiSanitize(tx.id);
    AsciiSanitize(tx.sender);
  }

  /** Transactions that decode alike have one sender and one ID; if they still differ, then in the
      receiver, and the ID covers that. */
  lemma DecodeAlike(e: Engine, a: Transaction, b: Transaction)
    requires CheckTx(e, a).Pass? && CheckTx(e, b).Pass? && SanitizeTx(a) == SanitizeTx(b) && a != b
    ensures |a.sender| == |b.sender| && TxId(e.hash, a) == TxId(e.hash, b) && !SameContent(a, b)
  {
    hide CheckTx, TxId, Sanitize;
    TxIsText(e, a);
    TxIsText(e, b);
    assert a.receiver != b.receiver;
  }

  lemma SamePreimage(e: Engine, a: Block, b: Block)
    requires Consistent(e, a) && Consistent(e, b) && Preimage(a) == Preimage(b)
    ensures a.header == b.header
    ensures |a.Txs()| == |b.Txs()|
    ensures forall i :: 0 <= i < |a.Txs()| ==> SanitizeTx(a.Txs()[i]) == SanitizeTx(b.Txs()[i])
    ensures a.transactions == b.transactions || a.Txs() != b.Txs()
  {
    hide Preimage, Consistent, SanitizeHeader, SanitizeTx;
    PreimageRoundTrip(a);
    PreimageRoundTrip(b);
    HeaderIsText(e, a);
    HeaderIsText(e, b);
    assert SanitizeTxs(a.transactions) == SanitizeTxs(b.transactions);
    assert a.transactions.Nil? == b.transactions.Nil?;
    if a.transactions.Slice? {
      assert SanitizeEach(a.Txs()) == SanitizeEach(b.Txs());
    }
  }

  lemma SamePreimageDifferentTx(e: Engine, a: Block, b: Block)
    requires Consistent(e, a) && Consistent(e, b) && Preimage(a) == Preimage(b) && !SameCovered(a, b)
    ensures |a.Txs()| == |b.Txs()| && a.Txs() != b.Txs()
    ensures var i := FirstDifference(a.Txs(), b.Txs());
            var (p, q) := (a.Txs()[i], b.Txs()[i]);
            |p.sender| == |q.sender| && TxId(e.hash, p) == TxId(e.hash, q) && !SameContent(p, q)
  {
    hide Preimage, SanitizeTx, CheckTx, TxId, SameContent, MerkleOf, BlockHash;
    SamePreimage(e, a, b);
    var i := FirstDifference(a.Txs(), b.Txs());
    DecodeAlike(e, a.Txs()[i], b.Txs()[i]);
  }

  /** The collision behind two consistent blocks of one hash that differ in header or transactions:
      their preimages, or the canonical bytes of the first transactions that differ. */
  function BlockCollision(e: Engine, a: Block, b: Block): (c: Collision)
    requires Consistent(e, a) && Consistent(e, b) && a.hash == b.hash && !SameCovered(a, b)
    ensures c.Of(e.hash)
  {
    HexEncodeInjective(e.hash(Preimage(a)), e.hash(Preimage(b)));
    if Preimage(a) != Preimage(b) then Collision(Preimage(a), Preimage(b))
    else
      SamePreimageDifferentTx(e, a, b);
      var i := FirstDifference(a.Txs(), b.Txs());
      TxCollision(e.hash, a.Txs()[i], b.Txs()[i])
  }

  /** Tampering with header or transactions of an acceptable block under its hash: the result is
      refused, or it yields a collision. */
  lemma TamperingRefused(e: Engine, g: Accounts, s: State, b: Block, t: Block)
    requires ValidState(e, g, s) && Accepts(e, s.blocks, s.balances, b)
    requires t.hash == b.hash && !SameCovered(b, t)
    ensures Accepts(e, s.blocks, s.balances, t) ==>
              Consistent(e, b) && Consistent(e, t) && BlockCollision(e, b, t).Of(e.hash)
  {
    hide ValidChain, Accepts, Consistent, Replay;
    AcceptedIsConsistent(e, g, s.blocks, b);
    if Accepts(e, s.blocks, s.balances, t) {
      AcceptedIsConsistent(e, g, s.blocks, t);
    }
  }

  // ---------------------------------------------------------------------------
  // What the header alone commits to
  // ---------------------------------------------------------------------------

  lemma SignedIds(e: Engine, txs: seq<Transaction>)
    requires Signed(e, txs)
    ensures CanonicalIds(txs)
  {
    forall i | 0 <= i < |txs|
      ensures CanonicalId(txs[i].id)
    {
      assert CheckTx(e, txs[i]).Pass?;
      HexRoundTrip(e.hash(Canonical(txs[i])));
    }
  }

  lemma SameIdsSameDigests(e: Engine, a: Block, b: Block, i: nat)
    requires Consistent(e, a) && Consistent(e, b) && i < |a.Txs()| && i < |b.Txs()|
    requires a.Txs()[i].id == b.Txs()[i].id
    ensures TxId(e.hash, a.Txs()[i]) == TxId(e.hash, b.Txs()[i])
  {
    hide TxId, MerkleOf, BlockHash;
    assert CheckTx(e, a.Txs()[i]).Pass? && CheckTx(e, b.Txs()[i]).Pass?;
  }

  /** The header commits to the transactions through the Merkle root alone, without the block hash: two
      consistent blocks of one root and equally many transactions that differ in the content of
      transaction `i`, its senders of one length, yield a collision. */
  function ContentCollision(e: Engine, a: Block, b: Block, i: nat): (c: Collision)
    requires Consistent(e, a) && Consistent(e, b) && a.header.merkleRoot == b.header.merkleRoot
    requires |a.Txs()| == |b.Txs()| && i < |a.Txs()|
    requires |a.Txs()[i].sender| == |b.Txs()[i].sender| && !SameContent(a.Txs()[i], b.Txs()[i])
    ensures c.Of(e.hash)
  {
    if a.Txs()[i].id == b.Txs()[i].id then
      SameIdsSameDigests(e, a, b, i);
      TxCollision(e.hash, a.Txs()[i], b.Txs()[i])
    else
      SignedIds(e, a.Txs());
      SignedIds(e, b.Txs());
      MerkleCollision(e.hash, a.Txs(), b.Txs(), i)
  }

  // ---------------------------------------------------------------------------
  // A block on the wire
  // ---------------------------------------------------------------------------

  lemma DecodedDiffersInReceiver(e: Engine, b: Block)
    requires Consistent(e, b) && !ValidBlock(b)
    ensures |SanitizeBlock(b).Txs()| == |b.Txs()| && SanitizeBlock(b).Txs() != b.Txs()
    ensures SanitizeBlock(b).header == b.header && SanitizeBlock(b).hash == b.hash
    ensures var i := FirstDifference(b.Txs(), SanitizeBlock(b).Txs());
            var (p, q) := (b.Txs()[i], SanitizeBlock(b).Txs()[i]);
            q == p.(receiver := q.receiver) && q.receiver != p.receiver && p.id == TxId(e.hash, p)
  {
    hide MerkleOf, Sanitize, CheckTx, TxId, ValidText, SanitizeEach;
    HeaderIsText(e, b);
    AsciiSanitize(b.hash);
    SanitizeHeaderFixpoint(b.header);
    SanitizeFixpoint(b.hash);
    SanitizeTxsFixpoint(b.transactions);
    var i := FirstDifference(b.Txs(), SanitizeBlock(b).Txs());
    TxIsText(e, b.Txs()[i]);
  }

  /** A block a ledger has accepted reaches its peers unchanged exactly when its text is valid. If it
      is not, some receiver's name is altered by the way, and every ledger refuses the decoded block:
      if all its transactions passed, two byte strings with one digest would be at hand. */
  lemma AlteredOnTheWireIsRefused(d: Decoder, e: Engine, b: Block, blocks: seq<Block>, m: Accounts)
    requires d.ReadsBack()
    requires Consistent(e, b) && !ValidBlock(b) && |blocks| > 0
    ensures d.block(MarshalPayload(b)) == Some(SanitizeBlock(b)) && SanitizeBlock(b) != b
    ensures Accepts(e, blocks, m, SanitizeBlock(b)) ==>
              && |SanitizeBlock(b).Txs()| == |b.Txs()| && SanitizeBlock(b).Txs() != b.Txs()
              && var i := FirstDifference(b.Txs(), SanitizeBlock(b).Txs());
                 var (p, q) := (b.Txs()[i], SanitizeBlock(b).Txs()[i]);
                 && |p.sender| == |q.sender| && TxId(e.hash, p) == TxId(e.hash, q) && !SameContent(p, q)
                 && TxCollision(e.hash, p, q).Of(e.hash)
  {
    hide MarshalPayload, SanitizeBlock, Consistent, Accepts, CheckTx, TxId, ValidBlock;
    DecodedDiffersInReceiver(e, b);
    if Accepts(e, blocks, m, SanitizeBlock(b)) {
      var i := FirstDifference(b.Txs(), SanitizeBlock(b).Txs());
      AcceptedIsSigned(e, blocks, m, SanitizeBlock(b));
      TxIsText(e, SanitizeBlock(b).Txs()[i]);
    }
  }

  lemma AcceptedIsSigned(e: Engine, blocks: seq<Block>, m: Accounts, b: Block)
    requires |blocks| > 0 && Accepts(e, blocks, m, b)
    ensures Signed(e, b.Txs())
  {
    hide Accepts, Signed, Funded, MerkleOf, BlockHash;
    AcceptsExactly(e, blocks, m, b);
  }

  // ---------------------------------------------------------------------------
  // The whole history
  // ---------------------------------------------------------------------------

  /** The blocks from 1 to `h` agree in what their hashes cover. */
  predicate SameHistory(a: seq<Block>, b: seq<Block>, h: nat)
    requires h < |a| && h < |b|
  {
    forall i :: 0 < i <= h ==> SameCovered(a[i], b[i])
  }

  lemma LinkBack(e: Engine, g: Accounts, a: seq<Block>, g': Accounts, b: seq<Block>, h: nat)
    requires ValidChain(e, g, a) && ValidChain(e, g', b)
    requires 0 < h < |a| && h < |b| && a[h].header == b[h].header
    ensures a[h - 1].hash == b[h - 1].hash
  {
    hide ValidChain, Signed, MerkleOf, BlockHash;
    ChainShape(e, g, a, h);
    ChainShape(e, g', b, h);
  }

  /** The highest block up to `h` at which two chains differ. */
  function LastDifference(a: seq<Block>, b: seq<Block>, h: nat): (i: nat)
    requires h < |a| && h < |b| && !SameHistory(a, b, h)
    ensures 0 < i <= h && !SameCovered(a[i], b[i])
    ensures forall j :: i < j <= h ==> SameCovered(a[j], b[j])
  {
    if !SameCovered(a[h], b[h]) then h else LastDifference(a, b, h - 1)
  }

  /** Where everything up to `h` agrees above `i`, equal hashes at `h` reach down to `i`. */
  lemma {:induction false} HashesAgreeBelow(
      e: Engine, g: Accounts, a: seq<Block>, g': Accounts, b: seq<Block>, h: nat, i: nat)
    requires ValidChain(e, g, a) && ValidChain(e, g', b)
    requires i <= h < |a| && h < |b| && a[h].hash == b[h].hash
    requires forall j :: i < j <= h ==> SameCovered(a[j], b[j])
    ensures a[i].hash == b[i].hash
    decreases h
  {
    hide ValidChain;
    if i < h {
      LinkBack(e, g, a, g', b, h);
      HashesAgreeBelow(e, g, a, g', b, h - 1, i);
    }
  }

  lemma LastDifferenceReady(e: Engine, g: Accounts, a: seq<Block>, g': Accounts, b: seq<Block>, h: nat)
    requires ValidChain(e, g, a) && ValidChain(e, g', b)
    requires h < |a| && h < |b| && a[h].hash == b[h].hash && !SameHistory(a, b, h)
    ensures var i := LastDifference(a, b, h);
            Consistent(e, a[i]) && Consistent(e, b[i]) && a[i].hash == b[i].hash
  {
    hide ValidChain, Consistent, SameCovered;
    var i := LastDifference(a, b, h);
    CommittedIsConsistent(e, g, a, i);
    CommittedIsConsistent(e, g', b, i);
    HashesAgreeBelow(e, g, a, g', b, h, i);
  }

  /** The collision behind two chains with one hash at height `h` and different histories below: it
      is at the highest block that differs. The genesis balances need not agree. */
  function ChainCollision(e: Engine, g: Accounts, a: seq<Block>, g': Accounts, b: seq<Block>, h: nat): (c: Collision)
    requires ValidChain(e, g, a) && ValidChain(e, g', b)
    requires h < |a| && h < |b| && a[h].hash == b[h].hash && !SameHistory(a, b, h)
    ensures c.Of(e.hash)
  {
    LastDifferenceReady(e, g, a, g', b, h);
    BlockCollision(e, a[LastDifference(a, b, h)], b[LastDifference(a, b, h)])
  }

  lemma {:induction false} SameHistorySameReplay(g: Accounts, a: seq<Block>, b: seq<Block>, h: nat)
    requires h < |a| && h < |b| && SameHistory(a, b, h) && a[0] == b[0]
    ensures Replay(g, a[..h + 1]) == Replay(g, b[..h + 1])
  {
    hide ApplyAll;
    assert a[..h + 1][..h] == a[..h] && b[..h + 1][..h] == b[..h];
    if h == 0 {
      assert a[..0] == b[..0];
    } else {
      SameHistorySameReplay(g, a, b, h - 1);
      assert SameCovered(a[h], b[h]);
    }
  }

  lemma CancelModulo(x: uint64, y: uint64, u: int, v: int)
    requires u - x == v - y
    ensures u % TWO_64 == v % TWO_64 <==> x == y
  {
  }

  lemma FlowFromStart(g: Accounts, g': Accounts, txs: seq<Transaction>, k: Bytes)
    ensures Flow(g, txs, k) - Bal(g, k) == Flow(g', txs, k) - Bal(g', k)
  {
    hide Bal, Received, Sent;
  }

  /** The same transactions over two maps: the balances of an account agree exactly if they did before. */
  lemma BalancesAgreeExactly(g: Accounts, g': Accounts, txs: seq<Transaction>, k: Bytes)
    ensures Bal(ApplyAll(g, txs), k) == Bal(ApplyAll(g', txs), k) <==> Bal(g, k) == Bal(g', k)
  {
    hide Bal, ApplyAll, Flow;
    FlowFromStart(g, g', txs, k);
    BalanceModulo(g, txs, k);
    BalanceModulo(g', txs, k);
    CancelModulo(Bal(g, k), Bal(g', k), Flow(g, txs, k), Flow(g', txs, k));
  }

  /** Equal hashes at one height of two ledgers, seeded alike or not: all blocks up to there agree, or
      two distinct preimages with one digest are at hand. If they agree, so do the balances at that height,
      of exactly the accounts on which the genesis maps agree: the hash does not bind those. */
  lemma HashBindsHistory(e: Engine, g: Accounts, a: seq<Block>, g': Accounts, b: seq<Block>, h: nat)
    requires ValidChain(e, g, a) && ValidChain(e, g', b)
    requires h < |a| && h < |b| && a[h].hash == b[h].hash
    ensures SameHistory(a, b, h) ==>
              && (forall k ::
                    Bal(Replay(g, a[..h + 1]), k) == Bal(Replay(g', b[..h + 1]), k) <==> Bal(g, k) == Bal(g', k))
              && (g == g' ==> Replay(g, a[..h + 1]) == Replay(g', b[..h + 1]))
    ensures !SameHistory(a, b, h) ==> ChainCollision(e, g, a, g', b, h).Of(e.hash)
  {
    hide ValidChain, Replay, SameHistory, Bal, ApplyAll;
    if SameHistory(a, b, h) {
      GenesisFirst(e, g, a);
      GenesisFirst(e, g', b);
      SameHistorySameReplay(g', a, b, h);
      ReplayIsApply(g, a[..h + 1]);
      ReplayIsApply(g', a[..h + 1]);
      forall k
        ensures Bal(Replay(g, a[..h + 1]), k) == Bal(Replay(g', b[..h + 1]), k) <==> Bal(g, k) == Bal(g', k)
      {
        BalancesAgreeExactly(g, g', AllTxs(a[..h + 1]), k);
      }
    }
  }

  /** One hash at two different heights above genesis is a collision. */
  lemma HashBindsHeight(e: Engine, g: Accounts, a: seq<Block>, g': Accounts, b: seq<Block>, h: nat, k: nat)
    requires ValidChain(e, g, a) && ValidChain(e, g', b)
    requires 0 < h < |a| && 0 < k < |b| && h != k && a[h].hash == b[k].hash
    ensures Consistent(e, a[h]) && Consistent(e, b[k]) && !SameCovered(a[h], b[k])
    ensures BlockCollision(e, a[h], b[k]).Of(e.hash)
  {
    hide ValidChain, Consistent, Signed, MerkleOf, BlockHash;
    CommittedIsConsistent(e, g, a, h);
    CommittedIsConsistent(e, g', b, k);
    ChainShape(e, g, a, h);
    ChainShape(e, g', b, k);
  }
}
