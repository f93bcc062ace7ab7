/** The ledger as the object the node shares: its fields, its queries, and AddBlock in place. */
module LedgerObject {
  import opened ByteStrings
  import opened Base
  import opened Types
  import opened Hashing
  import opened Merkle
  import opened Balances
  import opened Validation
  import opened Chain

  // ---------------------------------------------------------------------------
  // Helpers for the loops below
  // ---------------------------------------------------------------------------

  lemma TipIndex(e: Engine, g: Accounts, blocks: seq<Block>)
    requires ValidChain(e, g, blocks)
    ensures blocks[|blocks| - 1].header.index == |blocks| - 1
  {
    hide Accepts, Signed, MerkleOf, BlockHash;
    if |blocks| == 1 {
      GenesisFirst(e, g, blocks);
    } else {
      ChainShape(e, g, blocks, |blocks| - 1);
    }
  }

  /** The live map after a commit is the final staged map. */
  lemma AcceptedIsStaged(e: Engine, s: State, b: Block)
    requires |s.blocks| > 0 && Accepts(e, s.blocks, s.balances, b)
    ensures Stage(e, s.balances, b.Txs()) == Staged(ApplyAll(s.balances, b.Txs()))
  {
    hide Stage, ApplyAll;
    StageIsApply(e, s.balances, b.Txs());
  }

  /** All that AddBlock promises, of the ledger as a value. */
  lemma AddOutcome(e: Engine, g: Accounts, s: State, b: Block)
    requires ValidState(e, g, s)
    ensures var (verdict, t) := (CheckBlock(e, s.blocks, s.balances, b), Add(e, s, b));
            && ValidState(e, g, t)
            && (verdict.Pass? ==>
                  t == State(s.blocks + [b], ApplyAll(s.balances, b.Txs()))
                  && Stage(e, s.balances, b.Txs()) == Staged(t.balances))
            && (verdict.Fail? ==> t == s)
            && (Total(g) <= MAX_UINT64 ==> Total(t.balances) == Total(g))
  {
    hide Stage, Total, CheckBlock, ValidState, ApplyAll;
    AddKeepsValid(e, g, s, b);
    if Total(g) <= MAX_UINT64 {
      ChainConservation(e, g, Add(e, s, b));
    }
    if Accepts(e, s.blocks, s.balances, b) {
      AcceptedIsStaged(e, s, b);
    }
  }

  lemma StageStart(e: Engine, m: Accounts, txs: seq<Transaction>)
    ensures Stage(e, m, txs[..0]) == Staged(m)
  {
  }

  /** One turn of the staging loop. */
  lemma StageNext(e: Engine, m: Accounts, txs: seq<Transaction>, i: nat)
    requires i < |txs| && Stage(e, m, txs[..i]).Staged?
    ensures var s := Stage(e, m, txs[..i]).balances;
            match CheckTxWith(e, txs[i], s)
            case Fail(why) => Stage(e, m, txs[..i + 1]) == Rejected(i, why)
            case Pass => Stage(e, m, txs[..i + 1]) == Staged(ApplyTx(s, txs[i]))
  {
    hide CheckTxWith, ApplyTx;
    assert txs[..i + 1][..i] == txs[..i];
  }

  /** Once a transaction is refused, the rest of the block does not matter. */
  lemma {:induction false} StageStops(e: Engine, m: Accounts, txs: seq<Transaction>, i: nat, why: TxError)
    requires i < |txs| && Stage(e, m, txs[..i + 1]) == Rejected(i, why)
    ensures Stage(e, m, txs) == Rejected(i, why)
    decreases |txs|
  {
    hide CheckTxWith, ApplyTx;
    if i + 1 == |txs| {
      assert txs[..i + 1] == txs;
    } else {
      assert txs[..|txs| - 1][..i + 1] == txs[..i + 1];
      StageStops(e, m, txs[..|txs| - 1], i, why);
    }
  }

  // ---------------------------------------------------------------------------
  // The object
  // ---------------------------------------------------------------------------

  class Ledger {
    const engine: Engine
    var blocks: seq<Block>
    var balances: Accounts
    ghost const genesis: Accounts

    /** The chain is valid from this ledger's genesis balances, and the map is its replay. */
    ghost predicate Valid()
      reads this
    {
      ValidState(engine, genesis, Value())
    }

    /** The ledger as a value. */
    ghost function Value(): State
      reads this
    {
      State(blocks, balances)
    }

    constructor (engine: Engine, genesisBalances: Accounts)
      ensures Valid()
      ensures this.engine == engine && genesis == genesisBalances
      ensures Value() == Init(genesisBalances)
    {
      var copy: Accounts := map[];
      var left := genesisBalances.Keys;
      while left != {}
        invariant left <= genesisBalances.Keys
        invariant copy == map k | k in genesisBalances && k !in left :: genesisBalances[k]
        decreases left
      {
        var k :| k in left;
        copy := copy[k := genesisBalances[k]];
        left := left - {k};
      }
      assert copy == genesisBalances;
      this.engine := engine;
      this.genesis := genesisBalances;
      this.blocks := [GENESIS];
      this.balances := copy;
      InitIsValid(engine, genesisBalances);
    }

    // --- Queries ---

    /** The index that the next block must have. */
    method Height() returns (n: nat)
      requires Valid()
      ensures n == |blocks|
      ensures n == blocks[|blocks| - 1].header.index + 1
      ensures forall b: Block :: Accepts(engine, blocks, balances, b) ==> b.header.index == n
    {
      hide Stage;
      n := |blocks|;
      TipIndex(engine, genesis, blocks);
    }

    /** Zero for an unknown account. */
    method GetBalance(key: Bytes) returns (balance: uint64)
      requires Valid()
      ensures balance == Bal(balances, key)
      ensures balance == Flow(genesis, AllTxs(blocks), key) % TWO_64
      ensures Total(genesis) <= MAX_UINT64 ==> balance == Flow(genesis, AllTxs(blocks), key)
    {
      hide ValidState, Flow, AllTxs, Total;
      ChainConservationModulo(engine, genesis, Value());
      if key in balances {
        balance := balances[key];
      } else {
        balance := 0;
      }
      if Total(genesis) <= MAX_UINT64 {
        ChainConservation(engine, genesis, Value());
      }
    }

    method LatestBlock() returns (b: Block)
      requires Valid()
      ensures b == blocks[|blocks| - 1]
      ensures b.header.index == |blocks| - 1
    {
      b := blocks[|blocks| - 1];
      TipIndex(engine, genesis, blocks);
    }

    // --- Validation ---

    /** Balances play no part: what passes is what some ledger could commit. */
    method ValidateTransaction(tx: Transaction) returns (r: Outcome<TxError>)
      ensures r == CheckTx(engine, tx)
      ensures r == Fail(BadSenderKey) <==> HexDecode(tx.sender).None?
      ensures r == Fail(IdMismatch) <==>
                HexDecode(tx.sender).Some? && tx.id != HexEncode(engine.hash(Canonical(tx)))
      ensures r.Pass? <==>
                && HexDecode(tx.sender).Some?
                && tx.id == HexEncode(engine.hash(Canonical(tx)))
                && engine.verify(Canonical(tx), tx.signature, Slice(HexDecode(tx.sender).value))
      ensures r.Pass? <==> Committable(engine, tx)
    {
      hide Committable, HexDecode, Canonical;
      CheckTxExactly(engine, tx);
      var decoded := HexDecode(tx.sender);
      if decoded.None? {
        return Fail(BadSenderKey);
      }
      var canonical := CanonicalTxBytes(tx);
      var expectedId := HexEncode(engine.hash(canonical));
      if tx.id != expectedId {
        return Fail(IdMismatch);
      }
      if !engine.verify(canonical, tx.signature, Slice(decoded.value)) {
        return Fail(BadSignature);
      }
      return Pass;
    }

    method ValidateTxWithBalances(tx: Transaction, balances: Accounts) returns (r: Outcome<TxError>)
      ensures r == CheckTxWith(engine, tx, balances)
      ensures r.Pass? <==>
                && HexDecode(tx.sender).Some?
                && tx.id == HexEncode(engine.hash(Canonical(tx)))
                && engine.verify(Canonical(tx), tx.signature, Slice(HexDecode(tx.sender).value))
                && tx.amount <= Bal(balances, tx.sender)
      ensures 0 < |blocks| < TWO_63 ==>
                (r.Pass? <==> Accepts(engine, blocks, balances, BareBlock(engine, blocks, [tx])))
    {
      hide Accepts, BareBlock, HexDecode, Canonical;
      if 0 < |blocks| < TWO_63 {
        CheckTxWithExactly(engine, tx, balances, blocks);
      }
      var decoded := HexDecode(tx.sender);
      if decoded.None? {
        return Fail(BadSenderKey);
      }
      var canonical := CanonicalTxBytes(tx);
      var expectedId := HexEncode(engine.hash(canonical));
      if tx.id != expectedId {
        return Fail(IdMismatch);
      }
      if !engine.verify(canonical, tx.signature, Slice(decoded.value)) {
        return Fail(BadSignature);
      }
      if Bal(balances, tx.sender) < tx.amount {
        return Fail(InsufficientBalance);
      }
      return Pass;
    }

    method ValidateBlock(b: Block) returns (r: Outcome<BlockError>)
      requires |blocks| > 0
      ensures r == CheckBlock(engine, blocks, balances, b)
    {
      hide Stage, CheckTxWith, Leaves, Root, Canonical, ValidState, BareBlock, Accepts;
      var last := blocks[|blocks| - 1];
      if b.header.index != |blocks| {
        return Fail(IndexMismatch);
      }
      if b.header.previousHash != last.hash {
        return Fail(PreviousHashMismatch);
      }
      var staged: Accounts := balances;
      var txs := b.Txs();
      StageStart(engine, balances, txs);
      for i := 0 to |txs|
        invariant Stage(engine, balances, txs[..i]) == Staged(staged)
      {
        var checked := ValidateTxWithBalances(txs[i], staged);
        StageNext(engine, balances, txs, i);
        if checked.Fail? {
          StageStops(engine, balances, txs, i, checked.error);
          return Fail(BadTransaction(i, checked.error));
        }
        staged := staged[txs[i].sender := (Bal(staged, txs[i].sender) - txs[i].amount) % TWO_64];
        staged := staged[txs[i].receiver := (Bal(staged, txs[i].receiver) + txs[i].amount) % TWO_64];
      }
      assert txs[..|txs|] == txs;
      var expectedRoot, _ := MerkleRoot(engine.hash, txs);
      if b.header.merkleRoot != expectedRoot {
        return Fail(MerkleRootMismatch);
      }
      var expectedHash := HexEncode(engine.hash(Preimage(b)));
      if b.hash != expectedHash {
        return Fail(HashMismatch);
      }
      if |b.producerKey.Elems()| > 0 {
        if !engine.verify(b.hash, b.signature, b.producerKey) {
          return Fail(BadProducerSignature);
        }
      }
      return Pass;
    }

    /** Commits `b` or leaves the ledger untouched, and says which and why. */
    method AddBlock(b: Block) returns (r: Outcome<BlockError>)
      requires Valid()
      modifies this
      ensures Valid()
      ensures r == CheckBlock(engine, old(blocks), old(balances), b)
      ensures Value() == Add(engine, old(Value()), b)
      ensures r.Pass? ==> blocks == old(blocks) + [b]
      ensures r.Pass? ==> Stage(engine, old(balances), b.Txs()) == Staged(balances)
      ensures r.Fail? ==> blocks == old(blocks) && balances == old(balances)
      ensures Total(genesis) <= MAX_UINT64 ==> Total(balances) == Total(genesis)
    {
      hide Stage, Total, CheckBlock, ValidState, ApplyAll, Add, Bal;
      ghost var before := Value();
      AddOutcome(engine, genesis, before, b);
      r := ValidateBlock(b);
      if r.Fail? {
        return;
      }
      var txs := b.Txs();
      ApplyNothing(balances);
      assert txs[..0] == [];
      for i := 0 to |txs|
        invariant blocks == before.blocks
        invariant balances == ApplyAll(before.balances, txs[..i])
      {
        ApplyNext(before.balances, txs, i);
        balances := balances[txs[i].sender := (Bal(balances, txs[i].sender) - txs[i].amount) % TWO_64];
        balances := balances[txs[i].receiver := (Bal(balances, txs[i].receiver) + txs[i].amount) % TWO_64];
      }
      assert txs[..|txs|] == txs;
      blocks := blocks + [b];
    }
  }
}
