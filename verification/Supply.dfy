/**
  The bound under which the supply is conserved is exact: where the balances of a genesis map add up to
  more than 64 bits hold, and its keys can sign, a ledger commits a chain that overflows an account.
 */
module Supply {
  import opened ByteStrings
  import opened Base
  import opened Types
  import opened Hashing
  import opened Balances
  import opened Validation
  import opened Chain

  /** Some signature on `msg` verifies under `key`. */
  ghost predicate CanSign(e: Engine, msg: Bytes, key: Slice<byte>) {
    exists signature: Slice<byte> :: e.verify(msg, signature, key)
  }

  /** The account is the hex text of a key under which every message can be signed. */
  ghost predicate Signable(e: Engine, account: Bytes) {
    && HexDecode(account).Some?
    && forall msg: Bytes :: CanSign(e, msg, Slice(HexDecode(account).value))
  }

  ghost predicate AllSignable(e: Engine, m: Accounts) {
    forall a :: a in m ==> Signable(e, a)
  }

  /** `tx` moves all that its sender holds. */
  predicate Sweeps(m: Accounts, tx: Transaction) {
    tx.sender != tx.receiver && tx.amount == Bal(m, tx.sender)
  }

  /** A transfer of everything `a` holds to `b` that passes the checks of ID and signature. */
  lemma SignedSweep(e: Engine, m: Accounts, a: Bytes, b: Bytes) returns (tx: Transaction)
    requires a != b && Signable(e, a)
    ensures tx.sender == a && tx.receiver == b && Sweeps(m, tx)
    ensures CheckTx(e, tx).Pass?
  {
    hide Canonical, HexDecode, TxId;
    var bare := Transaction([], a, b, Bal(m, a), Nil, 0);
    assert CanSign(e, Canonical(bare), Slice(HexDecode(a).value));
    var signature: Slice<byte> :| e.verify(Canonical(bare), signature, Slice(HexDecode(a).value));
    tx := bare.(id := TxId(e.hash, bare), signature := signature);
    CanonicalExactly(tx, bare);
    assert TxId(e.hash, tx) == TxId(e.hash, bare) by {
      SameBytesSameId(e.hash, tx, bare);
    }
  }

  lemma SameBytesSameId(h: Hash, a: Transaction, b: Transaction)
    requires Canonical(a) == Canonical(b)
    ensures TxId(h, a) == TxId(h, b)
  {
  }

  lemma SweepMoves(m: Accounts, tx: Transaction)
    requires Sweeps(m, tx)
    ensures var (a, b) := (tx.sender, tx.receiver);
            && (NoWrap(m, tx) <==> Bal(m, a) + Bal(m, b) <= MAX_UINT64)
            && (Bal(m, a) + Bal(m, b) <= MAX_UINT64 ==> Bal(ApplyTx(m, tx), b) == Bal(m, a) + Bal(m, b))
            && (forall k :: k != a && k != b ==> Bal(ApplyTx(m, tx), k) == Bal(m, k))
  {
  }

  lemma SignedFirst(e: Engine, tx: Transaction, txs: seq<Transaction>)
    requires CheckTx(e, tx).Pass? && Signed(e, txs)
    ensures Signed(e, [tx] + txs)
  {
    hide CheckTx;
  }

  /** Above 2^64 - 1 a list of transactions that a ledger accepts wraps: accounts are swept into one until
      it overflows. */
  lemma {:induction false} SweepOverflows(e: Engine, m: Accounts, t: Bytes, ks: set<Bytes>)
    returns (txs: seq<Transaction>)
    requires t !in ks && Bal(m, t) + SumOver(m, ks) > MAX_UINT64
    requires forall k :: k in ks ==> Signable(e, k)
    ensures |txs| > 0 && Signed(e, txs) && Funded(m, txs)
    ensures !NoWrap(ApplyAll(m, txs[..|txs| - 1]), txs[|txs| - 1])
    decreases ks
  {
    hide Bal, ApplyTx, NoWrap, Signable, CheckTx;
    var k :| k in ks;
    SumTakeOut(m, ks, k);
    var tx := SignedSweep(e, m, k, t);
    SweepMoves(m, tx);
    if Bal(m, t) + Bal(m, k) > MAX_UINT64 {
      txs := [tx];
      assert txs[..0] == [];
    } else {
      var n := ApplyTx(m, tx);
      SumAgree(m, n, ks - {k});
      var rest := SweepOverflows(e, n, t, ks - {k});
      txs := [tx] + rest;
      SignedFirst(e, tx, rest);
      FundedFirst(m, tx, rest);
      ApplyFirst(m, tx, rest[..|rest| - 1]);
      assert txs[..|txs| - 1] == [tx] + rest[..|rest| - 1];
    }
  }

  lemma OverTheCap(e: Engine, m: Accounts) returns (txs: seq<Transaction>)
    requires Total(m) > MAX_UINT64 && AllSignable(e, m)
    ensures Stage(e, m, txs).Staged? && !NeverWraps(m, txs)
  {
    hide Signed, Funded, NoWrap, Signable, Stage;
    var t :| t in m;
    SumTakeOut(m, m.Keys, t);
    txs := SweepOverflows(e, m, t, m.Keys - {t});
    StageIsApply(e, m, txs);
  }

  /** No list that a ledger with these balances accepts ever wraps exactly when they add up to at most
      2^64 - 1. */
  lemma CapIsExact(e: Engine, m: Accounts)
    requires AllSignable(e, m)
    ensures Total(m) <= MAX_UINT64 <==>
              forall txs: seq<Transaction> :: Stage(e, m, txs).Staged? ==> NeverWraps(m, txs)
  {
    hide Stage, NeverWraps, Total, AllSignable, Signed, Funded;
    if Total(m) <= MAX_UINT64 {
      forall txs: seq<Transaction> | Stage(e, m, txs).Staged?
        ensures NeverWraps(m, txs)
      {
        StageIsApply(e, m, txs);
        Conservation(m, txs);
      }
    } else {
      var txs := OverTheCap(e, m);
    }
  }

  lemma OneBlock(e: Engine, g: Accounts, b: Block)
    requires Accepts(e, Init(g).blocks, g, b)
    ensures AllTxs(Add(e, Init(g), b).blocks) == b.Txs()
  {
    hide Accepts, ApplyAll;
    var blocks := [GENESIS, b];
    assert Init(g).blocks + [b] == blocks;
    assert blocks[..1] == [GENESIS];
    assert [GENESIS][..0] == [];
    assert AllTxs([GENESIS]) == [];
  }

  /** The same for whole chains: no reachable ledger has ever wrapped exactly when the genesis balances
      add up to at most 2^64 - 1. */
  lemma ChainCapIsExact(e: Engine, g: Accounts)
    requires AllSignable(e, g)
    ensures Total(g) <= MAX_UINT64 <==>
              forall s: State :: ValidState(e, g, s) ==> NeverWraps(g, AllTxs(s.blocks))
  {
    hide ValidState, NeverWraps, Total, AllSignable, AllTxs, Stage, Add, BareBlock, Accepts, Signed, Funded, GENESIS;
    if Total(g) <= MAX_UINT64 {
      forall s: State | ValidState(e, g, s)
        ensures NeverWraps(g, AllTxs(s.blocks))
      {
        ChainConservation(e, g, s);
      }
    } else {
      var txs := OverTheCap(e, g);
      StageIsApply(e, g, txs);
      var s := Init(g);
      var b := BareBlock(e, s.blocks, txs);
      BareAccepted(e, s.blocks, g, txs);
      InitIsValid(e, g);
      AddKeepsValid(e, g, s, b);
      OneBlock(e, g, b);
    }
  }
}
