/**
  The chain of a ledger as a value: the state reached by any run of AddBlock calls, what every such
  state satisfies, and the balance map as a view of the whole chain.
 */
module Chain {
  import opened ByteStrings
  import opened Base
  import opened Types
  import opened Hashing
  import opened Merkle
  import opened Balances
  import opened Validation

  const GENESIS: Block :=
    Block(Header(0, Zeros(64), 0, ZERO_MERKLE_ROOT, 0), Slice([]), Zeros(64), Nil, Nil)

  datatype State = State(blocks: seq<Block>, balances: Accounts)

  function Init(g: Accounts): State {
    State([GENESIS], g)
  }

  /** AddBlock: append and apply, or leave everything as it is. */
  function Add(e: Engine, s: State, b: Block): State
    requires |s.blocks| > 0
  {
    if Accepts(e, s.blocks, s.balances, b) then State(s.blocks + [b], ApplyAll(s.balances, b.Txs())) else s
  }

  /** A run: any blocks handed to AddBlock one after the other, accepted or not. */
  function Run(e: Engine, s: State, attempts: seq<Block>): (r: State)
    requires |s.blocks| > 0
    ensures |r.blocks| > 0
  {
    if |attempts| == 0 then s else Add(e, Run(e, s, attempts[..|attempts| - 1]), attempts[|attempts| - 1])
  }

  /** The balances after the transactions of all blocks, from the genesis balances. */
  function Replay(g: Accounts, blocks: seq<Block>): Accounts {
    if |blocks| == 0 then g else ApplyAll(Replay(g, blocks[..|blocks| - 1]), blocks[|blocks| - 1].Txs())
  }

  /** The genesis block, and then blocks that were each acceptable in their turn. */
  predicate ValidChain(e: Engine, g: Accounts, blocks: seq<Block>): (valid: bool)
    ensures valid ==> |blocks| > 0
  {
    && |blocks| > 0
    && blocks[0] == GENESIS
    && forall i {:trigger Accepts(e, blocks[..i], Replay(g, blocks[..i]), blocks[i])} :: 0 < i < |blocks| ==>
         Accepts(e, blocks[..i], Replay(g, blocks[..i]), blocks[i])
  }

  /** What every ledger keeps: a valid chain, and balances that replaying it gives. */
  predicate ValidState(e: Engine, g: Accounts, s: State): (valid: bool)
    ensures valid ==> |s.blocks| > 0
  {
    ValidChain(e, g, s.blocks) && s.balances == Replay(g, s.blocks)
  }

  // ---------------------------------------------------------------------------
  // Runs
  // ---------------------------------------------------------------------------

  lemma ReplayGenesis(g: Accounts)
    ensures Replay(g, [GENESIS]) == g
  {
    assert [GENESIS][..0] == [];
    assert ApplyAll(g, []) == g;
  }

  lemma InitIsValid(e: Engine, g: Accounts)
    ensures ValidState(e, g, Init(g))
  {
    hide Accepts, Replay;
    ReplayGenesis(g);
  }

  lemma AppendKeepsValid(e: Engine, g: Accounts, blocks: seq<Block>, b: Block)
    requires ValidChain(e, g, blocks) && Accepts(e, blocks, Replay(g, blocks), b)
    ensures ValidChain(e, g, blocks + [b])
  {
    hide Accepts, Replay;
    var all := blocks + [b];
    forall i | 0 < i < |all|
      ensures Accepts(e, all[..i], Replay(g, all[..i]), all[i])
    {
      assert all[..i] == blocks[..i];
      if i == |blocks| {
        assert blocks[..i] == blocks;
      }
    }
  }

  lemma AddKeepsValid(e: Engine, g: Accounts, s: State, b: Block)
    requires ValidState(e, g, s)
    ensures ValidState(e, g, Add(e, s, b))
  {
    hide Accepts, ApplyAll, ValidChain;
    if Accepts(e, s.blocks, s.balances, b) {
      AppendKeepsValid(e, g, s.blocks, b);
      assert (s.blocks + [b])[..|s.blocks|] == s.blocks;
    }
  }

  /** Every run from a valid state ends in one. */
  lemma {:induction false} RunKeepsValid(e: Engine, g: Accounts, s: State, attempts: seq<Block>)
    requires ValidState(e, g, s)
    ensures ValidState(e, g, Run(e, s, attempts))
  {
    hide ValidState, Add;
    if |attempts| > 0 {
      RunKeepsValid(e, g, s, attempts[..|attempts| - 1]);
      AddKeepsValid(e, g, Run(e, s, attempts[..|attempts| - 1]), attempts[|attempts| - 1]);
    }
  }

  /** Every run from genesis does. */
  lemma RunIsValid(e: Engine, g: Accounts, attempts: seq<Block>)
    ensures ValidState(e, g, Run(e, Init(g), attempts))
  {
    hide ValidState, Run;
    InitIsValid(e, g);
    RunKeepsValid(e, g, Init(g), attempts);
  }

  lemma RunSnoc(e: Engine, s: State, attempts: seq<Block>, b: Block)
    requires |s.blocks| > 0
    ensures Run(e, s, []) == s
    ensures Run(e, s, attempts + [b]) == Add(e, Run(e, s, attempts), b)
  {
    hide Add;
    assert (attempts + [b])[..|attempts|] == attempts;
  }

  /** Conversely every valid state is reached: by handing its own blocks to a fresh ledger. */
  lemma {:induction false} ValidIsReachable(e: Engine, g: Accounts, s: State)
    requires ValidState(e, g, s)
    ensures Run(e, Init(g), s.blocks[1..]) == s
    decreases |s.blocks|
  {
    hide Accepts, ApplyAll, Run, GENESIS, ValidChain;
    var n := |s.blocks| - 1;
    if n == 0 {
      ReplayGenesis(g);
      GenesisFirst(e, g, s.blocks);
      assert s.blocks == [GENESIS];
      RunSnoc(e, Init(g), [], GENESIS);
    } else {
      var init, last := s.blocks[..n], s.blocks[n];
      PrefixIsValid(e, g, s.blocks, n);
      AcceptedInTurn(e, g, s.blocks, n);
      ValidIsReachable(e, g, State(init, Replay(g, init)));
      assert s.blocks[1..] == init[1..] + [last];
      RunSnoc(e, Init(g), init[1..], last);
      assert init + [last] == s.blocks;
    }
  }

  /** A run only ever extends: the blocks before it stay, in place. */
  lemma {:induction false} RunExtends(e: Engine, s: State, attempts: seq<Block>)
    requires |s.blocks| > 0
    ensures s.blocks <= Run(e, s, attempts).blocks
  {
    hide Accepts, ApplyAll;
    if |attempts| > 0 {
      RunExtends(e, s, attempts[..|attempts| - 1]);
    }
  }

  lemma {:induction false} RunConcat(e: Engine, s: State, a: seq<Block>, b: seq<Block>)
    requires |s.blocks| > 0
    ensures Run(e, s, a + b) == Run(e, Run(e, s, a), b)
  {
    hide Add;
    if |b| == 0 {
      assert a + b == a;
    } else {
      RunConcat(e, s, a, b[..|b| - 1]);
      assert (a + b)[..|a + b| - 1] == a + b[..|b| - 1];
    }
  }

  /** Once a block of some index is in, no block of that index is accepted again: the ledger stays
      as it is. In particular no block is committed twice. */
  lemma CommittedIndexRefused(e: Engine, g: Accounts, s: State, b: Block)
    requires ValidState(e, g, s) && b.header.index < |s.blocks|
    ensures Add(e, s, b) == s
  {
    hide Stage;
  }

  // ---------------------------------------------------------------------------
  // What can be committed at all
  // ---------------------------------------------------------------------------

  /** Some reachable ledger, from some genesis balances, accepts a block that holds `tx`. */
  ghost predicate Committable(e: Engine, tx: Transaction) {
    exists g: Accounts, s: State, b: Block ::
      ValidState(e, g, s) && tx in b.Txs() && Accepts(e, s.blocks, s.balances, b)
  }

  /** The check without a look at balances passes exactly the transactions that can be committed at all:
      it refuses none that some ledger would take, and passes none that every ledger would refuse. */
  lemma CheckTxExactly(e: Engine, tx: Transaction)
    ensures CheckTx(e, tx).Pass? <==> Committable(e, tx)
  {
    hide ValidState, Accepts, CheckTx, BareBlock, Funded;
    if CheckTx(e, tx).Pass? {
      var g: Accounts := map[tx.sender := tx.amount];
      var s := Init(g);
      InitIsValid(e, g);
      JustOne(e, g, tx);
      BareAccepted(e, s.blocks, g, [tx]);
      assert tx in BareBlock(e, s.blocks, [tx]).Txs();
    }
    if Committable(e, tx) {
      var g: Accounts, s: State, b: Block :|
        ValidState(e, g, s) && tx in b.Txs() && Accepts(e, s.blocks, s.balances, b);
      AcceptsExactly(e, s.blocks, s.balances, b);
      var i: nat :| i < |b.Txs()| && b.Txs()[i] == tx;
      assert CheckTx(e, b.Txs()[i]).Pass?;
    }
  }

  /** Over an empty map only transfers of nothing pass the balance check. */
  lemma NothingToSpend(txs: seq<Transaction>, i: nat)
    requires Funded(map[], txs) && i < |txs|
    ensures txs[i].amount == 0
  {
    hide ApplyAll, Bal;
    FundedPrefix(map[], txs, i);
    Conservation(map[], txs[..i]);
    BalanceWithinTotal(ApplyAll(map[], txs[..i]), txs[i].sender);
    assert txs[i].amount <= Bal(ApplyAll(map[], txs[..i]), txs[i].sender);
  }

  /** What the check leaves out: it agrees with the one that looks at balances exactly on the transactions
      that fail it anyway and on those that the balances cover. Every transaction of a positive amount that
      passes it, passes it on a ledger on which it is not covered. */
  lemma BalanceUnchecked(e: Engine, tx: Transaction, m: Accounts)
    ensures CheckTx(e, tx) == CheckTxWith(e, tx, m) <==> CheckTx(e, tx).Fail? || tx.amount <= Bal(m, tx.sender)
    ensures CheckTx(e, tx).Pass? && tx.amount > 0 ==>
              && ValidState(e, map[], Init(map[]))
              && CheckTxWith(e, tx, Init(map[]).balances) == Fail(InsufficientBalance)
              && forall b: Block :: tx in b.Txs() ==> Add(e, Init(map[]), b) == Init(map[])
  {
    hide CheckTx, ValidState, Accepts, Funded;
    InitIsValid(e, map[]);
    if tx.amount > 0 {
      forall b: Block | tx in b.Txs()
        ensures !Accepts(e, Init(map[]).blocks, map[], b)
      {
        AcceptsExactly(e, Init(map[]).blocks, map[], b);
        if Funded(map[], b.Txs()) {
          var i: nat :| i < |b.Txs()| && b.Txs()[i] == tx;
          NothingToSpend(b.Txs(), i);
        }
      }
    }
  }

  // ---------------------------------------------------------------------------
  // Shape
  // ---------------------------------------------------------------------------

  /** Every block after genesis was accepted on top of exactly the blocks before it. */
  lemma AcceptedInTurn(e: Engine, g: Accounts, blocks: seq<Block>, i: nat)
    requires ValidChain(e, g, blocks) && 0 < i < |blocks|
    ensures Accepts(e, blocks[..i], Replay(g, blocks[..i]), blocks[i])
  {
    hide Accepts, Replay;
  }

  lemma PrefixIsValid(e: Engine, g: Accounts, blocks: seq<Block>, n: nat)
    requires ValidChain(e, g, blocks) && 0 < n <= |blocks|
    ensures ValidChain(e, g, blocks[..n])
  {
    hide Accepts, Replay;
    forall i | 0 < i < n
      ensures Accepts(e, blocks[..n][..i], Replay(g, blocks[..n][..i]), blocks[..n][i])
    {
      assert blocks[..n][..i] == blocks[..i];
      AcceptedInTurn(e, g, blocks, i);
    }
  }

  /** The shape of the chain: index is position, each block names its predecessor's hash, Merkle
      root and hash are what recomputation gives, and a given producer key has signed the hash. */
  lemma ChainShape(e: Engine, g: Accounts, blocks: seq<Block>, i: nat)
    requires ValidChain(e, g, blocks) && 0 < i < |blocks|
    ensures var b := blocks[i];
            && b.header.index == i
            && b.header.previousHash == blocks[i - 1].hash
            && b.header.merkleRoot == MerkleOf(e.hash, b.Txs())
            && b.hash == BlockHash(e.hash, b)
            && Signed(e, b.Txs())
            && (|b.producerKey.Elems()| > 0 ==> e.verify(b.hash, b.signature, b.producerKey))
  {
    hide Accepts, Replay, Signed, MerkleOf, BlockHash, Funded;
    AcceptedInTurn(e, g, blocks, i);
    AcceptsExactly(e, blocks[..i], Replay(g, blocks[..i]), blocks[i]);
  }

  lemma GenesisFirst(e: Engine, g: Accounts, blocks: seq<Block>)
    requires ValidChain(e, g, blocks)
    ensures blocks[0] == GENESIS
  {
    hide Accepts, Replay;
  }

  // ---------------------------------------------------------------------------
  // The balance map over the whole chain
  // ---------------------------------------------------------------------------

  /** All transactions of the chain, in order. */
  function AllTxs(blocks: seq<Block>): seq<Transaction> {
    if |blocks| == 0 then [] else AllTxs(blocks[..|blocks| - 1]) + blocks[|blocks| - 1].Txs()
  }

  lemma {:induction false} ApplyConcat(m: Accounts, a: seq<Transaction>, b: seq<Transaction>)
    ensures ApplyAll(m, a + b) == ApplyAll(ApplyAll(m, a), b)
  {
    hide ApplyTx;
    if |b| == 0 {
      assert a + b == a;
    } else {
      ApplyConcat(m, a, b[..|b| - 1]);
      assert (a + b)[..|a + b| - 1] == a + b[..|b| - 1];
    }
  }

  lemma {:induction false} ReplayIsApply(g: Accounts, blocks: seq<Block>)
    ensures Replay(g, blocks) == ApplyAll(g, AllTxs(blocks))
  {
    hide ApplyAll;
    if |blocks| == 0 {
      ApplyNothing(g);
    } else {
      var init := blocks[..|blocks| - 1];
      ReplayIsApply(g, init);
      ApplyConcat(g, AllTxs(init), blocks[|blocks| - 1].Txs());
    }
  }

  lemma ApplyNothing(m: Accounts)
    ensures ApplyAll(m, []) == m
  {
  }

  lemma FundedConcatAt(m: Accounts, a: seq<Transaction>, b: seq<Transaction>, i: nat)
    requires Funded(m, a) && Funded(ApplyAll(m, a), b) && i < |a + b|
    ensures (a + b)[i].amount <= Bal(ApplyAll(m, (a + b)[..i]), (a + b)[i].sender)
  {
    hide ApplyAll, Bal;
    if i < |a| {
      assert (a + b)[..i] == a[..i];
    } else {
      var j := i - |a|;
      ApplyConcat(m, a, b[..j]);
      assert (a + b)[..i] == a + b[..j];
      assert b[j].amount <= Bal(ApplyAll(ApplyAll(m, a), b[..j]), b[j].sender);
    }
  }

  lemma FundedConcat(m: Accounts, a: seq<Transaction>, b: seq<Transaction>)
    requires Funded(m, a) && Funded(ApplyAll(m, a), b)
    ensures Funded(m, a + b)
  {
    hide ApplyAll, Bal;
    forall i | 0 <= i < |a + b|
      ensures (a + b)[i].amount <= Bal(ApplyAll(m, (a + b)[..i]), (a + b)[i].sender)
    {
      FundedConcatAt(m, a, b, i);
    }
  }

  /** Every committed transaction was affordable at the exact point of the chain where it stands. */
  lemma {:induction false} ChainFunded(e: Engine, g: Accounts, blocks: seq<Block>)
    requires ValidChain(e, g, blocks)
    ensures Funded(g, AllTxs(blocks))
    decreases |blocks|
  {
    hide Accepts, ApplyAll, Bal, Funded, ValidChain;
    var init, last := blocks[..|blocks| - 1], blocks[|blocks| - 1];
    if |blocks| == 1 {
      GenesisFirst(e, g, blocks);
      assert init == [] && AllTxs(blocks) == [];
      StageNothing(e, g);
    } else {
      PrefixIsValid(e, g, blocks, |init|);
      AcceptedInTurn(e, g, blocks, |init|);
      ChainFunded(e, g, init);
      ReplayIsApply(g, init);
      AcceptsExactly(e, init, Replay(g, init), last);
      FundedConcat(g, AllTxs(init), last.Txs());
    }
  }

  /** Conservation over the life of a ledger whose genesis total fits 64 bits: the total never
      changes, no subtraction or addition ever wraps, and every balance is the genesis balance plus
      everything received minus everything sent. */
  lemma ChainConservation(e: Engine, g: Accounts, s: State)
    requires ValidState(e, g, s) && Total(g) <= MAX_UINT64
    ensures Total(s.balances) == Total(g)
    ensures NeverWraps(g, AllTxs(s.blocks))
    ensures forall a :: Bal(s.balances, a) == Flow(g, AllTxs(s.blocks), a)
    ensures Covered(g, AllTxs(s.blocks))
  {
    hide ValidChain, Total, Funded, NeverWraps, Covered, Flow, Bal, Replay, ApplyAll;
    var txs := AllTxs(s.blocks);
    ChainFunded(e, g, s.blocks);
    ReplayIsApply(g, s.blocks);
    Conservation(g, txs);
    FundedIsCovered(g, txs);
    forall a
      ensures Bal(s.balances, a) == Flow(g, txs, a)
    {
      BalanceIsFlow(g, txs, a);
    }
  }

  /** On any genesis balances at all: total and balances agree modulo 2^64. */
  lemma ChainConservationModulo(e: Engine, g: Accounts, s: State)
    requires ValidState(e, g, s)
    ensures Total(s.balances) % TWO_64 == Total(g) % TWO_64
    ensures forall a :: Bal(s.balances, a) == Flow(g, AllTxs(s.blocks), a) % TWO_64
  {
    hide ValidChain, Total, Flow, Bal, Replay, ApplyAll;
    var txs := AllTxs(s.blocks);
    ReplayIsApply(g, s.blocks);
    TotalModulo(g, txs);
    forall a
      ensures Bal(s.balances, a) == Flow(g, txs, a) % TWO_64
    {
      BalanceModulo(g, txs, a);
    }
  }

  // ---------------------------------------------------------------------------
  // Signatures over the whole chain
  // ---------------------------------------------------------------------------

  lemma SignedConcat(e: Engine, a: seq<Transaction>, b: seq<Transaction>)
    requires Signed(e, a) && Signed(e, b)
    ensures Signed(e, a + b)
  {
    hide CheckTx;
  }

  lemma {:induction false} ChainSigned(e: Engine, g: Accounts, blocks: seq<Block>)
    requires ValidChain(e, g, blocks)
    ensures Signed(e, AllTxs(blocks))
    decreases |blocks|
  {
    hide Accepts, ValidChain, Signed, Funded, Replay, MerkleOf, BlockHash;
    var init, last := blocks[..|blocks| - 1], blocks[|blocks| - 1];
    if |blocks| == 1 {
      GenesisFirst(e, g, blocks);
      assert init == [] && AllTxs(blocks) == [];
      StageNothing(e, g);
    } else {
      PrefixIsValid(e, g, blocks, |init|);
      ChainSigned(e, g, init);
      ChainShape(e, g, blocks, |init|);
      SignedConcat(e, AllTxs(init), last.Txs());
    }
  }

  /** Every transaction of a reachable chain has a sender in hex, the hex digest of its canonical bytes for
      an ID, and a signature on these bytes that verifies under the sender's key. */
  lemma ChainSignedOutright(e: Engine, g: Accounts, blocks: seq<Block>, i: nat)
    requires ValidChain(e, g, blocks) && i < |AllTxs(blocks)|
    ensures var tx := AllTxs(blocks)[i];
            && HexDecode(tx.sender).Some?
            && tx.id == HexEncode(e.hash(Canonical(tx)))
            && e.verify(Canonical(tx), tx.signature, Slice(HexDecode(tx.sender).value))
  {
    hide ValidChain, AllTxs, Signed, HexDecode, HexEncode, Canonical;
    ChainSigned(e, g, blocks);
    SignedOutright(e, AllTxs(blocks));
  }

  /** Nobody spends for a key that nobody can sign for: no reachable chain holds a transaction of it, and its
      account never falls below its genesis balance, if the genesis total fits 64 bits. */
  lemma UnsignableNeverSpends(e: Engine, g: Accounts, s: State, account: Bytes)
    requires ValidState(e, g, s) && HexDecode(account).Some?
    requires forall msg: Bytes, signature: Slice<byte> ::
               !e.verify(msg, signature, Slice(HexDecode(account).value))
    ensures forall i :: 0 <= i < |AllTxs(s.blocks)| ==> AllTxs(s.blocks)[i].sender != account
    ensures Total(g) <= MAX_UINT64 ==> Bal(s.balances, account) >= Bal(g, account)
  {
    hide ValidChain, AllTxs, HexDecode, HexEncode, Canonical, Bal, Total, NeverWraps, Covered, Replay;
    var txs := AllTxs(s.blocks);
    forall i | 0 <= i < |txs|
      ensures txs[i].sender != account
    {
      ChainSignedOutright(e, g, s.blocks, i);
    }
    NothingSent(txs, account);
    if Total(g) <= MAX_UINT64 {
      ChainConservation(e, g, s);
      assert Bal(s.balances, account) == Flow(g, txs, account);
    }
  }

  lemma {:induction false} NothingSent(txs: seq<Transaction>, a: Bytes)
    requires forall i :: 0 <= i < |txs| ==> txs[i].sender != a
    ensures Sent(txs, a) == 0
  {
    if |txs| > 0 {
      NothingSent(txs[..|txs| - 1], a);
    }
  }

  /** The genesis block. */
  lemma GenesisOutright()
    ensures var b := GENESIS;
            && b.header.index == 0 && b.header.timestamp == 0 && b.header.nonce == 0
            && |b.hash| == |b.header.previousHash| == |b.header.merkleRoot| == 64
            && (forall i :: 0 <= i < 64 ==>
                  b.hash[i] == b.header.previousHash[i] == b.header.merkleRoot[i] == '0' as int)
            && b.transactions == Slice([]) && b.signature == Nil && b.producerKey == Nil
  {
  }
}
