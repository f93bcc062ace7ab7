/**
  The balance map in raw 64-bit arithmetic: what applying transactions does to it, when it wraps,
  and how it relates to the amounts received and sent.
 */
module Balances {
  import opened ByteStrings
  import opened Types

  type Accounts = map<Bytes, uint64>

  /** Reading a Go map: an absent account has balance zero. */
  function Bal(m: Accounts, a: Bytes): uint64 {
    if a in m then m[a] else 0
  }

  /** `m[a] -= x` on uint64. */
  function Debit(m: Accounts, a: Bytes, x: uint64): Accounts {
    m[a := (Bal(m, a) - x) % TWO_64]
  }

  /** `m[a] += x` on uint64. */
  function Credit(m: Accounts, a: Bytes, x: uint64): Accounts {
    m[a := (Bal(m, a) + x) % TWO_64]
  }

  function ApplyTx(m: Accounts, tx: Transaction): Accounts {
    Credit(Debit(m, tx.sender, tx.amount), tx.receiver, tx.amount)
  }

  function ApplyAll(m: Accounts, txs: seq<Transaction>): Accounts {
    if |txs| == 0 then m else ApplyTx(ApplyAll(m, txs[..|txs| - 1]), txs[|txs| - 1])
  }

  /** One turn of the loop that applies a block. */
  lemma ApplyNext(m: Accounts, txs: seq<Transaction>, i: nat)
    requires i < |txs|
    ensures ApplyAll(m, txs[..i + 1]) == ApplyTx(ApplyAll(m, txs[..i]), txs[i])
  {
    assert txs[..i + 1][..i] == txs[..i];
  }

  // ---------------------------------------------------------------------------
  // Flows, over unbounded integers
  // ---------------------------------------------------------------------------

  function Received(txs: seq<Transaction>, a: Bytes): nat {
    if |txs| == 0 then 0
    else Received(txs[..|txs| - 1], a) + if txs[|txs| - 1].receiver == a then txs[|txs| - 1].amount else 0
  }

  function Sent(txs: seq<Transaction>, a: Bytes): nat {
    if |txs| == 0 then 0
    else Sent(txs[..|txs| - 1], a) + if txs[|txs| - 1].sender == a then txs[|txs| - 1].amount else 0
  }

  /** Starting balance plus received minus sent. */
  function Flow(m: Accounts, txs: seq<Transaction>, a: Bytes): int {
    Bal(m, a) + Received(txs, a) - Sent(txs, a)
  }

  lemma BalanceStep(m: Accounts, tx: Transaction, a: Bytes)
    ensures Bal(ApplyTx(m, tx), a) ==
            (Bal(m, a) - (if tx.sender == a then tx.amount else 0)
                       + (if tx.receiver == a then tx.amount else 0)) % TWO_64
  {
  }

  lemma ModShift(x: int, y: int, d: int)
    requires x == y % TWO_64
    ensures (x + d) % TWO_64 == (y + d) % TWO_64
  {
  }

  /** On every input the balance is the flow modulo 2^64. */
  lemma {:induction false} BalanceModulo(m: Accounts, txs: seq<Transaction>, a: Bytes)
    ensures Bal(ApplyAll(m, txs), a) == Flow(m, txs, a) % TWO_64
  {
    hide ApplyTx, Bal;
    if |txs| > 0 {
      var init, last := txs[..|txs| - 1], txs[|txs| - 1];
      BalanceModulo(m, init, a);
      BalanceStep(ApplyAll(m, init), last, a);
      ModShift(Bal(ApplyAll(m, init), a), Flow(m, init, a),
               (if last.receiver == a then last.amount else 0) - (if last.sender == a then last.amount else 0));
    }
  }

  // ---------------------------------------------------------------------------
  // The total supply
  // ---------------------------------------------------------------------------

  ghost function SumOver(m: Accounts, ks: set<Bytes>): nat {
    if ks == {} then 0
    else
      var k :| k in ks;
      Bal(m, k) + SumOver(m, ks - {k})
  }

  ghost function Total(m: Accounts): nat {
    SumOver(m, m.Keys)
  }

  /** Any key may be taken out first. */
  lemma {:induction false} SumTakeOut(m: Accounts, ks: set<Bytes>, k: Bytes)
    requires k in ks
    ensures SumOver(m, ks) == Bal(m, k) + SumOver(m, ks - {k})
    decreases ks
  {
    var j :| j in ks && SumOver(m, ks) == Bal(m, j) + SumOver(m, ks - {j});
    if j != k {
      SumTakeOut(m, ks - {j}, k);
      SumTakeOut(m, ks - {k}, j);
      assert ks - {j} - {k} == ks - {k} - {j};
    }
  }

  lemma {:induction false} SumAgree(m: Accounts, n: Accounts, ks: set<Bytes>)
    requires forall k :: k in ks ==> Bal(m, k) == Bal(n, k)
    ensures SumOver(m, ks) == SumOver(n, ks)
    decreases ks
  {
    if ks != {} {
      var k :| k in ks;
      SumTakeOut(m, ks, k);
      SumTakeOut(n, ks, k);
      SumAgree(m, n, ks - {k});
    }
  }

  lemma TotalUpdate(m: Accounts, k: Bytes, v: uint64)
    ensures Total(m[k := v]) == Total(m) - Bal(m, k) + v
  {
    var n := m[k := v];
    var others := m.Keys - {k};
    SumAgree(m, n, others);
    SumTakeOut(n, n.Keys, k);
    assert n.Keys - {k} == others;
    if k in m {
      SumTakeOut(m, m.Keys, k);
    } else {
      assert others == m.Keys;
    }
  }

  lemma BalanceWithinTotal(m: Accounts, k: Bytes)
    ensures Bal(m, k) <= Total(m)
  {
    if k in m {
      SumTakeOut(m, m.Keys, k);
    }
  }

  lemma TotalDebit(m: Accounts, a: Bytes, x: uint64)
    ensures Total(Debit(m, a, x)) % TWO_64 == (Total(m) - x) % TWO_64
  {
    hide Total, Bal;
    var v: uint64 := (Bal(m, a) - x) % TWO_64;
    TotalUpdate(m, a, v);
    ModShift(v, Bal(m, a) - x, Total(m) - Bal(m, a));
  }

  lemma TotalCredit(m: Accounts, a: Bytes, x: uint64)
    ensures Total(Credit(m, a, x)) % TWO_64 == (Total(m) + x) % TWO_64
  {
    hide Total, Bal;
    var v: uint64 := (Bal(m, a) + x) % TWO_64;
    TotalUpdate(m, a, v);
    ModShift(v, Bal(m, a) + x, Total(m) - Bal(m, a));
  }

  lemma TotalStep(m: Accounts, tx: Transaction)
    ensures Total(ApplyTx(m, tx)) % TWO_64 == Total(m) % TWO_64
  {
    hide Total, Debit, Credit;
    var d := Debit(m, tx.sender, tx.amount);
    TotalDebit(m, tx.sender, tx.amount);
    TotalCredit(d, tx.receiver, tx.amount);
    ModShift(Total(d) % TWO_64, Total(m) - tx.amount, tx.amount);
    ModShift(Total(d) % TWO_64, Total(d), tx.amount);
  }

  /** On every input the total is kept modulo 2^64. */
  lemma {:induction false} TotalModulo(m: Accounts, txs: seq<Transaction>)
    ensures Total(ApplyAll(m, txs)) % TWO_64 == Total(m) % TWO_64
  {
    hide Total, ApplyTx;
    if |txs| > 0 {
      TotalModulo(m, txs[..|txs| - 1]);
      TotalStep(ApplyAll(m, txs[..|txs| - 1]), txs[|txs| - 1]);
    }
  }

  // ---------------------------------------------------------------------------
  // Wrap-around
  // ---------------------------------------------------------------------------

  /** Neither the subtraction nor the addition of `tx` wraps. */
  predicate NoWrap(m: Accounts, tx: Transaction) {
    && tx.amount <= Bal(m, tx.sender)
    && Bal(Debit(m, tx.sender, tx.amount), tx.receiver) + tx.amount < TWO_64
  }

  predicate NeverWraps(m: Accounts, txs: seq<Transaction>) {
    forall i {:trigger txs[..i]} :: 0 <= i < |txs| ==> NoWrap(ApplyAll(m, txs[..i]), txs[i])
  }

  /** Each sender holds the amount when its transaction is reached: the balance check. */
  predicate Funded(m: Accounts, txs: seq<Transaction>) {
    forall i {:trigger txs[..i]} :: 0 <= i < |txs| ==> txs[i].amount <= Bal(ApplyAll(m, txs[..i]), txs[i].sender)
  }

  lemma FundedPrefix(m: Accounts, txs: seq<Transaction>, n: nat)
    requires n <= |txs| && Funded(m, txs)
    ensures Funded(m, txs[..n])
  {
    forall i | 0 <= i < n
      ensures txs[..n][i].amount <= Bal(ApplyAll(m, txs[..n][..i]), txs[..n][i].sender)
    {
      assert txs[..n][..i] == txs[..i];
    }
  }

  lemma FundedSnoc(m: Accounts, txs: seq<Transaction>)
    requires |txs| > 0
    ensures var (init, last) := (txs[..|txs| - 1], txs[|txs| - 1]);
            Funded(m, txs) <==> Funded(m, init) && last.amount <= Bal(ApplyAll(m, init), last.sender)
  {
    hide ApplyAll, Bal;
    var init := txs[..|txs| - 1];
    if Funded(m, txs) {
      FundedPrefix(m, txs, |init|);
    }
    forall i | 0 <= i < |init|
      ensures init[..i] == txs[..i] && init[i] == txs[i]
    {
    }
  }

  /** One funded transaction under a total that fits 64 bits, sender and receiver equal or not. */
  lemma FundedStep(m: Accounts, tx: Transaction)
    requires Total(m) <= MAX_UINT64 && tx.amount <= Bal(m, tx.sender)
    ensures NoWrap(m, tx) && Total(ApplyTx(m, tx)) == Total(m)
  {
    var d := Debit(m, tx.sender, tx.amount);
    assert d[tx.sender] == Bal(m, tx.sender) - tx.amount;
    TotalUpdate(m, tx.sender, d[tx.sender]);
    BalanceWithinTotal(d, tx.receiver);
    TotalUpdate(d, tx.receiver, Bal(d, tx.receiver) + tx.amount);
  }

  lemma FundedBalance(m: Accounts, tx: Transaction, a: Bytes)
    requires NoWrap(m, tx)
    ensures Bal(ApplyTx(m, tx), a) ==
            Bal(m, a) - (if tx.sender == a then tx.amount else 0) + (if tx.receiver == a then tx.amount else 0)
  {
  }

  /** Conservation: the total is kept and nothing wraps. */
  lemma {:induction false} Conservation(m: Accounts, txs: seq<Transaction>)
    requires Total(m) <= MAX_UINT64 && Funded(m, txs)
    ensures Total(ApplyAll(m, txs)) == Total(m)
    ensures NeverWraps(m, txs)
  {
    hide ApplyTx, Bal, Total, NoWrap;
    if |txs| > 0 {
      var init, last := txs[..|txs| - 1], txs[|txs| - 1];
      FundedPrefix(m, txs, |init|);
      Conservation(m, init);
      FundedStep(ApplyAll(m, init), last);
      forall i | 0 <= i < |txs|
        ensures NoWrap(ApplyAll(m, txs[..i]), txs[i])
      {
        if i < |init| {
          assert init[..i] == txs[..i] && init[i] == txs[i];
        }
      }
    }
  }

  /** The map is the view of the flows: every balance is start plus received minus sent. */
  lemma {:induction false} BalanceIsFlow(m: Accounts, txs: seq<Transaction>, a: Bytes)
    requires Total(m) <= MAX_UINT64 && Funded(m, txs)
    ensures Bal(ApplyAll(m, txs), a) == Flow(m, txs, a)
  {
    hide ApplyTx, Bal, Total, NoWrap, NeverWraps;
    if |txs| > 0 {
      var init, last := txs[..|txs| - 1], txs[|txs| - 1];
      FundedPrefix(m, txs, |init|);
      BalanceIsFlow(m, init, a);
      Conservation(m, init);
      FundedStep(ApplyAll(m, init), last);
      FundedBalance(ApplyAll(m, init), last, a);
    }
  }

  /** Every sender's flow up to its transaction covers the amount. */
  predicate Covered(m: Accounts, txs: seq<Transaction>) {
    forall i {:trigger txs[..i]} :: 0 <= i < |txs| ==> txs[i].amount <= Flow(m, txs[..i], txs[i].sender)
  }

  lemma FundedIsCovered(m: Accounts, txs: seq<Transaction>)
    requires Total(m) <= MAX_UINT64 && Funded(m, txs)
    ensures Covered(m, txs)
  {
    hide ApplyAll, Bal, Total, Flow;
    forall i | 0 <= i < |txs|
      ensures txs[i].amount <= Flow(m, txs[..i], txs[i].sender)
    {
      FundedPrefix(m, txs, i);
      BalanceIsFlow(m, txs[..i], txs[i].sender);
    }
  }

  lemma {:induction false} CoveredIsFunded(m: Accounts, txs: seq<Transaction>)
    requires Total(m) <= MAX_UINT64 && Covered(m, txs)
    ensures Funded(m, txs)
  {
    hide ApplyAll, Bal, Total, Flow;
    if |txs| > 0 {
      var init := txs[..|txs| - 1];
      forall i | 0 <= i < |txs|
        ensures txs[i].amount <= Bal(ApplyAll(m, txs[..i]), txs[i].sender)
      {
        assert Covered(m, init) by {
          assert forall j :: 0 <= j < |init| ==> init[..j] == txs[..j];
        }
        CoveredIsFunded(m, init);
        if i < |init| {
          assert init[..i] == txs[..i] && init[i] == txs[i];
        } else {
          BalanceIsFlow(m, init, txs[i].sender);
        }
      }
    }
  }

  /** The balance check passes exactly when the flows cover the amounts. */
  lemma FundedExactly(m: Accounts, txs: seq<Transaction>)
    requires Total(m) <= MAX_UINT64
    ensures Funded(m, txs) <==> Covered(m, txs)
  {
    hide Funded, Covered, Total;
    if Funded(m, txs) {
      FundedIsCovered(m, txs);
    }
    if Covered(m, txs) {
      CoveredIsFunded(m, txs);
    }
  }

  // ---------------------------------------------------------------------------
  // One transaction in front
  // ---------------------------------------------------------------------------

  lemma {:induction false} ApplyFirst(m: Accounts, tx: Transaction, txs: seq<Transaction>)
    ensures ApplyAll(m, [tx] + txs) == ApplyAll(ApplyTx(m, tx), txs)
  {
    var all := [tx] + txs;
    if |txs| == 0 {
      assert all[..|all| - 1] == [];
    } else {
      ApplyFirst(m, tx, txs[..|txs| - 1]);
      assert all[..|all| - 1] == [tx] + txs[..|txs| - 1];
    }
  }

  lemma FundedFirst(m: Accounts, tx: Transaction, txs: seq<Transaction>)
    requires tx.amount <= Bal(m, tx.sender) && Funded(ApplyTx(m, tx), txs)
    ensures Funded(m, [tx] + txs)
  {
    var all := [tx] + txs;
    forall i | 0 <= i < |all|
      ensures all[i].amount <= Bal(ApplyAll(m, all[..i]), all[i].sender)
    {
      if i == 0 {
        assert all[..0] == [];
      } else {
        ApplyFirst(m, tx, txs[..i - 1]);
        assert all[..i] == [tx] + txs[..i - 1];
      }
    }
  }
}
