/** The bytes that are hashed for a transaction ID and for a block hash, and what they determine. */
module Hashing {
  import opened ByteStrings
  import opened Base
  import opened Types
  import opened JsonValues
  import opened BlockJson

  // ---------------------------------------------------------------------------
  // Transactions
  // ---------------------------------------------------------------------------

  /** Sender, receiver, amount and timestamp, the numbers in 8 big-endian bytes. */
  function Canonical(tx: Transaction): Bytes {
    tx.sender + tx.receiver + BigEndian(tx.amount, 8) + BigEndian(ToUnsigned(tx.timestamp), 8)
  }

  function TxId(h: Hash, tx: Transaction): (id: Bytes)
    ensures Ascii(id) && |id| == 64
  {
    HexEncode(h(Canonical(tx)))
  }

  /** The signed content of a transaction: everything but ID and signature. */
  predicate SameContent(a: Transaction, b: Transaction) {
    a.sender == b.sender && a.receiver == b.receiver && a.amount == b.amount && a.timestamp == b.timestamp
  }

  lemma BigEndian64(n: uint64)
    ensures FromBigEndian(BigEndian(n, 8)) == n
  {
    Pow256Values();
    BigEndianRoundTrip(n, 8);
  }

  /** Canonical bytes taken apart: the two addresses run together, the amount and the timestamp. */
  function ParseCanonical(t: Bytes): (Bytes, int, int)
    requires |t| >= 16
  {
    var u := FromBigEndian(t[|t| - 8..]);
    (t[..|t| - 16], FromBigEndian(t[|t| - 16..|t| - 8]), if u < TWO_64 then FromUnsigned(u) else u)
  }

  /** The layout is recovered by big-endian and two's-complement inversion. */
  lemma CanonicalRoundTrip(tx: Transaction)
    ensures |Canonical(tx)| >= 16
    ensures ParseCanonical(Canonical(tx)) == (tx.sender + tx.receiver, tx.amount as int, tx.timestamp as int)
  {
    hide BigEndian, FromBigEndian;
    var t := Canonical(tx);
    BigEndian64(tx.amount);
    BigEndian64(ToUnsigned(tx.timestamp));
    assert t[|t| - 8..] == BigEndian(ToUnsigned(tx.timestamp), 8);
    assert t[|t| - 16..|t| - 8] == BigEndian(tx.amount, 8);
    assert t[..|t| - 16] == tx.sender + tx.receiver;
  }

  /** What is built reads back as what it was built from. */
  method CanonicalTxBytes(tx: Transaction) returns (buf: Bytes)
    ensures buf == Canonical(tx)
    ensures |buf| >= 16
    ensures ParseCanonical(buf) == (tx.sender + tx.receiver, tx.amount as int, tx.timestamp as int)
  {
    hide ParseCanonical;
    buf := [];
    buf := buf + tx.sender;
    buf := buf + tx.receiver;
    var amount := BigEndian(tx.amount, 8);
    buf := buf + amount;
    var timestamp := BigEndian(ToUnsigned(tx.timestamp), 8);
    buf := buf + timestamp;
    CanonicalRoundTrip(tx);
  }

  /** The canonical bytes determine both numbers and the two addresses run together, no more. */
  lemma CanonicalExactly(a: Transaction, b: Transaction)
    ensures Canonical(a) == Canonical(b) <==>
              && a.sender + a.receiver == b.sender + b.receiver
              && a.amount == b.amount && a.timestamp == b.timestamp
  {
    hide BigEndian, ParseCanonical;
    CanonicalRoundTrip(a);
    CanonicalRoundTrip(b);
  }

  /** The eight bytes of a 64-bit number, the highest first. */
  function Bytes8(n: int): Bytes {
    [n / 0x100_0000_0000_0000 % 256, n / 0x1_0000_0000_0000 % 256, n / 0x100_0000_0000 % 256,
     n / 0x1_0000_0000 % 256, n / 0x100_0000 % 256, n / 0x1_0000 % 256, n / 0x100 % 256, n % 256]
  }

  /** The canonical bytes, byte by byte; the timestamp in two's complement. */
  lemma CanonicalOutright(tx: Transaction)
    ensures Canonical(tx) ==
            tx.sender + tx.receiver + Bytes8(tx.amount) + Bytes8(tx.timestamp % 0x1_0000_0000_0000_0000)
  {
    hide BigEndian, ToUnsigned;
    BigEndianOf64(tx.amount);
    ToUnsignedModulo(tx.timestamp);
    BigEndianOf64(ToUnsigned(tx.timestamp));
  }

  /** With senders of one length the canonical bytes determine the whole content. */
  lemma CanonicalInjective(a: Transaction, b: Transaction)
    requires |a.sender| == |b.sender| && Canonical(a) == Canonical(b)
    ensures SameContent(a, b)
  {
    CanonicalExactly(a, b);
    assert a.sender == (a.sender + a.receiver)[..|a.sender|] && b.sender == (b.sender + b.receiver)[..|b.sender|];
    assert a.receiver == (a.sender + a.receiver)[|a.sender|..];
    assert b.receiver == (b.sender + b.receiver)[|b.sender|..];
  }

  /** Without that, the boundary between sender and receiver can move under one ID. */
  lemma BoundaryNotBound(h: Hash, tx: Transaction, n: nat)
    requires n <= |tx.receiver|
    ensures TxId(h, tx.(sender := tx.sender + tx.receiver[..n], receiver := tx.receiver[n..])) == TxId(h, tx)
  {
    var moved := tx.(sender := tx.sender + tx.receiver[..n], receiver := tx.receiver[n..]);
    assert moved.sender + moved.receiver == tx.sender + tx.receiver;
    CanonicalExactly(moved, tx);
  }

  /** The collision behind two transactions of different content and one ID. */
  function TxCollision(h: Hash, a: Transaction, b: Transaction): (c: Collision)
    requires |a.sender| == |b.sender| && TxId(h, a) == TxId(h, b) && !SameContent(a, b)
    ensures c.Of(h)
  {
    HexEncodeInjective(h(Canonical(a)), h(Canonical(b)));
    assert Canonical(a) != Canonical(b) by {
      if Canonical(a) == Canonical(b) {
        CanonicalInjective(a, b);
      }
    }
    Collision(Canonical(a), Canonical(b))
  }

  // ---------------------------------------------------------------------------
  // Blocks
  // ---------------------------------------------------------------------------

  /** The JSON of the header and the JSON of the transactions, run together. */
  function Preimage(b: Block): Bytes {
    MarshalHeader(b.header) + MarshalTxs(b.transactions)
  }

  function BlockHash(h: Hash, b: Block): (hash: Bytes)
    ensures Ascii(hash) && |hash| == 64
  {
    HexEncode(h(Preimage(b)))
  }

  /** A block hash is the lower-case hex of the digest of both texts, the header's first. */
  lemma BlockHashOutright(h: Hash, b: Block)
    ensures BlockHash(h, b) == HexEncode(h(PutHeader(b.header, PutTxs(b.transactions, []))))
  {
    hide PutHeader, PutTxs;
    HeaderAppend(b.header, MarshalTxs(b.transactions));
  }

  /** Reads a preimage back. */
  function ParsePreimage(t: Bytes): Option<(Header, Slice<Transaction>)> {
    match ParseHeader(t)
    case NoParse => None
    case Got(header, t1) =>
      match ParseTxs(t1)
      case NoParse => None
      case Got(txs, t2) => if t2 == [] then Some((header, txs)) else None
  }

  lemma HeaderAppend(h: Header, k: Bytes)
    ensures MarshalHeader(h) + k == PutHeader(h, k)
  {
    hide PutIntField, PutTextField, Lit;
    var k5 := Lit("}", []);
    var k4 := PutIntField(",\"nonce\":", h.nonce, k5);
    var k3 := PutTextField(",\"merkle_root\":", h.merkleRoot, k4);
    var k2 := PutIntField(",\"timestamp\":", h.timestamp, k3);
    var k1 := PutTextField(",\"previous_hash\":", h.previousHash, k2);
    IntFieldAppend("{\"index\":", h.index, k1, k);
    TextFieldAppend(",\"previous_hash\":", h.previousHash, k2, k);
    IntFieldAppend(",\"timestamp\":", h.timestamp, k3, k);
    TextFieldAppend(",\"merkle_root\":", h.merkleRoot, k4, k);
    IntFieldAppend(",\"nonce\":", h.nonce, k5, k);
    LitAppend("}", [], k);
    assert [] + k == k;
  }

  /** The preimage determines header and transactions, read as text. */
  lemma PreimageRoundTrip(b: Block)
    ensures ParsePreimage(Preimage(b)) == Some((SanitizeHeader(b.header), SanitizeTxs(b.transactions)))
  {
    hide PutHeader, PutTxs, ParseHeader, ParseTxs;
    HeaderAppend(b.header, MarshalTxs(b.transactions));
    HeaderRoundTrip(b.header, MarshalTxs(b.transactions));
    TxsRoundTrip(b.transactions, []);
  }

  /** The strings that are hashed are valid UTF-8. */
  predicate ValidCovered(b: Block) {
    ValidHeader(b.header) && ValidTxs(b.Txs())
  }

  /** A block of valid text shares its preimage with no block of other header or transactions; nil and
      empty slices are told apart. Nothing is assumed of the other block. */
  lemma PreimageInjective(a: Block, b: Block)
    requires ValidCovered(b) && Preimage(a) == Preimage(b)
    ensures a.header == b.header && a.transactions == b.transactions
  {
    hide PutHeader, PutTxs;
    HeaderAppend(a.header, MarshalTxs(a.transactions));
    HeaderAppend(b.header, MarshalTxs(b.transactions));
    HeaderDetermines(a.header, b.header, MarshalTxs(a.transactions), MarshalTxs(b.transactions));
    TxsDetermine(a.transactions, b.transactions, [], []);
  }

  /** A block of other header or transactions and the same preimage. */
  function TwinBlock(b: Block): (t: Block)
    requires !ValidCovered(b)
    ensures t.header != b.header || t.transactions != b.transactions
  {
    if !ValidHeader(b.header) then b.(header := TwinHeader(b.header))
    else b.(transactions := Slice(TwinTxs(b.transactions.items)))
  }

  lemma TwinBlockHashesAlike(b: Block)
    requires !ValidCovered(b)
    ensures Preimage(TwinBlock(b)) == Preimage(b)
  {
    hide PutHeader, PutElements, TwinHeader, TwinTxs;
    if !ValidHeader(b.header) {
      TwinHeaderPrintsAlike(b.header, []);
    } else {
      TwinTxsPrintAlike(b.transactions.items, []);
    }
  }

  /** Exactly the blocks of valid text are determined by their preimage. */
  lemma PreimageBindsExactly(b: Block)
    ensures ValidCovered(b) <==>
              forall a: Block :: Preimage(a) == Preimage(b) ==> a.header == b.header && a.transactions == b.transactions
  {
    hide Preimage, ValidCovered, TwinBlock;
    if ValidCovered(b) {
      forall a: Block | Preimage(a) == Preimage(b)
        ensures a.header == b.header && a.transactions == b.transactions
      {
        PreimageInjective(a, b);
      }
    } else {
      TwinBlockHashesAlike(b);
      assert TwinBlock(b).header != b.header || TwinBlock(b).transactions != b.transactions;
    }
  }
}
