/**
  json.Marshal and json.Unmarshal on the structs of types.go and on the block payload of p2p.go:
  fixed key order, no white space. `Unmarshal` covers the texts `Marshal` prints.
 */
module BlockJson {
  import opened ByteStrings
  import opened Base
  import opened Types
  import opened JsonText
  import opened JsonValues

  // ---------------------------------------------------------------------------
  // What decoding makes of text that is not valid UTF-8
  // ---------------------------------------------------------------------------

  function SanitizeTx(tx: Transaction): Transaction {
    tx.(id := Sanitize(tx.id), sender := Sanitize(tx.sender), receiver := Sanitize(tx.receiver))
  }

  function SanitizeEach(txs: seq<Transaction>): (r: seq<Transaction>)
    ensures |r| == |txs|
    ensures forall i :: 0 <= i < |txs| ==> r[i] == SanitizeTx(txs[i])
  {
    if |txs| == 0 then [] else [SanitizeTx(txs[0])] + SanitizeEach(txs[1..])
  }

  function SanitizeTxs(txs: Slice<Transaction>): Slice<Transaction> {
    if txs.Nil? then Nil else Slice(SanitizeEach(txs.items))
  }

  function SanitizeHeader(h: Header): Header {
    h.(previousHash := Sanitize(h.previousHash), merkleRoot := Sanitize(h.merkleRoot))
  }

  function SanitizeBlock(b: Block): Block {
    b.(header := SanitizeHeader(b.header), transactions := SanitizeTxs(b.transactions), hash := Sanitize(b.hash))
  }

  predicate ValidTx(tx: Transaction) {
    ValidText(tx.id) && ValidText(tx.sender) && ValidText(tx.receiver)
  }

  predicate ValidHeader(h: Header) {
    ValidText(h.previousHash) && ValidText(h.merkleRoot)
  }

  predicate ValidTxs(txs: seq<Transaction>) {
    forall i :: 0 <= i < |txs| ==> ValidTx(txs[i])
  }

  /** Every string of the block is valid UTF-8. */
  predicate ValidBlock(b: Block) {
    ValidHeader(b.header) && ValidTxs(b.Txs()) && ValidText(b.hash)
  }

  // ---------------------------------------------------------------------------
  // Printing
  // ---------------------------------------------------------------------------

  function PutTx(tx: Transaction, k: Bytes): Bytes {
    PutTextField("{\"id\":", tx.id,
    PutTextField(",\"sender\":", tx.sender,
    PutTextField(",\"receiver\":", tx.receiver,
    PutUintField(",\"amount\":", tx.amount,
    PutBlobField(",\"signature\":", tx.signature,
    PutIntField(",\"timestamp\":", tx.timestamp,
    Lit("}", k)))))))
  }

  /** The elements of a non-empty array and its closing bracket. */
  function PutElements(txs: seq<Transaction>, k: Bytes): Bytes
    requires |txs| > 0
  {
    PutTx(txs[0], if |txs| == 1 then Lit("]", k) else Lit(",", PutElements(txs[1..], k)))
  }

  function PutTxs(txs: Slice<Transaction>, k: Bytes): Bytes {
    if txs.Nil? then Lit("null", k)
    else if |txs.items| == 0 then Lit("[]", k)
    else Lit("[", PutElements(txs.items, k))
  }

  function PutHeader(h: Header, k: Bytes): Bytes {
    PutIntField("{\"index\":", h.index,
    PutTextField(",\"previous_hash\":", h.previousHash,
    PutIntField(",\"timestamp\":", h.timestamp,
    PutTextField(",\"merkle_root\":", h.merkleRoot,
    PutIntField(",\"nonce\":", h.nonce,
    Lit("}", k))))))
  }

  function PutBlock(b: Block, k: Bytes): Bytes {
    Lit("{\"header\":", PutHeader(b.header,
    Lit(",\"transactions\":", PutTxs(b.transactions,
    PutTextField(",\"hash\":", b.hash,
    PutBlobField(",\"signature\":", b.signature,
    PutBlobField(",\"producer_key\":", b.producerKey,
    Lit("}", k))))))))
  }

  function MarshalHeader(h: Header): Bytes {
    PutHeader(h, [])
  }

  function MarshalTxs(txs: Slice<Transaction>): Bytes {
    PutTxs(txs, [])
  }

  /** The body of a block message: a struct with the single field "block". */
  function MarshalPayload(b: Block): Bytes {
    Lit("{\"block\":", PutBlock(b, Lit("}", [])))
  }

  /** The body of a transaction message: a struct with the single field "tx". */
  function MarshalTxPayload(tx: Transaction): Bytes {
    Lit("{\"tx\":", PutTx(tx, Lit("}", [])))
  }

  // ---------------------------------------------------------------------------
  // Parsing
  // ---------------------------------------------------------------------------

  function ParseTx(t: Bytes): (p: Parsed<Transaction>)
    ensures p.Got? ==> |p.rest| < |t|
  {
    var (id, t1) :- ParseTextField("{\"id\":", t);
    var (sender, t2) :- ParseTextField(",\"sender\":", t1);
    var (receiver, t3) :- ParseTextField(",\"receiver\":", t2);
    var (amount, t4) :- ParseUintField(",\"amount\":", t3);
    var (signature, t5) :- ParseBlobField(",\"signature\":", t4);
    var (timestamp, t6) :- ParseIntField(",\"timestamp\":", t5);
    var (_, rest) :- ParseLit("}", t6);
    Got(Transaction(id, sender, receiver, amount, signature, timestamp), rest)
  }

  function ParseElements(t: Bytes): (p: Parsed<seq<Transaction>>)
    ensures p.Got? ==> |p.rest| < |t|
    decreases |t|
  {
    var (tx, t1) :- ParseTx(t);
    if ParseLit("]", t1).Got? then Got([tx], ParseLit("]", t1).rest)
    else
      var (_, t2) :- ParseLit(",", t1);
      var (txs, rest) :- ParseElements(t2);
      Got([tx] + txs, rest)
  }

  function ParseTxs(t: Bytes): (p: Parsed<Slice<Transaction>>)
    ensures p.Got? ==> |p.rest| < |t|
  {
    if ParseLit("null", t).Got? then Got(Nil, ParseLit("null", t).rest)
    else if ParseLit("[]", t).Got? then Got(Slice([]), ParseLit("[]", t).rest)
    else
      var (_, t1) :- ParseLit("[", t);
      var (txs, rest) :- ParseElements(t1);
      Got(Slice(txs), rest)
  }

  function ParseHeader(t: Bytes): Parsed<Header> {
    var (index, t1) :- ParseIntField("{\"index\":", t);
    var (previousHash, t2) :- ParseTextField(",\"previous_hash\":", t1);
    var (timestamp, t3) :- ParseIntField(",\"timestamp\":", t2);
    var (merkleRoot, t4) :- ParseTextField(",\"merkle_root\":", t3);
    var (nonce, t5) :- ParseIntField(",\"nonce\":", t4);
    var (_, rest) :- ParseLit("}", t5);
    Got(Header(index, previousHash, timestamp, merkleRoot, nonce), rest)
  }

  function ParseBlock(t: Bytes): Parsed<Block> {
    var (_, t1) :- ParseLit("{\"header\":", t);
    var (header, t2) :- ParseHeader(t1);
    var (_, t3) :- ParseLit(",\"transactions\":", t2);
    var (transactions, t4) :- ParseTxs(t3);
    var (hash, t5) :- ParseTextField(",\"hash\":", t4);
    var (signature, t6) :- ParseBlobField(",\"signature\":", t5);
    var (producerKey, t7) :- ParseBlobField(",\"producer_key\":", t6);
    var (_, rest) :- ParseLit("}", t7);
    Got(Block(header, transactions, hash, signature, producerKey), rest)
  }

  function UnmarshalPayload(t: Bytes): Option<Block> {
    match ParseLit("{\"block\":", t)
    case Got(_, t1) =>
      (match ParseBlock(t1)
       case Got(b, t2) => if t2 == Text("}") then Some(b) else None
       case NoParse => None)
    case NoParse => None
  }

  function UnmarshalTxPayload(t: Bytes): Option<Transaction> {
    match ParseLit("{\"tx\":", t)
    case Got(_, t1) =>
      (match ParseTx(t1)
       case Got(tx, t2) => if t2 == Text("}") then Some(tx) else None
       case NoParse => None)
    case NoParse => None
  }

  // ---------------------------------------------------------------------------
  // Round trips
  // ---------------------------------------------------------------------------

  lemma TxRoundTrip(tx: Transaction, k: Bytes)
    ensures ParseTx(PutTx(tx, k)) == Got(SanitizeTx(tx), k)
  {
    var k6 := Lit("}", k);
    var k5 := PutIntField(",\"timestamp\":", tx.timestamp, k6);
    var k4 := PutBlobField(",\"signature\":", tx.signature, k5);
    var k3 := PutUintField(",\"amount\":", tx.amount, k4);
    var k2 := PutTextField(",\"receiver\":", tx.receiver, k3);
    var k1 := PutTextField(",\"sender\":", tx.sender, k2);
    TextFieldRoundTrip("{\"id\":", tx.id, k1);
    TextFieldRoundTrip(",\"sender\":", tx.sender, k2);
    TextFieldRoundTrip(",\"receiver\":", tx.receiver, k3);
    LitEndsNumber(",\"signature\":", PutBlob(tx.signature, k5));
    UintFieldRoundTrip(",\"amount\":", tx.amount, k4);
    BlobFieldRoundTrip(",\"signature\":", tx.signature, k5);
    LitEndsNumber("}", k);
    IntFieldRoundTrip(",\"timestamp\":", tx.timestamp, k6);
    LitRoundTrip("}", k);
  }

  /** One step of the array parser, after the element has been read. */
  lemma ParseElementsStep(t: Bytes, tx: Transaction, t1: Bytes)
    requires ParseTx(t) == Got(tx, t1)
    ensures ParseLit("]", t1).Got? ==> ParseElements(t) == Got([tx], ParseLit("]", t1).rest)
    ensures ParseLit("]", t1).NoParse? && ParseLit(",", t1).Got? && ParseElements(ParseLit(",", t1).rest).Got? ==>
              var p := ParseElements(ParseLit(",", t1).rest);
              ParseElements(t) == Got([tx] + p.value, p.rest)
  {
  }

  lemma {:induction false} ElementsRoundTrip(txs: seq<Transaction>, k: Bytes)
    requires |txs| > 0
    ensures ParseElements(PutElements(txs, k)) == Got(SanitizeEach(txs), k)
  {
    hide PutTx, ParseTx, ParseElements, ParseLit;
    if |txs| == 1 {
      TxRoundTrip(txs[0], Lit("]", k));
      ParseElementsStep(PutTx(txs[0], Lit("]", k)), SanitizeTx(txs[0]), Lit("]", k));
      LitRoundTrip("]", k);
      assert SanitizeEach(txs) == [SanitizeTx(txs[0])];
    } else {
      var tail := PutElements(txs[1..], k);
      TxRoundTrip(txs[0], Lit(",", tail));
      ParseElementsStep(PutTx(txs[0], Lit(",", tail)), SanitizeTx(txs[0]), Lit(",", tail));
      LitRefused("]", Lit(",", tail), 0);
      LitRoundTrip(",", tail);
      ElementsRoundTrip(txs[1..], k);
    }
  }

  lemma ElementsStart(txs: seq<Transaction>, k: Bytes)
    requires |txs| > 0
    ensures |PutElements(txs, k)| > 0 && PutElements(txs, k)[0] == '{' as int
  {
    hide PutString, PutUintField, PutBlobField, PutIntField;
    assert PutElements(txs, k)[0] == Text("{\"id\":")[0];
  }

  lemma TxsRoundTrip(txs: Slice<Transaction>, k: Bytes)
    ensures ParseTxs(PutTxs(txs, k)) == Got(SanitizeTxs(txs), k)
  {
    hide PutElements, ParseElements, SanitizeEach, ParseLit;
    if txs.Nil? {
      LitRoundTrip("null", k);
    } else if |txs.items| == 0 {
      LitRefused("null", Lit("[]", k), 0);
      LitRoundTrip("[]", k);
    } else {
      var tail := PutElements(txs.items, k);
      LitRefused("null", Lit("[", tail), 0);
      ElementsStart(txs.items, k);
      assert Lit("[", tail)[1] == tail[0];
      LitRefused("[]", Lit("[", tail), 1);
      LitRoundTrip("[", tail);
      ElementsRoundTrip(txs.items, k);
    }
  }

  lemma HeaderRoundTrip(h: Header, k: Bytes)
    ensures ParseHeader(PutHeader(h, k)) == Got(SanitizeHeader(h), k)
  {
    var k5 := Lit("}", k);
    var k4 := PutIntField(",\"nonce\":", h.nonce, k5);
    var k3 := PutTextField(",\"merkle_root\":", h.merkleRoot, k4);
    var k2 := PutIntField(",\"timestamp\":", h.timestamp, k3);
    var k1 := PutTextField(",\"previous_hash\":", h.previousHash, k2);
    LitEndsNumber(",\"previous_hash\":", PutString(h.previousHash, k2));
    IntFieldRoundTrip("{\"index\":", h.index, k1);
    TextFieldRoundTrip(",\"previous_hash\":", h.previousHash, k2);
    LitEndsNumber(",\"merkle_root\":", PutString(h.merkleRoot, k4));
    IntFieldRoundTrip(",\"timestamp\":", h.timestamp, k3);
    TextFieldRoundTrip(",\"merkle_root\":", h.merkleRoot, k4);
    LitEndsNumber("}", k);
    IntFieldRoundTrip(",\"nonce\":", h.nonce, k5);
    LitRoundTrip("}", k);
  }

  lemma BlockRoundTrip(b: Block, k: Bytes)
    ensures ParseBlock(PutBlock(b, k)) == Got(SanitizeBlock(b), k)
  {
    var k6 := Lit("}", k);
    var k5 := PutBlobField(",\"producer_key\":", b.producerKey, k6);
    var k4 := PutBlobField(",\"signature\":", b.signature, k5);
    var k3 := PutTextField(",\"hash\":", b.hash, k4);
    var k2 := PutTxs(b.transactions, k3);
    var k1 := Lit(",\"transactions\":", k2);
    LitRoundTrip("{\"header\":", PutHeader(b.header, k1));
    HeaderRoundTrip(b.header, k1);
    LitRoundTrip(",\"transactions\":", k2);
    TxsRoundTrip(b.transactions, k3);
    TextFieldRoundTrip(",\"hash\":", b.hash, k4);
    BlobFieldRoundTrip(",\"signature\":", b.signature, k5);
    BlobFieldRoundTrip(",\"producer_key\":", b.producerKey, k6);
    LitRoundTrip("}", k);
  }

  /** What a receiver decodes from a broadcast block. */
  lemma PayloadRoundTrip(b: Block)
    ensures UnmarshalPayload(MarshalPayload(b)) == Some(SanitizeBlock(b))
  {
    hide PutBlock, ParseBlock;
    var close := Lit("}", []);
    LitRoundTrip("{\"block\":", PutBlock(b, close));
    BlockRoundTrip(b, close);
    assert close == Text("}");
  }

  lemma TxPayloadRoundTrip(tx: Transaction)
    ensures UnmarshalTxPayload(MarshalTxPayload(tx)) == Some(SanitizeTx(tx))
  {
    hide PutTx, ParseTx;
    var close := Lit("}", []);
    LitRoundTrip("{\"tx\":", PutTx(tx, close));
    TxRoundTrip(tx, close);
    assert close == Text("}");
  }

  lemma SanitizeHeaderFixpoint(h: Header)
    ensures SanitizeHeader(h) == h <==> ValidHeader(h)
  {
    SanitizeFixpoint(h.previousHash);
    SanitizeFixpoint(h.merkleRoot);
  }

  lemma SanitizeTxFixpoint(tx: Transaction)
    ensures SanitizeTx(tx) == tx <==> ValidTx(tx)
  {
    SanitizeFixpoint(tx.id);
    SanitizeFixpoint(tx.sender);
    SanitizeFixpoint(tx.receiver);
  }

  lemma SanitizeTxsFixpoint(txs: Slice<Transaction>)
    ensures SanitizeTxs(txs) == txs <==> ValidTxs(txs.Elems())
  {
    forall i | 0 <= i < |txs.Elems()|
      ensures SanitizeTx(txs.Elems()[i]) == txs.Elems()[i] <==> ValidTx(txs.Elems()[i])
    {
      SanitizeTxFixpoint(txs.Elems()[i]);
    }
    if ValidTxs(txs.Elems()) {
      assert SanitizeEach(txs.Elems()) == txs.Elems();
    }
  }

  // ---------------------------------------------------------------------------
  // What the printed text determines
  // ---------------------------------------------------------------------------

  /** A header of valid text shares its printed form, whatever follows, with no other header. */
  lemma HeaderDetermines(g: Header, h: Header, k: Bytes, l: Bytes)
    requires ValidHeader(h) && PutHeader(g, k) == PutHeader(h, l)
    ensures g == h && k == l
  {
    hide PutIntField, PutTextField, Lit;
    assert SanitizeHeader(g) == SanitizeHeader(h) && k == l by {
      HeaderRoundTrip(g, k);
      HeaderRoundTrip(h, l);
    }
    var g3 := PutTextField(",\"merkle_root\":", g.merkleRoot, PutIntField(",\"nonce\":", g.nonce, Lit("}", k)));
    var h3 := PutTextField(",\"merkle_root\":", h.merkleRoot, PutIntField(",\"nonce\":", h.nonce, Lit("}", l)));
    var g2 := PutIntField(",\"timestamp\":", g.timestamp, g3);
    var h2 := PutIntField(",\"timestamp\":", h.timestamp, h3);
    IntFieldStrip("{\"index\":", g.index,
                  PutTextField(",\"previous_hash\":", g.previousHash, g2),
                  PutTextField(",\"previous_hash\":", h.previousHash, h2));
    TextFieldDetermines(",\"previous_hash\":", g.previousHash, h.previousHash, g2, h2);
    IntFieldStrip(",\"timestamp\":", g.timestamp, g3, h3);
    TextFieldDetermines(",\"merkle_root\":", g.merkleRoot, h.merkleRoot,
                        PutIntField(",\"nonce\":", g.nonce, Lit("}", k)),
                        PutIntField(",\"nonce\":", h.nonce, Lit("}", l)));
  }

  lemma TxDetermines(x: Transaction, y: Transaction, k: Bytes, l: Bytes)
    requires ValidTx(y) && PutTx(x, k) == PutTx(y, l)
    ensures x == y && k == l
  {
    hide PutUintField, PutBlobField, PutIntField, PutTextField, Lit;
    assert SanitizeTx(x) == SanitizeTx(y) && k == l by {
      TxRoundTrip(x, k);
      TxRoundTrip(y, l);
    }
    var tail := PutUintField(",\"amount\":", x.amount,
                PutBlobField(",\"signature\":", x.signature,
                PutIntField(",\"timestamp\":", x.timestamp, Lit("}", k))));
    var x2 := PutTextField(",\"receiver\":", x.receiver, tail);
    var y2 := PutTextField(",\"receiver\":", y.receiver, tail);
    TextFieldDetermines("{\"id\":", x.id, y.id,
                        PutTextField(",\"sender\":", x.sender, x2), PutTextField(",\"sender\":", y.sender, y2));
    TextFieldDetermines(",\"sender\":", x.sender, y.sender, x2, y2);
    TextFieldDetermines(",\"receiver\":", x.receiver, y.receiver, tail, tail);
  }

  lemma {:induction false} ElementsDetermine(xs: seq<Transaction>, ys: seq<Transaction>, k: Bytes, l: Bytes)
    requires |xs| == |ys| > 0 && ValidTxs(ys) && PutElements(xs, k) == PutElements(ys, l)
    ensures xs == ys && k == l
  {
    hide PutTx;
    if |xs| == 1 {
      TxDetermines(xs[0], ys[0], Lit("]", k), Lit("]", l));
      LitStrip("]", k, l);
    } else {
      var tx, ty := PutElements(xs[1..], k), PutElements(ys[1..], l);
      TxDetermines(xs[0], ys[0], Lit(",", tx), Lit(",", ty));
      LitStrip(",", tx, ty);
      ElementsDetermine(xs[1..], ys[1..], k, l);
      assert xs == [xs[0]] + xs[1..] && ys == [ys[0]] + ys[1..];
    }
  }

  lemma TxsDetermine(xs: Slice<Transaction>, ys: Slice<Transaction>, k: Bytes, l: Bytes)
    requires ValidTxs(ys.Elems()) && PutTxs(xs, k) == PutTxs(ys, l)
    ensures xs == ys && k == l
  {
    hide PutElements, Lit;
    TxsRoundTrip(xs, k);
    TxsRoundTrip(ys, l);
    assert SanitizeTxs(xs) == SanitizeTxs(ys);
    if xs.Slice? && |xs.items| > 0 {
      LitStrip("[", PutElements(xs.items, k), PutElements(ys.items, l));
      ElementsDetermine(xs.items, ys.items, k, l);
    }
  }

  // --- Text that is not valid is never determined ---

  function TwinHeader(h: Header): (g: Header)
    requires !ValidHeader(h)
    ensures g != h
  {
    if !ValidText(h.previousHash) then h.(previousHash := Twin(h.previousHash))
    else h.(merkleRoot := Twin(h.merkleRoot))
  }

  function TwinTx(tx: Transaction): (t: Transaction)
    requires !ValidTx(tx)
    ensures t != tx
  {
    if !ValidText(tx.id) then tx.(id := Twin(tx.id))
    else if !ValidText(tx.sender) then tx.(sender := Twin(tx.sender))
    else tx.(receiver := Twin(tx.receiver))
  }

  function TwinTxs(txs: seq<Transaction>): (r: seq<Transaction>)
    requires !ValidTxs(txs)
    ensures |r| == |txs| && r != txs
  {
    if !ValidTx(txs[0]) then [TwinTx(txs[0])] + txs[1..]
    else
      assert txs == [txs[0]] + txs[1..];
      [txs[0]] + TwinTxs(txs[1..])
  }

  lemma TwinHeaderPrintsAlike(h: Header, k: Bytes)
    requires !ValidHeader(h)
    ensures PutHeader(TwinHeader(h), k) == PutHeader(h, k)
  {
    hide PutIntField, PutTextField, Lit, Twin;
    var k3 := PutIntField(",\"nonce\":", h.nonce, Lit("}", k));
    if !ValidText(h.previousHash) {
      TwinFieldPrintsAlike(",\"previous_hash\":", h.previousHash,
                           PutIntField(",\"timestamp\":", h.timestamp,
                           PutTextField(",\"merkle_root\":", h.merkleRoot, k3)));
    } else {
      TwinFieldPrintsAlike(",\"merkle_root\":", h.merkleRoot, k3);
    }
  }

  lemma TwinTxPrintsAlike(tx: Transaction, k: Bytes)
    requires !ValidTx(tx)
    ensures PutTx(TwinTx(tx), k) == PutTx(tx, k)
  {
    hide PutUintField, PutBlobField, PutIntField, PutTextField, Lit, Twin;
    var k3 := PutUintField(",\"amount\":", tx.amount,
              PutBlobField(",\"signature\":", tx.signature,
              PutIntField(",\"timestamp\":", tx.timestamp, Lit("}", k))));
    var k2 := PutTextField(",\"receiver\":", tx.receiver, k3);
    if !ValidText(tx.id) {
      TwinFieldPrintsAlike("{\"id\":", tx.id, PutTextField(",\"sender\":", tx.sender, k2));
    } else if !ValidText(tx.sender) {
      TwinFieldPrintsAlike(",\"sender\":", tx.sender, k2);
    } else {
      TwinFieldPrintsAlike(",\"receiver\":", tx.receiver, k3);
    }
  }

  lemma {:induction false} TwinTxsPrintAlike(txs: seq<Transaction>, k: Bytes)
    requires !ValidTxs(txs)
    ensures PutElements(TwinTxs(txs), k) == PutElements(txs, k)
  {
    hide PutTx, TwinTx, Lit;
    var ts := TwinTxs(txs);
    var tail := if |txs| == 1 then Lit("]", k) else Lit(",", PutElements(txs[1..], k));
    if !ValidTx(txs[0]) {
      assert ts[1..] == txs[1..];
      TwinTxPrintsAlike(txs[0], tail);
    } else {
      assert ts[1..] == TwinTxs(txs[1..]);
      TwinTxsPrintAlike(txs[1..], k);
    }
  }

  // ---------------------------------------------------------------------------
  // Decoders
  // ---------------------------------------------------------------------------

  /** What a node does to received payloads: any partial functions. */
  datatype Decoder = Decoder(block: Bytes -> Option<Block>, tx: Bytes -> Option<Transaction>) {
    /** Printed payloads are read back, up to invalid UTF-8. What is made of any other text - other
        spellings, white space, unknown keys - is left open. */
    ghost predicate ReadsBack() {
      && (forall b: Block :: block(MarshalPayload(b)) == Some(SanitizeBlock(b)))
      && (forall t: Transaction :: tx(MarshalTxPayload(t)) == Some(SanitizeTx(t)))
    }
  }

  /** The decoder that reads printed payloads and nothing else. */
  function Strict(): Decoder {
    Decoder(t => UnmarshalPayload(t), t => UnmarshalTxPayload(t))
  }

  lemma StrictReadsBack()
    ensures Strict().ReadsBack()
  {
    hide MarshalPayload, MarshalTxPayload, UnmarshalPayload, UnmarshalTxPayload, SanitizeBlock, SanitizeTx;
    forall b: Block
      ensures Strict().block(MarshalPayload(b)) == Some(SanitizeBlock(b))
    {
      PayloadRoundTrip(b);
    }
    forall t: Transaction
      ensures Strict().tx(MarshalTxPayload(t)) == Some(SanitizeTx(t))
    {
      TxPayloadRoundTrip(t);
    }
  }

  /** A block survives the wire exactly when all its strings are valid UTF-8. */
  lemma BlockSurvivesWire(d: Decoder, b: Block)
    requires d.ReadsBack()
    ensures d.block(MarshalPayload(b)) == Some(b) <==> ValidBlock(b)
  {
    hide MarshalPayload;
    SanitizeHeaderFixpoint(b.header);
    SanitizeTxsFixpoint(b.transactions);
    SanitizeFixpoint(b.hash);
  }

  // ---------------------------------------------------------------------------
  // The text itself
  // ---------------------------------------------------------------------------

  /** The pieces of a text run together. */
  function Join(parts: seq<Bytes>): Bytes {
    if |parts| == 0 then [] else parts[0] + Join(parts[1..])
  }

  lemma JoinMore(a: Bytes, b: Bytes, rest: seq<Bytes>)
    ensures Join([a, b] + rest) == a + (b + Join(rest))
    ensures Join([a]) == a
  {
    assert ([a, b] + rest)[1..] == [b] + rest && ([b] + rest)[1..] == rest;
    assert [a][1..] == [];
  }

  lemma {:induction false} JoinLast(parts: seq<Bytes>, k: Bytes)
    ensures Join(parts + [k]) == Join(parts) + k
  {
    if |parts| == 0 {
      assert [k][1..] == [];
    } else {
      JoinLast(parts[1..], k);
      assert (parts + [k])[1..] == parts[1..] + [k];
    }
  }

  lemma TextFieldIs(key: string, s: Bytes, rest: seq<Bytes>)
    ensures PutTextField(key, s, Join(rest)) == Join([Text(key), PutString(s, [])] + rest)
  {
    hide Join;
    TextFieldAppend(key, s, [], Join(rest));
    assert [] + Join(rest) == Join(rest);
    JoinMore(Text(key), PutString(s, []), rest);
    assert PutTextField(key, s, []) == Text(key) + PutString(s, []);
    assert Text(key) + PutString(s, []) + Join(rest) == Text(key) + (PutString(s, []) + Join(rest));
  }

  lemma IntFieldIs(key: string, n: int64, rest: seq<Bytes>)
    ensures PutIntField(key, n, Join(rest)) == Join([Text(key), PutInt(n, [])] + rest)
  {
    hide Join, PutInt;
    IntAppend(n, [], Join(rest));
    assert [] + Join(rest) == Join(rest);
    JoinMore(Text(key), PutInt(n, []), rest);
  }

  lemma UintFieldIs(key: string, n: uint64, rest: seq<Bytes>)
    ensures PutUintField(key, n, Join(rest)) == Join([Text(key), Digits(n)] + rest)
  {
    hide Join, Digits;
    JoinMore(Text(key), Digits(n), rest);
  }

  lemma BlobFieldIs(key: string, b: Slice<byte>, rest: seq<Bytes>)
    ensures PutBlobField(key, b, Join(rest)) == Join([Text(key), PutBlob(b, [])] + rest)
  {
    hide Join, PutBlob;
    BlobOutright(b, Join(rest));
    BlobOutright(b, []);
    assert PutBlob(b, []) + Join(rest) == PutBlob(b, Join(rest)) by {
      if b.Slice? {
        var q := Text("\"") + Base64(b.items) + Text("\"");
        assert q + [] + Join(rest) == q + Join(rest);
      } else {
        assert Text("null") + [] + Join(rest) == Text("null") + Join(rest);
      }
    }
    JoinMore(Text(key), PutBlob(b, []), rest);
  }

  lemma LitIs(s: string, k: Bytes)
    ensures Lit(s, k) == Join([Text(s), k])
  {
    JoinMore(Text(s), k, []);
    assert [Text(s), k] + [] == [Text(s), k];
    assert Join([]) == [];
  }

  /** The header: five fields in this order. */
  lemma HeaderOutright(h: Header, k: Bytes)
    ensures PutHeader(h, k) ==
            Join([Text("{\"index\":"), PutInt(h.index, []),
                  Text(",\"previous_hash\":"), PutString(h.previousHash, []),
                  Text(",\"timestamp\":"), PutInt(h.timestamp, []),
                  Text(",\"merkle_root\":"), PutString(h.merkleRoot, []),
                  Text(",\"nonce\":"), PutInt(h.nonce, []),
                  Text("}"), k])
  {
    hide Join, PutIntField, PutTextField, PutInt, PutString, Lit, Text;
    LitIs("}", k);
    var r5 := [Text("}"), k];
    var r4 := [Text(",\"nonce\":"), PutInt(h.nonce, [])] + r5;
    var r3 := [Text(",\"merkle_root\":"), PutString(h.merkleRoot, [])] + r4;
    var r2 := [Text(",\"timestamp\":"), PutInt(h.timestamp, [])] + r3;
    var r1 := [Text(",\"previous_hash\":"), PutString(h.previousHash, [])] + r2;
    IntFieldIs(",\"nonce\":", h.nonce, r5);
    TextFieldIs(",\"merkle_root\":", h.merkleRoot, r4);
    IntFieldIs(",\"timestamp\":", h.timestamp, r3);
    TextFieldIs(",\"previous_hash\":", h.previousHash, r2);
    IntFieldIs("{\"index\":", h.index, r1);
    assert [Text("{\"index\":"), PutInt(h.index, [])] + r1 ==
           [Text("{\"index\":"), PutInt(h.index, []),
            Text(",\"previous_hash\":"), PutString(h.previousHash, []),
            Text(",\"timestamp\":"), PutInt(h.timestamp, []),
            Text(",\"merkle_root\":"), PutString(h.merkleRoot, []),
            Text(",\"nonce\":"), PutInt(h.nonce, []),
            Text("}"), k];
  }

  /** The pieces of a transaction: six fields. */
  function TxParts(tx: Transaction): seq<Bytes> {
    [Text("{\"id\":"), PutString(tx.id, []),
     Text(",\"sender\":"), PutString(tx.sender, []),
     Text(",\"receiver\":"), PutString(tx.receiver, []),
     Text(",\"amount\":"), Digits(tx.amount),
     Text(",\"signature\":"), PutBlob(tx.signature, []),
     Text(",\"timestamp\":"), PutInt(tx.timestamp, []),
     Text("}")]
  }

  lemma TxOutright(tx: Transaction, k: Bytes)
    ensures PutTx(tx, k) == Join(TxParts(tx)) + k
    ensures TxParts(tx) ==
            [Text("{\"id\":"), PutString(tx.id, []),
             Text(",\"sender\":"), PutString(tx.sender, []),
             Text(",\"receiver\":"), PutString(tx.receiver, []),
             Text(",\"amount\":"), Digits(tx.amount),
             Text(",\"signature\":"), PutBlob(tx.signature, []),
             Text(",\"timestamp\":"), PutInt(tx.timestamp, []),
             Text("}")]
  {
    hide Join, PutIntField, PutTextField, PutUintField, PutBlobField, PutInt, PutBlob, Digits, PutString, Lit, Text;
    LitIs("}", k);
    var r6 := [Text("}"), k];
    var r5 := [Text(",\"timestamp\":"), PutInt(tx.timestamp, [])] + r6;
    var r4 := [Text(",\"signature\":"), PutBlob(tx.signature, [])] + r5;
    var r3 := [Text(",\"amount\":"), Digits(tx.amount)] + r4;
    var r2 := [Text(",\"receiver\":"), PutString(tx.receiver, [])] + r3;
    var r1 := [Text(",\"sender\":"), PutString(tx.sender, [])] + r2;
    IntFieldIs(",\"timestamp\":", tx.timestamp, r6);
    BlobFieldIs(",\"signature\":", tx.signature, r5);
    UintFieldIs(",\"amount\":", tx.amount, r4);
    TextFieldIs(",\"receiver\":", tx.receiver, r3);
    TextFieldIs(",\"sender\":", tx.sender, r2);
    TextFieldIs("{\"id\":", tx.id, r1);
    assert [Text("{\"id\":"), PutString(tx.id, [])] + r1 == TxParts(tx) + [k];
    JoinLast(TxParts(tx), k);
  }

  /** The elements of an array, separated by commas. */
  function Separated(txs: seq<Transaction>): Bytes
    requires |txs| > 0
  {
    if |txs| == 1 then Join(TxParts(txs[0])) else Join(TxParts(txs[0])) + (Text(",") + Separated(txs[1..]))
  }

  lemma {:induction false} ElementsOutright(txs: seq<Transaction>, k: Bytes)
    requires |txs| > 0
    ensures PutElements(txs, k) == Separated(txs) + (Text("]") + k)
  {
    hide PutTx, Join, TxParts;
    if |txs| == 1 {
      TxOutright(txs[0], Lit("]", k));
    } else {
      ElementsOutright(txs[1..], k);
      var tail := PutElements(txs[1..], k);
      TxOutright(txs[0], Lit(",", tail));
      var x, y, z := Join(TxParts(txs[0])), Text(","), Text("]") + k;
      assert x + (y + (Separated(txs[1..]) + z)) == x + (y + Separated(txs[1..])) + z;
    }
  }

  /** A transaction list: null, empty brackets, or the elements in brackets. */
  lemma TxsOutright(txs: Slice<Transaction>, k: Bytes)
    ensures PutTxs(txs, k) ==
            if txs.Nil? then Text("null") + k
            else if |txs.items| == 0 then Text("[]") + k
            else Text("[") + (Separated(txs.items) + (Text("]") + k))
  {
    hide PutElements, Separated;
    if txs.Slice? && |txs.items| > 0 {
      ElementsOutright(txs.items, k);
    }
  }

  /** A block: its header, its transactions, and three fields more. */
  lemma BlockOutright(b: Block, k: Bytes)
    ensures PutBlock(b, k) ==
            Text("{\"header\":") + PutHeader(b.header,
            Text(",\"transactions\":") + PutTxs(b.transactions,
            Join([Text(",\"hash\":"), PutString(b.hash, []),
                  Text(",\"signature\":"), PutBlob(b.signature, []),
                  Text(",\"producer_key\":"), PutBlob(b.producerKey, []),
                  Text("}"), k])))
  {
    hide Join, PutHeader, PutTxs, PutTextField, PutBlobField, PutBlob, PutString, Text;
    LitIs("}", k);
    var r3 := [Text("}"), k];
    var r2 := [Text(",\"producer_key\":"), PutBlob(b.producerKey, [])] + r3;
    var r1 := [Text(",\"signature\":"), PutBlob(b.signature, [])] + r2;
    BlobFieldIs(",\"producer_key\":", b.producerKey, r3);
    BlobFieldIs(",\"signature\":", b.signature, r2);
    TextFieldIs(",\"hash\":", b.hash, r1);
    assert [Text(",\"hash\":"), PutString(b.hash, [])] + r1 ==
           [Text(",\"hash\":"), PutString(b.hash, []),
            Text(",\"signature\":"), PutBlob(b.signature, []),
            Text(",\"producer_key\":"), PutBlob(b.producerKey, []),
            Text("}"), k];
  }

  lemma PayloadsOutright(b: Block, tx: Transaction)
    ensures MarshalPayload(b) == Text("{\"block\":") + PutBlock(b, Text("}"))
    ensures MarshalTxPayload(tx) == Text("{\"tx\":") + PutTx(tx, Text("}"))
  {
    hide PutBlock, PutTx;
    assert Lit("}", []) == Text("}");
  }
}
