/** The values exchanged and stored by the node. */
module Types {
  import opened ByteStrings
  import opened Base

  datatype Transaction = Transaction(
    id: Bytes,
    sender: Bytes,
    receiver: Bytes,
    amount: uint64,
    signature: Slice<byte>,
    timestamp: int64)

  datatype Header = Header(
    index: int64,
    previousHash: Bytes,
    timestamp: int64,
    merkleRoot: Bytes,
    nonce: int64)

  datatype Block = Block(
    header: Header,
    transactions: Slice<Transaction>,
    hash: Bytes,
    signature: Slice<byte>,
    producerKey: Slice<byte>)
  {
    function Txs(): seq<Transaction> {
      transactions.Elems()
    }
  }
}
