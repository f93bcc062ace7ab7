# A blockchain node: ledger, encodings, gossip

This project models the core of a small blockchain node and proves properties of it: the ledger state
machine with its Merkle tree and byte encodings (`internal/consensus`), the peer server with its
framing, queues and block gossip (`internal/network`), and the transaction and block builders
(`cmd/node`). `dafny verify dfyconfig.toml` checks everything.

## What is modelled

* **Bytes.** A Go string is its byte sequence. `uint64` and `int64` arithmetic is written out with its
  wrap-around. SHA-256 is an arbitrary function `Hash` from byte strings to 32 bytes; nothing says that
  it is injective. Every binding result is constructive: either the inputs agree, or a function
  computes two different byte strings with one digest (`Collision.Of`).
* **The crypto engine** is `Engine(hash, verify)` with an arbitrary deterministic `verify`. Only the
  completeness results assume that a signer's signatures verify under its key (`Node.SignsFor`), and only
  the exactness of the supply bound that the accounts can sign at all (`Supply.Signable`).
* **The ledger** exists twice. `LedgerObject.Ledger` is the object with its fields, its copying,
  staging and committing loops in raw 64-bit arithmetic; each method is proved against a function on
  values. `Chain` is that value: `Add` is one AddBlock, `Run` any sequence of them, accepted or not.
  `ValidState` (genesis block, then blocks each acceptable on top of exactly the blocks before it, and
  a balance map that replaying them gives) holds in exactly the reachable states.
* **JSON** is a printer and a parser for the structs that are hashed and sent: fixed key order, decimal
  integers, base64 byte fields, `null` for nil slices, the string escapes of `encoding/json` with
  invalid UTF-8 replaced by U+FFFD. (RFC 8259 sections 4 to 7, RFC 4648 section 4.) Received payloads go
  through a `Decoder`: any partial functions. Where it matters they are asked to read printed payloads
  back (`Decoder.ReadsBack`); what they make of other spellings is open.
* **The peer server** is an object with its peer table; each peer has its bounded queue, the bytes
  written to its connection, and a ghost log of what was offered, dequeued and dropped. `ServerRun` has
  the same server over whole runs, with connections that come and go and outlive their table entry.
* **The network** is a step system on values: any number of nodes, each with a ledger, any multigraph
  of links. Producing a block, carrying out a flood, writing a queued message, delivering any message
  on the wire (in any order), losing one, and, for the safety results only, injecting arbitrary bytes
  (duplicates included) are separate steps in any interleaving.

## Where the code differs from what is said about it

* `ValidateTransaction` does not check the balance: the check is commented out
  (`internal/consensus/ledger.go:116-121`, against the comment at line 96). Only the check inside
  block validation does. The model follows the code: `Chain.BalanceUnchecked` says exactly what gets
  through, and `HandleTransaction` passes it on. It does so every time the transaction arrives, so gossip
  may go on for ever (`TxGossip.RingNeverEnds`, and exactly when: `TxGossip.GossipEndsExactly`).
* A valid block is said to carry a producer signature (`internal/consensus/types.go:54-55`); without a
  producer key none is checked. Key and signature are not covered by the hash, so any accepted block is
  accepted with both stripped: `Validation.ProducerKeyOptional`.
* Each node seeds a genesis map of its own (`cmd/node/main.go:133`) and the genesis block does not commit
  to it. So a block hash binds the blocks below it whatever the genesis maps, and the balances of exactly
  the accounts on which these agree (`ChainBinding.HashBindsHistory`, `NetworkSafety.OneHistoryPerHash`).
  For the node as it is configured this means that no block with another node's
  transactions is ever accepted (`Node.OwnTransactionsOnly`), and that one such transaction in the pool,
  where gossip puts it, has the whole batch refused (`Node.ForeignTransactionSpoilsBatch`).
* Conservation is no property of the code alone: it needs a genesis total of at most 2^64 - 1. The bound
  is exact wherever the genesis keys can sign: above it some reachable ledger has overflowed an account
  (`Supply.ChainCapIsExact`). Modulo 2^64 everything is kept always.
* Transaction IDs hash sender and receiver run together, so the boundary between them is not bound
  (`Hashing.BoundaryNotBound`); `Hashing.CanonicalExactly` says exactly what is.
* Duplicating the tail of an odd Merkle layer lets two lists share a root (`Merkle.OddTailAmbiguous`);
  leaves carry no domain separation (`Merkle.DepthsNotBound`) and need not have one length
  (`Merkle.MixedLengthsNotBound`). `Merkle.RootsAgreeExactly` says for any two lists of leaves when their
  roots agree, up to a collision.
* JSON replaces invalid UTF-8, so the preimage of the block hash determines header and transactions
  exactly for blocks of valid UTF-8 (`Hashing.PreimageBindsExactly`), and a block survives the wire exactly
  when its strings are valid UTF-8 (`BlockJson.BlockSurvivesWire`). Of blocks that some ledger accepted,
  the hash binds header and transactions whatever their text (`ChainBinding.BlockCollision`), and one that
  does not survive is refused by every receiver, or a collision is at hand
  (`ChainBinding.AlteredOnTheWireIsRefused`).
* `writePacket` does not check the size that `readPacket` enforces: `Framing.ReadBackExactly`,
  `Framing.StreamReadBackExactly`.
* `removePeer` deletes whatever is registered under the address, a newer connection included
  (`ServerRun.NewerConnectionLost`, and exactly when: `ServerRun.DisconnectTakes`).
* Nothing lost is asked for again: once the block that a node is waiting for is nowhere on its way, its
  ledger stays behind for good (`NetworkTermination.StalledForGood`), and one lost message is enough for
  that (`NetworkConvergence.OneLossIsForGood`). Where nothing is lost all nodes catch up with a single
  producer (`NetworkConvergence.AllCaughtUp`).

## Model

| member | source | states |
|---|---|---|
| ByteStrings.BigEndianRoundTrip | internal/consensus/ledger.go:236-241 | an integer that fits the width is recovered from its big-endian bytes |
| ByteStrings.FromBigEndianRoundTrip | internal/network/p2p.go:593-597 | every byte string is the big-endian form of the number it is read as |
| ByteStrings.BigEndianOf64 | internal/consensus/ledger.go:236-241 | the eight bytes of a 64-bit number one by one, the highest first |
| ByteStrings.BigEndianOf32 | internal/network/p2p.go:581-582 | the four bytes of a 32-bit number one by one |
| ByteStrings.ToUnsignedModulo | internal/consensus/ledger.go:240 | the conversion of a signed timestamp is the residue modulo 2^64 |
| ByteStrings.HexRoundTrip | internal/consensus/ledger.go:247-249 | decoding the hex text of bytes gives the bytes back |
| ByteStrings.HexEncodeAt | internal/consensus/ledger.go:247-249 | each byte is two digits of "0123456789abcdef", the high half first |
| ByteStrings.HexDecodesExactly | internal/consensus/ledger.go:255-258 | a text decodes if and only if its length is even and it holds digits 0-9, a-f, A-F only |
| ByteStrings.HexDecodeExactly | internal/consensus/ledger.go:255-258 | text that decodes is the encoding of its value, up to the case of its digits |
| ByteStrings.HexEncodeInjective | internal/consensus/ledger.go:262-265 | equal hex texts come from equal bytes, so equal IDs or hashes mean equal digests |
| JsonText.StringRoundTrip | internal/consensus/types.go:11-18 | a printed string, whatever follows it, reads back with its invalid bytes replaced by U+FFFD, and what follows is left over |
| JsonText.SanitizeFixpoint | internal/consensus/types.go:11-18 | that replacement changes nothing if and only if the string is valid UTF-8 |
| JsonText.PrintedTextDetermines | internal/consensus/types.go:11-18 | valid UTF-8 shares its printed form, whatever follows, with no other byte string |
| JsonText.TwinPrintsAlike | internal/consensus/types.go:11-18 | every other byte string shares it with a different one, which is computed |
| JsonText.ValidTextOutright | internal/consensus/types.go:11-18 | what counts as valid is a sequence of encoded Unicode scalar values (RFC 3629) |
| JsonText.EncodedIsValid | internal/consensus/types.go:11-18 | and every such sequence counts |
| JsonText.SanitizeOutright | internal/consensus/types.go:11-18 | decoding keeps valid text and puts U+FFFD in place of each byte that starts no valid rune |
| JsonText.PlainPrints | internal/consensus/types.go:11-18 | ASCII without control characters, quotes, backslash, <, > and & is printed as it is, between quotes |
| JsonText.LongEscapes | internal/consensus/types.go:11-18 | the other control characters, <, > and & are printed as \u00 and two digits |
| JsonText.ShortEscapes | internal/consensus/types.go:11-18 | quote, backslash, and \b \t \n \f \r have escapes of two characters |
| JsonText.RuneEscapes | internal/consensus/types.go:11-18 | beyond ASCII, U+2028, U+2029 and invalid bytes are escaped and nothing else |
| JsonValues.Base64RoundTrip | internal/consensus/types.go:23-25 | padded base64 of any bytes decodes to them |
| JsonValues.Base64Outright | internal/consensus/types.go:23-25 | character by character: the standard alphabet at each six bits, and one '=' for each byte missing to a multiple of three |
| JsonValues.BlobOutright | internal/consensus/types.go:64-71 | nil prints as null, all else as its base64 between quotes |
| JsonValues.DigitsOutright | internal/consensus/types.go:20-21 | a number prints as the decimal digits of its value, without leading zeros |
| JsonValues.NumbersOutright | internal/consensus/types.go:34-51 | negative numbers with a minus sign in front |
| JsonValues.BlobRoundTrip | internal/consensus/types.go:64-71 | a byte field reads back, nil and empty kept apart |
| JsonValues.UintRoundTrip | internal/consensus/types.go:20-21 | every uint64 in decimal reads back, and reading stops exactly at its end |
| JsonValues.IntRoundTrip | internal/consensus/types.go:34-51 | the same for every int64, sign included |
| BlockJson.TxRoundTrip | internal/consensus/types.go:9-30 | a printed transaction followed by anything reads back, up to invalid UTF-8, and consumes exactly its own text |
| BlockJson.ElementsRoundTrip | internal/consensus/types.go:56-58 | the same for the elements of a non-empty transaction array |
| BlockJson.TxsRoundTrip | internal/consensus/types.go:56-58 | the same for the transaction list; nil, empty and non-empty lists are told apart |
| BlockJson.HeaderRoundTrip | internal/consensus/types.go:34-52 | the same for the header: header texts are prefix-free |
| BlockJson.BlockRoundTrip | internal/consensus/types.go:56-72 | the same for a whole block |
| BlockJson.HeaderOutright | internal/consensus/types.go:34-52 | the text of a header, key by key |
| BlockJson.TxOutright | internal/consensus/types.go:9-30 | the text of a transaction, key by key |
| BlockJson.TxsOutright | internal/consensus/types.go:56-58 | a list prints as null, as [], or as its elements between brackets and commas |
| BlockJson.BlockOutright | internal/consensus/types.go:56-72 | the text of a block, key by key |
| BlockJson.PayloadsOutright | internal/network/p2p.go:94-101 | the text of the two payloads |
| BlockJson.PayloadRoundTrip | internal/network/p2p.go:508-516 | decoding a broadcast block payload gives the broadcast block with invalid UTF-8 replaced, and never fails |
| BlockJson.TxPayloadRoundTrip | internal/network/p2p.go:487-495 | the same for a transaction payload |
| BlockJson.StrictReadsBack | internal/network/p2p.go:487-516 | so the decoder that knows printed texts only meets what the results ask of a decoder |
| BlockJson.BlockSurvivesWire | internal/network/p2p.go:508-550 | under any decoder that reads printed payloads back, a receiver decodes the very same block if and only if all its strings are valid UTF-8 |
| Hashing.CanonicalTxBytes | internal/consensus/ledger.go:232-243 | the buffer built step by step reads back as the two addresses run together, the amount and the signed timestamp it was built from |
| Hashing.CanonicalRoundTrip | internal/consensus/ledger.go:232-243 | amount and signed timestamp, and the two addresses run together, are recovered from the canonical bytes |
| Hashing.CanonicalOutright | internal/consensus/ledger.go:232-243 | sender, receiver, eight bytes of the amount, eight bytes of the timestamp modulo 2^64 |
| Hashing.BlockHashOutright | internal/consensus/ledger.go:283-296 | the block hash is the lower-case hex of the digest of the header text followed by the transactions text |
| Hashing.CanonicalExactly | internal/consensus/ledger.go:230-243 | canonical bytes are equal if and only if both numbers and the concatenated addresses are |
| Hashing.CanonicalInjective | internal/consensus/ledger.go:232-249 | for senders of one length, equal canonical bytes mean equal sender, receiver, amount and timestamp |
| Hashing.BoundaryNotBound | internal/consensus/ledger.go:232-249 | moving bytes from receiver to sender never changes the ID |
| Hashing.TxCollision | internal/consensus/ledger.go:247-249 | two transactions with one ID, senders of one length and different content yield two byte strings with one digest |
| Hashing.PreimageRoundTrip | internal/consensus/ledger.go:283-296 | header JSON and transactions JSON run together are uniquely decodable, for every block |
| Hashing.PreimageInjective | internal/consensus/ledger.go:283-296 | a block of valid UTF-8 shares its block-hash preimage with no block, of whatever text, that has another header or other transactions; nil and empty are kept apart |
| Hashing.TwinBlockHashesAlike | internal/consensus/ledger.go:286-294 | for every block with a string that is not valid UTF-8 a block of other header or transactions and the same preimage is computed |
| Hashing.PreimageBindsExactly | internal/consensus/ledger.go:283-296 | the preimage determines header and transactions if and only if all strings of the block that are hashed are valid UTF-8 |
| Merkle.DepthIsCeilLog2 | internal/consensus/ledger.go:322-333 | halving rounded up takes the binary logarithm rounded up many rounds |
| Merkle.LeafLayer | internal/consensus/ledger.go:309-319 | each leaf is the decoded ID, or the digest of an ID that is no hex |
| Merkle.NextLayer | internal/consensus/ledger.go:323-332 | one round gives the layer of pair hashes above the layer made even by repeating its last node |
| Merkle.MerkleRoot | internal/consensus/ledger.go:304-336 | the loop computes the root of the perfect binary tree over the padded leaves, in exactly Depth(n) rounds; 64 zeros for an empty list |
| Merkle.SmallRoots | internal/consensus/ledger.go:304-336 | the root is 64 zeros for no transactions, the ID for one, and the hex digest of both decoded IDs in order for two |
| Merkle.Inclusion | internal/consensus/ledger.go:309-335 | for every transaction of any list there are as many siblings as the tree is deep with which its decoded ID - or the digest of an ID that is no hex - folds to the bytes of the root |
| Merkle.PathToRoot | internal/consensus/ledger.go:321-333 | the same in every layer, the first sibling being the neighbour, or the node itself at an odd end |
| Merkle.NodeByLayer | internal/consensus/ledger.go:321-333 | a tree built layer by layer from below equals the tree split recursively from the top |
| Merkle.PadAbove | internal/consensus/ledger.go:321-333 | padding the bottom layer once is the same as repeating the tail in every layer |
| Merkle.RootAbove | internal/consensus/ledger.go:321-333 | one round keeps the root, lowers the depth by one and shortens the layer |
| Merkle.LeafPlace | internal/consensus/ledger.go:321-325 | every leaf has a place in the padded layer: padding loses none |
| Merkle.TreeCollision | internal/consensus/ledger.go:326-331 | two equal nodes above different leaves yield a collision, found by walking down to the leaf |
| Merkle.SameBottomSameRoot | internal/consensus/ledger.go:321-333 | the root depends only on the pairs of the padded bottom layer, each run together |
| Merkle.RootCollision | internal/consensus/ledger.go:304-336 | equal roots over lists of one depth, of any lengths and of leaves of any lengths, whose bottom pairs run together differently anywhere yield a collision |
| Merkle.DepthsNotBound | internal/consensus/ledger.go:321-333 | every layer that the loop passes through, taken as a list of leaves, has the root of the list below it: any list shares its root with lists of every smaller depth |
| Merkle.RootsAgreeExactly | internal/consensus/ledger.go:304-336 | for any two lists of leaves, of any lengths, depths and leaf lengths: climb the deeper tree to the depth of the other; there, equal bottom pairs give equal roots, and equal roots over unequal bottom pairs give a collision |
| Merkle.DigestRootsAgreeExactly | internal/consensus/ledger.go:304-336 | for 32-byte leaves the same with the padded layers themselves in place of the pairs |
| Merkle.MerkleCollision | internal/consensus/ledger.go:304-336 | two equally long lists of 32-byte hex IDs with one Merkle root and a different ID anywhere yield a collision |
| Merkle.OddTailAmbiguous | internal/consensus/ledger.go:302-325 | a list of odd length, three or more, and the list with its last leaf repeated share their root |
| Merkle.MixedLengthsNotBound | internal/consensus/ledger.go:328-330 | between two sibling leaves the boundary may move: [x, y + z] and [x + y, z] share their root for all x, y, z |
| Balances.BalanceModulo | internal/consensus/ledger.go:219-222 | for every map and every transactions, each balance is start plus received minus sent, modulo 2^64 |
| Balances.TotalModulo | internal/consensus/ledger.go:219-222 | for every map and every transactions, the total is kept modulo 2^64 |
| Balances.FundedStep | internal/consensus/ledger.go:171-172 | a covered transfer under a total that fits 64 bits wraps nowhere and keeps the total, to oneself or to another |
| Balances.Conservation | internal/consensus/ledger.go:161-173 | a list that passes the balance checks, under such a total, keeps the total and never wraps in any subtraction or addition |
| Balances.BalanceIsFlow | internal/consensus/ledger.go:219-222 | and leaves each account at exactly start plus received minus sent |
| Balances.FundedExactly | internal/consensus/ledger.go:161-173 | the balance checks pass if and only if for every transaction the sender's start plus earlier receipts minus earlier payments covers it |
| Validation.StageIsApply | internal/consensus/ledger.go:161-173 | the staging loop passes if and only if all transactions are signed and covered in turn, and its final copy is what applying them to the live map gives |
| Validation.StageNamesFirst | internal/consensus/ledger.go:165-168 | a refusal names the first transaction that fails, for the reason that holds at that point |
| Validation.StageExactly | internal/consensus/ledger.go:158-173 | exact acceptance by flows: valid IDs and signatures, and start plus earlier receipts minus earlier payments covers each amount |
| Validation.StageExactlyModulo | internal/consensus/ledger.go:158-173 | the same on every map whatever its total, with the flows taken modulo 2^64 |
| Validation.AcceptsExactly | internal/consensus/ledger.go:142-200 | a block is accepted if and only if index, link, signatures, funds, Merkle root, hash and, with a producer key, producer signature are right |
| Validation.AcceptsOutright | internal/consensus/ledger.go:142-200 | the same with each transaction's three conditions, the flows, and the hashed text spelled out |
| Validation.CheckTxOutright | internal/consensus/ledger.go:97-115 | a transaction passes if and only if its sender is hex, its ID is the hex digest of its canonical bytes, and its signature on these verifies under the sender's key; each error is the first of these that fails |
| Validation.SignedOutright | internal/consensus/ledger.go:165-168 | a list is signed if and only if these three hold of each transaction |
| Validation.CheckBlockNames | internal/consensus/ledger.go:142-200 | each error of block validation is the first check that fails |
| Validation.ProducerKeyOptional | internal/consensus/ledger.go:192-197 | acceptance is acceptance of the block without producer key, under any signature, plus a producer signature where a key is given |
| Validation.BareAccepted | internal/consensus/ledger.go:192-197 | the plainest block over a chain, without producer, is accepted if and only if its transactions are signed and covered in turn |
| Validation.CheckTxWithExactly | internal/consensus/ledger.go:254-277 | a transaction passes against a balance map if and only if a block of it alone would be accepted on that map |
| Chain.InitIsValid | internal/consensus/ledger.go:37-62 | a new ledger satisfies the ledger invariant |
| Chain.AddKeepsValid | internal/consensus/ledger.go:207-226 | AddBlock of any block keeps it |
| Chain.RunKeepsValid | internal/consensus/ledger.go:207-226 | every run of AddBlock calls, accepted or refused, keeps it |
| Chain.RunIsValid | internal/consensus/ledger.go:23-31 | so every run from a new ledger ends in a state that satisfies it |
| Chain.ValidIsReachable | internal/consensus/ledger.go:207-226 | conversely every such state is reached, by handing its own blocks to a new ledger |
| Chain.RunExtends | internal/consensus/ledger.go:224 | each earlier chain is a prefix of every later one |
| Chain.RunConcat | internal/consensus/ledger.go:207-226 | runs compose: what follows depends on the state alone |
| Chain.CommittedIndexRefused | internal/consensus/ledger.go:145-150 | a block whose index is taken changes nothing; no block is committed twice |
| Chain.PrefixIsValid | internal/consensus/ledger.go:207-226 | every non-empty prefix of a valid chain is valid |
| Chain.ChainShape | internal/consensus/ledger.go:142-197 | above genesis, index is position, the previous hash is the predecessor's, Merkle root and hash equal their recomputation, and a given producer key has signed |
| Chain.ReplayIsApply | internal/consensus/ledger.go:216-222 | replaying block by block is applying all transactions of the chain in order |
| Chain.ChainFunded | internal/consensus/ledger.go:271-274 | every committed transaction was covered at the exact point of the chain where it was applied |
| Chain.ChainSignedOutright | internal/consensus/ledger.go:254-269 | every transaction of a reachable chain has a hex sender, the hex digest of its canonical bytes as ID, and a signature on these that verifies under the sender's key |
| Chain.UnsignableNeverSpends | internal/consensus/ledger.go:267-269 | if no signature verifies under a key, no reachable chain holds a transaction of its account, and the account never falls below its genesis balance |
| Chain.GenesisOutright | internal/consensus/ledger.go:43-55 | the fields of the genesis block |
| Chain.ChainConservation | internal/consensus/ledger.go:23-31 | in every reachable ledger with a genesis total of at most 2^64 - 1, the total is the genesis total, nothing ever wrapped, and every account is genesis plus received minus sent |
| Chain.ChainConservationModulo | internal/consensus/ledger.go:23-31 | for any genesis map, the same modulo 2^64 |
| Chain.CheckTxExactly | internal/consensus/ledger.go:97-123 | the check without balances passes exactly the transactions that some reachable ledger, from some genesis map, could commit |
| Chain.BalanceUnchecked | internal/consensus/ledger.go:116-121 | it agrees with the check that looks at balances exactly where the transaction fails anyway or is covered; every transaction of a positive amount that passes is one that a ledger without balances refuses in every block |
| Supply.SweepOverflows | internal/consensus/ledger.go:171-172 | where the balances of accounts that can sign and one more add up to more than 2^64 - 1, a list of transactions with right IDs and signatures, each covered in turn, is built whose last addition wraps |
| Supply.CapIsExact | internal/consensus/ledger.go:161-173 | where all accounts can sign: no list that the staging loop accepts ever wraps if and only if the total is at most 2^64 - 1 |
| Supply.ChainCapIsExact | internal/consensus/ledger.go:207-226 | where all genesis accounts can sign: no reachable ledger has ever wrapped if and only if the genesis total is at most 2^64 - 1 |
| LedgerObject.Ledger.constructor | internal/consensus/ledger.go:37-62 | the copying loop seeds the given balances, the chain is the genesis block, and the invariant holds |
| LedgerObject.Ledger.Height | internal/consensus/ledger.go:67-71 | one more than the index of the tip, and the index that every block acceptable next must have |
| LedgerObject.Ledger.GetBalance | internal/consensus/ledger.go:75-79 | genesis plus received minus sent over the whole chain, modulo 2^64, and exactly when the genesis total fits; zero for unknown accounts |
| LedgerObject.Ledger.LatestBlock | internal/consensus/ledger.go:82-86 | the last block, whose index is the chain length minus one |
| LedgerObject.Ledger.ValidateTransaction | internal/consensus/ledger.go:97-123 | passes if and only if the sender is hex, the ID is the hex digest of the canonical bytes and the signature on these verifies under the sender's key; equivalently, if and only if some reachable ledger could commit the transaction; errors in this order |
| LedgerObject.Ledger.ValidateTxWithBalances | internal/consensus/ledger.go:254-277 | passes if and only if these three hold and the sender's balance in the given map covers the amount; equivalently, if and only if a block of the transaction alone would be accepted on this chain with these balances |
| LedgerObject.Ledger.ValidateBlock | internal/consensus/ledger.go:134-200 | the loop over the staged copy gives the verdict of CheckBlock, first failing check and transaction index included |
| LedgerObject.Ledger.AddBlock | internal/consensus/ledger.go:207-226 | on success one block is appended and the live map equals the final staged map; on failure nothing changes; the invariant and, where it fits, the total supply are kept |
| LedgerObject.AcceptedIsStaged | internal/consensus/ledger.go:216-222 | for an accepted block the final staged map is what applying its transactions to the live map gives |
| LedgerObject.StageStops | internal/consensus/ledger.go:165-168 | the verdict at the first refused transaction stands, whatever follows in the block |
| ChainBinding.AcceptedIsConsistent | internal/consensus/ledger.go:142-200 | an acceptable block has its hash, Merkle root and IDs right and names a previous hash that is ASCII text |
| ChainBinding.CommittedIsConsistent | internal/consensus/ledger.go:142-200 | so has every committed block above genesis |
| ChainBinding.BlockCollision | internal/consensus/ledger.go:283-296 | two such blocks with one hash and different header or transactions yield a collision, with no assumption on their text |
| ChainBinding.ContentCollision | internal/consensus/types.go:32-47 | the header alone commits to the transactions: two such blocks with one Merkle root and equally many transactions that differ in the content of one, senders of one length, yield a collision |
| ChainBinding.TamperingRefused | internal/consensus/ledger.go:182-190 | if an acceptable block is changed in header or transactions under its hash, the ledger refuses the result, or a collision is given |
| ChainBinding.AlteredOnTheWireIsRefused | internal/network/p2p.go:508-516 | a block with right hash and IDs but invalid UTF-8 reaches peers altered, and any ledger that accepted the altered block would yield a collision |
| ChainBinding.ChainCollision | internal/consensus/ledger.go:152-190 | two valid chains with equal hashes at one height and different headers or transactions anywhere below yield a collision, at the highest block that differs; the genesis maps may differ |
| ChainBinding.HashBindsHistory | internal/consensus/ledger.go:142-226 | equal hashes at height h of two ledgers, seeded alike or not: blocks 1 to h agree in header and transactions, or a collision is given; if they agree, the balances replayed to h agree on exactly the accounts on which the genesis maps do |
| ChainBinding.HashBindsHeight | internal/consensus/ledger.go:145-150 | one hash at two different heights above genesis is a collision |
| Framing.ReadsBack | internal/network/p2p.go:575-617 | a packet within the limit, followed by anything, is read back and the rest is left untouched |
| Framing.ReadTookFrame | internal/network/p2p.go:592-617 | every successful read consumed exactly the bytes that writing its result emits, and the result is within the limit |
| Framing.FrameOutright | internal/network/p2p.go:575-589 | the bytes of a frame one by one: four of the length, the type, the payload |
| Framing.ReadOutright | internal/network/p2p.go:592-617 | which of the five results a read gives, what the packet is and what is left of the stream, from the bytes of the stream |
| Framing.ConcatOutright | internal/network/p2p.go:593-611 | a stream is its chunks run together in order |
| Framing.ReadBackExactly | internal/network/p2p.go:575-617 | a written packet is read back if and only if 1 + payload length is at most 10 * 2^20 |
| Framing.StreamRoundTrip | internal/network/p2p.go:575-617 | packets written back to back are read back as the same sequence with nothing left over |
| Framing.StreamReadBackExactly | internal/network/p2p.go:575-617 | a sequence of packets is read back so if and only if all of them keep to the limit |
| Framing.CutStreamDeliversPrefix | internal/network/p2p.go:592-617 | a stream cut at any byte delivers a prefix of the packets, none altered |
| Framing.Reader.ReadFull | internal/network/p2p.go:593-611 | however the stream is chunked, exactly the next n bytes, or all there is |
| Framing.Reader.ReadPacket | internal/network/p2p.go:592-617 | however the stream is chunked, result and remaining stream are those of ReadFrom, errors included |
| Framing.Reader.ReadLoop | internal/network/p2p.go:428-442 | reading until the first error gives the packets and the error that the stream determines |
| Framing.Writer.WritePacket | internal/network/p2p.go:575-589 | appends exactly the frame of the packet, its length cut to 32 bits |
| PeerQueue.OfferAccounted | internal/network/p2p.go:554-567 | a flood keeps the accounting of a peer: bound, offered = dequeued + queued + dropped, order, wire content |
| PeerQueue.DrainAccounted | internal/network/p2p.go:456-464 | so does a turn of the writer, whether the write succeeds or fails after any number of bytes |
| PeerQueue.WriterDrains | internal/network/p2p.go:451-467 | in k turns without error the first k packets leave the queue, in order, and their frames stand on the wire |
| PeerQueue.EverythingArrives | internal/network/p2p.go:451-467 | after any run in which no offer found the queue full and no write failed, enough turns of the writer bring the remote side exactly the packets offered, in order, and nothing else |
| PeerQueue.NothingAfterFailure | internal/network/p2p.go:461-464 | a failed write leaves that many bytes of the frame on the wire, and nothing is ever written again |
| PeerQueue.RunAccounted | internal/network/p2p.go:451-467 | so does every run of floods, writes and failures |
| PeerQueue.SubsequencePlaces | internal/network/p2p.go:561-565 | the order-preserving selection of the accounting means strictly increasing places with equal packets |
| PeerQueue.NeverFullLosesNothing | internal/network/p2p.go:561-565 | packets are lost to the queue only when it is full |
| ServerRun.ServerAccounted | internal/network/p2p.go:395-467 | over every run of a server - floods with an origin, writes, failures, registrations, disconnections - the accounting of every connection there has ever been holds |
| ServerRun.OfferedExactly | internal/network/p2p.go:554-567 | and a registered connection has been offered, in order, exactly the packets flooded since its registration that came from another address; one that left the table, the first of these |
| ServerRun.RemoteReadsOthersFloods | internal/network/p2p.go:451-467 | so whatever its remote side has read, from however much has arrived, is an order-preserving selection of those packets |
| ServerRun.StepTable | internal/network/p2p.go:395-567 | what each event does to the peers in the table, as a map from address to queue |
| ServerRun.DisconnectTakes | internal/network/p2p.go:413-426 | a read loop that ends takes out what stands under its address; all other connections stay registered if and only if no newer one stands there |
| ServerRun.NewerConnectionLost | internal/network/p2p.go:413-426 | a second connection from one address is unregistered when the first one ends |
| PeerServer.Peer.Enqueue | internal/network/p2p.go:561-565 | queued at the end, or dropped when 64 are waiting |
| PeerServer.Peer.WriteNext | internal/network/p2p.go:456-464 | the oldest queued packet goes onto the wire as its frame, or in part, after which the writer stops |
| PeerServer.PeerServer.RegisterPeer | internal/network/p2p.go:395-410 | a fresh peer with an empty queue stands under its address, all others as before |
| PeerServer.OthersStay | internal/network/p2p.go:413-417 | taking out the address of a peer leaves all other peers in place if and only if the entry there is its own |
| PeerServer.PeerServer.Flood | internal/network/p2p.go:554-567 | every peer but the origin is offered the packet exactly once; the origin nothing |
| PeerServer.PeerServer.BroadcastBlock | internal/network/p2p.go:543-550 | every peer is offered the printed block |
| PeerServer.PeerServer.BroadcastTransaction | internal/network/p2p.go:533-540 | every peer is offered the printed transaction |
| PeerServer.PeerServer.HandleTransaction | internal/network/p2p.go:487-505 | under any decoder: passes if and only if the payload decodes to a transaction with hex sender, right ID and a signature that verifies; then it goes to the application unless 4096 are waiting there, and unchanged to all other peers; otherwise to nobody |
| PeerServer.PeerServer.HandleBlock | internal/network/p2p.go:508-525 | under any decoder: ledger, application channel (64 at most) and all other peers change if and only if the payload decodes to a block that the ledger accepts |
| PeerServer.PeerServer.HandlePacket | internal/network/p2p.go:474-483 | dispatch: only block packets touch the ledger, and only packets that pass are passed on |
| PeerServer.PeerServer.RunPeer | internal/network/p2p.go:421-448 | over a whole connection with no other writer of this ledger and no other flood meanwhile: the ledger ends where its decoded blocks in stream order take it, every other peer was offered exactly the packets that passed, in order, its own address nothing, and the address is unregistered; other schedules are covered by ServerRun and Network |
| PeerServer.RelayedExactly | internal/network/p2p.go:474-525 | a block packet passes if and only if it changes the ledger; a transaction packet if and only if it is sound, whatever the state, so as often as it comes |
| PeerServer.UnsoundNeverRelayed | internal/network/p2p.go:493-495 | a transaction packet that is not sound is relayed to nobody, wherever it stands in a stream |
| Network.NextWellFormed | internal/network/p2p.go:508-567 | every step leads to a well-formed network |
| NetworkSafety.NextSafe | internal/network/p2p.go:508-525 | every step, forged messages included, keeps every node's ledger invariant and the queue bound |
| NetworkSafety.RunSafe | internal/network/p2p.go:508-567 | so does every run in every interleaving |
| NetworkSafety.FloodAt | internal/network/p2p.go:554-567 | a flood adds the message to exactly the node's own links other than the excepted one whose queue has room |
| NetworkSafety.RunExtends | internal/consensus/ledger.go:224 | over any run each node's chain only grows |
| NetworkSafety.RunBalances | internal/network/p2p.go:451-467 | over any run and for each link, message by message: under way before + flooded + forged = delivered + lost + under way after |
| NetworkSafety.TallyCounts | internal/network/p2p.go:451-467 | the books hold one entry for each delivery, loss and forgery on the link, so numbers balance too |
| NetworkSafety.RunFloodsOnce | internal/network/p2p.go:508-567 | over any run a link is flooded with at most one message for each block its source commits, and none for a block that came in by the same connection |
| NetworkSafety.LinkTraffic | internal/network/p2p.go:508-567 | so from a fresh network, nothing forged, what is flooded onto a link is what is delivered, lost and under way, and less than the chain of its source is long |
| NetworkSafety.OneHistoryPerHash | internal/network/p2p.go:508-525 | after any two runs, any two nodes, however seeded, with equal hashes at a height share all blocks up to it, or a collision is given; their balances there agree on exactly the accounts on which their genesis maps do |
| NetworkSafety.RunProvenance | cmd/node/main.go:199-261 | without forged messages, every committed block and every message goes back to a block some node set out to produce |
| NetworkTermination.FloodCount | internal/network/p2p.go:554-567 | one flood adds at most as many messages as the node has links |
| NetworkTermination.NextPotential | internal/network/p2p.go:508-567 | every step but a forgery strictly lowers the potential |
| NetworkTermination.StalledForGood | internal/network/p2p.go:508-525 | once no block of the index a node is waiting for is still to be produced or on its way, the ledger of that node never changes again: nothing lost is asked for |
| NetworkConvergence.LosesFirst | internal/network/p2p.go:451-467 | two nodes: a run in which the message with the first block is lost |
| NetworkConvergence.OneLossIsForGood | internal/network/p2p.go:508-525 | after it, however the run goes on and whatever is produced at other heights, the other node never leaves genesis |
| NetworkConvergence.AllCaughtUp | internal/network/p2p.go:451-567 | one producer of valid UTF-8, nodes seeded alike, messages delivered in order, floods carried out in the order decided, nothing lost and no queue full: at rest every node that the producer reaches over any links is in its state |
| NetworkConvergence.RunConverges | internal/network/p2p.go:451-567 | over every such run each link carries, in ascending order, all that its destination misses of its source |
| NetworkConvergence.NotStuck | internal/network/p2p.go:451-567 | until the network is at rest such a run can go on |
| TxGossip.GossipEndsExactly | internal/network/p2p.go:487-505 | gossip of transactions that pass has a bound on its runs if and only if the walks over links, without turning back, from where they are have a bound |
| TxGossip.GossipEnds | internal/network/p2p.go:487-505 | where walks are bounded, every run is at most as long as the handlings the messages can lead to |
| TxGossip.WalkRun | internal/network/p2p.go:487-505 | wherever a message that passes can walk, a run takes it |
| TxGossip.BoundedByLinks | internal/network/p2p.go:554-560 | walks are bounded if and only if none has more links than there are |
| TxGossip.RingNeverEnds | internal/network/p2p.go:487-505 | on three nodes in a ring one transaction that passes has runs of every length |
| NetworkTermination.FloodingTerminates | internal/network/p2p.go:508-567 | every run is no longer than the potential for an index that no block in its first state reaches |
| NetworkTermination.EveryRunEnds | internal/network/p2p.go:508-567 | such an index always exists: from every state, whatever is in flight, every run is finite |
| NetworkTermination.HeightByProduction | internal/consensus/ledger.go:145-150 | a chain whose blocks all go back to a set of produced blocks has at most that many above genesis |
| NetworkTermination.FreshNetworkTerminates | internal/network/p2p.go:508-567 | from a fresh network, on any multigraph, every run has at most B * (2L + 2N + 1) steps for B blocks to be produced, L links and N nodes |
| Node.BuildTx | cmd/node/main.go:278-293 | a result if and only if signing the canonical bytes succeeds: the transfer of the key to itself with the given amount and time, its ID and that signature; it passes ValidateTransaction if the signer works |
| Node.BuildBlock | cmd/node/main.go:295-322 | a result if and only if signing the hash succeeds: every field of the block, timestamp and nonce included; if the signer works, the ledger as it is accepts it if and only if the batch is signed and covered in turn |
| Node.AssembledAccepted | cmd/node/main.go:301-321 | whatever tip and height it was built for and whoever signed it, the block is accepted by a ledger if and only if height and tip hash are the ledger's, its transactions are signed and covered there, and its signature verifies unless the key is empty |
| Node.UndisturbedCommit | cmd/node/main.go:220-228 | if nothing lands in between and the batch passes its checks in order, the commit always extends the chain by that block |
| Node.TipsOfOneHash | internal/consensus/ledger.go:152-190 | two blocks of one chain with one hash yield a collision, or a preimage of the constant genesis hash |
| Node.InterleavedCommit | cmd/node/main.go:220-228 | with any blocks added between reading tip and height and before the commit, under any signer: it changes nothing, or none had landed and the batch is signed and covered, up to a collision or such a preimage; if the signer works, it then always commits |
| Node.SelfTransfersMoveNothing | cmd/node/main.go:132-133 | transfers of keys to themselves leave every balance as it is, for any amounts |
| Node.OwnBatchFunded | cmd/node/main.go:132-133 | a batch of such transfers passes the balance checks if and only if no single amount exceeds its sender's balance |
| Node.OwnTransactionsOnly | cmd/node/main.go:132-136 | a chain over one seeded key that holds only such transfers holds nobody else's, zero amounts apart |
| Node.ForeignTransactionSpoilsBatch | cmd/node/main.go:206-252 | on such a chain a batch of such transfers, as the pool collects them from all nodes, is covered if and only if each is of nothing, or is of the own key and within its seed |
| Node.Producer.DrainBatch | cmd/node/main.go:207-216 | the oldest pending transactions, ten at most, leave the pool in order |
| Node.Producer.ProduceBlock | cmd/node/main.go:220-237 | under any signer, what is committed is the batch, signed and covered, and goes to every peer, and a failed attempt changes nothing; if signing works, the block is committed if and only if the batch is signed and covered in turn |
| Node.Producer.Tick | cmd/node/main.go:206-238 | the oldest ten pending transactions, or all if fewer, leave the pool for good, whether or not a block comes of them; a block that does goes to every peer |

## Left out

- Signature schemes, KEM and handshake (`internal/crypto`, `internal/network/p2p.go:213-388`): foreign code behind an interface; the session key is not used after the handshake.
- SHA-256: an arbitrary function with 32-byte output.
- Locks and goroutines inside one process: methods are atomic. Interleavings of several writers on one ledger are covered on values, by `Chain.Run`, `Node.InterleavedCommit` and the network steps, in which accepting a block and flooding it are two steps.
- Sockets, deadlines, dialling, accepting, reconnecting, shutdown: timing only. A failing write and the end of a connection are events of `PeerQueue` and `ServerRun`.
- Peers that come and go while blocks are gossiped: the network steps have fixed links; peers that come and go are modelled for one server, in `ServerRun` and `PeerServer`.
- The order in which two floods of one server reach different peers: `flood` holds a read lock only, so they may interleave; floods are atomic here, and "in order" speaks of each connection by itself.
- PeerServer.PeerServer.RunPeer: its contract is for a connection during which nobody else writes to the ledger or floods; other schedules are covered on values, by `Chain.Run`, `ServerRun` and `Network`.
- Queues of transaction gossip: its steps handle a message and hand it on at once, and any copy may get lost on the way, as in a full queue.
- Convergence with several producers: their blocks compete for one index and the code has no rule to choose, so nodes keep whichever came first.
- Termination with duplicated or forged messages: a link that repeats messages for ever gives endless runs; TCP does not, and the safety results allow both.
- What `json.Unmarshal` makes of texts that the node does not print (white space, other key orders, unknown and missing keys): the decoder of a node is any function that reads printed payloads back.
- Errors of `json.Marshal`: they cannot occur on these structs.
- Spare capacity and aliasing of the slices in `merkleRoot`: the appended pair may share the array of its left node, which is read only up to its length; values are modelled.
- Chains of 2^63 blocks and more, where `int64(len(blocks))` would overflow: `CheckBlock` compares with the unbounded length, and `BuildBlock` and `ProduceBlock` ask for less.
- The random amounts and the clocks of `cmd/node/main.go`: arbitrary inputs.
- Metrics, logging, environment, CSV, plots, Docker, `StorageSize`, `cmd/listalgos`: input and output only.
