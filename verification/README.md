# Axis ledger: a verified model

Axis is a small UTXO blockchain node. One `Chain` object holds the blocks, the
live outputs, an index of live outputs per address, the pool of pending
transactions and the set of outputs those already spend, and mirrors blocks and
pool in two LevelDB stores. A TCP server accepts blocks and transactions, web
threads accept transactions. Nothing in the code checks that these structures
agree; they agree because of what each operation does. This project states what
each operation does and proves that they agree, over whole runs.

## What is modelled

| file | content |
|---|---|
| `Types.dfy` | integers with their widths, hashes and addresses as byte strings, transactions, blocks, error codes |
| `Bytes.dfy` | little-endian integers, `Writer` and `Reader` as classes, counted lists |
| `TxCodec.dfy`, `BlockCodec.dfy` | the transaction and block encodings, the txid preimage |
| `Layout.dfy` | at which byte offset each field of a stored form or preimage stands |
| `Merkle.dfy` | the level-by-level Merkle loop and the tree it computes |
| `Order.dfy` | byte order, block keys, hex keys, the target |
| `LedgerSpec.dfy` | what confirming transactions does to the live outputs and the address index |
| `ChainSpec.dfy` | the node state, admission of a transaction, submission and insertion of a block, the pool invariant |
| `Recovery.dfy` | start-up from the two databases, runs, crashes between database writes |
| `History.dfy` | whole histories: no double confirmation, conservation, queries |
| `Requests.dfy` | what block requests may repeat, and what follows for the history |
| `Protocol.dfy` | block submission step by step, interleaved with web threads |
| `Node.dfy` | the `Chain` class, its loops and in-place updates, proved against the state functions |
| `Server.dfy` | payload parsers and the handlers that call the chain |
| `Images.dfy` | a database that mirrors a map through an injective key |

Functions on values say what an operation means. The methods of `Node.Chain`,
`ByteCodec.Reader`, `ByteCodec.Writer` and `Server` follow the C++ loop by loop
and are proved to have exactly that meaning; the lemmas about the functions
therefore hold of the methods. Some C++ loops are separate small methods here
(`Spend`, `Receive`, `Reserve`, `Confirm`, `CheckOutputs`, `CheckInputs`).

## How it is modelled

- BLAKE2b, address derivation and Ed25519 verification are the fields of a
  `Crypto` value. Every result holds for every choice of them; no injectivity is
  assumed. Where a result needs txids to tell transactions apart, that is a
  hypothesis about the finitely many transactions that were admitted or
  confirmed in one run (`History.TxidsBehave`); what was refused, or lost in a
  crash before its record was written, is free to do anything.
  `History.HashTellsApart` derives the hypothesis from the absence of BLAKE2b
  collisions among their preimages.
- A database is a finite map. An iterator visits the least remaining key in byte
  order. Writes survive a process crash and happen in program order; each
  operation's writes are a list, and a crash keeps any prefix of it. The class
  records its writes in the ghost field `journal`.
- A C++ exception is a `Failure`, a `Truncated` or a `None`.
- A run (`Recovery.Run`) starts from empty databases and is any list of
  transaction and block submissions, each of which may crash after any number of
  its writes and is then followed by a restart. `Recovery.RunFits` asks of
  operations that take effect, and of no others, that what they store fits the
  32-bit counts and sizes it is stored with and that the number of blocks stays
  a 32-bit height. `Recovery.SmallRunFits` gives a condition on the operations
  alone. `Server.SubmissionFits` and `Server.RequestFits` show that whatever
  arrives in a frame, whose size is a 32-bit field, meets the part about sizes.
- Integers are copied as little-endian memory images, as on the platforms the
  code's `memcpy` supports.
- A `pool_spent_` entry maps an outpoint to itself and its value is never read,
  so it is a set.

The code departs from `DOCUMENTATION.md` in three places, and the model follows
the code. A serialized header has 80 bytes and no difficulty field.
`get_utxos` reads an index; the documented scan is used here as the
specification the index must meet. `verify_block_header` is never called: the
live path does not compare timestamps.

Four facts about the code that the proofs make exact:

- `add_tx` does not compare the inputs of one transaction with each other.
  By `History.RepeatedInputIsAdmitted`, on a new chain a transaction that lists
  the genesis output twice may pay out up to 30 coins, and creates coins exactly
  when it pays out more than the 15 there are. `History.ConfirmMoves` is the law
  behind it: confirming a transaction creates money exactly when its outputs
  exceed what its inputs are worth counted once, and `History.ListedWorth` says
  when that differs from the sum the code compares. `History.Conservation` adds
  both up over runs.
- A block request may list a txid twice, and two coinbases may share a txid:
  `Requests.OnlyWorkRemains` shows that neither is refused, and
  `Requests.RepeatConfirmsTwice` what follows. `Requests.ConfirmedOnceIffFresh`
  shows that, where txids tell transactions apart, these are the only two ways a
  txid can be confirmed twice, as a condition on each request when it is made.
- The txid preimage carries no counts.
  `TxCodec.PreimageDetermines` shows which transactions it still determines:
  those with fewer than 7 inputs and fewer than 9 outputs, and no others.
- A block reader does not require a nested transaction to fill its declared
  size. `BlockCodec.SlackBlock` builds a second byte string for any block with a
  transaction, and `BlockCodec.EncodingUnique` shows that only a block without
  transactions has a single one. `BlockCodec.BlockCanonical` says which byte
  string is the block's own serialization: the one whose nested readers all end
  where their declared size ends.

## Model

| member | source | states |
|---|---|---|
| ByteCodec.DecodeInteger | include/axis/types.h:56-60 | Reading back the bytes of an integer of a given width gives the integer, whenever it fits the width |
| ByteCodec.EncodeInteger | include/axis/types.h:99-102 | Any bytes are the image of the integer they decode to: no two byte strings of one width decode alike |
| ByteCodec.IntegerBytes | include/axis/types.h:56-60 | Byte i of an integer is its base-256 digit of weight 256^i: least significant first |
| ByteCodec.ReadList | src/tx.cpp:60-67 | Reading as many items as were written returns the items and stops where their encoding ends, for any item codec that does so |
| ByteCodec.YieldedList | src/tx.cpp:60-67 | Every list that can be read consists of valid items inside the buffer, and the bytes consumed are its encoding exactly when each item consumed exactly its own encoding |
| ByteCodec.Writer.PutBytes | include/axis/types.h:51-54 | Appends the bytes and changes nothing already in the buffer |
| ByteCodec.Writer.PutU32 | include/axis/types.h:58 | Appends the four little-endian bytes of the value |
| ByteCodec.Writer.PutU64 | include/axis/types.h:59 | Appends the eight little-endian bytes of the value |
| ByteCodec.Reader.TakeView | include/axis/types.h:94-97 | Delivers the next n bytes and advances past them, or fails with the cursor unmoved when fewer remain |
| ByteCodec.Reader.TakeU32 | include/axis/types.h:101 | Delivers the 32-bit value whose image is at the cursor, or fails when fewer than four bytes remain |
| ByteCodec.Reader.TakeU64 | include/axis/types.h:102 | Delivers the 64-bit value whose image is at the cursor, or fails when fewer than eight bytes remain |
| ByteCodec.Reader.TakeHash | include/axis/types.h:104-110 | Delivers the 32 bytes at the cursor as a hash, or fails |
| TxCodec.TxBytes | src/tx.cpp:35-48 | A transaction with i inputs and o outputs serializes to 48 + 36i + 28o bytes |
| TxCodec.TxExactAt | src/tx.cpp:56-69 | Deserializing at an offset gives a transaction and consumes its length if and only if its encoding stands there and both counts fit 32 bits |
| TxCodec.TxRoundTrip | src/tx.cpp:35-69 | With any bytes before and after, serialize then deserialize returns the transaction and consumes exactly its length, if and only if both counts fit 32 bits |
| TxCodec.TxCanonical | src/tx.cpp:56-69 | Whatever deserializes, serializes again to exactly the bytes consumed |
| TxCodec.TxPrefixFree | src/tx.cpp:56-69 | No strict prefix of an encoding deserializes |
| TxCodec.SerializeTransaction | src/tx.cpp:35-48 | The loops append the encoding that the round trip is about |
| TxCodec.DeserializeTransaction | src/tx.cpp:56-69 | The cursor loops deliver exactly what the parsing function says, failing where it is cut short |
| TxCodec.ComputeHash | src/tx.cpp:10-22 | The loops hash inputs, outputs and timestamp run together without counts |
| Layout.TxLayout | src/tx.cpp:35-48 | Bytes are a stored transaction if and only if txid, timestamp, counts and every field of every input and output stand at their offsets and nothing else does |
| Layout.PreimageLayout | src/tx.cpp:10-22 | Bytes are a txid preimage if and only if every field of every input and output, then the timestamp, stand at their offsets, with no txid and no count |
| TxCodec.PreimageCounts | src/tx.cpp:10-22 | Equal preimages have input counts differing by 7k and output counts by 9k the other way |
| TxCodec.PreimageFields | src/tx.cpp:10-22 | Equal preimages with equal input counts have equal inputs, outputs and timestamps |
| TxCodec.PreimageDetermines | src/tx.cpp:10-22 | A preimage belongs to one transaction content only, if and only if that has fewer than 7 inputs and fewer than 9 outputs |
| TxCodec.TxidsTellApart | src/tx.cpp:24-28 | Without hash collisions among a set's preimages, two of its transactions with equal input counts or with preimages of different lengths have equal txids only if equal |
| BlockCodec.BlockRoundTrip | src/block.cpp:49-78 | With any bytes before and after, a block comes back with its cached hash and its exact length if and only if its counts and sizes fit 32 bits and the cached hash is the header's |
| BlockCodec.BlockCanonical | src/block.cpp:65-78 | Whatever deserializes has the recomputed hash, and serializes to the bytes consumed if and only if every nested reader ends where its declared size ends |
| BlockCodec.SlackBlock | src/block.cpp:70-75 | Every block with a transaction has a second encoding, one byte longer, that reads back as the same block and is consumed whole |
| BlockCodec.EncodingUnique | src/block.cpp:65-78 | A block's serialization is the only byte string that reads back as that block if and only if it has no transactions |
| BlockCodec.SerializeBlock | src/block.cpp:49-63 | The loop with nested lengths writes the encoding that the round trip is about |
| BlockCodec.DeserializeBlock | src/block.cpp:65-78 | The cursor loop with nested readers delivers exactly what the parsing function says |
| BlockCodec.ComputeHeaderHash | src/block.cpp:8-12 | Hashes the 80 header bytes: the hash that `BlockCodec.HashOfBytes` reads off the stored form |
| BlockCodec.HashOfBytes | src/block.cpp:8-12 | The cached hash of any block that was read is the hash of its first 80 bytes |
| BlockCodec.HashBindsHeader | src/block.cpp:8-19 | Blocks with equal cached hashes have equal headers, nonce included, or the hash collides on two 80-byte strings |
| Layout.HeaderLayout | src/block.cpp:14-19 | A stored header is previous hash, Merkle root, timestamp and nonce at offsets 0, 32, 64 and 72 |
| Layout.BlockLayout | src/block.cpp:49-57 | Bytes are a stored block if and only if header, count and each transaction behind its own size stand at their offsets and nothing else does |
| Merkle.ComputeMerkleRoot | src/crypto.cpp:21-35 | The loop that pads and halves a level returns the root of the top-down tree whose equations `Merkle.LevelEquation` states in hashed bytes; it runs the least h rounds with 2^h at least the leaf count |
| Merkle.WidthIsOne | src/crypto.cpp:25-33 | A level is a single node exactly from the tree's height on |
| Merkle.HeightIsLeast | src/crypto.cpp:25-33 | The height is at most h exactly when 2^h covers the leaves |
| Merkle.MerkleBinding | src/crypto.cpp:14-35 | Equal roots over equally many leaves mean equal leaves, or two corresponding nodes combine different pairs to the same hash |
| Merkle.PaddingKeepsRoot | src/crypto.cpp:26-27 | Appending a copy of the last of an odd number of leaves above one keeps the root, so equal length is needed |
| Merkle.SmallTrees | src/crypto.cpp:14-35 | No leaves give the zero hash, one leaf itself, and leaves x, y the hash of the 64 bytes x then y |
| Merkle.LevelEquation | src/crypto.cpp:25-33 | Node i of a level is the hash of node 2i below followed by node 2i+1, or by node 2i again where the level below ends |
| Merkle.RootBindsLeaves | src/crypto.cpp:14-35 | Equal roots over equally many different leaves come with two different 64-byte strings of one hash, at corresponding places of the two trees |
| ByteOrder.LexTotal | src/chain.cpp:110-115 | Byte order is total and strict |
| ByteOrder.LexTransitive | src/chain.cpp:110-115 | Byte order is transitive, so an iterator's order is one order |
| ByteOrder.LexMeans | src/net.cpp:317 | One byte string is below another if and only if, where they first differ, it has ended or has the smaller byte |
| ByteOrder.BlockKeyOrder | src/chain.cpp:349-353 | For all 32-bit heights, keys are in byte order exactly when heights are in numeric order, and equal exactly when heights are |
| ByteOrder.BlockKeyReads | src/chain.cpp:349-353 | A block key is ten characters from 0 to 9 that read as the height in decimal |
| ByteOrder.HexKeyInjective | src/chain.cpp:15-20 | Hex keys are equal exactly when the hashes are |
| ByteOrder.HexKeyReads | src/chain.cpp:15-20 | A hex key writes each byte as its high, then its low lower-case hex digit |
| ByteOrder.TargetExact | src/chain.cpp:333-337 | For every difficulty up to 32 a hash does not exceed the target exactly when its first `difficulty` bytes are zero |
| LedgerSpec.AppliedUtxo | src/chain.cpp:165-183 | The input and output loops leave the live outputs minus all inputs plus all outputs, whatever repeats |
| LedgerSpec.ClosedForm | src/chain.cpp:386-389 | A list in which nothing spends what comes before it in the list leaves the live outputs minus all inputs plus all outputs |
| LedgerSpec.OrderIrrelevant | src/chain.cpp:386-389 | With no spending inside the block, and the same output wherever two transactions share a txid and an index, any order of its transactions leaves the same live outputs; a transaction may be listed twice |
| LedgerSpec.OrderMatters | src/chain.cpp:386-389 | With no spending inside the block, every order leaves the same live outputs if and only if transactions that share a txid have the same output at every index they share |
| LedgerSpec.CreatedAt | src/chain.cpp:176-182 | An outpoint is created by a list exactly when it names a transaction of it and an index in range, with that output when transactions that share a txid agree |
| LedgerSpec.Provenance | src/chain.cpp:165-183 | Every live output is an output of some replayed transaction, at the index its outpoint says |
| LedgerSpec.AddKeepsIndex | src/chain.cpp:176-182 | Adding outputs keeps the index in agreement with the live outputs if and only if each overwritten output keeps its recipient |
| LedgerSpec.AddKeepsNoRepeats | src/chain.cpp:176-182 | Adding outputs keeps the per-address lists free of repeats if and only if none was listed for its recipient |
| LedgerSpec.ApplyKeepsIndex | src/chain.cpp:165-183 | Confirming a transaction keeps the index exact, each live output once and no empty list, if and only if its outputs are new after its inputs are gone |
| LedgerSpec.EraseKeeps | src/chain.cpp:170 | Erasing removes every copy of an outpoint and keeps the others in their order |
| LedgerSpec.SentInOrder | src/chain.cpp:176-182 | What a transaction creates for an address is its outputs to that address, by increasing index |
| LedgerSpec.ApplyEntry | src/chain.cpp:165-183 | Confirming a transaction takes its inputs out of each address's list, keeps the rest in order and appends its outputs to that address in order |
| LedgerSpec.ReplayIndexAgrees | src/chain.cpp:165-183 | If txids determine recipients, the index of any replay lists for each address exactly its live outputs and holds no empty list |
| LedgerSpec.QueryIsScan | src/chain.cpp:318-331 | With an exact index the query never throws and returns the scan of the live outputs by recipient without those spent in the pool, each once if the lists have no repeats |
| LedgerSpec.LookupInOrder | src/chain.cpp:325-330 | A query that succeeds answers for exactly the listed outpoints not spent in the pool, in list order, with their amounts |
| ChainSpec.OutputsVerdictExact | src/chain.cpp:263-270 | The output loop passes exactly when all amounts are positive and sum to at most 2^64-1, and reports a zero exactly when a zero comes before any overflow |
| ChainSpec.InputsVerdictExact | src/chain.cpp:278-291 | The input loop passes exactly when all inputs are live, owned and sum to at most 2^64-1, and reports ownership exactly when that fails first |
| ChainSpec.VerdictExact | src/chain.cpp:257-316 | A transaction is accepted if and only if the unbounded-integer specification holds |
| ChainSpec.VerdictReason | src/chain.cpp:257-303 | Each refusal code is given exactly when its check is the first to fail |
| ChainSpec.AcceptanceTakesEffect | src/chain.cpp:305-311 | An accepted transaction is pooled under its txid, takes exactly its inputs, leaves a record under its hex key that reads back as it, and changes nothing else; a miner can then list it and submitting it again is a duplicate |
| ChainSpec.AcceptanceTakesInputs | src/chain.cpp:301-307 | After an acceptance, any other transaction is answered as before, unless it was acceptable and shares an input: then it is refused as spent |
| ChainSpec.AddTxKeepsPool | src/chain.cpp:305-313 | Submission keeps the pool invariant: disjoint inputs, spent set exactly their union, all of it live, database mirrors pool |
| ChainSpec.ConfirmedAll | src/chain.cpp:386-408 | The loop over a block's transactions, whatever they are, replays the ledger and takes its non-coinbase inputs, txids and keys out of spent set, pool and pool database |
| ChainSpec.RemainingInputs | src/chain.cpp:395-399 | After a pool-drawn block the inputs of the remaining pool are the old ones minus the block's: no survivor loses or keeps a wrong entry |
| ChainSpec.AddBlockKeepsPool | src/chain.cpp:386-413 | A pool-drawn block keeps the pool invariant and removes exactly its transactions, with repeats or txid reuse allowed |
| ChainSpec.DrawFinds | src/net.cpp:103-109 | Drawing succeeds exactly when every listed txid is pooled, and gives the pooled transactions in listed order |
| ChainSpec.SubmissionExact | src/net.cpp:301-326 | Each answer to a block request is given exactly when its check is the first to fail: a listed txid not pooled, a sent Merkle root other than the recomputed one, a hash without three leading zero bytes, a previous hash other than the tip; it is accepted exactly when all pass, and otherwise nothing changes |
| ChainSpec.AcceptedBlock | src/net.cpp:94-117 | An accepted request appends exactly one block, with the tip as predecessor and the request's root, time and nonce, whose first transaction has no inputs and pays the reward asked for to the address asked for at the time asked for, followed by the listed transactions in order |
| ChainSpec.CoinbasePaid | src/net.cpp:94-101 | After an accepted request the coinbase's output is live for the address asked for with the reward asked for, if no listed transaction spends it or puts another output in its place; where none bears the coinbase's txid, exactly if none spends it |
| ChainSpec.GenesisExact | src/chain.cpp:189-202 | The genesis block has the zero hash as predecessor, its fixed time and nonce, and one coinbase of 15,000,000 units whose txid is its Merkle root |
| Recovery.RestartRefinesLive | src/chain.cpp:107-163 | In every state satisfying the invariant, starting from its two databases gives exactly that state: blocks, height, live outputs, index in list order, pool and spent set |
| Recovery.BootSucceeds | src/chain.cpp:107-163 | On any two databases start-up succeeds if and only if every block record reads as a block and is used up, and every pool record begins with a transaction |
| Recovery.AddBlockKeepsInv | src/chain.cpp:386-413 | A valid pool-drawn block keeps the whole invariant, stored bytes included |
| Recovery.DoKeepsInv | src/chain.cpp:257-413 | Every transaction or block submission that, if accepted, fits its 32-bit fields keeps the whole invariant |
| Recovery.WritesComplete | src/chain.cpp:305-313 | Performing an operation's writes in order turns the databases before it into the databases after it |
| Recovery.PartialWrites | src/chain.cpp:388-412 | Any strict prefix of the writes leaves the block database alone and removes some of the listed transactions, and nothing else, from the pool database |
| Recovery.CrashSafe | src/chain.cpp:107-163 | After any prefix of an operation's writes the node starts again, in a state satisfying the whole invariant: the finished state, or the old one with some listed transactions missing from the pool |
| Recovery.StartInv | src/chain.cpp:189-202 | Starting on empty databases creates genesis and establishes the invariant |
| Recovery.StartIsBoot | src/chain.cpp:32-37 | The state a run starts from is the one the node reaches on two empty databases |
| Recovery.BootWritesComplete | src/chain.cpp:32-37 | The writes of a start-up turn the databases it finds into those of the state it reaches |
| Recovery.RunInv | src/chain.cpp:257-413 | The invariant, with linked blocks, Merkle roots, targets, leading coinbases, height, mirrored databases and pool, holds after every run with crashes in which nothing that takes effect overflows a 32-bit field |
| Recovery.SmallRunFits | src/chain.cpp:257-413 | Operations of bounded size with fewer than 2^32 - 1 block requests among them, accepted or not, and any number of transactions make a run in which nothing overflows |
| Recovery.RestartAfterRun | src/chain.cpp:32-48 | After every run with crashes, a restart gives exactly the live state |
| History.LiveIsCreatedMinusSpent | src/chain.cpp:165-183 | In a history of new txids spending live outputs, live is exactly created minus spent |
| History.NothingTwice | src/chain.cpp:165-183 | In such a history no txid occurs twice and no two transactions share an input |
| History.InputsHaveOrigin | src/chain.cpp:165-183 | In such a history each input is an output of an earlier transaction |
| History.SoundIndexExact | src/chain.cpp:165-183 | In such a history the index lists each live output once |
| History.IndexInOrder | src/chain.cpp:165-183 | In such a history an address's list is what was created for it and not spent, in the order of creation |
| History.SpendTakes | src/chain.cpp:166-175 | Spending live inputs takes at most their sum out of circulation, and exactly their sum if and only if every output listed more than once is worth nothing |
| History.ConfirmMoves | src/chain.cpp:165-183 | Confirming any transaction with new outputs moves circulation by exactly its outputs minus its distinct live inputs, so it creates money if and only if its outputs exceed what its inputs are worth counted once |
| History.ListedWorth | src/chain.cpp:279-293 | What live inputs are worth counted once is at most the sum `add_tx` compares, and equals it if and only if every output listed more than once is worth nothing |
| History.ConfirmBalances | src/chain.cpp:165-183 | Confirming a transaction with live inputs and new outputs changes circulation by at least outputs minus inputs as listed, and by exactly that if and only if every output it lists more than once is worth nothing |
| History.RepeatedInputIsAdmitted | src/chain.cpp:279-303 | On a new chain, in a state satisfying the whole invariant, a transaction of the genesis owner that lists the genesis output twice is admitted exactly when it pays out between 1 unit and 30 coins, and confirming it creates coins exactly when it pays out more than 15 |
| History.ValueConserved | src/chain.cpp:165-183 | In a history of new txids spending live outputs, circulation plus net fees, inputs counted once, is exactly the minted amount; with fees as listed, which are no smaller in total, it equals it if and only if no transaction lists an output of any worth twice |
| History.NetFees | src/chain.cpp:279-293 | In such a history each net fee is at most the fee as listed, and equals it if and only if the transaction lists no output of any worth twice |
| History.NotAdmittedAgain | src/chain.cpp:279-287 | A confirmed transaction with inputs can never again have all its inputs live |
| History.HistoryOfRun | src/chain.cpp:257-413 | If txids tell the admitted and confirmed transactions apart, no coinbase recurs and no block lists a txid twice, confirmed transactions of the run form such a history, no pooled one was confirmed, and no fee as listed is negative |
| History.NoDoubleConfirmation | src/chain.cpp:386-413 | Under the same hypothesis, in every run with crashes no txid is confirmed twice, no outpoint is spent twice, and each spent outpoint was created earlier |
| History.ConfirmedOnceExactly | src/net.cpp:96-109 | With txids telling admitted and confirmed transactions apart, no txid is confirmed twice if and only if in the resulting chain no coinbase txid recurs and no block lists a txid twice |
| History.Conservation | src/chain.cpp:165-202 | In every run under the txid hypothesis, circulation plus net fees is exactly what genesis and coinbases minted; fees as listed are never negative, and with them the equation holds if and only if no confirmed transaction lists an output of any worth twice |
| History.QueryAfterRun | src/chain.cpp:318-331 | In every run under the txid hypothesis the query never throws and returns the scan, each output once, in the order of creation |
| History.QueryAgreesAsSet | src/chain.cpp:318-331 | With only txids determining recipients, in every run the query never throws and agrees with the scan as a set |
| History.DrawnBlockEffect | src/chain.cpp:386-389 | A pool-drawn block that spends none of its own outputs, with txids listed twice or not, leaves live outputs minus inputs plus outputs; every order of its transactions does if and only if no listed transaction with the coinbase's txid contradicts the coinbase at an index both have |
| History.NewOutputsUnspent | src/chain.cpp:386-389 | A pool-drawn block whose outputs are all new spends none of its own outputs |
| History.RunProvenance | src/net.cpp:96-109 | In every run pooled transactions were admitted and confirmed ones were admitted or are coinbases built by the node |
| History.HashTellsApart | src/tx.cpp:10-28 | Without hash collisions among the preimages of admitted and confirmed transactions, and with no two different input counts among them giving preimages of one length, their txids tell them apart |
| Requests.OnlyWorkRemains | src/net.cpp:94-109 | For every coinbase and every list of pooled txids, repeated or not, some request carries them and is accepted exactly when its hash has three leading zero bytes |
| Requests.RepeatConfirmsTwice | src/net.cpp:96-109 | An accepted request that lists a txid twice, or whose coinbase txid is already confirmed, leaves some txid confirmed twice, whatever the hash function |
| Requests.AcceptedKeepsDistinct | src/net.cpp:96-109 | In a state with the invariant and a sound history, an accepted request keeps all confirmed txids distinct if and only if its listed txids are distinct and its coinbase txid is not yet confirmed |
| Requests.ConfirmedOnceIffFresh | src/net.cpp:96-109 | With txids telling admitted and confirmed transactions apart, no txid is confirmed twice in a run with crashes if and only if every request that went through was fresh in that sense when it was submitted |
| Protocol.InterleaveOk | src/net.cpp:295-326 | Under any interleaving with web submissions, what each earlier step checked still holds at every program counter, with the pool invariant |
| Protocol.LookupNeverMisses | src/net.cpp:103-109 | Under any interleaving, the lookup after a positive membership test finds the transaction |
| Protocol.ReadyToInsert | src/net.cpp:322-326 | At insertion the block is the one an atomic submission would draw, accept and insert from the current state |
| Protocol.ChecksStillHold | src/net.cpp:301-326 | When insertion runs, the previous hash is still the tip, all listed transactions are still pooled and all their inputs still live |
| Protocol.AnsweredInTime | src/net.cpp:295-345 | After 5 + 2n own steps for n listed txids the request is answered, whatever web threads do |
| Protocol.Linearizable | src/net.cpp:295-345 | The chain after any interleaving is what running its submissions atomically gives, with the block request at the step that answers it |
| Protocol.AnswerIsAtomic | src/net.cpp:301-341 | Whichever step answers, its error code and its effect are those of the atomic submission on the state at that step |
| Protocol.AnswerLinearizable | src/net.cpp:295-345 | The request occurs in that sequential execution once it is answered, only once, and the answer given is the one the atomic submission gives at its place |
| Protocol.EffectsKeepInv | src/main.cpp:32-47 | Any sequence of atomic submissions of which each accepted one fits its 32-bit fields keeps the whole invariant |
| Protocol.InterleavingKeepsInv | src/main.cpp:32-47 | Every interleaving of one block request with any number of web submissions keeps the whole invariant, the chain only grows with the answer, and nothing that takes effect overflows |
| Protocol.DoAllIsRun | src/main.cpp:32-47 | Carrying on from a run with more operations is a longer run, and fits if they do |
| Protocol.InterleavingIsRun | src/main.cpp:32-47 | From the state of any run, interleaving a block request with web submissions ends in the state of a longer run, so all that holds of runs holds of interleaved executions |
| Node.ConstructTransaction | src/tx.cpp:24-28 | The constructor sets the txid to the hash of the preimage of its own content |
| Node.ConstructBlock | src/block.cpp:30-42 | The constructor's header holds the Merkle root of the txids in order, and its cached hash is that header's |
| Node.Chain.constructor | src/chain.cpp:32-33 | Starts with nothing loaded over the given databases |
| Node.Chain.ApplyTx | src/chain.cpp:165-183 | The loops over inputs and outputs, with index maintenance and the 32-bit counter, leave the ledger the replay lemmas speak of and touch nothing else |
| Node.Chain.RebuildUtxo | src/chain.cpp:204-210 | Clearing and replaying all blocks gives the ledger of the whole history |
| Node.Chain.AddTx | src/chain.cpp:257-316 | With 64-bit guarded sums, accepts exactly what the unbounded specification accepts, returns the first failing reason, changes nothing on refusal, and otherwise does to memory and databases what `ChainSpec.AcceptanceTakesEffect` spells out |
| Node.Chain.CheckOutputs | src/chain.cpp:263-272 | The guarded 64-bit sum never wraps and the loop's answer is the unbounded one |
| Node.Chain.CheckInputs | src/chain.cpp:278-293 | The guarded 64-bit sum never wraps and the loop's answer is the unbounded one, with the comparison to the outputs last |
| Node.Chain.GetUtxos | src/chain.cpp:318-331 | Returns what the query lemmas equate with the scan; fails where the source throws |
| Node.Chain.StoreBlock | src/chain.cpp:339-347 | Writes the block's encoding under the key of the present block count, and nothing else |
| Node.Chain.AddBlock | src/chain.cpp:386-413 | The interleaved loop leaves the state that the invariant lemmas are about, appends the block, leaves the target alone, and performs the pool deletes, then the block put, in that order |
| Node.Chain.CreateGenesis | src/chain.cpp:189-202 | Stores, applies and appends the genesis block with its constants, and leaves the target alone |
| Node.Chain.BuildTarget | src/chain.cpp:333-337 | Fills the target that the target lemma is about |
| Node.Chain.VerifyBlockHeader | src/chain.cpp:374-384 | Its byte-wise proof-of-work test agrees with the target comparison of the live path; beyond that it asks for the tip as predecessor and a later timestamp |
| Node.Chain.LoadBlocks | src/chain.cpp:107-151 | The iterator loop loads and applies blocks in key order, and fails on the first record that does not parse or is not consumed whole |
| Node.Chain.LoadPool | src/chain.cpp:153-163 | The iterator loop rebuilds pool and spent set, and fails on the first record that does not parse |
| Node.Chain.Boot | src/chain.cpp:32-48 | Loads, creates genesis only on an empty chain, and fills the target: the start-up that the restart and crash theorems speak of; it writes the genesis block if there is no block, and nothing else |
| Server.SubmissionCanonical | src/net.cpp:58-80 | A parsed submission has its txid computed from its content, and its wire form is exactly the bytes consumed |
| Server.WebAcceptsEncodings | src/web.cpp:73-100 | The HTTP parser accepts a payload as a submission if and only if it is that submission's wire form, counts fit and the txid is computed |
| Server.TcpAcceptsEncodings | src/net.cpp:58-80 | The TCP parser, which does not look at what follows, reads a submission if and only if the payload begins with its wire form, counts fit and the txid is computed |
| Server.SubmissionLayout | src/net.cpp:58-80 | Bytes are a submission's wire form if and only if key, timestamp, counts, every field of every input and output, and signature stand at their offsets and nothing else does |
| Server.SubmissionFits | src/net.cpp:58-80 | A transaction read from a payload whose size fits 32 bits fits the stored form's 32-bit sizes |
| Server.OnCreateTx | src/net.cpp:257-289 | A cut-short payload changes nothing; any other is submitted once, trailing bytes ignored, and answered with the first failing reason; exactly the submission's writes happen and the target stays |
| Server.OnPostTransaction | src/web.cpp:466-480 | A cut-short payload or trailing bytes change nothing; any other is submitted once; exactly the submission's writes happen and the target stays |
| Server.DrawListed | src/net.cpp:98-109 | Looking txids up while reading them succeeds exactly when all can be read and all are pooled, with the drawn transactions |
| Server.RequestExact | src/net.cpp:82-117 | A payload reads as a block request, whatever follows, if and only if it begins with that request's wire form and the count fits 32 bits |
| Server.RequestLayout | src/net.cpp:88-104 | Bytes are a request's wire form if and only if previous hash, root, time, nonce, coinbase address, reward and time, count and each txid stand at their offsets and nothing else does |
| Server.RequestFits | src/net.cpp:98-109 | A block request read from a payload whose size fits 32 bits lists few enough txids for the stored form's count |
| Server.OnCreateBlock | src/net.cpp:295-341 | Without interference the handler's answer, effect and database writes are those of the atomic submission; a cut-short payload changes nothing; what it needs of the chain and the target it leaves in place for the next request |

## Left out

- Sockets, coroutines, message framing, HTTP routes, WebSockets, JSON and charts: plumbing around the handlers.
- The step model of a block submission starts from a payload that was read to its end; one cut short inside the txid list is covered by `Server.OnCreateBlock` only.
- LevelDB is a finite map with ordered iteration; power loss, unsynced writes and reordering between the two databases are not modelled.
- A database write that fails and throws inside `add_tx` or `add_block`: the source leaves memory half updated there and promises nothing.
- BLAKE2b and Ed25519 are parameters; hex decoding of the HTTP body and its size limit are not modelled.
- A claimed count so large that reserving memory throws: the source answers an invalid payload either way.
- Reads made of several calls (pool count then list, height then tip): each takes the lock separately and no consistency is promised.
- Timestamp order, reward amount and difficulty changes: not enforced by the live path.
- Logging, `dump_utxo`, `pretty`, stream operators, error texts, events, simple getters.
- `get_pool_txs`: the order of an unordered map.
- Transaction equality: the source compares txids only; `==` here compares all fields, and no modelled code compares transactions.
- Node.Chain.AddBlock: returns no height and fires no event; the lock is not part of the class, the order of lock acquisitions is modelled in `Protocol`.
- Node.Chain.LoadBlocks: iterator status errors are not modelled.
