/** The whole node state, what each operation does to it, and the pool invariant. */
module ChainSpec {
  import opened Types
  import opened ByteCodec
  import opened TxCodec
  import opened BlockCodec
  import opened Merkle
  import opened ByteOrder
  import opened LedgerSpec
  import opened Images

  const DIFFICULTY: nat := 3
  const UNITS: u64 := 1_000_000

  datatype State = State(
    blocks: seq<Block>,
    height: u32,
    ledger: Ledger,
    pool: map<Hash, Transaction>,
    spent: set<OutPoint>,
    blocksDb: Db,
    poolDb: Db)

  // -------------------------------------------------------- submitting a transaction

  function OutSum(outs: seq<TxOutput>): nat {
    if outs == [] then 0 else OutSum(outs[..|outs| - 1]) + outs[|outs| - 1].amount
  }

  function Amount(u: map<OutPoint, TxOutput>, op: OutPoint): nat {
    if op in u then u[op].amount else 0
  }

  function InSum(u: map<OutPoint, TxOutput>, ins: seq<OutPoint>): nat {
    if ins == [] then 0 else InSum(u, ins[..|ins| - 1]) + Amount(u, ins[|ins| - 1])
  }

  /** The first output that is zero or takes the total past 64 bits. */
  function OutputsVerdict(outs: seq<TxOutput>): TxError {
    if outs == [] then TxNone else
      var before := OutputsVerdict(outs[..|outs| - 1]);
      if before != TxNone then before
      else if outs[|outs| - 1].amount == 0 then TxZeroAmount
      else if OutSum(outs) > U64_MAX then TxInvalidPayload
      else TxNone
  }

  /** The first input that is not live, not the sender's, or takes the total past 64 bits. */
  function InputsVerdict(u: map<OutPoint, TxOutput>, sender: Address, ins: seq<OutPoint>): TxError {
    if ins == [] then TxNone else
      var before, last := InputsVerdict(u, sender, ins[..|ins| - 1]), ins[|ins| - 1];
      if before != TxNone then before
      else if last !in u || u[last].recipient != sender then TxBadOwnership
      else if InSum(u, ins) > U64_MAX then TxInvalidPayload
      else TxNone
  }

  /** The first failing check, over unbounded integers. */
  function Verdict(c: Crypto, s: State, st: SignedTransaction): TxError {
    var tx, u := st.tx, s.ledger.utxo;
    if OutputsVerdict(tx.outputs) != TxNone then OutputsVerdict(tx.outputs)
    else if tx.outputs == [] then TxZeroAmount
    else if tx.inputs == [] then TxInvalidPayload
    else if InputsVerdict(u, c.deriveAddress(st.pubkey), tx.inputs) != TxNone then
      InputsVerdict(u, c.deriveAddress(st.pubkey), tx.inputs)
    else if InSum(u, tx.inputs) < OutSum(tx.outputs) then TxBadOwnership
    else if !c.verifySig(st.pubkey, tx.txid, st.sig) then TxBadSignature
    else if tx.txid in s.pool then TxDuplicate
    else if exists op :: op in tx.inputs && op in s.spent then TxInputSpent
    else TxNone
  }

  ghost predicate GoodOutputs(outs: seq<TxOutput>) {
    (forall out :: out in outs ==> out.amount > 0) && OutSum(outs) <= U64_MAX
  }

  predicate OwnedBy(u: map<OutPoint, TxOutput>, sender: Address, op: OutPoint) {
    op in u && u[op].recipient == sender
  }

  ghost predicate GoodInputs(u: map<OutPoint, TxOutput>, sender: Address, ins: seq<OutPoint>) {
    (forall op :: op in ins ==> OwnedBy(u, sender, op)) && InSum(u, ins) <= U64_MAX
  }

  /** What a transaction must satisfy to enter the pool. */
  ghost predicate Acceptable(c: Crypto, s: State, st: SignedTransaction) {
    && st.tx.inputs != [] && st.tx.outputs != []
    && GoodOutputs(st.tx.outputs)
    && GoodInputs(s.ledger.utxo, c.deriveAddress(st.pubkey), st.tx.inputs)
    && InSum(s.ledger.utxo, st.tx.inputs) >= OutSum(st.tx.outputs)
    && c.verifySig(st.pubkey, st.tx.txid, st.sig)
    && st.tx.txid !in s.pool
    && Ops(st.tx.inputs) !! s.spent
  }

  /** The first output that spoils the sum is a zero one. */
  ghost predicate ZeroFirst(outs: seq<TxOutput>) {
    exists k :: 0 <= k < |outs| && GoodOutputs(outs[..k]) && outs[k].amount == 0
  }

  /** The first input that spoils the sum is one the sender cannot spend. */
  ghost predicate ForeignFirst(u: map<OutPoint, TxOutput>, sender: Address, ins: seq<OutPoint>) {
    exists k :: 0 <= k < |ins| && GoodInputs(u, sender, ins[..k]) && !OwnedBy(u, sender, ins[k])
  }

  lemma GoodOutputsLast(outs: seq<TxOutput>)
    requires outs != []
    ensures var init, last := outs[..|outs| - 1], outs[|outs| - 1];
      && (GoodOutputs(outs) <==> GoodOutputs(init) && last.amount > 0 && OutSum(outs) <= U64_MAX)
      && (ZeroFirst(outs) <==> ZeroFirst(init) || (GoodOutputs(init) && last.amount == 0))
  {
    var n := |outs| - 1;
    var init := outs[..n];
    assert outs == init + [outs[n]];
    assert forall k :: 0 <= k < n ==> outs[..k] == init[..k] && outs[k] == init[k];
    if ZeroFirst(init) {
      var k :| 0 <= k < n && GoodOutputs(init[..k]) && init[k].amount == 0;
      assert GoodOutputs(outs[..k]) && outs[k].amount == 0;
    }
  }

  lemma GoodInputsLast(u: map<OutPoint, TxOutput>, sender: Address, ins: seq<OutPoint>)
    requires ins != []
    ensures var init, last := ins[..|ins| - 1], ins[|ins| - 1];
      && (GoodInputs(u, sender, ins) <==>
          GoodInputs(u, sender, init) && OwnedBy(u, sender, last) && InSum(u, ins) <= U64_MAX)
      && (ForeignFirst(u, sender, ins) <==>
          ForeignFirst(u, sender, init) || (GoodInputs(u, sender, init) && !OwnedBy(u, sender, last)))
  {
    hide OwnedBy;
    var n := |ins| - 1;
    var init := ins[..n];
    assert ins == init + [ins[n]];
    assert forall k :: 0 <= k < n ==> ins[..k] == init[..k] && ins[k] == init[k];
    if ForeignFirst(u, sender, init) {
      var k :| 0 <= k < n && GoodInputs(u, sender, init[..k]) && !OwnedBy(u, sender, init[k]);
      assert GoodInputs(u, sender, ins[..k]) && !OwnedBy(u, sender, ins[k]);
    }
  }

  /** No complaint about the outputs exactly when they are good; a zero is reported exactly when it comes first. */
  lemma {:induction false} OutputsVerdictExact(outs: seq<TxOutput>)
    ensures OutputsVerdict(outs) == TxNone <==> GoodOutputs(outs)
    ensures OutputsVerdict(outs) == TxZeroAmount <==> ZeroFirst(outs)
    ensures OutputsVerdict(outs) in {TxNone, TxZeroAmount, TxInvalidPayload}
  {
    if outs != [] {
      hide GoodOutputs, ZeroFirst;
      OutputsVerdictExact(outs[..|outs| - 1]);
      GoodOutputsLast(outs);
    }
  }

  /** Likewise for the inputs, and the ones the sender cannot spend. */
  lemma {:induction false} InputsVerdictExact(u: map<OutPoint, TxOutput>, sender: Address, ins: seq<OutPoint>)
    ensures InputsVerdict(u, sender, ins) == TxNone <==> GoodInputs(u, sender, ins)
    ensures InputsVerdict(u, sender, ins) == TxBadOwnership <==> ForeignFirst(u, sender, ins)
    ensures InputsVerdict(u, sender, ins) in {TxNone, TxBadOwnership, TxInvalidPayload}
  {
    if ins != [] {
      hide GoodInputs, ForeignFirst;
      InputsVerdictExact(u, sender, ins[..|ins| - 1]);
      GoodInputsLast(u, sender, ins);
    }
  }

  /** Accepted exactly when acceptable. */
  lemma VerdictExact(c: Crypto, s: State, st: SignedTransaction)
    ensures Verdict(c, s, st) == TxNone <==> Acceptable(c, s, st)
  {
    OutputsVerdictExact(st.tx.outputs);
    InputsVerdictExact(s.ledger.utxo, c.deriveAddress(st.pubkey), st.tx.inputs);
  }

  /** Each refusal names the first check that fails. */
  lemma VerdictReason(c: Crypto, s: State, st: SignedTransaction)
    ensures var v, u, ins, outs := Verdict(c, s, st), s.ledger.utxo, st.tx.inputs, st.tx.outputs;
      var sender := c.deriveAddress(st.pubkey);
      var outputsPass := outs != [] && GoodOutputs(outs);
      var inputsPass := outputsPass && ins != [] && GoodInputs(u, sender, ins) && InSum(u, ins) >= OutSum(outs);
      var signed := inputsPass && c.verifySig(st.pubkey, st.tx.txid, st.sig);
      var outputsOverflow := outs != [] && !GoodOutputs(outs) && !ZeroFirst(outs);
      var foreign := ForeignFirst(u, sender, ins);
      var inputsBroken := !GoodInputs(u, sender, ins) && !foreign;
      var short := GoodInputs(u, sender, ins) && InSum(u, ins) < OutSum(outs);
      && (v == TxZeroAmount <==> outs == [] || ZeroFirst(outs))
      && (v == TxInvalidPayload <==> outputsOverflow || (outputsPass && (ins == [] || inputsBroken)))
      && (v == TxBadOwnership <==> outputsPass && ins != [] && (foreign || short))
      && (v == TxBadSignature <==> inputsPass && !signed)
      && (v == TxDuplicate <==> signed && st.tx.txid in s.pool)
      && (v == TxInputSpent <==> signed && st.tx.txid !in s.pool && !(Ops(ins) !! s.spent))
  {
    hide GoodOutputs, GoodInputs, ZeroFirst, ForeignFirst, InputsVerdict, InSum, OutSum;
    OutputsVerdictExact(st.tx.outputs);
    InputsVerdictExact(s.ledger.utxo, c.deriveAddress(st.pubkey), st.tx.inputs);
    if op :| op in st.tx.inputs && op in s.spent {
      assert op in Ops(st.tx.inputs);
    }
  }

  /** `hex_key` */
  function PoolKey(txid: Hash): Bytes {
    HexKey(txid)
  }

  function Admit(s: State, tx: Transaction): State {
    s.(pool := s.pool[tx.txid := tx],
       spent := s.spent + Ops(tx.inputs),
       poolDb := s.poolDb[PoolKey(tx.txid) := EncodeTx(tx)])
  }

  function AddTx(c: Crypto, s: State, st: SignedTransaction): State {
    if Verdict(c, s, st) == TxNone then Admit(s, st.tx) else s
  }

  /**
   What acceptance does: the transaction is pooled under its txid, its inputs are
   taken, its record can be read back, and nothing else changes. From then on a
   miner can list it and it is refused as a duplicate.
  */
  lemma AcceptanceTakesEffect(c: Crypto, s: State, st: SignedTransaction)
    requires Verdict(c, s, st) == TxNone
    ensures var s', tx, key := AddTx(c, s, st), st.tx, HexKey(st.tx.txid);
      && s'.pool == s.pool[tx.txid := tx]
      && (forall op :: op in s'.spent <==> op in s.spent || op in tx.inputs)
      && key in s'.poolDb && s'.poolDb - {key} == s.poolDb - {key}
      && (ParseTx(s'.poolDb[key], 0) == Parsed(tx, |s'.poolDb[key]|) <==> TxFits(tx))
      && s' == s.(pool := s'.pool, spent := s'.spent, poolDb := s'.poolDb)
      && Draw(s'.pool, [tx.txid]) == Some([tx])
      && Verdict(c, s', st) == TxDuplicate
  {
    hide OutputsVerdict, InputsVerdict, InSum, OutSum, ParseTx, EncodeTx, HexKey;
    var record := EncodeTx(st.tx);
    TxExactAt(record, 0, st.tx);
    AtWhole(record);
    var listed := [st.tx.txid];
    var pool := AddTx(c, s, st).pool;
    assert listed[..|listed| - 1] == [] && Draw(pool, []) == Some([]);
    assert Draw(pool, listed) == Some([] + [pool[st.tx.txid]]);
    assert [] + [pool[st.tx.txid]] == [st.tx];
  }

  /** What acceptance shuts out: any other transaction with one of its inputs is refused for that, and only that. */
  lemma AcceptanceTakesInputs(c: Crypto, s: State, st: SignedTransaction, other: SignedTransaction)
    requires Verdict(c, s, st) == TxNone && other.tx.txid != st.tx.txid
    ensures Verdict(c, AddTx(c, s, st), other) ==
      if Verdict(c, s, other) == TxNone && (exists op :: op in other.tx.inputs && op in st.tx.inputs)
      then TxInputSpent else Verdict(c, s, other)
  {
    hide OutputsVerdict, InputsVerdict, InSum, OutSum, EncodeTx, PoolKey;
    assert forall op :: op in AddTx(c, s, st).spent <==> op in s.spent || op in st.tx.inputs;
  }

  // -------------------------------------------------------------------- adding a block

  function ConfirmTx(s: State, tx: Transaction): State {
    var applied := s.(ledger := ApplyTx(s.ledger, tx));
    if tx.IsCoinbase() then applied else
      applied.(spent := s.spent - Ops(tx.inputs),
               pool := s.pool - {tx.txid},
               poolDb := s.poolDb - {PoolKey(tx.txid)})
  }

  function ConfirmAll(s: State, txs: seq<Transaction>): State {
    if txs == [] then s else ConfirmTx(ConfirmAll(s, txs[..|txs| - 1]), txs[|txs| - 1])
  }

  function AddBlock(s: State, b: Block): State {
    var t := ConfirmAll(s, b.transactions);
    t.(blocksDb := s.blocksDb[BlockKey(ToU32(|s.blocks|)) := EncodeBlock(b)],
       blocks := s.blocks + [b],
       height := ToU32(s.height + 1))
  }

  ghost function PoolTxids(txs: seq<Transaction>): set<Hash> {
    set tx | tx in txs && !tx.IsCoinbase() :: tx.txid
  }

  ghost function PoolKeys(txids: set<Hash>): set<Bytes> {
    Image<Hash, Bytes>(PoolKey, txids)
  }

  lemma DropOne<K, V>(m: map<K, V>, gone: set<K>, k: K)
    ensures m - gone - {k} == m - (gone + {k})
  {
  }

  lemma TxidsOfLast(txs: seq<Transaction>)
    requires txs != []
    ensures var init, last := txs[..|txs| - 1], txs[|txs| - 1];
      PoolTxids(txs) == PoolTxids(init) + if last.IsCoinbase() then {} else {last.txid}
  {
    assert txs == txs[..|txs| - 1] + [txs[|txs| - 1]];
  }

  lemma PoolKeysPlus(a: set<Hash>, t: Hash)
    ensures PoolKeys(a + {t}) == PoolKeys(a) + {PoolKey(t)}
  {
  }

  /** Confirming one by one replays the transactions and drops the non-coinbase ones from the pool. */
  lemma {:induction false} ConfirmedAll(s: State, txs: seq<Transaction>)
    ensures ConfirmAll(s, txs) == s.(
      ledger := ApplyAll(s.ledger, txs),
      spent := s.spent - SpentBy(txs),
      pool := s.pool - PoolTxids(txs),
      poolDb := s.poolDb - PoolKeys(PoolTxids(txs)))
  {
    if txs == [] {
      assert PoolTxids(txs) == {};
      assert PoolKeys(PoolTxids(txs)) == {};
    } else {
      var init, last := txs[..|txs| - 1], txs[|txs| - 1];
      ConfirmedAll(s, init);
      ConfirmedStep(s, ConfirmAll(s, init), init, last);
      assert txs == init + [last];
      assert (init + [last])[..|init|] == init;
    }
  }

  lemma SpentByPush(spent: set<OutPoint>, init: seq<Transaction>, last: Transaction)
    ensures spent - SpentBy(init + [last]) == spent - SpentBy(init) - Ops(last.inputs)
    ensures last.IsCoinbase() ==> SpentBy(init + [last]) == SpentBy(init)
  {
    assert (init + [last])[..|init|] == init;
  }

  lemma ConfirmedStep(s: State, t: State, init: seq<Transaction>, last: Transaction)
    requires t.spent == s.spent - SpentBy(init)
    requires t.pool == s.pool - PoolTxids(init)
    requires t.poolDb == s.poolDb - PoolKeys(PoolTxids(init))
    ensures var t', txs := ConfirmTx(t, last), init + [last];
      && t' == t.(ledger := ApplyTx(t.ledger, last), spent := t'.spent, pool := t'.pool, poolDb := t'.poolDb)
      && t'.spent == s.spent - SpentBy(txs)
      && t'.pool == s.pool - PoolTxids(txs)
      && t'.poolDb == s.poolDb - PoolKeys(PoolTxids(txs))
  {
    hide ApplyTx, PoolKey, PoolKeys, PoolTxids;
    var txs := init + [last];
    assert txs[..|txs| - 1] == init;
    SpentByPush(s.spent, init, last);
    TxidsOfLast(txs);
    if last.IsCoinbase() {
      assert PoolTxids(txs) == PoolTxids(init);
    } else {
      PoolKeysPlus(PoolTxids(init), last.txid);
      DropOne(s.pool, PoolTxids(init), last.txid);
      DropOne(s.poolDb, PoolKeys(PoolTxids(init)), PoolKey(last.txid));
    }
  }

  function Txids(txs: seq<Transaction>): seq<Hash> {
    if txs == [] then [] else Txids(txs[..|txs| - 1]) + [txs[|txs| - 1].txid]
  }

  function NewBlock(c: Crypto, prev: Hash, txs: seq<Transaction>, timestamp: u64, nonce: u64): Block {
    var header := BlockHeader(prev, MerkleRoot(c, Txids(txs)), timestamp, nonce);
    Block(header, HeaderHash(c, header), txs)
  }

  const GENESIS_ADDRESS: Address := [
    0xf4, 0x5a, 0x20, 0xe0, 0x43, 0xb0, 0x1f, 0x65, 0x63, 0x8a,
    0x46, 0x83, 0x1c, 0xe7, 0x9b, 0x8f, 0xec, 0x3f, 0x67, 0x37]

  function GenesisBlock(c: Crypto): Block {
    NewBlock(c, ZeroHash(),
             [NewTransaction(c, [], [TxOutput(GENESIS_ADDRESS, 15 * UNITS)], 1781545365)], 1781545365, 31496)
  }

  function CreateGenesis(c: Crypto, s: State): State {
    var b := GenesisBlock(c);
    s.(blocksDb := s.blocksDb[BlockKey(ToU32(|s.blocks|)) := EncodeBlock(b)],
       ledger := ApplyAll(s.ledger, b.transactions),
       blocks := s.blocks + [b],
       height := 1)
  }

  /** The genesis block, constant by constant. */
  lemma GenesisExact(c: Crypto)
    ensures var b := GenesisBlock(c);
      && b.header.prevHash == seq(32, _ => 0) && b.header.timestamp == 1781545365 && b.header.nonce == 31496
      && |b.transactions| == 1 && b.header.merkleRoot == b.transactions[0].txid
      && b.transactions[0].inputs == [] && b.transactions[0].timestamp == 1781545365
      && b.transactions[0].outputs == [TxOutput(GENESIS_ADDRESS, 15_000_000)]
      && Constructed(c, b.transactions[0])
  {
    hide HeaderHash, Preimage, Zeros;
    ZerosAre(32);
    var tx := GenesisBlock(c).transactions[0];
    TxidsAre([tx]);
    assert Txids([tx]) == [tx.txid];
    SmallTrees(c, tx.txid, tx.txid);
  }

  lemma ZerosAre(n: nat)
    ensures Zeros(n) == seq(n, _ => 0)
  {
  }

  // ----------------------------------------------------------------- submitting a block

  datatype BlockRequest = BlockRequest(
    prevHash: Hash, wireMerkle: Hash, timestamp: u64, nonce: u64,
    cbAddress: Address, cbReward: u64, cbTimestamp: u64,
    txids: seq<Hash>)

  function Coinbase(c: Crypto, req: BlockRequest): Transaction {
    NewTransaction(c, [], [TxOutput(req.cbAddress, req.cbReward)], req.cbTimestamp)
  }

  /** Takes the listed transactions from the pool; a missing one refuses the request. */
  function Draw(pool: map<Hash, Transaction>, txids: seq<Hash>): Option<seq<Transaction>> {
    if txids == [] then Some([]) else
      var init, last := Draw(pool, txids[..|txids| - 1]), txids[|txids| - 1];
      if init.Some? && last in pool then Some(init.value + [pool[last]]) else None
  }

  function RequestedBlock(c: Crypto, req: BlockRequest, txs: seq<Transaction>): Block {
    NewBlock(c, req.prevHash, [Coinbase(c, req)] + txs, req.timestamp, req.nonce)
  }

  function TipHash(s: State): Hash
    requires s.blocks != []
  {
    s.blocks[|s.blocks| - 1].hash
  }

  /** The checks on a complete block, in order. */
  function BlockVerdict(tip: Hash, req: BlockRequest, b: Block): BlockError {
    if b.header.merkleRoot != req.wireMerkle then BlockInvalidBlockHash
    else if LexLess(Target(DIFFICULTY), b.hash) then BlockHighHash
    else if b.header.prevHash != tip then BlockBadPreviousHash
    else BlockNone
  }

  /** The submission as one atomic step. */
  function SubmitBlock(c: Crypto, s: State, req: BlockRequest): (r: (BlockError, State))
    requires s.blocks != []
    ensures s.blocks <= r.1.blocks
  {
    match Draw(s.pool, req.txids)
    case None => (BlockInvalidPayload, s)
    case Some(txs) =>
      var b := RequestedBlock(c, req, txs);
      var err := BlockVerdict(TipHash(s), req, b);
      (err, if err == BlockNone then ConfirmedAll(s, b.transactions); AddBlock(s, b) else s)
  }

  /**
   Each answer to a submitted block is given exactly when its check is the first
   to fail: a listed txid that is not pooled, a Merkle root sent that is not the
   root of the block's txids, a hash that does not start with three zero bytes, a
   previous hash that is not the tip. Unless all pass the state stays as it was.
  */
  lemma SubmissionExact(c: Crypto, s: State, req: BlockRequest)
    requires s.blocks != []
    ensures var (err, s') := SubmitBlock(c, s, req);
      var pooled := forall t :: t in req.txids ==> t in s.pool;
      && (pooled <==> Draw(s.pool, req.txids).Some?)
      && (err == BlockInvalidPayload <==> !pooled)
      && (pooled ==>
        var b := RequestedBlock(c, req, Draw(s.pool, req.txids).value);
        var rootMatches := req.wireMerkle == MerkleRoot(c, Txids(b.transactions));
        var worked := b.hash[0] == b.hash[1] == b.hash[2] == 0;
        var onTip := req.prevHash == s.blocks[|s.blocks| - 1].hash;
        && (err == BlockInvalidBlockHash <==> !rootMatches)
        && (err == BlockHighHash <==> rootMatches && !worked)
        && (err == BlockBadPreviousHash <==> rootMatches && worked && !onTip)
        && (err == BlockNone <==> rootMatches && worked && onTip))
      && (err != BlockNone ==> s' == s)
  {
    hide MerkleRoot, HeaderHash, LexLess, Target, Txids, AddBlock, Coinbase;
    DrawFinds(s.pool, req.txids);
    if Draw(s.pool, req.txids).Some? {
      TargetExact(RequestedBlock(c, req, Draw(s.pool, req.txids).value).hash, DIFFICULTY);
    }
  }

  /**
   What an accepted request appends, field by field: one block on the tip with the
   request's time and nonce, whose coinbase pays the reward asked for to the
   address asked for, and whose other transactions are the listed ones in order.
  */
  lemma AcceptedBlock(c: Crypto, s: State, req: BlockRequest)
    requires s.blocks != [] && SubmitBlock(c, s, req).0 == BlockNone
    ensures var blocks' := SubmitBlock(c, s, req).1.blocks;
      && |blocks'| == |s.blocks| + 1 && blocks'[..|s.blocks|] == s.blocks
      && var b := blocks'[|s.blocks|];
         var txs := b.transactions;
      && b.header.prevHash == s.blocks[|s.blocks| - 1].hash
      && b.header.merkleRoot == req.wireMerkle
      && b.header.timestamp == req.timestamp && b.header.nonce == req.nonce
      && b.hash == HeaderHash(c, b.header)
      && |txs| == |req.txids| + 1
      && txs[0].inputs == [] && txs[0].outputs == [TxOutput(req.cbAddress, req.cbReward)]
      && txs[0].timestamp == req.cbTimestamp && Constructed(c, txs[0])
      && forall i :: 0 <= i < |req.txids| ==> req.txids[i] in s.pool && txs[i + 1] == s.pool[req.txids[i]]
  {
    hide RequestedBlock, SubmitBlock, HeaderHash, Constructed, Draw;
    Appended(c, s, req);
    DrawFinds(s.pool, req.txids);
    RequestedFields(c, req, Draw(s.pool, req.txids).value);
  }

  /** An accepted request appends the block it asks for, and its checks have passed. */
  lemma Appended(c: Crypto, s: State, req: BlockRequest)
    requires s.blocks != [] && SubmitBlock(c, s, req).0 == BlockNone
    ensures Draw(s.pool, req.txids).Some?
    ensures var b, s' := RequestedBlock(c, req, Draw(s.pool, req.txids).value), SubmitBlock(c, s, req).1;
      && s'.blocks == s.blocks + [b] && s'.ledger == ApplyAll(s.ledger, b.transactions)
      && b.header.merkleRoot == req.wireMerkle && b.header.prevHash == TipHash(s)
  {
    hide NewBlock, Coinbase, LexLess, Target, ConfirmAll, Draw, EncodeBlock, BlockKey;
    ConfirmedAll(s, RequestedBlock(c, req, Draw(s.pool, req.txids).value).transactions);
  }

  lemma RequestedFields(c: Crypto, req: BlockRequest, txs: seq<Transaction>)
    ensures var b := RequestedBlock(c, req, txs);
      && b.header.prevHash == req.prevHash
      && b.header.timestamp == req.timestamp && b.header.nonce == req.nonce
      && b.hash == HeaderHash(c, b.header)
      && |b.transactions| == |txs| + 1 && (forall i :: 0 <= i < |txs| ==> b.transactions[i + 1] == txs[i])
      && var cb := b.transactions[0];
      && cb.inputs == [] && cb.outputs == [TxOutput(req.cbAddress, req.cbReward)]
      && cb.timestamp == req.cbTimestamp && Constructed(c, cb)
  {
    hide MerkleRoot, HeaderHash, Txids, Preimage;
  }

  lemma {:induction false} TxidsAre(txs: seq<Transaction>)
    ensures |Txids(txs)| == |txs| && forall i :: 0 <= i < |txs| ==> Txids(txs)[i] == txs[i].txid
  {
    if txs != [] {
      TxidsAre(txs[..|txs| - 1]);
    }
  }

  /** An outpoint that none of the transactions creates stays live, with its output, unless one of them spends it. */
  lemma {:induction false} LiveUnlessSpent(l: Ledger, txs: seq<Transaction>, op: OutPoint)
    requires OutputsFit(txs)
    requires forall tx :: tx in txs && tx.txid == op.txid ==> op.index >= |tx.outputs|
    ensures var u' := ApplyAll(l, txs).utxo;
      && (op in u' <==> op in l.utxo && op !in SpentBy(txs))
      && (op in u' ==> u'[op] == l.utxo[op])
  {
    if txs != [] {
      var init, last := txs[..|txs| - 1], txs[|txs| - 1];
      assert txs == init + [last] && last in txs;
      LiveUnlessSpent(l, init, op);
      AppliedUtxo(ApplyAll(l, init), last);
      OutputMapAt(last.txid, last.outputs);
    }
  }

  /** An outpoint stays live with its output if nothing spends it and whatever creates it again creates the same output. */
  lemma {:induction false} LiveIfRepeated(l: Ledger, txs: seq<Transaction>, op: OutPoint)
    requires OutputsFit(txs) && op in l.utxo && op !in SpentBy(txs)
    requires forall tx :: tx in txs && tx.txid == op.txid && op.index < |tx.outputs| ==> tx.outputs[op.index] == l.utxo[op]
    ensures op in ApplyAll(l, txs).utxo && ApplyAll(l, txs).utxo[op] == l.utxo[op]
  {
    if txs != [] {
      var init, last := txs[..|txs| - 1], txs[|txs| - 1];
      assert txs == init + [last] && last in txs;
      LiveIfRepeated(l, init, op);
      AppliedUtxo(ApplyAll(l, init), last);
      OutputMapAt(last.txid, last.outputs);
      if op in TxCreates(last) {
        assert op == OutPointAt(last.txid, op.index);
      }
    }
  }

  /**
   The miner is paid: after an accepted request the coinbase's output is live for
   the address asked for with the reward asked for, if no listed transaction
   spends it or puts another output in its place; and where none bears the
   coinbase's txid, exactly if none spends it.
  */
  lemma CoinbasePaid(c: Crypto, s: State, req: BlockRequest)
    requires s.blocks != [] && SubmitBlock(c, s, req).0 == BlockNone
    requires forall t :: t in s.pool ==> |s.pool[t].outputs| <= U32_SIZE
    ensures var s' := SubmitBlock(c, s, req).1;
      var block := s'.blocks[|s.blocks|].transactions;
      var listed, reward := block[1..], TxOutput(req.cbAddress, req.cbReward);
      var op := OutPoint(block[0].txid, 0);
      var paid := op in s'.ledger.utxo && s'.ledger.utxo[op] == reward;
      && (op !in SpentBy(listed)
          && (forall tx :: tx in listed && tx.txid == op.txid && tx.outputs != [] ==> tx.outputs[0] == reward)
          ==> paid)
      && ((forall tx :: tx in listed ==> tx.txid != op.txid) ==> (paid <==> op !in SpentBy(listed)))
  {
    hide SubmitBlock, OutputsFit, SpentBy, ApplyAll, ApplyTx;
    AcceptedBlock(c, s, req);
    Appended(c, s, req);
    var block := SubmitBlock(c, s, req).1.blocks[|s.blocks|].transactions;
    var cb, listed := block[0], block[1..];
    assert block == [cb] + listed;
    ListedFit(s.pool, req.txids, block);
    ApplyConcat(s.ledger, [cb], listed);
    PaidFirst(s.ledger, cb, TxOutput(req.cbAddress, req.cbReward));
    var op := OutPoint(cb.txid, 0);
    var l := ApplyAll(s.ledger, [cb]);
    if op !in SpentBy(listed)
      && forall tx :: tx in listed && tx.txid == op.txid && op.index < |tx.outputs| ==> tx.outputs[op.index] == l.utxo[op]
    {
      LiveIfRepeated(l, listed, op);
    }
    if forall tx :: tx in listed ==> tx.txid != op.txid {
      LiveUnlessSpent(l, listed, op);
    }
  }

  lemma PaidFirst(l: Ledger, cb: Transaction, out: TxOutput)
    requires cb.outputs == [out]
    ensures var op := OutPoint(cb.txid, 0); op in ApplyAll(l, [cb]).utxo && ApplyAll(l, [cb]).utxo[op] == out
  {
    assert [cb][..0] == [];
    AppliedUtxo(l, cb);
    OutputMapAt(cb.txid, cb.outputs);
    assert OutPointAt(cb.txid, 0) == OutPoint(cb.txid, 0);
  }

  lemma ListedFit(pool: map<Hash, Transaction>, txids: seq<Hash>, block: seq<Transaction>)
    requires |block| == |txids| + 1 && forall t :: t in pool ==> |pool[t].outputs| <= U32_SIZE
    requires forall i :: 0 <= i < |txids| ==> txids[i] in pool && block[i + 1] == pool[txids[i]]
    ensures OutputsFit(block[1..])
  {
    forall tx | tx in block[1..] ensures |tx.outputs| <= U32_SIZE {
      var i :| 0 <= i < |block[1..]| && block[1..][i] == tx;
      assert block[i + 1] == tx && txids[i] in pool && pool[txids[i]] == tx;
    }
  }

  // ------------------------------------------------------------------ the pool invariant

  function PoolInputs(pool: map<Hash, Transaction>): set<OutPoint> {
    set t, op | t in pool && op in pool[t].inputs :: op
  }

  lemma PoolInputsAt(pool: map<Hash, Transaction>, op: OutPoint)
    ensures op in PoolInputs(pool) <==> exists t :: t in pool && op in pool[t].inputs
  {
  }

  /** The pool database holds each pooled transaction's serialisation under its hex txid, and nothing else. */
  ghost predicate Mirrors(db: Db, pool: map<Hash, Transaction>) {
    MirrorsVia<Hash, Transaction, Bytes>(db, pool, PoolKey, EncodeTx)
  }

  lemma PoolKeyIsInjective()
    ensures Injective<Hash, Bytes>(PoolKey)
  {
    forall a: Hash, b: Hash | PoolKey(a) == PoolKey(b) ensures a == b {
      HexKeyInjective(a, b);
    }
  }

  /** No two pooled transactions share an input. */
  ghost predicate Disjoint(pool: map<Hash, Transaction>) {
    forall t, t' :: t in pool && t' in pool && t != t' ==> Ops(pool[t].inputs) !! Ops(pool[t'].inputs)
  }

  ghost predicate PoolOk(s: State) {
    && (forall t :: t in s.pool ==> s.pool[t].txid == t && s.pool[t].inputs != [])
    && Disjoint(s.pool)
    && s.spent == PoolInputs(s.pool)
    && s.spent <= s.ledger.utxo.Keys
    && Mirrors(s.poolDb, s.pool)
  }

  lemma AdmittedInputs(pool: map<Hash, Transaction>, t: Hash, tx: Transaction)
    requires t !in pool
    ensures PoolInputs(pool[t := tx]) == PoolInputs(pool) + Ops(tx.inputs)
  {
    var pool' := pool[t := tx];
    forall op ensures op in PoolInputs(pool') <==> op in PoolInputs(pool) + Ops(tx.inputs) {
      if p :| p in pool && op in pool[p].inputs {
        assert p in pool' && op in pool'[p].inputs;
      }
      if op in tx.inputs {
        assert t in pool' && op in pool'[t].inputs;
      }
    }
  }

  lemma AdmittedDisjoint(pool: map<Hash, Transaction>, t: Hash, tx: Transaction)
    requires Disjoint(pool) && Ops(tx.inputs) !! PoolInputs(pool)
    ensures Disjoint(pool[t := tx])
  {
    forall p | p in pool ensures Ops(pool[p].inputs) <= PoolInputs(pool) {
    }
  }

  lemma AddTxKeepsPool(c: Crypto, s: State, st: SignedTransaction)
    requires PoolOk(s)
    ensures PoolOk(AddTx(c, s, st))
  {
    VerdictExact(c, s, st);
    if Acceptable(c, s, st) {
      var tx := st.tx;
      AdmittedInputs(s.pool, tx.txid, tx);
      AdmittedDisjoint(s.pool, tx.txid, tx);
      PoolKeyIsInjective();
      MirrorPut<Hash, Transaction, Bytes>(s.poolDb, s.pool, PoolKey, EncodeTx, tx.txid, tx);
    }
  }

  /** The state after some transactions are forgotten by the pool. */
  ghost function Drop(s: State, gone: set<Hash>): State {
    s.(pool := s.pool - gone, spent := PoolInputs(s.pool - gone), poolDb := s.poolDb - PoolKeys(gone))
  }

  lemma SubPoolInputs(pool: map<Hash, Transaction>, gone: set<Hash>)
    ensures PoolInputs(pool - gone) <= PoolInputs(pool)
  {
    forall op | op in PoolInputs(pool - gone) ensures op in PoolInputs(pool) {
      PoolInputsAt(pool - gone, op);
      PoolInputsAt(pool, op);
    }
  }

  lemma MirrorsDrop(db: Db, pool: map<Hash, Transaction>, gone: set<Hash>)
    requires Mirrors(db, pool)
    ensures Mirrors(db - PoolKeys(gone), pool - gone)
  {
    PoolKeyIsInjective();
    MirrorDrop<Hash, Transaction, Bytes>(db, pool, PoolKey, EncodeTx, gone);
  }

  lemma DisjointDrop(pool: map<Hash, Transaction>, gone: set<Hash>)
    requires Disjoint(pool)
    ensures Disjoint(pool - gone)
  {
  }

  lemma DropKeepsPool(s: State, gone: set<Hash>)
    requires PoolOk(s)
    ensures PoolOk(Drop(s, gone))
  {
    hide PoolInputs, Mirrors, Disjoint, PoolKeys;
    MirrorsDrop(s.poolDb, s.pool, gone);
    DisjointDrop(s.pool, gone);
    SubPoolInputs(s.pool, gone);
  }

  /** What a block drawn from the pool looks like. */
  ghost predicate DrawnFrom(pool: map<Hash, Transaction>, txs: seq<Transaction>) {
    && txs != [] && txs[0].IsCoinbase()
    && forall i :: 1 <= i < |txs| ==> txs[i].txid in pool && pool[txs[i].txid] == txs[i]
  }

  /** txs are the pool's entries under these txids, in order. */
  ghost predicate Entries(pool: map<Hash, Transaction>, txids: seq<Hash>, txs: seq<Transaction>) {
    && |txs| == |txids|
    && forall i :: 0 <= i < |txs| ==> txids[i] in pool && txs[i] == pool[txids[i]]
  }

  lemma EntriesPush(pool: map<Hash, Transaction>, txids: seq<Hash>, txs: seq<Transaction>, t: Hash)
    requires Entries(pool, txids, txs) && t in pool
    ensures Entries(pool, txids + [t], txs + [pool[t]])
  {
  }

  lemma {:induction false} DrawFinds(pool: map<Hash, Transaction>, txids: seq<Hash>)
    ensures Draw(pool, txids).Some? <==> forall t :: t in txids ==> t in pool
    ensures Draw(pool, txids).Some? ==> Entries(pool, txids, Draw(pool, txids).value)
  {
    if txids != [] {
      hide Entries;
      var init, last := txids[..|txids| - 1], txids[|txids| - 1];
      DrawFinds(pool, init);
      assert txids == init + [last] && last in txids;
      assert forall t :: t in init ==> t in txids;
      if Draw(pool, init).Some? && last in pool {
        EntriesPush(pool, init, Draw(pool, init).value, last);
      }
    }
  }

  /** What is not spent stays live. */
  lemma {:induction false} SurvivorsStay(l: Ledger, txs: seq<Transaction>)
    ensures l.utxo.Keys - SpentBy(txs) <= ApplyAll(l, txs).utxo.Keys
  {
    if txs != [] {
      SurvivorsStay(l, txs[..|txs| - 1]);
      AppliedUtxo(ApplyAll(l, txs[..|txs| - 1]), txs[|txs| - 1]);
    }
  }

  /** The inputs left in the pool are the old ones minus those of the confirmed transactions. */
  lemma RemainingInputs(pool: map<Hash, Transaction>, txs: seq<Transaction>)
    requires Disjoint(pool) && DrawnFrom(pool, txs)
    requires forall t :: t in pool ==> pool[t].txid == t && pool[t].inputs != []
    ensures PoolInputs(pool - PoolTxids(txs)) == PoolInputs(pool) - SpentBy(txs)
  {
    var rest := pool - PoolTxids(txs);
    forall op ensures op in PoolInputs(rest) <==> op in PoolInputs(pool) && op !in SpentBy(txs) {
      RemainingInput(pool, txs, op);
    }
  }

  lemma RemainingInput(pool: map<Hash, Transaction>, txs: seq<Transaction>, op: OutPoint)
    requires Disjoint(pool) && DrawnFrom(pool, txs)
    ensures op in PoolInputs(pool - PoolTxids(txs)) <==> op in PoolInputs(pool) && op !in SpentBy(txs)
  {
    var rest := pool - PoolTxids(txs);
    PoolInputsAt(rest, op);
    PoolInputsAt(pool, op);
    SpentByMembers(txs, op);
    if t :| t in pool && op in pool[t].inputs {
      if t in PoolTxids(txs) {
        ConfirmedIsPooled(pool, txs, t);
        assert op in SpentBy(txs);
        forall t' | t' in rest ensures op !in rest[t'].inputs {
          if op in rest[t'].inputs {
            SharedInput(pool, t, t', op);
          }
        }
      } else {
        assert t in rest && op in rest[t].inputs;
        forall tx | tx in txs ensures op !in tx.inputs {
          if op in tx.inputs {
            InputsOfDrawn(pool, txs, tx);
            SharedInput(pool, t, tx.txid, op);
          }
        }
      }
    }
  }

  lemma SharedInput(pool: map<Hash, Transaction>, t: Hash, t': Hash, op: OutPoint)
    requires Disjoint(pool) && t in pool && t' in pool && op in pool[t].inputs && op in pool[t'].inputs
    ensures t == t'
  {
    assert op in Ops(pool[t].inputs) && op in Ops(pool[t'].inputs);
  }

  lemma InputsOfDrawn(pool: map<Hash, Transaction>, txs: seq<Transaction>, tx: Transaction)
    requires DrawnFrom(pool, txs) && tx in txs && !tx.IsCoinbase()
    ensures tx.txid in pool && pool[tx.txid] == tx && tx.txid in PoolTxids(txs)
  {
  }

  lemma ConfirmedIsPooled(pool: map<Hash, Transaction>, txs: seq<Transaction>, t: Hash)
    requires DrawnFrom(pool, txs) && t in PoolTxids(txs)
    ensures t in pool && pool[t] in txs
  {
    var tx :| tx in txs && !tx.IsCoinbase() && tx.txid == t;
    InputsOfDrawn(pool, txs, tx);
  }

  /** Adding a block drawn from the pool keeps the invariant; it may even list a transaction twice. */
  lemma AddBlockKeepsPool(s: State, b: Block)
    requires PoolOk(s) && DrawnFrom(s.pool, b.transactions)
    ensures PoolOk(AddBlock(s, b))
    ensures AddBlock(s, b).pool == s.pool - PoolTxids(b.transactions)
  {
    ConfirmedAll(s, b.transactions);
    RemainingInputs(s.pool, b.transactions);
    SurvivorsStay(s.ledger, b.transactions);
    DropKeepsPool(s, PoolTxids(b.transactions));
  }
}
