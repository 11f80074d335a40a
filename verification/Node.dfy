/** The chain object: fields updated in place by loops, tied to the state functions. */
module Node {
  import opened Types
  import opened ByteCodec
  import opened TxCodec
  import opened BlockCodec
  import opened Merkle
  import opened ByteOrder
  import opened LedgerSpec
  import opened ChainSpec
  import opened Recovery

  /** Building a transaction computes its txid. */
  method ConstructTransaction(c: Crypto, inputs: seq<OutPoint>, outputs: seq<TxOutput>, timestamp: u64)
    returns (tx: Transaction)
    ensures tx == NewTransaction(c, inputs, outputs, timestamp)
  {
    var txid := ComputeHash(c, inputs, outputs, timestamp);
    tx := Transaction(txid, inputs, outputs, timestamp);
  }

  /** Building a block computes its Merkle root and caches its hash. */
  method ConstructBlock(c: Crypto, prev: Hash, txs: seq<Transaction>, timestamp: u64, nonce: u64) returns (b: Block)
    ensures b == NewBlock(c, prev, txs, timestamp, nonce)
  {
    var leaves: seq<Hash> := [];
    for i := 0 to |txs|
      invariant leaves == Txids(txs[..i])
    {
      leaves := leaves + [txs[i].txid];
      assert txs[..i + 1][..i] == txs[..i];
    }
    assert txs[..|txs|] == txs;
    var root, _ := ComputeMerkleRoot(c, leaves);
    var header := BlockHeader(prev, root, timestamp, nonce);
    var hash := ComputeHeaderHash(c, header);
    b := Block(header, hash, txs);
  }

  lemma {:induction false} OutputsVerdictSticks(outs: seq<TxOutput>, k: nat)
    requires k <= |outs| && OutputsVerdict(outs[..k]) != TxNone
    ensures OutputsVerdict(outs) == OutputsVerdict(outs[..k])
  {
    if k < |outs| {
      assert outs[..|outs| - 1][..k] == outs[..k];
      OutputsVerdictSticks(outs[..|outs| - 1], k);
    } else {
      assert outs[..k] == outs;
    }
  }

  lemma {:induction false} InputsVerdictSticks(u: map<OutPoint, TxOutput>, sender: Address, ins: seq<OutPoint>, k: nat)
    requires k <= |ins| && InputsVerdict(u, sender, ins[..k]) != TxNone
    ensures InputsVerdict(u, sender, ins) == InputsVerdict(u, sender, ins[..k])
  {
    if k < |ins| {
      assert ins[..|ins| - 1][..k] == ins[..k];
      InputsVerdictSticks(u, sender, ins[..|ins| - 1], k);
    } else {
      assert ins[..k] == ins;
    }
  }

  lemma {:induction false} LookupSticks(l: Ledger, spent: set<OutPoint>, ops: seq<OutPoint>, k: nat)
    requires k <= |ops| && Lookup(l, spent, ops[..k]).Failure?
    ensures Lookup(l, spent, ops).Failure?
  {
    if k < |ops| {
      assert ops[..|ops| - 1][..k] == ops[..k];
      LookupSticks(l, spent, ops[..|ops| - 1], k);
    } else {
      assert ops[..k] == ops;
    }
  }

  lemma {:induction false} ZeroSum(outs: seq<TxOutput>)
    requires OutputsVerdict(outs) == TxNone
    ensures OutSum(outs) == 0 <==> outs == []
  {
  }

  class Chain {
    const crypto: Crypto
    const difficulty: nat := DIFFICULTY
    var blocks: seq<Block>
    var height: u32
    var target: Hash
    var utxo: map<OutPoint, TxOutput>
    var addressUtxo: map<Address, seq<OutPoint>>
    var pool: map<Hash, Transaction>
    var poolSpent: set<OutPoint>
    var blocksDb: Db
    var poolDb: Db
    /** Every database write so far, in order. */
    ghost var journal: seq<Write>

    ghost function Books(): Ledger
      reads this
    {
      Ledger(utxo, addressUtxo)
    }

    ghost function Value(): State
      reads this
    {
      State(blocks, height, Books(), pool, poolSpent, blocksDb, poolDb)
    }

    /** An object with nothing loaded yet. */
    constructor (c: Crypto, blocksDb: Db, poolDb: Db)
      ensures crypto == c && journal == []
      ensures Value() == State([], 0, EmptyLedger(), map[], {}, blocksDb, poolDb)
    {
      crypto := c;
      blocks, height, target := [], 0, ZeroHash();
      utxo, addressUtxo := map[], map[];
      pool, poolSpent := map[], {};
      this.blocksDb, this.poolDb := blocksDb, poolDb;
      journal := [];
    }

    // -------------------------------------------------------- confirming a transaction

    /** Takes one outpoint out of the live outputs and out of its recipient's list. */
    method Spend(op: OutPoint)
      modifies this`utxo, this`addressUtxo
      ensures Books() == SpendOne(old(Books()), op)
    {
      if op in utxo {
        var recipient := utxo[op].recipient;
        var vec := if recipient in addressUtxo then addressUtxo[recipient] else [];
        vec := Erase(vec, op);
        if vec == [] {
          addressUtxo := addressUtxo - {recipient};
        } else {
          addressUtxo := addressUtxo[recipient := vec];
        }
        utxo := utxo - {op};
      }
    }

    method ApplyTx(tx: Transaction)
      modifies this`utxo, this`addressUtxo
      ensures Books() == LedgerSpec.ApplyTx(old(Books()), tx)
    {
      hide SpendOne;
      for i := 0 to |tx.inputs|
        invariant Books() == SpendAll(old(Books()), tx.inputs[..i])
      {
        assert tx.inputs[..i + 1][..i] == tx.inputs[..i];
        Spend(tx.inputs[i]);
      }
      assert tx.inputs[..|tx.inputs|] == tx.inputs;
      AddAll(tx);
    }

    /** Enters one output under its outpoint and appends it to its recipient's list. */
    method Receive(op: OutPoint, out: TxOutput)
      modifies this`utxo, this`addressUtxo
      ensures Books() == AddOne(old(Books()), op, out)
    {
      utxo := utxo[op := out];
      var vec := if out.recipient in addressUtxo then addressUtxo[out.recipient] else [];
      addressUtxo := addressUtxo[out.recipient := vec + [op]];
    }

    /** The loop over outputs, with its 32-bit counter. */
    method AddAll(tx: Transaction)
      modifies this`utxo, this`addressUtxo
      ensures Books() == AddOutputs(old(Books()), tx.txid, tx.outputs)
    {
      hide AddOne;
      var idx: u32 := 0;
      for i := 0 to |tx.outputs|
        invariant idx == ToU32(i)
        invariant Books() == AddOutputs(old(Books()), tx.txid, tx.outputs[..i])
      {
        assert tx.outputs[..i + 1][..i] == tx.outputs[..i];
        Receive(OutPoint(tx.txid, idx), tx.outputs[i]);
        idx := ToU32(idx + 1);
      }
      assert tx.outputs[..|tx.outputs|] == tx.outputs;
    }

    method RebuildUtxo()
      modifies this`utxo, this`addressUtxo
      ensures Books() == ApplyAll(EmptyLedger(), AllTxs(blocks))
    {
      utxo, addressUtxo := map[], map[];
      for i := 0 to |blocks|
        invariant Books() == ApplyAll(EmptyLedger(), AllTxs(blocks[..i]))
      {
        assert blocks[..i + 1] == blocks[..i] + [blocks[i]];
        AllTxsPush(blocks[..i], blocks[i]);
        ApplyConcat(EmptyLedger(), AllTxs(blocks[..i]), blocks[i].transactions);
        ApplyBlock(blocks[i]);
      }
      assert blocks[..|blocks|] == blocks;
    }

    /** The loop over one block's transactions. */
    method ApplyBlock(b: Block)
      modifies this`utxo, this`addressUtxo
      ensures Books() == ApplyAll(old(Books()), b.transactions)
    {
      var txs := b.transactions;
      for i := 0 to |txs|
        invariant Books() == ApplyAll(old(Books()), txs[..i])
      {
        assert txs[..i + 1][..i] == txs[..i];
        ApplyTx(txs[i]);
      }
      assert txs[..|txs|] == txs;
    }

    // ---------------------------------------------------------------- submissions

    /**
     The checks in their order, with 64-bit running sums guarded against
     overflow. The answer is the first failing check of the unbounded
     specification; acceptance is exactly acceptability; a refusal changes nothing.
    */
    method AddTx(st: SignedTransaction) returns (err: TxError)
      modifies this`pool, this`poolSpent, this`poolDb, this`journal
      ensures err == Verdict(crypto, old(Value()), st)
      ensures err == TxNone <==> Acceptable(crypto, old(Value()), st)
      ensures Value() == if err == TxNone then Admit(old(Value()), st.tx) else old(Value())
      ensures journal == old(journal) + TxWrites(crypto, old(Value()), st)
    {
      VerdictExact(crypto, Value(), st);
      hide Acceptable, Admit, OutSum, InSum, InputsVerdict;
      var sumOut: u64;
      err, sumOut := CheckOutputs(st.tx.outputs);
      if err != TxNone {
        return;
      }
      if st.tx.inputs == [] {
        return TxInvalidPayload;
      }
      err := CheckInputs(st, sumOut);
      if err != TxNone {
        return;
      }
      if !crypto.verifySig(st.pubkey, st.tx.txid, st.sig) {
        return TxBadSignature;
      }
      if st.tx.txid in pool {
        return TxDuplicate;
      }
      for i := 0 to |st.tx.inputs|
        invariant forall j :: 0 <= j < i ==> st.tx.inputs[j] !in poolSpent
      {
        if st.tx.inputs[i] in poolSpent {
          return TxInputSpent;
        }
      }
      Pool(st.tx);
      return TxNone;
    }

    /** The loop that marks inputs as spent by the pool. */
    method Reserve(inputs: seq<OutPoint>)
      modifies this`poolSpent
      ensures poolSpent == old(poolSpent) + Ops(inputs)
    {
      for i := 0 to |inputs|
        invariant poolSpent == old(poolSpent) + Ops(inputs[..i])
      {
        poolSpent := poolSpent + {inputs[i]};
        assert inputs[..i + 1] == inputs[..i] + [inputs[i]];
      }
      assert inputs[..|inputs|] == inputs;
    }

    /** Enters an accepted transaction in the pool and its database. */
    method Pool(tx: Transaction)
      modifies this`pool, this`poolSpent, this`poolDb, this`journal
      ensures Value() == Admit(old(Value()), tx)
      ensures journal == old(journal) + [PoolPut(tx)]
    {
      hide EncodeTx, PoolKey;
      Reserve(tx.inputs);
      pool := pool[tx.txid := tx];
      var w := new Writer();
      SerializeTransaction(tx, w);
      assert w.buf == EncodeTx(tx);
      poolDb := poolDb[PoolKey(tx.txid) := w.buf];
      journal := journal + [PoolPut(tx)];
    }

    /** The loop over outputs, and the check that they add up to something. */
    method CheckOutputs(outs: seq<TxOutput>) returns (err: TxError, sumOut: u64)
      ensures err == if outs == [] then TxZeroAmount else OutputsVerdict(outs)
      ensures err == TxNone ==> sumOut == OutSum(outs)
    {
      sumOut := 0;
      for i := 0 to |outs|
        invariant sumOut == OutSum(outs[..i]) && OutputsVerdict(outs[..i]) == TxNone
      {
        assert outs[..i + 1][..i] == outs[..i];
        if outs[i].amount == 0 {
          OutputsVerdictSticks(outs, i + 1);
          return TxZeroAmount, sumOut;
        }
        if sumOut > 0xFFFF_FFFF_FFFF_FFFF - outs[i].amount {
          OutputsVerdictSticks(outs, i + 1);
          return TxInvalidPayload, sumOut;
        }
        sumOut := sumOut + outs[i].amount;
      }
      assert outs[..|outs|] == outs;
      ZeroSum(outs);
      err := if sumOut == 0 then TxZeroAmount else TxNone;
    }

    /** The loop over inputs, and the comparison of the two sums. */
    method CheckInputs(st: SignedTransaction, sumOut: u64) returns (err: TxError)
      ensures var sender, ins := crypto.deriveAddress(st.pubkey), st.tx.inputs;
        err == if InputsVerdict(utxo, sender, ins) != TxNone then InputsVerdict(utxo, sender, ins)
               else if InSum(utxo, ins) < sumOut then TxBadOwnership
               else TxNone
    {
      var sender := crypto.deriveAddress(st.pubkey);
      var ins := st.tx.inputs;
      var sumIn: u64 := 0;
      for i := 0 to |ins|
        invariant sumIn == InSum(utxo, ins[..i]) && InputsVerdict(utxo, sender, ins[..i]) == TxNone
      {
        assert ins[..i + 1][..i] == ins[..i];
        if ins[i] !in utxo {
          InputsVerdictSticks(utxo, sender, ins, i + 1);
          return TxBadOwnership;
        }
        if utxo[ins[i]].recipient != sender {
          InputsVerdictSticks(utxo, sender, ins, i + 1);
          return TxBadOwnership;
        }
        if sumIn > 0xFFFF_FFFF_FFFF_FFFF - utxo[ins[i]].amount {
          InputsVerdictSticks(utxo, sender, ins, i + 1);
          return TxInvalidPayload;
        }
        sumIn := sumIn + utxo[ins[i]].amount;
      }
      assert ins[..|ins|] == ins;
      return if sumIn < sumOut then TxBadOwnership else TxNone;
    }

    // --------------------------------------------------------------------- queries

    method GetUtxos(addr: Address) returns (r: Result<seq<(OutPoint, u64)>>)
      ensures r == Lookup(Books(), poolSpent, Entry(addressUtxo, addr))
    {
      if addr !in addressUtxo {
        return Success([]);
      }
      var ops := addressUtxo[addr];
      var outpoints: seq<(OutPoint, u64)> := [];
      for i := 0 to |ops|
        invariant Lookup(Books(), poolSpent, ops[..i]) == Success(outpoints)
      {
        assert ops[..i + 1][..i] == ops[..i];
        if ops[i] !in poolSpent {
          if ops[i] !in utxo {
            LookupSticks(Books(), poolSpent, ops, i + 1);
            return Failure;
          }
          outpoints := outpoints + [(ops[i], utxo[ops[i]].amount)];
        }
      }
      assert ops[..|ops|] == ops;
      return Success(outpoints);
    }

    // ---------------------------------------------------------------------- blocks

    method StoreBlock(b: Block)
      modifies this`blocksDb, this`journal
      ensures blocksDb == old(blocksDb)[BlockKey(ToU32(|blocks|)) := EncodeBlock(b)]
      ensures journal == old(journal) + [BlockPut(|blocks|, b)]
    {
      var bytes := SerializeBlock(b);
      blocksDb := blocksDb[BlockKey(ToU32(|blocks|)) := bytes];
      journal := journal + [BlockPut(|blocks|, b)];
    }

    /** One transaction of a block: apply it and, unless it is a coinbase, forget it in the pool. */
    method Confirm(tx: Transaction)
      modifies this`utxo, this`addressUtxo, this`pool, this`poolSpent, this`poolDb, this`journal
      ensures Value() == ConfirmTx(old(Value()), tx)
      ensures journal == old(journal) + if tx.IsCoinbase() then [] else [DeletePool(PoolKey(tx.txid))]
    {
      hide LedgerSpec.ApplyTx, PoolKey;
      ApplyTx(tx);
      if tx.IsCoinbase() {
        return;
      }
      for j := 0 to |tx.inputs|
        invariant poolSpent == old(poolSpent) - Ops(tx.inputs[..j])
        modifies this`poolSpent
      {
        poolSpent := poolSpent - {tx.inputs[j]};
        assert tx.inputs[..j + 1] == tx.inputs[..j] + [tx.inputs[j]];
      }
      assert tx.inputs[..|tx.inputs|] == tx.inputs;
      pool := pool - {tx.txid};
      poolDb := poolDb - {PoolKey(tx.txid)};
      journal := journal + [DeletePool(PoolKey(tx.txid))];
    }

    method AddBlock(b: Block)
      modifies this
      ensures Value() == ChainSpec.AddBlock(old(Value()), b)
      ensures journal == old(journal) + BlockWrites(old(Value()), b)
      ensures blocks == old(blocks) + [b] && target == old(target)
    {
      hide ConfirmTx, EncodeBlock, PoolKey, BlockKey;
      var txs := b.transactions;
      ghost var before := Value();
      for i := 0 to |txs|
        invariant Value() == ConfirmAll(before, txs[..i])
        invariant journal == old(journal) + PoolDeletes(txs[..i])
        invariant blocks == before.blocks && height == before.height && blocksDb == before.blocksDb
        invariant target == old(target)
      {
        assert txs[..i + 1][..i] == txs[..i];
        Confirm(txs[i]);
      }
      assert txs[..|txs|] == txs;
      StoreBlock(b);
      blocks := blocks + [b];
      height := ToU32(height + 1);
    }

    method CreateGenesis()
      modifies this
      ensures Value() == ChainSpec.CreateGenesis(crypto, old(Value()))
      ensures journal == old(journal) + [BlockPut(|old(blocks)|, GenesisBlock(crypto))]
      ensures target == old(target)
    {
      var outs := [TxOutput(GENESIS_ADDRESS, 15 * UNITS)];
      var coinbase := ConstructTransaction(crypto, [], outs, 1781545365);
      var b := ConstructBlock(crypto, ZeroHash(), [coinbase], 1781545365, 31496);
      StoreBlock(b);
      ApplyBlock(b);
      blocks := blocks + [b];
      height := 1;
    }

    method BuildTarget()
      requires difficulty <= 32
      modifies this`target
      ensures target == Target(difficulty)
    {
      target := TargetBytes(32, 0);
      for i := 0 to difficulty
        invariant target == TargetBytes(32, i)
      {
        target := target[i := 0];
        assert target == TargetBytes(32, i + 1);
      }
    }

    /** The unused header check: its byte-by-byte proof-of-work test is the target comparison of the live path. */
    method VerifyBlockHeader(b: Block) returns (ok: bool)
      requires blocks != []
      ensures ok <==>
        && b.header.prevHash == TipHash(Value())
        && b.header.timestamp > blocks[|blocks| - 1].header.timestamp
        && !LexLess(Target(DIFFICULTY), b.hash)
    {
      hide LexLess, Target;
      TargetExact(b.hash, DIFFICULTY);
      if b.header.prevHash != blocks[|blocks| - 1].hash {
        return false;
      }
      if b.header.timestamp <= blocks[|blocks| - 1].header.timestamp {
        return false;
      }
      for i := 0 to difficulty
        invariant forall j :: 0 <= j < i ==> b.hash[j] == 0
      {
        if b.hash[i] != 0 {
          return false;
        }
      }
      return true;
    }

    // --------------------------------------------------------------------- loading

    method LoadBlocks() returns (ok: bool)
      requires blocks == [] && Books() == EmptyLedger()
      modifies this`blocks, this`height, this`utxo, this`addressUtxo
      ensures match Recovery.LoadBlocks(crypto, blocksDb, blocksDb.Keys, [], EmptyLedger())
        case None => !ok
        case Some((bs, l)) => ok && blocks == bs && Books() == l && height == ToU32(|bs|)
    {
      hide ParseBlock, LedgerSpec.ApplyTx, ApplyAll, IsLeast, LexLess, Least;
      var keys := blocksDb.Keys;
      while keys != {}
        invariant keys <= blocksDb.Keys
        invariant Recovery.LoadBlocks(crypto, blocksDb, keys, blocks, Books())
          == Recovery.LoadBlocks(crypto, blocksDb, blocksDb.Keys, [], EmptyLedger())
        decreases |keys|
      {
        var k := NextKey(keys);
        var reader := new Reader(blocksDb[k]);
        var res := DeserializeBlock(crypto, reader);
        if res.Failure? || reader.offset != |blocksDb[k]| {
          return false;
        }
        ApplyBlock(res.value);
        blocks := blocks + [res.value];
        keys := keys - {k};
      }
      height := ToU32(|blocks|);
      return true;
    }

    method LoadPool() returns (ok: bool)
      requires pool == map[] && poolSpent == {}
      modifies this`pool, this`poolSpent
      ensures match Recovery.LoadPool(poolDb, poolDb.Keys, map[], {})
        case None => !ok
        case Some((p, spent)) => ok && pool == p && poolSpent == spent
    {
      hide ParseTx, IsLeast, LexLess, Ops, Least;
      var keys := poolDb.Keys;
      while keys != {}
        invariant keys <= poolDb.Keys
        invariant Recovery.LoadPool(poolDb, keys, pool, poolSpent) == Recovery.LoadPool(poolDb, poolDb.Keys, map[], {})
        decreases |keys|
      {
        var k := NextKey(keys);
        var reader := new Reader(poolDb[k]);
        var res := DeserializeTransaction(reader);
        if res.Failure? {
          return false;
        }
        var tx := res.value;
        Reserve(tx.inputs);
        pool := pool[tx.txid := tx];
        keys := keys - {k};
      }
      return true;
    }

    /** The iterator: the least key not visited yet. */
    method NextKey(keys: set<Bytes>) returns (k: Bytes)
      requires keys != {}
      ensures k in keys && k == Least(keys)
    {
      SomeLeast(keys);
      k :| k in keys && IsLeast(k, keys);
      LeastUnique(k, Least(keys), keys);
    }

    /** Start-up: load both databases, create the genesis block if there is none, fill the target. */
    method Boot() returns (ok: bool)
      requires Value() == State([], 0, EmptyLedger(), map[], {}, blocksDb, poolDb)
      modifies this
      ensures match Recovery.Boot(crypto, old(blocksDb), old(poolDb))
        case None => !ok
        case Some(s) => ok && Value() == s && target == Target(DIFFICULTY)
      ensures journal == old(journal) + BootWrites(crypto, old(blocksDb), old(poolDb))
    {
      hide Recovery.LoadBlocks, Recovery.LoadPool, GenesisBlock, EncodeBlock, BlockKey, ApplyAll, Target;
      LoadsEach(crypto, blocksDb, blocksDb.Keys, [], EmptyLedger());
      ok := LoadBlocks();
      if !ok {
        return;
      }
      ok := LoadPool();
      if !ok {
        return;
      }
      if blocks == [] {
        CreateGenesis();
      }
      BuildTarget();
    }
  }
}
