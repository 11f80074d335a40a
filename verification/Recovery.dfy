/**
 Starting a node from its two databases, and what a crash in the middle of an
 operation's writes leaves behind.
*/
module Recovery {
  import opened Types
  import opened ByteCodec
  import opened TxCodec
  import opened BlockCodec
  import opened Merkle
  import opened ByteOrder
  import opened LedgerSpec
  import opened ChainSpec

  // ------------------------------------------------------------------ loading

  lemma SomeLeast(keys: set<Bytes>)
    requires keys != {}
    ensures exists k :: IsLeast(k, keys)
  {
    var k := LeastExists(keys);
  }

  /** The key an iterator over these keys visits next. */
  ghost function Least(keys: set<Bytes>): (k: Bytes)
    requires keys != {}
    ensures IsLeast(k, keys)
  {
    SomeLeast(keys);
    var k :| IsLeast(k, keys);
    k
  }

  /** Visits the remaining keys in order; a block must fill its record exactly. */
  ghost function LoadBlocks(c: Crypto, db: Db, keys: set<Bytes>, blocks: seq<Block>, l: Ledger): Option<(seq<Block>, Ledger)>
    requires keys <= db.Keys
    decreases |keys|
  {
    if keys == {} then Some((blocks, l)) else
      var k := Least(keys);
      match ParseBlock(c, db[k], 0)
      case Truncated => None
      case Parsed(b, next) =>
        if next != |db[k]| then None
        else LoadBlocks(c, db, keys - {k}, blocks + [b], ApplyAll(l, b.transactions))
  }

  /** Pool records are read from their start; what follows the transaction is ignored. */
  ghost function LoadPool(db: Db, keys: set<Bytes>, pool: map<Hash, Transaction>, spent: set<OutPoint>):
    Option<(map<Hash, Transaction>, set<OutPoint>)>
    requires keys <= db.Keys
    decreases |keys|
  {
    if keys == {} then Some((pool, spent)) else
      var k := Least(keys);
      match ParseTx(db[k], 0)
      case Truncated => None
      case Parsed(tx, _) =>
        LoadPool(db, keys - {k}, pool[tx.txid := tx], spent + Ops(tx.inputs))
  }

  /** Construction of the node; None when a record cannot be read. */
  ghost function Boot(c: Crypto, blocksDb: Db, poolDb: Db): (r: Option<State>)
    ensures r.Some? ==> r.value.blocks != []
  {
    match LoadBlocks(c, blocksDb, blocksDb.Keys, [], EmptyLedger())
    case None => None
    case Some((blocks, l)) =>
      match LoadPool(poolDb, poolDb.Keys, map[], {})
      case None => None
      case Some((pool, spent)) =>
        var s := State(blocks, ToU32(|blocks|), l, pool, spent, blocksDb, poolDb);
        Some(if blocks == [] then CreateGenesis(c, s) else s)
  }

  /** A record that start-up accepts as a block: it reads as one and is used up. */
  predicate BlockRecord(c: Crypto, raw: Bytes) {
    ParseBlock(c, raw, 0).Parsed? && ParseBlock(c, raw, 0).next == |raw|
  }

  lemma {:induction false} LoadsBlocksIff(c: Crypto, db: Db, keys: set<Bytes>, blocks: seq<Block>, l: Ledger)
    requires keys <= db.Keys
    ensures LoadBlocks(c, db, keys, blocks, l).Some? <==> forall k :: k in keys ==> BlockRecord(c, db[k])
    decreases |keys|
  {
    hide ParseBlock, ApplyAll, IsLeast, LexLess;
    if keys != {} {
      var k := Least(keys);
      LeastIn(keys);
      assert forall other :: other in keys <==> other == k || other in keys - {k};
      if BlockRecord(c, db[k]) {
        var b := ParseBlock(c, db[k], 0).value;
        LoadsBlocksIff(c, db, keys - {k}, blocks + [b], ApplyAll(l, b.transactions));
      }
    }
  }

  lemma {:induction false} LoadsPoolIff(db: Db, keys: set<Bytes>, pool: map<Hash, Transaction>, spent: set<OutPoint>)
    requires keys <= db.Keys
    ensures LoadPool(db, keys, pool, spent).Some? <==> forall k :: k in keys ==> ParseTx(db[k], 0).Parsed?
    decreases |keys|
  {
    hide ParseTx, IsLeast, LexLess, Ops;
    if keys != {} {
      var k := Least(keys);
      LeastIn(keys);
      assert forall other :: other in keys <==> other == k || other in keys - {k};
      if ParseTx(db[k], 0).Parsed? {
        var tx := ParseTx(db[k], 0).value;
        LoadsPoolIff(db, keys - {k}, pool[tx.txid := tx], spent + Ops(tx.inputs));
      }
    }
  }

  lemma LeastIn(keys: set<Bytes>)
    requires keys != {}
    ensures Least(keys) in keys
  {
  }

  /**
   On any two databases whatever, start-up succeeds if and only if every block
   record reads as a block and is used up, and every pool record begins with a
   transaction.
  */
  lemma BootSucceeds(c: Crypto, blocksDb: Db, poolDb: Db)
    ensures Boot(c, blocksDb, poolDb).Some? <==>
      && (forall k :: k in blocksDb ==> BlockRecord(c, blocksDb[k]))
      && (forall k :: k in poolDb ==> ParseTx(poolDb[k], 0).Parsed?)
  {
    hide LoadBlocks, LoadPool, ParseTx, BlockRecord, GenesisBlock, ApplyAll;
    LoadsBlocksIff(c, blocksDb, blocksDb.Keys, [], EmptyLedger());
    LoadsPoolIff(poolDb, poolDb.Keys, map[], {});
  }

  // ---------------------------------------------------------------- invariant

  function AllTxs(blocks: seq<Block>): seq<Transaction> {
    if blocks == [] then [] else AllTxs(blocks[..|blocks| - 1]) + blocks[|blocks| - 1].transactions
  }

  lemma AllTxsPush(blocks: seq<Block>, b: Block)
    ensures AllTxs(blocks + [b]) == AllTxs(blocks) + b.transactions
  {
    assert (blocks + [b])[..|blocks|] == blocks;
  }

  ghost predicate BlockOk(c: Crypto, b: Block) {
    && b.hash == HeaderHash(c, b.header)
    && b.header.merkleRoot == MerkleRoot(c, Txids(b.transactions))
    && b.transactions != [] && b.transactions[0].IsCoinbase()
    && (forall i :: 1 <= i < |b.transactions| ==> !b.transactions[i].IsCoinbase())
    && BlockFits(b)
  }

  /** Block i extends block i-1 and meets the target. */
  ghost predicate Extends(blocks: seq<Block>, i: nat)
    requires 0 < i < |blocks|
  {
    && blocks[i].header.prevHash == blocks[i - 1].hash
    && !LexLess(Target(DIFFICULTY), blocks[i].hash)
  }

  ghost predicate ChainOk(c: Crypto, blocks: seq<Block>) {
    && blocks != [] && blocks[0] == GenesisBlock(c)
    && (forall i :: 0 <= i < |blocks| ==> BlockOk(c, blocks[i]))
    && (forall i :: 0 < i < |blocks| ==> Extends(blocks, i))
  }

  function KeysFrom(i: nat, n: nat): set<Bytes>
    requires n <= 0x1_0000_0000
  {
    set h: int | i <= h < n :: BlockKey(h)
  }

  /** The block database holds block i under the key of height i, and nothing else. */
  ghost predicate Stored(db: Db, blocks: seq<Block>) {
    && |blocks| <= 0x1_0000_0000
    && db.Keys == KeysFrom(0, |blocks|)
    && forall i :: 0 <= i < |blocks| ==> BlockKey(i) in db && db[BlockKey(i)] == EncodeBlock(blocks[i])
  }

  ghost predicate PoolFits(pool: map<Hash, Transaction>) {
    forall t :: t in pool ==> NestedFits(pool[t])
  }

  ghost predicate Inv(c: Crypto, s: State) {
    && ChainOk(c, s.blocks)
    && s.height == |s.blocks| < 0x1_0000_0000
    && s.ledger == ApplyAll(EmptyLedger(), AllTxs(s.blocks))
    && Stored(s.blocksDb, s.blocks)
    && PoolOk(s) && PoolFits(s.pool)
  }

  // ------------------------------------------------------- restart is the identity

  lemma FirstKey(i: nat, n: nat)
    requires i < n <= 0x1_0000_0000
    ensures BlockKey(i) in KeysFrom(i, n) && Least(KeysFrom(i, n)) == BlockKey(i)
    ensures KeysFrom(i, n) - {BlockKey(i)} == KeysFrom(i + 1, n)
  {
    forall h: int | i <= h < n ensures BlockKey(h) == BlockKey(i) <==> h == i {
      BlockKeyOrder(i, h);
    }
    forall k | k in KeysFrom(i, n) ensures k == BlockKey(i) || LexLess(BlockKey(i), k) {
      var h: int :| i <= h < n && k == BlockKey(h);
      BlockKeyOrder(i, h);
    }
    assert BlockKey(i) in KeysFrom(i, n);
    LeastUnique(BlockKey(i), Least(KeysFrom(i, n)), KeysFrom(i, n));
  }

  lemma ReadBack(c: Crypto, b: Block)
    requires BlockFits(b) && b.hash == HeaderHash(c, b.header)
    ensures ParseBlock(c, EncodeBlock(b), 0) == Parsed(b, |EncodeBlock(b)|)
  {
    AtWhole(EncodeBlock(b));
    BlockParses(c, EncodeBlock(b), 0, b);
  }

  /** From any point on, loading the remaining keys appends the remaining blocks in height order. */
  lemma {:induction false} LoadsBlocks(c: Crypto, db: Db, blocks: seq<Block>, i: nat)
    requires Stored(db, blocks) && i <= |blocks|
    requires forall j :: 0 <= j < |blocks| ==> BlockFits(blocks[j]) && blocks[j].hash == HeaderHash(c, blocks[j].header)
    requires KeysFrom(i, |blocks|) <= db.Keys
    ensures LoadBlocks(c, db, KeysFrom(i, |blocks|), blocks[..i], ApplyAll(EmptyLedger(), AllTxs(blocks[..i])))
      == Some((blocks, ApplyAll(EmptyLedger(), AllTxs(blocks))))
    decreases |blocks| - i
  {
    hide ParseBlock, EncodeBlock, BlockKey, ApplyAll, HeaderHash, BlockFits;
    if i == |blocks| {
      assert KeysFrom(i, |blocks|) == {};
      assert blocks[..i] == blocks;
    } else {
      var b, before := blocks[i], blocks[..i];
      FirstKey(i, |blocks|);
      assert BlockKey(i) in KeysFrom(i, |blocks|);
      ReadBack(c, b);
      assert blocks[..i + 1] == before + [b];
      AllTxsPush(before, b);
      ApplyConcat(EmptyLedger(), AllTxs(before), b.transactions);
      LoadsBlocks(c, db, blocks, i + 1);
    }
  }

  lemma ReadBackTx(tx: Transaction)
    requires TxFits(tx)
    ensures ParseTx(EncodeTx(tx), 0) == Parsed(tx, |EncodeTx(tx)|)
  {
    AtWhole(EncodeTx(tx));
    TxParses(EncodeTx(tx), 0, tx);
  }

  /** The part of the pool stored under these keys. */
  function PoolAt(pool: map<Hash, Transaction>, keys: set<Bytes>): map<Hash, Transaction> {
    map t | t in pool && PoolKey(t) in keys :: pool[t]
  }

  lemma {:induction false} LoadsPool(
    db: Db, pool: map<Hash, Transaction>, keys: set<Bytes>, p: map<Hash, Transaction>, spent: set<OutPoint>)
    requires Mirrors(db, pool) && PoolFits(pool) && keys <= db.Keys
    requires forall t :: t in pool ==> pool[t].txid == t
    ensures LoadPool(db, keys, p, spent) == Some((p + PoolAt(pool, keys), spent + PoolInputs(PoolAt(pool, keys))))
    decreases |keys|
  {
    hide ParseTx, EncodeTx, PoolKey;
    if keys == {} {
      assert PoolAt(pool, keys) == map[];
      assert PoolInputs(map[]) == {};
      assert p + map[] == p;
      assert spent + {} == spent;
    } else {
      var k := Least(keys);
      assert k in db.Keys;
      var t :| t in pool.Keys && k == PoolKey(t);
      var tx := pool[t];
      ReadBackTx(tx);
      var rest := PoolAt(pool, keys - {k});
      LoadsPool(db, pool, keys - {k}, p[t := tx], spent + Ops(tx.inputs));
      PoolAtStep(pool, keys, t);
      AdmittedInputs(rest, t, tx);
      PutThrough(p, rest, t, tx);
      UnionThrough(spent, PoolInputs(rest), Ops(tx.inputs));
    }
  }

  lemma PutThrough<K, V>(p: map<K, V>, rest: map<K, V>, k: K, v: V)
    requires k !in rest
    ensures p[k := v] + rest == p + rest[k := v]
  {
  }

  lemma UnionThrough<T>(a: set<T>, b: set<T>, c: set<T>)
    ensures a + c + b == a + (b + c)
  {
  }

  lemma PoolAtStep(pool: map<Hash, Transaction>, keys: set<Bytes>, t: Hash)
    requires t in pool && PoolKey(t) in keys
    ensures t !in PoolAt(pool, keys - {PoolKey(t)})
    ensures PoolAt(pool, keys) == PoolAt(pool, keys - {PoolKey(t)})[t := pool[t]]
  {
    forall t': Hash | PoolKey(t') == PoolKey(t) ensures t' == t {
      HexKeyInjective(t, t');
    }
  }

  /**
   Reconstructing from the databases of any state that satisfies the invariant
   gives back that state: blocks, height, unspent outputs, the address index
   with the order of its lists, pool, spent set.
  */
  lemma RestartRefinesLive(c: Crypto, s: State)
    requires Inv(c, s)
    ensures Boot(c, s.blocksDb, s.poolDb) == Some(s)
  {
    hide Inv, Stored, Mirrors, PoolFits, ApplyAll, AllTxs, LoadBlocks, LoadPool, PoolInputs, BlockFits, HeaderHash;
    Parts(c, s);
    LoadsBlocks(c, s.blocksDb, s.blocks, 0);
    assert s.blocks[..0] == [] && AllTxs([]) == [] && ApplyAll(EmptyLedger(), []) == EmptyLedger() by {
      NothingYet();
    }
    LoadsPool(s.poolDb, s.pool, s.poolDb.Keys, map[], {});
    WholePool(s.poolDb, s.pool);
    assert map[] + s.pool == s.pool;
    assert {} + s.spent == s.spent;
  }

  lemma NothingYet()
    ensures AllTxs([]) == [] && ApplyAll(EmptyLedger(), []) == EmptyLedger()
  {
  }

  lemma WholePool(db: Db, pool: map<Hash, Transaction>)
    requires Mirrors(db, pool)
    ensures PoolAt(pool, db.Keys) == pool
  {
    hide EncodeTx, PoolKey;
  }

  /** The parts of the invariant that loading relies on. */
  lemma Parts(c: Crypto, s: State)
    requires Inv(c, s)
    ensures s.blocks != [] && s.height == |s.blocks| < 0x1_0000_0000
    ensures s.ledger == ApplyAll(EmptyLedger(), AllTxs(s.blocks))
    ensures Stored(s.blocksDb, s.blocks) && s.blocksDb.Keys == KeysFrom(0, |s.blocks|)
    ensures forall j :: 0 <= j < |s.blocks| ==> BlockFits(s.blocks[j]) && s.blocks[j].hash == HeaderHash(c, s.blocks[j].header)
    ensures Mirrors(s.poolDb, s.pool) && PoolFits(s.pool) && s.spent == PoolInputs(s.pool)
    ensures forall t :: t in s.pool ==> s.pool[t].txid == t
    ensures PoolOk(s) && ChainOk(c, s.blocks)
  {
    hide ApplyAll, AllTxs, PoolInputs, Mirrors, PoolFits, BlockFits, HeaderHash;
  }

  // ---------------------------------------------------------------- operations

  datatype Op = Submit(st: SignedTransaction) | Mine(req: BlockRequest)

  function Do(c: Crypto, s: State, op: Op): (s': State)
    requires s.blocks != []
    ensures s.blocks <= s'.blocks
  {
    match op
    case Submit(st) => AddTx(c, s, st)
    case Mine(req) => SubmitBlock(c, s, req).1
  }

  /**
   If the operation is accepted, what it stores fits the 32-bit counts and sizes
   it is stored with, and the number of blocks stays a 32-bit height.
  */
  predicate OpFits(c: Crypto, s: State, op: Op)
    requires s.blocks != []
  {
    match op
    case Submit(st) => Verdict(c, s, st) == TxNone ==> NestedFits(st.tx)
    case Mine(req) =>
      SubmitBlock(c, s, req).0 == BlockNone ==> |req.txids| + 1 < 0x1_0000_0000 && |s.blocks| + 1 < 0x1_0000_0000
  }

  lemma CoinbaseFits(c: Crypto, req: BlockRequest)
    ensures Coinbase(c, req).IsCoinbase() && NestedFits(Coinbase(c, req))
  {
    TxBytes(Coinbase(c, req));
  }

  /** The block a request asks for, once its transactions are drawn. */
  lemma RequestedBlockOk(c: Crypto, s: State, req: BlockRequest)
    requires PoolOk(s) && PoolFits(s.pool) && |req.txids| + 1 < 0x1_0000_0000
    requires Draw(s.pool, req.txids).Some?
    ensures var b := RequestedBlock(c, req, Draw(s.pool, req.txids).value);
      BlockOk(c, b) && DrawnFrom(s.pool, b.transactions)
  {
    hide NestedFits, NewBlock, Coinbase, Mirrors, Disjoint, PoolInputs, BlockOk, DrawnFrom;
    var cb, txs := Coinbase(c, req), Draw(s.pool, req.txids).value;
    CoinbaseFits(c, req);
    DrawFinds(s.pool, req.txids);
    DrawnShape(s.pool, cb, txs);
    NewBlockOk(c, req.prevHash, [cb] + txs, req.timestamp, req.nonce);
  }

  lemma DrawnShape(pool: map<Hash, Transaction>, cb: Transaction, txs: seq<Transaction>)
    requires cb.IsCoinbase() && NestedFits(cb) && PoolFits(pool)
    requires forall t :: t in pool ==> pool[t].txid == t && pool[t].inputs != []
    requires forall i :: 0 <= i < |txs| ==> txs[i].txid in pool && pool[txs[i].txid] == txs[i]
    ensures DrawnFrom(pool, [cb] + txs)
    ensures forall tx :: tx in [cb] + txs ==> NestedFits(tx)
    ensures forall i :: 1 <= i < |[cb] + txs| ==> !([cb] + txs)[i].IsCoinbase()
  {
    hide NestedFits;
    var all := [cb] + txs;
    forall i | 1 <= i < |all| ensures all[i] == txs[i - 1] {
    }
  }

  lemma NewBlockOk(c: Crypto, prev: Hash, txs: seq<Transaction>, timestamp: u64, nonce: u64)
    requires 0 < |txs| < 0x1_0000_0000 && forall tx :: tx in txs ==> NestedFits(tx)
    requires txs[0].IsCoinbase() && forall i :: 1 <= i < |txs| ==> !txs[i].IsCoinbase()
    ensures BlockOk(c, NewBlock(c, prev, txs, timestamp, nonce))
    ensures NewBlock(c, prev, txs, timestamp, nonce).transactions == txs
  {
    hide NestedFits, MerkleRoot, HeaderHash;
  }

  lemma StoredPush(db: Db, blocks: seq<Block>, b: Block)
    requires Stored(db, blocks) && |blocks| < 0x1_0000_0000
    ensures Stored(db[BlockKey(|blocks|) := EncodeBlock(b)], blocks + [b])
  {
    hide BlockKey, EncodeBlock, KeysFrom;
    var n := |blocks|;
    var db', blocks' := db[BlockKey(n) := EncodeBlock(b)], blocks + [b];
    OneMoreKey(n);
    forall i | 0 <= i < n + 1 ensures BlockKey(i) in db' && db'[BlockKey(i)] == EncodeBlock(blocks'[i]) {
      BlockKeyOrder(i, n);
      assert blocks'[i] == if i < n then blocks[i] else b;
    }
  }

  lemma OneMoreKey(n: nat)
    requires n < 0x1_0000_0000
    ensures KeysFrom(0, n + 1) == KeysFrom(0, n) + {BlockKey(n)}
  {
    hide BlockKey;
  }

  lemma AddBlockKeepsInv(c: Crypto, s: State, b: Block)
    requires Inv(c, s) && |s.blocks| + 1 < 0x1_0000_0000
    requires BlockOk(c, b) && DrawnFrom(s.pool, b.transactions)
    requires b.header.prevHash == TipHash(s) && !LexLess(Target(DIFFICULTY), b.hash)
    ensures Inv(c, AddBlock(s, b))
  {
    hide ApplyAll, AllTxs, ConfirmAll, PoolOk, BlockOk, Stored, LexLess, Target, GenesisBlock, DrawnFrom,
      NestedFits, EncodeBlock;
    ConfirmedAll(s, b.transactions);
    AddBlockKeepsPool(s, b);
    StoredPush(s.blocksDb, s.blocks, b);
    AllTxsPush(s.blocks, b);
    ApplyConcat(EmptyLedger(), AllTxs(s.blocks), b.transactions);
    ChainPush(c, s.blocks, b);
  }

  lemma ChainPush(c: Crypto, blocks: seq<Block>, b: Block)
    requires ChainOk(c, blocks) && BlockOk(c, b)
    requires b.header.prevHash == blocks[|blocks| - 1].hash && !LexLess(Target(DIFFICULTY), b.hash)
    ensures ChainOk(c, blocks + [b])
  {
    hide BlockOk, LexLess, Target, GenesisBlock;
    forall i | 0 < i < |blocks + [b]| ensures Extends(blocks + [b], i) {
      assert i < |blocks| ==> Extends(blocks, i);
    }
  }

  lemma AddTxKeepsInv(c: Crypto, s: State, st: SignedTransaction)
    requires Inv(c, s) && (Verdict(c, s, st) == TxNone ==> NestedFits(st.tx))
    ensures Inv(c, AddTx(c, s, st))
  {
    hide ChainOk, Stored, ApplyAll, AllTxs, PoolOk, NestedFits, Verdict;
    AddTxKeepsPool(c, s, st);
  }

  lemma MineKeepsInv(c: Crypto, s: State, req: BlockRequest)
    requires Inv(c, s) && OpFits(c, s, Mine(req))
    ensures Inv(c, SubmitBlock(c, s, req).1)
  {
    hide Inv, AddBlock, Draw, RequestedBlock, PoolOk, ChainOk, PoolFits, BlockOk, LexLess, Target, DrawnFrom,
      Stored, Mirrors, ApplyAll, AllTxs, PoolInputs, BlockFits, HeaderHash, KeysFrom, MerkleRoot;
    Parts(c, s);
    if SubmitBlock(c, s, req).0 == BlockNone {
      RequestedBlockOk(c, s, req);
      AddBlockKeepsInv(c, s, RequestedBlock(c, req, Draw(s.pool, req.txids).value));
    }
  }

  /** Every operation that fits keeps the whole invariant. */
  lemma DoKeepsInv(c: Crypto, s: State, op: Op)
    requires Inv(c, s) && OpFits(c, s, op)
    ensures Inv(c, Do(c, s, op))
  {
    hide Inv, AddTx, SubmitBlock, NestedFits, Verdict;
    match op {
      case Submit(st) => AddTxKeepsInv(c, s, st);
      case Mine(req) => MineKeepsInv(c, s, req);
    }
  }

  // -------------------------------------------------------------------- crashes

  datatype Write = PutPool(key: Bytes, value: Bytes) | DeletePool(key: Bytes) | PutBlock(key: Bytes, value: Bytes)

  function ApplyWrite(dbs: (Db, Db), w: Write): (Db, Db) {
    match w
    case PutPool(k, v) => (dbs.0, dbs.1[k := v])
    case DeletePool(k) => (dbs.0, dbs.1 - {k})
    case PutBlock(k, v) => (dbs.0[k := v], dbs.1)
  }

  function ApplyWrites(dbs: (Db, Db), ws: seq<Write>): (Db, Db) {
    if ws == [] then dbs else ApplyWrite(ApplyWrites(dbs, ws[..|ws| - 1]), ws[|ws| - 1])
  }

  function PoolPut(tx: Transaction): Write {
    PutPool(PoolKey(tx.txid), EncodeTx(tx))
  }

  function PoolDeletes(txs: seq<Transaction>): seq<Write> {
    if txs == [] then [] else
      var init, last := PoolDeletes(txs[..|txs| - 1]), txs[|txs| - 1];
      if last.IsCoinbase() then init else init + [DeletePool(PoolKey(last.txid))]
  }

  function BlockPut(height: nat, b: Block): Write {
    PutBlock(BlockKey(ToU32(height)), EncodeBlock(b))
  }

  function BlockWrites(s: State, b: Block): seq<Write> {
    PoolDeletes(b.transactions) + [BlockPut(|s.blocks|, b)]
  }

  function TxWrites(c: Crypto, s: State, st: SignedTransaction): seq<Write> {
    if Verdict(c, s, st) == TxNone then [PoolPut(st.tx)] else []
  }

  /** The database writes of an operation, in order. */
  function Writes(c: Crypto, s: State, op: Op): seq<Write>
    requires s.blocks != []
  {
    match op
    case Submit(st) => TxWrites(c, s, st)
    case Mine(req) =>
      if SubmitBlock(c, s, req).0 == BlockNone
      then BlockWrites(s, RequestedBlock(c, req, Draw(s.pool, req.txids).value))
      else []
  }

  /** Start-up writes the genesis block, if it gets that far and there is no block. */
  ghost function BootWrites(c: Crypto, blocksDb: Db, poolDb: Db): seq<Write> {
    if blocksDb == map[] && Boot(c, blocksDb, poolDb).Some? then [BlockPut(0, GenesisBlock(c))] else []
  }

  /** The writes of a start-up turn the databases it finds into those it leaves. */
  lemma BootWritesComplete(c: Crypto, blocksDb: Db, poolDb: Db)
    requires Boot(c, blocksDb, poolDb).Some?
    ensures var s := Boot(c, blocksDb, poolDb).value;
      ApplyWrites((blocksDb, poolDb), BootWrites(c, blocksDb, poolDb)) == (s.blocksDb, s.poolDb)
  {
    hide LoadPool, GenesisBlock, ApplyAll, EncodeBlock, BlockKey, ApplyWrite, LoadBlocks;
    LoadsEach(c, blocksDb, blocksDb.Keys, [], EmptyLedger());
    var dbs := (blocksDb, poolDb);
    WritesThrough(dbs, [], BlockPut(0, GenesisBlock(c)));
    GenesisWrite(c, dbs);
  }

  lemma GenesisWrite(c: Crypto, dbs: (Db, Db))
    ensures ApplyWrite(dbs, BlockPut(0, GenesisBlock(c))) == (dbs.0[BlockKey(0) := EncodeBlock(GenesisBlock(c))], dbs.1)
  {
    hide BlockKey, EncodeBlock, GenesisBlock;
  }

  /** One block is loaded for each key. */
  lemma {:induction false} LoadsEach(c: Crypto, db: Db, keys: set<Bytes>, blocks: seq<Block>, l: Ledger)
    requires keys <= db.Keys
    ensures LoadBlocks(c, db, keys, blocks, l).Some? ==>
      |LoadBlocks(c, db, keys, blocks, l).value.0| == |blocks| + |keys|
    decreases |keys|
  {
    hide ParseBlock, ApplyAll, IsLeast, LexLess;
    if keys != {} {
      var k := Least(keys);
      LeastIn(keys);
      match ParseBlock(c, db[k], 0)
      case Truncated =>
      case Parsed(b, next) =>
        LoadsEach(c, db, keys - {k}, blocks + [b], ApplyAll(l, b.transactions));
    }
  }

  /** What k deletes have removed. */
  lemma {:induction false} DeletedPrefix(dbs: (Db, Db), txs: seq<Transaction>, k: nat) returns (gone: set<Hash>)
    requires k <= |PoolDeletes(txs)|
    ensures gone <= PoolTxids(txs)
    ensures k == |PoolDeletes(txs)| ==> gone == PoolTxids(txs)
    ensures ApplyWrites(dbs, PoolDeletes(txs)[..k]) == (dbs.0, dbs.1 - PoolKeys(gone))
  {
    if txs == [] {
      gone := {};
      assert PoolTxids(txs) == {} && PoolKeys({}) == {};
      assert dbs.1 - {} == dbs.1;
    } else {
      var init, last := txs[..|txs| - 1], txs[|txs| - 1];
      var ws := PoolDeletes(init);
      TxidsOfLast(txs);
      if k <= |ws| {
        gone := DeletedPrefix(dbs, init, k);
        assert PoolDeletes(txs)[..k] == ws[..k];
      } else {
        gone := DeletedPrefix(dbs, init, |ws|);
        assert PoolDeletes(txs)[..k][..|ws|] == ws[..|ws|];
        PoolKeysPlus(gone, last.txid);
        DropOne(dbs.1, PoolKeys(gone), PoolKey(last.txid));
        gone := gone + {last.txid};
      }
    }
  }

  lemma WritesThrough(dbs: (Db, Db), ws: seq<Write>, w: Write)
    ensures ApplyWrites(dbs, ws + [w]) == ApplyWrite(ApplyWrites(dbs, ws), w)
  {
    assert (ws + [w])[..|ws|] == ws;
  }

  /** All writes of an operation together produce the databases of the live state after it. */
  lemma WritesComplete(c: Crypto, s: State, op: Op)
    requires s.blocks != []
    ensures ApplyWrites((s.blocksDb, s.poolDb), Writes(c, s, op)) == (Do(c, s, op).blocksDb, Do(c, s, op).poolDb)
  {
    hide Verdict, BlockVerdict, RequestedBlock, Draw, ConfirmAll, PoolDeletes, PoolTxids, PoolKeys, EncodeTx,
      EncodeBlock, ApplyAll, SpentBy, BlockKey, PoolKey;
    var dbs := (s.blocksDb, s.poolDb);
    match op {
      case Submit(st) =>
        if Verdict(c, s, st) == TxNone {
          WritesThrough(dbs, [], PoolPut(st.tx));
        }
      case Mine(req) =>
        if SubmitBlock(c, s, req).0 == BlockNone {
          var b := RequestedBlock(c, req, Draw(s.pool, req.txids).value);
          ConfirmedAll(s, b.transactions);
          var ws := PoolDeletes(b.transactions);
          var gone := DeletedPrefix(dbs, b.transactions, |ws|);
          assert ws[..|ws|] == ws;
          WritesThrough(dbs, ws, BlockPut(|s.blocks|, b));
        }
    }
  }

  lemma NoWrites(dbs: (Db, Db))
    ensures ApplyWrites(dbs, []) == (dbs.0, dbs.1 - PoolKeys({}))
  {
    assert PoolKeys({}) == {};
    assert dbs.1 - {} == dbs.1;
  }

  lemma DropKeepsInv(c: Crypto, s: State, gone: set<Hash>)
    requires Inv(c, s)
    ensures Inv(c, Drop(s, gone))
  {
    hide ChainOk, Stored, ApplyAll, AllTxs, PoolOk, NestedFits, PoolInputs, PoolKeys;
    DropKeepsPool(s, gone);
  }

  /** Short of its last write an operation has only deleted pool records of transactions it confirms. */
  lemma PartialWrites(c: Crypto, s: State, op: Op, k: nat) returns (gone: set<Hash>)
    requires s.blocks != [] && PoolOk(s) && k < |Writes(c, s, op)|
    ensures ApplyWrites((s.blocksDb, s.poolDb), Writes(c, s, op)[..k]) == (s.blocksDb, s.poolDb - PoolKeys(gone))
    ensures op.Submit? ==> gone == {}
    ensures op.Mine? ==> gone <= set t | t in op.req.txids
  {
    hide ApplyWrites, PoolDeletes, Verdict, BlockVerdict, PoolKeys, ConfirmAll, AddBlock, MerkleRoot,
      HeaderHash, Coinbase;
    var dbs := (s.blocksDb, s.poolDb);
    match op {
      case Submit(st) =>
        gone := {};
        assert Writes(c, s, op)[..k] == [];
        NoWrites(dbs);
      case Mine(req) =>
        var txs := Draw(s.pool, req.txids).value;
        var b := RequestedBlock(c, req, txs);
        gone := DeletedPrefix(dbs, b.transactions, k);
        assert Writes(c, s, op)[..k] == PoolDeletes(b.transactions)[..k];
        DrawnTxids(c, s.pool, req, txs);
    }
  }

  lemma DrawnTxids(c: Crypto, pool: map<Hash, Transaction>, req: BlockRequest, txs: seq<Transaction>)
    requires Draw(pool, req.txids) == Some(txs)
    requires forall t :: t in pool ==> pool[t].txid == t
    ensures PoolTxids([Coinbase(c, req)] + txs) <= set t | t in req.txids
  {
    hide Preimage;
    DrawFinds(pool, req.txids);
    var all := [Coinbase(c, req)] + txs;
    forall t | t in PoolTxids(all) ensures t in req.txids {
      var tx :| tx in all && !tx.IsCoinbase() && tx.txid == t;
      var i :| 0 <= i < |all| && all[i] == tx;
      assert i > 0 && txs[i - 1] == tx && req.txids[i - 1] == t;
    }
  }

  /**
   A crash after any number of an operation's writes reloads to a state that
   satisfies the whole invariant: either the operation's result, or the state
   before it with some of the transactions it was confirming gone from the pool.
  */
  lemma CrashSafe(c: Crypto, s: State, op: Op, k: nat) returns (gone: set<Hash>, s': State)
    requires Inv(c, s) && k <= |Writes(c, s, op)|
    requires k == |Writes(c, s, op)| ==> OpFits(c, s, op)
    ensures var dbs := ApplyWrites((s.blocksDb, s.poolDb), Writes(c, s, op)[..k]);
      Boot(c, dbs.0, dbs.1) == Some(s')
    ensures Inv(c, s')
    ensures s' == if k == |Writes(c, s, op)| then Do(c, s, op) else Drop(s, gone)
    ensures op.Submit? ==> gone == {}
    ensures op.Mine? ==> gone <= set t | t in op.req.txids
  {
    hide Inv, Do, Writes, Boot, ApplyWrites, Drop, OpFits;
    HasGenesis(c, s);
    var ws := Writes(c, s, op);
    gone := {};
    if k == |ws| {
      assert ws[..k] == ws;
      s' := Do(c, s, op);
      DoKeepsInv(c, s, op);
      WritesComplete(c, s, op);
    } else {
      gone := PartialReload(c, s, op, k);
      s' := Drop(s, gone);
    }
    RestartRefinesLive(c, s');
  }

  lemma HasGenesis(c: Crypto, s: State)
    requires Inv(c, s)
    ensures s.blocks != []
  {
  }

  /** What a strict prefix of the writes leaves in the databases is a state with a smaller pool. */
  lemma PartialReload(c: Crypto, s: State, op: Op, k: nat) returns (gone: set<Hash>)
    requires Inv(c, s) && k < |Writes(c, s, op)|
    ensures Inv(c, Drop(s, gone))
    ensures ApplyWrites((s.blocksDb, s.poolDb), Writes(c, s, op)[..k]) == (Drop(s, gone).blocksDb, Drop(s, gone).poolDb)
    ensures op.Submit? ==> gone == {}
    ensures op.Mine? ==> gone <= set t | t in op.req.txids
  {
    hide Inv, Writes, ApplyWrites, PoolKeys, PoolInputs, PoolOk, ChainOk, Stored, Mirrors, PoolFits, ApplyAll, AllTxs;
    Parts(c, s);
    gone := PartialWrites(c, s, op, k);
    DropKeepsInv(c, s, gone);
  }

  // ----------------------------------------------------------------------- runs

  datatype Event = Live(op: Op) | Crash(op: Op, writes: nat)

  /** A crash performs some of the operation's writes and restarts. */
  ghost function Next(c: Crypto, s: State, e: Event): (s': State)
    requires s.blocks != []
    ensures s'.blocks != []
  {
    match e
    case Live(op) => Do(c, s, op)
    case Crash(op, k) =>
      var ws := Writes(c, s, op);
      var dbs := ApplyWrites((s.blocksDb, s.poolDb), if k < |ws| then ws[..k] else ws);
      match Boot(c, dbs.0, dbs.1)
      case Some(s') => s'
      case None => s
  }

  ghost function Start(c: Crypto): (s: State)
    ensures s.blocks != []
  {
    CreateGenesis(c, State([], 0, EmptyLedger(), map[], {}, map[], map[]))
  }

  /** Any history of submissions and crashes, from empty databases. */
  ghost function Run(c: Crypto, events: seq<Event>): (s: State)
    ensures s.blocks != []
  {
    if events == [] then Start(c) else Next(c, Run(c, events[..|events| - 1]), events[|events| - 1])
  }

  /** All of the operation's writes are performed. */
  predicate Completes(c: Crypto, s: State, e: Event)
    requires s.blocks != []
  {
    e.Crash? ==> e.writes >= |Writes(c, s, e.op)|
  }

  predicate EventFits(c: Crypto, s: State, e: Event)
    requires s.blocks != []
  {
    Completes(c, s, e) ==> OpFits(c, s, e.op)
  }

  /** No operation that takes effect overflows a 32-bit count, size or height. */
  ghost predicate RunFits(c: Crypto, events: seq<Event>) {
    events == [] ||
    var init, last := events[..|events| - 1], events[|events| - 1];
    RunFits(c, init) && EventFits(c, Run(c, init), last)
  }

  /** Small enough for the 32-bit fields, whatever state it arrives in. */
  predicate Small(op: Op) {
    match op
    case Submit(st) => NestedFits(st.tx)
    case Mine(req) => |req.txids| + 1 < 0x1_0000_0000
  }

  function BlockEvents(events: seq<Event>): nat {
    if events == [] then 0 else
      BlockEvents(events[..|events| - 1]) + if events[|events| - 1].op.Mine? then 1 else 0
  }

  /** Small operations and fewer than 2^32 - 1 block requests, accepted or not, make a run that fits. */
  lemma {:induction false} SmallRunFits(c: Crypto, events: seq<Event>)
    requires BlockEvents(events) + 1 < 0x1_0000_0000 && forall e :: e in events ==> Small(e.op)
    ensures RunFits(c, events) && |Run(c, events).blocks| <= BlockEvents(events) + 1
  {
    hide Inv, Do, Next, Verdict, SubmitBlock, NestedFits, Writes;
    if events == [] {
      StartInv(c);
    } else {
      var init, last := events[..|events| - 1], events[|events| - 1];
      assert events == init + [last] && last in events;
      SmallRunFits(c, init);
      RunInv(c, init);
      var done, gone := NextCases(c, Run(c, init), last);
      DoGrows(c, Run(c, init), last.op);
    }
  }

  /** A run starts as the node does on empty databases. */
  lemma StartIsBoot(c: Crypto)
    ensures Boot(c, map[], map[]) == Some(Start(c))
  {
  }

  lemma StartInv(c: Crypto)
    ensures Inv(c, Start(c)) && |Start(c).blocks| == 1
  {
    hide MerkleRoot, HeaderHash, EncodeTx, EncodeBlock, BlockKey, ApplyAll, PoolKey;
    var b := GenesisBlock(c);
    TxBytes(b.transactions[0]);
    AllTxsPush([], b);
    assert [] + b.transactions == b.transactions;
    assert [] + [b] == [b];
    assert KeysFrom(0, 0) == {};
    StoredPush(map[], [], b);
    assert PoolInputs(map[]) == {};
    assert PoolKeys({}) == {};
  }

  /** One event, seen as an operation that completed or a pool that lost entries. */
  lemma NextCases(c: Crypto, s: State, e: Event) returns (done: bool, gone: set<Hash>)
    requires Inv(c, s) && EventFits(c, s, e)
    ensures Inv(c, Next(c, s, e))
    ensures Next(c, s, e) == if done then Do(c, s, e.op) else Drop(s, gone)
    ensures done <==> Completes(c, s, e)
  {
    hide Inv, Do, Writes, ApplyWrites, Boot, PoolOk, ChainOk, OpFits, PoolInputs, PoolKeys, BlockFits,
      Stored, Mirrors, PoolFits, ApplyAll, AllTxs;
    Parts(c, s);
    done, gone := true, {};
    match e {
      case Live(op) =>
        DoKeepsInv(c, s, op);
      case Crash(op, k) =>
        var ws := Writes(c, s, op);
        assert ws[..|ws|] == ws;
        var g, s' := CrashSafe(c, s, op, if k < |ws| then k else |ws|);
        done, gone := k >= |ws|, g;
    }
  }

  /** The invariant holds after every history, crashes included. */
  lemma {:induction false} RunInv(c: Crypto, events: seq<Event>)
    requires RunFits(c, events)
    ensures Inv(c, Run(c, events))
  {
    hide Inv, Next, EventFits;
    if events == [] {
      StartInv(c);
    } else {
      RunInv(c, events[..|events| - 1]);
      var done, gone := NextCases(c, Run(c, events[..|events| - 1]), events[|events| - 1]);
    }
  }

  lemma DoGrows(c: Crypto, s: State, op: Op)
    requires s.blocks != []
    ensures |Do(c, s, op).blocks| <= |s.blocks| + if op.Mine? then 1 else 0
  {
    if op.Mine? && Draw(s.pool, op.req.txids).Some? {
      ConfirmedAll(s, RequestedBlock(c, op.req, Draw(s.pool, op.req.txids).value).transactions);
    }
  }

  /** After every history, a restart gives back the live state. */
  lemma RestartAfterRun(c: Crypto, events: seq<Event>)
    requires RunFits(c, events)
    ensures Boot(c, Run(c, events).blocksDb, Run(c, events).poolDb) == Some(Run(c, events))
  {
    RunInv(c, events);
    RestartRefinesLive(c, Run(c, events));
  }
}
