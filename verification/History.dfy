/**
 Whole histories: no transaction is confirmed twice, no output is created or
 spent twice, the index is exact, and value is conserved.
*/
module History {
  import opened Types
  import opened TxCodec
  import opened BlockCodec
  import opened Merkle
  import opened ByteOrder
  import opened LedgerSpec
  import opened ChainSpec
  import opened Recovery

  // ------------------------------------------------------- sound lists of transactions

  function Replay(txs: seq<Transaction>): map<OutPoint, TxOutput> {
    ApplyAll(EmptyLedger(), txs).utxo
  }

  predicate HasTxid(txs: seq<Transaction>, t: Hash) {
    exists tx :: tx in txs && tx.txid == t
  }

  /** Each transaction comes with a new txid and spends only outputs live at its turn. */
  ghost predicate Sound(txs: seq<Transaction>) {
    txs == [] ||
    var init, last := txs[..|txs| - 1], txs[|txs| - 1];
    Sound(init) && !HasTxid(init, last.txid) && Ops(last.inputs) <= Replay(init).Keys
  }

  lemma SoundPush(txs: seq<Transaction>, tx: Transaction)
    requires Sound(txs) && !HasTxid(txs, tx.txid) && Ops(tx.inputs) <= Replay(txs).Keys
    ensures Sound(txs + [tx])
  {
    assert (txs + [tx])[..|txs|] == txs;
  }

  lemma {:induction false} SoundPrefix(txs: seq<Transaction>, j: nat)
    requires Sound(txs) && j <= |txs|
    ensures Sound(txs[..j])
  {
    if j < |txs| {
      SoundPrefix(txs[..|txs| - 1], j);
      assert txs[..|txs| - 1][..j] == txs[..j];
    } else {
      assert txs[..j] == txs;
    }
  }

  lemma OutputsFitPrefix(txs: seq<Transaction>, j: nat)
    requires OutputsFit(txs) && j <= |txs|
    ensures OutputsFit(txs[..j])
  {
  }

  lemma AtTurn(txs: seq<Transaction>, j: nat)
    requires Sound(txs) && j < |txs|
    ensures Sound(txs[..j]) && !HasTxid(txs[..j], txs[j].txid) && Ops(txs[j].inputs) <= Replay(txs[..j]).Keys
  {
    SoundPrefix(txs, j);
    SoundPrefix(txs, j + 1);
    assert txs[..j + 1][..j] == txs[..j];
  }

  lemma NewOutputs(txs: seq<Transaction>, tx: Transaction)
    requires OutputsFit(txs) && |tx.outputs| <= U32_SIZE && !HasTxid(txs, tx.txid)
    ensures TxCreates(tx).Keys !! Created(txs).Keys
  {
    OutputMapAt(tx.txid, tx.outputs);
    forall op | op in TxCreates(tx) ensures op !in Created(txs) {
      CreatedAt(txs, op);
    }
  }

  /** What is live is exactly what was created and not spent. */
  lemma {:induction false} LiveIsCreatedMinusSpent(txs: seq<Transaction>)
    requires Sound(txs) && OutputsFit(txs)
    ensures Replay(txs) == Created(txs) - SpentBy(txs)
    ensures SpentBy(txs) <= Created(txs).Keys
  {
    if txs != [] {
      hide ApplyTx, TxCreates;
      var init, last := txs[..|txs| - 1], txs[|txs| - 1];
      assert last in txs && OutputsFit(init);
      LiveIsCreatedMinusSpent(init);
      AppliedUtxo(ApplyAll(EmptyLedger(), init), last);
      NewOutputs(init, last);
      LiveStep(Created(init), SpentBy(init), Ops(last.inputs), TxCreates(last));
    }
  }

  lemma LiveStep<K, V>(created: map<K, V>, spent: set<K>, goes: set<K>, comes: map<K, V>)
    requires spent <= created.Keys && goes <= (created - spent).Keys && comes.Keys !! created.Keys
    ensures ((created - spent) - goes) + comes == (created + comes) - (spent + goes)
    ensures spent + goes <= (created + comes).Keys
  {
  }

  /** In a sound history no txid occurs twice and no two transactions share an input. */
  lemma NothingTwice(txs: seq<Transaction>, i: nat, j: nat)
    requires Sound(txs) && OutputsFit(txs) && i < j < |txs|
    ensures txs[i].txid != txs[j].txid
    ensures Ops(txs[i].inputs) !! Ops(txs[j].inputs)
  {
    AtTurn(txs, j);
    var before := txs[..j];
    assert before[i] == txs[i] && txs[i] in before;
    OutputsFitPrefix(txs, j);
    LiveIsCreatedMinusSpent(before);
    forall op | op in txs[i].inputs ensures op !in txs[j].inputs {
      SpentByMembers(before, op);
      assert op !in Replay(before);
    }
  }

  /** Every input was created by an earlier transaction. */
  lemma InputsHaveOrigin(txs: seq<Transaction>, j: nat, op: OutPoint) returns (i: nat)
    requires Sound(txs) && OutputsFit(txs) && j < |txs| && op in txs[j].inputs
    ensures i < j && op.txid == txs[i].txid && op.index < |txs[i].outputs|
  {
    AtTurn(txs, j);
    OutputsFitPrefix(txs, j);
    var tx := Provenance(txs[..j], op);
    i :| 0 <= i < j && txs[..j][i] == tx;
  }

  /** In a sound history the address index lists each live output once. */
  lemma {:induction false} SoundIndexExact(txs: seq<Transaction>)
    requires Sound(txs) && OutputsFit(txs)
    ensures IndexAgrees(ApplyAll(EmptyLedger(), txs)) && NoRepeats(ApplyAll(EmptyLedger(), txs))
  {
    if txs != [] {
      var init, last := txs[..|txs| - 1], txs[|txs| - 1];
      assert last in txs && OutputsFit(init);
      SoundIndexExact(init);
      var l := ApplyAll(EmptyLedger(), init);
      SpentUtxo(l, last.inputs);
      LiveIsCreatedMinusSpent(init);
      forall i | 0 <= i < |last.outputs| ensures OutPointAt(last.txid, i) !in l.utxo {
        CreatedAt(init, OutPointAt(last.txid, i));
      }
      ApplyKeepsIndex(l, last);
    }
  }

  /** All outpoints created for an address, in the order of their creation. */
  function AllSent(txs: seq<Transaction>, a: Address): seq<OutPoint> {
    if txs == [] then [] else
      var last := txs[|txs| - 1];
      AllSent(txs[..|txs| - 1], a) + Sent(last.txid, last.outputs, a)
  }

  /** In a sound history an address's list is what was created for it and not spent, in the order of creation. */
  lemma {:induction false} IndexInOrder(txs: seq<Transaction>, a: Address)
    requires Sound(txs) && OutputsFit(txs)
    ensures Entry(ApplyAll(EmptyLedger(), txs).index, a) == Kept(AllSent(txs, a), SpentBy(txs))
  {
    hide IndexAgrees, NoRepeats, ApplyTx, Entry, Sent, Created, Sound, HasTxid, Ops;
    if txs == [] {
      EmptyEntry(a);
    } else {
      var init, last := txs[..|txs| - 1], txs[|txs| - 1];
      AtTurn(txs, |txs| - 1);
      OutputsFitPrefix(txs, |txs| - 1);
      IndexInOrder(init, a);
      SoundIndexExact(init);
      ApplyEntry(ApplyAll(EmptyLedger(), init), last, a);
      var before, sent := AllSent(init, a), Sent(last.txid, last.outputs, a);
      KeptTwice(before, SpentBy(init), Ops(last.inputs));
      KeptConcat(before, sent, SpentBy(txs));
      SentUnspent(txs, a);
      KeptMembers(sent, SpentBy(txs));
    }
  }

  lemma EmptyEntry(a: Address)
    ensures Entry(EmptyLedger().index, a) == []
  {
  }

  /** Nothing has spent what the last transaction creates. */
  lemma SentUnspent(txs: seq<Transaction>, a: Address)
    requires txs != [] && Sound(txs) && OutputsFit(txs)
    ensures var last := txs[|txs| - 1];
      forall op :: op in Sent(last.txid, last.outputs, a) ==> op !in SpentBy(txs)
  {
    hide Sound, HasTxid;
    var init, last := txs[..|txs| - 1], txs[|txs| - 1];
    AtTurn(txs, |txs| - 1);
    OutputsFitPrefix(txs, |txs| - 1);
    LiveIsCreatedMinusSpent(init);
    assert last in txs;
    NewOutputs(init, last);
    OutputMapAt(last.txid, last.outputs);
    SentInOrder(last.txid, last.outputs, a);
  }

  // ------------------------------------------------------------------------ amounts

  ghost function Total(u: map<OutPoint, TxOutput>): nat
    decreases |u|
  {
    if u == map[] then 0 else
      var k :| k in u;
      u[k].amount + Total(u - {k})
  }

  lemma {:induction false} TotalWithout(u: map<OutPoint, TxOutput>, k: OutPoint)
    requires k in u
    ensures Total(u) == u[k].amount + Total(u - {k})
    decreases |u|
  {
    var p :| p in u && Total(u) == u[p].amount + Total(u - {p});
    if p != k {
      TotalWithout(u - {p}, k);
      TotalWithout(u - {k}, p);
      assert u - {p} - {k} == u - {k} - {p};
    }
  }

  lemma TotalWith(u: map<OutPoint, TxOutput>, k: OutPoint, out: TxOutput)
    requires k !in u
    ensures Total(u[k := out]) == Total(u) + out.amount
  {
    TotalWithout(u[k := out], k);
    assert u[k := out] - {k} == u;
  }

  /** Only outputs worth nothing are listed more than once. */
  ghost predicate RepeatsWorthless(u: map<OutPoint, TxOutput>, ops: seq<OutPoint>) {
    forall i, j :: 0 <= i < j < |ops| && ops[i] == ops[j] ==> Amount(u, ops[i]) == 0
  }

  lemma RepeatsWorthlessPush(u: map<OutPoint, TxOutput>, ops: seq<OutPoint>, op: OutPoint)
    ensures RepeatsWorthless(u, ops + [op]) <==> RepeatsWorthless(u, ops) && (op in ops ==> Amount(u, op) == 0)
  {
    var all := ops + [op];
    assert all[|ops|] == op;
    assert forall i :: 0 <= i < |ops| ==> all[i] == ops[i];
  }

  /**
   Spending live outputs takes at most the sum of the inputs out of circulation,
   and takes exactly that sum if and only if nothing of worth is listed twice.
  */
  lemma {:induction false} SpendTakes(l: Ledger, ops: seq<OutPoint>)
    requires Ops(ops) <= l.utxo.Keys
    ensures var left := Total(SpendAll(l, ops).utxo);
      && left <= Total(l.utxo) <= left + InSum(l.utxo, ops)
      && (Total(l.utxo) == left + InSum(l.utxo, ops) <==> RepeatsWorthless(l.utxo, ops))
  {
    hide RepeatsWorthless;
    if ops != [] {
      var init, last := ops[..|ops| - 1], ops[|ops| - 1];
      assert ops == init + [last];
      assert Ops(init) <= l.utxo.Keys;
      RepeatsWorthlessPush(l.utxo, init, last);
      SpendTakes(l, init);
      SpentUtxo(l, init);
      var m := SpendAll(l, init);
      assert last in Ops(ops);
      if last in m.utxo {
        assert m.utxo[last] == l.utxo[last];
        TotalWithout(m.utxo, last);
        assert SpendOne(m, last).utxo == m.utxo - {last};
      } else {
        assert last in init;
      }
    } else {
      NothingRepeated(l.utxo);
    }
  }

  lemma NothingRepeated(u: map<OutPoint, TxOutput>)
    ensures RepeatsWorthless(u, [])
  {
  }

  lemma {:induction false} AddBrings(l: Ledger, txid: Hash, outs: seq<TxOutput>)
    requires |outs| <= U32_SIZE && FreshOutputs(l, txid, outs)
    ensures Total(AddOutputs(l, txid, outs).utxo) == Total(l.utxo) + OutSum(outs)
  {
    hide OutputMap, Total;
    if outs != [] {
      var n := |outs| - 1;
      assert FreshOutputs(l, txid, outs[..n]);
      AddBrings(l, txid, outs[..n]);
      var m := AddOutputs(l, txid, outs[..n]);
      AddedUtxo(l, txid, outs[..n]);
      OutputMapAt(txid, outs[..n]);
      assert OutPointAt(txid, n) !in m.utxo;
      TotalWith(m.utxo, OutPointAt(txid, n), outs[n]);
    }
  }

  /** The part of a map at the given outpoints. */
  function On(u: map<OutPoint, TxOutput>, ops: set<OutPoint>): map<OutPoint, TxOutput> {
    map op | op in u && op in ops :: u[op]
  }

  /** What inputs are worth, each counted once however often it is listed. */
  ghost function InWorth(u: map<OutPoint, TxOutput>, ins: seq<OutPoint>): nat {
    Total(On(u, Ops(ins)))
  }

  lemma OnWithout(u: map<OutPoint, TxOutput>, ops: set<OutPoint>, k: OutPoint)
    requires k in u
    ensures k in ops ==> k in On(u, ops) && On(u, ops)[k] == u[k]
    ensures k in ops ==> On(u, ops) - {k} == On(u - {k}, ops) && u - ops == u - {k} - ops
    ensures k !in ops ==> k in u - ops && (u - ops)[k] == u[k]
    ensures k !in ops ==> u - ops - {k} == u - {k} - ops && On(u, ops) == On(u - {k}, ops)
  {
  }

  lemma TotalOfNothing(ops: set<OutPoint>)
    ensures Total(map[]) == 0 && On(map[], ops) == map[]
  {
  }

  lemma {:induction false} TotalSplit(u: map<OutPoint, TxOutput>, ops: set<OutPoint>)
    ensures Total(u) == Total(u - ops) + Total(On(u, ops))
    decreases |u|
  {
    hide On, Total;
    TotalOfNothing(ops);
    if u == map[] {
      assert u - ops == map[];
    } else {
      var k :| k in u;
      TotalWithout(u, k);
      TotalSplit(u - {k}, ops);
      OnWithout(u, ops, k);
      if k in ops {
        TotalWithout(On(u, ops), k);
      } else {
        TotalWithout(u - ops, k);
      }
    }
  }

  /**
   What confirming a transaction with new outputs does to the money in
   circulation, whatever it lists and however often: its distinct live inputs
   leave and its outputs enter. So it creates money exactly when its outputs
   exceed what its inputs are worth counted once.
  */
  lemma ConfirmMoves(l: Ledger, tx: Transaction)
    requires |tx.outputs| <= U32_SIZE && FreshOutputs(SpendAll(l, tx.inputs), tx.txid, tx.outputs)
    ensures var after, goes, comes := Total(ApplyTx(l, tx).utxo), InWorth(l.utxo, tx.inputs), OutSum(tx.outputs);
      && after + goes == Total(l.utxo) + comes
      && (after > Total(l.utxo) <==> comes > goes)
  {
    SpentUtxo(l, tx.inputs);
    TotalSplit(l.utxo, Ops(tx.inputs));
    AddBrings(SpendAll(l, tx.inputs), tx.txid, tx.outputs);
  }

  /** Inputs are worth at most the sum as listed, and that sum if and only if nothing of worth is listed twice. */
  lemma ListedWorth(l: Ledger, ops: seq<OutPoint>)
    requires Ops(ops) <= l.utxo.Keys
    ensures InWorth(l.utxo, ops) <= InSum(l.utxo, ops)
    ensures InWorth(l.utxo, ops) == InSum(l.utxo, ops) <==> RepeatsWorthless(l.utxo, ops)
  {
    SpendTakes(l, ops);
    SpentUtxo(l, ops);
    TotalSplit(l.utxo, Ops(ops));
  }

  /**
   Confirming a transaction with live inputs and new outputs changes the money in
   circulation by at least outputs minus inputs as listed, and by exactly that if
   and only if it lists nothing of worth twice.
  */
  lemma ConfirmBalances(l: Ledger, tx: Transaction)
    requires Ops(tx.inputs) <= l.utxo.Keys && |tx.outputs| <= U32_SIZE
    requires FreshOutputs(SpendAll(l, tx.inputs), tx.txid, tx.outputs)
    ensures var goes, comes := InSum(l.utxo, tx.inputs), OutSum(tx.outputs);
      && Total(ApplyTx(l, tx).utxo) + goes >= Total(l.utxo) + comes
      && (Total(ApplyTx(l, tx).utxo) + goes == Total(l.utxo) + comes <==> RepeatsWorthless(l.utxo, tx.inputs))
  {
    hide RepeatsWorthless, FreshOutputs, ApplyTx, Total, InWorth;
    ConfirmMoves(l, tx);
    ListedWorth(l, tx.inputs);
  }

  /** Lists the genesis output twice and pays out a given amount. */
  function Doubling(c: Crypto, amount: u64): Transaction {
    var op := GenesisOutPoint(c);
    NewTransaction(c, [op, op], [TxOutput(GENESIS_ADDRESS, amount)], 0)
  }

  function GenesisOutPoint(c: Crypto): OutPoint {
    OutPoint(GenesisBlock(c).transactions[0].txid, 0)
  }

  /**
   Money can be created: admission does not compare a transaction's inputs with
   each other. On a new chain the owner of the genesis output can list it twice
   and pay out up to 30 coins; confirming that creates coins exactly when it pays
   out more than the 15 there are.
  */
  lemma RepeatedInputIsAdmitted(c: Crypto, pk: PublicKey, sig: Signature, amount: u64)
    requires c.deriveAddress(pk) == GENESIS_ADDRESS && c.verifySig(pk, Doubling(c, amount).txid, sig)
    ensures var s, tx := Start(c), Doubling(c, amount);
      && Inv(c, s) && Constructed(c, tx)
      && (Verdict(c, s, SignedTransaction(tx, pk, sig)) == TxNone <==> 0 < amount <= 30 * UNITS)
      && Total(s.ledger.utxo) == 15 * UNITS
      && Total(ApplyTx(s.ledger, tx).utxo) == amount
      && (Total(ApplyTx(s.ledger, tx).utxo) > Total(s.ledger.utxo) <==> amount > 15 * UNITS)
  {
    hide GenesisOutPoint, Preimage, ApplyTx, Inv, Start, Total;
    var s, tx, op := Start(c), Doubling(c, amount), GenesisOutPoint(c);
    StartInv(c);
    StartLedger(c);
    var u := s.ledger.utxo;
    var out := TxOutput(GENESIS_ADDRESS, amount);
    assert [op, op][..1] == [op] && [out][..0] == [] && [op][..0] == [];
    assert InSum(u, [op]) == 15 * UNITS && InSum(u, [op, op]) == 30 * UNITS;
    assert InputsVerdict(u, GENESIS_ADDRESS, [op]) == TxNone;
    assert InputsVerdict(u, GENESIS_ADDRESS, [op, op]) == TxNone;
    assert tx.inputs == [op, op] && tx.outputs == [out];
    assert OutputsVerdict([]) == TxNone && OutSum([]) == 0;
    assert OutSum([out]) == amount;
    assert OutputsVerdict([out]) == if amount == 0 then TxZeroAmount else TxNone;
    OneOutputTotal(op, u[op]);
    TwiceSpent(s.ledger, op, tx, out);
  }

  /** After genesis exactly its output is live, and nothing is pooled. */
  lemma StartLedger(c: Crypto)
    ensures Start(c).ledger.utxo == map[GenesisOutPoint(c) := TxOutput(GENESIS_ADDRESS, 15 * UNITS)]
    ensures Start(c).pool == map[] && Start(c).spent == {}
  {
    hide MerkleRoot, HeaderHash, Preimage, ApplyTx, EncodeBlock, BlockKey;
    var cb := GenesisBlock(c).transactions[0];
    var out := cb.outputs[0];
    assert [cb][..0] == [] && cb.outputs[..0] == [];
    AppliedUtxo(EmptyLedger(), cb);
    assert OutputMap(cb.txid, []) == map[];
    assert TxCreates(cb) == map[GenesisOutPoint(c) := out];
    assert GenesisBlock(c).transactions == [cb];
    assert ApplyAll(EmptyLedger(), []) == EmptyLedger();
    assert ApplyAll(EmptyLedger(), [cb]) == ApplyTx(EmptyLedger(), cb);
    assert Start(c).ledger == ApplyAll(EmptyLedger(), [cb]);
    assert Ops(cb.inputs) == {};
    assert ApplyTx(EmptyLedger(), cb).utxo == TxCreates(cb);
  }

  lemma OneOutputTotal(op: OutPoint, out: TxOutput)
    ensures Total(map[op := out]) == out.amount
  {
    TotalWith(map[], op, out);
    assert map[op := out] == map[][op := out];
  }

  lemma TwiceSpent(l: Ledger, op: OutPoint, tx: Transaction, out: TxOutput)
    requires l.utxo.Keys == {op} && tx.inputs == [op, op] && tx.outputs == [out]
    ensures Total(ApplyTx(l, tx).utxo) == out.amount
  {
    AppliedUtxo(l, tx);
    assert Ops(tx.inputs) == {op};
    assert l.utxo - {op} == map[];
    assert tx.outputs[..|tx.outputs| - 1] == [];
    assert OutputMap(tx.txid, []) == map[];
    assert TxCreates(tx) == map[OutPointAt(tx.txid, 0) := out];
    OneOutputTotal(OutPointAt(tx.txid, 0), out);
  }

  /** Inputs as listed minus outputs, with each input's amount taken from the transaction that created it. */
  function Fee(before: seq<Transaction>, tx: Transaction): int {
    InSum(Created(before), tx.inputs) - OutSum(tx.outputs)
  }

  function Burned(txs: seq<Transaction>): int {
    if txs == [] then 0 else
      var init, last := txs[..|txs| - 1], txs[|txs| - 1];
      Burned(init) + if last.IsCoinbase() then 0 else Fee(init, last)
  }

  /** Inputs counted once minus outputs; negative when the transaction creates money. */
  ghost function NetFee(before: seq<Transaction>, tx: Transaction): int {
    InWorth(Created(before), tx.inputs) - OutSum(tx.outputs)
  }

  ghost function NetBurned(txs: seq<Transaction>): int {
    if txs == [] then 0 else
      var init, last := txs[..|txs| - 1], txs[|txs| - 1];
      NetBurned(init) + if last.IsCoinbase() then 0 else NetFee(init, last)
  }

  function Minted(txs: seq<Transaction>): nat {
    if txs == [] then 0 else
      var init, last := txs[..|txs| - 1], txs[|txs| - 1];
      Minted(init) + if last.IsCoinbase() then OutSum(last.outputs) else 0
  }

  lemma {:induction false} SameAmounts(u: map<OutPoint, TxOutput>, v: map<OutPoint, TxOutput>, ops: seq<OutPoint>)
    requires forall op :: op in ops ==> op in u && op in v && u[op] == v[op]
    ensures InSum(u, ops) == InSum(v, ops)
  {
    if ops != [] {
      SameAmounts(u, v, ops[..|ops| - 1]);
    }
  }

  /** No transaction lists an output of any worth twice. */
  ghost predicate NoMoneyRepeated(txs: seq<Transaction>) {
    forall tx :: tx in txs ==> RepeatsWorthless(Created(txs), tx.inputs)
  }

  /** Amounts are fixed at creation, so the question is settled at each transaction's turn. */
  lemma NoMoneyRepeatedLast(txs: seq<Transaction>)
    requires txs != [] && Sound(txs) && OutputsFit(txs)
    ensures var init, last := txs[..|txs| - 1], txs[|txs| - 1];
      NoMoneyRepeated(txs) <==> NoMoneyRepeated(init) && RepeatsWorthless(Created(init), last.inputs)
  {
    hide TxCreates, Sound, RepeatsWorthless;
    var init, last := txs[..|txs| - 1], txs[|txs| - 1];
    assert txs == init + [last];
    AtTurn(txs, |txs| - 1);
    OutputsFitPrefix(txs, |txs| - 1);
    LiveIsCreatedMinusSpent(init);
    NewOutputs(init, last);
    forall tx | tx in txs
      ensures RepeatsWorthless(Created(txs), tx.inputs) <==> RepeatsWorthless(Created(init), tx.inputs)
    {
      forall op | op in tx.inputs ensures op in Created(init) {
        if tx in init {
          SpentByMembers(init, op);
        } else {
          assert op in Ops(last.inputs);
        }
      }
      SameWorth(Created(txs), Created(init), tx.inputs);
    }
  }

  lemma SameWorth(u: map<OutPoint, TxOutput>, v: map<OutPoint, TxOutput>, ops: seq<OutPoint>)
    requires forall op :: op in ops ==> Amount(u, op) == Amount(v, op)
    ensures RepeatsWorthless(u, ops) <==> RepeatsWorthless(v, ops)
  {
    assert forall i :: 0 <= i < |ops| ==> ops[i] in ops;
  }

  /** What the last transaction of a sound history does to the money in circulation. */
  lemma LastBalance(txs: seq<Transaction>)
    requires txs != [] && Sound(txs) && OutputsFit(txs)
    ensures var init, last := txs[..|txs| - 1], txs[|txs| - 1];
      var worth, goes, comes := InWorth(Created(init), last.inputs), InSum(Created(init), last.inputs), OutSum(last.outputs);
      && Total(Replay(txs)) + worth == Total(Replay(init)) + comes
      && worth <= goes && (worth == goes <==> RepeatsWorthless(Created(init), last.inputs))
  {
    hide RepeatsWorthless, Total, Created, FreshOutputs, ApplyTx;
    var init, last := txs[..|txs| - 1], txs[|txs| - 1];
    var l := ApplyAll(EmptyLedger(), init);
    assert last in txs && OutputsFit(init);
    LiveAmounts(init, last.inputs);
    SameWorth(Replay(init), Created(init), last.inputs);
    FreshAtTurn(init, last);
    ConfirmMoves(l, last);
    ListedWorth(l, last.inputs);
  }

  lemma FreshAtTurn(init: seq<Transaction>, last: Transaction)
    requires Sound(init) && OutputsFit(init) && |last.outputs| <= U32_SIZE && !HasTxid(init, last.txid)
    ensures FreshOutputs(SpendAll(ApplyAll(EmptyLedger(), init), last.inputs), last.txid, last.outputs)
  {
    LiveIsCreatedMinusSpent(init);
    SpentUtxo(ApplyAll(EmptyLedger(), init), last.inputs);
    NewOutputs(init, last);
    OutputMapAt(last.txid, last.outputs);
  }

  lemma NothingMoved()
    ensures Total(Replay([])) == 0 && NoMoneyRepeated([])
  {
  }

  /**
   Money in circulation plus net fees is exactly what the coinbases minted. With
   fees as listed it is at least that, and exactly that if and only if no
   transaction lists money twice.
  */
  lemma {:induction false} ValueConserved(txs: seq<Transaction>)
    requires Sound(txs) && OutputsFit(txs)
    ensures Total(Replay(txs)) + NetBurned(txs) == Minted(txs)
    ensures NetBurned(txs) <= Burned(txs)
    ensures Total(Replay(txs)) + Burned(txs) == Minted(txs) <==> NoMoneyRepeated(txs)
  {
    hide Replay, NoMoneyRepeated, RepeatsWorthless, Created, InWorth;
    if txs != [] {
      OutputsFitPrefix(txs, |txs| - 1);
      ValueConserved(txs[..|txs| - 1]);
      LastBalance(txs);
      NoMoneyRepeatedLast(txs);
      NoInputsWorthless(Created(txs[..|txs| - 1]));
    } else {
      NothingMoved();
    }
  }

  lemma NoInputsWorthless(u: map<OutPoint, TxOutput>)
    ensures InWorth(u, []) == 0 && RepeatsWorthless(u, [])
  {
    assert On(u, Ops([])) == map[];
  }

  /** A net fee is at most the fee as listed, and equals it if and only if nothing of worth is listed twice. */
  lemma NetFees(txs: seq<Transaction>, j: nat)
    requires Sound(txs) && OutputsFit(txs) && j < |txs|
    ensures NetFee(txs[..j], txs[j]) <= Fee(txs[..j], txs[j])
    ensures NetFee(txs[..j], txs[j]) == Fee(txs[..j], txs[j]) <==> RepeatsWorthless(Created(txs[..j]), txs[j].inputs)
  {
    hide RepeatsWorthless, Created, InWorth, Replay, Sound, InSum, OutSum, Total;
    SoundPrefix(txs, j + 1);
    OutputsFitPrefix(txs, j + 1);
    assert txs[..j + 1][..j] == txs[..j] && txs[..j + 1][j] == txs[j];
    LastBalance(txs[..j + 1]);
  }

  // ------------------------------------------------------------------------ whole runs

  /** Equal txids, equal transactions. */
  ghost predicate Distinguishing(universe: set<Transaction>) {
    forall a, b :: a in universe && b in universe && a.txid == b.txid ==> a == b
  }

  /** The event admits a transaction to the pool, and its record is written. */
  predicate Enters(c: Crypto, s: State, e: Event)
    requires s.blocks != []
  {
    e.op.Submit? && Verdict(c, s, e.op.st) == TxNone && Completes(c, s, e)
  }

  /** The transactions that entered the pool at some time in a run; refused ones are not among them. */
  ghost function Admitted(c: Crypto, events: seq<Event>): set<Transaction> {
    if events == [] then {} else
      var init, last := events[..|events| - 1], events[|events| - 1];
      Admitted(c, init) + if Enters(c, Run(c, init), last) then {last.op.st.tx} else {}
  }

  /** No coinbase txid is used by two coinbases of the chain. */
  ghost predicate CoinbasesOnce(txs: seq<Transaction>) {
    forall i, j :: 0 <= i < j < |txs| && txs[i].IsCoinbase() && txs[j].IsCoinbase() ==> txs[i].txid != txs[j].txid
  }

  /** No block lists a transaction twice. */
  ghost predicate ListedOnce(blocks: seq<Block>) {
    forall i, a, b :: 0 <= i < |blocks| && 1 <= a < b < |blocks[i].transactions| ==>
      blocks[i].transactions[a].txid != blocks[i].transactions[b].txid
  }

  ghost predicate AllIn(txs: seq<Transaction>, universe: set<Transaction>) {
    forall tx :: tx in txs ==> tx in universe
  }

  /** What a history of the node keeps, under the hypotheses on txids. */
  ghost predicate HistoryOk(s: State, universe: set<Transaction>) {
    var txs := AllTxs(s.blocks);
    && Sound(txs)
    && (forall t :: t in s.pool ==> s.pool[t] in universe && !HasTxid(txs, t))
    && (forall t :: t in s.pool ==> Fee(txs, s.pool[t]) >= 0)
    && (forall j :: 0 <= j < |txs| && !txs[j].IsCoinbase() ==> Fee(txs[..j], txs[j]) >= 0)
  }

  lemma AllFit(c: Crypto, s: State)
    requires Inv(c, s)
    ensures OutputsFit(AllTxs(s.blocks))
  {
    hide BlockFits, HeaderHash, Inv;
    Parts(c, s);
    BlocksFit(s.blocks);
  }

  lemma {:induction false} BlocksFit(blocks: seq<Block>)
    requires forall j :: 0 <= j < |blocks| ==> BlockFits(blocks[j])
    ensures OutputsFit(AllTxs(blocks))
  {
    hide EncodeTx;
    if blocks != [] {
      BlocksFit(blocks[..|blocks| - 1]);
      var last := blocks[|blocks| - 1];
      forall tx | tx in last.transactions ensures |tx.outputs| <= U32_SIZE {
        assert NestedFits(tx);
      }
    }
  }

  /** Spending and creating elsewhere does not change a fee: amounts are fixed at creation. */
  lemma FeeStable(before: seq<Transaction>, more: seq<Transaction>, tx: Transaction)
    requires Sound(before + more) && OutputsFit(before + more)
    requires Ops(tx.inputs) <= Created(before).Keys
    ensures Fee(before + more, tx) == Fee(before, tx)
  {
    forall op | op in tx.inputs
      ensures op in Created(before) && op in Created(before + more) && Created(before)[op] == Created(before + more)[op]
    {
      assert op in Ops(tx.inputs);
      CreatedStays(before, more, op);
    }
    SameAmounts(Created(before), Created(before + more), tx.inputs);
  }

  lemma {:induction false} CreatedStays(before: seq<Transaction>, more: seq<Transaction>, op: OutPoint)
    requires Sound(before + more) && OutputsFit(before + more) && op in Created(before)
    ensures op in Created(before + more) && Created(before + more)[op] == Created(before)[op]
  {
    hide TxCreates, Ops, Replay, ApplyAll, HasTxid;
    if more == [] {
      assert before + more == before;
    } else {
      var init, last := more[..|more| - 1], more[|more| - 1];
      var all := before + more;
      assert all[..|all| - 1] == before + init && all[|all| - 1] == last;
      assert last in all && OutputsFit(before + init);
      CreatedStays(before, init, op);
      NewOutputs(before + init, last);
    }
  }

  lemma LiveAmounts(txs: seq<Transaction>, ops: seq<OutPoint>)
    requires Sound(txs) && OutputsFit(txs) && Ops(ops) <= Replay(txs).Keys
    ensures InSum(Replay(txs), ops) == InSum(Created(txs), ops)
    ensures forall op :: op in ops ==> Amount(Replay(txs), op) == Amount(Created(txs), op)
    ensures InWorth(Replay(txs), ops) == InWorth(Created(txs), ops)
    ensures Ops(ops) <= Created(txs).Keys
  {
    LiveIsCreatedMinusSpent(txs);
    forall op | op in ops ensures op in Replay(txs) && op in Created(txs) && Replay(txs)[op] == Created(txs)[op] {
      assert op in Ops(ops);
    }
    SameAmounts(Replay(txs), Created(txs), ops);
    assert On(Replay(txs), Ops(ops)) == On(Created(txs), Ops(ops));
  }

  /** A confirmed non-coinbase transaction cannot be admitted again: its inputs are gone for good. */
  lemma NotAdmittedAgain(txs: seq<Transaction>, tx: Transaction)
    requires Sound(txs) && OutputsFit(txs) && tx in txs && !tx.IsCoinbase()
    ensures !(Ops(tx.inputs) <= Replay(txs).Keys)
  {
    LiveIsCreatedMinusSpent(txs);
    var op := tx.inputs[0];
    SpentByMembers(txs, op);
    assert op in Ops(tx.inputs);
  }

  lemma NewToHistory(txs: seq<Transaction>, tx: Transaction, universe: set<Transaction>)
    requires Sound(txs) && OutputsFit(txs) && !tx.IsCoinbase() && Ops(tx.inputs) <= Replay(txs).Keys
    requires tx in universe && AllIn(txs, universe) && Distinguishing(universe)
    ensures !HasTxid(txs, tx.txid)
  {
    hide Sound, Ops, Replay;
    if HasTxid(txs, tx.txid) {
      var prior :| prior in txs && prior.txid == tx.txid;
      NotAdmittedAgain(txs, tx);
    }
  }

  lemma AdmitKeepsHistory(s: State, tx: Transaction, universe: set<Transaction>)
    requires HistoryOk(s, universe) && tx in universe
    requires !HasTxid(AllTxs(s.blocks), tx.txid) && Fee(AllTxs(s.blocks), tx) >= 0
    ensures HistoryOk(Admit(s, tx), universe)
  {
    hide AllTxs, Sound, Fee, HasTxid, EncodeTx;
  }

  lemma SubmitKeepsHistory(c: Crypto, s: State, st: SignedTransaction, universe: set<Transaction>)
    requires Inv(c, s) && HistoryOk(s, universe) && Distinguishing(universe)
    requires AllIn(AllTxs(s.blocks), universe) && (Verdict(c, s, st) == TxNone ==> st.tx in universe)
    ensures HistoryOk(AddTx(c, s, st), universe)
  {
    hide Inv, PoolOk, AllTxs, ApplyAll, Created, Verdict, Admit, HasTxid, Distinguishing, ChainOk, BlockFits, Stored,
      Mirrors, PoolFits, PoolInputs, HeaderHash;
    VerdictExact(c, s, st);
    if Acceptable(c, s, st) {
      Parts(c, s);
      AllFit(c, s);
      var txs, tx := AllTxs(s.blocks), st.tx;
      assert Ops(tx.inputs) <= Replay(txs).Keys;
      NewToHistory(txs, tx, universe);
      LiveAmounts(txs, tx.inputs);
      AdmitKeepsHistory(s, tx, universe);
    }
  }

  // --------------------------------------------------------------------- mined blocks

  /** A drawn block extends a sound history when its txids are new to it and to each other. */
  lemma {:induction false} BlockIsSound(s: State, txs: seq<Transaction>, block: seq<Transaction>, k: nat)
    requires Sound(txs) && s.ledger == ApplyAll(EmptyLedger(), txs)
    requires PoolOk(s) && DrawnFrom(s.pool, block) && DistinctTxids(block) && k <= |block|
    requires forall tx :: tx in block ==> !HasTxid(txs, tx.txid)
    ensures Sound(txs + block[..k])
  {
    hide ApplyAll, PoolOk, DrawnFrom, SpentBy, HasTxid, DistinctTxids, Sound;
    if k == 0 {
      assert txs + block[..0] == txs;
    } else {
      BlockIsSound(s, txs, block, k - 1);
      BlockStep(s, txs, block, k - 1);
      assert txs + block[..k] == txs + block[..k - 1] + [block[k - 1]];
    }
  }

  lemma BlockStep(s: State, txs: seq<Transaction>, block: seq<Transaction>, k: nat)
    requires s.ledger == ApplyAll(EmptyLedger(), txs) && k < |block| && Sound(txs + block[..k])
    requires PoolOk(s) && DrawnFrom(s.pool, block) && DistinctTxids(block)
    requires forall tx :: tx in block ==> !HasTxid(txs, tx.txid)
    ensures Sound(txs + block[..k] + [block[k]])
  {
    hide ApplyAll, PoolOk, DrawnFrom, SpentBy, HasTxid, DistinctTxids, Sound;
    ApplyConcat(EmptyLedger(), txs, block[..k]);
    SurvivorsStay(s.ledger, block[..k]);
    StillLive(s, block, k);
    NewInBlock(txs, block, k);
    SoundPush(txs + block[..k], block[k]);
  }

  lemma NewInBlock(txs: seq<Transaction>, block: seq<Transaction>, k: nat)
    requires DistinctTxids(block) && k < |block|
    requires forall tx :: tx in block ==> !HasTxid(txs, tx.txid)
    ensures !HasTxid(txs + block[..k], block[k].txid)
  {
    assert block[k] in block;
    forall tx | tx in block[..k] ensures tx.txid != block[k].txid {
      var i :| 0 <= i < k && block[i] == tx;
    }
  }

  /** Earlier transactions of the block leave a later one's inputs alone. */
  lemma StillLive(s: State, block: seq<Transaction>, k: nat)
    requires PoolOk(s) && DrawnFrom(s.pool, block) && DistinctTxids(block) && k < |block|
    ensures Ops(block[k].inputs) <= s.ledger.utxo.Keys - SpentBy(block[..k])
  {
    hide Mirrors;
    forall op | op in block[k].inputs ensures op in s.ledger.utxo && op !in SpentBy(block[..k]) {
      assert k > 0;
      PoolInputsAt(s.pool, op);
      SpentByMembers(block[..k], op);
      if tx :| tx in block[..k] && op in tx.inputs {
        var i :| 0 <= i < k && block[i] == tx;
        assert i > 0;
        SharedInput(s.pool, tx.txid, block[k].txid, op);
        assert false;
      }
    }
  }

  /** The coinbase and the listed transactions of a new block are new to the history. */
  lemma BlockIsNew(s: State, block: seq<Transaction>, universe: set<Transaction>)
    requires HistoryOk(s, universe) && DrawnFrom(s.pool, block) && PoolOk(s)
    requires Distinguishing(universe) && AllIn(AllTxs(s.blocks) + block, universe)
    requires CoinbasesOnce(AllTxs(s.blocks) + block)
    requires forall a, b :: 1 <= a < b < |block| ==> block[a].txid != block[b].txid
    ensures DistinctTxids(block)
    ensures forall tx :: tx in block ==> !HasTxid(AllTxs(s.blocks), tx.txid)
  {
    hide AllTxs, Sound, Fee, Mirrors, Disjoint, PoolInputs;
    var txs := AllTxs(s.blocks);
    assert forall tx :: tx in block ==> tx in txs + block;
    assert forall i :: 1 <= i < |block| ==> block[i] in block && block[i].inputs != [];
    assert block[0] in block;
    forall i | 0 <= i < |txs| ensures txs[i].txid != block[0].txid {
      assert txs[i] in txs + block && block[0] in txs + block;
      if txs[i].IsCoinbase() {
        TwoCoinbases(txs, block, i);
      }
    }
    forall tx | tx in block ensures !HasTxid(txs, tx.txid) {
      var i :| 0 <= i < |block| && block[i] == tx;
    }
  }

  lemma TwoCoinbases(txs: seq<Transaction>, block: seq<Transaction>, i: nat)
    requires CoinbasesOnce(txs + block) && i < |txs| && 0 < |block|
    requires txs[i].IsCoinbase() && block[0].IsCoinbase()
    ensures txs[i].txid != block[0].txid
  {
    assert (txs + block)[i] == txs[i] && (txs + block)[|txs|] == block[0];
  }

  /** What stays in the pool is not confirmed by the block. */
  lemma RestIsNew(s: State, block: seq<Transaction>, t: Hash, universe: set<Transaction>)
    requires HistoryOk(s, universe) && DrawnFrom(s.pool, block) && PoolOk(s)
    requires Distinguishing(universe) && AllIn(block, universe)
    requires t in s.pool - PoolTxids(block)
    ensures !HasTxid(AllTxs(s.blocks) + block, t)
  {
    hide AllTxs, Sound, Fee, Mirrors, Disjoint, PoolInputs;
    var txs := AllTxs(s.blocks);
    if tx :| tx in txs + block && tx.txid == t {
      assert false;
    }
  }

  lemma BlockFees(s: State, txs: seq<Transaction>, block: seq<Transaction>, j: nat, universe: set<Transaction>)
    requires txs == AllTxs(s.blocks) && HistoryOk(s, universe) && PoolOk(s) && DrawnFrom(s.pool, block)
    requires s.ledger == ApplyAll(EmptyLedger(), txs)
    requires Sound(txs + block) && OutputsFit(txs + block) && j < |txs + block|
    requires !(txs + block)[j].IsCoinbase()
    ensures Fee((txs + block)[..j], (txs + block)[j]) >= 0
  {
    hide AllTxs, Sound, Fee, Mirrors, Disjoint, ApplyAll, HasTxid;
    var all := txs + block;
    if j < |txs| {
      assert all[..j] == txs[..j];
    } else {
      var i := j - |txs|;
      assert all[j] == block[i] && i > 0;
      PooledFee(s, txs, block[..i], block[i], all, j);
    }
  }

  lemma PooledFee(s: State, txs: seq<Transaction>, done: seq<Transaction>, tx: Transaction, all: seq<Transaction>, j: nat)
    requires PoolOk(s) && s.ledger == ApplyAll(EmptyLedger(), txs)
    requires Sound(all) && OutputsFit(all) && j <= |all| && all[..j] == txs + done
    requires tx.txid in s.pool && s.pool[tx.txid] == tx && Fee(txs, tx) >= 0
    ensures Fee(txs + done, tx) >= 0
  {
    hide AllTxs, Fee, Mirrors, Disjoint, ApplyAll, Sound;
    SoundPrefix(all, j);
    OutputsFitPrefix(all, j);
    SoundPrefix(txs + done, |txs|);
    OutputsFitPrefix(txs + done, |txs|);
    assert (txs + done)[..|txs|] == txs;
    PooledInputsCreated(s, txs, tx);
    FeeStable(txs, done, tx);
  }

  lemma PooledInputsCreated(s: State, txs: seq<Transaction>, tx: Transaction)
    requires PoolOk(s) && s.ledger == ApplyAll(EmptyLedger(), txs) && Sound(txs) && OutputsFit(txs)
    requires tx.txid in s.pool && s.pool[tx.txid] == tx
    ensures Ops(tx.inputs) <= Created(txs).Keys
  {
    hide Mirrors, Disjoint, ApplyAll, Sound;
    LiveIsCreatedMinusSpent(txs);
    forall op | op in tx.inputs ensures op in Created(txs) {
      PoolInputsAt(s.pool, op);
    }
  }

  lemma MineKeepsHistory(c: Crypto, s: State, b: Block, universe: set<Transaction>)
    requires Inv(c, s) && HistoryOk(s, universe) && BlockFits(b) && DrawnFrom(s.pool, b.transactions)
    requires Distinguishing(universe) && AllIn(AllTxs(s.blocks + [b]), universe)
    requires CoinbasesOnce(AllTxs(s.blocks + [b])) && ListedOnce(s.blocks + [b])
    ensures HistoryOk(AddBlock(s, b), universe)
  {
    hide Inv, PoolOk, AllTxs, ApplyAll, Sound, Fee, HasTxid, Distinguishing, ChainOk, Stored, Mirrors,
      PoolFits, PoolInputs, HeaderHash, DrawnFrom, CoinbasesOnce, ConfirmAll, EncodeBlock, PoolTxids, NestedFits, BlockFits;
    var txs, block := AllTxs(s.blocks), b.transactions;
    Parts(c, s);
    AllFit(c, s);
    OneBlockFits(b);
    AllTxsPush(s.blocks, b);
    AddBlockKeepsPool(s, b);
    forall x, y | 1 <= x < y < |block| ensures block[x].txid != block[y].txid {
      assert (s.blocks + [b])[|s.blocks|] == b;
    }
    BlockIsNew(s, block, universe);
    BlockIsSound(s, txs, block, |block|);
    assert block[..|block|] == block;
    assert OutputsFit(txs + block);
    forall t | t in s.pool - PoolTxids(block) ensures !HasTxid(txs + block, t) && Fee(txs + block, s.pool[t]) >= 0 {
      RestIsNew(s, block, t, universe);
      PooledStays(s, txs, block, t);
    }
    forall j | 0 <= j < |txs + block| && !(txs + block)[j].IsCoinbase()
      ensures Fee((txs + block)[..j], (txs + block)[j]) >= 0
    {
      BlockFees(s, txs, block, j, universe);
    }
    AddBlockFields(s, b);
  }

  lemma AddBlockFields(s: State, b: Block)
    ensures AddBlock(s, b).blocks == s.blocks + [b]
  {
    ConfirmedAll(s, b.transactions);
  }

  lemma OneBlockFits(b: Block)
    requires BlockFits(b)
    ensures OutputsFit(b.transactions)
  {
    hide EncodeTx;
    forall tx | tx in b.transactions ensures |tx.outputs| <= U32_SIZE {
      assert NestedFits(tx);
    }
  }

  lemma PooledStays(s: State, txs: seq<Transaction>, block: seq<Transaction>, t: Hash)
    requires PoolOk(s) && s.ledger == ApplyAll(EmptyLedger(), txs) && t in s.pool
    requires Sound(txs + block) && OutputsFit(txs + block) && Fee(txs, s.pool[t]) >= 0
    ensures Fee(txs + block, s.pool[t]) >= 0
  {
    hide Fee, Mirrors, Disjoint, ApplyAll, Sound;
    assert (txs + block)[..|txs + block|] == txs + block;
    PooledFee(s, txs, block, s.pool[t], txs + block, |txs + block|);
  }

  // ------------------------------------------------------------------------ every run

  /** Txids tell the transactions of a universe apart, coinbases are not reused, blocks list no transaction twice. */
  ghost predicate BehaveIn(admitted: set<Transaction>, blocks: seq<Block>, universe: set<Transaction>) {
    && admitted <= universe && AllIn(AllTxs(blocks), universe) && Distinguishing(universe)
    && CoinbasesOnce(AllTxs(blocks)) && ListedOnce(blocks)
  }

  /** Every transaction that was admitted or confirmed. */
  ghost function Universe(c: Crypto, events: seq<Event>): set<Transaction> {
    Admitted(c, events) + set tx | tx in AllTxs(Run(c, events).blocks)
  }

  /** The hypotheses on a run, about the transactions admitted and confirmed in it and no others. */
  ghost predicate TxidsBehave(c: Crypto, events: seq<Event>) {
    && Distinguishing(Universe(c, events))
    && CoinbasesOnce(AllTxs(Run(c, events).blocks)) && ListedOnce(Run(c, events).blocks)
  }

  lemma {:induction false} AllTxsPrefix(a: seq<Block>, b: seq<Block>)
    requires a <= b
    ensures AllTxs(a) <= AllTxs(b)
  {
    if a != b {
      AllTxsPrefix(a, b[..|b| - 1]);
    }
  }

  /** The hypotheses of a run hold of its shorter runs. */
  lemma BehavesBefore(
    admitted: set<Transaction>, blocks: seq<Block>, earlier: set<Transaction>, before: seq<Block>, universe: set<Transaction>)
    requires BehaveIn(admitted, blocks, universe) && before <= blocks && earlier <= admitted
    ensures BehaveIn(earlier, before, universe)
  {
    hide AllTxs;
    AllTxsPrefix(before, blocks);
    assert forall tx :: tx in AllTxs(before) ==> tx in AllTxs(blocks);
  }

  lemma StartHistory(c: Crypto, universe: set<Transaction>)
    ensures HistoryOk(Start(c), universe)
  {
    hide GenesisBlock, Start, Fee, AllTxs;
    var cb := StartShape(c);
    assert [] + [cb] == [cb];
    SoundPush([], cb);
  }

  lemma StartShape(c: Crypto) returns (cb: Transaction)
    ensures AllTxs(Start(c).blocks) == [cb] && Start(c).pool == map[]
    ensures cb.IsCoinbase() && Constructed(c, cb)
  {
    hide MerkleRoot, HeaderHash, EncodeBlock, BlockKey, ApplyAll, Preimage, AllTxs;
    cb := NewTransaction(c, [], [TxOutput(GENESIS_ADDRESS, 15 * UNITS)], 1781545365);
    OneBlockTxs(GenesisBlock(c));
    assert [] + [GenesisBlock(c)] == [GenesisBlock(c)];
  }

  lemma OneBlockTxs(b: Block)
    ensures AllTxs([b]) == b.transactions
  {
    assert [b][..0] == [];
    assert [] + b.transactions == b.transactions;
  }

  lemma DropKeepsHistory(s: State, gone: set<Hash>, universe: set<Transaction>)
    requires HistoryOk(s, universe)
    ensures HistoryOk(Drop(s, gone), universe)
  {
    hide AllTxs, Sound, Fee, HasTxid, PoolInputs, PoolKeys;
  }

  lemma DoKeepsHistory(c: Crypto, s: State, op: Op, universe: set<Transaction>)
    requires Inv(c, s) && OpFits(c, s, op) && HistoryOk(s, universe) && Distinguishing(universe)
    requires op.Submit? && Verdict(c, s, op.st) == TxNone ==> op.st.tx in universe
    requires var blocks := Do(c, s, op).blocks;
      AllIn(AllTxs(blocks), universe) && CoinbasesOnce(AllTxs(blocks)) && ListedOnce(blocks)
    ensures HistoryOk(Do(c, s, op), universe)
  {
    hide Inv, HistoryOk, AllTxs, CoinbasesOnce, ListedOnce, Distinguishing, AddBlock, Draw, RequestedBlock,
      BlockVerdict, PoolOk, PoolFits, ChainOk, AllIn, BlockFits, NestedFits, Verdict, DrawnFrom;
    Parts(c, s);
    match op {
      case Submit(st) =>
        SubmitBlocks(c, s, st);
        SubmitKeepsHistory(c, s, st, universe);
      case Mine(req) =>
        if SubmitBlock(c, s, req).0 == BlockNone {
          var b := RequestedBlock(c, req, Draw(s.pool, req.txids).value);
          RequestedBlockOk(c, s, req);
          AddBlockFields(s, b);
          MineKeepsHistory(c, s, b, universe);
        }
    }
  }

  lemma SubmitBlocks(c: Crypto, s: State, st: SignedTransaction)
    ensures AddTx(c, s, st).blocks == s.blocks
  {
  }

  lemma NextGrows(c: Crypto, s: State, e: Event)
    requires Inv(c, s) && EventFits(c, s, e)
    ensures s.blocks <= Next(c, s, e).blocks
  {
    hide Inv, Next, Do, PoolInputs, PoolKeys;
    var done, gone := NextCases(c, s, e);
  }

  lemma NextKeepsHistory(c: Crypto, s: State, e: Event, universe: set<Transaction>)
    requires Inv(c, s) && EventFits(c, s, e)
    requires HistoryOk(s, universe) && Distinguishing(universe) && (Enters(c, s, e) ==> e.op.st.tx in universe)
    requires var blocks := Next(c, s, e).blocks;
      AllIn(AllTxs(blocks), universe) && CoinbasesOnce(AllTxs(blocks)) && ListedOnce(blocks)
    ensures HistoryOk(Next(c, s, e), universe)
  {
    hide Inv, HistoryOk, Next, Do, AllTxs, CoinbasesOnce, ListedOnce, Distinguishing, AllIn, OpFits,
      PoolInputs, PoolKeys;
    var done, gone := NextCases(c, s, e);
    if done {
      DoKeepsHistory(c, s, e.op, universe);
    } else {
      DropKeepsHistory(s, gone, universe);
    }
  }

  lemma {:induction false} RunHistory(c: Crypto, events: seq<Event>, universe: set<Transaction>)
    requires RunFits(c, events) && BehaveIn(Admitted(c, events), Run(c, events).blocks, universe)
    ensures HistoryOk(Run(c, events), universe)
  {
    hide Inv, HistoryOk, Next, Run, RunFits, AllTxs, BehaveIn, Admitted, Enters, EventFits, Distinguishing;
    if events == [] {
      StartRun(c);
      StartHistory(c, universe);
    } else {
      var init, last := events[..|events| - 1], events[|events| - 1];
      var s := Run(c, init);
      LastEvent(c, events);
      RunInv(c, init);
      NextGrows(c, s, last);
      BehavesBefore(Admitted(c, events), Run(c, events).blocks, Admitted(c, init), s.blocks, universe);
      RunHistory(c, init, universe);
      BehaviourParts(Admitted(c, events), Run(c, events).blocks, universe);
      NextKeepsHistory(c, s, last, universe);
    }
  }

  lemma StartRun(c: Crypto)
    ensures Run(c, []) == Start(c) && Admitted(c, []) == {}
  {
    hide Start;
  }

  /** A run up to its last event. */
  lemma LastEvent(c: Crypto, events: seq<Event>)
    requires events != []
    ensures var init, last := events[..|events| - 1], events[|events| - 1];
      && Run(c, events) == Next(c, Run(c, init), last)
      && (RunFits(c, events) ==> RunFits(c, init) && EventFits(c, Run(c, init), last))
      && Admitted(c, init) <= Admitted(c, events)
      && (Enters(c, Run(c, init), last) ==> last.op.st.tx in Admitted(c, events))
  {
    hide Next, EventFits, Enters;
  }

  lemma BehaviourParts(admitted: set<Transaction>, blocks: seq<Block>, universe: set<Transaction>)
    requires BehaveIn(admitted, blocks, universe)
    ensures admitted <= universe && Distinguishing(universe)
    ensures AllIn(AllTxs(blocks), universe) && CoinbasesOnce(AllTxs(blocks)) && ListedOnce(blocks)
  {
  }

  /** The hypotheses give the history. */
  lemma HistoryOfRun(c: Crypto, events: seq<Event>) returns (universe: set<Transaction>)
    requires RunFits(c, events) && TxidsBehave(c, events)
    ensures HistoryOk(Run(c, events), universe)
  {
    hide Run, AllTxs, HistoryOk, RunFits;
    universe := Universe(c, events);
    RunHistory(c, events, universe);
  }

  /**
   In every run, crashes included: no txid is confirmed twice, no output is
   spent by two confirmed transactions, and every confirmed input was created
   by an earlier confirmed transaction.
  */
  lemma NoDoubleConfirmation(c: Crypto, events: seq<Event>, i: nat, j: nat)
    requires RunFits(c, events) && TxidsBehave(c, events)
    requires i < j < |AllTxs(Run(c, events).blocks)|
    ensures var txs := AllTxs(Run(c, events).blocks);
      && txs[i].txid != txs[j].txid
      && Ops(txs[i].inputs) !! Ops(txs[j].inputs)
      && forall op :: op in txs[j].inputs ==>
        exists k :: 0 <= k < j && op.txid == txs[k].txid && op.index < |txs[k].outputs|
  {
    hide Run, AllTxs, Sound, TxidsBehave, Inv, RunFits;
    var s := Run(c, events);
    var txs := AllTxs(s.blocks);
    RunInv(c, events);
    var universe := HistoryOfRun(c, events);
    AllFit(c, s);
    NothingTwice(txs, i, j);
    forall op | op in txs[j].inputs
      ensures exists k :: 0 <= k < j && op.txid == txs[k].txid && op.index < |txs[k].outputs|
    {
      var k := InputsHaveOrigin(txs, j, op);
    }
  }

  /** A block's transactions stand together in the list of all. */
  lemma {:induction false} BlockPlace(blocks: seq<Block>, i: nat) returns (o: nat)
    requires i < |blocks|
    ensures o + |blocks[i].transactions| <= |AllTxs(blocks)|
    ensures forall k :: 0 <= k < |blocks[i].transactions| ==> AllTxs(blocks)[o + k] == blocks[i].transactions[k]
  {
    if i == |blocks| - 1 {
      o := |AllTxs(blocks[..i])|;
    } else {
      o := BlockPlace(blocks[..|blocks| - 1], i);
    }
  }

  /**
   Where txids tell transactions apart, no txid is confirmed twice exactly when
   no coinbase is reused and no block lists a transaction twice.
  */
  lemma ConfirmedOnceExactly(c: Crypto, events: seq<Event>)
    requires RunFits(c, events) && Distinguishing(Universe(c, events))
    ensures var blocks := Run(c, events).blocks;
      DistinctTxids(AllTxs(blocks)) <==> CoinbasesOnce(AllTxs(blocks)) && ListedOnce(blocks)
  {
    hide Run, AllTxs, RunFits, Distinguishing;
    var blocks := Run(c, events).blocks;
    var txs := AllTxs(blocks);
    if CoinbasesOnce(txs) && ListedOnce(blocks) {
      forall i, j | 0 <= i < j < |txs| ensures txs[i].txid != txs[j].txid {
        NoDoubleConfirmation(c, events, i, j);
      }
    }
    if DistinctTxids(txs) {
      DistinctMeansOnce(blocks);
    }
  }

  lemma DistinctMeansOnce(blocks: seq<Block>)
    requires DistinctTxids(AllTxs(blocks))
    ensures CoinbasesOnce(AllTxs(blocks)) && ListedOnce(blocks)
  {
    hide AllTxs;
    var txs := AllTxs(blocks);
    forall i, a, b | 0 <= i < |blocks| && 1 <= a < b < |blocks[i].transactions|
      ensures blocks[i].transactions[a].txid != blocks[i].transactions[b].txid
    {
      var o := BlockPlace(blocks, i);
      assert txs[o + a].txid != txs[o + b].txid;
    }
  }

  /**
   In every run, money in circulation plus net fees is exactly what genesis and
   the coinbases minted. No fee as listed is negative; counting those, it is at
   least what was minted, and exactly that if and only if no confirmed
   transaction lists money twice.
  */
  lemma Conservation(c: Crypto, events: seq<Event>)
    requires RunFits(c, events) && TxidsBehave(c, events)
    ensures var txs, u := AllTxs(Run(c, events).blocks), Run(c, events).ledger.utxo;
      && Total(u) + NetBurned(txs) == Minted(txs)
      && (forall j :: 0 <= j < |txs| && !txs[j].IsCoinbase() ==> Fee(txs[..j], txs[j]) >= 0)
      && NetBurned(txs) <= Burned(txs)
      && (Total(u) + Burned(txs) == Minted(txs) <==> NoMoneyRepeated(txs))
  {
    hide Run, AllTxs, Sound, TxidsBehave, Inv, RunFits, Burned, NetBurned, Minted, Fee, Total, ApplyAll, NoMoneyRepeated;
    var s := Run(c, events);
    RunInv(c, events);
    var universe := HistoryOfRun(c, events);
    AllFit(c, s);
    Parts(c, s);
    ValueConserved(AllTxs(s.blocks));
  }

  /**
   In every run the per-address query succeeds and returns the scan of the live
   outputs, each once, in the order they were created.
  */
  lemma QueryAfterRun(c: Crypto, events: seq<Event>, a: Address)
    requires RunFits(c, events) && TxidsBehave(c, events)
    ensures var s := Run(c, events);
      && Lookup(s.ledger, s.spent, Entry(s.ledger.index, a)).Success?
      && var r := Lookup(s.ledger, s.spent, Entry(s.ledger.index, a)).value;
         var created := Kept(AllSent(AllTxs(s.blocks), a), SpentBy(AllTxs(s.blocks)) + s.spent);
      && (set p | p in r) == Scan(s.ledger, s.spent, a) && NoDuplicates(r)
      && |r| == |created| && forall i :: 0 <= i < |r| ==> r[i].0 == created[i]
  {
    hide Run, AllTxs, Sound, TxidsBehave, Inv, RunFits, ApplyAll, Lookup, IndexAgrees, NoRepeats, Scan, SpentBy,
      AllSent, Kept, Entry;
    var s := Run(c, events);
    var txs := AllTxs(s.blocks);
    RunInv(c, events);
    var universe := HistoryOfRun(c, events);
    AllFit(c, s);
    Parts(c, s);
    SoundIndexExact(txs);
    QueryIsScan(s.ledger, s.spent, a);
    IndexInOrder(txs, a);
    LookupInOrder(s.ledger, s.spent, Entry(s.ledger.index, a));
    KeptTwice(AllSent(txs, a), SpentBy(txs), s.spent);
  }

  /** With nothing assumed but that equal txids mean equal recipients, the query still returns the scan as a set. */
  lemma QueryAgreesAsSet(c: Crypto, events: seq<Event>, a: Address)
    requires RunFits(c, events) && RecipientsAgree(AllTxs(Run(c, events).blocks))
    ensures var s := Run(c, events);
      && Lookup(s.ledger, s.spent, Entry(s.ledger.index, a)).Success?
      && (set p | p in Lookup(s.ledger, s.spent, Entry(s.ledger.index, a)).value) == Scan(s.ledger, s.spent, a)
  {
    hide Run, AllTxs, Inv, RunFits, ApplyAll, Lookup, IndexAgrees, NoRepeats, Scan, RecipientsAgree;
    var s := Run(c, events);
    RunInv(c, events);
    AllFit(c, s);
    Parts(c, s);
    ReplayIndexAgrees(AllTxs(s.blocks));
    QueryIsScan(s.ledger, s.spent, a);
  }

  /** A listed transaction that shares its txid with the coinbase has the coinbase's output where both have one. */
  ghost predicate CoinbaseAgrees(block: seq<Transaction>)
    requires block != []
  {
    forall j, i :: 1 <= j < |block| && block[j].txid == block[0].txid && 0 <= i < |block[j].outputs| && i < |block[0].outputs|
      ==> block[j].outputs[i] == block[0].outputs[i]
  }

  /**
   A block drawn from the pool, with txids listed twice or not, none of whose
   outputs it spends itself, replaces all inputs by all outputs at once; and
   every order of its transactions leaves the same if and only if no listed
   transaction contradicts the coinbase under its txid.
  */
  lemma DrawnBlockEffect(s: State, block: seq<Transaction>)
    requires PoolOk(s) && DrawnFrom(s.pool, block) && OutputsFit(block)
    requires SpentBy(block) !! Created(block).Keys
    ensures ApplyAll(s.ledger, block).utxo == (s.ledger.utxo - SpentBy(block)) + Created(block)
    ensures CoinbaseAgrees(block) <==>
      forall perm: seq<Transaction> ::
        multiset(perm) == multiset(block) ==> ApplyAll(s.ledger, perm).utxo == ApplyAll(s.ledger, block).utxo
  {
    hide PoolOk, ApplyAll, OutputsAgree, CoinbaseAgrees, OutputsFit, Created, SpentBy;
    DisjointMeansNoChaining(block);
    ClosedForm(s.ledger, block);
    OrderMatters(s.ledger, block);
    DrawnAgree(s.pool, block);
  }

  lemma DrawnAgree(pool: map<Hash, Transaction>, block: seq<Transaction>)
    requires DrawnFrom(pool, block)
    ensures OutputsAgree(block) <==> CoinbaseAgrees(block)
  {
    if OutputsAgree(block) {
      assert forall j :: 0 <= j < |block| ==> block[j] in block;
    } else {
      var a, b, i :| a in block && b in block && a.txid == b.txid && 0 <= i < |a.outputs| && i < |b.outputs|
        && a.outputs[i] != b.outputs[i];
      if a != block[0] {
        ListedOrCoinbase(pool, block, a);
      }
      if b != block[0] {
        ListedOrCoinbase(pool, block, b);
      }
      if a == block[0] {
        var k :| 1 <= k < |block| && block[k] == b;
      } else {
        var j :| 1 <= j < |block| && block[j] == a;
      }
    }
  }

  lemma ListedOrCoinbase(pool: map<Hash, Transaction>, block: seq<Transaction>, tx: Transaction)
    requires DrawnFrom(pool, block) && tx in block && tx != block[0]
    ensures tx.txid in pool && pool[tx.txid] == tx && exists j :: 1 <= j < |block| && block[j] == tx
  {
    var j :| 0 <= j < |block| && block[j] == tx;
    assert j > 0;
  }

  /** A drawn block whose outputs are all new spends none of them itself. */
  lemma NewOutputsUnspent(s: State, block: seq<Transaction>)
    requires PoolOk(s) && DrawnFrom(s.pool, block) && Created(block).Keys !! s.ledger.utxo.Keys
    ensures SpentBy(block) !! Created(block).Keys
  {
    hide Mirrors, Disjoint, Created;
    forall op | op in SpentBy(block) ensures op in s.ledger.utxo {
      SpentByMembers(block, op);
      var tx :| tx in block && op in tx.inputs;
      InputsOfDrawn(s.pool, block, tx);
      PoolInputsAt(s.pool, op);
    }
  }

  // ------------------------------------------------------------------- provenance

  /** Pooled transactions were admitted; confirmed ones were admitted or are constructed coinbases. */
  ghost predicate Provenanced(c: Crypto, admitted: set<Transaction>, s: State) {
    && (forall t :: t in s.pool ==> s.pool[t] in admitted)
    && (forall tx :: tx in AllTxs(s.blocks) ==> tx in admitted || (tx.IsCoinbase() && Constructed(c, tx)))
  }

  lemma DoKeepsProvenance(c: Crypto, admitted: set<Transaction>, s: State, op: Op)
    requires Inv(c, s) && Provenanced(c, admitted, s)
    requires op.Submit? && Verdict(c, s, op.st) == TxNone ==> op.st.tx in admitted
    ensures Provenanced(c, admitted, Do(c, s, op))
  {
    hide Inv, AllTxs, Constructed, Verdict, AddBlock, Draw, BlockVerdict, MerkleRoot, HeaderHash, PoolOk,
      PoolFits, ChainOk, BlockFits, NestedFits, Coinbase, Stored, Mirrors, PoolInputs;
    Parts(c, s);
    match op {
      case Submit(st) =>
      case Mine(req) =>
        if SubmitBlock(c, s, req).0 == BlockNone {
          var txs := Draw(s.pool, req.txids).value;
          MinedProvenance(c, admitted, s, req, txs);
        }
    }
  }

  lemma MinedProvenance(c: Crypto, admitted: set<Transaction>, s: State, req: BlockRequest, txs: seq<Transaction>)
    requires PoolOk(s) && Draw(s.pool, req.txids) == Some(txs) && Provenanced(c, admitted, s)
    ensures Provenanced(c, admitted, AddBlock(s, RequestedBlock(c, req, txs)))
  {
    hide AllTxs, Constructed, MerkleRoot, HeaderHash, PoolOk, Coinbase, ConfirmAll, EncodeBlock, BlockKey;
    var b := RequestedBlock(c, req, txs);
    ConfirmedAll(s, b.transactions);
    AllTxsPush(s.blocks, b);
    DrawFinds(s.pool, req.txids);
    CoinbaseConstructed(c, req);
    forall tx | tx in [Coinbase(c, req)] + txs
      ensures tx in admitted || (tx.IsCoinbase() && Constructed(c, tx))
    {
    }
  }

  lemma CoinbaseConstructed(c: Crypto, req: BlockRequest)
    ensures Coinbase(c, req).IsCoinbase() && Constructed(c, Coinbase(c, req))
  {
    hide Preimage;
  }

  lemma MoreAdmitted(c: Crypto, admitted: set<Transaction>, more: set<Transaction>, s: State)
    requires Provenanced(c, admitted, s) && admitted <= more
    ensures Provenanced(c, more, s)
  {
    hide AllTxs, Constructed;
  }

  lemma DropKeepsProvenance(c: Crypto, admitted: set<Transaction>, s: State, gone: set<Hash>)
    requires Provenanced(c, admitted, s)
    ensures Provenanced(c, admitted, Drop(s, gone))
  {
    hide AllTxs, Constructed, PoolInputs, PoolKeys;
  }

  /** Nothing is pooled or confirmed in any run that was not admitted, coinbases apart. */
  lemma {:induction false} RunProvenance(c: Crypto, events: seq<Event>)
    requires RunFits(c, events)
    ensures Provenanced(c, Admitted(c, events), Run(c, events))
  {
    hide Inv, Provenanced, Next, Do, EventFits, Start, Drop, Verdict, Writes;
    if events == [] {
      StartProvenance(c);
    } else {
      var init, last := events[..|events| - 1], events[|events| - 1];
      var s, admitted := Run(c, init), Admitted(c, events);
      RunProvenance(c, init);
      RunInv(c, init);
      MoreAdmitted(c, Admitted(c, init), admitted, s);
      var done, gone := NextCases(c, s, last);
      if done {
        DoKeepsProvenance(c, admitted, s, last.op);
      } else {
        DropKeepsProvenance(c, admitted, s, gone);
      }
    }
  }

  lemma StartProvenance(c: Crypto)
    ensures Provenanced(c, {}, Start(c))
  {
    hide GenesisBlock, Start, Constructed, AllTxs;
    var cb := StartShape(c);
  }

  /** Equal hashes mean equal preimages, and no two transactions have counts that could share one. */
  ghost predicate CollisionFree(c: Crypto, universe: set<Transaction>) {
    && (forall a, b :: a in universe && b in universe && c.blake2b(TxPreimage(a)) == c.blake2b(TxPreimage(b))
                       ==> TxPreimage(a) == TxPreimage(b))
    && (forall a, b :: a in universe && b in universe ==> CountsApart(a, b))
  }

  /** Where the distinguishing hypothesis comes from: constructed transactions and a collision-free hash. */
  lemma HashTellsApart(c: Crypto, events: seq<Event>)
    requires RunFits(c, events)
    requires forall tx :: tx in Admitted(c, events) ==> Constructed(c, tx)
    requires CollisionFree(c, Universe(c, events))
    ensures Distinguishing(Universe(c, events))
  {
    hide Run, AllTxs, Admitted, RunFits, TxPreimage;
    var universe := Universe(c, events);
    RunProvenance(c, events);
    forall a, b | a in universe && b in universe && a.txid == b.txid ensures a == b {
      TxidsTellApart(c, universe, a, b);
    }
  }
}
