/**
 The unspent outputs and their per-address index, and what confirming a
 transaction does to both.
*/
module LedgerSpec {
  import opened Types

  datatype Ledger = Ledger(utxo: map<OutPoint, TxOutput>, index: map<Address, seq<OutPoint>>)

  function EmptyLedger(): Ledger {
    Ledger(map[], map[])
  }

  function Entry(index: map<Address, seq<OutPoint>>, a: Address): seq<OutPoint> {
    if a in index then index[a] else []
  }

  /** Removes every copy. */
  function Erase(s: seq<OutPoint>, x: OutPoint): (r: seq<OutPoint>)
    ensures forall y :: y in r <==> y in s && y != x
    ensures NoDuplicates(s) ==> NoDuplicates(r)
  {
    if s == [] then [] else
      var rest, last := Erase(s[..|s| - 1], x), s[|s| - 1];
      assert s == s[..|s| - 1] + [last];
      NoDuplicatesPush(s[..|s| - 1], last);
      NoDuplicatesPush(rest, last);
      if last == x then rest else rest + [last]
  }

  function SpendOne(l: Ledger, op: OutPoint): Ledger {
    if op !in l.utxo then l else
      var a := l.utxo[op].recipient;
      var rest := Erase(Entry(l.index, a), op);
      Ledger(l.utxo - {op}, if rest == [] then l.index - {a} else l.index[a := rest])
  }

  function SpendAll(l: Ledger, ops: seq<OutPoint>): Ledger {
    if ops == [] then l else SpendOne(SpendAll(l, ops[..|ops| - 1]), ops[|ops| - 1])
  }

  /** The output counter is a 32-bit integer. */
  function OutPointAt(txid: Hash, i: nat): OutPoint {
    OutPoint(txid, ToU32(i))
  }

  function AddOne(l: Ledger, op: OutPoint, out: TxOutput): Ledger {
    Ledger(l.utxo[op := out], l.index[out.recipient := Entry(l.index, out.recipient) + [op]])
  }

  function AddOutputs(l: Ledger, txid: Hash, outs: seq<TxOutput>): Ledger {
    if outs == [] then l else
      var n := |outs| - 1;
      AddOne(AddOutputs(l, txid, outs[..n]), OutPointAt(txid, n), outs[n])
  }

  function ApplyTx(l: Ledger, tx: Transaction): Ledger {
    AddOutputs(SpendAll(l, tx.inputs), tx.txid, tx.outputs)
  }

  function ApplyAll(l: Ledger, txs: seq<Transaction>): Ledger {
    if txs == [] then l else ApplyTx(ApplyAll(l, txs[..|txs| - 1]), txs[|txs| - 1])
  }

  lemma {:induction false} ApplyConcat(l: Ledger, a: seq<Transaction>, b: seq<Transaction>)
    ensures ApplyAll(l, a + b) == ApplyAll(ApplyAll(l, a), b)
  {
    if b == [] {
      assert a + b == a;
    } else {
      ApplyConcat(l, a, b[..|b| - 1]);
      assert (a + b)[..|a + b| - 1] == a + b[..|b| - 1];
    }
  }

  // ----------------------------------------------------------- the unspent outputs

  function Ops(ops: seq<OutPoint>): set<OutPoint> {
    set op | op in ops
  }

  function OutputMap(txid: Hash, outs: seq<TxOutput>): map<OutPoint, TxOutput> {
    if outs == [] then map[] else
      var n := |outs| - 1;
      OutputMap(txid, outs[..n])[OutPointAt(txid, n) := outs[n]]
  }

  function TxCreates(tx: Transaction): map<OutPoint, TxOutput> {
    OutputMap(tx.txid, tx.outputs)
  }

  lemma {:induction false} SpentUtxo(l: Ledger, ops: seq<OutPoint>)
    ensures SpendAll(l, ops).utxo == l.utxo - Ops(ops)
  {
    if ops != [] {
      var init, last := ops[..|ops| - 1], ops[|ops| - 1];
      SpentUtxo(l, init);
      assert ops == init + [last];
      assert Ops(ops) == Ops(init) + {last};
    }
  }

  lemma {:induction false} AddedUtxo(l: Ledger, txid: Hash, outs: seq<TxOutput>)
    ensures AddOutputs(l, txid, outs).utxo == l.utxo + OutputMap(txid, outs)
  {
    if outs != [] {
      AddedUtxo(l, txid, outs[..|outs| - 1]);
    }
  }

  /** One transaction: its inputs leave, then its outputs enter. */
  lemma AppliedUtxo(l: Ledger, tx: Transaction)
    ensures ApplyTx(l, tx).utxo == (l.utxo - Ops(tx.inputs)) + TxCreates(tx)
  {
    SpentUtxo(l, tx.inputs);
    AddedUtxo(SpendAll(l, tx.inputs), tx.txid, tx.outputs);
  }

  /** What a transaction creates, point by point. */
  lemma {:induction false} OutputMapAt(txid: Hash, outs: seq<TxOutput>)
    requires |outs| <= U32_SIZE
    ensures forall i :: 0 <= i < |outs| ==>
      OutPointAt(txid, i) in OutputMap(txid, outs) && OutputMap(txid, outs)[OutPointAt(txid, i)] == outs[i]
    ensures forall op :: op in OutputMap(txid, outs) <==> op.txid == txid && op.index < |outs|
  {
    if outs != [] {
      OutputMapAt(txid, outs[..|outs| - 1]);
    }
  }

  /** All outputs of a list of transactions, a later one replacing an earlier one at the same outpoint. */
  function Created(txs: seq<Transaction>): map<OutPoint, TxOutput> {
    if txs == [] then map[] else Created(txs[..|txs| - 1]) + TxCreates(txs[|txs| - 1])
  }

  function SpentBy(txs: seq<Transaction>): set<OutPoint> {
    if txs == [] then {} else SpentBy(txs[..|txs| - 1]) + Ops(txs[|txs| - 1].inputs)
  }

  lemma {:induction false} SpentByMembers(txs: seq<Transaction>, op: OutPoint)
    ensures op in SpentBy(txs) <==> exists tx :: tx in txs && op in tx.inputs
  {
    if txs != [] {
      SpentByMembers(txs[..|txs| - 1], op);
      assert txs == txs[..|txs| - 1] + [txs[|txs| - 1]];
    }
  }

  /** No transaction spends an output created by an earlier one of the list. */
  ghost predicate NoChaining(txs: seq<Transaction>) {
    forall j, op :: 0 <= j < |txs| && op in txs[j].inputs ==> op !in Created(txs[..j])
  }

  lemma NoChainingPrefix(txs: seq<Transaction>)
    requires txs != [] && NoChaining(txs)
    ensures NoChaining(txs[..|txs| - 1])
  {
    var init := txs[..|txs| - 1];
    forall j, op | 0 <= j < |init| && op in init[j].inputs ensures op !in Created(init[..j]) {
      assert init[..j] == txs[..j] && init[j] == txs[j];
    }
  }

  lemma AccumulateStep<K, V>(u: map<K, V>, gone: set<K>, come: map<K, V>, goes: set<K>, comes: map<K, V>)
    requires goes !! come.Keys
    ensures (((u - gone) + come) - goes) + comes == (u - (gone + goes)) + (come + comes)
  {
  }

  /** Applying a list one by one is removing all inputs at once and adding all outputs at once. */
  lemma {:induction false} ClosedForm(l: Ledger, txs: seq<Transaction>)
    requires NoChaining(txs)
    ensures ApplyAll(l, txs).utxo == (l.utxo - SpentBy(txs)) + Created(txs)
  {
    if txs != [] {
      var init, last := txs[..|txs| - 1], txs[|txs| - 1];
      NoChainingPrefix(txs);
      ClosedForm(l, init);
      AppliedUtxo(ApplyAll(l, init), last);
      assert txs[..|txs| - 1] == init && forall op :: op in last.inputs ==> op !in Created(init);
      AccumulateStep(l.utxo, SpentBy(init), Created(init), Ops(last.inputs), TxCreates(last));
    }
  }

  ghost predicate DistinctTxids(txs: seq<Transaction>) {
    forall i, j :: 0 <= i < j < |txs| ==> txs[i].txid != txs[j].txid
  }

  ghost predicate OutputsFit(txs: seq<Transaction>) {
    forall tx :: tx in txs ==> |tx.outputs| <= U32_SIZE
  }

  /** Transactions that share a txid have the same output at every index they share. */
  ghost predicate OutputsAgree(txs: seq<Transaction>) {
    forall a, b, i :: a in txs && b in txs && a.txid == b.txid && 0 <= i < |a.outputs| && i < |b.outputs| ==>
      a.outputs[i] == b.outputs[i]
  }

  /** An outpoint is created by the transactions that bear its txid; where they agree, it does not matter which. */
  lemma {:induction false} CreatedAt(txs: seq<Transaction>, op: OutPoint)
    requires OutputsFit(txs)
    ensures op in Created(txs) <==> exists tx :: tx in txs && op.txid == tx.txid && op.index < |tx.outputs|
    ensures OutputsAgree(txs) ==>
      forall tx :: (tx in txs && op.txid == tx.txid && op.index < |tx.outputs|
                    ==> Created(txs)[op] == tx.outputs[op.index])
  {
    if txs != [] {
      var init, last := txs[..|txs| - 1], txs[|txs| - 1];
      assert txs == init + [last];
      assert last in txs && forall tx :: tx in init ==> tx in txs;
      CreatedAt(init, op);
      OutputMapAt(last.txid, last.outputs);
      if op in TxCreates(last) {
        assert op == OutPointAt(last.txid, op.index);
      }
    }
  }

  /**
   Any two orders of the same transactions leave the same unspent outputs, when
   no transaction spends another's output and those that share a txid agree.
  */
  lemma OrderIrrelevant(l: Ledger, txs: seq<Transaction>, perm: seq<Transaction>)
    requires multiset(txs) == multiset(perm)
    requires OutputsAgree(txs) && OutputsFit(txs)
    requires SpentBy(txs) !! Created(txs).Keys
    ensures ApplyAll(l, txs).utxo == ApplyAll(l, perm).utxo
  {
    SameMembers(txs, perm);
    SameEffect(txs, perm);
    DisjointMeansNoChaining(txs);
    DisjointMeansNoChaining(perm);
    ClosedForm(l, txs);
    ClosedForm(l, perm);
  }

  /** Order does not matter if and only if the transactions that share a txid agree. */
  lemma OrderMatters(l: Ledger, txs: seq<Transaction>)
    requires OutputsFit(txs) && SpentBy(txs) !! Created(txs).Keys
    ensures OutputsAgree(txs) <==>
      forall perm: seq<Transaction> :: multiset(perm) == multiset(txs) ==> ApplyAll(l, perm).utxo == ApplyAll(l, txs).utxo
  {
    hide ApplyAll, SpentBy, Created;
    if OutputsAgree(txs) {
      forall perm: seq<Transaction> | multiset(perm) == multiset(txs)
        ensures ApplyAll(l, perm).utxo == ApplyAll(l, txs).utxo
      {
        OrderIrrelevant(l, txs, perm);
      }
    } else {
      var a, b, i :| a in txs && b in txs && a.txid == b.txid && 0 <= i < |a.outputs| && i < |b.outputs|
        && a.outputs[i] != b.outputs[i];
      var pa := MovedLast(txs, a);
      var pb := MovedLast(txs, b);
      LastDecides(l, pa, i);
      LastDecides(l, pb, i);
      assert ApplyAll(l, pa).utxo != ApplyAll(l, pb).utxo;
    }
  }

  /** The same transactions with one of them at the end. */
  lemma MovedLast(txs: seq<Transaction>, tx: Transaction) returns (perm: seq<Transaction>)
    requires tx in txs
    ensures multiset(perm) == multiset(txs) && perm != [] && perm[|perm| - 1] == tx
  {
    var j :| 0 <= j < |txs| && txs[j] == tx;
    perm := txs[..j] + txs[j + 1..] + [tx];
    assert txs == txs[..j] + [tx] + txs[j + 1..];
  }

  lemma LastDecides(l: Ledger, txs: seq<Transaction>, i: nat)
    requires txs != [] && i < |txs[|txs| - 1].outputs| <= U32_SIZE
    ensures var last := txs[|txs| - 1];
      OutPointAt(last.txid, i) in ApplyAll(l, txs).utxo && ApplyAll(l, txs).utxo[OutPointAt(last.txid, i)] == last.outputs[i]
  {
    var last := txs[|txs| - 1];
    AppliedUtxo(ApplyAll(l, txs[..|txs| - 1]), last);
    OutputMapAt(last.txid, last.outputs);
  }

  lemma SameMembers(txs: seq<Transaction>, perm: seq<Transaction>)
    requires multiset(txs) == multiset(perm)
    ensures forall tx :: tx in perm <==> tx in txs
  {
    assert forall tx :: tx in perm <==> tx in multiset(perm);
    assert forall tx :: tx in txs <==> tx in multiset(txs);
  }

  lemma SameEffect(txs: seq<Transaction>, perm: seq<Transaction>)
    requires forall tx :: tx in perm <==> tx in txs
    requires OutputsAgree(txs) && OutputsFit(txs)
    ensures SpentBy(txs) == SpentBy(perm) && Created(txs) == Created(perm)
  {
    assert OutputsFit(perm) && OutputsAgree(perm);
    forall op: OutPoint ensures op in SpentBy(txs) <==> op in SpentBy(perm) {
      SpentByMembers(txs, op);
      SpentByMembers(perm, op);
    }
    forall op: OutPoint
      ensures op in Created(txs) <==> op in Created(perm)
      ensures op in Created(txs) ==> Created(txs)[op] == Created(perm)[op]
    {
      CreatedAt(txs, op);
      CreatedAt(perm, op);
    }
  }

  lemma {:induction false} CreatedMonotone(txs: seq<Transaction>, j: nat)
    requires j <= |txs|
    ensures Created(txs[..j]).Keys <= Created(txs).Keys
  {
    if j < |txs| {
      CreatedMonotone(txs[..|txs| - 1], j);
      assert txs[..|txs| - 1][..j] == txs[..j];
    } else {
      assert txs[..j] == txs;
    }
  }

  lemma DisjointMeansNoChaining(txs: seq<Transaction>)
    requires SpentBy(txs) !! Created(txs).Keys
    ensures NoChaining(txs)
  {
    forall j, op | 0 <= j < |txs| && op in txs[j].inputs ensures op !in Created(txs[..j]) {
      SpentByMembers(txs, op);
      CreatedMonotone(txs, j);
    }
  }

  // ----------------------------------------------------------- the address index

  predicate Listed(l: Ledger, a: Address, op: OutPoint) {
    a in l.index && op in l.index[a]
  }

  predicate Owned(l: Ledger, a: Address, op: OutPoint) {
    op in l.utxo && l.utxo[op].recipient == a
  }

  /** The index lists exactly the live outputs of each recipient, and no empty lists. */
  ghost predicate IndexAgrees(l: Ledger) {
    && (forall a, op :: Listed(l, a, op) <==> Owned(l, a, op))
    && (forall a :: a in l.index ==> l.index[a] != [])
  }

  ghost predicate NoRepeats(l: Ledger) {
    forall a :: a in l.index ==> NoDuplicates(l.index[a])
  }

  lemma SpendOneKeepsIndex(l: Ledger, op: OutPoint)
    requires IndexAgrees(l)
    ensures IndexAgrees(SpendOne(l, op))
    ensures NoRepeats(l) ==> NoRepeats(SpendOne(l, op))
  {
    if op in l.utxo {
      var l', r := SpendOne(l, op), l.utxo[op].recipient;
      assert Owned(l, r, op);
      forall a, q ensures Listed(l', a, q) <==> Owned(l', a, q) {
        assert Listed(l, a, q) <==> Owned(l, a, q);
      }
    }
  }

  lemma {:induction false} SpendKeepsIndex(l: Ledger, ops: seq<OutPoint>)
    requires IndexAgrees(l)
    ensures IndexAgrees(SpendAll(l, ops))
    ensures NoRepeats(l) ==> NoRepeats(SpendAll(l, ops))
  {
    if ops != [] {
      SpendKeepsIndex(l, ops[..|ops| - 1]);
      SpendOneKeepsIndex(SpendAll(l, ops[..|ops| - 1]), ops[|ops| - 1]);
    }
  }

  lemma AddOneListed(l: Ledger, op: OutPoint, out: TxOutput, a: Address, q: OutPoint)
    ensures Listed(AddOne(l, op, out), a, q) <==> Listed(l, a, q) || (a == out.recipient && q == op)
  {
  }

  /** Some output of a transaction is at this outpoint and goes to this address. */
  ghost predicate Sends(txid: Hash, outs: seq<TxOutput>, a: Address, op: OutPoint) {
    exists i :: 0 <= i < |outs| && OutPointAt(txid, i) == op && outs[i].recipient == a
  }

  lemma SendsLast(txid: Hash, outs: seq<TxOutput>, a: Address, op: OutPoint)
    requires outs != []
    ensures var n := |outs| - 1;
      Sends(txid, outs, a, op) <==>
        Sends(txid, outs[..n], a, op) || (OutPointAt(txid, n) == op && outs[n].recipient == a)
  {
    var n := |outs| - 1;
    if Sends(txid, outs[..n], a, op) {
      var i :| 0 <= i < n && OutPointAt(txid, i) == op && outs[..n][i].recipient == a;
      assert outs[i].recipient == a;
    }
    if Sends(txid, outs, a, op) {
      var i :| 0 <= i < |outs| && OutPointAt(txid, i) == op && outs[i].recipient == a;
      assert i < n ==> outs[..n][i].recipient == a;
    }
  }

  lemma {:induction false} AddedListed(l: Ledger, txid: Hash, outs: seq<TxOutput>, a: Address, op: OutPoint)
    ensures Listed(AddOutputs(l, txid, outs), a, op) <==> Listed(l, a, op) || Sends(txid, outs, a, op)
  {
    if outs != [] {
      var n := |outs| - 1;
      AddedListed(l, txid, outs[..n], a, op);
      AddOneListed(AddOutputs(l, txid, outs[..n]), OutPointAt(txid, n), outs[n], a, op);
      SendsLast(txid, outs, a, op);
    }
  }

  lemma {:induction false} AddedNonEmpty(l: Ledger, txid: Hash, outs: seq<TxOutput>)
    requires forall a :: a in l.index ==> l.index[a] != []
    ensures forall a :: a in AddOutputs(l, txid, outs).index ==> AddOutputs(l, txid, outs).index[a] != []
  {
    if outs != [] {
      AddedNonEmpty(l, txid, outs[..|outs| - 1]);
    }
  }

  /** Every output that is already live keeps its recipient. */
  ghost predicate SameRecipients(l: Ledger, txid: Hash, outs: seq<TxOutput>) {
    forall i :: 0 <= i < |outs| && OutPointAt(txid, i) in l.utxo ==>
      l.utxo[OutPointAt(txid, i)].recipient == outs[i].recipient
  }

  ghost predicate FreshOutputs(l: Ledger, txid: Hash, outs: seq<TxOutput>) {
    forall i :: 0 <= i < |outs| ==> OutPointAt(txid, i) !in l.utxo
  }

  lemma AddKeepsIndex(l: Ledger, txid: Hash, outs: seq<TxOutput>)
    requires IndexAgrees(l) && |outs| <= U32_SIZE
    ensures IndexAgrees(AddOutputs(l, txid, outs)) <==> SameRecipients(l, txid, outs)
  {
    hide AddOutputs, OutputMap;
    var l' := AddOutputs(l, txid, outs);
    AddedUtxo(l, txid, outs);
    OutputMapAt(txid, outs);
    AddedNonEmpty(l, txid, outs);
    if SameRecipients(l, txid, outs) {
      forall a, op ensures Listed(l', a, op) <==> Owned(l', a, op) {
        AddedListed(l, txid, outs, a, op);
        assert Listed(l, a, op) <==> Owned(l, a, op);
        if op in OutputMap(txid, outs) {
          assert op == OutPointAt(txid, op.index);
        }
      }
    } else {
      var i :| 0 <= i < |outs| && OutPointAt(txid, i) in l.utxo
        && l.utxo[OutPointAt(txid, i)].recipient != outs[i].recipient;
      var op := OutPointAt(txid, i);
      var r := l.utxo[op].recipient;
      AddedListed(l, txid, outs, r, op);
      assert Listed(l, r, op) <==> Owned(l, r, op);
      assert Owned(l, r, op) && Listed(l', r, op) && !Owned(l', r, op);
    }
  }

  lemma {:induction false} AddKeepsNoRepeats(l: Ledger, txid: Hash, outs: seq<TxOutput>)
    requires |outs| <= U32_SIZE
    ensures NoRepeats(AddOutputs(l, txid, outs)) <==>
      NoRepeats(l) && forall i :: 0 <= i < |outs| ==> !Listed(l, outs[i].recipient, OutPointAt(txid, i))
  {
    if outs != [] {
      var n := |outs| - 1;
      var m := AddOutputs(l, txid, outs[..n]);
      var op, r := OutPointAt(txid, n), outs[n].recipient;
      AddKeepsNoRepeats(l, txid, outs[..n]);
      AddedListed(l, txid, outs[..n], r, op);
      assert !Sends(txid, outs[..n], r, op);
      PushKeepsNoRepeats(m, op, outs[n]);
      assert forall i :: 0 <= i < n ==> outs[..n][i] == outs[i];
    }
  }

  lemma PushKeepsNoRepeats(l: Ledger, op: OutPoint, out: TxOutput)
    ensures NoRepeats(AddOne(l, op, out)) <==> NoRepeats(l) && !Listed(l, out.recipient, op)
  {
    var s := Entry(l.index, out.recipient);
    var l' := AddOne(l, op, out);
    assert l'.index[out.recipient] == s + [op];
    NoDuplicatesPush(s, op);
    forall a | a != out.recipient ensures a in l'.index <==> a in l.index {
    }
    if NoRepeats(l') {
      forall a | a in l.index ensures NoDuplicates(l.index[a]) {
        assert a != out.recipient ==> l'.index[a] == l.index[a];
      }
    }
  }

  /**
   Confirming a transaction keeps the index in agreement exactly when none of
   its outputs overwrites a live output of another recipient, and exact (each
   outpoint listed once) exactly when none of its outputs is live.
  */
  lemma ApplyKeepsIndex(l: Ledger, tx: Transaction)
    requires IndexAgrees(l) && |tx.outputs| <= U32_SIZE
    ensures IndexAgrees(ApplyTx(l, tx)) <==> SameRecipients(SpendAll(l, tx.inputs), tx.txid, tx.outputs)
    ensures NoRepeats(l) ==>
      ((IndexAgrees(ApplyTx(l, tx)) && NoRepeats(ApplyTx(l, tx)))
       <==> FreshOutputs(SpendAll(l, tx.inputs), tx.txid, tx.outputs))
  {
    var m := SpendAll(l, tx.inputs);
    SpendKeepsIndex(l, tx.inputs);
    AddKeepsIndex(m, tx.txid, tx.outputs);
    AddKeepsNoRepeats(m, tx.txid, tx.outputs);
    forall i | 0 <= i < |tx.outputs|
      ensures Listed(m, tx.outputs[i].recipient, OutPointAt(tx.txid, i))
        <==> Owned(m, tx.outputs[i].recipient, OutPointAt(tx.txid, i))
    {
    }
  }

  // --------------------------------------------------------- the order of the index

  /** What is left of a list when some outpoints go: the rest, in the order it had. */
  function Kept(s: seq<OutPoint>, gone: set<OutPoint>): seq<OutPoint> {
    if s == [] then [] else
      Kept(s[..|s| - 1], gone) + if s[|s| - 1] in gone then [] else [s[|s| - 1]]
  }

  /** Order is kept: what is left of two lists in a row is what is left of the first, then of the second. */
  lemma {:induction false} KeptConcat(a: seq<OutPoint>, b: seq<OutPoint>, gone: set<OutPoint>)
    ensures Kept(a + b, gone) == Kept(a, gone) + Kept(b, gone)
  {
    if b == [] {
      assert a + b == a;
    } else {
      var n := |b| - 1;
      KeptConcat(a, b[..n], gone);
      assert (a + b)[..|a + b| - 1] == a + b[..n];
    }
  }

  lemma {:induction false} KeptMembers(s: seq<OutPoint>, gone: set<OutPoint>)
    ensures forall op :: op in Kept(s, gone) <==> op in s && op !in gone
    ensures (forall op :: op in s ==> op !in gone) ==> Kept(s, gone) == s
  {
    if s != [] {
      KeptMembers(s[..|s| - 1], gone);
      assert s == s[..|s| - 1] + [s[|s| - 1]];
    }
  }

  lemma {:induction false} KeptTwice(s: seq<OutPoint>, a: set<OutPoint>, b: set<OutPoint>)
    ensures Kept(Kept(s, a), b) == Kept(s, a + b)
  {
    if s != [] {
      var init, last := s[..|s| - 1], s[|s| - 1];
      KeptTwice(init, a, b);
      KeptConcat(Kept(init, a), if last in a then [] else [last], b);
      assert Kept([last], b) == if last in b then [] else [last] by {
        assert [last][..0] == [];
      }
    }
  }

  /** Erasing removes every copy and keeps the rest in order. */
  lemma {:induction false} EraseKeeps(s: seq<OutPoint>, x: OutPoint)
    ensures Erase(s, x) == Kept(s, {x})
  {
    if s != [] {
      EraseKeeps(s[..|s| - 1], x);
    }
  }

  /** The outpoints a transaction creates for an address, in output order. */
  function Sent(txid: Hash, outs: seq<TxOutput>, a: Address): seq<OutPoint> {
    if outs == [] then [] else
      var n := |outs| - 1;
      Sent(txid, outs[..n], a) + if outs[n].recipient == a then [OutPointAt(txid, n)] else []
  }

  /** They are the outputs to that address, with strictly increasing indices. */
  lemma {:induction false} SentInOrder(txid: Hash, outs: seq<TxOutput>, a: Address)
    requires |outs| <= U32_SIZE
    ensures forall op :: op in Sent(txid, outs, a) <==>
      op.txid == txid && op.index < |outs| && outs[op.index].recipient == a
    ensures forall i, j :: 0 <= i < j < |Sent(txid, outs, a)| ==> Sent(txid, outs, a)[i].index < Sent(txid, outs, a)[j].index
  {
    if outs != [] {
      var n := |outs| - 1;
      SentInOrder(txid, outs[..n], a);
      var before := Sent(txid, outs[..n], a);
      assert forall i :: 0 <= i < |before| ==> before[i] in before;
    }
  }

  lemma SpendOneEntry(l: Ledger, op: OutPoint, a: Address)
    requires IndexAgrees(l)
    ensures Entry(SpendOne(l, op).index, a) == Kept(Entry(l.index, a), {op})
  {
    var list := Entry(l.index, a);
    EraseKeeps(list, op);
    KeptMembers(list, {op});
    assert Listed(l, a, op) <==> Owned(l, a, op);
  }

  lemma {:induction false} SpendEntry(l: Ledger, ops: seq<OutPoint>, a: Address)
    requires IndexAgrees(l)
    ensures Entry(SpendAll(l, ops).index, a) == Kept(Entry(l.index, a), Ops(ops))
  {
    hide IndexAgrees, SpendOne, Entry;
    if ops == [] {
      assert Ops(ops) == {};
      KeptMembers(Entry(l.index, a), {});
    } else {
      var init, last := ops[..|ops| - 1], ops[|ops| - 1];
      assert ops == init + [last] && Ops(ops) == Ops(init) + {last};
      SpendEntry(l, init, a);
      SpendKeepsIndex(l, init);
      SpendOneEntry(SpendAll(l, init), last, a);
      KeptTwice(Entry(l.index, a), Ops(init), {last});
    }
  }

  lemma {:induction false} AddEntry(l: Ledger, txid: Hash, outs: seq<TxOutput>, a: Address)
    ensures Entry(AddOutputs(l, txid, outs).index, a) == Entry(l.index, a) + Sent(txid, outs, a)
  {
    if outs != [] {
      AddEntry(l, txid, outs[..|outs| - 1], a);
    }
  }

  /**
   Confirming a transaction takes its inputs out of an address's list, keeps the
   rest in order and appends its outputs in order.
  */
  lemma ApplyEntry(l: Ledger, tx: Transaction, a: Address)
    requires IndexAgrees(l)
    ensures Entry(ApplyTx(l, tx).index, a)
      == Kept(Entry(l.index, a), Ops(tx.inputs)) + Sent(tx.txid, tx.outputs, a)
  {
    SpendEntry(l, tx.inputs, a);
    AddEntry(SpendAll(l, tx.inputs), tx.txid, tx.outputs, a);
  }

  /** Looking up live outpoints answers for those not pool-spent, in list order, with their amounts. */
  lemma {:induction false} LookupInOrder(l: Ledger, spent: set<OutPoint>, ops: seq<OutPoint>)
    requires Lookup(l, spent, ops).Success?
    ensures var r, kept := Lookup(l, spent, ops).value, Kept(ops, spent);
      |r| == |kept| && forall i :: 0 <= i < |r| ==> kept[i] in l.utxo && r[i] == (kept[i], l.utxo[kept[i]].amount)
  {
    if ops != [] {
      LookupInOrder(l, spent, ops[..|ops| - 1]);
    }
  }

  // ----------------------------------------------------------- replaying a chain

  /** Transactions that share a txid have the same recipient at every output index they share. */
  ghost predicate RecipientsAgree(txs: seq<Transaction>) {
    forall a, b, i :: a in txs && b in txs && a.txid == b.txid && 0 <= i < |a.outputs| && i < |b.outputs| ==>
      a.outputs[i].recipient == b.outputs[i].recipient
  }

  /** Everything live was created by some transaction of the list. */
  lemma {:induction false} Provenance(txs: seq<Transaction>, op: OutPoint) returns (tx: Transaction)
    requires OutputsFit(txs) && op in ApplyAll(EmptyLedger(), txs).utxo
    ensures tx in txs && op.txid == tx.txid && op.index < |tx.outputs|
    ensures ApplyAll(EmptyLedger(), txs).utxo[op] == tx.outputs[op.index]
  {
    var init, last := txs[..|txs| - 1], txs[|txs| - 1];
    assert txs == init + [last];
    assert last in txs && forall t :: t in init ==> t in txs;
    AppliedUtxo(ApplyAll(EmptyLedger(), init), last);
    OutputMapAt(last.txid, last.outputs);
    if op in TxCreates(last) {
      tx := last;
      assert op == OutPointAt(last.txid, op.index);
    } else {
      tx := Provenance(init, op);
    }
  }

  /** If txids fix recipients, the index agrees with a scan after replaying any list whatever. */
  lemma {:induction false} ReplayIndexAgrees(txs: seq<Transaction>)
    requires RecipientsAgree(txs) && OutputsFit(txs)
    ensures IndexAgrees(ApplyAll(EmptyLedger(), txs))
  {
    if txs != [] {
      var init, last := txs[..|txs| - 1], txs[|txs| - 1];
      assert txs == init + [last];
      assert last in txs && forall t :: t in init ==> t in txs;
      ReplayIndexAgrees(init);
      var l := ApplyAll(EmptyLedger(), init);
      SpentUtxo(l, last.inputs);
      var m := SpendAll(l, last.inputs);
      forall i | 0 <= i < |last.outputs| && OutPointAt(last.txid, i) in m.utxo
        ensures m.utxo[OutPointAt(last.txid, i)].recipient == last.outputs[i].recipient
      {
        var tx := Provenance(init, OutPointAt(last.txid, i));
      }
      ApplyKeepsIndex(l, last);
    }
  }

  // -------------------------------------------------------------------- queries

  /** The outputs an address can spend, by scanning everything live. */
  ghost function Scan(l: Ledger, spent: set<OutPoint>, a: Address): set<(OutPoint, u64)> {
    set op | op in l.utxo && l.utxo[op].recipient == a && op !in spent :: (op, l.utxo[op].amount)
  }

  /** The same, through the index; a listed outpoint that is not live is an exception. */
  function Lookup(l: Ledger, spent: set<OutPoint>, ops: seq<OutPoint>): Result<seq<(OutPoint, u64)>> {
    if ops == [] then Success([]) else
      var init :- Lookup(l, spent, ops[..|ops| - 1]);
      var op := ops[|ops| - 1];
      if op in spent then Success(init)
      else if op in l.utxo then Success(init + [(op, l.utxo[op].amount)])
      else Failure
  }

  lemma {:induction false} LookupFinds(l: Ledger, spent: set<OutPoint>, ops: seq<OutPoint>)
    requires forall op :: op in ops ==> op in l.utxo
    ensures Lookup(l, spent, ops).Success?
    ensures var r := Lookup(l, spent, ops).value;
      && (forall p :: p in r <==> p.0 in ops && p.0 !in spent && p.0 in l.utxo && p.1 == l.utxo[p.0].amount)
      && (NoDuplicates(ops) ==> NoDuplicates(r))
  {
    if ops != [] {
      var init, last := ops[..|ops| - 1], ops[|ops| - 1];
      assert ops == init + [last];
      LookupFinds(l, spent, init);
      var r := Lookup(l, spent, init).value;
      if NoDuplicates(ops) && last !in spent {
        assert last !in init;
        assert (last, l.utxo[last].amount) !in r;
      }
    }
  }

  /** The indexed query never fails and returns the scan; with an exact index, each output once. */
  lemma QueryIsScan(l: Ledger, spent: set<OutPoint>, a: Address)
    requires IndexAgrees(l)
    ensures Lookup(l, spent, Entry(l.index, a)).Success?
    ensures var r := Lookup(l, spent, Entry(l.index, a)).value;
      && (set p | p in r) == Scan(l, spent, a)
      && (NoRepeats(l) ==> NoDuplicates(r))
  {
    var ops := Entry(l.index, a);
    forall op | op in ops ensures Owned(l, a, op) {
      assert Listed(l, a, op);
    }
    LookupFinds(l, spent, ops);
    var r := Lookup(l, spent, ops).value;
    forall p: (OutPoint, u64) ensures p in r <==> p in Scan(l, spent, a) {
      assert Listed(l, a, p.0) <==> Owned(l, a, p.0);
    }
  }
}
