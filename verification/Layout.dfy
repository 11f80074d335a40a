/** Where each field stands: the stored forms and the txid preimage, field by field and byte offset by byte offset. */
module Layout {
  import opened Types
  import opened ByteCodec
  import opened TxCodec
  import opened BlockCodec

  // ------------------------------------------------------------------- lists

  /** Input i of a list that starts at o: its txid, then its index. */
  predicate InputAt(d: Bytes, o: nat, xs: seq<OutPoint>, i: nat)
    requires i < |xs|
  {
    At(d, o + 36 * i, xs[i].txid) && At(d, o + 36 * i + 32, LittleEndian(xs[i].index, 4))
  }

  /** Output i of a list that starts at o: its recipient, then its amount. */
  predicate OutputAt(d: Bytes, o: nat, xs: seq<TxOutput>, i: nat)
    requires i < |xs|
  {
    At(d, o + 28 * i, xs[i].recipient) && At(d, o + 28 * i + 20, LittleEndian(xs[i].amount, 8))
  }

  predicate InputsAt(d: Bytes, o: nat, xs: seq<OutPoint>) {
    forall i :: 0 <= i < |xs| ==> InputAt(d, o, xs, i)
  }

  predicate OutputsAt(d: Bytes, o: nat, xs: seq<TxOutput>) {
    forall i :: 0 <= i < |xs| ==> OutputAt(d, o, xs, i)
  }

  lemma {:induction false} InputsLayout(d: Bytes, o: nat, xs: seq<OutPoint>)
    requires o <= |d|
    ensures At(d, o, EncodeList(EncodeOutPoint, xs)) <==> InputsAt(d, o, xs)
  {
    hide At, LittleEndian;
    if xs == [] {
      AtNothing(d, o);
    } else {
      var n := |xs| - 1;
      var init, last := xs[..n], xs[n];
      InputsLayout(d, o, init);
      InputBytes(init);
      AtSplit(d, o, EncodeList(EncodeOutPoint, init), EncodeOutPoint(last));
      AtSplit(d, o + 36 * n, last.txid, LittleEndian(last.index, 4));
      assert forall i :: 0 <= i < n ==> (InputAt(d, o, xs, i) <==> InputAt(d, o, init, i));
      assert InputAt(d, o, xs, n) <==> At(d, o + 36 * n, EncodeOutPoint(last));
    }
  }

  lemma {:induction false} OutputsLayout(d: Bytes, o: nat, xs: seq<TxOutput>)
    requires o <= |d|
    ensures At(d, o, EncodeList(EncodeOutput, xs)) <==> OutputsAt(d, o, xs)
  {
    hide At, LittleEndian;
    if xs == [] {
      AtNothing(d, o);
    } else {
      var n := |xs| - 1;
      var init, last := xs[..n], xs[n];
      OutputsLayout(d, o, init);
      OutputBytes(init);
      AtSplit(d, o, EncodeList(EncodeOutput, init), EncodeOutput(last));
      AtSplit(d, o + 28 * n, last.recipient, LittleEndian(last.amount, 8));
      assert forall i :: 0 <= i < n ==> (OutputAt(d, o, xs, i) <==> OutputAt(d, o, init, i));
      assert OutputAt(d, o, xs, n) <==> At(d, o + 28 * n, EncodeOutput(last));
    }
  }

  // ------------------------------------------------------------ transactions

  /** The stored transaction: txid, timestamp, counted inputs, counted outputs. */
  lemma TxLayout(d: Bytes, tx: Transaction)
    ensures d == EncodeTx(tx) <==>
      var a, b := |tx.inputs|, |tx.outputs|;
      && |d| == 48 + 36 * a + 28 * b
      && At(d, 0, tx.txid) && At(d, 32, LittleEndian(tx.timestamp, 8))
      && At(d, 40, LittleEndian(ToU32(a), 4)) && InputsAt(d, 44, tx.inputs)
      && At(d, 44 + 36 * a, LittleEndian(ToU32(b), 4))
      && OutputsAt(d, 48 + 36 * a, tx.outputs)
  {
    hide At, LittleEndian, EncodeList, InputsAt, OutputsAt, EncodeTx;
    var a, b := |tx.inputs|, |tx.outputs|;
    TxBytes(tx);
    WholeAt(d, EncodeTx(tx));
    if |d| == 48 + 36 * a + 28 * b {
      InputBytes(tx.inputs);
      OutputBytes(tx.outputs);
      AtHead(d, 0, tx);
      AtSplit(d, 40, LittleEndian(ToU32(a), 4), EncodeList(EncodeOutPoint, tx.inputs));
      AtSplit(d, 44 + 36 * a, LittleEndian(ToU32(b), 4), EncodeList(EncodeOutput, tx.outputs));
      InputsLayout(d, 44, tx.inputs);
      OutputsLayout(d, 48 + 36 * a, tx.outputs);
    }
  }

  lemma WholeAt(d: Bytes, e: Bytes)
    ensures d == e <==> |d| == |e| && At(d, 0, e)
  {
  }

  /** The preimage of a txid: inputs, outputs and timestamp, without txid and without counts. */
  lemma PreimageLayout(d: Bytes, tx: Transaction)
    ensures d == TxPreimage(tx) <==>
      var a, b := |tx.inputs|, |tx.outputs|;
      && |d| == 36 * a + 28 * b + 8
      && InputsAt(d, 0, tx.inputs)
      && OutputsAt(d, 36 * a, tx.outputs)
      && At(d, 36 * a + 28 * b, LittleEndian(tx.timestamp, 8))
  {
    hide At, LittleEndian, EncodeList, InputsAt, OutputsAt, Preimage;
    var a, b := |tx.inputs|, |tx.outputs|;
    if d == TxPreimage(tx) {
      PreimageApart(d, tx.inputs, tx.outputs, tx.timestamp);
    }
    if |d| == 36 * a + 28 * b + 8 {
      InputsLayout(d, 0, tx.inputs);
      OutputsLayout(d, 36 * a, tx.outputs);
      if At(d, 0, EncodeList(EncodeOutPoint, tx.inputs)) && At(d, 36 * a, EncodeList(EncodeOutput, tx.outputs))
         && At(d, 36 * a + 28 * b, LittleEndian(tx.timestamp, 8))
      {
        PreimageTogether(d, tx.inputs, tx.outputs, tx.timestamp);
      }
    }
  }

  // ------------------------------------------------------------------ blocks

  /** The 80 bytes of a header. */
  predicate HeaderAt(d: Bytes, o: nat, h: BlockHeader) {
    && At(d, o, h.prevHash) && At(d, o + 32, h.merkleRoot)
    && At(d, o + 64, LittleEndian(h.timestamp, 8)) && At(d, o + 72, LittleEndian(h.nonce, 8))
  }

  lemma HeaderLayout(d: Bytes, o: nat, h: BlockHeader)
    ensures At(d, o, EncodeHeader(h)) <==> HeaderAt(d, o, h)
  {
    hide At, LittleEndian;
    AtFour(d, o, h.prevHash, h.merkleRoot, LittleEndian(h.timestamp, 8), LittleEndian(h.nonce, 8));
  }

  /** Where the record of transaction i starts, counted from the first. */
  function RecordStart(txs: seq<Transaction>, i: nat): nat
    requires i <= |txs|
  {
    if i == 0 then 0 else RecordStart(txs, i - 1) + 4 + |EncodeTx(txs[i - 1])|
  }

  predicate RecordAt(d: Bytes, o: nat, txs: seq<Transaction>, i: nat)
    requires i < |txs|
  {
    var at := o + RecordStart(txs, i);
    At(d, at, LittleEndian(ToU32(|EncodeTx(txs[i])|), 4)) && At(d, at + 4, EncodeTx(txs[i]))
  }

  lemma {:induction false} RecordStartPrefix(txs: seq<Transaction>, n: nat, i: nat)
    requires i <= n <= |txs|
    ensures RecordStart(txs[..n], i) == RecordStart(txs, i)
  {
    hide EncodeTx;
    if i > 0 {
      RecordStartPrefix(txs, n, i - 1);
    }
  }

  lemma {:induction false} RecordsLayout(d: Bytes, o: nat, txs: seq<Transaction>)
    requires o <= |d|
    ensures |EncodeList(EncodeNested, txs)| == RecordStart(txs, |txs|)
    ensures At(d, o, EncodeList(EncodeNested, txs)) <==> forall i :: 0 <= i < |txs| ==> RecordAt(d, o, txs, i)
  {
    hide At, LittleEndian, EncodeTx;
    if txs == [] {
      AtNothing(d, o);
    } else {
      var n := |txs| - 1;
      var init, last := txs[..n], txs[n];
      RecordsLayout(d, o, init);
      RecordStartPrefix(txs, n, n);
      AtSplit(d, o, EncodeList(EncodeNested, init), EncodeNested(last));
      AtSplit(d, o + RecordStart(txs, n), LittleEndian(ToU32(|EncodeTx(last)|), 4), EncodeTx(last));
      forall i | 0 <= i < n ensures RecordAt(d, o, txs, i) <==> RecordAt(d, o, init, i) {
        RecordStartPrefix(txs, n, i);
      }
      assert RecordAt(d, o, txs, n) <==> At(d, o + RecordStart(txs, n), EncodeNested(last));
    }
  }

  /** The stored block: header, count, then each transaction behind its own size. */
  lemma BlockLayout(d: Bytes, b: Block)
    ensures d == EncodeBlock(b) <==>
      && |d| == 84 + RecordStart(b.transactions, |b.transactions|)
      && HeaderAt(d, 0, b.header) && At(d, 80, LittleEndian(ToU32(|b.transactions|), 4))
      && (forall i :: 0 <= i < |b.transactions| ==> RecordAt(d, 84, b.transactions, i))
  {
    hide At, LittleEndian, EncodeList, EncodeHeader, HeaderAt, RecordAt, RecordStart;
    var txs := b.transactions;
    WholeAt(d, EncodeBlock(b));
    RecordsLayout(EncodeBlock(b), 0, txs);
    if |d| == 84 + RecordStart(txs, |txs|) {
      AtSplit(d, 0, EncodeHeader(b.header), EncodeNestedList(txs));
      AtSplit(d, 80, LittleEndian(ToU32(|txs|), 4), EncodeList(EncodeNested, txs));
      HeaderLayout(d, 0, b.header);
      RecordsLayout(d, 84, txs);
    }
  }
}
