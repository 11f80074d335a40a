/** The stored form of a transaction, and the preimage its txid is hashed from. */
module TxCodec {
  import opened Types
  import opened ByteCodec

  function EncodeOutPoint(p: OutPoint): Bytes {
    p.txid + LittleEndian(p.index, 4)
  }

  function EncodeOutput(out: TxOutput): Bytes {
    out.recipient + LittleEndian(out.amount, 8)
  }

  /** Counts are cast to 32 bits, so an oversized list is written with a wrong count. */
  function EncodeInputs(xs: seq<OutPoint>): Bytes {
    LittleEndian(ToU32(|xs|), 4) + EncodeList(EncodeOutPoint, xs)
  }

  function EncodeOutputs(xs: seq<TxOutput>): Bytes {
    LittleEndian(ToU32(|xs|), 4) + EncodeList(EncodeOutput, xs)
  }

  function EncodeTx(tx: Transaction): Bytes {
    tx.txid + LittleEndian(tx.timestamp, 8) + EncodeInputs(tx.inputs) + EncodeOutputs(tx.outputs)
  }

  predicate TxFits(tx: Transaction) {
    |tx.inputs| < U32_SIZE && |tx.outputs| < U32_SIZE
  }

  function ParseOutPoint(d: Bytes, o: nat): Parsed<OutPoint> {
    var (txid, o1) :- ParseHash(d, o);
    var (index, o2) :- ParseU32(d, o1);
    Parsed(OutPoint(txid, index), o2)
  }

  function ParseOutput(d: Bytes, o: nat): Parsed<TxOutput> {
    var (recipient, o1) :- ParseAddress(d, o);
    var (amount, o2) :- ParseU64(d, o1);
    Parsed(TxOutput(recipient, amount), o2)
  }

  function ParseInputs(d: Bytes, o: nat): Parsed<seq<OutPoint>> {
    var (n, o1) :- ParseU32(d, o);
    ParseList(ParseOutPoint, d, o1, n)
  }

  function ParseOutputs(d: Bytes, o: nat): Parsed<seq<TxOutput>> {
    var (n, o1) :- ParseU32(d, o);
    ParseList(ParseOutput, d, o1, n)
  }

  function ParseTx(d: Bytes, o: nat): Parsed<Transaction> {
    var (txid, o1) :- ParseHash(d, o);
    var (timestamp, o2) :- ParseU64(d, o1);
    var (inputs, o3) :- ParseInputs(d, o2);
    var (outputs, o4) :- ParseOutputs(d, o3);
    Parsed(Transaction(txid, inputs, outputs, timestamp), o4)
  }

  // --------------------------------------------------------------- fixed records

  function Always<T>(x: T): bool {
    true
  }

  lemma OutPointCodec()
    ensures Reads(ParseOutPoint, EncodeOutPoint, Always) && Yields(ParseOutPoint, EncodeOutPoint, Always)
  {
    forall d: Bytes, o: nat, x: OutPoint
      ensures At(d, o, EncodeOutPoint(x)) <==> ParseOutPoint(d, o) == Parsed(x, o + 36)
    {
      AtSplit(d, o, x.txid, LittleEndian(x.index, 4));
      ParseU32Exact(d, o + 32, x.index);
    }
  }

  lemma OutputCodec()
    ensures Reads(ParseOutput, EncodeOutput, Always) && Yields(ParseOutput, EncodeOutput, Always)
  {
    forall d: Bytes, o: nat, x: TxOutput
      ensures At(d, o, EncodeOutput(x)) <==> ParseOutput(d, o) == Parsed(x, o + 28)
    {
      AtSplit(d, o, x.recipient, LittleEndian(x.amount, 8));
      ParseU64Exact(d, o + 20, x.amount);
    }
  }

  lemma {:induction false} InputBytes(xs: seq<OutPoint>)
    ensures |EncodeList(EncodeOutPoint, xs)| == 36 * |xs|
  {
    if xs != [] { InputBytes(xs[..|xs| - 1]); }
  }

  lemma {:induction false} OutputBytes(xs: seq<TxOutput>)
    ensures |EncodeList(EncodeOutput, xs)| == 28 * |xs|
  {
    if xs != [] { OutputBytes(xs[..|xs| - 1]); }
  }

  /** 32 bytes of txid, 8 of timestamp, two counts, 36 an input and 28 an output. */
  lemma TxBytes(tx: Transaction)
    ensures |EncodeTx(tx)| == 48 + 36 * |tx.inputs| + 28 * |tx.outputs|
  {
    InputBytes(tx.inputs);
    OutputBytes(tx.outputs);
  }

  // --------------------------------------------------------------- counted lists

  lemma ReadInputs(d: Bytes, o: nat, xs: seq<OutPoint>)
    requires At(d, o, EncodeList(EncodeOutPoint, xs))
    ensures ParseList(ParseOutPoint, d, o, |xs|) == Parsed(xs, o + 36 * |xs|)
  {
    OutPointCodec();
    InputBytes(xs);
    ReadList(ParseOutPoint, EncodeOutPoint, Always, d, o, xs);
  }

  lemma WrittenInputs(d: Bytes, o: nat, n: nat)
    requires o <= |d| && ParseList(ParseOutPoint, d, o, n).Parsed?
    ensures var p := ParseList(ParseOutPoint, d, o, n);
      p.next == o + 36 * n && At(d, o, EncodeList(EncodeOutPoint, p.value))
  {
    OutPointCodec();
    InputBytes(ParseList(ParseOutPoint, d, o, n).value);
    AlwaysTight(ParseOutPoint, EncodeOutPoint, d, o, n);
    YieldedList(ParseOutPoint, EncodeOutPoint, Always, d, o, n);
    TightListAt(ParseOutPoint, EncodeOutPoint, Always, d, o, n);
  }

  lemma ReadOutputs(d: Bytes, o: nat, xs: seq<TxOutput>)
    requires At(d, o, EncodeList(EncodeOutput, xs))
    ensures ParseList(ParseOutput, d, o, |xs|) == Parsed(xs, o + 28 * |xs|)
  {
    OutputCodec();
    OutputBytes(xs);
    ReadList(ParseOutput, EncodeOutput, Always, d, o, xs);
  }

  lemma WrittenOutputs(d: Bytes, o: nat, n: nat)
    requires o <= |d| && ParseList(ParseOutput, d, o, n).Parsed?
    ensures var p := ParseList(ParseOutput, d, o, n);
      p.next == o + 28 * n && At(d, o, EncodeList(EncodeOutput, p.value))
  {
    OutputCodec();
    OutputBytes(ParseList(ParseOutput, d, o, n).value);
    AlwaysTight(ParseOutput, EncodeOutput, d, o, n);
    YieldedList(ParseOutput, EncodeOutput, Always, d, o, n);
    TightListAt(ParseOutput, EncodeOutput, Always, d, o, n);
  }

  lemma InputsExact(d: Bytes, o: nat, xs: seq<OutPoint>)
    ensures (At(d, o, EncodeInputs(xs)) && |xs| < U32_SIZE) <==> ParseInputs(d, o) == Parsed(xs, o + 4 + 36 * |xs|)
  {
    if |xs| < U32_SIZE {
      AtCounted(d, o, |xs|, EncodeList(EncodeOutPoint, xs));
      if At(d, o, EncodeInputs(xs)) {
        ReadInputs(d, o + 4, xs);
      } else if ParseInputs(d, o) == Parsed(xs, o + 4 + 36 * |xs|) {
        WrittenInputs(d, o + 4, |xs|);
        assert false;
      }
    }
  }

  lemma InputsNext(d: Bytes, o: nat)
    requires ParseInputs(d, o).Parsed?
    ensures ParseInputs(d, o).next == o + 4 + 36 * |ParseInputs(d, o).value|
  {
    WrittenInputs(d, o + 4, ParseU32(d, o).value);
  }

  lemma OutputsExact(d: Bytes, o: nat, xs: seq<TxOutput>)
    ensures (At(d, o, EncodeOutputs(xs)) && |xs| < U32_SIZE) <==> ParseOutputs(d, o) == Parsed(xs, o + 4 + 28 * |xs|)
  {
    if |xs| < U32_SIZE {
      AtCounted(d, o, |xs|, EncodeList(EncodeOutput, xs));
      if At(d, o, EncodeOutputs(xs)) {
        ReadOutputs(d, o + 4, xs);
      } else if ParseOutputs(d, o) == Parsed(xs, o + 4 + 28 * |xs|) {
        WrittenOutputs(d, o + 4, |xs|);
        assert false;
      }
    }
  }

  lemma OutputsNext(d: Bytes, o: nat)
    requires ParseOutputs(d, o).Parsed?
    ensures ParseOutputs(d, o).next == o + 4 + 28 * |ParseOutputs(d, o).value|
  {
    WrittenOutputs(d, o + 4, ParseU32(d, o).value);
  }

  // ---------------------------------------------------------------- transactions

  lemma AtHead(d: Bytes, o: nat, tx: Transaction)
    ensures At(d, o, EncodeTx(tx)) <==>
      && At(d, o, tx.txid)
      && At(d, o + 32, LittleEndian(tx.timestamp, 8))
      && At(d, o + 40, EncodeInputs(tx.inputs))
      && At(d, o + 44 + 36 * |tx.inputs|, EncodeOutputs(tx.outputs))
  {
    InputBytes(tx.inputs);
    AtFour(d, o, tx.txid, LittleEndian(tx.timestamp, 8), EncodeInputs(tx.inputs), EncodeOutputs(tx.outputs));
  }

  lemma TxAssembles(d: Bytes, o: nat, tx: Transaction, o3: nat, o4: nat)
    requires At(d, o, tx.txid) && ParseU64(d, o + 32) == Parsed(tx.timestamp, o + 40)
    requires ParseInputs(d, o + 40) == Parsed(tx.inputs, o3)
    requires ParseOutputs(d, o3) == Parsed(tx.outputs, o4)
    ensures ParseTx(d, o) == Parsed(tx, o4)
  {
  }

  lemma TxParses(d: Bytes, o: nat, tx: Transaction)
    requires At(d, o, EncodeTx(tx)) && TxFits(tx)
    ensures ParseTx(d, o) == Parsed(tx, o + |EncodeTx(tx)|)
  {
    hide EncodeInputs, EncodeOutputs, EncodeTx, ParseInputs, ParseOutputs, ParseTx, ParseU64, LittleEndian;
    var o3 := o + 44 + 36 * |tx.inputs|;
    AtHead(d, o, tx);
    TxBytes(tx);
    ParseU64Exact(d, o + 32, tx.timestamp);
    InputsExact(d, o + 40, tx.inputs);
    OutputsExact(d, o3, tx.outputs);
    TxAssembles(d, o, tx, o3, o3 + 4 + 28 * |tx.outputs|);
  }

  /** Whatever was deserialised, serialising it gives back the bytes consumed. */
  lemma TxCanonical(d: Bytes, o: nat)
    requires ParseTx(d, o).Parsed?
    ensures var p := ParseTx(d, o);
      p.next == o + |EncodeTx(p.value)| && At(d, o, EncodeTx(p.value)) && TxFits(p.value)
  {
    hide EncodeInputs, EncodeOutputs, EncodeTx, ParseInputs, ParseOutputs, LittleEndian, FromLittleEndian;
    var tx := ParseTx(d, o).value;
    var o3 := ParseInputs(d, o + 40).next;
    assert At(d, o, tx.txid);
    ParseU64Exact(d, o + 32, tx.timestamp);
    InputsNext(d, o + 40);
    InputsExact(d, o + 40, tx.inputs);
    OutputsNext(d, o3);
    OutputsExact(d, o3, tx.outputs);
    AtHead(d, o, tx);
    TxBytes(tx);
  }

  /**
   At any offset of any input, deserialising yields tx after |EncodeTx(tx)|
   bytes exactly when tx's own serialisation stands there and its counts fit.
  */
  lemma TxExactAt(d: Bytes, o: nat, tx: Transaction)
    ensures (At(d, o, EncodeTx(tx)) && TxFits(tx)) <==> ParseTx(d, o) == Parsed(tx, o + |EncodeTx(tx)|)
  {
    if At(d, o, EncodeTx(tx)) && TxFits(tx) {
      TxParses(d, o, tx);
    } else if ParseTx(d, o).Parsed? {
      TxCanonical(d, o);
    }
  }

  /** Deserialise after serialise, with anything before and after. */
  lemma TxRoundTrip(before: Bytes, tx: Transaction, after: Bytes)
    ensures ParseTx(before + EncodeTx(tx) + after, |before|) == Parsed(tx, |before| + |EncodeTx(tx)|) <==> TxFits(tx)
  {
    var d := before + EncodeTx(tx) + after;
    assert d[|before|..|before| + |EncodeTx(tx)|] == EncodeTx(tx);
    TxExactAt(d, |before|, tx);
  }

  /** No strict prefix of a serialised transaction deserialises. */
  lemma TxPrefixFree(tx: Transaction, k: nat)
    requires TxFits(tx) && k < |EncodeTx(tx)|
    ensures ParseTx(EncodeTx(tx)[..k], 0).Truncated?
  {
    var whole := EncodeTx(tx);
    var p := ParseTx(whole[..k], 0);
    if p.Parsed? {
      TxCanonical(whole[..k], 0);
      assert At(whole, 0, EncodeTx(p.value));
      TxParses(whole, 0, p.value);
      TxParses(whole, 0, tx);
    }
  }

  // ------------------------------------------------------------ methods on buffers

  method PutInputs(inputs: seq<OutPoint>, w: Writer)
    modifies w
    ensures w.buf == old(w.buf) + EncodeList(EncodeOutPoint, inputs)
  {
    for i := 0 to |inputs|
      invariant w.buf == old(w.buf) + EncodeList(EncodeOutPoint, inputs[..i])
    {
      ghost var b := w.buf;
      w.PutBytes(inputs[i].txid);
      w.PutU32(inputs[i].index);
      assert inputs[..i + 1][..i] == inputs[..i];
      Regroup(old(w.buf), EncodeList(EncodeOutPoint, inputs[..i]), EncodeOutPoint(inputs[i]));
      Regroup(b, inputs[i].txid, LittleEndian(inputs[i].index, 4));
    }
    assert inputs[..|inputs|] == inputs;
  }

  method PutOutputs(outputs: seq<TxOutput>, w: Writer)
    modifies w
    ensures w.buf == old(w.buf) + EncodeList(EncodeOutput, outputs)
  {
    for i := 0 to |outputs|
      invariant w.buf == old(w.buf) + EncodeList(EncodeOutput, outputs[..i])
    {
      ghost var b := w.buf;
      w.PutBytes(outputs[i].recipient);
      w.PutU64(outputs[i].amount);
      assert outputs[..i + 1][..i] == outputs[..i];
      Regroup(old(w.buf), EncodeList(EncodeOutput, outputs[..i]), EncodeOutput(outputs[i]));
      Regroup(b, outputs[i].recipient, LittleEndian(outputs[i].amount, 8));
    }
    assert outputs[..|outputs|] == outputs;
  }

  method SerializeTransaction(tx: Transaction, w: Writer)
    modifies w
    ensures w.buf == old(w.buf) + EncodeTx(tx)
  {
    ghost var b0 := w.buf;
    w.PutBytes(tx.txid);
    w.PutU64(tx.timestamp);
    w.PutU32(ToU32(|tx.inputs|));
    PutInputs(tx.inputs, w);
    Regroup(b0 + tx.txid + LittleEndian(tx.timestamp, 8), LittleEndian(ToU32(|tx.inputs|), 4),
            EncodeList(EncodeOutPoint, tx.inputs));
    w.PutU32(ToU32(|tx.outputs|));
    PutOutputs(tx.outputs, w);
    Regroup(b0 + tx.txid + LittleEndian(tx.timestamp, 8) + EncodeInputs(tx.inputs),
            LittleEndian(ToU32(|tx.outputs|), 4), EncodeList(EncodeOutput, tx.outputs));
    RegroupFour(b0, tx.txid, LittleEndian(tx.timestamp, 8), EncodeInputs(tx.inputs), EncodeOutputs(tx.outputs));
  }

  lemma Regroup(a: Bytes, b: Bytes, c: Bytes)
    ensures a + b + c == a + (b + c)
  {
  }

  lemma RegroupFour(a: Bytes, b: Bytes, c: Bytes, d: Bytes, e: Bytes)
    ensures a + b + c + d + e == a + (b + c + d + e)
  {
  }

  method TakeOutPoint(r: Reader) returns (res: Result<OutPoint>)
    requires r.offset <= |r.data|
    modifies r
    ensures r.offset <= |r.data|
    ensures Delivers(res, ParseOutPoint(r.data, old(r.offset)), r.offset)
  {
    var txid :- r.TakeHash();
    var index :- r.TakeU32();
    return Success(OutPoint(txid, index));
  }

  method TakeOutput(r: Reader) returns (res: Result<TxOutput>)
    requires r.offset <= |r.data|
    modifies r
    ensures r.offset <= |r.data|
    ensures Delivers(res, ParseOutput(r.data, old(r.offset)), r.offset)
  {
    var recipient :- r.TakeAddress();
    var amount :- r.TakeU64();
    return Success(TxOutput(recipient, amount));
  }

  method TakeInputs(r: Reader) returns (res: Result<seq<OutPoint>>)
    requires r.offset <= |r.data|
    modifies r
    ensures r.offset <= |r.data|
    ensures Delivers(res, ParseInputs(r.data, old(r.offset)), r.offset)
  {
    var count :- r.TakeU32();
    ghost var start := r.offset;
    var inputs: seq<OutPoint> := [];
    for i := 0 to count
      invariant r.offset <= |r.data|
      invariant ParseList(ParseOutPoint, r.data, start, i) == Parsed(inputs, r.offset)
    {
      var item := TakeOutPoint(r);
      if item.Failure? {
        ParseListStops(ParseOutPoint, r.data, start, i + 1, count);
        return Failure;
      }
      inputs := inputs + [item.value];
    }
    return Success(inputs);
  }

  method TakeOutputs(r: Reader) returns (res: Result<seq<TxOutput>>)
    requires r.offset <= |r.data|
    modifies r
    ensures r.offset <= |r.data|
    ensures Delivers(res, ParseOutputs(r.data, old(r.offset)), r.offset)
  {
    var count :- r.TakeU32();
    ghost var start := r.offset;
    var outputs: seq<TxOutput> := [];
    for i := 0 to count
      invariant r.offset <= |r.data|
      invariant ParseList(ParseOutput, r.data, start, i) == Parsed(outputs, r.offset)
    {
      var item := TakeOutput(r);
      if item.Failure? {
        ParseListStops(ParseOutput, r.data, start, i + 1, count);
        return Failure;
      }
      outputs := outputs + [item.value];
    }
    return Success(outputs);
  }

  method DeserializeTransaction(r: Reader) returns (res: Result<Transaction>)
    requires r.offset <= |r.data|
    modifies r
    ensures r.offset <= |r.data|
    ensures Delivers(res, ParseTx(r.data, old(r.offset)), r.offset)
  {
    var txid :- r.TakeHash();
    var timestamp :- r.TakeU64();
    var inputs :- TakeInputs(r);
    var outputs :- TakeOutputs(r);
    return Success(Transaction(txid, inputs, outputs, timestamp));
  }

  // ------------------------------------------------------------- the txid preimage

  /** No counts: the lists are simply run together. */
  function Preimage(inputs: seq<OutPoint>, outputs: seq<TxOutput>, timestamp: u64): Bytes {
    EncodeList(EncodeOutPoint, inputs) + EncodeList(EncodeOutput, outputs) + LittleEndian(timestamp, 8)
  }

  function NewTransaction(c: Crypto, inputs: seq<OutPoint>, outputs: seq<TxOutput>, timestamp: u64): Transaction {
    Transaction(c.blake2b(Preimage(inputs, outputs, timestamp)), inputs, outputs, timestamp)
  }

  method ComputeHash(c: Crypto, inputs: seq<OutPoint>, outputs: seq<TxOutput>, timestamp: u64) returns (txid: Hash)
    ensures txid == c.blake2b(Preimage(inputs, outputs, timestamp))
  {
    hide EncodeList, LittleEndian;
    var w := new Writer();
    PutInputs(inputs, w);
    PutOutputs(outputs, w);
    w.PutU64(timestamp);
    assert w.buf == Preimage(inputs, outputs, timestamp);
    txid := c.blake2b(w.buf);
  }

  /** The counts are read off the preimage's length only up to a swap of 7 inputs for 9 outputs. */
  lemma PreimageCounts(
    ins: seq<OutPoint>, outs: seq<TxOutput>, ts: u64, ins': seq<OutPoint>, outs': seq<TxOutput>, ts': u64)
    requires Preimage(ins, outs, ts) == Preimage(ins', outs', ts')
    ensures exists k: int :: |ins'| == |ins| + 7 * k && |outs'| == |outs| - 9 * k
  {
    InputBytes(ins);
    InputBytes(ins');
    OutputBytes(outs);
    OutputBytes(outs');
    assert 36 * |ins| + 28 * |outs| == 36 * |ins'| + 28 * |outs'|;
    var k := (|ins'| - |ins|) / 7;
    assert |ins'| == |ins| + 7 * k && |outs'| == |outs| - 9 * k;
  }

  lemma ThreeApart(d: Bytes, a: Bytes, b: Bytes, c: Bytes)
    requires d == a + b + c
    ensures At(d, 0, a) && At(d, |a|, b) && At(d, |a| + |b|, c)
  {
    assert At(d, 0, a + b + c);
    AtSplit(d, 0, a + b, c);
    AtSplit(d, 0, a, b);
  }

  lemma ThreeTogether(d: Bytes, i: nat, j: nat, a: Bytes, b: Bytes, c: Bytes)
    requires |a| == i && |a| + |b| == j && |d| == j + |c|
    requires At(d, 0, a) && At(d, i, b) && At(d, j, c)
    ensures d == a + b + c
  {
    AtSplit(d, 0, a, b);
    AtSplit(d, 0, a + b, c);
  }

  lemma PreimageApart(d: Bytes, ins: seq<OutPoint>, outs: seq<TxOutput>, ts: u64)
    requires d == Preimage(ins, outs, ts)
    ensures |d| == 36 * |ins| + 28 * |outs| + 8
    ensures At(d, 0, EncodeList(EncodeOutPoint, ins))
    ensures At(d, 36 * |ins|, EncodeList(EncodeOutput, outs))
    ensures At(d, 36 * |ins| + 28 * |outs|, LittleEndian(ts, 8))
  {
    hide EncodeList, LittleEndian, At;
    InputBytes(ins);
    OutputBytes(outs);
    ThreeApart(d, EncodeList(EncodeOutPoint, ins), EncodeList(EncodeOutput, outs), LittleEndian(ts, 8));
  }

  lemma PreimageTogether(d: Bytes, ins: seq<OutPoint>, outs: seq<TxOutput>, ts: u64)
    requires |d| == 36 * |ins| + 28 * |outs| + 8
    requires At(d, 0, EncodeList(EncodeOutPoint, ins))
    requires At(d, 36 * |ins|, EncodeList(EncodeOutput, outs))
    requires At(d, 36 * |ins| + 28 * |outs|, LittleEndian(ts, 8))
    ensures d == Preimage(ins, outs, ts)
  {
    hide EncodeList, LittleEndian, At;
    InputBytes(ins);
    OutputBytes(outs);
    ThreeTogether(d, 36 * |ins|, 36 * |ins| + 28 * |outs|,
                  EncodeList(EncodeOutPoint, ins), EncodeList(EncodeOutput, outs), LittleEndian(ts, 8));
  }

  lemma SameInputs(d: Bytes, o: nat, xs: seq<OutPoint>, ys: seq<OutPoint>)
    requires |xs| == |ys| && At(d, o, EncodeList(EncodeOutPoint, xs)) && At(d, o, EncodeList(EncodeOutPoint, ys))
    ensures xs == ys
  {
    ReadInputs(d, o, xs);
    ReadInputs(d, o, ys);
  }

  lemma SameOutputs(d: Bytes, o: nat, xs: seq<TxOutput>, ys: seq<TxOutput>)
    requires |xs| == |ys| && At(d, o, EncodeList(EncodeOutput, xs)) && At(d, o, EncodeList(EncodeOutput, ys))
    ensures xs == ys
  {
    ReadOutputs(d, o, xs);
    ReadOutputs(d, o, ys);
  }

  /** With equal input counts the preimage determines every field. */
  lemma PreimageFields(
    ins: seq<OutPoint>, outs: seq<TxOutput>, ts: u64, ins': seq<OutPoint>, outs': seq<TxOutput>, ts': u64)
    requires Preimage(ins, outs, ts) == Preimage(ins', outs', ts')
    requires |ins| == |ins'|
    ensures ins == ins' && outs == outs' && ts == ts'
  {
    hide Preimage, EncodeList, LittleEndian, ParseU64;
    var d, a := Preimage(ins, outs, ts), 36 * |ins|;
    PreimageApart(d, ins, outs, ts);
    PreimageApart(d, ins', outs', ts');
    SameInputs(d, 0, ins, ins');
    SameOutputs(d, a, outs, outs');
    ParseU64Exact(d, a + 28 * |outs|, ts);
    ParseU64Exact(d, a + 28 * |outs|, ts');
  }

  predicate SameContent(a: Transaction, b: Transaction) {
    a.inputs == b.inputs && a.outputs == b.outputs && a.timestamp == b.timestamp
  }

  function TxPreimage(tx: Transaction): Bytes {
    Preimage(tx.inputs, tx.outputs, tx.timestamp)
  }

  /** n fixed-size records can be read out of any bytes that are long enough. */
  lemma {:induction false} OutputsReadable(d: Bytes, o: nat, n: nat) returns (xs: seq<TxOutput>)
    requires o + 28 * n <= |d|
    ensures ParseList(ParseOutput, d, o, n) == Parsed(xs, o + 28 * n)
    ensures |xs| == n && At(d, o, EncodeList(EncodeOutput, xs))
  {
    if n == 0 {
      xs := [];
    } else {
      xs := OutputsReadable(d, o, n - 1);
      xs := xs + [ParseOutput(d, o + 28 * (n - 1)).value];
      WrittenOutputs(d, o, n);
    }
  }

  lemma {:induction false} InputsReadable(d: Bytes, o: nat, n: nat) returns (xs: seq<OutPoint>)
    requires o + 36 * n <= |d|
    ensures ParseList(ParseOutPoint, d, o, n) == Parsed(xs, o + 36 * n)
    ensures |xs| == n && At(d, o, EncodeList(EncodeOutPoint, xs))
  {
    if n == 0 {
      xs := [];
    } else {
      xs := InputsReadable(d, o, n - 1);
      xs := xs + [ParseOutPoint(d, o + 36 * (n - 1)).value];
      WrittenInputs(d, o, n);
    }
  }

  /** Any byte string of the right length is the preimage of some lists of given sizes. */
  lemma PreimageOfBytes(d: Bytes, a: nat, b: nat) returns (ins: seq<OutPoint>, outs: seq<TxOutput>, ts: u64)
    requires |d| == 36 * a + 28 * b + 8
    ensures |ins| == a && |outs| == b && Preimage(ins, outs, ts) == d
  {
    hide At, EncodeList, LittleEndian, ParseList, Preimage;
    ins := InputsReadable(d, 0, a);
    outs := OutputsReadable(d, 36 * a, b);
    ts := TimestampReadable(d, 36 * a + 28 * b);
    PreimageTogether(d, ins, outs, ts);
  }

  lemma TimestampReadable(d: Bytes, o: nat) returns (ts: u64)
    requires o + 8 <= |d|
    ensures At(d, o, LittleEndian(ts, 8))
  {
    ts := ParseU64(d, o).value;
    ParseU64Exact(d, o, ts);
  }

  /**
   The preimage determines the transaction's content exactly when it has fewer
   than 7 inputs and fewer than 9 outputs.
  */
  lemma PreimageDetermines(tx: Transaction)
    ensures (forall other: Transaction :: TxPreimage(other) == TxPreimage(tx) ==> SameContent(other, tx))
      <==> |tx.inputs| < 7 && |tx.outputs| < 9
  {
    if |tx.inputs| < 7 && |tx.outputs| < 9 {
      forall other: Transaction | TxPreimage(other) == TxPreimage(tx)
        ensures SameContent(other, tx)
      {
        PreimageCounts(tx.inputs, tx.outputs, tx.timestamp, other.inputs, other.outputs, other.timestamp);
        PreimageFields(tx.inputs, tx.outputs, tx.timestamp, other.inputs, other.outputs, other.timestamp);
      }
    } else {
      InputBytes(tx.inputs);
      OutputBytes(tx.outputs);
      var a, b := |tx.inputs|, |tx.outputs|;
      var a', b' := if a >= 7 then a - 7 else a + 7, if a >= 7 then b + 9 else b - 9;
      var ins, outs, ts := PreimageOfBytes(TxPreimage(tx), a', b');
      var other := Transaction(tx.txid, ins, outs, ts);
      assert TxPreimage(other) == TxPreimage(tx) && !SameContent(other, tx);
    }
  }

  predicate Constructed(c: Crypto, tx: Transaction) {
    tx.txid == c.blake2b(TxPreimage(tx))
  }

  /**
   Equal input counts, or counts that give preimages of different lengths. It can
   fail only where the input counts differ by a multiple of 7.
  */
  predicate CountsApart(a: Transaction, b: Transaction) {
    |a.inputs| == |b.inputs| || 36 * |a.inputs| + 28 * |a.outputs| != 36 * |b.inputs| + 28 * |b.outputs|
  }

  /**
   If the hash collides on no two preimages of a set of constructed
   transactions, two of them with counts apart have equal txids only if equal.
  */
  lemma TxidsTellApart(c: Crypto, txs: set<Transaction>, a: Transaction, b: Transaction)
    requires a in txs && b in txs && Constructed(c, a) && Constructed(c, b)
    requires forall x, y :: (x in txs && y in txs && c.blake2b(TxPreimage(x)) == c.blake2b(TxPreimage(y))
                             ==> TxPreimage(x) == TxPreimage(y))
    requires CountsApart(a, b)
    ensures a.txid == b.txid <==> a == b
  {
    if a.txid == b.txid {
      PreimageCounts(a.inputs, a.outputs, a.timestamp, b.inputs, b.outputs, b.timestamp);
      PreimageFields(a.inputs, a.outputs, a.timestamp, b.inputs, b.outputs, b.timestamp);
    }
  }
}
