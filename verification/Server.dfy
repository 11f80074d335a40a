/** What the TCP and HTTP handlers do with a payload: parse it with a cursor, then call the chain. */
module Server {
  import opened Types
  import opened ByteCodec
  import opened TxCodec
  import BlockCodec
  import opened Layout
  import opened ByteOrder
  import opened ChainSpec
  import opened Recovery
  import opened Node

  // ------------------------------------------------------- transaction submissions

  /** The wire form of a signed transaction: no txid, it is computed on arrival. */
  function EncodeSubmission(st: SignedTransaction): Bytes {
    st.pubkey + LittleEndian(st.tx.timestamp, 8) + EncodeInputs(st.tx.inputs) + EncodeOutputs(st.tx.outputs) + st.sig
  }

  function ParseSubmission(c: Crypto, d: Bytes): Parsed<SignedTransaction> {
    var (pubkey, o1) :- ParsePublicKey(d, 0);
    var (timestamp, o2) :- ParseU64(d, o1);
    var (inputs, o3) :- ParseInputs(d, o2);
    var (outputs, o4) :- ParseOutputs(d, o3);
    var (sig, o5) :- ParseSignature(d, o4);
    Parsed(SignedTransaction(NewTransaction(c, inputs, outputs, timestamp), pubkey, sig), o5)
  }

  lemma SubmissionAt(d: Bytes, st: SignedTransaction)
    ensures At(d, 0, EncodeSubmission(st)) <==>
      && At(d, 0, st.pubkey)
      && At(d, 32, LittleEndian(st.tx.timestamp, 8))
      && At(d, 40, EncodeInputs(st.tx.inputs))
      && At(d, 44 + 36 * |st.tx.inputs|, EncodeOutputs(st.tx.outputs))
      && At(d, 48 + 36 * |st.tx.inputs| + 28 * |st.tx.outputs|, st.sig)
    ensures |EncodeSubmission(st)| == 112 + 36 * |st.tx.inputs| + 28 * |st.tx.outputs|
  {
    hide At, EncodeList, LittleEndian;
    InputBytes(st.tx.inputs);
    OutputBytes(st.tx.outputs);
    var front := st.pubkey + LittleEndian(st.tx.timestamp, 8) + EncodeInputs(st.tx.inputs) + EncodeOutputs(st.tx.outputs);
    AtSplit(d, 0, front, st.sig);
    AtFour(d, 0, st.pubkey, LittleEndian(st.tx.timestamp, 8), EncodeInputs(st.tx.inputs), EncodeOutputs(st.tx.outputs));
  }

  lemma SubmissionParses(c: Crypto, d: Bytes, st: SignedTransaction)
    requires At(d, 0, EncodeSubmission(st)) && TxFits(st.tx) && Constructed(c, st.tx)
    ensures ParseSubmission(c, d) == Parsed(st, |EncodeSubmission(st)|)
  {
    hide EncodeSubmission, EncodeInputs, EncodeOutputs, ParseInputs, ParseOutputs, LittleEndian, ParseU64, Preimage;
    var o3 := 44 + 36 * |st.tx.inputs|;
    SubmissionAt(d, st);
    ParseU64Exact(d, 32, st.tx.timestamp);
    InputsExact(d, 40, st.tx.inputs);
    OutputsExact(d, o3, st.tx.outputs);
  }

  /** What is parsed is a constructed transaction, and its encoding is exactly what was consumed. */
  lemma SubmissionCanonical(c: Crypto, d: Bytes)
    requires ParseSubmission(c, d).Parsed?
    ensures var p := ParseSubmission(c, d);
      && Constructed(c, p.value.tx) && TxFits(p.value.tx)
      && p.next == |EncodeSubmission(p.value)| && At(d, 0, EncodeSubmission(p.value))
  {
    hide EncodeSubmission, EncodeInputs, EncodeOutputs, ParseInputs, ParseOutputs, LittleEndian, FromLittleEndian, Preimage;
    var st := ParseSubmission(c, d).value;
    var o3 := ParseInputs(d, 40).next;
    ParseU64Exact(d, 32, st.tx.timestamp);
    InputsNext(d, 40);
    InputsExact(d, 40, st.tx.inputs);
    OutputsNext(d, o3);
    OutputsExact(d, o3, st.tx.outputs);
    SubmissionAt(d, st);
  }

  /** The HTTP parser, which refuses trailing bytes, accepts exactly the encodings of constructed transactions. */
  lemma WebAcceptsEncodings(c: Crypto, d: Bytes, st: SignedTransaction)
    ensures ParseSubmission(c, d) == Parsed(st, |d|) <==>
      d == EncodeSubmission(st) && TxFits(st.tx) && Constructed(c, st.tx)
  {
    hide EncodeSubmission, ParseSubmission, Constructed;
    if ParseSubmission(c, d) == Parsed(st, |d|) {
      SubmissionCanonical(c, d);
    } else if d == EncodeSubmission(st) && TxFits(st.tx) && Constructed(c, st.tx) {
      AtWhole(d);
      SubmissionParses(c, d, st);
      assert false;
    }
  }

  /** A submission read from a payload of 32-bit size is small enough to be stored. */
  lemma SubmissionFits(c: Crypto, d: Bytes)
    requires |d| < U32_SIZE && ParseSubmission(c, d).Parsed?
    ensures Small(Submit(ParseSubmission(c, d).value))
  {
    hide ParseSubmission, EncodeSubmission, EncodeTx, Constructed;
    var st := ParseSubmission(c, d).value;
    SubmissionCanonical(c, d);
    SubmissionAt(d, st);
    TxBytes(st.tx);
  }

  /** Read with anything behind it, as the TCP handler does: what precedes the rest is the submission's wire form. */
  lemma TcpAcceptsEncodings(c: Crypto, d: Bytes, st: SignedTransaction)
    ensures ParseSubmission(c, d) == Parsed(st, |EncodeSubmission(st)|) <==>
      At(d, 0, EncodeSubmission(st)) && TxFits(st.tx) && Constructed(c, st.tx)
  {
    hide EncodeSubmission, ParseSubmission, Constructed;
    if ParseSubmission(c, d) == Parsed(st, |EncodeSubmission(st)|) {
      SubmissionCanonical(c, d);
    } else if At(d, 0, EncodeSubmission(st)) && TxFits(st.tx) && Constructed(c, st.tx) {
      SubmissionParses(c, d, st);
      assert false;
    }
  }

  /** The wire form byte by byte: key, timestamp, counted inputs, counted outputs, signature; no txid. */
  lemma SubmissionLayout(d: Bytes, st: SignedTransaction)
    ensures d == EncodeSubmission(st) <==>
      var a, b := |st.tx.inputs|, |st.tx.outputs|;
      && |d| == 112 + 36 * a + 28 * b
      && At(d, 0, st.pubkey) && At(d, 32, LittleEndian(st.tx.timestamp, 8))
      && At(d, 40, LittleEndian(ToU32(a), 4)) && InputsAt(d, 44, st.tx.inputs)
      && At(d, 44 + 36 * a, LittleEndian(ToU32(b), 4)) && OutputsAt(d, 48 + 36 * a, st.tx.outputs)
      && At(d, 48 + 36 * a + 28 * b, st.sig)
  {
    hide At, LittleEndian, EncodeList, InputsAt, OutputsAt, EncodeSubmission;
    var a, b := |st.tx.inputs|, |st.tx.outputs|;
    WholeAt(d, EncodeSubmission(st));
    SubmissionAt(d, st);
    if |d| == 112 + 36 * a + 28 * b {
      InputBytes(st.tx.inputs);
      OutputBytes(st.tx.outputs);
      AtSplit(d, 40, LittleEndian(ToU32(a), 4), EncodeList(EncodeOutPoint, st.tx.inputs));
      AtSplit(d, 44 + 36 * a, LittleEndian(ToU32(b), 4), EncodeList(EncodeOutput, st.tx.outputs));
      InputsLayout(d, 44, st.tx.inputs);
      OutputsLayout(d, 48 + 36 * a, st.tx.outputs);
    }
  }

  method ReadSubmission(c: Crypto, r: Reader) returns (res: Result<SignedTransaction>)
    requires r.offset == 0
    modifies r
    ensures r.offset <= |r.data|
    ensures Delivers(res, ParseSubmission(c, r.data), r.offset)
  {
    hide ParsePublicKey, ParseU64, ParseInputs, ParseOutputs, ParseSignature, Preimage;
    var pubkey :- r.TakePublicKey();
    var timestamp :- r.TakeU64();
    var inputs :- TakeInputs(r);
    var outputs :- TakeOutputs(r);
    var sig :- r.TakeSignature();
    var tx := ConstructTransaction(c, inputs, outputs, timestamp);
    return Success(SignedTransaction(tx, pubkey, sig));
  }

  /** The TCP handler: trailing bytes are ignored. */
  method OnCreateTx(chain: Chain, payload: Bytes) returns (err: TxError)
    modifies chain
    ensures chain.target == old(chain.target)
    ensures match ParseSubmission(chain.crypto, payload)
      case Truncated =>
        err == TxInvalidPayload && chain.Value() == old(chain.Value()) && chain.journal == old(chain.journal)
      case Parsed(st, _) =>
        && err == Verdict(chain.crypto, old(chain.Value()), st)
        && chain.Value() == AddTx(chain.crypto, old(chain.Value()), st)
        && chain.journal == old(chain.journal) + TxWrites(chain.crypto, old(chain.Value()), st)
  {
    hide ParseSubmission, Verdict, Acceptable, Admit;
    var r := new Reader(payload);
    var res := ReadSubmission(chain.crypto, r);
    if res.Failure? {
      return TxInvalidPayload;
    }
    err := chain.AddTx(res.value);
  }

  /** The HTTP handler: a payload with trailing bytes is refused. */
  method OnPostTransaction(chain: Chain, payload: Bytes) returns (r: Result<TxError>)
    modifies chain
    ensures chain.target == old(chain.target)
    ensures r.Failure? ==> chain.Value() == old(chain.Value()) && chain.journal == old(chain.journal)
    ensures match ParseSubmission(chain.crypto, payload)
      case Truncated => r == Failure
      case Parsed(st, next) =>
        && (next != |payload| ==> r == Failure)
        && (next == |payload| ==>
              && r == Success(Verdict(chain.crypto, old(chain.Value()), st))
              && chain.Value() == AddTx(chain.crypto, old(chain.Value()), st)
              && chain.journal == old(chain.journal) + TxWrites(chain.crypto, old(chain.Value()), st))
  {
    hide ParseSubmission, Verdict, Acceptable, Admit;
    var reader := new Reader(payload);
    var res := ReadSubmission(chain.crypto, reader);
    if res.Failure? || reader.offset != |payload| {
      return Failure;
    }
    var err := chain.AddTx(res.value);
    return Success(err);
  }

  // ------------------------------------------------------------- block submissions

  function ParseTxids(d: Bytes, o: nat): Parsed<seq<Hash>> {
    var (n, o1) :- ParseU32(d, o);
    ParseList(ParseHash, d, o1, n)
  }

  function ParseCoinbase(d: Bytes, o: nat): Parsed<(TxOutput, u64)> {
    var (out, o1) :- ParseOutput(d, o);
    var (timestamp, o2) :- ParseU64(d, o1);
    Parsed((out, timestamp), o2)
  }

  /** The payload read to its end before anything is looked up. */
  function ParseBlockRequest(d: Bytes): Parsed<BlockRequest> {
    var (h, o1) :- BlockCodec.ParseHeader(d, 0);
    var (cb, o2) :- ParseCoinbase(d, o1);
    var (txids, o3) :- ParseTxids(d, o2);
    Parsed(BlockRequest(h.prevHash, h.merkleRoot, h.timestamp, h.nonce, cb.0.recipient, cb.0.amount, cb.1, txids), o3)
  }

  /** A block request read from a payload of 32-bit size lists few enough txids. */
  lemma RequestFits(d: Bytes)
    requires |d| < U32_SIZE && ParseBlockRequest(d).Parsed?
    ensures Small(Mine(ParseBlockRequest(d).value))
  {
    hide BlockCodec.ParseHeader, ParseCoinbase, ParseList;
    var o := ParseCoinbase(d, BlockCodec.ParseHeader(d, 0).next).next;
    HashesTakeRoom(d, o + 4, ParseU32(d, o).value);
  }

  lemma {:induction false} HashesTakeRoom(d: Bytes, o: nat, n: nat)
    requires o <= |d| && ParseList(ParseHash, d, o, n).Parsed?
    ensures o + 32 * n == ParseList(ParseHash, d, o, n).next <= |d|
  {
    if n > 0 {
      HashesTakeRoom(d, o, n - 1);
    }
  }

  function EncodeHash(h: Hash): Bytes {
    h
  }

  function RequestHeader(req: BlockRequest): BlockHeader {
    BlockHeader(req.prevHash, req.wireMerkle, req.timestamp, req.nonce)
  }

  function EncodeCoinbase(req: BlockRequest): Bytes {
    EncodeOutput(TxOutput(req.cbAddress, req.cbReward)) + LittleEndian(req.cbTimestamp, 8)
  }

  /** The wire form of a block request: a header, what the coinbase needs, and a counted list of txids. */
  function EncodeRequest(req: BlockRequest): Bytes {
    BlockCodec.EncodeHeader(RequestHeader(req)) + EncodeCoinbase(req)
    + LittleEndian(ToU32(|req.txids|), 4) + EncodeList(EncodeHash, req.txids)
  }

  lemma {:induction false} HashBytes(xs: seq<Hash>)
    ensures |EncodeList(EncodeHash, xs)| == 32 * |xs|
  {
    if xs != [] {
      HashBytes(xs[..|xs| - 1]);
    }
  }

  lemma {:induction false} HashesExact(d: Bytes, o: nat, xs: seq<Hash>)
    requires o <= |d|
    ensures At(d, o, EncodeList(EncodeHash, xs)) <==> ParseList(ParseHash, d, o, |xs|) == Parsed(xs, o + 32 * |xs|)
  {
    hide At, ParseHash, ParseList, EncodeList;
    if xs == [] {
      AtNothing(d, o);
      NothingToRead(ParseHash, EncodeHash, d, o);
    } else {
      var n := |xs| - 1;
      HashesExact(d, o, xs[..n]);
      LastHashAt(d, o, xs);
      HashExact(d, o + 32 * n, xs[n]);
      OneMoreHash(d, o, xs);
    }
  }

  lemma LastHashAt(d: Bytes, o: nat, xs: seq<Hash>)
    requires xs != []
    ensures var n := |xs| - 1;
      At(d, o, EncodeList(EncodeHash, xs)) <==> At(d, o, EncodeList(EncodeHash, xs[..n])) && At(d, o + 32 * n, xs[n])
  {
    hide At, EncodeList;
    var n := |xs| - 1;
    EncodeLast(EncodeHash, xs);
    HashBytes(xs[..n]);
    AtSplit(d, o, EncodeList(EncodeHash, xs[..n]), xs[n]);
  }

  lemma {:induction false} HashesLayout(d: Bytes, o: nat, xs: seq<Hash>)
    requires o <= |d|
    ensures At(d, o, EncodeList(EncodeHash, xs)) <==> forall i :: 0 <= i < |xs| ==> HashAt(d, o, xs, i)
  {
    hide At, EncodeList;
    if xs == [] {
      AtNothing(d, o);
      NothingToRead(ParseHash, EncodeHash, d, o);
    } else {
      var n := |xs| - 1;
      var init := xs[..n];
      HashesLayout(d, o, init);
      LastHashAt(d, o, xs);
      assert forall i :: 0 <= i < n ==> (HashAt(d, o, xs, i) <==> HashAt(d, o, init, i));
      assert HashAt(d, o, xs, n) <==> At(d, o + 32 * n, xs[n]);
    }
  }

  /** Txid i of a list that starts at o. */
  predicate HashAt(d: Bytes, o: nat, xs: seq<Hash>, i: nat)
    requires i < |xs|
  {
    At(d, o + 32 * i, xs[i])
  }

  lemma HashExact(d: Bytes, o: nat, h: Hash)
    ensures At(d, o, h) <==> ParseHash(d, o) == Parsed(h, o + 32)
  {
  }

  lemma OneMoreHash(d: Bytes, o: nat, xs: seq<Hash>)
    requires xs != [] && o <= |d|
    ensures var n := |xs| - 1;
      ParseList(ParseHash, d, o, n + 1) == Parsed(xs, o + 32 * (n + 1)) <==>
        && ParseList(ParseHash, d, o, n) == Parsed(xs[..n], o + 32 * n)
        && ParseHash(d, o + 32 * n) == Parsed(xs[n], o + 32 * n + 32)
  {
    var n := |xs| - 1;
    if ParseList(ParseHash, d, o, n).Parsed? {
      HashesTakeRoom(d, o, n);
      var init := ParseList(ParseHash, d, o, n).value;
      if ParseHash(d, o + 32 * n).Parsed? {
        var last := ParseHash(d, o + 32 * n).value;
        assert ParseList(ParseHash, d, o, n + 1).value == init + [last];
        assert (init + [last])[..n] == init && (init + [last])[n] == last;
        assert xs == xs[..n] + [xs[n]];
      }
    }
  }

  /** The wire form byte by byte, with room for the txids behind a count. */
  lemma RequestLayout(d: Bytes, req: BlockRequest)
    ensures d == EncodeRequest(req) <==>
      && |d| == 120 + 32 * |req.txids|
      && At(d, 0, req.prevHash) && At(d, 32, req.wireMerkle)
      && At(d, 64, LittleEndian(req.timestamp, 8)) && At(d, 72, LittleEndian(req.nonce, 8))
      && At(d, 80, req.cbAddress) && At(d, 100, LittleEndian(req.cbReward, 8))
      && At(d, 108, LittleEndian(req.cbTimestamp, 8)) && At(d, 116, LittleEndian(ToU32(|req.txids|), 4))
      && forall i :: 0 <= i < |req.txids| ==> HashAt(d, 120, req.txids, i)
  {
    hide At, LittleEndian, EncodeList, HashAt, EncodeRequest, BlockCodec.EncodeHeader;
    RequestAt(d, req);
    WholeAt(d, EncodeRequest(req));
    HeaderLayout(d, 0, RequestHeader(req));
    if |d| == 120 + 32 * |req.txids| {
      AtSplit(d, 80, EncodeOutput(TxOutput(req.cbAddress, req.cbReward)), LittleEndian(req.cbTimestamp, 8));
      AtSplit(d, 80, req.cbAddress, LittleEndian(req.cbReward, 8));
      HashesLayout(d, 120, req.txids);
    }
  }

  lemma RequestAt(d: Bytes, req: BlockRequest)
    ensures |EncodeRequest(req)| == 120 + 32 * |req.txids|
    ensures At(d, 0, EncodeRequest(req)) <==>
      && At(d, 0, BlockCodec.EncodeHeader(RequestHeader(req))) && At(d, 80, EncodeCoinbase(req))
      && At(d, 116, LittleEndian(ToU32(|req.txids|), 4)) && At(d, 120, EncodeList(EncodeHash, req.txids))
  {
    hide At, LittleEndian, EncodeList, BlockCodec.EncodeHeader;
    HashBytes(req.txids);
    AtFour(d, 0, BlockCodec.EncodeHeader(RequestHeader(req)), EncodeCoinbase(req),
           LittleEndian(ToU32(|req.txids|), 4), EncodeList(EncodeHash, req.txids));
  }

  /**
   A payload is read as a request, whatever follows, if and only if it begins
   with that request's wire form and the count fits 32 bits.
  */
  lemma RequestExact(d: Bytes, req: BlockRequest)
    ensures ParseBlockRequest(d) == Parsed(req, 120 + 32 * |req.txids|) <==>
      At(d, 0, EncodeRequest(req)) && |req.txids| < U32_SIZE
  {
    hide At, LittleEndian, EncodeList, BlockCodec.EncodeHeader, EncodeRequest, BlockCodec.ParseHeader, ParseOutput,
      ParseU64, ParseU32, ParseList, ParseCoinbase, ParseTxids, EncodeCoinbase;
    var n := |req.txids|;
    RequestAt(d, req);
    BlockCodec.HeaderExact(d, 0, RequestHeader(req));
    CoinbaseExact(d, req);
    TxidsExact(d, req.txids);
    RequestParts(d, req);
  }

  lemma CoinbaseExact(d: Bytes, req: BlockRequest)
    ensures At(d, 80, EncodeCoinbase(req)) <==>
      ParseCoinbase(d, 80) == Parsed((TxOutput(req.cbAddress, req.cbReward), req.cbTimestamp), 116)
  {
    hide At, LittleEndian, ParseU64;
    AtSplit(d, 80, EncodeOutput(TxOutput(req.cbAddress, req.cbReward)), LittleEndian(req.cbTimestamp, 8));
    AtSplit(d, 80, req.cbAddress, LittleEndian(req.cbReward, 8));
    AddressExact(d, 80, req.cbAddress);
    ParseU64Exact(d, 100, req.cbReward);
    ParseU64Exact(d, 108, req.cbTimestamp);
    U64Next(d, 100);
    U64Next(d, 108);
  }

  lemma AddressExact(d: Bytes, o: nat, a: Address)
    ensures At(d, o, a) <==> ParseAddress(d, o) == Parsed(a, o + 20)
    ensures ParseAddress(d, o).Parsed? ==> ParseAddress(d, o).next == o + 20
  {
  }

  lemma U64Next(d: Bytes, o: nat)
    ensures ParseU64(d, o).Parsed? ==> ParseU64(d, o).next == o + 8
  {
  }

  lemma TxidsExact(d: Bytes, txids: seq<Hash>)
    ensures ParseTxids(d, 116) == Parsed(txids, 120 + 32 * |txids|) <==>
      && At(d, 116, LittleEndian(ToU32(|txids|), 4)) && At(d, 120, EncodeList(EncodeHash, txids))
      && |txids| < U32_SIZE
  {
    hide At, LittleEndian, EncodeList;
    ParseU32Exact(d, 116, ToU32(|txids|));
    if 120 <= |d| {
      HashesExact(d, 120, txids);
    } else {
      AtShort(d, txids);
    }
  }

  lemma AtShort(d: Bytes, txids: seq<Hash>)
    requires |d| < 120
    ensures !At(d, 120, EncodeList(EncodeHash, txids)) && ParseU32(d, 116).Truncated?
  {
  }

  lemma RequestParts(d: Bytes, req: BlockRequest)
    ensures ParseBlockRequest(d) == Parsed(req, 120 + 32 * |req.txids|) <==>
      && BlockCodec.ParseHeader(d, 0) == Parsed(RequestHeader(req), 80)
      && ParseCoinbase(d, 80) == Parsed((TxOutput(req.cbAddress, req.cbReward), req.cbTimestamp), 116)
      && ParseTxids(d, 116) == Parsed(req.txids, 120 + 32 * |req.txids|)
  {
    hide ParseTxids, FromLittleEndian;
  }

  lemma {:induction false} ParseListPrefix<T>(item: Parser<T>, d: Bytes, o: nat, m: nat, n: nat)
    requires m <= n && ParseList(item, d, o, n).Parsed?
    ensures ParseList(item, d, o, m).Parsed?
    ensures ParseList(item, d, o, m).value == ParseList(item, d, o, n).value[..m]
  {
    if m < n {
      ParseListPrefix(item, d, o, m, n - 1);
    }
  }

  lemma DrawEmpty(pool: map<Hash, Transaction>)
    ensures Draw(pool, []) == Some([])
  {
  }

  lemma DrawOneMore(pool: map<Hash, Transaction>, txids: seq<Hash>, t: Hash)
    requires Draw(pool, txids).Some? && t in pool
    ensures Draw(pool, txids + [t]) == Some(Draw(pool, txids).value + [pool[t]])
  {
    assert (txids + [t])[..|txids|] == txids;
  }

  /**
   The loop over listed txids, which looks each one up as it is read: it
   succeeds with the drawn transactions exactly when all txids can be read and
   all are pooled.
  */
  method DrawListed(chain: Chain, r: Reader) returns (res: Result<seq<Transaction>>)
    requires r.offset <= |r.data|
    modifies r
    ensures r.offset <= |r.data|
    ensures match ParseTxids(r.data, old(r.offset))
      case Truncated => res == Failure
      case Parsed(txids, _) =>
        match Draw(chain.pool, txids)
        case None => res == Failure
        case Some(txs) => res == Success(txs)
  {
    hide ParseHash, Draw;
    DrawEmpty(chain.pool);
    var count :- r.TakeU32();
    ghost var start := r.offset;
    var txs: seq<Transaction> := [];
    for i := 0 to count
      invariant r.offset <= |r.data|
      invariant ParseList(ParseHash, r.data, start, i).Parsed?
      invariant ParseList(ParseHash, r.data, start, i).next == r.offset
      invariant Draw(chain.pool, ParseList(ParseHash, r.data, start, i).value) == Some(txs)
    {
      ghost var before := ParseList(ParseHash, r.data, start, i).value;
      var txid := r.TakeHash();
      if txid.Failure? {
        ParseListStops(ParseHash, r.data, start, i + 1, count);
        return Failure;
      }
      assert ParseList(ParseHash, r.data, start, i + 1).value == before + [txid.value];
      if txid.value !in chain.pool {
        MissingTxid(chain.pool, r.data, start, i + 1, count, txid.value);
        return Failure;
      }
      DrawOneMore(chain.pool, before, txid.value);
      txs := txs + [chain.pool[txid.value]];
    }
    return Success(txs);
  }

  lemma MissingTxid(pool: map<Hash, Transaction>, d: Bytes, o: nat, m: nat, n: nat, t: Hash)
    requires 0 < m <= n && t !in pool
    requires ParseList(ParseHash, d, o, m).Parsed? && ParseList(ParseHash, d, o, m).value[m - 1] == t
    ensures ParseList(ParseHash, d, o, n).Parsed? ==> Draw(pool, ParseList(ParseHash, d, o, n).value).None?
  {
    if ParseList(ParseHash, d, o, n).Parsed? {
      ParseListPrefix(ParseHash, d, o, m, n);
      DrawFinds(pool, ParseList(ParseHash, d, o, n).value);
      assert ParseList(ParseHash, d, o, n).value[m - 1] == t;
    }
  }

  /**
   The whole handler without interference: parse, build, compare the Merkle
   root, the target and the tip, insert. Its answer and its effect are those of
   the atomic submission.
  */
  method OnCreateBlock(chain: Chain, payload: Bytes) returns (err: BlockError)
    requires chain.blocks != [] && chain.target == Target(DIFFICULTY)
    modifies chain
    ensures chain.blocks != [] && chain.target == old(chain.target)
    ensures match ParseBlockRequest(payload)
      case Truncated =>
        err == BlockInvalidPayload && chain.Value() == old(chain.Value()) && chain.journal == old(chain.journal)
      case Parsed(req, _) =>
        && (err, chain.Value()) == SubmitBlock(chain.crypto, old(chain.Value()), req)
        && chain.journal == old(chain.journal) + Writes(chain.crypto, old(chain.Value()), Mine(req))
  {
    hide BlockCodec.ParseHeader, ParseCoinbase, ParseTxids, LexLess, Target, NewBlock, Preimage, Draw, AddBlock;
    var r := new Reader(payload);
    var header := BlockCodec.DeserializeHeader(r);
    if header.Failure? {
      return BlockInvalidPayload;
    }
    var cb := TakeCoinbase(r);
    if cb.Failure? {
      return BlockInvalidPayload;
    }
    var coinbase := ConstructTransaction(chain.crypto, [], [cb.value.0], cb.value.1);
    var txs := DrawListed(chain, r);
    if txs.Failure? {
      return BlockInvalidPayload;
    }
    var h := header.value;
    var b := ConstructBlock(chain.crypto, h.prevHash, [coinbase] + txs.value, h.timestamp, h.nonce);
    if b.header.merkleRoot != h.merkleRoot {
      return BlockInvalidBlockHash;
    }
    if LexLess(chain.target, b.hash) {
      return BlockHighHash;
    }
    if b.header.prevHash != chain.blocks[|chain.blocks| - 1].hash {
      return BlockBadPreviousHash;
    }
    chain.AddBlock(b);
    return BlockNone;
  }

  method TakeCoinbase(r: Reader) returns (res: Result<(TxOutput, u64)>)
    requires r.offset <= |r.data|
    modifies r
    ensures r.offset <= |r.data|
    ensures Delivers(res, ParseCoinbase(r.data, old(r.offset)), r.offset)
  {
    var out :- TakeOutput(r);
    var timestamp :- r.TakeU64();
    return Success((out, timestamp));
  }
}
