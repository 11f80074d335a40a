/** The stored form of a block: a fixed header, a count, and length-prefixed transactions. */
module BlockCodec {
  import opened Types
  import opened ByteCodec
  import opened TxCodec

  function EncodeHeader(h: BlockHeader): (b: Bytes)
    ensures |b| == 80
  {
    h.prevHash + h.merkleRoot + LittleEndian(h.timestamp, 8) + LittleEndian(h.nonce, 8)
  }

  function HeaderHash(c: Crypto, h: BlockHeader): Hash {
    c.blake2b(EncodeHeader(h))
  }

  function EncodeNested(tx: Transaction): Bytes {
    LittleEndian(ToU32(|EncodeTx(tx)|), 4) + EncodeTx(tx)
  }

  function EncodeNestedList(txs: seq<Transaction>): Bytes {
    LittleEndian(ToU32(|txs|), 4) + EncodeList(EncodeNested, txs)
  }

  function EncodeBlock(b: Block): Bytes {
    EncodeHeader(b.header) + EncodeNestedList(b.transactions)
  }

  predicate NestedFits(tx: Transaction) {
    TxFits(tx) && |EncodeTx(tx)| < U32_SIZE
  }

  predicate BlockFits(b: Block) {
    |b.transactions| < U32_SIZE && forall tx :: tx in b.transactions ==> NestedFits(tx)
  }

  function ParseHeader(d: Bytes, o: nat): Parsed<BlockHeader> {
    var (prevHash, o1) :- ParseHash(d, o);
    var (merkleRoot, o2) :- ParseHash(d, o1);
    var (timestamp, o3) :- ParseU64(d, o2);
    var (nonce, o4) :- ParseU64(d, o3);
    Parsed(BlockHeader(prevHash, merkleRoot, timestamp, nonce), o4)
  }

  /** The nested reader may leave bytes of its view unread. */
  function ParseNested(d: Bytes, o: nat): Parsed<Transaction> {
    var (size, o1) :- ParseU32(d, o);
    var (view, o2) :- ParseBytes(d, o1, size);
    var (tx, _) :- ParseTx(view, 0);
    Parsed(tx, o2)
  }

  function ParseNestedList(d: Bytes, o: nat): Parsed<seq<Transaction>> {
    var (n, o1) :- ParseU32(d, o);
    ParseList(ParseNested, d, o1, n)
  }

  /** The cached hash is recomputed, not read. */
  function ParseBlock(c: Crypto, d: Bytes, o: nat): Parsed<Block> {
    var (header, o1) :- ParseHeader(d, o);
    var (txs, o2) :- ParseNestedList(d, o1);
    Parsed(Block(header, HeaderHash(c, header), txs), o2)
  }

  lemma HeaderExact(d: Bytes, o: nat, h: BlockHeader)
    ensures At(d, o, EncodeHeader(h)) <==> ParseHeader(d, o) == Parsed(h, o + 80)
  {
    AtFour(d, o, h.prevHash, h.merkleRoot, LittleEndian(h.timestamp, 8), LittleEndian(h.nonce, 8));
    ParseU64Exact(d, o + 64, h.timestamp);
    ParseU64Exact(d, o + 72, h.nonce);
  }

  // ------------------------------------------------------- nested transactions

  lemma ViewAt(d: Bytes, o: nat, e: Bytes)
    requires |e| < U32_SIZE && At(d, o, LittleEndian(|e|, 4) + e)
    ensures ParseU32(d, o) == Parsed(|e|, o + 4)
    ensures ParseBytes(d, o + 4, |e|) == Parsed(e, o + 4 + |e|)
  {
    AtCounted(d, o, |e|, e);
  }

  lemma NestedParses(d: Bytes, o: nat, tx: Transaction)
    requires At(d, o, EncodeNested(tx)) && NestedFits(tx)
    ensures ParseNested(d, o) == Parsed(tx, o + |EncodeNested(tx)|)
  {
    ViewAt(d, o, EncodeTx(tx));
    AtWhole(EncodeTx(tx));
    TxParses(EncodeTx(tx), 0, tx);
  }

  lemma NestedParsed(d: Bytes, o: nat)
    requires ParseNested(d, o).Parsed? && o <= |d|
    ensures var p := ParseNested(d, o);
      && NestedFits(p.value)
      && o + |EncodeNested(p.value)| <= p.next <= |d|
      && (p.next == o + |EncodeNested(p.value)| ==> At(d, o, EncodeNested(p.value)))
  {
    var tx := ParseNested(d, o).value;
    var size := ParseU32(d, o).value;
    var view := ParseBytes(d, o + 4, size).value;
    TxCanonical(view, 0);
    WholeView(d, o, size, EncodeTx(tx));
  }

  lemma WholeView(d: Bytes, o: nat, size: u32, e: Bytes)
    requires ParseU32(d, o) == Parsed(size, o + 4) && ParseBytes(d, o + 4, size).Parsed?
    requires At(ParseBytes(d, o + 4, size).value, 0, e)
    ensures |e| == size ==> At(d, o, LittleEndian(size, 4) + e)
  {
    AtCounted(d, o, size, e);
  }

  lemma NestedCodec()
    ensures Reads(ParseNested, EncodeNested, NestedFits) && Yields(ParseNested, EncodeNested, NestedFits)
  {
    forall d: Bytes, o: nat, tx: Transaction | At(d, o, EncodeNested(tx)) && NestedFits(tx)
      ensures ParseNested(d, o) == Parsed(tx, o + |EncodeNested(tx)|)
    {
      NestedParses(d, o, tx);
    }
    forall d: Bytes, o: nat | ParseNested(d, o).Parsed? && o <= |d|
      ensures var p := ParseNested(d, o);
        && NestedFits(p.value)
        && o + |EncodeNested(p.value)| <= p.next <= |d|
        && (p.next == o + |EncodeNested(p.value)| ==> At(d, o, EncodeNested(p.value)))
    {
      NestedParsed(d, o);
    }
  }

  lemma NestedListParses(d: Bytes, o: nat, txs: seq<Transaction>)
    requires At(d, o, EncodeNestedList(txs)) && |txs| < U32_SIZE
    requires forall tx :: tx in txs ==> NestedFits(tx)
    ensures ParseNestedList(d, o) == Parsed(txs, o + |EncodeNestedList(txs)|)
  {
    NestedCodec();
    AtCounted(d, o, |txs|, EncodeList(EncodeNested, txs));
    ReadList(ParseNested, EncodeNested, NestedFits, d, o + 4, txs);
  }

  /** The nested reader ends where its view ends. */
  predicate EndsAtSize(d: Bytes, o: nat)
    requires ParseNested(d, o).Parsed?
  {
    var size := ParseU32(d, o).value;
    ParseTx(ParseBytes(d, o + 4, size).value, 0).next == size
  }

  /** Each of the first n nested readers ends where its view ends. */
  predicate AllEndAtSize(d: Bytes, o: nat, n: nat)
    requires ParseList(ParseNested, d, o, n).Parsed?
  {
    n == 0 || (AllEndAtSize(d, o, n - 1) && EndsAtSize(d, ParseList(ParseNested, d, o, n - 1).next))
  }

  predicate WholeViews(d: Bytes, o: nat)
    requires ParseNestedList(d, o).Parsed?
  {
    AllEndAtSize(d, o + 4, ParseU32(d, o).value)
  }

  /** Ending at the declared size is consuming exactly one's own encoding. */
  lemma EndsTight(d: Bytes, o: nat)
    requires ParseNested(d, o).Parsed?
    ensures EndsAtSize(d, o) <==> ParseNested(d, o).next == o + |EncodeNested(ParseNested(d, o).value)|
  {
    hide EncodeTx, ParseTx, LittleEndian;
    TxCanonical(ParseBytes(d, o + 4, ParseU32(d, o).value).value, 0);
  }

  lemma {:induction false} AllEndTight(d: Bytes, o: nat, n: nat)
    requires ParseList(ParseNested, d, o, n).Parsed?
    ensures AllEndAtSize(d, o, n) <==> Tight(ParseNested, EncodeNested, d, o, n)
  {
    hide ParseNested, EncodeNested, EndsAtSize;
    if n > 0 {
      AllEndTight(d, o, n - 1);
      EndsTight(d, ParseList(ParseNested, d, o, n - 1).next);
    }
  }

  lemma NestedListParsed(d: Bytes, o: nat)
    requires ParseNestedList(d, o).Parsed?
    ensures var p := ParseNestedList(d, o);
      && |p.value| < U32_SIZE && (forall tx :: tx in p.value ==> NestedFits(tx))
      && o + |EncodeNestedList(p.value)| <= p.next <= |d|
      && (p.next == o + |EncodeNestedList(p.value)| <==> WholeViews(d, o))
      && (WholeViews(d, o) ==> At(d, o, EncodeNestedList(p.value)))
  {
    NestedCodec();
    var n, p := ParseU32(d, o).value, ParseNestedList(d, o);
    YieldedList(ParseNested, EncodeNested, NestedFits, d, o + 4, n);
    AllEndTight(d, o + 4, n);
    if WholeViews(d, o) {
      TightListAt(ParseNested, EncodeNested, NestedFits, d, o + 4, n);
    }
    AtCounted(d, o, n, EncodeList(EncodeNested, p.value));
  }

  // --------------------------------------------------------------------- blocks

  lemma BlockParses(c: Crypto, d: Bytes, o: nat, b: Block)
    requires At(d, o, EncodeBlock(b)) && BlockFits(b) && b.hash == HeaderHash(c, b.header)
    ensures ParseBlock(c, d, o) == Parsed(b, o + |EncodeBlock(b)|)
  {
    AtSplit(d, o, EncodeHeader(b.header), EncodeNestedList(b.transactions));
    HeaderExact(d, o, b.header);
    NestedListParses(d, o + 80, b.transactions);
  }

  /** The cached hash of a block that was read is the hash of its first 80 bytes. */
  lemma HashOfBytes(c: Crypto, d: Bytes, o: nat)
    requires ParseBlock(c, d, o).Parsed?
    ensures o + 80 <= |d| && ParseBlock(c, d, o).value.hash == c.blake2b(d[o..o + 80])
  {
    HeaderExact(d, o, ParseHeader(d, o).value);
  }

  /** The hash collides on two 80-byte strings. */
  predicate HeaderCollision(c: Crypto, x: Bytes, y: Bytes) {
    |x| == |y| == 80 && x != y && c.blake2b(x) == c.blake2b(y)
  }

  /** Equal cached hashes mean equal headers, or a collision. */
  lemma HashBindsHeader(c: Crypto, a: Block, b: Block)
    requires a.hash == HeaderHash(c, a.header) && b.hash == HeaderHash(c, b.header)
    ensures a.header != b.header && a.hash == b.hash ==> exists x, y :: HeaderCollision(c, x, y)
  {
    var x, y := EncodeHeader(a.header), EncodeHeader(b.header);
    AtWhole(x);
    AtWhole(y);
    HeaderExact(x, 0, a.header);
    HeaderExact(y, 0, b.header);
    if a.header != b.header && a.hash == b.hash {
      assert HeaderCollision(c, x, y);
    }
  }

  lemma AtTwo(d: Bytes, o: nat, end: nat, a: Bytes, b: Bytes)
    requires o <= end <= |d|
    ensures d[o..end] == a + b <==> end == o + |a| + |b| && At(d, o, a) && At(d, o + |a|, b)
  {
    AtSplit(d, o, a, b);
  }

  /**
   Reading a block bounds it to the 32-bit counts, recomputes its hash, and
   returns a block whose serialisation is the consumed bytes exactly when every
   nested reader consumed its whole view.
  */
  lemma BlockCanonical(c: Crypto, d: Bytes, o: nat)
    requires ParseBlock(c, d, o).Parsed?
    ensures var p := ParseBlock(c, d, o);
      && BlockFits(p.value) && p.value.hash == HeaderHash(c, p.value.header)
      && o <= p.next <= |d|
      && (d[o..p.next] == EncodeBlock(p.value) <==> WholeViews(d, o + 80))
  {
    var p := ParseBlock(c, d, o);
    var b := p.value;
    HeaderExact(d, o, b.header);
    NestedListParsed(d, o + 80);
    AtTwo(d, o, p.next, EncodeHeader(b.header), EncodeNestedList(b.transactions));
  }

  /** With anything before and after, a block comes back exactly when it fits and its cached hash is right. */
  lemma BlockRoundTrip(c: Crypto, before: Bytes, b: Block, after: Bytes)
    ensures ParseBlock(c, before + EncodeBlock(b) + after, |before|) == Parsed(b, |before| + |EncodeBlock(b)|)
      <==> BlockFits(b) && b.hash == HeaderHash(c, b.header)
  {
    var d := before + EncodeBlock(b) + after;
    assert d[|before|..|before| + |EncodeBlock(b)|] == EncodeBlock(b);
    if BlockFits(b) && b.hash == HeaderHash(c, b.header) {
      BlockParses(c, d, |before|, b);
    } else if ParseBlock(c, d, |before|).Parsed? {
      BlockCanonical(c, d, |before|);
    }
  }

  // ---------------------------------------------------------- bytes nobody reads

  /** A nested transaction whose declared size is one more than it needs. */
  function EncodeSlack(tx: Transaction): Bytes {
    LittleEndian(|EncodeTx(tx)| + 1, 4) + (EncodeTx(tx) + [0])
  }

  /** Encoded sizes are multiples of four, so one more byte always fits the size field. */
  lemma RoomForSlack(tx: Transaction)
    requires NestedFits(tx)
    ensures |EncodeTx(tx)| + 1 < U32_SIZE
  {
    hide EncodeTx;
    TxBytes(tx);
  }

  lemma SlackParses(d: Bytes, o: nat, tx: Transaction)
    requires NestedFits(tx) && At(d, o, EncodeSlack(tx))
    ensures ParseNested(d, o) == Parsed(tx, o + |EncodeNested(tx)| + 1)
  {
    hide EncodeTx, LittleEndian, ParseTx, ParseU32, ParseBytes;
    var view := EncodeTx(tx) + [0];
    RoomForSlack(tx);
    ViewAt(d, o, view);
    AtWhole(view);
    AtSplit(view, 0, EncodeTx(tx), [0]);
    TxParses(view, 0, tx);
  }

  function EncodeSlackList(txs: seq<Transaction>): Bytes
    requires txs != []
  {
    var init, last := txs[..|txs| - 1], txs[|txs| - 1];
    LittleEndian(ToU32(|txs|), 4) + (EncodeList(EncodeNested, init) + EncodeSlack(last))
  }

  lemma SlackListParses(d: Bytes, o: nat, txs: seq<Transaction>)
    requires txs != [] && |txs| < U32_SIZE && forall tx :: tx in txs ==> NestedFits(tx)
    requires At(d, o, EncodeSlackList(txs))
    ensures |EncodeSlackList(txs)| == |EncodeNestedList(txs)| + 1
    ensures ParseNestedList(d, o) == Parsed(txs, o + |EncodeSlackList(txs)|)
  {
    hide EncodeList, EncodeSlack, EncodeNested, LittleEndian, ParseNested, NestedFits, Reads, Yields, At, ParseList,
      ParseU32;
    var init, last := txs[..|txs| - 1], txs[|txs| - 1];
    assert txs == init + [last] && last in txs;
    var front := EncodeList(EncodeNested, init);
    AtCounted(d, o, |txs|, front + EncodeSlack(last));
    AtSplit(d, o + 4, front, EncodeSlack(last));
    NestedCodec();
    ReadList(ParseNested, EncodeNested, NestedFits, d, o + 4, init);
    var o1 := o + 4 + |front|;
    SlackParses(d, o1, last);
    ParseOneMore(ParseNested, d, o + 4, init, o1, last, o1 + |EncodeNested(last)| + 1);
    EncodeLast(EncodeNested, txs);
    SlackBytes(last);
  }

  lemma SlackBytes(tx: Transaction)
    ensures |EncodeSlack(tx)| == |EncodeNested(tx)| + 1
  {
    hide EncodeTx;
  }

  /** Another encoding of the same block: the last transaction's size is one too large. */
  lemma SlackBlock(c: Crypto, b: Block) returns (d: Bytes)
    requires BlockFits(b) && b.hash == HeaderHash(c, b.header) && b.transactions != []
    ensures |d| == |EncodeBlock(b)| + 1
    ensures ParseBlock(c, d, 0) == Parsed(b, |d|)
  {
    hide EncodeHeader, EncodeSlackList, EncodeNestedList, ParseHeader, ParseNestedList, NestedFits, At;
    var list := EncodeSlackList(b.transactions);
    d := EncodeHeader(b.header) + list;
    AtWhole(d);
    AtSplit(d, 0, EncodeHeader(b.header), list);
    HeaderExact(d, 0, b.header);
    SlackListParses(d, 80, b.transactions);
  }

  /**
   A block's serialisation is the only byte string that reads back as that block
   if and only if the block has no transactions.
  */
  lemma EncodingUnique(c: Crypto, b: Block)
    requires BlockFits(b) && b.hash == HeaderHash(c, b.header)
    ensures (forall d: Bytes :: ParseBlock(c, d, 0) == Parsed(b, |d|) ==> d == EncodeBlock(b)) <==> b.transactions == []
  {
    hide ParseBlock, EncodeBlock, HeaderHash, BlockFits;
    if b.transactions != [] {
      var d := SlackBlock(c, b);
    } else {
      forall d: Bytes | ParseBlock(c, d, 0) == Parsed(b, |d|) ensures d == EncodeBlock(b) {
        BlockCanonical(c, d, 0);
        NoViews(c, d, b);
        assert d[0..|d|] == d;
      }
    }
  }

  lemma NoViews(c: Crypto, d: Bytes, b: Block)
    requires ParseBlock(c, d, 0) == Parsed(b, |d|) && b.transactions == []
    ensures WholeViews(d, 80)
  {
    hide ParseNested;
  }

  // ------------------------------------------------------------ methods on buffers

  method SerializeHeader(h: BlockHeader, w: Writer)
    modifies w
    ensures w.buf == old(w.buf) + EncodeHeader(h)
  {
    ghost var b0 := w.buf;
    w.PutBytes(h.prevHash);
    w.PutBytes(h.merkleRoot);
    w.PutU64(h.timestamp);
    w.PutU64(h.nonce);
    RegroupFour(b0, h.prevHash, h.merkleRoot, LittleEndian(h.timestamp, 8), LittleEndian(h.nonce, 8));
  }

  method ComputeHeaderHash(c: Crypto, h: BlockHeader) returns (hash: Hash)
    ensures hash == HeaderHash(c, h)
  {
    var w := new Writer();
    SerializeHeader(h, w);
    assert w.buf == EncodeHeader(h);
    hash := c.blake2b(w.buf);
  }

  method SerializeNested(tx: Transaction, w: Writer)
    modifies w
    ensures w.buf == old(w.buf) + EncodeNested(tx)
  {
    var inner := new Writer();
    SerializeTransaction(tx, inner);
    assert inner.buf == EncodeTx(tx);
    w.PutU32(ToU32(|inner.buf|));
    w.PutBytes(inner.buf);
    Regroup(old(w.buf), LittleEndian(ToU32(|inner.buf|), 4), inner.buf);
  }

  method SerializeNestedList(txs: seq<Transaction>, w: Writer)
    modifies w
    ensures w.buf == old(w.buf) + EncodeNestedList(txs)
  {
    w.PutU32(ToU32(|txs|));
    ghost var head := w.buf;
    for i := 0 to |txs|
      invariant w.buf == head + EncodeList(EncodeNested, txs[..i])
    {
      SerializeNested(txs[i], w);
      assert txs[..i + 1][..i] == txs[..i];
      Regroup(head, EncodeList(EncodeNested, txs[..i]), EncodeNested(txs[i]));
    }
    assert txs[..|txs|] == txs;
    Regroup(old(w.buf), LittleEndian(ToU32(|txs|), 4), EncodeList(EncodeNested, txs));
  }

  method SerializeBlock(b: Block) returns (bytes: Bytes)
    ensures bytes == EncodeBlock(b)
  {
    var w := new Writer();
    SerializeHeader(b.header, w);
    assert w.buf == EncodeHeader(b.header);
    SerializeNestedList(b.transactions, w);
    bytes := w.buf;
  }

  method DeserializeHeader(r: Reader) returns (res: Result<BlockHeader>)
    requires r.offset <= |r.data|
    modifies r
    ensures r.offset <= |r.data|
    ensures Delivers(res, ParseHeader(r.data, old(r.offset)), r.offset)
  {
    var prevHash :- r.TakeHash();
    var merkleRoot :- r.TakeHash();
    var timestamp :- r.TakeU64();
    var nonce :- r.TakeU64();
    return Success(BlockHeader(prevHash, merkleRoot, timestamp, nonce));
  }

  method DeserializeNested(r: Reader) returns (res: Result<Transaction>)
    requires r.offset <= |r.data|
    modifies r
    ensures r.offset <= |r.data|
    ensures Delivers(res, ParseNested(r.data, old(r.offset)), r.offset)
  {
    var size :- r.TakeU32();
    var view :- r.TakeView(size);
    var inner := new Reader(view);
    res := DeserializeTransaction(inner);
  }

  method DeserializeBlock(c: Crypto, r: Reader) returns (res: Result<Block>)
    requires r.offset <= |r.data|
    modifies r
    ensures r.offset <= |r.data|
    ensures Delivers(res, ParseBlock(c, r.data, old(r.offset)), r.offset)
  {
    var header :- DeserializeHeader(r);
    var count :- r.TakeU32();
    ghost var start := r.offset;
    var txs: seq<Transaction> := [];
    for i := 0 to count
      invariant r.offset <= |r.data|
      invariant ParseList(ParseNested, r.data, start, i) == Parsed(txs, r.offset)
    {
      var tx := DeserializeNested(r);
      if tx.Failure? {
        ParseListStops(ParseNested, r.data, start, i + 1, count);
        return Failure;
      }
      txs := txs + [tx.value];
    }
    var hash := ComputeHeaderHash(c, header);
    return Success(Block(header, hash, txs));
  }
}
