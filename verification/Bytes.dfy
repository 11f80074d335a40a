/**
 Little-endian integers, counted lists, and the append buffer and
 bounds-checked cursor that every encoding in the program is built from.
*/
module ByteCodec {
  import opened Types

  // ---------------------------------------------------------------- integers

  function Pow256(n: nat): nat {
    if n == 0 then 1 else 256 * Pow256(n - 1)
  }

  /** The low `n` bytes of v, least significant first. */
  function LittleEndian(v: nat, n: nat): (b: Bytes)
    ensures |b| == n
  {
    if n == 0 then [] else [v % 256] + LittleEndian(v / 256, n - 1)
  }

  function FromLittleEndian(b: Bytes): (v: nat)
    ensures v < Pow256(|b|)
  {
    if b == [] then 0 else b[0] + 256 * FromLittleEndian(b[1..])
  }

  lemma {:induction false} DecodeInteger(v: nat, n: nat)
    requires v < Pow256(n)
    ensures FromLittleEndian(LittleEndian(v, n)) == v
  {
    if n > 0 {
      DecodeInteger(v / 256, n - 1);
      assert LittleEndian(v, n)[1..] == LittleEndian(v / 256, n - 1);
    }
  }

  lemma {:induction false} EncodeInteger(b: Bytes)
    ensures LittleEndian(FromLittleEndian(b), |b|) == b
  {
    if b != [] {
      EncodeInteger(b[1..]);
      assert FromLittleEndian(b) / 256 == FromLittleEndian(b[1..]);
      assert b == [b[0]] + b[1..];
    }
  }

  /** Byte i carries the digit of weight 256 to the i. */
  lemma {:induction false} IntegerBytes(v: nat, n: nat, i: nat)
    requires i < n
    ensures Pow256(i) > 0 && LittleEndian(v, n)[i] == v / Pow256(i) % 256
  {
    if i == 0 {
      assert v / Pow256(0) == v;
    } else {
      IntegerBytes(v / 256, n - 1, i - 1);
      NestedDivision(v, Pow256(i - 1));
    }
  }

  lemma NestedDivision(v: nat, b: nat)
    requires b > 0
    ensures v / 256 / b == v / (256 * b)
  {
    var q := v / 256;
    var p, s := q / b, q % b;
    assert q == b * p + s && v == 256 * q + v % 256;
    assert 256 * b * p == 256 * (b * p);
    QuotientIs(v, 256 * b, p, 256 * s + v % 256);
  }

  lemma QuotientIs(v: nat, m: nat, p: nat, r: nat)
    requires m > 0 && v == m * p + r && r < m
    ensures v / m == p
  {
    var q := v / m;
    NextMultiple(m, p, q);
    NextMultiple(m, q, p);
  }

  lemma {:induction false} NextMultiple(m: nat, a: nat, b: nat)
    ensures a < b ==> m * a + m <= m * b
    decreases b
  {
    if a < b {
      assert m * (b - 1) == m * b - m;
      NextMultiple(m, a, b - 1);
    }
  }

  lemma Widths()
    ensures Pow256(4) == U32_SIZE
    ensures Pow256(8) == U64_MAX + 1
  {
    assert Pow256(1) == 256;
    assert Pow256(2) == 0x1_0000;
    assert Pow256(3) == 0x100_0000;
    assert Pow256(4) == U32_SIZE;
    assert Pow256(5) == 0x100_0000_0000;
    assert Pow256(6) == 0x1_0000_0000_0000;
    assert Pow256(7) == 0x100_0000_0000_0000;
  }

  // ----------------------------------------------------- parsing as a function

  /** Outcome of reading at an offset: the value and the next offset, or the end was hit. */
  datatype Parsed<+T> = Truncated | Parsed(value: T, next: nat)
  {
    predicate IsFailure() {
      Truncated?
    }

    function PropagateFailure<U>(): Parsed<U>
      requires Truncated?
    {
      Truncated
    }

    function Extract(): (T, nat)
      requires Parsed?
    {
      (value, next)
    }
  }

  function ParseBytes(d: Bytes, o: nat, n: nat): (p: Parsed<Bytes>)
    ensures p.Parsed? <==> o + n <= |d|
    ensures p.Parsed? ==> |p.value| == n && p.next == o + n && p.value == d[o..p.next]
  {
    if o + n <= |d| then Parsed(d[o..o + n], o + n) else Truncated
  }

  function ParseHash(d: Bytes, o: nat): Parsed<Hash> {
    var (b, o1) :- ParseBytes(d, o, 32);
    Parsed(b, o1)
  }

  function ParseAddress(d: Bytes, o: nat): Parsed<Address> {
    var (b, o1) :- ParseBytes(d, o, 20);
    Parsed(b, o1)
  }

  function ParsePublicKey(d: Bytes, o: nat): Parsed<PublicKey> {
    var (b, o1) :- ParseBytes(d, o, 32);
    Parsed(b, o1)
  }

  function ParseSignature(d: Bytes, o: nat): Parsed<Signature> {
    var (b, o1) :- ParseBytes(d, o, 64);
    Parsed(b, o1)
  }

  function ParseU32(d: Bytes, o: nat): Parsed<u32> {
    var (b, o1) :- ParseBytes(d, o, 4);
    Widths();
    Parsed(FromLittleEndian(b), o1)
  }

  function ParseU64(d: Bytes, o: nat): Parsed<u64> {
    var (b, o1) :- ParseBytes(d, o, 8);
    Widths();
    Parsed(FromLittleEndian(b), o1)
  }

  /** `b` stands in d at offset o. */
  predicate At(d: Bytes, o: nat, b: Bytes) {
    o + |b| <= |d| && d[o..o + |b|] == b
  }

  lemma AtNothing(d: Bytes, o: nat)
    requires o <= |d|
    ensures At(d, o, [])
  {
  }

  lemma AtWhole(b: Bytes)
    ensures At(b, 0, b)
  {
  }

  lemma AtSplit(d: Bytes, o: nat, a: Bytes, b: Bytes)
    ensures At(d, o, a + b) <==> At(d, o, a) && At(d, o + |a|, b)
  {
    if At(d, o, a + b) {
      assert d[o..o + |a|] == (a + b)[..|a|];
      assert d[o + |a|..o + |a| + |b|] == (a + b)[|a|..];
    }
    if At(d, o, a) && At(d, o + |a|, b) {
      assert d[o..o + |a + b|] == d[o..o + |a|] + d[o + |a|..o + |a| + |b|];
    }
  }

  lemma ParseU32Exact(d: Bytes, o: nat, v: u32)
    ensures At(d, o, LittleEndian(v, 4)) <==> ParseU32(d, o) == Parsed(v, o + 4)
  {
    Widths();
    DecodeInteger(v, 4);
    if o + 4 <= |d| {
      EncodeInteger(d[o..o + 4]);
    }
  }

  lemma ParseU64Exact(d: Bytes, o: nat, v: u64)
    ensures At(d, o, LittleEndian(v, 8)) <==> ParseU64(d, o) == Parsed(v, o + 8)
  {
    Widths();
    DecodeInteger(v, 8);
    if o + 8 <= |d| {
      EncodeInteger(d[o..o + 8]);
    }
  }

  lemma AtFour(d: Bytes, o: nat, a: Bytes, b: Bytes, c: Bytes, e: Bytes)
    ensures At(d, o, a + b + c + e) <==>
      At(d, o, a) && At(d, o + |a|, b) && At(d, o + |a| + |b|, c) && At(d, o + |a| + |b| + |c|, e)
  {
    AtSplit(d, o, a + b + c, e);
    AtSplit(d, o, a + b, c);
    AtSplit(d, o, a, b);
  }

  lemma AtCounted(d: Bytes, o: nat, n: u32, body: Bytes)
    ensures At(d, o, LittleEndian(n, 4) + body) <==> ParseU32(d, o) == Parsed(n, o + 4) && At(d, o + 4, body)
  {
    AtSplit(d, o, LittleEndian(n, 4), body);
    ParseU32Exact(d, o, n);
  }

  // ------------------------------------------------------------ counted lists

  type Parser<!T> = (Bytes, nat) -> Parsed<T>

  function EncodeList<T>(enc: T -> Bytes, xs: seq<T>): Bytes {
    if xs == [] then [] else EncodeList(enc, xs[..|xs| - 1]) + enc(xs[|xs| - 1])
  }

  function ParseList<T>(item: Parser<T>, d: Bytes, o: nat, n: nat): (p: Parsed<seq<T>>)
    ensures p.Parsed? ==> |p.value| == n
  {
    if n == 0 then Parsed([], o) else
      var (xs, o1) :- ParseList(item, d, o, n - 1);
      var (x, o2) :- item(d, o1);
      Parsed(xs + [x], o2)
  }

  ghost predicate AllOk<T>(ok: T -> bool, xs: seq<T>) {
    forall x :: x in xs ==> ok(x)
  }

  /** Reading at an encoding of an acceptable value returns that value. */
  ghost predicate Reads<T(!new)>(item: Parser<T>, enc: T -> Bytes, ok: T -> bool) {
    forall d: Bytes, o: nat, x: T ::
      At(d, o, enc(x)) && ok(x) ==> item(d, o) == Parsed(x, o + |enc(x)|)
  }

  /**
   What is read is acceptable and consumes at least its own encoding; when it
   consumes no more than that, its encoding is what stood there.
  */
  ghost predicate Yields<T(!new)>(item: Parser<T>, enc: T -> Bytes, ok: T -> bool) {
    forall d: Bytes, o: nat :: item(d, o).Parsed? && o <= |d| ==>
      var p := item(d, o);
      && ok(p.value)
      && o + |enc(p.value)| <= p.next <= |d|
      && (p.next == o + |enc(p.value)| ==> At(d, o, enc(p.value)))
  }

  /** None of the first n items consumes more than its own encoding. */
  predicate Tight<T>(item: Parser<T>, enc: T -> Bytes, d: Bytes, o: nat, n: nat)
    requires ParseList(item, d, o, n).Parsed?
  {
    n == 0 ||
    (Tight(item, enc, d, o, n - 1)
     && var o1 := ParseList(item, d, o, n - 1).next;
        item(d, o1).next == o1 + |enc(item(d, o1).value)|)
  }

  lemma ReadOne<T(!new)>(item: Parser<T>, enc: T -> Bytes, ok: T -> bool, d: Bytes, o: nat, x: T)
    requires Reads(item, enc, ok) && At(d, o, enc(x)) && ok(x)
    ensures item(d, o) == Parsed(x, o + |enc(x)|)
  {
  }

  lemma {:induction false} ReadList<T(!new)>(
    item: Parser<T>, enc: T -> Bytes, ok: T -> bool, d: Bytes, o: nat, xs: seq<T>)
    requires Reads(item, enc, ok)
    requires At(d, o, EncodeList(enc, xs)) && AllOk(ok, xs)
    ensures ParseList(item, d, o, |xs|) == Parsed(xs, o + |EncodeList(enc, xs)|)
  {
    hide At, Reads, ParseList, EncodeList;
    if xs == [] {
      NothingToRead(item, enc, d, o);
    } else {
      var init, last := xs[..|xs| - 1], xs[|xs| - 1];
      assert xs == init + [last] && last in xs;
      var o1 := o + |EncodeList(enc, init)|;
      EncodeLast(enc, xs);
      AtSplit(d, o, EncodeList(enc, init), enc(last));
      ReadList(item, enc, ok, d, o, init);
      ReadOne(item, enc, ok, d, o1, last);
      ParseOneMore(item, d, o, init, o1, last, o1 + |enc(last)|);
    }
  }

  lemma NothingToRead<T>(item: Parser<T>, enc: T -> Bytes, d: Bytes, o: nat)
    ensures ParseList(item, d, o, 0) == Parsed([], o) && EncodeList(enc, []) == []
  {
  }

  lemma EncodeLast<T>(enc: T -> Bytes, xs: seq<T>)
    requires xs != []
    ensures EncodeList(enc, xs) == EncodeList(enc, xs[..|xs| - 1]) + enc(xs[|xs| - 1])
  {
  }

  lemma ParseOneMore<T>(item: Parser<T>, d: Bytes, o: nat, xs: seq<T>, o1: nat, x: T, o2: nat)
    requires ParseList(item, d, o, |xs|) == Parsed(xs, o1) && item(d, o1) == Parsed(x, o2)
    ensures ParseList(item, d, o, |xs| + 1) == Parsed(xs + [x], o2)
  {
  }

  lemma {:induction false} YieldedList<T(!new)>(
    item: Parser<T>, enc: T -> Bytes, ok: T -> bool, d: Bytes, o: nat, n: nat)
    requires Yields(item, enc, ok) && o <= |d|
    requires ParseList(item, d, o, n).Parsed?
    ensures var p := ParseList(item, d, o, n);
      && AllOk(ok, p.value)
      && o + |EncodeList(enc, p.value)| <= p.next <= |d|
      && (p.next == o + |EncodeList(enc, p.value)| <==> Tight(item, enc, d, o, n))
  {
    if n > 0 {
      YieldedList(item, enc, ok, d, o, n - 1);
      var init := ParseList(item, d, o, n - 1);
      assert (init.value + [item(d, init.next).value])[..n - 1] == init.value;
    }
  }

  /** A tight list is its own encoding. */
  lemma {:induction false} TightListAt<T(!new)>(
    item: Parser<T>, enc: T -> Bytes, ok: T -> bool, d: Bytes, o: nat, n: nat)
    requires Yields(item, enc, ok) && o <= |d|
    requires ParseList(item, d, o, n).Parsed? && Tight(item, enc, d, o, n)
    ensures At(d, o, EncodeList(enc, ParseList(item, d, o, n).value))
  {
    hide At;
    if n > 0 {
      TightListAt(item, enc, ok, d, o, n - 1);
      YieldedList(item, enc, ok, d, o, n - 1);
      var init := ParseList(item, d, o, n - 1);
      var last := item(d, init.next).value;
      assert (init.value + [last])[..n - 1] == init.value;
      AtSplit(d, o, EncodeList(enc, init.value), enc(last));
    } else {
      AtNothing(d, o);
    }
  }

  /** Items that never consume more than their encoding make tight lists. */
  lemma {:induction false} AlwaysTight<T(!new)>(item: Parser<T>, enc: T -> Bytes, d: Bytes, o: nat, n: nat)
    requires forall d: Bytes, o: nat :: item(d, o).Parsed? ==> item(d, o).next == o + |enc(item(d, o).value)|
    requires ParseList(item, d, o, n).Parsed?
    ensures Tight(item, enc, d, o, n)
  {
    if n > 0 {
      AlwaysTight(item, enc, d, o, n - 1);
    }
  }

  /** Once an item is missing, no longer list can be read. */
  lemma {:induction false} ParseListStops<T>(item: Parser<T>, d: Bytes, o: nat, m: nat, n: nat)
    requires m <= n && ParseList(item, d, o, m).Truncated?
    ensures ParseList(item, d, o, n).Truncated?
  {
    if m < n {
      ParseListStops(item, d, o, m, n - 1);
    }
  }

  // ----------------------------------------------------------- Writer, Reader

  class Writer {
    var buf: Bytes

    constructor ()
      ensures buf == []
    {
      buf := [];
    }

    method PutBytes(b: Bytes)
      modifies this
      ensures buf == old(buf) + b
    {
      buf := buf + b;
    }

    method PutU32(v: u32)
      modifies this
      ensures buf == old(buf) + LittleEndian(v, 4)
    {
      PutBytes(LittleEndian(v, 4));
    }

    method PutU64(v: u64)
      modifies this
      ensures buf == old(buf) + LittleEndian(v, 8)
    {
      PutBytes(LittleEndian(v, 8));
    }
  }

  /** What a reading method must deliver, given what its parsing function says. */
  ghost predicate Delivers<T>(r: Result<T>, p: Parsed<T>, offset: nat) {
    match p
    case Truncated => r == Failure
    case Parsed(v, next) => r == Success(v) && offset == next
  }

  /** The cursor. A failed check leaves it where it was. */
  class Reader {
    const data: Bytes
    var offset: nat

    constructor (d: Bytes)
      ensures data == d && offset == 0
    {
      data, offset := d, 0;
    }

    method TakeView(n: nat) returns (r: Result<Bytes>)
      requires offset <= |data|
      modifies this
      ensures offset <= |data|
      ensures Delivers(r, ParseBytes(data, old(offset), n), offset)
      ensures r.Failure? ==> offset == old(offset)
    {
      if n > |data| - offset {
        return Failure;
      }
      r := Success(data[offset..offset + n]);
      offset := offset + n;
    }

    method TakeHash() returns (r: Result<Hash>)
      requires offset <= |data|
      modifies this
      ensures offset <= |data|
      ensures Delivers(r, ParseHash(data, old(offset)), offset)
    {
      var b :- TakeView(32);
      return Success(b);
    }

    method TakeAddress() returns (r: Result<Address>)
      requires offset <= |data|
      modifies this
      ensures offset <= |data|
      ensures Delivers(r, ParseAddress(data, old(offset)), offset)
    {
      var b :- TakeView(20);
      return Success(b);
    }

    method TakePublicKey() returns (r: Result<PublicKey>)
      requires offset <= |data|
      modifies this
      ensures offset <= |data|
      ensures Delivers(r, ParsePublicKey(data, old(offset)), offset)
    {
      var b :- TakeView(32);
      return Success(b);
    }

    method TakeSignature() returns (r: Result<Signature>)
      requires offset <= |data|
      modifies this
      ensures offset <= |data|
      ensures Delivers(r, ParseSignature(data, old(offset)), offset)
    {
      var b :- TakeView(64);
      return Success(b);
    }

    method TakeU32() returns (r: Result<u32>)
      requires offset <= |data|
      modifies this
      ensures offset <= |data|
      ensures Delivers(r, ParseU32(data, old(offset)), offset)
    {
      var b :- TakeView(4);
      Widths();
      return Success(FromLittleEndian(b));
    }

    method TakeU64() returns (r: Result<u64>)
      requires offset <= |data|
      modifies this
      ensures offset <= |data|
      ensures Delivers(r, ParseU64(data, old(offset)), offset)
    {
      var b :- TakeView(8);
      Widths();
      return Success(FromLittleEndian(b));
    }
  }
}
