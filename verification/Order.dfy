/** Byte-lexicographic order: database keys, and the difficulty target. */
module ByteOrder {
  import opened Types

  function LexLess(a: Bytes, b: Bytes): bool {
    if b == [] then false
    else if a == [] then true
    else if a[0] != b[0] then a[0] < b[0]
    else LexLess(a[1..], b[1..])
  }

  /** Less means: at the first place where they differ, ended already or a smaller byte. */
  lemma {:induction false} LexMeans(a: Bytes, b: Bytes)
    ensures LexLess(a, b) <==>
      exists k :: 0 <= k <= |a| && k < |b| && a[..k] == b[..k] && (k == |a| || a[k] < b[k])
  {
    if LexLess(a, b) {
      var k := LexPlace(a, b);
    } else {
      forall k | 0 <= k <= |a| && k < |b| && a[..k] == b[..k] ensures !(k == |a| || a[k] < b[k]) {
        LexFrom(a, b, k);
      }
    }
  }

  lemma {:induction false} LexPlace(a: Bytes, b: Bytes) returns (k: nat)
    requires LexLess(a, b)
    ensures k <= |a| && k < |b| && a[..k] == b[..k] && (k == |a| || a[k] < b[k])
  {
    if a == [] || a[0] != b[0] {
      k := 0;
    } else {
      k := LexPlace(a[1..], b[1..]);
      assert a[..k + 1] == [a[0]] + a[1..][..k] && b[..k + 1] == [b[0]] + b[1..][..k];
      k := k + 1;
    }
  }

  lemma {:induction false} LexFrom(a: Bytes, b: Bytes, k: nat)
    requires k <= |a| && k < |b| && a[..k] == b[..k]
    ensures k == |a| || a[k] < b[k] ==> LexLess(a, b)
  {
    if k > 0 {
      assert a[0] == a[..k][0] == b[..k][0] == b[0];
      assert a[1..][..k - 1] == a[..k][1..] && b[1..][..k - 1] == b[..k][1..];
      LexFrom(a[1..], b[1..], k - 1);
    }
  }

  lemma {:induction false} LexTotal(a: Bytes, b: Bytes)
    ensures LexLess(a, b) || a == b || LexLess(b, a)
    ensures !(LexLess(a, b) && LexLess(b, a))
    ensures !LexLess(a, a)
  {
    if a != [] {
      LexTotal(a[1..], a[1..]);
      if b != [] {
        LexTotal(a[1..], b[1..]);
        if a[0] == b[0] && a[1..] == b[1..] {
          assert a == [a[0]] + a[1..] == b;
        }
      }
    }
  }

  lemma {:induction false} LexTransitive(a: Bytes, b: Bytes, c: Bytes)
    requires LexLess(a, b) && LexLess(b, c)
    ensures LexLess(a, c)
  {
    if a != [] && a[0] == b[0] == c[0] {
      LexTransitive(a[1..], b[1..], c[1..]);
    }
  }

  lemma {:induction false} LexLast(a: Bytes, b: Bytes, x: byte, y: byte)
    requires |a| == |b|
    ensures LexLess(a + [x], b + [y]) <==> LexLess(a, b) || (a == b && x < y)
  {
    if a == [] {
      assert (a + [x])[1..] == [] && (b + [y])[1..] == [];
    } else {
      assert (a + [x])[1..] == a[1..] + [x] && (b + [y])[1..] == b[1..] + [y];
      LexLast(a[1..], b[1..], x, y);
      LexTotal(a, b);
      assert a == [a[0]] + a[1..] && b == [b[0]] + b[1..];
    }
  }

  predicate IsLeast(k: Bytes, keys: set<Bytes>) {
    k in keys && forall other :: other in keys ==> other == k || LexLess(k, other)
  }

  /** Every non-empty key set has a least key: the one an iterator visits next. */
  lemma {:induction false} LeastExists(keys: set<Bytes>) returns (k: Bytes)
    requires keys != {}
    ensures IsLeast(k, keys)
  {
    var first :| first in keys;
    var rest := keys - {first};
    assert forall other :: other in keys ==> other == first || other in rest;
    if rest == {} {
      k := first;
    } else {
      var r := LeastExists(rest);
      LexTotal(first, r);
      k := if LexLess(r, first) then r else first;
      if k == first {
        forall other | other in rest ensures LexLess(first, other) {
          if other != r {
            LexTransitive(first, r, other);
          }
        }
      }
    }
  }

  lemma LeastUnique(a: Bytes, b: Bytes, keys: set<Bytes>)
    requires IsLeast(a, keys) && IsLeast(b, keys)
    ensures a == b
  {
    LexTotal(a, b);
  }

  // -------------------------------------------------------------- block heights

  function Pow10(n: nat): nat {
    if n == 0 then 1 else 10 * Pow10(n - 1)
  }

  /** The last `width` decimal digits, zero padded, as ASCII. */
  function Digits(n: nat, width: nat): (b: Bytes)
    ensures |b| == width
  {
    if width == 0 then [] else Digits(n / 10, width - 1) + [48 + n % 10]
  }

  /** "%010u" */
  function BlockKey(height: u32): Bytes {
    Digits(height, 10)
  }

  lemma {:induction false} DigitsOrder(a: nat, b: nat, width: nat)
    requires a < Pow10(width) && b < Pow10(width)
    ensures LexLess(Digits(a, width), Digits(b, width)) <==> a < b
    ensures Digits(a, width) == Digits(b, width) <==> a == b
  {
    if width > 0 {
      DigitsOrder(a / 10, b / 10, width - 1);
      var x: byte, y: byte := 48 + a % 10, 48 + b % 10;
      var p, q := Digits(a / 10, width - 1), Digits(b / 10, width - 1);
      LexLast(p, q, x, y);
      if Digits(a, width) == Digits(b, width) {
        assert (p + [x])[..width - 1] == p && (q + [y])[..width - 1] == q;
        assert (p + [x])[width - 1] == x && (q + [y])[width - 1] == y;
      }
    }
  }

  /** The number an ASCII decimal numeral stands for. */
  function ReadDecimal(b: Bytes): int {
    if b == [] then 0 else 10 * ReadDecimal(b[..|b| - 1]) + b[|b| - 1] - 48
  }

  lemma {:induction false} DigitsRead(n: nat, width: nat)
    requires n < Pow10(width)
    ensures ReadDecimal(Digits(n, width)) == n
    ensures forall i :: 0 <= i < width ==> 48 <= Digits(n, width)[i] <= 57
  {
    if width > 0 {
      DigitsRead(n / 10, width - 1);
      assert Digits(n, width)[..width - 1] == Digits(n / 10, width - 1);
    }
  }

  /** A block key is ten characters from '0' to '9' that read as the height, most significant first. */
  lemma BlockKeyReads(height: u32)
    ensures var k := BlockKey(height);
      && |k| == 10 && (forall i :: 0 <= i < 10 ==> '0' as int <= k[i] <= '9' as int)
      && ReadDecimal(k) == height
  {
    TenDigits();
    DigitsRead(height, 10);
  }

  lemma TenDigits()
    ensures Pow10(10) == 10_000_000_000
  {
    assert Pow10(3) == 1000;
    assert Pow10(6) == 1_000_000;
    assert Pow10(8) == 100_000_000;
  }

  /** Key order is height order, so the database iterates blocks by height. */
  lemma BlockKeyOrder(a: u32, b: u32)
    ensures LexLess(BlockKey(a), BlockKey(b)) <==> a < b
    ensures BlockKey(a) == BlockKey(b) <==> a == b
  {
    TenDigits();
    DigitsOrder(a, b, 10);
  }

  // ------------------------------------------------------------------ pool keys

  function HexDigit(n: nat): byte
    requires n < 16
  {
    if n < 10 then 48 + n else 87 + n
  }

  /** Two lower-case hex digits a byte. */
  function HexKey(h: Bytes): (k: Bytes)
    ensures |k| == 2 * |h|
  {
    if h == [] then [] else [HexDigit(h[0] / 16), HexDigit(h[0] % 16)] + HexKey(h[1..])
  }

  const HEX_DIGITS: string := "0123456789abcdef"

  /** Each byte is written as its high and its low hex digit. */
  lemma {:induction false} HexKeyReads(h: Bytes, i: nat)
    requires i < |h|
    ensures HexKey(h)[2 * i] == HEX_DIGITS[h[i] / 16] as int && HexKey(h)[2 * i + 1] == HEX_DIGITS[h[i] % 16] as int
  {
    if i > 0 {
      HexKeyReads(h[1..], i - 1);
      assert HexKey(h)[2..] == HexKey(h[1..]);
    }
  }

  lemma {:induction false} HexKeyInjective(a: Bytes, b: Bytes)
    ensures HexKey(a) == HexKey(b) <==> a == b
  {
    if a != [] && HexKey(a) == HexKey(b) {
      assert HexKey(a)[0] == HexKey(b)[0] && HexKey(a)[1] == HexKey(b)[1];
      assert HexKey(a)[2..] == HexKey(a[1..]) && HexKey(b)[2..] == HexKey(b[1..]);
      HexKeyInjective(a[1..], b[1..]);
      assert a == [a[0]] + a[1..] && b == [b[0]] + b[1..];
    }
  }

  // --------------------------------------------------------------------- target

  function Target(difficulty: nat): Hash {
    TargetBytes(32, difficulty)
  }

  function TargetBytes(n: nat, difficulty: nat): (t: Bytes)
    ensures |t| == n
  {
    seq(n, i => if i < difficulty then 0 else 0xff)
  }

  lemma {:induction false} BelowTarget(hash: Bytes, difficulty: nat)
    requires difficulty <= |hash|
    ensures !LexLess(TargetBytes(|hash|, difficulty), hash)
      <==> forall i :: 0 <= i < difficulty ==> hash[i] == 0
  {
    if hash != [] {
      var t := TargetBytes(|hash|, difficulty);
      var rest := if difficulty > 0 then difficulty - 1 else 0;
      assert t[1..] == TargetBytes(|hash| - 1, rest);
      BelowTarget(hash[1..], rest);
      assert forall i :: 1 <= i < difficulty ==> hash[i] == hash[1..][i - 1];
    }
  }

  /** Not above the target means exactly: the first `difficulty` bytes are zero. */
  lemma TargetExact(hash: Hash, difficulty: nat)
    requires difficulty <= 32
    ensures !LexLess(Target(difficulty), hash) <==> forall i :: 0 <= i < difficulty ==> hash[i] == 0
  {
    BelowTarget(hash, difficulty);
  }
}
