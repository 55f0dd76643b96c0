/** Bytes, big-endian fields and bytewise exclusive-or: the vocabulary every layer of the stack shares. */
module Bytes {
  type byte = x: int | 0 <= x < 256
  type Bytes = seq<byte>

  function Min(a: nat, b: nat): nat {
    if a < b then a else b
  }

  function Zeros(n: nat): (r: Bytes)
    ensures |r| == n
  {
    seq(n, _ => 0)
  }

  // ---------------------------------------------------------------- concatenation

  function Concat(parts: seq<Bytes>): Bytes {
    if parts == [] then [] else parts[0] + Concat(parts[1..])
  }

  lemma {:induction false} ConcatAppend(a: seq<Bytes>, b: seq<Bytes>)
    ensures Concat(a + b) == Concat(a) + Concat(b)
  {
    if a == [] {
      assert a + b == b;
    } else {
      assert (a + b)[1..] == a[1..] + b;
      ConcatAppend(a[1..], b);
    }
  }

  // ---------------------------------------------------------------- slices

  lemma Cut(a: Bytes, b: Bytes)
    ensures (a + b)[..|a|] == a && (a + b)[|a|..] == b
  {
  }

  lemma Assoc(a: Bytes, b: Bytes, c: Bytes)
    ensures (a + b) + c == a + (b + c)
  {
  }

  lemma SliceOfDrop(s: Bytes, k: nat, a: nat, b: nat)
    requires k + a <= k + b <= |s|
    ensures s[k..][a..b] == s[k + a..k + b]
  {
  }

  lemma SliceBehind(front: Bytes, s: Bytes, a: nat, b: nat)
    requires a <= b <= |s|
    ensures (front + s)[|front| + a..|front| + b] == s[a..b]
  {
  }

  // ---------------------------------------------------------------- division

  lemma Remainder(n: nat, d: nat, q: int, r: nat)
    requires r < d && n == d * q + r
    ensures n % d == r && n / d == q
  {
    var t := n / d - q;
    assert n == d * (n / d) + n % d;
    assert d * t == d * (n / d) - d * q;
    NoMultipleBetween(d, t);
  }

  lemma NoMultipleBetween(d: nat, t: int)
    requires d * t < d && d + d * t > 0
    ensures t == 0
  {
    Multiples(d, if t < 0 then 0 - t else t);
  }

  lemma {:induction false} Multiples(d: nat, t: nat)
    ensures t == 0 || d * t >= d
  {
    if t > 1 {
      Multiples(d, t - 1);
    }
  }

  lemma Regroup(a: nat, b: nat, q: nat, r: nat)
    ensures a * (b * q + r) == (a * b) * q + a * r
  {
    assert a * (b * q + r) == a * (b * q) + a * r;
  }

  lemma BelowProduct(a: nat, b: nat, r: nat, s: nat)
    requires s < a && r < b
    ensures a * r + s < a * b
  {
    Multiples(a, b - r);
    assert a * (b - r) == a * b - a * r;
  }

  lemma DivMod(v: nat, d: nat)
    requires d > 0
    ensures v == d * (v / d) + v % d && v % d < d
  {
  }

  lemma ProductQuotient(v: nat, a: nat, b: nat, q: nat, r: nat, s: nat)
    requires v == a * (b * q + r) + s && s < a && r < b
    ensures a * b > 0 && v / (a * b) == q
  {
    var d, low := a * b, a * r + s;
    BelowProduct(a, b, r, s);
    Regroup(a, b, q, r);
    assert v == d * q + low;
    Remainder(v, d, q, low);
  }

  lemma QuotientTwice(v: nat, a: nat, b: nat)
    requires a > 0 && b > 0
    ensures a * b > 0 && v / (a * b) == (v / a) / b
  {
    DivMod(v, a);
    DivMod(v / a, b);
    ProductQuotient(v, a, b, (v / a) / b, (v / a) % b, v % a);
  }

  // ---------------------------------------------------------------- big-endian fields

  /** 256 to the n-th power. */
  function Pow256(n: nat): nat {
    if n == 0 then 1 else 256 * Pow256(n - 1)
  }

  /** The low n bytes of v, most significant first (binary.BigEndian.PutUint16/32/64). */
  function PutBE(n: nat, v: nat): (r: Bytes)
    ensures |r| == n
  {
    if n == 0 then [] else PutBE(n - 1, v / 256) + [v % 256]
  }

  /** The number a byte string spells, most significant first. */
  function GetBE(b: Bytes): nat {
    if b == [] then 0 else var low: int := b[|b| - 1]; 256 * GetBE(b[..|b| - 1]) + low
  }

  lemma {:induction false} GetPutBE(n: nat, v: nat)
    requires v < Pow256(n)
    ensures GetBE(PutBE(n, v)) == v
  {
    if n > 0 {
      GetPutBE(n - 1, v / 256);
      assert PutBE(n, v)[..n - 1] == PutBE(n - 1, v / 256);
    }
  }

  lemma {:induction false} PutGetBE(b: Bytes)
    ensures GetBE(b) < Pow256(|b|)
    ensures PutBE(|b|, GetBE(b)) == b
  {
    if b != [] {
      var front := b[..|b| - 1];
      PutGetBE(front);
      assert b == front + [b[|b| - 1]];
    }
  }

  lemma {:induction false} Pow256Positive(n: nat)
    ensures Pow256(n) > 0
  {
    if n > 0 {
      Pow256Positive(n - 1);
    }
  }

  /** Big-endian: byte i counts the 256 to the (n - 1 - i)s of the number. */
  lemma {:induction false} PutBEDigit(n: nat, v: nat, i: nat)
    requires i < n
    ensures Pow256(n - 1 - i) > 0 && PutBE(n, v)[i] == v / Pow256(n - 1 - i) % 256
  {
    Pow256Positive(n - 1 - i);
    if i < n - 1 {
      PutBEDigit(n - 1, v / 256, i);
      QuotientTwice(v, 256, Pow256(n - 2 - i));
    }
  }

  const U16: nat := 0x1_0000
  const U32: nat := 0x1_0000_0000

  lemma PowersOf256()
    ensures Pow256(2) == U16 && Pow256(4) == U32
  {
    assert Pow256(2) == 256 * Pow256(1);
    assert Pow256(3) == 256 * Pow256(2);
  }

  /** uint32(v) written big-endian: the conversion truncates. */
  function Put32(v: nat): (r: Bytes)
    ensures |r| == 4
  {
    PutBE(4, v % U32)
  }

  lemma GetPut32(v: nat)
    ensures GetBE(Put32(v)) == v % U32
  {
    PowersOf256();
    GetPutBE(4, v % U32);
  }

  lemma GetPut32Small(v: nat)
    requires v < U32
    ensures GetBE(Put32(v)) == v
  {
    GetPut32(v);
  }

  lemma Get32Bound(b: Bytes)
    requires |b| == 4
    ensures GetBE(b) < U32 && Put32(GetBE(b)) == b
  {
    PutGetBE(b);
    PowersOf256();
  }

  // ---------------------------------------------------------------- exclusive-or

  /** Exclusive-or of two w-bit numbers, bit by bit. */
  function XorBits(w: nat, a: nat, b: nat): nat {
    if w == 0 then 0 else (if a % 2 == b % 2 then 0 else 1) + 2 * XorBits(w - 1, a / 2, b / 2)
  }

  function Pow2(w: nat): nat {
    if w == 0 then 1 else 2 * Pow2(w - 1)
  }

  lemma {:induction false} XorBitsFit(w: nat, a: nat, b: nat)
    requires a < Pow2(w) && b < Pow2(w)
    ensures XorBits(w, a, b) < Pow2(w)
    ensures XorBits(w, a, b) == XorBits(w, b, a)
  {
    if w > 0 {
      XorBitsFit(w - 1, a / 2, b / 2);
    }
  }

  lemma {:induction false} XorBitsCancel(w: nat, a: nat, b: nat)
    requires a < Pow2(w) && b < Pow2(w)
    ensures XorBits(w, XorBits(w, a, b), b) == a
  {
    if w > 0 {
      XorBitsCancel(w - 1, a / 2, b / 2);
      var bit, high := if a % 2 == b % 2 then 0 else 1, XorBits(w - 1, a / 2, b / 2);
      HalvesOf(bit, high);
    }
  }

  predicate Bit(v: nat, k: nat) {
    Pow2Positive(k);
    v / Pow2(k) % 2 == 1
  }

  lemma {:induction false} Pow2Positive(k: nat)
    ensures Pow2(k) > 0
  {
    if k > 0 {
      Pow2Positive(k - 1);
    }
  }

  lemma BitOfHalf(v: nat, k: nat)
    requires k > 0
    ensures Bit(v, k) == Bit(v / 2, k - 1)
  {
    Pow2Positive(k - 1);
    QuotientTwice(v, 2, Pow2(k - 1));
  }

  lemma XorBitsSplit(w: nat, a: nat, b: nat)
    requires w > 0
    ensures XorBits(w, a, b) / 2 == XorBits(w - 1, a / 2, b / 2)
    ensures XorBits(w, a, b) % 2 == if a % 2 == b % 2 then 0 else 1
  {
    HalvesOf(if a % 2 == b % 2 then 0 else 1, XorBits(w - 1, a / 2, b / 2));
  }

  lemma LowBit(v: nat)
    ensures Bit(v, 0) <==> v % 2 == 1
  {
  }

  /** A bit of the result is set exactly when the two bits differ. */
  lemma {:induction false} XorBitsDiffer(w: nat, a: nat, b: nat, k: nat)
    requires k < w
    ensures Bit(XorBits(w, a, b), k) <==> Bit(a, k) != Bit(b, k)
  {
    var x := XorBits(w, a, b);
    XorBitsSplit(w, a, b);
    if k == 0 {
      LowBit(x);
      LowBit(a);
      LowBit(b);
    } else {
      XorBitsDiffer(w - 1, a / 2, b / 2, k - 1);
      BitOfHalf(x, k);
      BitOfHalf(a, k);
      BitOfHalf(b, k);
    }
  }

  lemma {:induction false} XorBitsWithNothing(w: nat, a: nat)
    requires a < Pow2(w)
    ensures XorBits(w, a, 0) == a && XorBits(w, a, a) == 0
  {
    if w > 0 {
      XorBitsWithNothing(w - 1, a / 2);
    }
  }

  lemma HalvesOf(bit: nat, high: nat)
    requires bit < 2
    ensures (bit + 2 * high) / 2 == high && (bit + 2 * high) % 2 == bit
  {
  }

  lemma ByteIsEightBits()
    ensures Pow2(8) == 256
  {
    assert Pow2(4) == 16;
  }

  function XorByte(a: byte, b: byte): byte {
    ByteIsEightBits();
    XorBitsFit(8, a, b);
    XorBits(8, a, b)
  }

  /** Exclusive-or is commutative and undoes itself. */
  lemma XorByteLaws(a: byte, b: byte)
    ensures XorByte(a, b) == XorByte(b, a)
    ensures XorByte(XorByte(a, b), b) == a
  {
    ByteIsEightBits();
    XorBitsFit(8, a, b);
    XorBitsCancel(8, a, b);
  }

  /** What exclusive-or is: each of the eight bits is set exactly when it is set in one of the two bytes. */
  lemma XorByteBits(a: byte, b: byte, k: nat)
    requires k < 8
    ensures Pow2(k) > 0 && (XorByte(a, b) / Pow2(k) % 2 == 1 <==> a / Pow2(k) % 2 != b / Pow2(k) % 2)
  {
    Pow2Positive(k);
    XorBitsDiffer(8, a, b, k);
  }

  lemma XorByteWithNothing(a: byte)
    ensures XorByte(a, 0) == a && XorByte(a, a) == 0
  {
    ByteIsEightBits();
    XorBitsWithNothing(8, a);
  }

  /** a with b laid over its beginning by exclusive-or; b may be shorter or longer than a. */
  function XorOver(a: Bytes, b: Bytes): (r: Bytes)
    ensures |r| == |a|
  {
    seq(|a|, i requires 0 <= i < |a| => if i < |b| then XorByte(a[i], b[i]) else a[i])
  }

  lemma XorOverTwice(a: Bytes, b: Bytes)
    ensures XorOver(XorOver(a, b), b) == a
  {
    forall i | 0 <= i < |a| && i < |b| ensures XorByte(XorByte(a[i], b[i]), b[i]) == a[i] {
      XorByteLaws(a[i], b[i]);
    }
  }

  /** Bit for bit: where b lies over a their bits differ or not, behind it a stays. */
  lemma XorOverBits(a: Bytes, b: Bytes, i: nat, k: nat)
    requires i < |a| && k < 8
    ensures Pow2(k) > 0
    ensures XorOver(a, b)[i] / Pow2(k) % 2 == 1 <==> if i < |b| then a[i] / Pow2(k) % 2 != b[i] / Pow2(k) % 2
                                                     else a[i] / Pow2(k) % 2 == 1
  {
    Pow2Positive(k);
    if i < |b| {
      XorByteBits(a[i], b[i], k);
    }
  }
}
