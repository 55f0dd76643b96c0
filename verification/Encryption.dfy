/** transport/framer/f1/encrypt.go: AES in cipher-feedback mode, key mixing, and the framer's key set-up. */
module Encryption {
  import opened Bytes
  import opened Stream
  import opened Arrays

  const BLOCK: nat := 16

  type Block = b: Bytes | |b| == BLOCK witness Zeros(BLOCK)

  /** The block cipher: any function of a key and a block. Nothing else is asked of it. */
  type BlockCipher = (Bytes, Block) -> Block

  /** The key sizes aes.NewCipher takes. */
  predicate ValidKey(key: Bytes) {
    |key| == 16 || |key| == 24 || |key| == 32
  }

  // ---------------------------------------------------------------- cipher feedback

  /** Cipher feedback: each block is masked by the encryption of the ciphertext block before it. */
  function CfbEncrypt(aes: BlockCipher, key: Bytes, reg: Block, plain: Bytes): (r: Bytes)
    ensures |r| == |plain|
    decreases |plain|
  {
    if |plain| < BLOCK then XorOver(plain, aes(key, reg))
    else var c := XorOver(plain[..BLOCK], aes(key, reg)); c + CfbEncrypt(aes, key, c, plain[BLOCK..])
  }

  function CfbDecrypt(aes: BlockCipher, key: Bytes, reg: Block, coded: Bytes): (r: Bytes)
    ensures |r| == |coded|
    decreases |coded|
  {
    if |coded| < BLOCK then XorOver(coded, aes(key, reg))
    else XorOver(coded[..BLOCK], aes(key, reg)) + CfbDecrypt(aes, key, coded[..BLOCK], coded[BLOCK..])
  }

  /** Decrypt undoes Encrypt for every block function and every length, whole blocks or not. */
  lemma {:induction false} CfbRoundTrip(aes: BlockCipher, key: Bytes, reg: Block, plain: Bytes)
    ensures CfbDecrypt(aes, key, reg, CfbEncrypt(aes, key, reg, plain)) == plain
    decreases |plain|
  {
    if |plain| < BLOCK {
      XorOverTwice(plain, aes(key, reg));
    } else {
      var c := XorOver(plain[..BLOCK], aes(key, reg));
      var tail := CfbEncrypt(aes, key, c, plain[BLOCK..]);
      assert (c + tail)[..BLOCK] == c && (c + tail)[BLOCK..] == tail;
      XorOverTwice(plain[..BLOCK], aes(key, reg));
      CfbRoundTrip(aes, key, c, plain[BLOCK..]);
    }
  }

  /** Output block j + 1 is plaintext block j (possibly short) under the encryption of output block j. */
  predicate ChainedAt(aes: BlockCipher, key: Bytes, out: Bytes, plain: Bytes, at: nat, n: nat)
    requires at + n <= |plain| && |out| == BLOCK + |plain|
  {
    out[BLOCK + at..BLOCK + at + n] == XorOver(plain[at..at + n], aes(key, out[at..at + BLOCK]))
  }

  /** NIST SP 800-38A, section 6.3, with the IV in front as block 0; at == 16 * j and n is the block's length. */
  lemma {:induction false} CfbMode(aes: BlockCipher, key: Bytes, iv: Block, plain: Bytes, j: nat, at: nat, n: nat)
    requires at == BLOCK * j && at + n <= |plain| && n == Min(BLOCK, |plain| - at)
    ensures ChainedAt(aes, key, iv + CfbEncrypt(aes, key, iv, plain), plain, at, n)
    decreases j
  {
    if j == 0 {
      CfbModeFirst(aes, key, iv, plain, n);
    } else {
      var c: Block, rest := XorOver(plain[..BLOCK], aes(key, iv)), plain[BLOCK..];
      CfbMode(aes, key, c, rest, j - 1, at - BLOCK, n);
      ChainedBehind(aes, key, iv, c + CfbEncrypt(aes, key, c, rest), plain, at, n);
    }
  }

  lemma CfbModeFirst(aes: BlockCipher, key: Bytes, iv: Block, plain: Bytes, n: nat)
    requires n == Min(BLOCK, |plain|)
    ensures ChainedAt(aes, key, iv + CfbEncrypt(aes, key, iv, plain), plain, 0, n)
  {
    var tail := CfbEncrypt(aes, key, iv, plain);
    assert plain[0..n] == plain[..n];
    assert tail[..n] == XorOver(plain[..n], aes(key, iv)) by {
      if |plain| < BLOCK {
        assert plain[..n] == plain;
      }
    }
    SliceBehind(iv, tail, 0, n);
    assert (iv + tail)[0..BLOCK] == iv;
  }

  lemma ChainedBehind(aes: BlockCipher, key: Bytes, iv: Block, inner: Bytes, plain: Bytes, at: nat, n: nat)
    requires BLOCK <= at && at + n <= |plain| && |inner| == |plain|
    requires ChainedAt(aes, key, inner, plain[BLOCK..], at - BLOCK, n)
    ensures ChainedAt(aes, key, iv + inner, plain, at, n)
  {
    SliceBehind(iv, inner, at, at + n);
    SliceBehind(iv, inner, at - BLOCK, at);
    SliceOfDrop(plain, BLOCK, at - BLOCK, at - BLOCK + n);
  }

  /** The inverse mode: plaintext block j from ciphertext blocks j and j + 1, counting the IV as block 0. */
  predicate InverseAt(aes: BlockCipher, key: Bytes, plain: Bytes, dat: Bytes, at: nat, n: nat)
    requires at + n <= |plain| && |dat| == BLOCK + |plain|
  {
    plain[at..at + n] == XorOver(dat[BLOCK + at..BLOCK + at + n], aes(key, dat[at..at + BLOCK]))
  }

  lemma {:induction false} CfbInverseMode(
      aes: BlockCipher, key: Bytes, iv: Block, coded: Bytes, j: nat, at: nat, n: nat)
    requires at == BLOCK * j && at + n <= |coded| && n == Min(BLOCK, |coded| - at)
    ensures InverseAt(aes, key, CfbDecrypt(aes, key, iv, coded), iv + coded, at, n)
    decreases j
  {
    if j == 0 {
      CfbInverseFirst(aes, key, iv, coded, n);
    } else {
      var c: Block, rest := coded[..BLOCK], coded[BLOCK..];
      CfbInverseMode(aes, key, c, rest, j - 1, at - BLOCK, n);
      assert c + rest == coded;
      SliceBehind(iv, coded, at, at + n);
      SliceBehind(iv, coded, at - BLOCK, at);
      SliceBehind(XorOver(c, aes(key, iv)), CfbDecrypt(aes, key, c, rest), at - BLOCK, at - BLOCK + n);
    }
  }

  lemma CfbInverseFirst(aes: BlockCipher, key: Bytes, iv: Block, coded: Bytes, n: nat)
    requires n == Min(BLOCK, |coded|)
    ensures InverseAt(aes, key, CfbDecrypt(aes, key, iv, coded), iv + coded, 0, n)
  {
    var plain := CfbDecrypt(aes, key, iv, coded);
    assert plain[0..n] == XorOver(coded[..n], aes(key, iv)) by {
      if |coded| < BLOCK {
        assert coded[..n] == coded;
      }
    }
    SliceBehind(iv, coded, 0, n);
    assert coded[0..n] == coded[..n];
    assert (iv + coded)[0..BLOCK] == iv;
  }

  /** encrypt.go's Encrypt: a random IV, then the message in cipher-feedback mode. */
  function Sealed(aes: BlockCipher, key: Bytes, iv: Block, dat: Bytes): (r: Bytes)
    ensures |r| == BLOCK + |dat|
  {
    iv + CfbEncrypt(aes, key, iv, dat)
  }

  /** encrypt.go's Decrypt. Slicing off an IV that is not there panics. */
  function Opened(aes: BlockCipher, key: Bytes, dat: Bytes): Result<Bytes> {
    if !ValidKey(key) then Err(BadKey)
    else if |dat| < BLOCK then Err(Panic("slice bounds out of range"))
    else Ok(CfbDecrypt(aes, key, dat[..BLOCK], dat[BLOCK..]))
  }

  lemma OpenedSealed(aes: BlockCipher, key: Bytes, iv: Block, dat: Bytes)
    requires ValidKey(key)
    ensures Opened(aes, key, Sealed(aes, key, iv, dat)) == Ok(dat)
  {
    var s := Sealed(aes, key, iv, dat);
    assert s[..BLOCK] == iv && s[BLOCK..] == CfbEncrypt(aes, key, iv, dat);
    CfbRoundTrip(aes, key, iv, dat);
  }

  method Encrypt(aes: BlockCipher, key: Bytes, iv: Block, dat: Bytes) returns (r: Result<Bytes>)
    ensures r == if ValidKey(key) then Ok(Sealed(aes, key, iv, dat)) else Err(BadKey)
  {
    if !ValidKey(key) {
      return Err(BadKey);
    }
    ghost var out := Sealed(aes, key, iv, dat);
    var text := new byte[BLOCK + |dat|](i requires 0 <= i => if i < BLOCK then iv[i] else 0);
    assert text[..BLOCK] == iv == out[..BLOCK];
    var pos := 0;
    ghost var j := 0;
    while pos < |dat|
      invariant pos == BLOCK * j || pos == |dat|
      invariant pos <= |dat| && text[..BLOCK + pos] == out[..BLOCK + pos]
    {
      var n := Min(BLOCK, |dat| - pos);
      var reg := text[pos..pos + BLOCK];
      var piece := XorOver(dat[pos..pos + n], aes(key, reg));
      CfbMode(aes, key, iv, dat, j, pos, n);
      OnePieceMore(aes, key, text[..BLOCK + pos], reg, out, dat, pos, n);
      Put(text, BLOCK + pos, piece);
      pos, j := pos + n, j + 1;
    }
    assert text[..] == out;
    r := Ok(text[..]);
  }

  lemma OnePieceMore(
      aes: BlockCipher, key: Bytes, done: Bytes, reg: Bytes, out: Bytes, plain: Bytes, at: nat, n: nat)
    requires at + n <= |plain| && |out| == BLOCK + |plain|
    requires |reg| == BLOCK && |done| == BLOCK + at && done[at..] == reg
    requires done == out[..BLOCK + at]
    requires ChainedAt(aes, key, out, plain, at, n)
    ensures done + XorOver(plain[at..at + n], aes(key, reg)) == out[..BLOCK + at + n]
  {
    assert reg == out[at..at + BLOCK];
    assert out[..BLOCK + at + n] == out[..BLOCK + at] + out[BLOCK + at..BLOCK + at + n];
  }

  lemma OnePieceLess(aes: BlockCipher, key: Bytes, dat: Bytes, j: nat, at: nat, n: nat)
    requires BLOCK <= |dat| && at == BLOCK * j && BLOCK + at + n <= |dat| && n == Min(BLOCK, |dat| - BLOCK - at)
    ensures var out := CfbDecrypt(aes, key, dat[..BLOCK], dat[BLOCK..]);
            out[..at + n] == out[..at] + XorOver(dat[BLOCK + at..BLOCK + at + n], aes(key, dat[at..at + BLOCK]))
  {
    var iv: Block, coded := dat[..BLOCK], dat[BLOCK..];
    var out := CfbDecrypt(aes, key, iv, coded);
    assert iv + coded == dat;
    CfbInverseMode(aes, key, iv, coded, j, at, n);
    assert out[..at + n] == out[..at] + out[at..at + n];
  }

  method Decrypt(aes: BlockCipher, key: Bytes, dat: Bytes) returns (r: Result<Bytes>)
    ensures r == Opened(aes, key, dat)
  {
    if !ValidKey(key) {
      return Err(BadKey);
    }
    if |dat| < BLOCK {
      return Err(Panic("slice bounds out of range"));
    }
    ghost var out := CfbDecrypt(aes, key, dat[..BLOCK], dat[BLOCK..]);
    var size := |dat| - BLOCK;
    var plain := new byte[size];
    var pos := 0;
    ghost var j := 0;
    while pos < size
      invariant pos == BLOCK * j || pos == size
      invariant pos <= size && plain[..pos] == out[..pos]
    {
      var n := Min(BLOCK, size - pos);
      var piece := XorOver(dat[BLOCK + pos..BLOCK + pos + n], aes(key, dat[pos..pos + BLOCK]));
      OnePieceLess(aes, key, dat, j, pos, n);
      Put(plain, pos, piece);
      pos, j := pos + n, j + 1;
    }
    assert plain[..] == out;
    r := Ok(plain[..]);
  }

  // ---------------------------------------------------------------- key mixing

  /** The shorter string laid over the beginning of the longer one by exclusive-or. */
  function Mixed(x: Bytes, y: Bytes): (r: Bytes)
    ensures |r| == if |x| < |y| then |y| else |x|
  {
    if |x| < |y| then XorOver(y, x) else XorOver(x, y)
  }

  /** The two ends may mix their halves in either order. */
  lemma MixedCommutes(x: Bytes, y: Bytes)
    ensures Mixed(x, y) == Mixed(y, x)
  {
    forall i | 0 <= i < |x| && i < |y| ensures XorByte(x[i], y[i]) == XorByte(y[i], x[i]) {
      XorByteLaws(x[i], y[i]);
    }
  }

  /** Byte by byte: both strings where both have one, the longer one behind. */
  lemma MixedAt(x: Bytes, y: Bytes, i: nat)
    requires i < |x| || i < |y|
    ensures Mixed(x, y)[i] == if i < |x| && i < |y| then XorByte(x[i], y[i]) else if i < |x| then x[i] else y[i]
  {
    if i < |x| && i < |y| {
      XorByteLaws(x[i], y[i]);
    }
  }

  method Xor(x: Bytes, y: Bytes) returns (r: Bytes)
    ensures r == Mixed(x, y)
  {
    var first, second := if |x| < |y| then x else y, if |x| < |y| then y else x;
    var all := first + second;
    var j := |first|;
    var rs := new byte[|all|](i requires 0 <= i < |all| => all[i]);
    assert rs[..] == all;
    for i := 0 to j
      invariant rs[..j] == first && rs[j..] == XorOver(second, first[..i])
    {
      OneByteMore(second, first, i);
      assert rs[i] == rs[..j][i] && rs[j + i] == rs[j..][i];
      ghost var before := rs[j..];
      rs[j + i] := XorByte(rs[i], rs[j + i]);
      assert rs[j..] == before[i := rs[j + i]];
    }
    assert first[..j] == first;
    r := rs[j..];
  }

  lemma OneByteMore(a: Bytes, b: Bytes, i: nat)
    requires i < |b| <= |a|
    ensures XorOver(a, b[..i])[i] == a[i]
    ensures XorOver(a, b[..i + 1]) == XorOver(a, b[..i])[i := XorByte(b[i], a[i])]
  {
    XorByteLaws(a[i], b[i]);
  }

  // ---------------------------------------------------------------- the framer's key

  /** Byte i of the key repeated for ever. */
  function Cyclic(psk: Bytes, i: nat): byte
    requires psk != []
  {
    if i < |psk| then psk[i] else Cyclic(psk, i - |psk|)
  }

  lemma {:induction false} CyclicIsModulo(psk: Bytes, i: nat)
    requires psk != []
    ensures Cyclic(psk, i) == psk[i % |psk|]
  {
    if i >= |psk| {
      CyclicIsModulo(psk, i - |psk|);
      OneRoundBack(i, |psk|);
    }
  }

  lemma OneRoundBack(i: nat, d: nat)
    requires 0 < d <= i
    ensures (i - d) % d == i % d
  {
    var q, r := i / d, i % d;
    assert i == d * q + r;
    assert i - d == d * (q - 1) + r;
    Remainder(i - d, d, q - 1, r);
  }

  /** The configured key cut or cyclically stretched to 16 bytes. */
  function Stretched(psk: Bytes): Block
    requires psk != []
  {
    seq(BLOCK, i requires 0 <= i < BLOCK => Cyclic(psk, i))
  }

  lemma StretchedAt(psk: Bytes, i: nat)
    requires psk != [] && i < BLOCK
    ensures Stretched(psk)[i] == psk[i % |psk|]
  {
    CyclicIsModulo(psk, i);
  }

  /** The framer's key: the stretched key with the timestamp over its first 8 bytes. */
  function FrameKey(psk: Bytes, ts: nat): Block
    requires psk != []
  {
    XorOver(Stretched(psk), PutBE(8, ts))
  }

  /** A round of the key starts at i. */
  predicate RoundAt(psk: Bytes, i: nat)
    requires psk != []
  {
    forall m :: 0 <= m < |psk| ==> Cyclic(psk, i + m) == psk[m]
  }

  lemma NextRound(psk: Bytes, i: nat)
    requires psk != [] && RoundAt(psk, i)
    ensures RoundAt(psk, i + |psk|)
  {
    forall m | 0 <= m < |psk| ensures Cyclic(psk, i + |psk| + m) == psk[m] {
      assert Cyclic(psk, i + m) == psk[m];
      assert i + |psk| + m - |psk| == i + m;
    }
  }

  lemma OneRoundMore(psk: Bytes, i: nat, n: nat)
    requires psk != [] && RoundAt(psk, i) && n <= |psk| && i + n <= BLOCK
    ensures Stretched(psk)[..i + n] == Stretched(psk)[..i] + psk[..n]
  {
    forall m | 0 <= m < n ensures Stretched(psk)[i + m] == psk[m] {
    }
  }

  /** The stretching loop shared by f1.Framer and ws.Framer. */
  method Stretch(psk: Bytes) returns (k: array<byte>)
    requires psk != []
    ensures fresh(k) && k[..] == Stretched(psk)
  {
    k := new byte[BLOCK];
    var i := 0;
    while i < BLOCK
      invariant k.Length == BLOCK && RoundAt(psk, i)
      invariant k[..Min(i, BLOCK)] == Stretched(psk)[..Min(i, BLOCK)]
      decreases BLOCK - i
    {
      var n := Min(|psk|, BLOCK - i);
      Put(k, i, psk[..n]);
      OneRoundMore(psk, i, n);
      NextRound(psk, i);
      i := i + |psk|;
    }
    assert k[..] == k[..BLOCK];
  }

  /** The key set-up shared by f1.Framer and ws.Framer; an empty key panics. */
  method SetUpKey(psk: Bytes, ts: nat) returns (r: Result<Bytes>)
    ensures r == if psk == [] then Err(Panic("empty PSK.")) else Ok(FrameKey(psk, ts))
  {
    if psk == [] {
      return Err(Panic("empty PSK."));
    }
    var k := Stretch(psk);
    ghost var base := k[..];
    var tsBytes := PutBE(8, ts);
    for i := 0 to 8
      invariant forall m :: 0 <= m < i ==> k[m] == XorByte(base[m], tsBytes[m])
      invariant forall m :: i <= m < BLOCK ==> k[m] == base[m]
    {
      k[i] := XorByte(k[i], tsBytes[i]);
    }
    assert k[..] == XorOver(base, tsBytes);
    r := Ok(k[..]);
  }
}
