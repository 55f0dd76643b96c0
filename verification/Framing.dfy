/** The frame formats of transport/framer/f1 and transport/framer/ws as functions on byte strings. */
module Framing {
  import opened Bytes
  import opened Stream
  import opened Encryption
  import opened FrameStream

  /** A framer at one end of a connection; `masking` is the WebSocket client role. */
  datatype Framer =
    | F1Framer(aes: BlockCipher, key: Bytes)
    | WsFramer(aes: BlockCipher, key: Bytes, masking: bool)

  /** The framer the other end must run. */
  function Peer(f: Framer): Framer {
    match f
    case F1Framer(_, _) => f
    case WsFramer(_, _, masking) => f.(masking := !masking)
  }

  // ---------------------------------------------------------------- writing

  /** The random choices of one Write. */
  datatype Choice = Choice(pad: Bytes, iv: Block, mask: Bytes)

  /** Short messages get 2 to 255 bytes of padding, others exactly 2; a WebSocket client picks a 4-byte mask. */
  predicate Allowed(f: Framer, dat: Bytes, c: Choice) {
    match f
    case F1Framer(_, _) => if |dat| < 256 then 2 <= |c.pad| <= 255 else |c.pad| == 2
    case WsFramer(_, _, masking) => masking ==> |c.mask| == 4
  }

  function F1Header(size: nat, pad: nat): (r: Bytes)
    ensures |r| == 10 && r[2..6] == Put32(size) && r[6..10] == Put32(pad)
  {
    [0, 0] + Put32(size) + Put32(pad)
  }

  function F1Frame(aes: BlockCipher, key: Bytes, dat: Bytes, pad: Bytes, iv: Block): Bytes {
    F1Header(BLOCK + |dat| + |pad|, |pad|) + Sealed(aes, key, iv, dat + pad)
  }

  /** The mask is repeated over the whole payload (RFC 6455, section 5.3). */
  function Masked(b: Bytes, mask: Bytes): (r: Bytes)
    requires |mask| == 4
    ensures |r| == |b|
  {
    seq(|b|, i requires 0 <= i < |b| => XorByte(b[i], mask[i % 4]))
  }

  lemma MaskedTwice(b: Bytes, mask: Bytes)
    requires |mask| == 4
    ensures Masked(Masked(b, mask), mask) == b
  {
    forall i | 0 <= i < |b| ensures XorByte(XorByte(b[i], mask[i % 4]), mask[i % 4]) == b[i] {
      XorByteLaws(b[i], mask[i % 4]);
    }
  }

  /** The size of the extended payload length that ws.Write emits. */
  function ExtraSize(size: nat): nat {
    if size <= 125 then 0 else if size < U16 then 2 else 8
  }

  /** The 7-bit payload length: the size itself, or the announcement of a longer field. */
  function BaseLength(size: nat): (r: nat)
    ensures r < 128
  {
    if size <= 125 then size else if size < U16 then 126 else 127
  }

  /** The second header byte: the role's mask bit and the 7-bit length. */
  function WsSecondByte(size: nat, masking: bool): (r: byte)
    ensures r % 128 == BaseLength(size) && (r >= 128 <==> masking)
  {
    if masking then 128 + BaseLength(size) else BaseLength(size)
  }

  function WsFrame(aes: BlockCipher, key: Bytes, masking: bool, dat: Bytes, iv: Block, mask: Bytes): Bytes
    requires masking ==> |mask| == 4
  {
    var sealed := Sealed(aes, key, iv, dat);
    [0x82, WsSecondByte(|sealed|, masking)] + (PutBE(ExtraSize(|sealed|), |sealed|) + WsPayload(masking, sealed, mask))
  }

  function WsPayload(masking: bool, sealed: Bytes, mask: Bytes): Bytes
    requires masking ==> |mask| == 4
  {
    if masking then mask + Masked(sealed, mask) else sealed
  }

  function Encode(f: Framer, dat: Bytes, c: Choice): Bytes
    requires Allowed(f, dat, c)
  {
    match f
    case F1Framer(aes, key) => F1Frame(aes, key, dat, c.pad, c.iv)
    case WsFramer(aes, key, masking) => WsFrame(aes, key, masking, dat, c.iv, c.mask)
  }

  // ---------------------------------------------------------------- reading one frame

  /** After the header: the sealed text of the announced size, and the padding cut off. */
  function F1Body(aes: BlockCipher, key: Bytes, size: nat, pad: nat, s: Bytes): Frame {
    if |s| < size then Stopped(TooShort(s), [])
    else match Opened(aes, key, s[..size])
      case Err(e) => Stopped(e, s[size..])
      case Ok(chunk) =>
        if |chunk| < pad then Stopped(Panic("slice bounds out of range"), s[size..])
        else Frame(chunk[..|chunk| - pad], s[size..])
  }

  function F1Next(aes: BlockCipher, key: Bytes, s: Bytes): Frame {
    if |s| < 10 then Stopped(TooShort(s), []) else F1Body(aes, key, GetBE(s[2..6]), GetBE(s[6..10]), s[10..])
  }

  const I64: nat := 0x8000_0000_0000_0000

  /** After the payload length: masking key and payload. */
  function WsPayloadNext(aes: BlockCipher, key: Bytes, masked: bool, size: nat, s: Bytes): Frame {
    var maskSize := if masked then 4 else 0;
    if |s| < maskSize then Stopped(TooShort(s), [])
    else
      var body := s[maskSize..];
      if size >= I64 then Stopped(Panic("makeslice: len out of range"), body)
      else if |body| < size then Stopped(TooShort(body), [])
      else match Opened(aes, key, if masked then Masked(body[..size], s[..4]) else body[..size])
        case Err(e) => Stopped(e, body[size..])
        case Ok(chunk) => Frame(chunk, body[size..])
  }

  /** After the two fixed header bytes: a base of 126 or 127 announces 2 or 8 bytes of extended length. */
  function WsBody(aes: BlockCipher, key: Bytes, masking: bool, masked: bool, base: nat, s: Bytes): Frame {
    var extra := if base < 126 then 0 else if base == 126 then 2 else 8;
    if |s| < extra then Stopped(TooShort(s), [])
    else if masked == masking then Stopped(Malformed("mask error in receiving frame."), s[extra..])
    else WsPayloadNext(aes, key, masked, if extra == 0 then base else GetBE(s[..extra]), s[extra..])
  }

  function WsNext(aes: BlockCipher, key: Bytes, masking: bool, s: Bytes): Frame {
    if |s| < 2 then Stopped(TooShort(s), [])
    else if s[0] < 128 || s[0] % 16 != 2 then Stopped(EOF, s[2..])
    else WsBody(aes, key, masking, s[1] >= 128, s[1] % 128, s[2..])
  }

  /** The frame at the head of s, as the framer's Read meets it. */
  function Next(f: Framer, s: Bytes): Frame {
    match f
    case F1Framer(aes, key) => F1Next(aes, key, s)
    case WsFramer(aes, key, masking) => WsNext(aes, key, masking, s)
  }

  lemma F1Shrinks(aes: BlockCipher, key: Bytes, s: Bytes)
    requires F1Next(aes, key, s).Frame?
    ensures |F1Next(aes, key, s).payload| + |F1Next(aes, key, s).rest| < |s|
  {
  }

  lemma WsPayloadShrinks(aes: BlockCipher, key: Bytes, masked: bool, size: nat, s: Bytes)
    requires WsPayloadNext(aes, key, masked, size, s).Frame?
    ensures var r := WsPayloadNext(aes, key, masked, size, s); |r.payload| + |r.rest| <= |s|
  {
  }

  lemma WsBodyShrinks(aes: BlockCipher, key: Bytes, masking: bool, masked: bool, base: nat, s: Bytes)
    requires WsBody(aes, key, masking, masked, base, s).Frame?
    ensures var r := WsBody(aes, key, masking, masked, base, s); |r.payload| + |r.rest| <= |s|
  {
    var extra := if base < 126 then 0 else if base == 126 then 2 else 8;
    WsPayloadShrinks(aes, key, masked, if extra == 0 then base else GetBE(s[..extra]), s[extra..]);
  }

  /** A complete frame takes up more bytes than it carries. */
  lemma NextShrinks(f: Framer, s: Bytes)
    requires Next(f, s).Frame?
    ensures |Next(f, s).payload| + |Next(f, s).rest| < |s|
  {
    match f
    case F1Framer(aes, key) => F1Shrinks(aes, key, s);
    case WsFramer(aes, key, masking) => WsBodyShrinks(aes, key, masking, s[1] >= 128, s[1] % 128, s[2..]);
  }

  // ---------------------------------------------------------------- a frame round-trips

  /** The size fields hold the frame: 32 bits for f1, 63 for ws. */
  predicate Fits(f: Framer, dat: Bytes, c: Choice) {
    match f
    case F1Framer(_, _) => BLOCK + |dat| + |c.pad| < U32
    case WsFramer(_, _, _) => BLOCK + |dat| < I64
  }

  lemma F1FrameParts(size: nat, pad: nat, sealed: Bytes, more: Bytes)
    ensures var s := F1Header(size, pad) + sealed + more;
            |s| >= 10 && s[2..6] == Put32(size) && s[6..10] == Put32(pad) && s[10..] == sealed + more
  {
    var h := F1Header(size, pad);
    var s := h + sealed + more;
    assert s[2..6] == h[2..6] && s[6..10] == h[6..10];
  }

  lemma F1NextIs(aes: BlockCipher, key: Bytes, s: Bytes, sealed: Bytes, dat: Bytes, pad: Bytes, more: Bytes)
    requires |s| >= 10 && s[10..] == sealed + more
    requires GetBE(s[2..6]) == |sealed| && GetBE(s[6..10]) == |pad|
    requires Opened(aes, key, sealed) == Ok(dat + pad)
    ensures F1Next(aes, key, s) == Frame(dat, more)
  {
    Cut(sealed, more);
    Cut(dat, pad);
  }

  lemma F1RoundTrip(aes: BlockCipher, key: Bytes, dat: Bytes, pad: Bytes, iv: Block, more: Bytes)
    requires ValidKey(key) && BLOCK + |dat| + |pad| < U32
    ensures F1Next(aes, key, F1Frame(aes, key, dat, pad, iv) + more) == Frame(dat, more)
  {
    var sealed := Sealed(aes, key, iv, dat + pad);
    OpenedSealed(aes, key, iv, dat + pad);
    F1FrameParts(|sealed|, |pad|, sealed, more);
    GetPut32Small(|sealed|);
    GetPut32Small(|pad|);
    F1NextIs(aes, key, F1Frame(aes, key, dat, pad, iv) + more, sealed, dat, pad, more);
  }

  /** The f1 size field is exactly what limits a frame: a longer one never comes back whole. */
  lemma F1RoundTripExactly(aes: BlockCipher, key: Bytes, dat: Bytes, pad: Bytes, iv: Block, more: Bytes)
    requires ValidKey(key)
    ensures F1Next(aes, key, F1Frame(aes, key, dat, pad, iv) + more) == Frame(dat, more)
       <==> BLOCK + |dat| + |pad| < U32
  {
    var n := BLOCK + |dat| + |pad|;
    if n < U32 {
      F1RoundTrip(aes, key, dat, pad, iv, more);
    } else {
      F1FrameParts(n, |pad|, Sealed(aes, key, iv, dat + pad), more);
      GetPut32(n);
    }
  }

  lemma WsLength(size: nat)
    requires size < I64
    ensures ExtraSize(size) > 0 ==> GetBE(PutBE(ExtraSize(size), size)) == size
  {
    PowersOf256();
    Pow256Eight();
    if ExtraSize(size) > 0 {
      GetPutBE(ExtraSize(size), size);
    }
  }

  lemma Pow256Eight()
    ensures Pow256(8) == 0x1_0000_0000_0000_0000
  {
    PowersOf256();
    assert Pow256(5) == 256 * Pow256(4);
    assert Pow256(6) == 256 * Pow256(5);
    assert Pow256(7) == 256 * Pow256(6);
  }

  lemma WsPayloadIs(aes: BlockCipher, key: Bytes, masking: bool, sealed: Bytes, mask: Bytes, more: Bytes)
    requires masking ==> |mask| == 4
    ensures var t, maskSize := WsPayload(masking, sealed, mask) + more, if masking then 4 else 0;
            |t| >= maskSize && |t[maskSize..]| >= |sealed| && t[maskSize..][|sealed|..] == more &&
            sealed == if masking then Masked(t[maskSize..][..|sealed|], t[..4]) else t[maskSize..][..|sealed|]
  {
    var t := WsPayload(masking, sealed, mask) + more;
    if masking {
      var coded := Masked(sealed, mask);
      Assoc(mask, coded, more);
      Cut(mask, coded + more);
      Cut(coded, more);
      MaskedTwice(sealed, mask);
    } else {
      assert t[0..] == t;
      Cut(sealed, more);
    }
  }

  lemma WsPayloadRoundTrip(
      aes: BlockCipher, key: Bytes, masking: bool, sealed: Bytes, dat: Bytes, mask: Bytes, more: Bytes)
    requires (masking ==> |mask| == 4) && |sealed| < I64
    requires Opened(aes, key, sealed) == Ok(dat)
    ensures WsPayloadNext(aes, key, masking, |sealed|, WsPayload(masking, sealed, mask) + more) == Frame(dat, more)
  {
    WsPayloadIs(aes, key, masking, sealed, mask, more);
  }

  lemma WsLengthRoundTrip(aes: BlockCipher, key: Bytes, masking: bool, size: nat, s: Bytes)
    requires size < I64
    ensures WsBody(aes, key, !masking, masking, BaseLength(size), PutBE(ExtraSize(size), size) + s)
         == WsPayloadNext(aes, key, masking, size, s)
  {
    WsLength(size);
    Cut(PutBE(ExtraSize(size), size), s);
  }

  lemma WsRoundTrip(
      aes: BlockCipher, key: Bytes, masking: bool, dat: Bytes, iv: Block, mask: Bytes, more: Bytes)
    requires ValidKey(key) && (masking ==> |mask| == 4) && BLOCK + |dat| < I64
    ensures WsNext(aes, key, !masking, WsFrame(aes, key, masking, dat, iv, mask) + more) == Frame(dat, more)
  {
    var sealed := Sealed(aes, key, iv, dat);
    OpenedSealed(aes, key, iv, dat);
    var size, payload := PutBE(ExtraSize(|sealed|), |sealed|), WsPayload(masking, sealed, mask);
    WsPayloadRoundTrip(aes, key, masking, sealed, dat, mask, more);
    WsLengthRoundTrip(aes, key, masking, |sealed|, payload + more);
    WsNextIs(aes, key, masking, |sealed|, size + payload, more);
    Assoc(size, payload, more);
  }

  lemma WsNextIs(aes: BlockCipher, key: Bytes, masking: bool, size: nat, body: Bytes, more: Bytes)
    ensures WsNext(aes, key, !masking, [0x82, WsSecondByte(size, masking)] + body + more)
         == WsBody(aes, key, !masking, masking, BaseLength(size), body + more)
  {
    var s := [0x82, WsSecondByte(size, masking)] + body + more;
    assert s[2..] == body + more;
  }

  /** What one end writes as one frame, the other end reads as that frame, leaving what follows. */
  lemma FrameRoundTrip(f: Framer, dat: Bytes, c: Choice, more: Bytes)
    requires ValidKey(f.key) && Allowed(f, dat, c) && Fits(f, dat, c)
    ensures Next(Peer(f), Encode(f, dat, c) + more) == Frame(dat, more)
  {
    match f
    case F1Framer(aes, key) => F1RoundTrip(aes, key, dat, c.pad, c.iv, more);
    case WsFramer(aes, key, masking) => WsRoundTrip(aes, key, masking, dat, c.iv, c.mask, more);
  }

  // ---------------------------------------------------------------- the WebSocket wire format

  /** Whether an extended length field of `extra` bytes can carry a payload length (RFC 6455, section 5.2). */
  predicate CanCarry(extra: nat, size: nat) {
    (extra == 0 && size < 126) || (extra == 2 && size < U16) || (extra == 8 && size < I64)
  }

  /**
   * RFC 6455, section 5.2, of every frame ws.Write emits: FIN and opcode 2, the mask bit in the client role
   * only, and the length in the least number of bytes that can carry it.
   */
  lemma WsHeaderFormat(aes: BlockCipher, key: Bytes, masking: bool, dat: Bytes, iv: Block, mask: Bytes)
    requires (masking ==> |mask| == 4) && BLOCK + |dat| < I64
    ensures var s, size := WsFrame(aes, key, masking, dat, iv, mask), BLOCK + |dat|;
            var extra := ExtraSize(size);
            && |s| == 2 + extra + (if masking then 4 else 0) + size
            && s[0] == 128 + 2 && (s[1] >= 128 <==> masking)
            && CanCarry(extra, size)
            && (forall other :: CanCarry(other, size) ==> extra <= other)
            && (if extra == 0 then s[1] % 128 == size else GetBE(s[2..2 + extra]) == size)
  {
    var sealed := Sealed(aes, key, iv, dat);
    WsLength(|sealed|);
    var s, size := WsFrame(aes, key, masking, dat, iv, mask), PutBE(ExtraSize(|sealed|), |sealed|);
    assert s[2..2 + |size|] == size;
  }

  /** RFC 6455, section 5.3: behind the length comes the mask, if any, and the payload under it. */
  lemma WsPayloadFormat(aes: BlockCipher, key: Bytes, masking: bool, dat: Bytes, iv: Block, mask: Bytes)
    requires masking ==> |mask| == 4
    ensures var sealed := Sealed(aes, key, iv, dat);
            var s, at := WsFrame(aes, key, masking, dat, iv, mask), 2 + ExtraSize(|sealed|);
            |s| >= at && if masking then Under(s[at..], sealed, mask) else s[at..] == sealed
  {
    var sealed := Sealed(aes, key, iv, dat);
    var size, payload := PutBE(ExtraSize(|sealed|), |sealed|), WsPayload(masking, sealed, mask);
    PayloadBehind([0x82, WsSecondByte(|sealed|, masking)], size, payload);
    if masking {
      MaskedUnder(sealed, mask);
    }
  }

  /** t is a 4-byte mask and then the payload, byte i under mask byte i mod 4. */
  predicate Under(t: Bytes, payload: Bytes, mask: Bytes)
    requires |mask| == 4
  {
    |t| == 4 + |payload| && t[..4] == mask &&
    forall i :: 0 <= i < |payload| ==> t[4 + i] == XorByte(payload[i], mask[i % 4])
  }

  lemma MaskedUnder(payload: Bytes, mask: Bytes)
    requires |mask| == 4
    ensures Under(mask + Masked(payload, mask), payload, mask)
  {
    forall i | 0 <= i < |payload| ensures (mask + Masked(payload, mask))[4 + i] == Masked(payload, mask)[i] {
    }
  }

  lemma PayloadBehind(h: Bytes, size: Bytes, payload: Bytes)
    ensures (h + (size + payload))[|h| + |size|..] == payload
  {
  }

  // ---------------------------------------------------------------- the f1 wire format

  /** Two zero bytes, the size of the sealed text, the size of the padding, the IV, data and padding under it. */
  lemma F1Format(aes: BlockCipher, key: Bytes, dat: Bytes, pad: Bytes, iv: Block)
    requires BLOCK + |dat| + |pad| < U32
    ensures var s, size := F1Frame(aes, key, dat, pad, iv), BLOCK + |dat| + |pad|;
            && |s| == 10 + size && s[0] == 0 && s[1] == 0
            && GetBE(s[2..6]) == size && GetBE(s[6..10]) == |pad|
            && s[10..10 + BLOCK] == iv && s[10 + BLOCK..] == CfbEncrypt(aes, key, iv, dat + pad)
  {
    var sealed, size := Sealed(aes, key, iv, dat + pad), BLOCK + |dat| + |pad|;
    F1FrameParts(size, |pad|, sealed, []);
    var s := F1Frame(aes, key, dat, pad, iv);
    assert s + [] == s;
    GetPut32Small(size);
    GetPut32Small(|pad|);
    Cut(iv, CfbEncrypt(aes, key, iv, dat + pad));
    SliceOfDrop(s, 10, 0, BLOCK);
    assert s[10..][..BLOCK] == sealed[..BLOCK] && s[10..][BLOCK..] == s[10 + BLOCK..];
  }

  // ---------------------------------------------------------------- what a reader accepts

  /**
   * An f1 reader takes exactly what has a whole text of the announced size, an IV in it and room for the padding,
   * under a key of legal size.
   */
  lemma F1AcceptedExactly(aes: BlockCipher, key: Bytes, s: Bytes)
    ensures F1Next(aes, key, s).Frame? <==>
              |s| >= 10 &&
              var size, pad := GetBE(s[2..6]), GetBE(s[6..10]);
              ValidKey(key) && BLOCK + pad <= size && 10 + size <= |s|
    ensures F1Next(aes, key, s).Frame? ==>
              var size, pad, r := GetBE(s[2..6]), GetBE(s[6..10]), F1Next(aes, key, s);
              |r.payload| == size - BLOCK - pad && r.rest == s[10 + size..]
  {
  }

  /** How many bytes of extended length a second header byte announces. */
  function Announced(second: byte): nat {
    if second % 128 < 126 then 0 else if second % 128 == 126 then 2 else 8
  }

  /** The payload length behind two header bytes. */
  function WsSize(s: Bytes): nat
    requires |s| >= 2 && |s| >= 2 + Announced(s[1])
  {
    if Announced(s[1]) == 0 then s[1] % 128 else GetBE(s[2..2 + Announced(s[1])])
  }

  /**
   * A WebSocket reader takes exactly the final binary frames of the other role, masked by a client and not by a
   * server, that are whole, have an IV in them, and come under a key of legal size.
   */
  lemma WsAcceptedExactly(aes: BlockCipher, key: Bytes, masking: bool, s: Bytes)
    ensures WsNext(aes, key, masking, s).Frame? <==>
              && |s| >= 2 && |s| >= 2 + Announced(s[1])
              && s[0] >= 128 && s[0] % 16 == 2 && (s[1] >= 128 <==> !masking)
              && BLOCK <= WsSize(s) < I64 && ValidKey(key)
              && |s| >= 2 + Announced(s[1]) + (if masking then 0 else 4) + WsSize(s)
    ensures var r := WsNext(aes, key, masking, s);
            r.Frame? ==> |r.payload| == WsSize(s) - BLOCK &&
                         r.rest == s[2 + Announced(s[1]) + (if masking then 0 else 4) + WsSize(s)..]
  {
    if |s| >= 2 && |s| >= 2 + Announced(s[1]) {
      assert s[2..][..Announced(s[1])] == s[2..2 + Announced(s[1])];
    }
  }

  // ---------------------------------------------------------------- streams of frames

  lemma F1NextExtends(aes: BlockCipher, key: Bytes, s: Bytes, more: Bytes)
    requires F1Next(aes, key, s).Frame?
    ensures F1Next(aes, key, s + more) == Frame(F1Next(aes, key, s).payload, F1Next(aes, key, s).rest + more)
  {
    var body, size := s[10..], GetBE(s[2..6]);
    assert (s + more)[2..6] == s[2..6] && (s + more)[6..10] == s[6..10];
    assert (s + more)[10..] == body + more;
    FullExtends(body, size, more);
  }

  lemma WsPayloadExtends(aes: BlockCipher, key: Bytes, masked: bool, size: nat, s: Bytes, more: Bytes)
    requires WsPayloadNext(aes, key, masked, size, s).Frame?
    ensures var r := WsPayloadNext(aes, key, masked, size, s);
            WsPayloadNext(aes, key, masked, size, s + more) == Frame(r.payload, r.rest + more)
  {
    var maskSize := if masked then 4 else 0;
    FullExtends(s, maskSize, more);
    FullExtends(s[maskSize..], size, more);
  }

  lemma WsBodyExtends(aes: BlockCipher, key: Bytes, masking: bool, masked: bool, base: nat, s: Bytes, more: Bytes)
    requires WsBody(aes, key, masking, masked, base, s).Frame?
    ensures var r := WsBody(aes, key, masking, masked, base, s);
            WsBody(aes, key, masking, masked, base, s + more) == Frame(r.payload, r.rest + more)
  {
    var extra := if base < 126 then 0 else if base == 126 then 2 else 8;
    FullExtends(s, extra, more);
    WsPayloadExtends(aes, key, masked, if extra == 0 then base else GetBE(s[..extra]), s[extra..], more);
  }

  lemma NextExtends(f: Framer, s: Bytes, more: Bytes)
    requires Next(f, s).Frame?
    ensures Next(f, s + more) == Frame(Next(f, s).payload, Next(f, s).rest + more)
  {
    match f
    case F1Framer(aes, key) => F1NextExtends(aes, key, s, more);
    case WsFramer(aes, key, masking) =>
      FullExtends(s, 2, more);
      WsBodyExtends(aes, key, masking, s[1] >= 128, s[1] % 128, s[2..], more);
  }

  function Deframing(f: Framer): Deframer {
    s => Next(f, s)
  }

  /** The same cutting, under a name that does not say how it is done. */
  ghost predicate Cuts(next: Deframer, f: Framer) {
    forall s: Bytes {:trigger Next(f, s)} :: next(s) == Next(f, s)
  }

  lemma DeframingIsStable(f: Framer)
    ensures Stable(Deframing(f))
  {
    forall s: Bytes | Next(f, s).Frame? ensures |Next(f, s).payload| + |Next(f, s).rest| < |s| {
      NextShrinks(f, s);
    }
    forall s: Bytes, more: Bytes | Next(f, s).Frame?
      ensures Next(f, s + more) == Frame(Next(f, s).payload, Next(f, s).rest + more)
    {
      NextExtends(f, s, more);
    }
  }

  lemma EncodeCarries(f: Framer, dat: Bytes, c: Choice)
    requires ValidKey(f.key) && Allowed(f, dat, c) && Fits(f, dat, c)
    ensures Carries(Deframing(Peer(f)), Encode(f, dat, c), dat)
  {
    FrameRoundTrip(f, dat, c, []);
    assert Encode(f, dat, c) + [] == Encode(f, dat, c);
  }

  /** A Write of this framer: some allowed choice of padding, IV and mask made this frame of this message. */
  ghost predicate Wrote(f: Framer, dat: Bytes, frame: Bytes) {
    exists c: Choice :: Allowed(f, dat, c) && Fits(f, dat, c) && frame == Encode(f, dat, c)
  }

  /**
   * The stream theorem of both frame formats: writes by either role and reads of any size at the opposite
   * role conserve the stream, for every choice of padding, IV and mask.
   */
  lemma FramerStream(f: Framer, es: seq<Event>)
    requires ValidKey(f.key)
    requires forall i :: 0 <= i < |es| && es[i].Write? ==> Wrote(f, es[i].dat, es[i].frame)
    ensures Conserved(Deframing(Peer(f)), HappenAll(Deframing(Peer(f)), Idle, es))
  {
    var next := Deframing(Peer(f));
    DeframingIsStable(Peer(f));
    forall i | 0 <= i < |es| && es[i].Write? ensures Carries(next, es[i].frame, es[i].dat) {
      var c :| Allowed(f, es[i].dat, c) && Fits(f, es[i].dat, c) && es[i].frame == Encode(f, es[i].dat, c);
      EncodeCarries(f, es[i].dat, c);
    }
    StreamConserved(next, es);
  }
}
