/** transport/framer/f1/f1.go and transport/framer/ws/ws.go: the framers as objects over a connection. */
module Framers {
  import opened Bytes
  import opened Stream
  import opened Arrays
  import opened Encryption
  import opened FrameStream
  import opened Framing

  const DEFAULT_BUFFER_SIZE: nat := 64 * 1024

  /** The bufRead/lenBufRead pair of both framers: bytes of a frame that did not fit the caller's buffer. */
  class Leftover {
    var data: array<byte>
    var size: nat

    ghost predicate Valid()
      reads this
    {
      size <= data.Length
    }

    ghost function Contents(): Bytes
      requires Valid()
      reads this, data
    {
      data[..size]
    }

    constructor ()
      ensures Valid() && fresh(data) && Contents() == [] && data.Length == DEFAULT_BUFFER_SIZE
    {
      data, size := new byte[DEFAULT_BUFFER_SIZE], 0;
    }

    /** appendBuf: the buffer is replaced by one of the exact size only when dat does not fit. */
    method Append(dat: Bytes)
      requires Valid()
      modifies this, data
      ensures Valid() && Contents() == old(Contents()) + dat
      ensures if old(size) + |dat| > old(data.Length) then fresh(data) && data.Length == size else data == old(data)
    {
      var sizeAfter := size + |dat|;
      if sizeAfter > data.Length {
        data := Enlarged(data, size, sizeAfter);
      }
      Put(data, size, dat);
      size := sizeAfter;
    }

    /** Move up to buf.Length bytes to buf and shift the rest to the front. */
    method Take(buf: array<byte>) returns (n: nat)
      requires Valid() && buf != data
      modifies this`size, data, buf
      ensures Valid() && n == Min(buf.Length, old(size))
      ensures buf[..n] == old(Contents())[..n] && buf[n..] == old(buf[n..])
      ensures Contents() == old(Contents())[n..]
    {
      n := MoveFront(data, size, buf);
      size := size - n;
    }
  }

  /** Hand a frame's payload to the caller, keeping what does not fit; common tail of both Read methods. */
  method Deliver(left: Leftover, buf: array<byte>, chunk: Bytes) returns (n: nat)
    requires left.Valid() && left.Contents() == [] && buf != left.data
    modifies left, left.data, buf
    ensures left.Valid() && (fresh(left.data) || left.data == old(left.data))
    ensures n == Min(buf.Length, |chunk|) && buf[..n] == chunk[..n] && buf[n..] == old(buf[n..])
    ensures left.Contents() == chunk[n..]
  {
    n := Min(buf.Length, |chunk|);
    Put(buf, 0, chunk[..n]);
    assert buf[0..n] == buf[..n];
    if |chunk| > n {
      left.Append(chunk[n..]);
    }
  }

  // ---------------------------------------------------------------- f1

  /** The padding of an f1 frame, from one random byte. */
  function PadSize(size: nat, random: byte): (r: nat)
    ensures if size < 256 then 2 <= r <= 255 else r == 2
    ensures size < 256 && random >= 2 ==> r == random
  {
    if size < 256 && random >= 2 then random else 2
  }

  class F1 {
    const aes: BlockCipher
    const tx: ByteStream
    const left: Leftover
    var psk: Bytes

    ghost predicate Valid()
      reads this, left
    {
      left.Valid()
    }

    ghost function Format(): Framer
      reads this
    {
      F1Framer(aes, psk)
    }

    constructor (aes: BlockCipher, tx: ByteStream, psk: Bytes)
      ensures Valid() && this.aes == aes && this.tx == tx && this.psk == psk
      ensures fresh(left) && fresh(left.data) && left.Contents() == []
    {
      this.aes, this.tx, this.psk := aes, tx, psk;
      left := new Leftover();
    }

    method SetPSK(key: Bytes)
      modifies this`psk
      ensures psk == key
    {
      psk := key;
    }

    /** The next frame's payload, its padding cut off. */
    method ReadFrame() returns (r: Result<Bytes>)
      modifies tx`incoming
      ensures match F1Next(aes, psk, old(tx.Unread()))
              case Frame(payload, rest) => r == Ok(payload) && tx.Unread() == rest
              case Stopped(e, rest) => r == Err(e) && tx.Unread() == rest
    {
      ghost var s := tx.Unread();
      var header := tx.ReadFull(10);
      if header.Err? {
        return Err(header.error);
      }
      assert header.value[2..6] == s[2..6] && header.value[6..10] == s[6..10];
      r := ReadSealed(GetBE(header.value[2..6]), GetBE(header.value[6..10]));
    }

    method ReadSealed(sizeAll: nat, sizePad: nat) returns (r: Result<Bytes>)
      modifies tx`incoming
      ensures match F1Body(aes, psk, sizeAll, sizePad, old(tx.Unread()))
              case Frame(payload, rest) => r == Ok(payload) && tx.Unread() == rest
              case Stopped(e, rest) => r == Err(e) && tx.Unread() == rest
    {
      var chunkEnc := tx.ReadFull(sizeAll);
      if chunkEnc.Err? {
        return Err(chunkEnc.error);
      }
      var chunk := Decrypt(aes, psk, chunkEnc.value);
      if chunk.Err? {
        return chunk;
      }
      if |chunk.value| < sizePad {
        return Err(Panic("slice bounds out of range"));
      }
      r := Ok(chunk.value[..|chunk.value| - sizePad]);
    }

    method Read(buf: array<byte>) returns (n: nat, err: Option<Error>)
      requires Valid() && buf != left.data
      modifies tx`incoming, left, left.data, buf
      ensures Valid() && (fresh(left.data) || left.data == old(left.data))
      ensures var o := ReadStep(Deframing(Format()), old(left.Contents()), old(tx.Unread()), buf.Length);
              && n == |o.got| && err == o.error
              && buf[..n] == o.got && buf[n..] == old(buf[n..])
              && left.Contents() == o.left && tx.Unread() == o.unread
    {
      if left.size > 0 {
        n := left.Take(buf);
        return n, None;
      }
      var chunk := ReadFrame();
      if chunk.Err? {
        return 0, Some(chunk.error);
      }
      n := Deliver(left, buf, chunk.value);
      err := None;
    }

    /** The random choices come in as arguments: one byte for the padding size, the padding, the IV. */
    method Write(dat: Bytes, random: byte, pad: Bytes, iv: Block) returns (r: Result<nat>)
      requires |pad| == PadSize(|dat|, random)
      modifies tx`outgoing
      ensures !ValidKey(psk) ==> r == Err(BadKey) && tx.outgoing == old(tx.outgoing)
      ensures ValidKey(psk) ==>
                Allowed(Format(), dat, Choice(pad, iv, [])) &&
                var frame := Encode(Format(), dat, Choice(pad, iv, []));
                tx.outgoing == old(tx.outgoing) + [frame] && r == Ok(|frame|)
    {
      var chunk := dat + pad;
      var chunkEnc := Encrypt(aes, psk, iv, chunk);
      if chunkEnc.Err? {
        return Err(chunkEnc.error);
      }
      var size := |chunkEnc.value|;
      assert size == BLOCK + |dat| + |pad|;
      var chunkFin := [0, 0] + Put32(size) + Put32(|pad|) + chunkEnc.value;
      tx.Write(chunkFin);
      r := Ok(|chunkFin|);
    }
  }

  // ---------------------------------------------------------------- ws

  /** The masking loop, in place. */
  method MaskInPlace(chunk: array<byte>, mask: Bytes)
    requires |mask| == 4
    modifies chunk
    ensures chunk[..] == Masked(old(chunk[..]), mask)
  {
    for i := 0 to chunk.Length
      invariant forall k :: 0 <= k < i ==> chunk[k] == XorByte(old(chunk[k]), mask[k % 4])
      invariant forall k :: i <= k < chunk.Length ==> chunk[k] == old(chunk[k])
    {
      chunk[i] := XorByte(chunk[i], mask[i % 4]);
    }
  }

  /** The masking key over a chunk: the client's way out and the server's way in are the same loop. */
  method ApplyMask(chunk: Bytes, mask: Bytes) returns (r: Bytes)
    requires |mask| == 4
    ensures r == Masked(chunk, mask)
  {
    var a := new byte[|chunk|](i requires 0 <= i < |chunk| => chunk[i]);
    assert a[..] == chunk;
    MaskInPlace(a, mask);
    r := a[..];
  }

  class Ws {
    const aes: BlockCipher
    const tx: ByteStream
    const left: Leftover
    const mask: bool
    var psk: Bytes

    ghost predicate Valid()
      reads this, left
    {
      left.Valid()
    }

    ghost function Format(): Framer
      reads this
    {
      WsFramer(aes, psk, mask)
    }

    constructor (aes: BlockCipher, tx: ByteStream, psk: Bytes, mask: bool)
      ensures Valid() && this.aes == aes && this.tx == tx && this.psk == psk && this.mask == mask
      ensures fresh(left) && fresh(left.data) && left.Contents() == []
    {
      this.aes, this.tx, this.psk, this.mask := aes, tx, psk, mask;
      left := new Leftover();
    }

    /** The length, masking key and payload of a frame whose two fixed bytes have been read. */
    method ReadBody(masking: bool, sizeBase: nat) returns (r: Result<Bytes>)
      modifies tx`incoming
      ensures match WsBody(aes, psk, mask, masking, sizeBase, old(tx.Unread()))
              case Frame(payload, rest) => r == Ok(payload) && tx.Unread() == rest
              case Stopped(e, rest) => r == Err(e) && tx.Unread() == rest
    {
      var size := sizeBase;
      if sizeBase >= 126 {
        var sizeb := tx.ReadFull(if sizeBase == 126 then 2 else 8);
        if sizeb.Err? {
          return Err(sizeb.error);
        }
        size := GetBE(sizeb.value);
      } else {
        assert AfterFull(tx.Unread(), 0) == tx.Unread();
      }
      if masking == mask {
        return Err(Malformed("mask error in receiving frame."));
      }
      r := ReadPayload(masking, size);
    }

    method ReadPayload(masking: bool, size: nat) returns (r: Result<Bytes>)
      modifies tx`incoming
      ensures match WsPayloadNext(aes, psk, masking, size, old(tx.Unread()))
              case Frame(payload, rest) => r == Ok(payload) && tx.Unread() == rest
              case Stopped(e, rest) => r == Err(e) && tx.Unread() == rest
    {
      var maskb := tx.ReadFull(if masking then 4 else 0);
      if maskb.Err? {
        return Err(maskb.error);
      }
      if size >= I64 {
        return Err(Panic("makeslice: len out of range"));
      }
      var chunkEnc := tx.ReadFull(size);
      if chunkEnc.Err? {
        return Err(chunkEnc.error);
      }
      var coded := chunkEnc.value;
      if masking {
        coded := ApplyMask(coded, maskb.value);
      }
      r := Decrypt(aes, psk, coded);
    }

    method Read(buf: array<byte>) returns (n: nat, err: Option<Error>)
      requires Valid() && buf != left.data
      modifies tx`incoming, left, left.data, buf
      ensures Valid() && (fresh(left.data) || left.data == old(left.data))
      ensures var o := ReadStep(Deframing(Format()), old(left.Contents()), old(tx.Unread()), buf.Length);
              && n == |o.got| && err == o.error
              && buf[..n] == o.got && buf[n..] == old(buf[n..])
              && left.Contents() == o.left && tx.Unread() == o.unread
    {
      if left.size > 0 {
        n := left.Take(buf);
        return n, None;
      }
      var header := tx.ReadFull(2);
      if header.Err? {
        return 0, Some(header.error);
      }
      var fin, opCode := header.value[0] >= 128, header.value[0] % 16;
      if !fin || opCode != 2 {
        return 0, Some(EOF);
      }
      var chunk := ReadBody(header.value[1] >= 128, header.value[1] % 128);
      if chunk.Err? {
        return 0, Some(chunk.error);
      }
      n := Deliver(left, buf, chunk.value);
      err := None;
    }

    method Write(dat: Bytes, iv: Block, maskKey: Bytes) returns (r: Result<nat>)
      requires |maskKey| == 4
      modifies tx`outgoing
      ensures !ValidKey(psk) ==> r == Err(BadKey) && tx.outgoing == old(tx.outgoing)
      ensures ValidKey(psk) ==>
                var frame := Encode(Format(), dat, Choice([], iv, maskKey));
                tx.outgoing == old(tx.outgoing) + [frame] && r == Ok(|frame|)
    {
      var sealed := Encrypt(aes, psk, iv, dat);
      if sealed.Err? {
        return Err(sealed.error);
      }
      var chunkEnc := sealed.value;
      var size := |chunkEnc|;
      var sizeExtra := 0;
      if size > 125 {
        sizeExtra := if size >= U16 then 8 else 2;
      }
      var first := if size <= 125 then size else if sizeExtra == 2 then 126 else 127;
      if mask {
        first := first + 128;
        chunkEnc := ApplyMask(chunkEnc, maskKey);
      }
      var header := [0x82, first] + (PutBE(sizeExtra, size) + (if mask then maskKey else []));
      var chunkFin := header + chunkEnc;
      assert chunkFin == WsFrame(aes, psk, mask, dat, iv, maskKey);
      tx.Write(chunkFin);
      r := Ok(|chunkFin|);
    }
  }

  // ---------------------------------------------------------------- either framer

  /** The framer a handshake ends with. */
  datatype Tx = OverF1(f1: F1) | OverWs(ws: Ws) {
    function Left(): Leftover {
      match this
      case OverF1(f) => f.left
      case OverWs(w) => w.left
    }

    function Conn(): ByteStream {
      match this
      case OverF1(f) => f.tx
      case OverWs(w) => w.tx
    }

    ghost function Object(): object {
      match this
      case OverF1(f) => f
      case OverWs(w) => w
    }

    ghost function Format(): Framer
      reads Object()
    {
      match this
      case OverF1(f) => f.Format()
      case OverWs(w) => w.Format()
    }

    method Read(buf: array<byte>) returns (n: nat, err: Option<Error>)
      requires Left().Valid() && buf != Left().data
      modifies Conn()`incoming, Left(), Left().data, buf
      ensures Left().Valid() && (fresh(Left().data) || Left().data == old(Left().data))
      ensures var o := ReadStep(Deframing(Format()), old(Left().Contents()), old(Conn().Unread()), buf.Length);
              && n == |o.got| && err == o.error
              && buf[..n] == o.got && buf[n..] == old(buf[n..])
              && Left().Contents() == o.left && Conn().Unread() == o.unread
    {
      match this {
        case OverF1(f) => n, err := f.Read(buf);
        case OverWs(w) => n, err := w.Read(buf);
      }
    }

    /** Padding is for f1, the mask for a WebSocket client. */
    method Write(dat: Bytes, random: byte, pad: Bytes, iv: Block, maskKey: Bytes) returns (r: Result<nat>)
      requires |pad| == PadSize(|dat|, random) && |maskKey| == 4
      modifies Conn()`outgoing
      ensures r.Ok? <==> ValidKey(Format().key)
      ensures r.Err? ==> Conn().outgoing == old(Conn().outgoing)
      ensures r.Ok? ==>
                Allowed(Format(), dat, Choice(pad, iv, maskKey)) &&
                Conn().outgoing == old(Conn().outgoing) + [Encode(Format(), dat, Choice(pad, iv, maskKey))]
    {
      match this {
        case OverF1(f) => r := f.Write(dat, random, pad, iv);
        case OverWs(w) => r := w.Write(dat, iv, maskKey);
      }
    }
  }
}
