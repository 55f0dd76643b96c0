/** message/codec/s1/writer.go and reader.go: the codec as code over an io.Writer and an io.Reader. */
module Codec {
  import opened Bytes
  import opened Stream
  import opened Messages

  lemma ConcatUpTo(chunks: seq<Bytes>, k: nat)
    requires k < |chunks|
    ensures Concat(chunks[..k + 1]) == Concat(chunks[..k]) + chunks[k]
    ensures |Concat(chunks[..k])| + |chunks[k]| <= |Concat(chunks)|
  {
    assert chunks[..k + 1] == chunks[..k] + [chunks[k]];
    ConcatAppend(chunks[..k], [chunks[k]]);
    assert Concat([chunks[k]]) == chunks[k];
    assert chunks == chunks[..k + 1] + chunks[k + 1..];
    ConcatAppend(chunks[..k + 1], chunks[k + 1..]);
  }

  class Writer {
    const w: ByteStream

    constructor (w: ByteStream)
      ensures this.w == w
    {
      this.w := w;
    }

    /** Several chunks in one Write call. */
    method WriteMany(chunks: seq<Bytes>)
      modifies w`outgoing
      ensures w.outgoing == old(w.outgoing) + if chunks == [] then [] else [Concat(chunks)]
    {
      if chunks == [] {
        return;
      }
      var total: nat := 0;
      for k := 0 to |chunks|
        invariant total == |Concat(chunks[..k])| && w.outgoing == old(w.outgoing)
      {
        ConcatUpTo(chunks, k);
        total := total + |chunks[k]|;
      }
      assert chunks[..|chunks|] == chunks;
      var all := new byte[total];
      var i: nat := 0;
      for k := 0 to |chunks|
        invariant i <= total && all[..i] == Concat(chunks[..k]) && w.outgoing == old(w.outgoing)
      {
        ConcatUpTo(chunks, k);
        var chunk := chunks[k];
        ghost var done := all[..i];
        forall j | 0 <= j < |chunk| {
          all[i + j] := chunk[j];
        }
        assert all[..i + |chunk|] == done + chunk;
        i := i + |chunk|;
      }
      assert chunks[..|chunks|] == chunks;
      assert all[..] == all[..i] == Concat(chunks);
      w.Write(all[..]);
    }

    method WriteBytes(dat: Bytes)
      modifies w`outgoing
      ensures w.outgoing == old(w.outgoing) + [Tagged(TAG_BYTES, dat)]
    {
      w.Write([TAG_BYTES] + Put32(|dat|) + dat);
    }

    method WriteString(s: Bytes)
      modifies w`outgoing
      ensures w.outgoing == old(w.outgoing) + [Tagged(TAG_STRING, s)]
    {
      w.Write([TAG_STRING] + Put32(|s|) + s);
    }

    method WriteArrayHeader(size: nat)
      modifies w`outgoing
      ensures w.outgoing == old(w.outgoing) + [ArrayHeader(size)]
    {
      w.Write([TAG_ARRAY] + Put32(size));
    }

    /** A message is one Write call: header and body together. */
    method Write(json: Json, m: Message, random: Bytes)
      modifies w`outgoing
      ensures w.outgoing == old(w.outgoing) + [Encode(json, m, random)]
    {
      var dat: Bytes;
      match m {
        case ResultDns(_, _, addrs, error) =>
          dat := ResultDnsBody(addrs, error);
        case Data(_, _, connId, body) =>
          var buf := new ByteStream([]);
          var w1 := new Writer(buf);
          w1.WriteString(connId);
          w1.WriteBytes(body);
          dat := Concat(buf.outgoing);
          ConcatTwo(Tagged(TAG_STRING, connId), Tagged(TAG_BYTES, body));
        case Ping(_, _) =>
          dat := random;
        case _ =>
          dat := json.marshal(m);
      }
      var header := [Kind(m), 0, 0, 0, 0, 0, 0, 0] + Put32(m.id) + Put32(AckOf(m)) + Put32(|dat|);
      ConcatTwo(header, dat);
      WriteMany([header, dat]);
    }
  }

  lemma ConcatTwo(a: Bytes, b: Bytes)
    ensures Concat([a, b]) == a + b
  {
    assert [a, b][1..] == [b];
    assert Concat([b]) == b;
  }

  lemma {:induction false} AddressesUpTo(addrs: seq<Bytes>, k: nat)
    requires k < |addrs|
    ensures Addresses(addrs[..k + 1]) == Addresses(addrs[..k]) + Tagged(TAG_BYTES, addrs[k])
  {
    if k > 0 {
      AddressesUpTo(addrs[1..], k - 1);
      assert addrs[..k + 1][1..] == addrs[1..][..k] && addrs[..k][1..] == addrs[1..][..k - 1];
      Assoc(Tagged(TAG_BYTES, addrs[0]), Addresses(addrs[1..][..k - 1]), Tagged(TAG_BYTES, addrs[k]));
    } else {
      assert addrs[..1] == [addrs[0]];
      assert Addresses([addrs[0]]) == Tagged(TAG_BYTES, addrs[0]) + Addresses([]);
    }
  }

  method ResultDnsBody(addrs: seq<Bytes>, error: Bytes) returns (dat: Bytes)
    ensures dat == ArrayHeader(|addrs|) + (Addresses(addrs) + Tagged(TAG_STRING, error))
  {
    var buf := new ByteStream([]);
    var w1 := new Writer(buf);
    w1.WriteArrayHeader(|addrs|);
    assert Concat(buf.outgoing) == ArrayHeader(|addrs|);
    for k := 0 to |addrs|
      invariant Concat(buf.outgoing) == ArrayHeader(|addrs|) + Addresses(addrs[..k])
    {
      AddressesUpTo(addrs, k);
      Assoc(ArrayHeader(|addrs|), Addresses(addrs[..k]), Tagged(TAG_BYTES, addrs[k]));
      OneMoreCall(buf.outgoing, Tagged(TAG_BYTES, addrs[k]));
      w1.WriteBytes(addrs[k]);
    }
    assert addrs[..|addrs|] == addrs;
    OneMoreCall(buf.outgoing, Tagged(TAG_STRING, error));
    Assoc(ArrayHeader(|addrs|), Addresses(addrs), Tagged(TAG_STRING, error));
    w1.WriteString(error);
    dat := Concat(buf.outgoing);
  }

  lemma OneMoreCall(calls: seq<Bytes>, dat: Bytes)
    ensures Concat(calls + [dat]) == Concat(calls) + dat
  {
    ConcatAppend(calls, [dat]);
    assert Concat([dat]) == dat;
  }

  class Reader {
    const r: ByteStream

    constructor (r: ByteStream)
      ensures this.r == r
    {
      this.r := r;
    }

    /** ReadBytes and ReadString differ in the tag only. */
    method ReadTagged(tag: byte) returns (res: Result<Bytes>)
      modifies r`incoming
      ensures match TakeTagged(tag, old(r.Unread()))
              case Parsed(v, rest) => res == Ok(v) && r.Unread() == rest
              case Bad(e, rest) => res == Err(e) && r.Unread() == rest
    {
      ghost var s := r.Unread();
      var h := r.ReadFull(5);
      if h.Err? {
        return h;
      }
      if h.value[0] != tag {
        return Err(Malformed("type"));
      }
      assert h.value[1..] == s[1..5];
      res := r.ReadFull(GetBE(h.value[1..]));
    }

    method ReadArrayHeader() returns (res: Result<nat>)
      modifies r`incoming
      ensures var s := old(r.Unread());
              if |s| < 5 then res == Err(TooShort(s)) && r.Unread() == []
              else r.Unread() == s[5..] &&
                   res == if s[0] != TAG_ARRAY then Err(Malformed("type")) else Ok(GetBE(s[1..5]))
    {
      ghost var s := r.Unread();
      var h := r.ReadFull(5);
      if h.Err? {
        return Err(h.error);
      }
      if h.value[0] != TAG_ARRAY {
        return Err(Malformed("type"));
      }
      assert h.value[1..] == s[1..5];
      res := Ok(GetBE(h.value[1..]));
    }

    /** The loop over an array of addresses. */
    method ReadAddresses(n: nat) returns (res: Result<seq<Bytes>>)
      modifies r`incoming
      ensures match TakeAddresses(n, old(r.Unread()))
              case Parsed(v, rest) => res == Ok(v) && r.Unread() == rest
              case Bad(e, rest) => res == Err(e) && r.Unread() == rest
    {
      var addrs: seq<Bytes> := [];
      ghost var goal := TakeAddresses(n, r.Unread());
      BehindTwice([], [], goal);
      for i := 0 to n
        invariant goal == Behind(addrs, TakeAddresses(n - i, r.Unread()))
      {
        ghost var now, left := r.Unread(), n - i;
        var addrb := ReadTagged(TAG_BYTES);
        if addrb.Err? {
          return Err(addrb.error);
        }
        OneMoreAddress(left, now, addrb.value, r.Unread());
        BehindTwice(addrs, [addrb.value], TakeAddresses(left - 1, r.Unread()));
        addrs := addrs + [addrb.value];
      }
      assert addrs + [] == addrs;
      res := Ok(addrs);
    }

    method ReadBodyOf(json: Json, kind: byte, id: Id, ack: Id, dat: Bytes) returns (res: Result<Message>)
      ensures res == ReadBody(json, kind, id, ack, dat)
    {
      if JsonKind(kind) {
        var m := json.unmarshal(kind, dat);
        return if m == None then Err(Malformed("json")) else Ok(Stamp(m.value, id, ack));
      }
      var stream := new ByteStream([dat]);
      var r1 := new Reader(stream);
      assert Concat([dat]) == dat;
      if kind == KIND_RESULT_DNS {
        var arrHeader := r1.ReadArrayHeader();
        if arrHeader.Err? {
          return Err(arrHeader.error);
        }
        var addrs := r1.ReadAddresses(arrHeader.value);
        if addrs.Err? {
          return Err(addrs.error);
        }
        var errMsg := r1.ReadTagged(TAG_STRING);
        if errMsg.Err? {
          return Err(errMsg.error);
        }
        return Ok(ResultDns(id, ack, addrs.value, errMsg.value));
      } else if kind == KIND_DATA {
        var connId := r1.ReadTagged(TAG_STRING);
        if connId.Err? {
          return Err(connId.error);
        }
        var body := r1.ReadTagged(TAG_BYTES);
        if body.Err? {
          return Err(body.error);
        }
        return Ok(Data(id, ack, connId.value, body.value));
      }
      res := Ok(Ping(id, ack));
    }

    method ReadMessage(json: Json) returns (res: Result<Message>)
      modifies r`incoming
      ensures match Read(json, old(r.Unread()))
              case Parsed(m, rest) => res == Ok(m) && r.Unread() == rest
              case Bad(e, rest) => res == Err(e) && r.Unread() == rest
    {
      ghost var s := r.Unread();
      var headRead := r.ReadFull(20);
      if headRead.Err? {
        return Err(headRead.error);
      }
      var header := headRead.value;
      assert header[8..12] == s[8..12] && header[12..16] == s[12..16] && header[16..20] == s[16..20];
      if !KnownKind(header[0]) {
        return Err(Malformed("unknown kind"));
      }
      var dat := r.ReadFull(GetBE(header[16..20]));
      if dat.Err? {
        return Err(dat.error);
      }
      Get32Bound(header[8..12]);
      Get32Bound(header[12..16]);
      res := ReadBodyOf(json, header[0], GetBE(header[8..12]), GetBE(header[12..16]), dat.value);
    }
  }
}
