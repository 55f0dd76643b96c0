/** transport/h1pool/packet.go: many clients' data cut into packets on one shared stream. */
module Packets {
  import opened Bytes
  import opened Stream

  const MAX_PACKET_SIZE: nat := 1024 * 128
  const MAX_META_SIZE: nat := 1024

  const OP_DATA: byte := 0
  const OP_PING: byte := 8
  const OP_PONG: byte := 9
  const OP_EOS: byte := 10

  /** "CP" and a zero byte. */
  const MAGIC: Bytes := [67, 80, 0]

  datatype Packet = Packet(clientId: Bytes, serial: nat, op: byte, data: Bytes)

  predicate KnownOp(op: byte) {
    op == OP_DATA || op == OP_PING || op == OP_PONG || op == OP_EOS
  }

  // ---------------------------------------------------------------- client ids and the JSON meta

  predicate Alphanumeric(b: byte) {
    48 <= b <= 57 || 65 <= b <= 90 || 97 <= b <= 122
  }

  predicate PlainId(id: Bytes) {
    forall i :: 0 <= i < |id| ==> Alphanumeric(id[i])
  }

  /** utils.EncodeAsASCII: v * 62 / 256 picks a digit, a small or a capital letter. */
  function EncodeAsASCII(buf: Bytes): (id: Bytes)
    ensures |id| == |buf| && PlainId(id)
  {
    seq(|buf|, i requires 0 <= i < |buf| =>
      var v: int := buf[i];
      var w: int := v * 62 / 256;
      if w < 10 then w + 48 else if w < 36 then w + 87 else w + 29)
  }

  /** {"client_id":" */
  const META_HEAD: Bytes := [123, 34, 99, 108, 105, 101, 110, 116, 95, 105, 100, 34, 58, 34]
  /** "} */
  const META_TAIL: Bytes := [34, 125]

  /** json.Marshal of a packet: only the id is serialised, and a plain id needs no escapes. */
  function Meta(id: Bytes): (r: Bytes)
    ensures |r| == |id| + 16
  {
    META_HEAD + (id + META_TAIL)
  }

  /** json.Unmarshal, on the texts json.Marshal makes of plain ids. */
  function MetaId(meta: Bytes): Option<Bytes> {
    if |meta| >= 16 && meta[..14] == META_HEAD && meta[|meta| - 2..] == META_TAIL && PlainId(meta[14..|meta| - 2])
    then Some(meta[14..|meta| - 2])
    else None
  }

  lemma MetaRoundTrip(id: Bytes)
    requires PlainId(id)
    ensures MetaId(Meta(id)) == Some(id)
  {
    var meta := Meta(id);
    Cut(META_HEAD, id + META_TAIL);
    assert meta == (META_HEAD + id) + META_TAIL;
    Cut(META_HEAD + id, META_TAIL);
    assert meta[14..|meta| - 2] == id;
  }

  /** Exactly these texts are taken for the meta of an id. */
  lemma MetaExactly(meta: Bytes, id: Bytes)
    ensures MetaId(meta) == Some(id) <==> PlainId(id) && meta == Meta(id)
  {
    if PlainId(id) {
      MetaRoundTrip(id);
    }
    if MetaId(meta) == Some(id) {
      assert meta == meta[..14] + (meta[14..|meta| - 2] + meta[|meta| - 2..]);
    }
  }

  // ---------------------------------------------------------------- writing

  /** Only data packets carry their client id. */
  function MetaOf(p: Packet): Bytes {
    if p.op == OP_DATA then Meta(p.clientId) else []
  }

  function Head(op: byte, serial: nat, sizeMeta: nat, sizeDat: nat): (r: Bytes)
    ensures |r| == 16 && r[..3] == MAGIC && r[3] == op
    ensures r[4..8] == Put32(serial) && r[8..12] == Put32(sizeMeta) && r[12..16] == Put32(sizeDat)
  {
    MAGIC + [op] + Put32(serial) + Put32(sizeMeta) + Put32(sizeDat)
  }

  function HeadOf(p: Packet): (r: Bytes)
    ensures |r| == 16
  {
    Head(p.op, p.serial, |MetaOf(p)|, |p.data|)
  }

  /** One packet that fits one fragment, as bytes. */
  function Wire(p: Packet): Bytes {
    HeadOf(p) + (MetaOf(p) + p.data)
  }

  function WireAll(ps: seq<Packet>): Bytes {
    if ps == [] then [] else Wire(ps[0]) + WireAll(ps[1..])
  }

  /** The fragments of a packet: same id, serial and op, consecutive pieces of the data. */
  function Fragments(p: Packet): (r: seq<Packet>)
    ensures r != []
    decreases |p.data|
  {
    if |p.data| <= MAX_PACKET_SIZE then [p]
    else [p.(data := p.data[..MAX_PACKET_SIZE])] + Fragments(p.(data := p.data[MAX_PACKET_SIZE..]))
  }

  /** The Write calls writePacket makes: head, meta and data of each fragment. */
  function Pieces(ps: seq<Packet>): seq<Bytes> {
    if ps == [] then [] else [HeadOf(ps[0]), MetaOf(ps[0]), ps[0].data] + Pieces(ps[1..])
  }

  lemma {:induction false} PiecesSpellWire(ps: seq<Packet>)
    ensures Concat(Pieces(ps)) == WireAll(ps)
  {
    if ps != [] {
      PiecesSpellWire(ps[1..]);
      var three := [HeadOf(ps[0]), MetaOf(ps[0]), ps[0].data];
      ConcatAppend(three, Pieces(ps[1..]));
      ConcatThree(HeadOf(ps[0]), MetaOf(ps[0]), ps[0].data);
    }
  }

  lemma ConcatThree(a: Bytes, b: Bytes, c: Bytes)
    ensures Concat([a, b, c]) == a + (b + c)
  {
    assert Concat([c]) == c;
    assert [b, c][1..] == [c];
    assert [a, b, c][1..] == [b, c];
  }

  lemma {:induction false} PiecesAppend(a: seq<Packet>, b: seq<Packet>)
    ensures Pieces(a + b) == Pieces(a) + Pieces(b)
  {
    if a == [] {
      assert a + b == b;
    } else {
      assert (a + b)[1..] == a[1..] + b;
      PiecesAppend(a[1..], b);
    }
  }

  lemma {:induction false} WireAllAppend(a: seq<Packet>, b: seq<Packet>)
    ensures WireAll(a + b) == WireAll(a) + WireAll(b)
  {
    if a == [] {
      assert a + b == b;
    } else {
      assert (a + b)[1..] == a[1..] + b;
      WireAllAppend(a[1..], b);
      Assoc(Wire(a[0]), WireAll(a[1..]), WireAll(b));
    }
  }

  function DataOf(ps: seq<Packet>): Bytes {
    if ps == [] then [] else ps[0].data + DataOf(ps[1..])
  }

  /** Ceiling division, and one fragment for an empty packet. */
  function FragmentCount(size: nat): nat {
    if size == 0 then 1 else (size + MAX_PACKET_SIZE - 1) / MAX_PACKET_SIZE
  }

  lemma OneFragmentLess(size: nat)
    requires size > MAX_PACKET_SIZE
    ensures FragmentCount(size) == 1 + FragmentCount(size - MAX_PACKET_SIZE)
  {
  }

  /** Fragmenting keeps the bytes and uses as few fragments as the size limit allows. */
  lemma {:induction false} FragmentsKeep(p: Packet)
    ensures |Fragments(p)| == FragmentCount(|p.data|)
    ensures DataOf(Fragments(p)) == p.data
    decreases |p.data|
  {
    if |p.data| > MAX_PACKET_SIZE {
      FragmentsKeep(p.(data := p.data[MAX_PACKET_SIZE..]));
      OneFragmentLess(|p.data|);
      assert p.data == p.data[..MAX_PACKET_SIZE] + p.data[MAX_PACKET_SIZE..];
    } else {
      assert DataOf([p]) == p.data + DataOf([]);
    }
  }

  /** Every fragment has the packet's id, serial and op, and fits the size limit. */
  lemma {:induction false} FragmentsAlike(p: Packet, f: Packet)
    requires f in Fragments(p)
    ensures f == p.(data := f.data) && |f.data| <= MAX_PACKET_SIZE
    decreases |p.data|
  {
    if |p.data| > MAX_PACKET_SIZE && f != p.(data := p.data[..MAX_PACKET_SIZE]) {
      FragmentsAlike(p.(data := p.data[MAX_PACKET_SIZE..]), f);
    }
  }

  /** The three Write calls of one round. */
  function Round(op: byte, serial: nat, metab: Bytes, dat: Bytes): seq<Bytes> {
    [Head(op, serial, |metab|, |dat|), metab, dat]
  }

  /** The Write calls left when the loop has reached start. */
  function RoundsFrom(p: Packet, start: nat): seq<Bytes>
    requires start <= |p.data|
  {
    Pieces(Fragments(p.(data := p.data[start..])))
  }

  lemma OneRound(p: Packet, start: nat, dat: Bytes) returns (after: seq<Bytes>)
    requires start <= |p.data| && dat == p.data[start..start + Min(|p.data| - start, MAX_PACKET_SIZE)]
    ensures RoundsFrom(p, start) == Round(p.op, p.serial, MetaOf(p), dat) + after
    ensures after == if start + |dat| < |p.data| then RoundsFrom(p, start + |dat|) else []
  {
    after := if start + |dat| < |p.data| then RoundsFrom(p, start + |dat|) else [];
    var rest, f := p.(data := p.data[start..]), p.(data := dat);
    assert rest.data[..|dat|] == dat;
    assert rest.data[|dat|..] == p.data[start + |dat|..];
    assert Pieces([f]) == Round(p.op, p.serial, MetaOf(p), dat) + Pieces([]);
    if start + |dat| < |p.data| {
      PiecesAppend([f], Fragments(p.(data := p.data[start + |dat|..])));
    } else {
      assert rest == f;
    }
  }

  method WriteRound(w: ByteStream, op: byte, serial: nat, metab: Bytes, dat: Bytes)
    modifies w`outgoing
    ensures w.outgoing == old(w.outgoing) + Round(op, serial, metab, dat)
  {
    w.Write(MAGIC + [op] + Put32(serial) + Put32(|metab|) + Put32(|dat|));
    w.Write(metab);
    w.Write(dat);
  }

  /** writePacket: the fragmentation loop, three Write calls a round. */
  method WritePacket(w: ByteStream, p: Packet)
    modifies w`outgoing
    ensures w.outgoing == old(w.outgoing) + Pieces(Fragments(p))
  {
    var metab := if p.op == OP_DATA then Meta(p.clientId) else [];
    var start := 0;
    ghost var goal, todo := w.outgoing + Pieces(Fragments(p)), RoundsFrom(p, 0);
    assert p.data[0..] == p.data;
    while true
      invariant start <= |p.data| && todo == RoundsFrom(p, start) && w.outgoing + todo == goal
      decreases |p.data| - start
    {
      var sizeDat := Min(|p.data| - start, MAX_PACKET_SIZE);
      var dat := p.data[start..start + sizeDat];
      ghost var sent := w.outgoing;
      ghost var after := OneRound(p, start, dat);
      WriteRound(w, p.op, p.serial, metab, dat);
      AssocCalls(sent, Round(p.op, p.serial, metab, dat), after);
      start, todo := start + sizeDat, after;
      if start >= |p.data| {
        break;
      }
    }
  }

  lemma AssocCalls(a: seq<Bytes>, b: seq<Bytes>, c: seq<Bytes>)
    ensures (a + b) + c == a + (b + c)
    ensures a + [] == a
  {
  }

  // ---------------------------------------------------------------- reading

  datatype PacketRead = Got(p: Packet, rest: Bytes) | Refused(error: Error, rest: Bytes)

  function ReadBody(op: byte, serial: nat, sizeMeta: nat, sizeDat: nat, s: Bytes): PacketRead {
    if |s| < sizeMeta then Refused(TooShort(s), [])
    else
      var id, t := if sizeMeta == 0 then Some([]) else MetaId(s[..sizeMeta]), s[sizeMeta..];
      if id == None then Refused(Malformed("json"), t)
      else if |t| < sizeDat then Refused(TooShort(t), [])
      else Got(Packet(id.value, serial, op, t[..sizeDat]), t[sizeDat..])
  }

  /** readAnyPacket on a stream that delivers s. */
  function ReadAny(s: Bytes): PacketRead {
    if |s| < 16 then Refused(TooShort(s), [])
    else if s[..3] != MAGIC then Refused(Malformed("illegal packet header."), s[16..])
    else if !KnownOp(s[3]) then Refused(Malformed("Invalid op."), s[16..])
    else
      var serial, sizeMeta, sizeDat := GetBE(s[4..8]), GetBE(s[8..12]), GetBE(s[12..16]);
      if sizeMeta > MAX_META_SIZE then Refused(Malformed("Meta size too large."), s[16..])
      else if sizeDat > MAX_PACKET_SIZE then Refused(Malformed("Packet data size too large."), s[16..])
      else ReadBody(s[3], serial, sizeMeta, sizeDat, s[16..])
  }

  method ReadAnyPacket(r: ByteStream) returns (res: Result<Packet>)
    modifies r`incoming
    ensures match ReadAny(old(r.Unread()))
            case Got(p, rest) => res == Ok(p) && r.Unread() == rest
            case Refused(e, rest) => res == Err(e) && r.Unread() == rest
  {
    ghost var s := r.Unread();
    var headRead := r.ReadFull(16);
    if headRead.Err? {
      return Err(headRead.error);
    }
    var head := headRead.value;
    assert head[..3] == s[..3] && head[4..8] == s[4..8] && head[8..12] == s[8..12] && head[12..16] == s[12..16];
    if head[..3] != MAGIC {
      return Err(Malformed("illegal packet header."));
    }
    var op := head[3];
    if !KnownOp(op) {
      return Err(Malformed("Invalid op."));
    }
    var serial, sizeMeta, sizeDat := GetBE(head[4..8]), GetBE(head[8..12]), GetBE(head[12..16]);
    if sizeMeta > MAX_META_SIZE {
      return Err(Malformed("Meta size too large."));
    }
    if sizeDat > MAX_PACKET_SIZE {
      return Err(Malformed("Packet data size too large."));
    }
    res := ReadRest(r, op, serial, sizeMeta, sizeDat);
  }

  method ReadRest(r: ByteStream, op: byte, serial: nat, sizeMeta: nat, sizeDat: nat) returns (res: Result<Packet>)
    modifies r`incoming
    ensures match ReadBody(op, serial, sizeMeta, sizeDat, old(r.Unread()))
            case Got(p, rest) => res == Ok(p) && r.Unread() == rest
            case Refused(e, rest) => res == Err(e) && r.Unread() == rest
  {
    var p := Packet([], serial, op, []);
    if sizeMeta > 0 {
      var metab := r.ReadFull(sizeMeta);
      if metab.Err? {
        return Err(metab.error);
      }
      var id := MetaId(metab.value);
      if id == None {
        return Err(Malformed("json"));
      }
      p := p.(clientId := id.value);
    }
    if sizeDat > 0 {
      var dat := r.ReadFull(sizeDat);
      if dat.Err? {
        return Err(dat.error);
      }
      p := p.(data := dat.value);
    }
    res := Ok(p);
  }

  // ---------------------------------------------------------------- round trip

  /** What a reader makes of a packet: control packets come back without their client id. */
  function AsRead(p: Packet): Packet {
    if p.op == OP_DATA then p else p.(clientId := [])
  }

  predicate Sendable(p: Packet) {
    KnownOp(p.op) && p.serial < U32 && (p.op == OP_DATA ==> PlainId(p.clientId) && |p.clientId| <= 1008)
  }

  predicate OneFragment(p: Packet) {
    Sendable(p) && |p.data| <= MAX_PACKET_SIZE
  }

  lemma WireParts(p: Packet, more: Bytes)
    ensures var s, m := Wire(p) + more, |MetaOf(p)|;
            |s| >= 16 && s[..3] == MAGIC && s[3] == p.op && s[4..8] == Put32(p.serial) &&
            s[8..12] == Put32(m) && s[12..16] == Put32(|p.data|) && s[16..] == MetaOf(p) + (p.data + more)
  {
    var h, s := HeadOf(p), Wire(p) + more;
    assert s[..3] == h[..3] && s[4..8] == h[4..8] && s[8..12] == h[8..12] && s[12..16] == h[12..16];
    assert s[16..] == (MetaOf(p) + p.data) + more;
    Assoc(MetaOf(p), p.data, more);
  }

  lemma BodyRoundTrip(p: Packet, more: Bytes)
    requires OneFragment(p)
    ensures ReadBody(p.op, p.serial, |MetaOf(p)|, |p.data|, MetaOf(p) + (p.data + more)) == Got(AsRead(p), more)
  {
    Cut(MetaOf(p), p.data + more);
    Cut(p.data, more);
    if p.op == OP_DATA {
      MetaRoundTrip(p.clientId);
    }
  }

  lemma ReadAnyIs(s: Bytes, op: byte, serial: nat, sizeMeta: nat, sizeDat: nat)
    requires |s| >= 16 && s[..3] == MAGIC && s[3] == op && KnownOp(op)
    requires GetBE(s[4..8]) == serial && GetBE(s[8..12]) == sizeMeta <= MAX_META_SIZE
    requires GetBE(s[12..16]) == sizeDat <= MAX_PACKET_SIZE
    ensures ReadAny(s) == ReadBody(op, serial, sizeMeta, sizeDat, s[16..])
  {
  }

  /**
   * A packet is read exactly from a head with the magic bytes, a known op and sizes within the limits, with all its
   * meta and data there, and a meta that is empty or that of an id.
   */
  lemma AcceptedExactly(s: Bytes)
    ensures ReadAny(s).Got? <==>
              && |s| >= 16 && s[..3] == [67, 80, 0] && s[3] in [0, 8, 9, 10]
              && var m, d := GetBE(s[8..12]), GetBE(s[12..16]);
              && m <= 1024 && d <= 131072 && 16 + m + d <= |s|
              && (m == 0 || exists id :: PlainId(id) && s[16..16 + m] == Meta(id))
    ensures ReadAny(s).Got? ==>
              var m, d, p := GetBE(s[8..12]), GetBE(s[12..16]), ReadAny(s).p;
              && p.op == s[3] && p.serial == GetBE(s[4..8]) && p.data == s[16 + m..16 + m + d]
              && (if m == 0 then p.clientId == [] else PlainId(p.clientId) && s[16..16 + m] == Meta(p.clientId))
              && ReadAny(s).rest == s[16 + m + d..]
  {
    if |s| >= 16 && s[..3] == MAGIC && KnownOp(s[3]) {
      var m, d := GetBE(s[8..12]), GetBE(s[12..16]);
      if m <= MAX_META_SIZE && d <= MAX_PACKET_SIZE {
        BodyAcceptedExactly(s[3], GetBE(s[4..8]), m, d, s[16..]);
        if 16 + m + d <= |s| {
          SliceOfDrop(s, 16, 0, m);
          SliceOfDrop(s, 16, m, m + d);
          assert s[16..][m + d..] == s[16 + m + d..];
        }
      }
    }
  }

  lemma BodyAcceptedExactly(op: byte, serial: nat, m: nat, d: nat, s: Bytes)
    ensures ReadBody(op, serial, m, d, s).Got? <==>
              m + d <= |s| && (m == 0 || exists id :: PlainId(id) && s[0..m] == Meta(id))
    ensures var r := ReadBody(op, serial, m, d, s);
            r.Got? ==>
              && r.p.op == op && r.p.serial == serial && r.p.data == s[m..m + d] && r.rest == s[m + d..]
              && (if m == 0 then r.p.clientId == [] else PlainId(r.p.clientId) && s[0..m] == Meta(r.p.clientId))
  {
    if m <= |s| {
      assert s[..m] == s[0..m];
      forall id ensures MetaId(s[..m]) == Some(id) <==> PlainId(id) && s[..m] == Meta(id) {
        MetaExactly(s[..m], id);
      }
      if m + d <= |s| {
        SliceOfDrop(s, m, 0, d);
        assert s[m..][..d] == s[m..][0..d] && s[m..][d..] == s[m + d..];
      }
    }
  }

  /** A fragment is read back as it was sent, and what follows stays unread. */
  lemma PacketRoundTrip(p: Packet, more: Bytes)
    requires OneFragment(p)
    ensures ReadAny(Wire(p) + more) == Got(AsRead(p), more)
  {
    WireParts(p, more);
    assert |MetaOf(p)| <= MAX_META_SIZE;
    GetPut32Small(p.serial);
    GetPut32Small(|MetaOf(p)|);
    GetPut32Small(|p.data|);
    ReadAnyIs(Wire(p) + more, p.op, p.serial, |MetaOf(p)|, |p.data|);
    BodyRoundTrip(p, more);
  }

  /** The reader takes a data fragment exactly when its meta fits 1024 bytes, that is its id 1008. */
  lemma DataAcceptedExactly(p: Packet, more: Bytes)
    requires p.op == OP_DATA && p.serial < U32 && PlainId(p.clientId) && |p.clientId| + 16 < U32
    requires |p.data| <= MAX_PACKET_SIZE
    ensures ReadAny(Wire(p) + more).Got? <==> |p.clientId| <= 1008
  {
    if |p.clientId| <= 1008 {
      PacketRoundTrip(p, more);
    } else {
      WireParts(p, more);
      GetPut32(|MetaOf(p)|);
    }
  }

  /** Reading a whole packet: its fragments arrive in order, complete, and nothing behind them is touched. */
  function ReadMany(n: nat, s: Bytes): Option<(seq<Packet>, Bytes)> {
    if n == 0 then Some(([], s))
    else match ReadAny(s)
      case Refused(_, _) => None
      case Got(p, rest) =>
        match ReadMany(n - 1, rest)
        case None => None
        case Some(r) => Some(([p] + r.0, r.1))
  }

  function AsReadAll(ps: seq<Packet>): seq<Packet> {
    if ps == [] then [] else [AsRead(ps[0])] + AsReadAll(ps[1..])
  }

  lemma {:induction false} ManyRoundTrip(ps: seq<Packet>, more: Bytes)
    requires forall p :: p in ps ==> OneFragment(p)
    ensures ReadMany(|ps|, WireAll(ps) + more) == Some((AsReadAll(ps), more))
  {
    if ps == [] {
      assert [] + more == more;
    } else {
      var rest := WireAll(ps[1..]) + more;
      Assoc(Wire(ps[0]), WireAll(ps[1..]), more);
      PacketRoundTrip(ps[0], rest);
      ManyRoundTrip(ps[1..], more);
      ReadManyIs(|ps|, WireAll(ps) + more, AsRead(ps[0]), rest);
    }
  }

  lemma ReadManyIs(n: nat, s: Bytes, p: Packet, rest: Bytes)
    requires n > 0 && ReadAny(s) == Got(p, rest)
    ensures match ReadMany(n - 1, rest)
            case None => ReadMany(n, s) == None
            case Some(r) => ReadMany(n, s) == Some(([p] + r.0, r.1))
  {
  }

  lemma {:induction false} AsReadData(ps: seq<Packet>)
    requires forall p :: p in ps ==> p.op == OP_DATA
    ensures AsReadAll(ps) == ps
  {
    if ps != [] {
      AsReadData(ps[1..]);
    }
  }

  /** The packet theorem: a packet of any size crosses in FragmentCount pieces and comes back whole. */
  lemma FragmentedRoundTrip(p: Packet, more: Bytes)
    requires Sendable(p) && p.op == OP_DATA
    ensures ReadMany(FragmentCount(|p.data|), Concat(Pieces(Fragments(p))) + more) == Some((Fragments(p), more))
    ensures DataOf(Fragments(p)) == p.data
  {
    FragmentsKeep(p);
    PiecesSpellWire(Fragments(p));
    forall f | f in Fragments(p) ensures OneFragment(f) && f.op == OP_DATA {
      FragmentsAlike(p, f);
    }
    ManyRoundTrip(Fragments(p), more);
    AsReadData(Fragments(p));
  }

  /** A complete packet reads the same whatever arrives behind it. */
  lemma ReadExtends(s: Bytes, more: Bytes)
    requires ReadAny(s).Got?
    ensures ReadAny(s + more) == Got(ReadAny(s).p, ReadAny(s).rest + more)
    ensures |ReadAny(s).rest| < |s|
  {
    var t := s + more;
    assert t[..3] == s[..3] && t[4..8] == s[4..8] && t[8..12] == s[8..12] && t[12..16] == s[12..16];
    FullExtends(s, 16, more);
    BodyExtends(s[3], GetBE(s[4..8]), GetBE(s[8..12]), GetBE(s[12..16]), s[16..], more);
  }

  lemma BodyExtends(op: byte, serial: nat, sizeMeta: nat, sizeDat: nat, s: Bytes, more: Bytes)
    requires ReadBody(op, serial, sizeMeta, sizeDat, s).Got?
    ensures var r := ReadBody(op, serial, sizeMeta, sizeDat, s);
            ReadBody(op, serial, sizeMeta, sizeDat, s + more) == Got(r.p, r.rest + more) && |r.rest| <= |s|
  {
    FullExtends(s, sizeMeta, more);
    FullExtends(s[sizeMeta..], sizeDat, more);
  }

  /** A packet cut short is not read at all, and never mistaken for an illegal one. */
  lemma CutShort(p: Packet, s: Bytes)
    requires OneFragment(p) && s <= Wire(p) && s != Wire(p)
    ensures ReadAny(s) == Refused(EOF, []) || ReadAny(s) == Refused(UnexpectedEOF, [])
  {
    if |s| >= 16 {
      WireParts(p, []);
      assert Wire(p) + [] == Wire(p);
      var w := Wire(p);
      assert s[..3] == w[..3] && s[8..12] == w[8..12] && s[12..16] == w[12..16];
      assert |MetaOf(p)| <= MAX_META_SIZE;
      GetPut32Small(|MetaOf(p)|);
      GetPut32Small(|p.data|);
      ReadAnyIs(s, p.op, GetBE(s[4..8]), |MetaOf(p)|, |p.data|);
      assert s[16..] == (MetaOf(p) + p.data)[..|s| - 16];
      BodyCutShort(p, GetBE(s[4..8]), s[16..]);
    }
  }

  lemma BodyCutShort(p: Packet, serial: nat, t: Bytes)
    requires OneFragment(p) && t <= MetaOf(p) + p.data && t != MetaOf(p) + p.data
    ensures var r := ReadBody(p.op, serial, |MetaOf(p)|, |p.data|, t);
            r == Refused(EOF, []) || r == Refused(UnexpectedEOF, [])
  {
    var m := |MetaOf(p)|;
    if |t| >= m {
      assert t[..m] == MetaOf(p);
      if p.op == OP_DATA {
        MetaRoundTrip(p.clientId);
      }
    }
  }
}
