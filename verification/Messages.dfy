/** message/message.go and message/codec/s1: the messages of the tunnel and their byte format. */
module Messages {
  import opened Bytes
  import opened Stream

  type Id = x: int | 0 <= x < U32

  datatype Message =
    | RequestDns(id: Id, network: Bytes, domain: Bytes)
    | RequestDial(id: Id, network: Bytes, address: Bytes, connId: Bytes)
    | ConnectionState(id: Id, ack: Id, connId: Bytes, state: Bytes, error: Bytes, errorType: Bytes)
    | ResultDns(id: Id, ack: Id, addresses: seq<Bytes>, error: Bytes)
    | Data(id: Id, ack: Id, connId: Bytes, body: Bytes)
    | Ping(id: Id, ack: Id)

  const KIND_DATA: byte := 0
  const KIND_REQUEST_DNS: byte := 1
  const KIND_RESULT_DNS: byte := 2
  const KIND_REQUEST_DIAL: byte := 4
  const KIND_CONNECTION_STATE: byte := 8
  const KIND_PING: byte := 16

  function Kind(m: Message): byte {
    match m
    case RequestDns(_, _, _) => KIND_REQUEST_DNS
    case RequestDial(_, _, _, _) => KIND_REQUEST_DIAL
    case ConnectionState(_, _, _, _, _, _) => KIND_CONNECTION_STATE
    case ResultDns(_, _, _, _) => KIND_RESULT_DNS
    case Data(_, _, _, _) => KIND_DATA
    case Ping(_, _) => KIND_PING
  }

  /** AckMessageId: DNS and dial requests acknowledge nothing. */
  function AckOf(m: Message): Id {
    if m.RequestDns? || m.RequestDial? then 0 else m.ack
  }

  predicate KnownKind(kind: byte) {
    kind == KIND_DATA || kind == KIND_REQUEST_DNS || kind == KIND_RESULT_DNS ||
    kind == KIND_REQUEST_DIAL || kind == KIND_CONNECTION_STATE || kind == KIND_PING
  }

  predicate JsonKind(kind: byte) {
    kind == KIND_REQUEST_DNS || kind == KIND_REQUEST_DIAL || kind == KIND_CONNECTION_STATE
  }

  /** encoding/json on the three kinds that travel as JSON; unmarshal gets the kind whose struct it fills. */
  datatype Json = Json(marshal: Message -> Bytes, unmarshal: (byte, Bytes) -> Option<Message>)

  /** Ids and acks of JSON messages are taken from the header. */
  function Stamp(m: Message, id: Id, ack: Id): Message {
    match m
    case RequestDns(_, network, domain) => RequestDns(id, network, domain)
    case RequestDial(_, network, address, connId) => RequestDial(id, network, address, connId)
    case ConnectionState(_, _, connId, state, error, errorType) =>
      ConnectionState(id, ack, connId, state, error, errorType)
    case ResultDns(_, _, addrs, error) => ResultDns(id, ack, addrs, error)
    case Data(_, _, connId, body) => Data(id, ack, connId, body)
    case Ping(_, _) => Ping(id, ack)
  }

  /** A message that the JSON library brings back, if it is of a kind that travels as JSON. */
  predicate Faithful(json: Json, m: Message) {
    JsonKind(Kind(m)) ==> json.unmarshal(Kind(m), json.marshal(m)) == Some(m)
  }

  /** The struct json.Unmarshal fills is of the kind it was given. */
  ghost predicate Kinded(json: Json) {
    forall kind: byte, dat: Bytes {:trigger json.unmarshal(kind, dat)} ::
      JsonKind(kind) && json.unmarshal(kind, dat).Some? ==> Kind(json.unmarshal(kind, dat).value) == kind
  }

  /** Messages of one JSON kind with the same content, whatever their ids and acks. */
  predicate SameContent(a: Message, b: Message) {
    match a
    case RequestDns(_, network, domain) => b.RequestDns? && b.network == network && b.domain == domain
    case RequestDial(_, network, address, connId) =>
      b.RequestDial? && b.network == network && b.address == address && b.connId == connId
    case ConnectionState(_, _, connId, state, error, errorType) =>
      b.ConnectionState? && b.connId == connId && b.state == state && b.error == error && b.errorType == errorType
    case _ => false
  }

  // ---------------------------------------------------------------- format

  const TAG_ARRAY: byte := 97
  const TAG_BYTES: byte := 98
  const TAG_STRING: byte := 115

  /** WriteString and WriteBytes: tag, 32-bit length, content. */
  function Tagged(tag: byte, v: Bytes): (r: Bytes)
    ensures |r| == 5 + |v|
  {
    [tag] + Put32(|v|) + v
  }

  function Addresses(addrs: seq<Bytes>): Bytes {
    if addrs == [] then [] else Tagged(TAG_BYTES, addrs[0]) + Addresses(addrs[1..])
  }

  function ArrayHeader(n: nat): (r: Bytes)
    ensures |r| == 5
  {
    [TAG_ARRAY] + Put32(n)
  }

  /** The body of a message; a ping's is 8 random bytes. */
  function Body(json: Json, m: Message, random: Bytes): Bytes {
    match m
    case ResultDns(_, _, addrs, error) => ArrayHeader(|addrs|) + (Addresses(addrs) + Tagged(TAG_STRING, error))
    case Data(_, _, connId, body) => Tagged(TAG_STRING, connId) + Tagged(TAG_BYTES, body)
    case Ping(_, _) => random
    case _ => json.marshal(m)
  }

  function Header(kind: byte, id: Id, ack: Id, size: nat): (r: Bytes)
    ensures |r| == 20 && r[0] == kind
    ensures r[8..12] == Put32(id) && r[12..16] == Put32(ack) && r[16..20] == Put32(size)
  {
    [kind, 0, 0, 0, 0, 0, 0, 0] + Put32(id) + Put32(ack) + Put32(size)
  }

  function Encode(json: Json, m: Message, random: Bytes): Bytes {
    Header(Kind(m), m.id, AckOf(m), |Body(json, m, random)|) + Body(json, m, random)
  }

  // ---------------------------------------------------------------- parsing

  datatype Parsed<T> = Parsed(value: T, rest: Bytes) | Bad(error: Error, rest: Bytes)

  /** ReadString and ReadBytes. */
  function TakeTagged(tag: byte, s: Bytes): Parsed<Bytes> {
    if |s| < 5 then Bad(TooShort(s), [])
    else if s[0] != tag then Bad(Malformed("type"), s[5..])
    else
      var size := GetBE(s[1..5]);
      if |s[5..]| < size then Bad(TooShort(s[5..]), []) else Parsed(s[5..][..size], s[5..][size..])
  }

  function TakeAddresses(n: nat, s: Bytes): Parsed<seq<Bytes>> {
    if n == 0 then Parsed([], s)
    else match TakeTagged(TAG_BYTES, s)
      case Bad(e, rest) => Bad(e, rest)
      case Parsed(addr, rest) => Behind([addr], TakeAddresses(n - 1, rest))
  }

  /** Addresses read earlier, put in front of what reading on gives. */
  function Behind(front: seq<Bytes>, r: Parsed<seq<Bytes>>): Parsed<seq<Bytes>> {
    match r
    case Bad(_, _) => r
    case Parsed(addrs, rest) => Parsed(front + addrs, rest)
  }

  lemma BehindTwice(a: seq<Bytes>, b: seq<Bytes>, r: Parsed<seq<Bytes>>)
    ensures Behind(a, Behind(b, r)) == Behind(a + b, r) && Behind([], r) == r
  {
    if r.Parsed? {
      assert (a + b) + r.value == a + (b + r.value) && [] + r.value == r.value;
    }
  }

  function ReadResultDns(id: Id, ack: Id, dat: Bytes): Result<Message> {
    if |dat| < 5 then Err(TooShort(dat))
    else if dat[0] != TAG_ARRAY then Err(Malformed("type"))
    else ReadAddressList(id, ack, GetBE(dat[1..5]), dat[5..])
  }

  function ReadAddressList(id: Id, ack: Id, n: nat, s: Bytes): Result<Message> {
    match TakeAddresses(n, s)
    case Bad(e, _) => Err(e)
    case Parsed(addrs, rest) =>
      match TakeTagged(TAG_STRING, rest)
      case Bad(e, _) => Err(e)
      case Parsed(error, _) => Ok(ResultDns(id, ack, addrs, error))
  }

  function ReadData(id: Id, ack: Id, dat: Bytes): Result<Message> {
    match TakeTagged(TAG_STRING, dat)
    case Bad(e, _) => Err(e)
    case Parsed(connId, rest) =>
      match TakeTagged(TAG_BYTES, rest)
      case Bad(e, _) => Err(e)
      case Parsed(body, _) => Ok(Data(id, ack, connId, body))
  }

  function ReadBody(json: Json, kind: byte, id: Id, ack: Id, dat: Bytes): Result<Message> {
    if JsonKind(kind) then
      var r := json.unmarshal(kind, dat);
      if r == None then Err(Malformed("json")) else Ok(Stamp(r.value, id, ack))
    else if kind == KIND_RESULT_DNS then ReadResultDns(id, ack, dat)
    else if kind == KIND_DATA then ReadData(id, ack, dat)
    else Ok(Ping(id, ack))
  }

  /** Reader.Read on a stream that delivers s. */
  function Read(json: Json, s: Bytes): Parsed<Message> {
    if |s| < 20 then Bad(TooShort(s), [])
    else if !KnownKind(s[0]) then Bad(Malformed("unknown kind"), s[20..])
    else
      var size := GetBE(s[16..20]);
      if |s[20..]| < size then Bad(TooShort(s[20..]), [])
      else
        Get32Bound(s[8..12]);
        Get32Bound(s[12..16]);
        match ReadBody(json, s[0], GetBE(s[8..12]), GetBE(s[12..16]), s[20..][..size])
        case Err(e) => Bad(e, s[20..][size..])
        case Ok(m) => Parsed(m, s[20..][size..])
  }

  // ---------------------------------------------------------------- what is on the wire

  /** A tagged field: the tag, the length in four big-endian bytes, the content. */
  lemma TaggedFormat(tag: byte, v: Bytes)
    requires |v| < U32
    ensures var t := Tagged(tag, v); t[0] == tag && GetBE(t[1..5]) == |v| && t[5..] == v
  {
    var t := Tagged(tag, v);
    assert t[1..5] == Put32(|v|) && t[5..] == v;
    GetPut32Small(|v|);
  }

  /** The header: kind, seven zero bytes, id, ack (0 for requests) and body size. */
  lemma MessageFormat(json: Json, m: Message, random: Bytes)
    requires |Body(json, m, random)| < U32
    ensures var s, body := Encode(json, m, random), Body(json, m, random);
            && |s| == 20 + |body| && s[20..] == body
            && s[0] == (match m
                        case Data(_, _, _, _) => 0
                        case RequestDns(_, _, _) => 1
                        case ResultDns(_, _, _, _) => 2
                        case RequestDial(_, _, _, _) => 4
                        case ConnectionState(_, _, _, _, _, _) => 8
                        case Ping(_, _) => 16)
            && s[1..8] == [0, 0, 0, 0, 0, 0, 0]
            && GetBE(s[8..12]) == m.id
            && GetBE(s[12..16]) == (if m.RequestDns? || m.RequestDial? then 0 else m.ack)
            && GetBE(s[16..20]) == |body|
  {
    var h, body := Header(Kind(m), m.id, AckOf(m), |Body(json, m, random)|), Body(json, m, random);
    var s := h + body;
    assert s[8..12] == h[8..12] && s[12..16] == h[12..16] && s[16..20] == h[16..20];
    GetPut32Small(m.id);
    GetPut32Small(AckOf(m));
    GetPut32Small(|body|);
  }

  /** Bodies that are not JSON: data is its connection and its bytes, a DNS result its addresses and its error. */
  lemma BodyFormat(json: Json, m: Message, random: Bytes)
    ensures m.Data? ==> Body(json, m, random) == Tagged('s' as byte, m.connId) + Tagged('b' as byte, m.body)
    ensures m.ResultDns? && m.addresses == [] ==>
              Body(json, m, random) == ['a' as byte] + Put32(0) + Tagged('s' as byte, m.error)
    ensures m.ResultDns? && m.addresses != [] ==>
              Body(json, m, random) == ['a' as byte] + Put32(|m.addresses|) +
                (Tagged('b' as byte, m.addresses[0]) + Addresses(m.addresses[1..]) + Tagged('s' as byte, m.error))
  {
    if m.ResultDns? && m.addresses == [] {
      assert [] + Tagged(TAG_STRING, m.error) == Tagged(TAG_STRING, m.error);
    }
  }

  /**
   * Whatever is accepted is of the kind in its header, takes its id from there, and its ack unless it is a request;
   * the rest of a JSON message is what the JSON library has decoded; and exactly header and body are used up.
   */
  lemma AcceptedIsStamped(json: Json, s: Bytes)
    requires Kinded(json) && Read(json, s).Parsed?
    ensures |s| >= 20 + GetBE(s[16..20])
    ensures var m, body := Read(json, s).value, s[20..20 + GetBE(s[16..20])];
            && KnownKind(s[0]) && Kind(m) == s[0] && m.id == GetBE(s[8..12])
            && (if m.RequestDns? || m.RequestDial? then AckOf(m) == 0 else m.ack == GetBE(s[12..16]))
            && (JsonKind(s[0]) ==>
                  json.unmarshal(s[0], body).Some? && SameContent(m, json.unmarshal(s[0], body).value))
            && Read(json, s).rest == s[20 + GetBE(s[16..20])..]
  {
    var size := GetBE(s[16..20]);
    SliceOfDrop(s, 20, 0, size);
    Get32Bound(s[8..12]);
    Get32Bound(s[12..16]);
    assert s[20..][..size] == s[20..20 + size];
    BodyIsStamped(json, s[0], GetBE(s[8..12]), GetBE(s[12..16]), s[20..20 + size]);
  }

  lemma BodyIsStamped(json: Json, kind: byte, id: Id, ack: Id, dat: Bytes)
    requires Kinded(json) && KnownKind(kind) && ReadBody(json, kind, id, ack, dat).Ok?
    ensures var m := ReadBody(json, kind, id, ack, dat).value;
            && Kind(m) == kind && m.id == id && (if m.RequestDns? || m.RequestDial? then true else m.ack == ack)
            && (JsonKind(kind) ==>
                  json.unmarshal(kind, dat).Some? && SameContent(m, json.unmarshal(kind, dat).value))
  {
  }

  // ---------------------------------------------------------------- round trip

  lemma TaggedRoundTrip(tag: byte, v: Bytes, more: Bytes)
    requires |v| < U32
    ensures TakeTagged(tag, Tagged(tag, v) + more) == Parsed(v, more)
  {
    var s := Tagged(tag, v) + more;
    assert s[1..5] == Put32(|v|);
    assert s[5..] == v + more;
    GetPut32Small(|v|);
    Cut(v, more);
  }

  /** Whatever is accepted as a tagged value is the canonical encoding of that value. */
  lemma TaggedNormal(tag: byte, s: Bytes)
    requires TakeTagged(tag, s).Parsed?
    ensures s == Tagged(tag, TakeTagged(tag, s).value) + TakeTagged(tag, s).rest
    ensures |TakeTagged(tag, s).value| < U32
  {
    Get32Bound(s[1..5]);
    var size := GetBE(s[1..5]);
    assert s == [tag] + s[1..5] + (s[5..][..size] + s[5..][size..]);
  }

  lemma OneMoreAddress(n: nat, s: Bytes, addr: Bytes, rest: Bytes)
    requires n > 0 && TakeTagged(TAG_BYTES, s) == Parsed(addr, rest)
    ensures TakeAddresses(n, s) == Behind([addr], TakeAddresses(n - 1, rest))
  {
  }

  lemma {:induction false} AddressesRoundTrip(addrs: seq<Bytes>, more: Bytes)
    requires forall a :: a in addrs ==> |a| < U32
    ensures TakeAddresses(|addrs|, Addresses(addrs) + more) == Parsed(addrs, more)
  {
    if addrs == [] {
      assert [] + more == more;
    } else {
      var rest := Addresses(addrs[1..]) + more;
      Assoc(Tagged(TAG_BYTES, addrs[0]), Addresses(addrs[1..]), more);
      TaggedRoundTrip(TAG_BYTES, addrs[0], rest);
      AddressesRoundTrip(addrs[1..], more);
      assert addrs == [addrs[0]] + addrs[1..];
      OneMoreAddress(|addrs|, Addresses(addrs) + more, addrs[0], rest);
    }
  }

  lemma {:induction false} AddressesNormal(n: nat, s: Bytes)
    requires TakeAddresses(n, s).Parsed?
    ensures var r := TakeAddresses(n, s);
            |r.value| == n && s == Addresses(r.value) + r.rest && |Addresses(r.value)| >= 5 * n
  {
    var r := TakeAddresses(n, s);
    if n == 0 {
      assert s == [] + s;
    } else {
      TaggedNormal(TAG_BYTES, s);
      var first := TakeTagged(TAG_BYTES, s);
      AddressesNormal(n - 1, first.rest);
      assert r.value[1..] == TakeAddresses(n - 1, first.rest).value;
      Assoc(Tagged(TAG_BYTES, first.value), Addresses(r.value[1..]), r.rest);
    }
  }

  lemma {:induction false} AddressesFit(addrs: seq<Bytes>, bound: nat)
    requires |Addresses(addrs)| < bound
    ensures |addrs| < bound && forall a :: a in addrs ==> |a| < bound
  {
    if addrs != [] {
      AddressesFit(addrs[1..], bound);
      assert addrs == [addrs[0]] + addrs[1..];
      assert |Addresses(addrs)| == 5 + |addrs[0]| + |Addresses(addrs[1..])|;
      AddressesLonger(addrs[1..]);
    }
  }

  lemma {:induction false} AddressesLonger(addrs: seq<Bytes>)
    ensures |Addresses(addrs)| >= 5 * |addrs|
  {
    if addrs != [] {
      AddressesLonger(addrs[1..]);
    }
  }

  lemma AddressListRoundTrip(id: Id, ack: Id, addrs: seq<Bytes>, error: Bytes, more: Bytes)
    requires |Addresses(addrs)| < U32 && |error| < U32
    ensures ReadAddressList(id, ack, |addrs|, Addresses(addrs) + (Tagged(TAG_STRING, error) + more))
         == Ok(ResultDns(id, ack, addrs, error))
  {
    AddressesFit(addrs, U32);
    AddressesRoundTrip(addrs, Tagged(TAG_STRING, error) + more);
    TaggedRoundTrip(TAG_STRING, error, more);
  }

  lemma ArrayHeaderRoundTrip(n: nat, rest: Bytes)
    requires n < U32
    ensures var dat := ArrayHeader(n) + rest;
            dat[0] == TAG_ARRAY && GetBE(dat[1..5]) == n && dat[5..] == rest
  {
    var dat := ArrayHeader(n) + rest;
    assert dat[1..5] == Put32(n);
    GetPut32Small(n);
  }

  lemma ResultDnsRoundTrip(id: Id, ack: Id, addrs: seq<Bytes>, error: Bytes, more: Bytes)
    requires |Addresses(addrs)| < U32 && |error| < U32
    ensures ReadResultDns(id, ack, ArrayHeader(|addrs|) + (Addresses(addrs) + Tagged(TAG_STRING, error)) + more)
         == Ok(ResultDns(id, ack, addrs, error))
  {
    var list := Addresses(addrs) + (Tagged(TAG_STRING, error) + more);
    Assoc(Addresses(addrs), Tagged(TAG_STRING, error), more);
    Assoc(ArrayHeader(|addrs|), Addresses(addrs) + Tagged(TAG_STRING, error), more);
    AddressesFit(addrs, U32);
    ArrayHeaderRoundTrip(|addrs|, list);
    AddressListRoundTrip(id, ack, addrs, error, more);
  }

  lemma DataRoundTrip(id: Id, ack: Id, connId: Bytes, body: Bytes, more: Bytes)
    requires |connId| < U32 && |body| < U32
    ensures ReadData(id, ack, Tagged(TAG_STRING, connId) + Tagged(TAG_BYTES, body) + more)
         == Ok(Data(id, ack, connId, body))
  {
    Assoc(Tagged(TAG_STRING, connId), Tagged(TAG_BYTES, body), more);
    TaggedRoundTrip(TAG_STRING, connId, Tagged(TAG_BYTES, body) + more);
    TaggedRoundTrip(TAG_BYTES, body, more);
  }

  lemma BodyRoundTrip(json: Json, m: Message, random: Bytes)
    requires |Body(json, m, random)| < U32 && Faithful(json, m)
    ensures ReadBody(json, Kind(m), m.id, AckOf(m), Body(json, m, random)) == Ok(m)
  {
    var dat := Body(json, m, random);
    assert dat + [] == dat;
    match m
    case ResultDns(id, ack, addrs, error) => ResultDnsRoundTrip(id, ack, addrs, error, []);
    case Data(id, ack, connId, body) => DataRoundTrip(id, ack, connId, body, []);
    case _ =>
  }

  lemma ReadIs(json: Json, kind: byte, id: Id, ack: Id, dat: Bytes, more: Bytes)
    requires KnownKind(kind) && |dat| < U32
    ensures Read(json, Header(kind, id, ack, |dat|) + dat + more)
         == match ReadBody(json, kind, id, ack, dat)
            case Err(e) => Bad(e, more)
            case Ok(m) => Parsed(m, more)
  {
    var h := Header(kind, id, ack, |dat|);
    var s := h + dat + more;
    assert s[8..12] == h[8..12] && s[12..16] == h[12..16] && s[16..20] == h[16..20];
    assert s[20..] == dat + more;
    GetPut32Small(id);
    GetPut32Small(ack);
    GetPut32Small(|dat|);
    Cut(dat, more);
  }

  /** A message is read back as it was written, whatever follows it. */
  lemma MessageRoundTrip(json: Json, m: Message, random: Bytes, more: Bytes)
    requires |Body(json, m, random)| < U32 && Faithful(json, m)
    ensures Read(json, Encode(json, m, random) + more) == Parsed(m, more)
  {
    BodyRoundTrip(json, m, random);
    ReadIs(json, Kind(m), m.id, AckOf(m), Body(json, m, random), more);
  }

  // ---------------------------------------------------------------- normal form

  /** Every accepted DNS-result or data body is the canonical body of the message read, plus ignored bytes. */
  lemma AcceptedBody(json: Json, kind: byte, id: Id, ack: Id, dat: Bytes)
    requires (kind == KIND_RESULT_DNS || kind == KIND_DATA) && ReadBody(json, kind, id, ack, dat).Ok?
    ensures var m := ReadBody(json, kind, id, ack, dat).value;
            && Kind(m) == kind && m.id == id && m.ack == ack
            && |Body(json, m, [])| <= |dat| && dat[..|Body(json, m, [])|] == Body(json, m, [])
            && (m.ResultDns? ==> |dat| >= 10 + 5 * |m.addresses|)
  {
    if kind == KIND_DATA {
      AcceptedData(id, ack, dat);
    } else {
      AcceptedResultDns(id, ack, dat);
    }
  }

  lemma AcceptedData(id: Id, ack: Id, dat: Bytes)
    requires ReadData(id, ack, dat).Ok?
    ensures var m := ReadData(id, ack, dat).value;
            m.Data? && m.id == id && m.ack == ack &&
            Tagged(TAG_STRING, m.connId) + Tagged(TAG_BYTES, m.body) <= dat
  {
    TaggedNormal(TAG_STRING, dat);
    var first := TakeTagged(TAG_STRING, dat);
    TaggedNormal(TAG_BYTES, first.rest);
    var second := TakeTagged(TAG_BYTES, first.rest);
    Assoc(Tagged(TAG_STRING, first.value), Tagged(TAG_BYTES, second.value), second.rest);
  }

  lemma AcceptedAddressList(id: Id, ack: Id, n: nat, s: Bytes)
    requires ReadAddressList(id, ack, n, s).Ok?
    ensures var m := ReadAddressList(id, ack, n, s).value;
            m.ResultDns? && m.id == id && m.ack == ack && |m.addresses| == n && |s| >= 5 + 5 * n &&
            Addresses(m.addresses) + Tagged(TAG_STRING, m.error) <= s
  {
    AddressesNormal(n, s);
    var list := TakeAddresses(n, s);
    TaggedNormal(TAG_STRING, list.rest);
    var error := TakeTagged(TAG_STRING, list.rest);
    Assoc(Addresses(list.value), Tagged(TAG_STRING, error.value), error.rest);
  }

  lemma AcceptedResultDns(id: Id, ack: Id, dat: Bytes)
    requires ReadResultDns(id, ack, dat).Ok?
    ensures var m := ReadResultDns(id, ack, dat).value;
            m.ResultDns? && m.id == id && m.ack == ack && |dat| >= 10 + 5 * |m.addresses| &&
            ArrayHeader(|m.addresses|) + (Addresses(m.addresses) + Tagged(TAG_STRING, m.error)) <= dat
  {
    Get32Bound(dat[1..5]);
    var n := GetBE(dat[1..5]);
    AcceptedAddressList(id, ack, n, dat[5..]);
    assert dat == ([TAG_ARRAY] + dat[1..5]) + dat[5..];
    PrefixBehind(ArrayHeader(n), dat[5..]);
  }

  /** A prefix of the tail is, behind the head, a prefix of the whole. */
  lemma PrefixBehind(head: Bytes, tail: Bytes)
    ensures forall p: Bytes :: p <= tail ==> head + p <= head + tail
  {
    forall p: Bytes | p <= tail ensures head + p <= head + tail {
      assert tail == p + tail[|p|..];
      Assoc(head, p, tail[|p|..]);
    }
  }

  /**
   * Normal form: whatever bytes are accepted as a DNS-result or data message, writing the message and reading
   * it again gives the same message, in a body that is no longer than the accepted one.
   */
  lemma NormalForm(json: Json, s: Bytes, more: Bytes)
    requires Read(json, s).Parsed? && (s[0] == KIND_RESULT_DNS || s[0] == KIND_DATA)
    ensures var m := Read(json, s).value;
            && |Body(json, m, [])| <= GetBE(s[16..20]) < U32
            && (m.ResultDns? ==> 10 + 5 * |m.addresses| <= GetBE(s[16..20]))
            && Read(json, Encode(json, m, []) + more) == Parsed(m, more)
  {
    Get32Bound(s[8..12]);
    Get32Bound(s[12..16]);
    Get32Bound(s[16..20]);
    AcceptedBody(json, s[0], GetBE(s[8..12]), GetBE(s[12..16]), s[20..][..GetBE(s[16..20])]);
    MessageRoundTrip(json, Read(json, s).value, [], more);
  }

  /**
   * The 32-bit body size is exactly what limits a message: a DNS result or data message comes back if and
   * only if its body is shorter than 4 GiB.
   */
  lemma RoundTripExactly(json: Json, m: Message, random: Bytes, more: Bytes)
    requires m.ResultDns? || m.Data?
    ensures Read(json, Encode(json, m, random) + more) == Parsed(m, more) <==> |Body(json, m, random)| < U32
  {
    if |Body(json, m, random)| < U32 {
      MessageRoundTrip(json, m, random, more);
    } else {
      var s := Encode(json, m, random) + more;
      assert s[0] == Kind(m);
      if Read(json, s).Parsed? {
        NormalForm(json, s, []);
      }
    }
  }

  // ---------------------------------------------------------------- message sequences

  /** What the writer may be asked to send: bodies below 4 GiB, JSON bodies that survive the JSON library. */
  predicate Sendable(json: Json, m: Message, random: Bytes) {
    |Body(json, m, random)| < U32 && Faithful(json, m)
  }

  predicate AllSendable(json: Json, ms: seq<Message>, randoms: seq<Bytes>) {
    |randoms| == |ms| && forall i :: 0 <= i < |ms| ==> Sendable(json, ms[i], randoms[i])
  }

  function EncodeAll(json: Json, ms: seq<Message>, randoms: seq<Bytes>): Bytes
    requires |randoms| == |ms|
  {
    if ms == [] then [] else Encode(json, ms[0], randoms[0]) + EncodeAll(json, ms[1..], randoms[1..])
  }

  type MessageReader = Bytes -> Parsed<Message>

  /** Reader.Read, under a name that does not say how it is done. */
  function Reading(json: Json): MessageReader {
    s => Read(json, s)
  }

  function ReadMany(read: MessageReader, n: nat, s: Bytes): Option<(seq<Message>, Bytes)> {
    if n == 0 then Some(([], s))
    else match read(s)
      case Bad(_, _) => None
      case Parsed(m, rest) =>
        match ReadMany(read, n - 1, rest)
        case None => None
        case Some(r) => Some(([m] + r.0, r.1))
  }

  lemma OneMessageMore(read: MessageReader, s: Bytes, m: Message, rest: Bytes, ms: seq<Message>, more: Bytes)
    requires read(s) == Parsed(m, rest) && ReadMany(read, |ms|, rest) == Some((ms, more))
    ensures ReadMany(read, 1 + |ms|, s) == Some(([m] + ms, more))
  {
  }

  /** A list of messages, followed by anything, is read back as that list, leaving exactly what followed. */
  lemma {:induction false} SequenceRoundTrip(json: Json, ms: seq<Message>, randoms: seq<Bytes>, more: Bytes)
    requires AllSendable(json, ms, randoms)
    ensures ReadMany(Reading(json), |ms|, EncodeAll(json, ms, randoms) + more) == Some((ms, more))
  {
    if ms == [] {
      assert [] + more == more;
    } else {
      var rest := EncodeAll(json, ms[1..], randoms[1..]) + more;
      Assoc(Encode(json, ms[0], randoms[0]), EncodeAll(json, ms[1..], randoms[1..]), more);
      MessageRoundTrip(json, ms[0], randoms[0], rest);
      SequenceRoundTrip(json, ms[1..], randoms[1..], more);
      OneMessageMore(Reading(json), EncodeAll(json, ms, randoms) + more, ms[0], rest, ms[1..], more);
      assert [ms[0]] + ms[1..] == ms;
    }
  }

  /** No message encoding is a proper prefix of another, and two messages never share an encoding. */
  lemma PrefixFree(json: Json, m: Message, r: Bytes, more: Bytes, m': Message, r': Bytes, more': Bytes)
    requires Sendable(json, m, r) && Sendable(json, m', r')
    requires Encode(json, m, r) + more == Encode(json, m', r') + more'
    ensures m == m' && more == more'
  {
    MessageRoundTrip(json, m, r, more);
    MessageRoundTrip(json, m', r', more');
  }

  /** The messages a reader has got out of s so far. */
  function Received(json: Json, s: Bytes): seq<Message>
    decreases |s|
  {
    match Read(json, s)
    case Bad(_, _) => []
    case Parsed(m, rest) => if |rest| < |s| then [m] + Received(json, rest) else []
  }

  /** A message cut short is not read at all: the reader waits for the rest of it. */
  lemma CutShort(json: Json, m: Message, random: Bytes, s: Bytes)
    requires |Body(json, m, random)| < U32
    requires s <= Encode(json, m, random) && s != Encode(json, m, random)
    ensures Read(json, s) == Bad(EOF, []) || Read(json, s) == Bad(UnexpectedEOF, [])
  {
    var h, dat := Header(Kind(m), m.id, AckOf(m), |Body(json, m, random)|), Body(json, m, random);
    if |s| >= 20 {
      assert s[16..20] == (h + dat)[16..20] == h[16..20];
      assert s[0] == Kind(m);
      GetPut32Small(|dat|);
    }
  }

  /** From any prefix of the encodings, a reader has got a prefix of the messages. */
  lemma {:induction false} ReceivedPrefix(json: Json, ms: seq<Message>, randoms: seq<Bytes>, s: Bytes)
    requires AllSendable(json, ms, randoms) && s <= EncodeAll(json, ms, randoms)
    ensures Received(json, s) <= ms
    ensures s == EncodeAll(json, ms, randoms) ==> Received(json, s) == ms
    decreases |ms|
  {
    if ms == [] {
      assert s == [];
    } else {
      var first := Encode(json, ms[0], randoms[0]);
      if |s| < |first| {
        assert s <= first;
        CutShort(json, ms[0], randoms[0], s);
      } else {
        var rest := s[|first|..];
        SplitPrefix(s, first, EncodeAll(json, ms[1..], randoms[1..]));
        ReceivedPrefix(json, ms[1..], randoms[1..], rest);
        OneMoreReceived(json, ms[0], randoms[0], rest);
        assert ms == [ms[0]] + ms[1..];
      }
    }
  }

  lemma OneMoreReceived(json: Json, m: Message, random: Bytes, rest: Bytes)
    requires Sendable(json, m, random)
    ensures Received(json, Encode(json, m, random) + rest) == [m] + Received(json, rest)
  {
    MessageRoundTrip(json, m, random, rest);
  }

  lemma SplitPrefix(s: Bytes, a: Bytes, b: Bytes)
    requires s <= a + b && |a| <= |s|
    ensures s == a + s[|a|..] && s[|a|..] <= b
    ensures s == a + b ==> s[|a|..] == b
  {
    assert s == (a + b)[..|s|];
    assert s[|a|..] == b[..|s| - |a|];
  }
}
