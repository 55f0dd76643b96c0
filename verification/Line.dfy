/**
 * One direction of a trunk as a step system: packets of many clients, cut into fragments, written piece by
 * piece as frames, read back in arbitrary sizes, parsed and handed to one receive buffer per client.
 */
module Line {
  import opened Bytes
  import opened Stream
  import opened FrameStream
  import opened Packets
  import opened ReceiveBuffer

  type Table = map<Bytes, Queue>

  // ---------------------------------------------------------------- state

  /**
   * From the sender to the receiver: packets whose writePacket has not begun (waiting for the lock or in the
   * reply channel), the Write calls the running writePacket still has to make, the frames on the wire, the
   * framer's leftover, the trunk client's receive buffer between framer and parser (towards the server there is
   * none, and this one stays empty) and whether its relay has stopped, and the bytes ReadFull has gathered.
   * As history, the fragments not yet delivered.
   */
  datatype Road = Road(
    waiting: seq<Packet>, pieces: seq<Bytes>, wire: Bytes, left: Bytes, relay: Queue, stopped: bool, acc: Bytes,
    flight: seq<Packet>)

  /** The serial and the length of a client's first write. */
  datatype Opening = Opening(serial: nat, size: nat)

  /**
   * One client at one line: its receive buffer, and the buffer its holder keeps after it has left the map. The
   * rest is history: the serials drawn by writes and by closes, the first write, the bytes written and the bytes
   * read. `lost`: data came before any buffer was there. `refused`: a full buffer refused data. `reopened`: a
   * buffer was opened in the middle of the stream.
   */
  datatype Account = Account(
    queue: Option<Queue>, gone: Option<Queue>, writes: nat, closes: nat, opening: Option<Opening>,
    sent: Bytes, taken: Bytes, lost: bool, refused: bool, reopened: bool)

  datatype Line = Line(road: Road, accounts: map<Bytes, Account>)

  const NewAccount: Account := Account(None, None, 0, 0, None, [], [], false, false, false)

  const Quiet: Line := Line(Road([], [], [], [], Fresh, false, [], []), map[])

  /**
   * creates: the receiver is the server, which opens a buffer when serial 0 of an unknown id arrives, and reads
   * packets straight from the framer. exits: server instances may end while their client lives.
   */
  datatype Rules = Rules(creates: bool, exits: bool)

  function At(s: Line, id: Bytes): Account {
    if id in s.accounts then s.accounts[id] else NewAccount
  }

  function Put(s: Line, id: Bytes, a: Account): Line {
    s.(accounts := s.accounts[id := a])
  }

  // ---------------------------------------------------------------- receiving

  /** The server's demultiplexer (the ping's answer is the other direction's business). */
  function RouteServer(table: Table, p: Packet): Table {
    if p.op == OP_PING || p.clientId == [] then table
    else if p.op == OP_EOS then
      if p.clientId in table then table[p.clientId := table[p.clientId].(closed := true)] else table
    else if p.clientId in table then table[p.clientId := Pushed(table[p.clientId], p.data).0]
    else if p.serial == 0 then table[p.clientId := Pushed(Fresh, p.data).0]
    else table
  }

  /** The client's demultiplexer; an end-of-stream packet closes and forgets the divided client. */
  function RouteClient(table: Table, p: Packet): Table {
    if p.op == OP_DATA then
      if p.clientId in table then table[p.clientId := Pushed(table[p.clientId], p.data).0] else table
    else if p.op == OP_EOS then table - {p.clientId}
    else table
  }

  function Route(r: Rules, table: Table, p: Packet): Table {
    if r.creates then RouteServer(table, p) else RouteClient(table, p)
  }

  /** The buffers of a line by client id, as the demultiplexers keep them. */
  function TableOf(accounts: map<Bytes, Account>): Table {
    map id | id in accounts && accounts[id].queue.Some? :: accounts[id].queue.value
  }

  /** A data fragment of this client arrives. */
  function Arrival(r: Rules, a: Account, serial: nat, dat: Bytes): Account {
    match a.queue
    case Some(q) =>
      var (q', res) := Pushed(q, dat);
      a.(queue := Some(q'), refused := a.refused || res == Err(ShortBuffer))
    case None =>
      if r.creates && serial == 0 then
        var (q', res) := Pushed(Fresh, dat);
        a.(queue := Some(q'), refused := a.refused || res == Err(ShortBuffer),
           reopened := a.reopened || a.gone.Some? || a.lost)
      else a.(lost := a.lost || a.gone == None)
  }

  function Deposited(r: Rules, s: Line, p: Packet): Line {
    if p.op == OP_DATA && p.clientId != [] then Put(s, p.clientId, Arrival(r, At(s, p.clientId), p.serial, p.data))
    else s
  }

  /** Packets as they come off the wire carry an id only if they carry data. */
  predicate Plain(p: Packet) {
    p.op != OP_DATA ==> p.clientId == []
  }

  /**
   * On such packets this is what the demultiplexers do: control packets change no buffer, and a data packet
   * changes no buffer but its own client's.
   */
  lemma DepositIsRoute(r: Rules, s: Line, p: Packet)
    requires Plain(p) && [] !in TableOf(s.accounts)
    ensures TableOf(Deposited(r, s, p).accounts) == Route(r, TableOf(s.accounts), p)
  {
    var table, table' := TableOf(s.accounts), TableOf(Deposited(r, s, p).accounts);
    if p.op != OP_DATA {
      assert table - {[]} == table;
    }
    assert table'.Keys == Route(r, table, p).Keys;
  }

  /** A write is refused exactly when an open buffer would grow past both its capacity plus 4096 and 8 MiB. */
  lemma RefusedExactly(r: Rules, a: Account, serial: nat, dat: Bytes)
    requires a.queue.Some? ==> WellFormed(a.queue.value)
    ensures Arrival(r, a, serial, dat).refused <==>
              a.refused ||
              match a.queue
              case Some(q) => !q.closed && |q.data| + |dat| > q.cap + BUF_SIZE && |q.data| + |dat| > BUF_SIZE_MAX
              case None => r.creates && serial == 0 && |dat| > BUF_SIZE_MAX
  {
    PushedExactly(if a.queue.Some? then a.queue.value else Fresh, dat);
  }

  // ---------------------------------------------------------------- steps

  datatype Step =
    | Send(id: Bytes, dat: Bytes)
    | Eos(id: Bytes)
    | Control(op: byte)
    | Start
    | Relay(frame: Bytes)
    | Skip
    | Pull(n: nat)
    | Fetch(n: nat)
    | Deliver
    | Take(id: Bytes, n: nat, late: bool)
    | CloseBuffer(id: Bytes, late: bool)
    | Retire(id: Bytes)
    | Register(id: Bytes)

  predicate GoodId(id: Bytes) {
    1 <= |id| <= 1008 && PlainId(id)
  }

  /** A buffer was opened for this client, and its holder may still have it. */
  predicate Known(a: Account) {
    a.queue.Some? || a.gone.Some?
  }

  /** At the client a 32-bit counter that writes and closes draw from, at the server always 0. */
  function SerialOf(r: Rules, a: Account): (n: nat)
    ensures n < U32
  {
    if r.creates then (a.writes + a.closes) % U32 else 0
  }

  /** The buffer a reader or closer holds: the one in the map, or the one that has left it. */
  function Held(a: Account, late: bool): Option<Queue> {
    if late then a.gone else a.queue
  }

  /**
   * What restricts a run. Ids are plain. The server replies to registered clients only, and a client registers
   * once. A frame carries the next piece; an empty piece may be skipped. A relay round that finds no complete
   * frame waits.
   */
  ghost predicate Enabled(next: Deframer, r: Rules, s: Line, step: Step) {
    match step
    case Send(id, dat) => GoodId(id) && (!r.creates ==> Known(At(s, id)))
    case Eos(_) => true
    case Control(op) => op == OP_PING || op == OP_PONG
    case Start => s.road.pieces == [] && s.road.waiting != []
    case Relay(frame) => s.road.pieces != [] && Carries(next, frame, s.road.pieces[0])
    case Skip => s.road.pieces != [] && s.road.pieces[0] == []
    case Pull(n) => !s.road.stopped && ReadStep(next, s.road.left, s.road.wire, n).error == None
    case Fetch(_) => !r.creates
    case Deliver => ReadAny(s.road.acc).Got?
    case Take(id, n, late) => Held(At(s, id), late).Some?
    case CloseBuffer(id, late) => Held(At(s, id), late).Some?
    case Retire(id) => At(s, id).queue.Some? && (r.creates ==> r.exits)
    case Register(id) => !r.creates && GoodId(id) && !Known(At(s, id))
  }

  /** The packet of a client's next write, */
  function DataPacket(r: Rules, a: Account, id: Bytes, dat: Bytes): Packet {
    Packet(id, SerialOf(r, a), OP_DATA, dat)
  }

  /** and of its next close. */
  function EosPacket(r: Rules, a: Account, id: Bytes): Packet {
    Packet(id, SerialOf(r, a), OP_EOS, [])
  }

  function Enqueued(d: Road, p: Packet): Road {
    d.(waiting := d.waiting + [p], flight := d.flight + Fragments(p))
  }

  /** One read from the framer: straight to the parser, or into the receive buffer, whose refusal ends the relay. */
  function Pulled(next: Deframer, r: Rules, d: Road, n: nat): Road {
    var o := ReadStep(next, d.left, d.wire, n);
    if r.creates then d.(left := o.left, wire := o.unread, acc := d.acc + o.got)
    else
      var (q, res) := Pushed(d.relay, o.got);
      d.(left := o.left, wire := o.unread, relay := q, stopped := res.Err?)
  }

  /** The relay stops exactly when its buffer would grow past both its capacity plus 4096 and 8 MiB. */
  lemma StoppedExactly(next: Deframer, r: Rules, d: Road, n: nat)
    requires WellFormed(d.relay) && !d.relay.closed && !d.stopped && !r.creates
    ensures var size := |d.relay.data| + |ReadStep(next, d.left, d.wire, n).got|;
            Pulled(next, r, d, n).stopped <==> size > d.relay.cap + BUF_SIZE && size > BUF_SIZE_MAX
  {
    PushedExactly(d.relay, ReadStep(next, d.left, d.wire, n).got);
  }

  function Fetched(d: Road, n: nat): Road {
    var (q, reading) := Popped(d.relay, n);
    d.(relay := q, acc := d.acc + if reading.Chunk? then reading.got else [])
  }

  function Parsed(d: Road): Road {
    match ReadAny(d.acc)
    case Refused(_, _) => d
    case Got(_, rest) => d.(acc := rest, flight := if d.flight == [] then [] else d.flight[1..])
  }

  function Sending(r: Rules, a: Account, dat: Bytes): Account {
    a.(writes := a.writes + 1, sent := a.sent + dat,
       opening := if a.opening == None then Some(Opening(SerialOf(r, a), |dat|)) else a.opening)
  }

  /** A close draws a serial, too. */
  function Drawing(a: Account): Account {
    a.(closes := a.closes + 1)
  }

  function Taking(a: Account, n: nat, late: bool): Account
    requires Held(a, late).Some?
  {
    var (q, reading) := Popped(Held(a, late).value, n);
    var taken := a.taken + if reading.Chunk? then reading.got else [];
    if late then a.(gone := Some(q), taken := taken) else a.(queue := Some(q), taken := taken)
  }

  function Closing(a: Account, late: bool): Account
    requires Held(a, late).Some?
  {
    var q := Held(a, late).value.(closed := true);
    if late then a.(gone := Some(q)) else a.(queue := Some(q))
  }

  function Retiring(a: Account): Account {
    a.(queue := None, gone := a.queue)
  }

  /** One step; a step that is not enabled changes nothing. */
  ghost function Advance(next: Deframer, r: Rules, s: Line, step: Step): Line {
    if !Enabled(next, r, s, step) then s
    else match step
      case Send(id, dat) =>
        Put(s, id, Sending(r, At(s, id), dat))
          .(road := Enqueued(s.road, DataPacket(r, At(s, id), id, dat)))
      case Eos(id) =>
        Put(s, id, Drawing(At(s, id))).(road := Enqueued(s.road, EosPacket(r, At(s, id), id)))
      case Control(op) => s.(road := Enqueued(s.road, Packet([], 0, op, [])))
      case Start => s.(road := s.road.(waiting := s.road.waiting[1..], pieces := Pieces(Fragments(s.road.waiting[0]))))
      case Relay(frame) => s.(road := s.road.(pieces := s.road.pieces[1..], wire := s.road.wire + frame))
      case Skip => s.(road := s.road.(pieces := s.road.pieces[1..]))
      case Pull(n) => s.(road := Pulled(next, r, s.road, n))
      case Fetch(n) => s.(road := Fetched(s.road, n))
      case Deliver => Deposited(r, s, ReadAny(s.road.acc).p).(road := Parsed(s.road))
      case Take(id, n, late) => Put(s, id, Taking(At(s, id), n, late))
      case CloseBuffer(id, late) => Put(s, id, Closing(At(s, id), late))
      case Retire(id) => Put(s, id, Retiring(At(s, id)))
      case Register(id) => Put(s, id, At(s, id).(queue := Some(Fresh)))
  }

  // ---------------------------------------------------------------- the bytes between sender and receiver

  function AllFragments(ps: seq<Packet>): seq<Packet> {
    if ps == [] then [] else Fragments(ps[0]) + AllFragments(ps[1..])
  }

  lemma {:induction false} AllFragmentsAppend(ps: seq<Packet>, p: Packet)
    ensures AllFragments(ps + [p]) == AllFragments(ps) + Fragments(p)
  {
    if ps == [] {
      assert [p][1..] == [];
      assert Fragments(p) + [] == Fragments(p) && [] + Fragments(p) == Fragments(p);
    } else {
      assert (ps + [p])[1..] == ps[1..] + [p];
      AllFragmentsAppend(ps[1..], p);
    }
  }

  /** The bytes not yet put into frames. */
  function Unframed(d: Road): Bytes {
    Concat(d.pieces) + WireAll(AllFragments(d.waiting))
  }

  /** Every byte between the senders and the framer's reader, in order. */
  function Behind(next: Deframer, d: Road): Bytes {
    d.left + (Decoded(next, d.wire) + Unframed(d))
  }

  /**
   * While the relay runs, parser, receive buffer, leftover, frames and senders hold exactly the fragments in
   * flight. Once it has stopped, parser and receive buffer hold a front of them, and the rest will not come.
   */
  ghost predicate InOrder(next: Deframer, d: Road) {
    && Clean(next, d.wire)
    && WellFormed(d.relay) && !d.relay.closed
    && (forall i :: 0 <= i < |d.flight| ==> OneFragment(d.flight[i]))
    && if d.stopped then d.acc + d.relay.data <= WireAll(d.flight)
       else d.acc + (d.relay.data + Behind(next, d)) == WireAll(d.flight)
  }

  lemma MoreBehind(a: Bytes, b: Bytes, c: Bytes, more: Bytes)
    ensures (a + (b + c)) + more == a + (b + (c + more))
  {
  }

  lemma EnqueuedBehind(next: Deframer, d: Road, p: Packet)
    ensures Behind(next, Enqueued(d, p)) == Behind(next, d) + WireAll(Fragments(p))
  {
    AllFragmentsAppend(d.waiting, p);
    WireAllAppend(AllFragments(d.waiting), Fragments(p));
    var more := WireAll(Fragments(p));
    Assoc(Concat(d.pieces), WireAll(AllFragments(d.waiting)), more);
    MoreBehind(d.left, Decoded(next, d.wire), Unframed(d), more);
  }

  lemma EnqueueInOrder(next: Deframer, d: Road, p: Packet)
    requires InOrder(next, d) && Sendable(p)
    ensures InOrder(next, Enqueued(d, p))
  {
    WireAllAppend(d.flight, Fragments(p));
    forall i | 0 <= i < |Fragments(p)| ensures OneFragment(Fragments(p)[i]) {
      FragmentsAlike(p, Fragments(p)[i]);
    }
    EnqueuedBehind(next, d, p);
    MoreBehind(d.acc, d.relay.data, Behind(next, d), WireAll(Fragments(p)));
  }

  lemma StartInOrder(next: Deframer, d: Road)
    requires InOrder(next, d) && d.pieces == [] && d.waiting != []
    ensures InOrder(next, d.(waiting := d.waiting[1..], pieces := Pieces(Fragments(d.waiting[0]))))
  {
    PiecesSpellWire(Fragments(d.waiting[0]));
    WireAllAppend(Fragments(d.waiting[0]), AllFragments(d.waiting[1..]));
    assert Concat(d.pieces) + WireAll(AllFragments(d.waiting)) == WireAll(AllFragments(d.waiting));
  }

  lemma RelayInOrder(next: Deframer, d: Road, frame: Bytes)
    requires Stable(next) && InOrder(next, d) && d.pieces != [] && Carries(next, frame, d.pieces[0])
    ensures InOrder(next, d.(pieces := d.pieces[1..], wire := d.wire + frame))
  {
    OneFrameMore(next, d.wire, frame, d.pieces[0]);
    Assoc(d.pieces[0], Concat(d.pieces[1..]), WireAll(AllFragments(d.waiting)));
    Assoc(Decoded(next, d.wire), d.pieces[0], Unframed(d.(pieces := d.pieces[1..])));
  }

  lemma SkipInOrder(next: Deframer, d: Road)
    requires InOrder(next, d) && d.pieces != [] && d.pieces[0] == []
    ensures InOrder(next, d.(pieces := d.pieces[1..]))
  {
    assert [] + Concat(d.pieces[1..]) == Concat(d.pieces[1..]);
  }

  /** What a read takes from leftover and frames is the front of what was there. */
  lemma ReadFromBehind(next: Deframer, d: Road, n: nat)
    requires Stable(next) && ReadStep(next, d.left, d.wire, n).error == None
    ensures var o := ReadStep(next, d.left, d.wire, n);
            o.got + Behind(next, d.(left := o.left, wire := o.unread)) == Behind(next, d)
  {
    var o := ReadStep(next, d.left, d.wire, n);
    ReadConserves(next, d.left, d.wire, n);
    var u := Unframed(d);
    Assoc(d.left, Decoded(next, d.wire), u);
    Assoc(o.got, o.left + Decoded(next, o.unread), u);
    Assoc(o.left, Decoded(next, o.unread), u);
  }

  /** Bytes move from the framer to the parser or the receive buffer in order; a refused chunk ends the relay. */
  lemma PullInOrder(next: Deframer, r: Rules, d: Road, n: nat)
    requires Stable(next) && InOrder(next, d) && !d.stopped && (r.creates ==> d.relay == Fresh)
    requires ReadStep(next, d.left, d.wire, n).error == None
    ensures InOrder(next, Pulled(next, r, d, n))
  {
    var o := ReadStep(next, d.left, d.wire, n);
    ReadConserves(next, d.left, d.wire, n);
    ReadFromBehind(next, d, n);
    var rest := Behind(next, d.(left := o.left, wire := o.unread));
    if r.creates {
      EmptyBetween(d.acc, o.got, rest);
    } else {
      PushedExactly(d.relay, o.got);
      Assoc(d.relay.data, o.got, rest);
      Assoc(d.acc, d.relay.data, o.got + rest);
    }
  }

  lemma EmptyBetween(a: Bytes, b: Bytes, c: Bytes)
    ensures a + ([] + (b + c)) == (a + b) + ([] + c)
  {
  }

  lemma FetchInOrder(next: Deframer, d: Road, n: nat)
    requires InOrder(next, d)
    ensures InOrder(next, Fetched(d, n))
  {
    var (q, reading) := Popped(d.relay, n);
    var got := if reading.Chunk? then reading.got else [];
    PoppedSplits(d.relay, n);
    MovedOver(d.acc, got, q.data, Behind(next, d));
    Assoc(d.acc, got, q.data);
  }

  lemma PoppedSplits(q: Queue, n: nat)
    ensures var (q', reading) := Popped(q, n);
            q.data == (if reading.Chunk? then reading.got else []) + q'.data && q' == q.(data := q'.data)
  {
  }

  lemma MovedOver(a: Bytes, b: Bytes, c: Bytes, d: Bytes)
    ensures (a + b) + (c + d) == a + ((b + c) + d)
  {
  }

  /** What the parser has is a front of the fragments in flight. */
  lemma ParserHasFront(next: Deframer, d: Road)
    requires InOrder(next, d)
    ensures d.acc + d.relay.data <= WireAll(d.flight) && d.acc <= WireAll(d.flight)
  {
    if !d.stopped {
      Assoc(d.acc, d.relay.data, Behind(next, d));
    }
  }

  lemma ReadFirst(ps: seq<Packet>)
    requires ps != [] && OneFragment(ps[0])
    ensures ReadAny(WireAll(ps)) == Got(AsRead(ps[0]), WireAll(ps[1..]))
  {
    PacketRoundTrip(ps[0], WireAll(ps[1..]));
  }

  /** A packet completed from a front of some fragments is the first of them. */
  lemma FirstFragment(acc: Bytes, tail: Bytes, ps: seq<Packet>)
    requires acc + tail == WireAll(ps) && ReadAny(acc).Got? && (ps != [] ==> OneFragment(ps[0]))
    ensures ps != [] && ReadAny(acc).p == AsRead(ps[0]) && ReadAny(acc).rest + tail == WireAll(ps[1..])
  {
    if ps != [] {
      ReadExtends(acc, tail);
      ReadFirst(ps);
    }
  }

  /** What follows the bytes the parser has gathered. */
  lemma BehindParser(next: Deframer, d: Road) returns (tail: Bytes)
    requires InOrder(next, d)
    ensures d.acc + tail == WireAll(d.flight)
    ensures if d.stopped then d.relay.data <= tail else tail == d.relay.data + Behind(next, d)
  {
    if d.stopped {
      tail := SplitFront(d.acc, d.relay.data, WireAll(d.flight));
    } else {
      tail := d.relay.data + Behind(next, d);
    }
  }

  lemma SplitFront(a: Bytes, b: Bytes, all: Bytes) returns (tail: Bytes)
    requires a + b <= all
    ensures a + tail == all && b <= tail
  {
    var more := all[|a + b|..];
    tail := b + more;
    Assoc(a, b, more);
  }

  lemma FrontAgain(a: Bytes, b: Bytes, tail: Bytes)
    requires b <= tail
    ensures a + b <= a + tail
  {
    Assoc(a, b, tail[|b|..]);
  }

  /** A packet the parser completes is the oldest fragment in flight, and the rest stays in order. */
  lemma DeliverInOrder(next: Deframer, d: Road)
    requires InOrder(next, d) && ReadAny(d.acc).Got?
    ensures d.flight != [] && ReadAny(d.acc).p == AsRead(d.flight[0])
    ensures InOrder(next, Parsed(d))
  {
    var tail := BehindParser(next, d);
    FirstFragment(d.acc, tail, d.flight);
    if d.stopped {
      FrontAgain(ReadAny(d.acc).rest, d.relay.data, tail);
    }
  }

  // ---------------------------------------------------------------- the books of one client

  predicate Mine(id: Bytes, p: Packet) {
    p.op == OP_DATA && p.clientId == id
  }

  function MyData(id: Bytes, p: Packet): Bytes {
    if Mine(id, p) then p.data else []
  }

  function MySerial(id: Bytes, p: Packet): seq<nat> {
    if Mine(id, p) then [p.serial] else []
  }

  /** The data of one client among some fragments. */
  function Payload(id: Bytes, ps: seq<Packet>): Bytes {
    if ps == [] then [] else MyData(id, ps[0]) + Payload(id, ps[1..])
  }

  /** The serials of one client's data fragments. */
  function Serials(id: Bytes, ps: seq<Packet>): seq<nat> {
    if ps == [] then [] else MySerial(id, ps[0]) + Serials(id, ps[1..])
  }

  lemma {:induction false} PayloadAppend(id: Bytes, a: seq<Packet>, b: seq<Packet>)
    ensures Payload(id, a + b) == Payload(id, a) + Payload(id, b)
  {
    if a == [] {
      assert a + b == b;
    } else {
      assert (a + b)[1..] == a[1..] + b;
      PayloadAppend(id, a[1..], b);
      Assoc(MyData(id, a[0]), Payload(id, a[1..]), Payload(id, b));
    }
  }

  lemma {:induction false} SerialsAppend(id: Bytes, a: seq<Packet>, b: seq<Packet>)
    ensures Serials(id, a + b) == Serials(id, a) + Serials(id, b)
  {
    if a == [] {
      assert a + b == b;
    } else {
      assert (a + b)[1..] == a[1..] + b;
      SerialsAppend(id, a[1..], b);
    }
  }

  lemma JustOne(id: Bytes, p: Packet)
    ensures Payload(id, [p]) == MyData(id, p) && Serials(id, [p]) == MySerial(id, p)
  {
    assert [p][1..] == [];
    assert Payload(id, [p]) == MyData(id, p) + Payload(id, []);
    assert Serials(id, [p]) == MySerial(id, p) + Serials(id, []);
  }

  /** Fragmenting changes nothing for any client: the packet's data goes to its own client, all of it. */
  lemma {:induction false} PayloadOfPacket(id: Bytes, p: Packet)
    ensures Payload(id, Fragments(p)) == MyData(id, p)
    decreases |p.data|
  {
    if |p.data| <= MAX_PACKET_SIZE {
      JustOne(id, p);
    } else {
      var first, rest := p.(data := p.data[..MAX_PACKET_SIZE]), p.(data := p.data[MAX_PACKET_SIZE..]);
      JustOne(id, first);
      PayloadOfPacket(id, rest);
      PayloadAppend(id, [first], Fragments(rest));
      assert p.data == first.data + rest.data;
    }
  }

  lemma {:induction false} SerialsOfPacket(id: Bytes, p: Packet)
    ensures forall n :: n in Serials(id, Fragments(p)) ==> n == p.serial
    ensures Serials(id, Fragments(p)) == [] <==> !Mine(id, p)
    ensures |p.data| <= MAX_PACKET_SIZE ==> Serials(id, Fragments(p)) == MySerial(id, p)
    decreases |p.data|
  {
    if |p.data| <= MAX_PACKET_SIZE {
      JustOne(id, p);
    } else {
      var first, rest := p.(data := p.data[..MAX_PACKET_SIZE]), p.(data := p.data[MAX_PACKET_SIZE..]);
      JustOne(id, first);
      SerialsOfPacket(id, rest);
      SerialsAppend(id, [first], Fragments(rest));
    }
  }
}
