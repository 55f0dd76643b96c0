/**
 * The whole stack: one trunk with its two lines, s1 messages on top, real frame formats below. Every claim is
 * about every run, whatever the number of clients, the interleaving and the sizes of reads and writes.
 */
module Tunnel {
  import opened Bytes
  import opened Stream
  import opened FrameStream
  import opened Encryption
  import opened Framing
  import opened Packets
  import opened ReceiveBuffer
  import opened Line
  import opened Books
  import opened Draining
  import Messages
  import Handshake

  // ---------------------------------------------------------------- the two lines together

  /**
   * Client to server, and server to client, and whether the trunk client's RelayTraffic has returned. One loop of
   * it writes the frames up, and it returns when its reading goroutine has met an error or the trunk client has been
   * closed, because it is to leave the pool or no pong has come.
   */
  datatype Trunk = Trunk(up: Line, down: Line, over: bool)

  /** The deframers at the server and at the client, and whether server instances may end. */
  datatype Setup = Setup(atServer: Deframer, atClient: Deframer, exits: bool)

  function UpRules(w: Setup): Rules {
    Rules(true, w.exits)
  }

  function DownRules(w: Setup): Rules {
    Rules(false, w.exits)
  }

  /**
   * What clients, instances, the two write loops, the wire, the relay and the two read loops may do. A closed
   * client and an ended instance may still write, read what their buffer holds, and close it again; `late` tells
   * which of the two buffers of an id its holder has. `byServer`: the handler ended, so an end-of-stream packet
   * is sent.
   */
  datatype Action =
    | ClientOpen(id: Bytes)
    | ClientWrite(id: Bytes, dat: Bytes)
    | ClientRead(id: Bytes, n: nat, late: bool)
    | ClientClose(id: Bytes)
    | ClientPing
    | RelayReturn
    | TrunkClose
    | InstanceWrite(id: Bytes, dat: Bytes)
    | InstanceRead(id: Bytes, n: nat, late: bool)
    | InstanceClose(id: Bytes, late: bool)
    | InstanceEnd(id: Bytes, byServer: bool)
    | UpCarry(step: Step)
    | DownCarry(step: Step)
    | UpDeliver
    | DownDeliver

  /** Steps of the write loop, the wire, the framer's reader and the relay. */
  predicate Carrying(step: Step) {
    step.Start? || step.Relay? || step.Skip? || step.Pull? || step.Fetch?
  }

  ghost function Up(w: Setup, t: Trunk, step: Step): Trunk {
    t.(up := Advance(w.atServer, UpRules(w), t.up, step))
  }

  ghost function Down(w: Setup, t: Trunk, step: Step): Trunk {
    t.(down := Advance(w.atClient, DownRules(w), t.down, step))
  }

  /**
   * dividedClient.Close: the first time the buffer ends and leaves the map; every time a packet is written, unless
   * the relay loop has returned.
   */
  ghost function Closed(w: Setup, t: Trunk, id: Bytes): Trunk {
    var t' := Down(w, Down(w, t, CloseBuffer(id, false)), Retire(id));
    if t.over then t' else Up(w, t', Eos(id))
  }

  ghost function Ended(w: Setup, t: Trunk, id: Bytes, byServer: bool): Trunk {
    if byServer then Down(w, Up(w, t, Retire(id)), Eos(id)) else Up(w, t, Retire(id))
  }

  /** A ping is answered through the reply channel. */
  ghost function Delivered(w: Setup, t: Trunk): Trunk {
    if ReadAny(t.up.road.acc).Got? && ReadAny(t.up.road.acc).p.op == OP_PING
    then Down(w, Up(w, t, Deliver), Control(OP_PONG))
    else Up(w, t, Deliver)
  }

  /**
   * Once the relay loop has returned, clients' writes and pings fail, no piece is framed any more, and no more is
   * read from the trunk client's buffer; what has been framed still reaches the server.
   */
  ghost function Act(w: Setup, t: Trunk, a: Action): Trunk {
    match a
    case ClientOpen(id) => Down(w, t, Register(id))
    case ClientWrite(id, dat) => if Known(At(t.down, id)) && !t.over then Up(w, t, Send(id, dat)) else t
    case ClientRead(id, n, late) => Down(w, t, Take(id, n, late))
    case ClientClose(id) => if Known(At(t.down, id)) then Closed(w, t, id) else t
    case ClientPing => if t.over then t else Up(w, t, Control(OP_PING))
    case RelayReturn => if t.down.road.stopped then t.(over := true) else t
    case TrunkClose => t.(over := true)
    case InstanceWrite(id, dat) => if Known(At(t.up, id)) then Down(w, t, Send(id, dat)) else t
    case InstanceRead(id, n, late) => Up(w, t, Take(id, n, late))
    case InstanceClose(id, late) => Up(w, t, CloseBuffer(id, late))
    case InstanceEnd(id, byServer) => if At(t.up, id).queue.Some? then Ended(w, t, id, byServer) else t
    case UpCarry(step) => if Carrying(step) && !(t.over && FramingStep(step)) then Up(w, t, step) else t
    case DownCarry(step) => if Carrying(step) && !(t.over && step.Fetch?) then Down(w, t, step) else t
    case UpDeliver => Delivered(w, t)
    case DownDeliver => Down(w, t, Deliver)
  }

  ghost function Run(w: Setup, actions: seq<Action>): Trunk {
    if actions == [] then Trunk(Quiet, Quiet, false)
    else Act(w, Run(w, actions[..|actions| - 1]), actions[|actions| - 1])
  }

  ghost predicate TrunkInv(w: Setup, t: Trunk) {
    Inv(w.atServer, UpRules(w), t.up) && Inv(w.atClient, DownRules(w), t.down)
  }

  predicate ByClient(a: Action) {
    a.ClientOpen? || a.ClientWrite? || a.ClientRead? || a.ClientClose? || a.ClientPing? || a.RelayReturn?
    || a.TrunkClose?
  }

  predicate ByInstance(a: Action) {
    a.InstanceWrite? || a.InstanceRead? || a.InstanceClose? || a.InstanceEnd?
  }

  /** Both deframers take up complete frames. */
  ghost predicate Sound(w: Setup) {
    Stable(w.atServer) && Stable(w.atClient)
  }

  // ---------------------------------------------------------------- every action keeps the invariant

  lemma UpKeeps(w: Setup, t: Trunk, step: Step)
    requires Sound(w) && TrunkInv(w, t)
    ensures TrunkInv(w, Up(w, t, step))
  {
    StepKeepsInv(w.atServer, UpRules(w), t.up, step);
  }

  lemma DownKeeps(w: Setup, t: Trunk, step: Step)
    requires Sound(w) && TrunkInv(w, t)
    ensures TrunkInv(w, Down(w, t, step))
  {
    StepKeepsInv(w.atClient, DownRules(w), t.down, step);
  }

  lemma CloseKeeps(w: Setup, t: Trunk, id: Bytes)
    requires Sound(w) && TrunkInv(w, t)
    ensures TrunkInv(w, Closed(w, t, id))
  {
    DownKeeps(w, t, CloseBuffer(id, false));
    DownKeeps(w, Down(w, t, CloseBuffer(id, false)), Retire(id));
    UpKeeps(w, Down(w, Down(w, t, CloseBuffer(id, false)), Retire(id)), Eos(id));
  }

  lemma EndKeeps(w: Setup, t: Trunk, id: Bytes, byServer: bool)
    requires Sound(w) && TrunkInv(w, t)
    ensures TrunkInv(w, Ended(w, t, id, byServer))
  {
    UpKeeps(w, t, Retire(id));
    DownKeeps(w, Up(w, t, Retire(id)), Eos(id));
  }

  lemma DeliverKeeps(w: Setup, t: Trunk)
    requires Sound(w) && TrunkInv(w, t)
    ensures TrunkInv(w, Delivered(w, t))
  {
    UpKeeps(w, t, Deliver);
    DownKeeps(w, Up(w, t, Deliver), Control(OP_PONG));
  }

  lemma ClientActKeeps(w: Setup, t: Trunk, a: Action)
    requires Sound(w) && TrunkInv(w, t) && ByClient(a)
    ensures TrunkInv(w, Act(w, t, a))
  {
    match a
    case ClientOpen(id) => DownKeeps(w, t, Register(id));
    case ClientWrite(id, dat) => UpKeeps(w, t, Send(id, dat));
    case ClientRead(id, n, late) => DownKeeps(w, t, Take(id, n, late));
    case ClientClose(id) => CloseKeeps(w, t, id);
    case ClientPing => UpKeeps(w, t, Control(OP_PING));
    case RelayReturn =>
    case TrunkClose =>
  }

  lemma InstanceActKeeps(w: Setup, t: Trunk, a: Action)
    requires Sound(w) && TrunkInv(w, t) && ByInstance(a)
    ensures TrunkInv(w, Act(w, t, a))
  {
    match a
    case InstanceWrite(id, dat) => DownKeeps(w, t, Send(id, dat));
    case InstanceRead(id, n, late) => UpKeeps(w, t, Take(id, n, late));
    case InstanceClose(id, late) => UpKeeps(w, t, CloseBuffer(id, late));
    case InstanceEnd(id, byServer) => EndKeeps(w, t, id, byServer);
  }

  lemma ActKeeps(w: Setup, t: Trunk, a: Action)
    requires Sound(w) && TrunkInv(w, t)
    ensures TrunkInv(w, Act(w, t, a))
  {
    match a
    case UpCarry(step) => UpKeeps(w, t, step);
    case DownCarry(step) => DownKeeps(w, t, step);
    case UpDeliver => DeliverKeeps(w, t);
    case DownDeliver => DownKeeps(w, t, Deliver);
    case _ =>
      if ByInstance(a) {
        InstanceActKeeps(w, t, a);
      } else {
        ClientActKeeps(w, t, a);
      }
  }

  /**
   * The trunk invariant, in every reachable state of client, trunk and server: in both directions the bytes of
   * each client are accounted for, and what is on the road is in order.
   */
  lemma {:induction false} TrunkConserves(w: Setup, actions: seq<Action>)
    requires Sound(w)
    ensures TrunkInv(w, Run(w, actions))
  {
    if actions == [] {
      QuietInv(w.atServer, UpRules(w));
      QuietInv(w.atClient, DownRules(w));
    } else {
      TrunkConserves(w, actions[..|actions| - 1]);
      ActKeeps(w, Run(w, actions[..|actions| - 1]), actions[|actions| - 1]);
    }
  }

  // ---------------------------------------------------------------- what the invariant says

  /** No data of this client was refused by a full buffer, and none opened a buffer in mid-stream. */
  predicate Whole(a: Account) {
    !a.refused && !a.reopened
  }

  /** What has been read is a front of what was written. */
  lemma ReadIsPrefix(next: Deframer, r: Rules, s: Line, id: Bytes)
    requires Inv(next, r, s) && Whole(At(s, id))
    ensures At(s, id).taken <= At(s, id).sent
  {
    assert GoodAt(r, s, id);
  }

  /** Once nothing of a client is in flight or buffered, everything it wrote has been read. */
  lemma DrainedMeansAll(next: Deframer, r: Rules, s: Line, id: Bytes)
    requires Inv(next, r, s)
    requires var a := At(s, id);
             Whole(a) && a.gone == None && a.queue.Some? && a.queue.value.data == [] && !a.queue.value.closed
    requires Payload(id, s.road.flight) == []
    ensures At(s, id).taken == At(s, id).sent
  {
    assert GoodAt(r, s, id);
    assert At(s, id).taken + ([] + []) == At(s, id).taken;
  }

  /** The packet parser at the end of a line finds a complete packet or waits for more; it never refuses. */
  lemma ParserNeverRefuses(next: Deframer, r: Rules, s: Line)
    requires Inv(next, r, s)
    ensures var p := ReadAny(s.road.acc); p.Got? || p == Refused(EOF, []) || p == Refused(UnexpectedEOF, [])
  {
    ParserHasFront(next, s.road);
    FrontNeverRefused(s.road.acc, s.road.flight);
  }

  lemma FrontNeverRefused(acc: Bytes, ps: seq<Packet>)
    requires acc <= WireAll(ps) && (ps != [] ==> OneFragment(ps[0]))
    ensures var p := ReadAny(acc); p.Got? || p == Refused(EOF, []) || p == Refused(UnexpectedEOF, [])
  {
    if ps != [] {
      var first, others := Wire(ps[0]), WireAll(ps[1..]);
      if |acc| < |first| {
        assert acc <= first;
        CutShort(ps[0], acc);
      } else {
        Messages.SplitPrefix(acc, first, others);
        PacketRoundTrip(ps[0], acc[|first|..]);
      }
    }
  }

  // ---------------------------------------------------------------- what callers can do about it

  lemma EndRefuses(w: Setup, t: Trunk, id: Bytes, byServer: bool, other: Bytes)
    ensures At(Ended(w, t, id, byServer).up, other).refused == At(t.up, other).refused
    ensures At(Ended(w, t, id, byServer).down, other).refused == At(t.down, other).refused
  {
    OnlyArrivalsRefuse(w.atServer, UpRules(w), t.up, Retire(id), other);
    OnlyArrivalsRefuse(w.atClient, DownRules(w), t.down, Eos(id), other);
  }

  lemma CloseRefuses(w: Setup, t: Trunk, id: Bytes, other: Bytes)
    ensures At(Closed(w, t, id).up, other).refused == At(t.up, other).refused
    ensures At(Closed(w, t, id).down, other).refused == At(t.down, other).refused
  {
    var t1 := Down(w, t, CloseBuffer(id, false));
    OnlyArrivalsRefuse(w.atClient, DownRules(w), t.down, CloseBuffer(id, false), other);
    OnlyArrivalsRefuse(w.atClient, DownRules(w), t1.down, Retire(id), other);
    OnlyArrivalsRefuse(w.atServer, UpRules(w), t.up, Eos(id), other);
  }

  lemma UpDeliverRefuses(w: Setup, t: Trunk, id: Bytes)
    requires TrunkInv(w, t)
    ensures !At(t.up, id).refused && Outstanding(At(t.up, id)) <= BUF_SIZE_MAX ==> !At(Delivered(w, t).up, id).refused
    ensures At(Delivered(w, t).down, id).refused == At(t.down, id).refused
  {
    if !At(t.up, id).refused && Outstanding(At(t.up, id)) <= BUF_SIZE_MAX {
      StepRefuses(w.atServer, UpRules(w), t.up, Deliver, id);
    }
    OnlyArrivalsRefuse(w.atClient, DownRules(w), t.down, Control(OP_PONG), id);
  }

  /** Not more than 8 MiB of this client are on their way or unread, in either direction. */
  predicate Modest(t: Trunk, id: Bytes) {
    Outstanding(At(t.up, id)) <= BUF_SIZE_MAX && Outstanding(At(t.down, id)) <= BUF_SIZE_MAX
  }

  predicate Spared(t: Trunk, id: Bytes) {
    !At(t.up, id).refused && !At(t.down, id).refused
  }

  lemma UpSpares(w: Setup, t: Trunk, step: Step, id: Bytes)
    requires TrunkInv(w, t) && Spared(t, id) && Modest(t, id)
    ensures Spared(Up(w, t, step), id)
  {
    StepRefuses(w.atServer, UpRules(w), t.up, step, id);
  }

  lemma DownSpares(w: Setup, t: Trunk, step: Step, id: Bytes)
    requires TrunkInv(w, t) && Spared(t, id) && Modest(t, id)
    ensures Spared(Down(w, t, step), id)
  {
    StepRefuses(w.atClient, DownRules(w), t.down, step, id);
  }

  lemma ClientActSpares(w: Setup, t: Trunk, a: Action, id: Bytes)
    requires TrunkInv(w, t) && Spared(t, id) && Modest(t, id) && ByClient(a)
    ensures Spared(Act(w, t, a), id)
  {
    match a
    case ClientOpen(other) => DownSpares(w, t, Register(other), id);
    case ClientWrite(other, dat) => UpSpares(w, t, Send(other, dat), id);
    case ClientRead(other, n, late) => DownSpares(w, t, Take(other, n, late), id);
    case ClientClose(other) => CloseRefuses(w, t, other, id);
    case ClientPing => UpSpares(w, t, Control(OP_PING), id);
    case RelayReturn =>
    case TrunkClose =>
  }

  lemma InstanceActSpares(w: Setup, t: Trunk, a: Action, id: Bytes)
    requires TrunkInv(w, t) && Spared(t, id) && Modest(t, id) && ByInstance(a)
    ensures Spared(Act(w, t, a), id)
  {
    match a
    case InstanceWrite(other, dat) => DownSpares(w, t, Send(other, dat), id);
    case InstanceRead(other, n, late) => UpSpares(w, t, Take(other, n, late), id);
    case InstanceClose(other, late) => UpSpares(w, t, CloseBuffer(other, late), id);
    case InstanceEnd(other, byServer) => EndRefuses(w, t, other, byServer, id);
  }

  lemma ActSpares(w: Setup, t: Trunk, a: Action, id: Bytes)
    requires TrunkInv(w, t) && Spared(t, id) && Modest(t, id)
    ensures Spared(Act(w, t, a), id)
  {
    match a
    case UpCarry(step) => UpSpares(w, t, step, id);
    case DownCarry(step) => DownSpares(w, t, step, id);
    case UpDeliver => UpDeliverRefuses(w, t, id);
    case DownDeliver => DownSpares(w, t, Deliver, id);
    case _ =>
      if ByInstance(a) {
        InstanceActSpares(w, t, a, id);
      } else {
        ClientActSpares(w, t, a, id);
      }
  }

  /** An id that never has more than 8 MiB outstanding loses nothing to a full buffer. */
  lemma {:induction false} ModestIsSpared(w: Setup, actions: seq<Action>, id: Bytes)
    requires Sound(w)
    requires forall i :: 0 <= i < |actions| ==> Modest(Run(w, actions[..i]), id)
    ensures Spared(Run(w, actions), id)
  {
    if actions != [] {
      var front := actions[..|actions| - 1];
      forall i | 0 <= i < |front| ensures front[..i] == actions[..i] {
      }
      ModestIsSpared(w, front, id);
      TrunkConserves(w, front);
      ActSpares(w, Run(w, front), actions[|actions| - 1], id);
    }
  }

  /** Such an id, whose serials have not wrapped and whose first write fits one fragment, has whole streams. */
  lemma ModestAndTameIsWhole(w: Setup, actions: seq<Action>, id: Bytes)
    requires Sound(w)
    requires forall i :: 0 <= i < |actions| ==> Modest(Run(w, actions[..i]), id)
    requires Tame(UpRules(w), At(Run(w, actions).up, id))
    ensures Whole(At(Run(w, actions).up, id)) && Whole(At(Run(w, actions).down, id))
  {
    ModestIsSpared(w, actions, id);
    TrunkConserves(w, actions);
    TameNeverReopens(w.atServer, UpRules(w), Run(w, actions).up, id);
    TameNeverReopens(w.atClient, DownRules(w), Run(w, actions).down, id);
  }

  // ---------------------------------------------------------------- a close before the first write

  /**
   * Open, close, write: the end-of-stream packet has drawn serial 0, so the data goes out with serial 1, and the
   * server, which knows no such client, drops it.
   */
  lemma WriteAfterCloseIsLost(w: Setup, id: Bytes, dat: Bytes)
    requires GoodId(id) && |dat| <= MAX_PACKET_SIZE
    ensures var t := Run(w, [ClientOpen(id), ClientClose(id), ClientWrite(id, dat)]);
            && t.up.road.flight == [Packet(id, 0, OP_EOS, []), Packet(id, 1, OP_DATA, dat)]
            && RouteServer(map[], t.up.road.flight[1]) == map[]
            && Arrival(UpRules(w), At(t.up, id), 1, dat).lost
  {
    var open, close, write := ClientOpen(id), ClientClose(id), ClientWrite(id, dat);
    var t1 := Act(w, Run(w, []), open);
    var t2 := Act(w, t1, close);
    ThreeActions(w, open, close, write);
    AfterClose(w, t1, id);
    WriteAfterClose(w, t2, id, dat);
  }

  lemma WriteAfterClose(w: Setup, t: Trunk, id: Bytes, dat: Bytes)
    requires GoodId(id) && |dat| <= MAX_PACKET_SIZE && Known(At(t.down, id)) && !t.over
    requires At(t.up, id) == NewAccount.(closes := 1) && t.up.road.flight == [Packet(id, 0, OP_EOS, [])]
    ensures var t' := Act(w, t, ClientWrite(id, dat));
            && t'.up.road.flight == [Packet(id, 0, OP_EOS, []), Packet(id, 1, OP_DATA, dat)]
            && Arrival(UpRules(w), At(t'.up, id), 1, dat).lost
  {
    assert Fragments(Packet(id, 1, OP_DATA, dat)) == [Packet(id, 1, OP_DATA, dat)];
  }

  lemma ThreeActions(w: Setup, a: Action, b: Action, c: Action)
    ensures Run(w, [a, b, c]) == Act(w, Act(w, Act(w, Run(w, []), a), b), c)
  {
    assert [a, b, c][..2] == [a, b] && [a, b][..1] == [a] && [a][..0] == [];
    assert Run(w, [a]) == Act(w, Run(w, []), a);
    assert Run(w, [a, b]) == Act(w, Run(w, [a]), b);
  }

  lemma AfterClose(w: Setup, t: Trunk, id: Bytes)
    requires Known(At(t.down, id)) && t.up == Quiet && !t.over
    ensures var t' := Closed(w, t, id);
            && Known(At(t'.down, id)) && At(t'.up, id) == NewAccount.(closes := 1)
            && t'.up.road.flight == [Packet(id, 0, OP_EOS, [])] && !t'.over
  {
    assert [] + Fragments(Packet(id, 0, OP_EOS, [])) == [Packet(id, 0, OP_EOS, [])];
  }

  // ---------------------------------------------------------------- replies

  /** Every id that has written is the id of a client that was opened. */
  ghost predicate Opened(t: Trunk) {
    forall id {:trigger At(t.up, id)} :: At(t.up, id).writes > 0 ==> GoodId(id) && Known(At(t.down, id))
  }

  lemma StaysKnown(next: Deframer, r: Rules, s: Line, step: Step, id: Bytes)
    requires Known(At(s, id)) && Formed(At(s, id))
    ensures Known(At(Advance(next, r, s, step), id))
  {
  }

  lemma WritesAreSends(next: Deframer, r: Rules, s: Line, step: Step, id: Bytes)
    ensures At(Advance(next, r, s, step), id).writes == At(s, id).writes ||
            (step.Send? && step.id == id && GoodId(id))
  {
    if step.Deliver? {
      if Enabled(next, r, s, step) {
        var p := ReadAny(s.road.acc).p;
        ArrivalContinues(r, At(s, id), p.serial, p.data);
      }
    }
  }

  lemma UpKeepsOpened(w: Setup, t: Trunk, step: Step)
    requires Opened(t) && (step.Send? ==> Known(At(t.down, step.id)))
    ensures Opened(Up(w, t, step))
  {
    var t' := Up(w, t, step);
    forall id | At(t'.up, id).writes > 0 ensures GoodId(id) && Known(At(t'.down, id)) {
      WritesAreSends(w.atServer, UpRules(w), t.up, step, id);
    }
  }

  lemma DownKeepsOpened(w: Setup, t: Trunk, step: Step)
    requires TrunkInv(w, t) && Opened(t)
    ensures Opened(Down(w, t, step))
  {
    var t' := Down(w, t, step);
    forall id | At(t'.up, id).writes > 0 ensures GoodId(id) && Known(At(t'.down, id)) {
      assert At(t.up, id).writes > 0;
      assert GoodAt(DownRules(w), t.down, id);
      StaysKnown(w.atClient, DownRules(w), t.down, step, id);
    }
  }

  lemma CloseKeepsOpened(w: Setup, t: Trunk, id: Bytes)
    requires Sound(w) && TrunkInv(w, t) && Opened(t)
    ensures Opened(Closed(w, t, id))
  {
    var t1 := Down(w, t, CloseBuffer(id, false));
    var t2 := Down(w, t1, Retire(id));
    DownKeeps(w, t, CloseBuffer(id, false));
    DownKeepsOpened(w, t, CloseBuffer(id, false));
    DownKeepsOpened(w, t1, Retire(id));
    UpKeepsOpened(w, t2, Eos(id));
  }

  lemma UpThenDownKeepsOpened(w: Setup, t: Trunk, step: Step, answer: Step)
    requires Sound(w) && TrunkInv(w, t) && Opened(t) && !step.Send?
    ensures Opened(Up(w, t, step)) && Opened(Down(w, Up(w, t, step), answer))
  {
    UpKeeps(w, t, step);
    UpKeepsOpened(w, t, step);
    DownKeepsOpened(w, Up(w, t, step), answer);
  }

  lemma ClientActKeepsOpened(w: Setup, t: Trunk, a: Action)
    requires Sound(w) && TrunkInv(w, t) && Opened(t) && ByClient(a)
    ensures Opened(Act(w, t, a))
  {
    match a
    case ClientOpen(id) => DownKeepsOpened(w, t, Register(id));
    case ClientWrite(id, dat) => if Known(At(t.down, id)) { UpKeepsOpened(w, t, Send(id, dat)); }
    case ClientRead(id, n, late) => DownKeepsOpened(w, t, Take(id, n, late));
    case ClientClose(id) => CloseKeepsOpened(w, t, id);
    case ClientPing => UpKeepsOpened(w, t, Control(OP_PING));
    case RelayReturn =>
    case TrunkClose =>
  }

  lemma InstanceActKeepsOpened(w: Setup, t: Trunk, a: Action)
    requires Sound(w) && TrunkInv(w, t) && Opened(t) && ByInstance(a)
    ensures Opened(Act(w, t, a))
  {
    match a
    case InstanceWrite(id, dat) => DownKeepsOpened(w, t, Send(id, dat));
    case InstanceRead(id, n, late) => UpKeepsOpened(w, t, Take(id, n, late));
    case InstanceClose(id, late) => UpKeepsOpened(w, t, CloseBuffer(id, late));
    case InstanceEnd(id, byServer) => UpThenDownKeepsOpened(w, t, Retire(id), Eos(id));
  }

  lemma ActKeepsOpened(w: Setup, t: Trunk, a: Action)
    requires Sound(w) && TrunkInv(w, t) && Opened(t)
    ensures Opened(Act(w, t, a))
  {
    match a
    case UpCarry(step) => if Carrying(step) { UpKeepsOpened(w, t, step); }
    case DownCarry(step) => DownKeepsOpened(w, t, step);
    case UpDeliver => UpThenDownKeepsOpened(w, t, Deliver, Control(OP_PONG));
    case DownDeliver => DownKeepsOpened(w, t, Deliver);
    case _ =>
      if ByInstance(a) {
        InstanceActKeepsOpened(w, t, a);
      } else {
        ClientActKeepsOpened(w, t, a);
      }
  }

  lemma {:induction false} RunKeepsOpened(w: Setup, actions: seq<Action>)
    requires Sound(w)
    ensures Opened(Run(w, actions))
  {
    if actions != [] {
      TrunkConserves(w, actions[..|actions| - 1]);
      RunKeepsOpened(w, actions[..|actions| - 1]);
      ActKeepsOpened(w, Run(w, actions[..|actions| - 1]), actions[|actions| - 1]);
    }
  }

  /** An instance, ended or not, can always reply: its client has been opened, so the reply has an owner. */
  lemma RepliesHaveOwners(w: Setup, actions: seq<Action>, id: Bytes, dat: Bytes)
    requires Sound(w)
    ensures var t := Run(w, actions);
            Known(At(t.up, id)) ==> Enabled(w.atClient, DownRules(w), t.down, Send(id, dat))
  {
    TrunkConserves(w, actions);
    RunKeepsOpened(w, actions);
    assert GoodAt(UpRules(w), Run(w, actions).up, id);
  }

  // ---------------------------------------------------------------- messages over the real frame formats

  /** The full-stack theorem, one line: the messages got out of a buffer are a front of those written. */
  lemma MessagesArriveInOrder(
      next: Deframer, r: Rules, s: Line, id: Bytes,
      json: Messages.Json, ms: seq<Messages.Message>, randoms: seq<Bytes>)
    requires Inv(next, r, s) && Whole(At(s, id)) && Messages.AllSendable(json, ms, randoms)
    requires At(s, id).sent == Messages.EncodeAll(json, ms, randoms)
    ensures Messages.Received(json, At(s, id).taken) <= ms
    ensures At(s, id).taken == At(s, id).sent ==> Messages.Received(json, At(s, id).taken) == ms
  {
    ReadIsPrefix(next, r, s, id);
    Messages.ReceivedPrefix(json, ms, randoms, At(s, id).taken);
  }

  /** A client framer at one end and its counterpart at the other. */
  function Over(f: Framer, exits: bool): Setup {
    Setup(Deframing(Peer(f)), Deframing(f), exits)
  }

  lemma OverIsSound(f: Framer, exits: bool)
    ensures Sound(Over(f, exits))
  {
    DeframingIsStable(f);
    DeframingIsStable(Peer(f));
  }

  /** Whatever padding, IV and mask are drawn, the frame of the piece at hand may go on the wire. */
  lemma EveryFrameRelays(f: Framer, r: Rules, s: Line, c: Choice)
    requires ValidKey(f.key) && s.road.pieces != [] && Allowed(f, s.road.pieces[0], c)
    requires Inv(Deframing(Peer(f)), r, s)
    ensures Enabled(Deframing(Peer(f)), r, s, Relay(Encode(f, s.road.pieces[0], c)))
  {
    EncodeCarries(f, s.road.pieces[0], c);
  }

  /** What one side has got of the messages the other has written, if that is what it has written. */
  ghost predicate InSequence(a: Account, json: Messages.Json, ms: seq<Messages.Message>, randoms: seq<Bytes>)
    requires Messages.AllSendable(json, ms, randoms)
  {
    a.sent == Messages.EncodeAll(json, ms, randoms) ==>
      && Messages.Received(json, a.taken) <= ms
      && (a.taken == a.sent ==> Messages.Received(json, a.taken) == ms)
  }

  lemma WholeIsInSequence(
      next: Deframer, r: Rules, s: Line, id: Bytes,
      json: Messages.Json, ms: seq<Messages.Message>, randoms: seq<Bytes>)
    requires Inv(next, r, s) && Whole(At(s, id)) && Messages.AllSendable(json, ms, randoms)
    ensures InSequence(At(s, id), json, ms, randoms)
  {
    if At(s, id).sent == Messages.EncodeAll(json, ms, randoms) {
      MessagesArriveInOrder(next, r, s, id, json, ms, randoms);
    }
  }

  /**
   * Full stack: clients and server instances exchange s1 messages over one trunk, through packets, frames of
   * either format, leftover buffers, the relay and receive buffers. In every reachable state each server instance
   * has got a front of the messages its client wrote, and each client a front of those its instance wrote.
   */
  lemma FullStack(
      f: Framer, exits: bool, actions: seq<Action>, id: Bytes,
      json: Messages.Json, ms: seq<Messages.Message>, randoms: seq<Bytes>)
    requires Messages.AllSendable(json, ms, randoms)
    ensures var t := Run(Over(f, exits), actions);
            && (Whole(At(t.up, id)) ==> InSequence(At(t.up, id), json, ms, randoms))
            && (Whole(At(t.down, id)) ==> InSequence(At(t.down, id), json, ms, randoms))
  {
    var w := Over(f, exits);
    OverIsSound(f, exits);
    TrunkConserves(w, actions);
    var t := Run(w, actions);
    if Whole(At(t.up, id)) {
      WholeIsInSequence(w.atServer, UpRules(w), t.up, id, json, ms, randoms);
    }
    if Whole(At(t.down, id)) {
      WholeIsInSequence(w.atClient, DownRules(w), t.down, id, json, ms, randoms);
    }
  }

  /**
   * In terms a caller controls: at most 8 MiB outstanding at any time, fewer than 2^32 writes and closes, and,
   * where instances may end, a first write of one fragment.
   */
  lemma FullStackForModest(
      f: Framer, exits: bool, actions: seq<Action>, id: Bytes,
      json: Messages.Json, ms: seq<Messages.Message>, randoms: seq<Bytes>)
    requires Messages.AllSendable(json, ms, randoms)
    requires forall i :: 0 <= i < |actions| ==> Modest(Run(Over(f, exits), actions[..i]), id)
    requires Tame(UpRules(Over(f, exits)), At(Run(Over(f, exits), actions).up, id))
    ensures var t := Run(Over(f, exits), actions);
            InSequence(At(t.up, id), json, ms, randoms) && InSequence(At(t.down, id), json, ms, randoms)
  {
    OverIsSound(f, exits);
    ModestAndTameIsWhole(Over(f, exits), actions, id);
    FullStack(f, exits, actions, id, json, ms, randoms);
  }

  /** A pair of counterpart framers under a valid key: every piece in either direction has its frames. */
  ghost predicate Relays(f: Framer, exits: bool, t: Trunk) {
    && (forall c: Choice {:trigger Encode(f, t.up.road.pieces[0], c)} ::
          t.up.road.pieces != [] && Allowed(f, t.up.road.pieces[0], c) ==>
            Enabled(Deframing(Peer(f)), Rules(true, exits), t.up, Relay(Encode(f, t.up.road.pieces[0], c))))
    && (forall c: Choice {:trigger Encode(Peer(f), t.down.road.pieces[0], c)} ::
          t.down.road.pieces != [] && Allowed(Peer(f), t.down.road.pieces[0], c) ==>
            Enabled(Deframing(f), Rules(false, exits), t.down, Relay(Encode(Peer(f), t.down.road.pieces[0], c))))
  }

  lemma BothWaysRelay(f: Framer, exits: bool, t: Trunk)
    requires ValidKey(f.key) && TrunkInv(Over(f, exits), t)
    ensures Relays(f, exits, t)
  {
    forall c: Choice | t.up.road.pieces != [] && Allowed(f, t.up.road.pieces[0], c)
      ensures Enabled(Deframing(Peer(f)), Rules(true, exits), t.up, Relay(Encode(f, t.up.road.pieces[0], c)))
    {
      EveryFrameRelays(f, Rules(true, exits), t.up, c);
    }
    forall c: Choice | t.down.road.pieces != [] && Allowed(Peer(f), t.down.road.pieces[0], c)
      ensures Enabled(Deframing(f), Rules(false, exits), t.down, Relay(Encode(Peer(f), t.down.road.pieces[0], c)))
    {
      assert Peer(Peer(f)) == f;
      EveryFrameRelays(Peer(f), Rules(false, exits), t.down, c);
    }
  }

  // ---------------------------------------------------------------- before the client has sent anything

  /** Nothing has come to the server, and it has nothing to say. */
  ghost predicate Silent(t: Trunk) {
    && t.up.road.wire == [] && t.up.road.left == [] && t.up.road.acc == []
    && (forall id :: !Known(At(t.up, id)))
    && t.down.road == Quiet.road
  }

  lemma NothingToPull(next: Deframer, n: nat)
    requires Stable(next)
    ensures ReadStep(next, [], [], n).error != None
  {
    NothingThere(next);
  }

  lemma SilentUp(w: Setup, t: Trunk, step: Step)
    requires Sound(w) && Silent(t) && !step.Relay? && !step.Register?
    ensures Silent(Up(w, t, step))
  {
    if step.Pull? {
      NothingToPull(w.atServer, step.n);
    }
    forall id ensures !Known(At(Up(w, t, step).up, id)) {
      StaysUnknown(w.atServer, UpRules(w), t.up, step, id);
    }
  }

  lemma StaysUnknown(next: Deframer, r: Rules, s: Line, step: Step, id: Bytes)
    requires s.road.acc == [] && (forall id :: !Known(At(s, id))) && !step.Register?
    ensures !Known(At(Advance(next, r, s, step), id))
  {
    assert !Known(At(s, id));
  }

  lemma SilentDown(w: Setup, t: Trunk, step: Step)
    requires Sound(w) && Silent(t) && !step.Send? && !step.Eos? && !step.Control?
    ensures Silent(Down(w, t, step))
  {
    if step.Pull? {
      NothingToPull(w.atClient, step.n);
    }
  }

  lemma ActKeepsSilence(w: Setup, t: Trunk, a: Action)
    requires Sound(w) && Silent(t) && !(a.UpCarry? && a.step.Relay?)
    ensures Silent(Act(w, t, a))
  {
    match a
    case ClientOpen(id) => SilentDown(w, t, Register(id));
    case ClientWrite(id, dat) => SilentUp(w, t, Send(id, dat));
    case ClientRead(id, n, late) => SilentDown(w, t, Take(id, n, late));
    case ClientClose(id) => CloseKeepsSilence(w, t, id);
    case ClientPing => SilentUp(w, t, Control(OP_PING));
    case RelayReturn =>
    case TrunkClose =>
    case InstanceRead(id, n, late) => SilentUp(w, t, Take(id, n, late));
    case InstanceClose(id, late) => SilentUp(w, t, CloseBuffer(id, late));
    case UpCarry(step) => if Carrying(step) { SilentUp(w, t, step); }
    case DownCarry(step) => if Carrying(step) { SilentDown(w, t, step); }
    case UpDeliver => SilentUp(w, t, Deliver);
    case DownDeliver => SilentDown(w, t, Deliver);
    case _ =>
  }

  lemma CloseKeepsSilence(w: Setup, t: Trunk, id: Bytes)
    requires Sound(w) && Silent(t)
    ensures Silent(Closed(w, t, id))
  {
    var t1 := Down(w, t, CloseBuffer(id, false));
    SilentDown(w, t, CloseBuffer(id, false));
    SilentDown(w, t1, Retire(id));
    SilentUp(w, Down(w, t1, Retire(id)), Eos(id));
  }

  /** Until a first frame goes up, the server sends nothing: behind its response head there is nothing to lose. */
  lemma {:induction false} ServerIsSilent(w: Setup, actions: seq<Action>)
    requires Sound(w) && forall i :: 0 <= i < |actions| ==> !(actions[i].UpCarry? && actions[i].step.Relay?)
    ensures Silent(Run(w, actions))
  {
    if actions != [] {
      ServerIsSilent(w, actions[..|actions| - 1]);
      ActKeepsSilence(w, Run(w, actions[..|actions| - 1]), actions[|actions| - 1]);
    }
  }

  // ---------------------------------------------------------------- from the first byte on

  /**
   * When the server accepts an honest client, the client reads the response head in any pieces, loses nothing
   * behind it, and gets a framer under which the trunk works: every piece of every packet, in either direction,
   * fits a frame, and in every reachable state each side has read a front of the messages the other wrote. The
   * head is all there is to read, because the server is silent until a frame has come up (ServerIsSilent).
   */
  lemma HandshakeThenMessages(
      b64: Handshake.Base64, aes: BlockCipher, psk: Bytes, clientId: Bytes, ts: Handshake.Int64, half: Block, iv: Block,
      websocket: bool, now: Handshake.Int64, keyNewRaw: Block, iv': Block, server: Handshake.Accepted,
      canon: Bytes -> Bytes, proto: Bytes, accept: Bytes, wsProto: Bytes, pieces: seq<Bytes>,
      exits: bool, actions: seq<Action>, id: Bytes,
      json: Messages.Json, ms: seq<Messages.Message>, randoms: seq<Bytes>)
    requires Handshake.Lawful(b64) && clientId != [] && Handshake.Copyable(proto, accept, wsProto)
    requires Handshake.ServerAnswer(b64, aes, psk, clientId, Handshake.AuthField(b64, aes, psk, ts, half, iv),
                                    websocket, now, keyNewRaw, iv') == Ok(server)
    requires Concat(pieces) == Handshake.Answer(proto, websocket, accept, wsProto, server.token)
    requires Messages.AllSendable(json, ms, randoms)
    ensures var client := Handshake.ClientEnd(b64, aes, psk, Handshake.AuthBytes(ts, half), ts, websocket, canon,
                                              pieces);
            && client.Ok? && Handshake.LeavesNothing(canon, pieces)
            && var t := Run(Setup(Deframing(server.framer), Deframing(client.value), exits), actions);
            && (Whole(At(t.up, id)) ==> InSequence(At(t.up, id), json, ms, randoms))
            && (Whole(At(t.down, id)) ==> InSequence(At(t.down, id), json, ms, randoms))
            && Relays(client.value, exits, t)
  {
    assert Concat(pieces) + [] == Concat(pieces);
    Handshake.HandshakeCompletes(b64, aes, psk, clientId, ts, half, iv, websocket, now, keyNewRaw, iv', server,
                                 canon, proto, accept, wsProto, [], pieces);
    var f := Handshake.ClientEnd(b64, aes, psk, Handshake.AuthBytes(ts, half), ts, websocket, canon, pieces).value;
    FullStack(f, exits, actions, id, json, ms, randoms);
    OverIsSound(f, exits);
    TrunkConserves(Over(f, exits), actions);
    BothWaysRelay(f, exits, Run(Over(f, exits), actions));
  }
}
