/**
 * Runs in which the two full buffers of a trunk show: an instance's buffer drops a write and takes the next, and
 * the trunk client's buffer ends the relay for both directions.
 */
module Overflow {
  import opened Bytes
  import opened Stream
  import opened FrameStream
  import opened Encryption
  import opened Framing
  import opened Packets
  import opened ReceiveBuffer
  import opened Line
  import opened Books
  import opened Draining
  import opened Tunnel
  import opened Arrivals

  /** What the relay reads at a time, and how many of these make 8 MiB. */
  const CHUNK: nat := 1024 * 64
  const FULL: nat := 128

  function Times(chunk: Bytes, n: nat): (r: Bytes)
    requires |chunk| == CHUNK
    ensures |r| == CHUNK * n
  {
    if n == 0 then [] else Times(chunk, n - 1) + chunk
  }

  // ---------------------------------------------------------------- an instance's buffer

  /** A buffer after n writes of 64 KiB, up to 8 MiB: exactly full. */
  function Filled(chunk: Bytes, n: nat): Queue
    requires |chunk| == CHUNK
  {
    Queue(Times(chunk, n), if n == 0 then BUF_SIZE else CHUNK * n, false)
  }

  lemma FilledOneMore(chunk: Bytes, n: nat)
    requires |chunk| == CHUNK && n < FULL
    ensures Pushed(Filled(chunk, n), chunk) == (Filled(chunk, n + 1), Ok(CHUNK))
  {
    GrowExactly(Filled(chunk, n).cap + BUF_SIZE, CHUNK * (n + 1));
  }

  lemma FullRefuses(chunk: Bytes)
    requires |chunk| == CHUNK
    ensures Pushed(Filled(chunk, FULL), chunk) == (Filled(chunk, FULL), Err(ShortBuffer))
  {
    PushedExactly(Filled(chunk, FULL), chunk);
  }

  /** Data packets of one client with serials 0, 1, 2, ... */
  function Burst(id: Bytes, chunk: Bytes, n: nat): (ps: seq<Packet>)
    ensures |ps| == n && forall i :: 0 <= i < n ==> Mine(id, ps[i])
  {
    if n == 0 then [] else Burst(id, chunk, n - 1) + [Packet(id, n - 1, OP_DATA, chunk)]
  }

  lemma {:induction false} AllOwn(id: Bytes, ps: seq<Packet>)
    requires forall i :: 0 <= i < |ps| ==> Mine(id, ps[i])
    ensures Own(id, ps) == ps
  {
    if ps != [] {
      AllOwn(id, ps[1..]);
    }
  }

  lemma {:induction false} ArriveOneMore(r: Rules, a: Account, ps: seq<Packet>, p: Packet)
    ensures ArriveAll(r, a, ps + [p]) == Arrival(r, ArriveAll(r, a, ps), p.serial, p.data)
    decreases |ps|
  {
    if ps == [] {
      assert [] + [p] == [p] && [p][1..] == [];
    } else {
      assert (ps + [p])[1..] == ps[1..] + [p];
      ArriveOneMore(r, Arrival(r, a, ps[0].serial, ps[0].data), ps[1..], p);
    }
  }

  lemma {:induction false} BurstFills(r: Rules, a: Account, id: Bytes, chunk: Bytes, n: nat)
    requires r.creates && Untouched(a) && !a.refused && |chunk| == CHUNK && n <= FULL
    ensures ArriveAll(r, a, Burst(id, chunk, n)) == if n == 0 then a else a.(queue := Some(Filled(chunk, n)))
  {
    if n > 0 {
      BurstFills(r, a, id, chunk, n - 1);
      ArriveOneMore(r, a, Burst(id, chunk, n - 1), Packet(id, n - 1, OP_DATA, chunk));
      FilledOneMore(chunk, n - 1);
    }
  }

  /** The next write of 64 KiB is refused, and a small one after it is taken. */
  lemma BurstTears(r: Rules, a: Account, id: Bytes, chunk: Bytes, small: Bytes)
    requires r.creates && Untouched(a) && !a.refused && |chunk| == CHUNK && |small| <= BUF_SIZE
    ensures var ps := Burst(id, chunk, FULL + 1) + [Packet(id, FULL + 1, OP_DATA, small)];
            var q := Pushed(Filled(chunk, FULL), small).0;
            && ArriveAll(r, a, ps) == a.(queue := Some(q), refused := true)
            && q.data == Times(chunk, FULL) + small
  {
    BurstFills(r, a, id, chunk, FULL);
    ArriveOneMore(r, a, Burst(id, chunk, FULL), Packet(id, FULL, OP_DATA, chunk));
    FullRefuses(chunk);
    ArriveOneMore(r, a, Burst(id, chunk, FULL + 1), Packet(id, FULL + 1, OP_DATA, small));
    PushedExactly(Filled(chunk, FULL), small);
  }

  /** A client that opens and writes n times. */
  function Writes(id: Bytes, chunk: Bytes, n: nat): seq<Action> {
    if n == 0 then [ClientOpen(id)] else Writes(id, chunk, n - 1) + [ClientWrite(id, chunk)]
  }

  function Written(chunk: Bytes, n: nat): Account
    requires |chunk| == CHUNK
  {
    NewAccount.(writes := n, sent := Times(chunk, n), opening := if n == 0 then None else Some(Opening(0, CHUNK)))
  }

  ghost predicate HasWritten(t: Trunk, id: Bytes, chunk: Bytes, n: nat)
    requires |chunk| == CHUNK
  {
    && !t.over && Known(At(t.down, id)) && t.down.road == Quiet.road
    && At(t.up, id) == Written(chunk, n) && t.up.road.flight == Burst(id, chunk, n)
  }

  lemma WritesOnce(w: Setup, t: Trunk, id: Bytes, chunk: Bytes, n: nat)
    requires GoodId(id) && |chunk| == CHUNK && n < U32 && HasWritten(t, id, chunk, n)
    ensures HasWritten(Act(w, t, ClientWrite(id, chunk)), id, chunk, n + 1)
  {
    assert Fragments(Packet(id, n, OP_DATA, chunk)) == [Packet(id, n, OP_DATA, chunk)];
  }

  lemma {:induction false} AfterWrites(w: Setup, id: Bytes, chunk: Bytes, n: nat)
    requires GoodId(id) && |chunk| == CHUNK && n < U32
    ensures HasWritten(Run(w, Writes(id, chunk, n)), id, chunk, n)
  {
    var actions := Writes(id, chunk, n);
    if n == 0 {
      assert actions[..0] == [];
    } else {
      assert actions[..|actions| - 1] == Writes(id, chunk, n - 1);
      AfterWrites(w, id, chunk, n - 1);
      WritesOnce(w, Run(w, Writes(id, chunk, n - 1)), id, chunk, n - 1);
    }
  }

  lemma NotAFront(chunk: Bytes, small: Bytes)
    requires |chunk| == CHUNK && small != [] && small[0] != chunk[0]
    ensures !(Times(chunk, FULL) + small <= Times(chunk, FULL + 1) + small)
  {
    var at := |Times(chunk, FULL)|;
    assert (Times(chunk, FULL) + small)[at] == small[0];
    assert (Times(chunk, FULL + 1) + small)[at] == chunk[0];
  }

  /** The account in the end: something was refused, and what is buffered is no front of what was written. */
  predicate Torn(a: Account, chunk: Bytes, small: Bytes)
    requires |chunk| == CHUNK
  {
    && a.refused && a.sent == Times(chunk, FULL + 1) + small
    && a.taken == [] && a.queue.Some? && a.queue.value.data == Times(chunk, FULL) + small
    && !(a.taken + a.queue.value.data <= a.sent)
  }

  lemma LineTears(next: Deframer, r: Rules, s: Line, id: Bytes, chunk: Bytes, small: Bytes, steps: seq<Step>)
    requires Stable(next) && Inv(next, r, s) && r.creates && |chunk| == CHUNK
    requires 0 < |small| <= BUF_SIZE && small[0] != chunk[0]
    requires At(s, id) == Written(chunk, FULL + 1).(writes := FULL + 2, sent := Times(chunk, FULL + 1) + small)
    requires s.road.flight == Burst(id, chunk, FULL + 1) + [Packet(id, FULL + 1, OP_DATA, small)]
    requires (forall i :: 0 <= i < |steps| ==> Carrier(steps[i])) && Go(next, r, s, steps).road.flight == []
    ensures Torn(At(Go(next, r, s, steps), id), chunk, small)
  {
    GoDelivers(next, r, s, steps, id);
    AllOwn(id, s.road.flight);
    BurstTears(r, At(s, id), id, chunk, small);
    NotAFront(chunk, small);
    var data := Times(chunk, FULL) + small;
    assert [] + data == data;
  }

  /**
   * A run that is refused: a client writes 129 times 64 KiB and then a few bytes, and nobody reads. However its
   * line is carried, once nothing is in flight the instance's buffer has a hole in front of the last bytes.
   */
  lemma RefusalHappens(w: Setup, id: Bytes, chunk: Bytes, small: Bytes, steps: seq<Step>)
    requires Sound(w) && GoodId(id) && |chunk| == CHUNK && 0 < |small| <= BUF_SIZE && small[0] != chunk[0]
    requires forall i :: 0 <= i < |steps| ==> Carrier(steps[i])
    requires var actions := Writes(id, chunk, FULL + 1) + [ClientWrite(id, small)];
             Run(w, actions + UpActions(steps)).up.road.flight == []
    ensures var actions := Writes(id, chunk, FULL + 1) + [ClientWrite(id, small)];
            Torn(At(Run(w, actions + UpActions(steps)).up, id), chunk, small)
  {
    var before, n := Writes(id, chunk, FULL + 1), FULL + 1;
    var actions := before + [ClientWrite(id, small)];
    AfterWrites(w, id, chunk, n);
    TrunkConserves(w, actions);
    assert actions[..|actions| - 1] == before;
    LastWrite(w, Run(w, before), id, chunk, small, n);
    RunContinues(w, actions, UpActions(steps));
    UpGo(w, Run(w, actions), steps);
    LineTears(w.atServer, UpRules(w), Run(w, actions).up, id, chunk, small, steps);
  }

  lemma LastWrite(w: Setup, t: Trunk, id: Bytes, chunk: Bytes, small: Bytes, n: nat)
    requires GoodId(id) && |chunk| == CHUNK && |small| <= BUF_SIZE && 0 < n < U32 && HasWritten(t, id, chunk, n)
    ensures var t' := Act(w, t, ClientWrite(id, small));
            && !t'.over && t'.up.road.flight == Burst(id, chunk, n) + [Packet(id, n, OP_DATA, small)]
            && At(t'.up, id) == Written(chunk, n).(writes := n + 1, sent := Times(chunk, n) + small)
  {
    assert Act(w, t, ClientWrite(id, small)) == Up(w, t, Send(id, small));
    SmallSend(w.atServer, UpRules(w), t.up, id, small);
  }

  lemma SmallSend(next: Deframer, r: Rules, s: Line, id: Bytes, small: Bytes)
    requires r.creates && GoodId(id) && |small| <= BUF_SIZE && At(s, id).writes + At(s, id).closes < U32
    ensures var a, s' := At(s, id), Advance(next, r, s, Send(id, small));
            && s'.road.flight == s.road.flight + [Packet(id, a.writes + a.closes, OP_DATA, small)]
            && At(s', id) == Sending(r, a, small)
  {
    var p := Packet(id, At(s, id).writes + At(s, id).closes, OP_DATA, small);
    assert Fragments(p) == [p];
  }

  /** There are such carriers. */
  lemma RefusalIsReached(f: Framer, exits: bool, id: Bytes, chunk: Bytes, small: Bytes) returns (steps: seq<Step>)
    requires ValidKey(f.key) && GoodId(id) && |chunk| == CHUNK && 0 < |small| <= BUF_SIZE
    ensures forall i :: 0 <= i < |steps| ==> Carrier(steps[i])
    ensures var actions := Writes(id, chunk, FULL + 1) + [ClientWrite(id, small)];
            Run(Over(f, exits), actions + UpActions(steps)).up.road.flight == []
  {
    var w, n := Over(f, exits), FULL + 1;
    var actions := Writes(id, chunk, n) + [ClientWrite(id, small)];
    OverIsSound(f, exits);
    AfterWrites(w, id, chunk, n);
    TrunkConserves(w, actions);
    assert actions[..|actions| - 1] == Writes(id, chunk, n);
    LastWrite(w, Run(w, Writes(id, chunk, n)), id, chunk, small, n);
    FramesExist(f);
    steps := Drain(w.atServer, UpRules(w), Run(w, actions).up, SomeFrame(f));
    UpGo(w, Run(w, actions), steps);
    RunContinues(w, actions, UpActions(steps));
  }

  // ---------------------------------------------------------------- the trunk client's buffer

  /** Up to this size growing has kept pace with the data. */
  predicate Room(q: Queue, limit: nat) {
    q.cap <= limit || q.cap <= |q.data| + BUF_SIZE
  }

  lemma PushKeepsRoom(q: Queue, dat: Bytes, limit: nat)
    requires WellFormed(q) && Room(q, limit) && limit >= BUF_SIZE_MAX
    ensures Room(Pushed(q, dat).0, limit)
    ensures !q.closed && |q.data| >= limit && |dat| == CHUNK ==> Pushed(q, dat).1.Err?
  {
    PushedExactly(q, dat);
    GrowExactly(q.cap + BUF_SIZE, |q.data| + |dat|);
  }

  /** Nothing between the sender's write loop and the relay's buffer. */
  predicate Clear(d: Road) {
    d.wire == [] && d.left == []
  }

  /** A piece is framed and read, and the relay's buffer takes it or refuses it. */
  lemma PieceComes(next: Deframer, r: Rules, s: Line, frame: Bytes, limit: nat)
    requires !r.creates && WellFormed(s.road.relay) && !s.road.relay.closed && limit >= BUF_SIZE_MAX
    requires Clear(s.road) && !s.road.stopped && Room(s.road.relay, limit)
    requires s.road.pieces != [] && |s.road.pieces[0]| <= CHUNK && Carries(next, frame, s.road.pieces[0])
    ensures var p, d := s.road.pieces[0], Go(next, r, s, [Relay(frame), Pull(CHUNK)]).road;
            && (|s.road.relay.data| >= limit && |p| == CHUNK ==> d.stopped)
            && (!d.stopped ==>
                  && Clear(d) && d.pieces == s.road.pieces[1..] && d.waiting == s.road.waiting
                  && Room(d.relay, limit) && WellFormed(d.relay) && !d.relay.closed
                  && |d.relay.data| == |s.road.relay.data| + |p|)
  {
    var p := s.road.pieces[0];
    var s1 := Advance(next, r, s, Relay(frame));
    TwoSteps(next, r, s, Relay(frame), Pull(CHUNK));
    FrameComes(next, r, s, frame);
    PulledWhole(next, r, s1, p);
    PushedExactly(s.road.relay, p);
    PushKeepsRoom(s.road.relay, p, limit);
  }

  lemma FrameComes(next: Deframer, r: Rules, s: Line, frame: Bytes)
    requires Clear(s.road) && s.road.pieces != [] && Carries(next, frame, s.road.pieces[0])
    ensures var d := Advance(next, r, s, Relay(frame)).road;
            d == s.road.(pieces := s.road.pieces[1..], wire := frame)
  {
    assert [] + frame == frame;
  }

  lemma PulledWhole(next: Deframer, r: Rules, s: Line, p: Bytes)
    requires !r.creates && !s.road.stopped && s.road.left == [] && Carries(next, s.road.wire, p) && |p| <= CHUNK
    ensures var (q, res) := Pushed(s.road.relay, p);
            Advance(next, r, s, Pull(CHUNK)).road == s.road.(wire := [], relay := q, stopped := res.Err?)
  {
    assert p[..|p|] == p && p[|p|..] == [];
  }

  predicate Quietly(steps: seq<Step>) {
    forall i :: 0 <= i < |steps| ==> steps[i].Start? || steps[i].Relay? || steps[i].Pull?
  }

  /** What is left after a packet's pieces: a stopped relay, or the next packet's turn. */
  predicate Pumped(d: Road, waiting: seq<Packet>, size: nat, limit: nat) {
    d.stopped || (
      && Clear(d) && d.pieces == [] && d.waiting == waiting
      && Room(d.relay, limit) && WellFormed(d.relay) && !d.relay.closed && |d.relay.data| >= size)
  }

  lemma {:induction false} GoOn(next: Deframer, r: Rules, s: Line, a: seq<Step>, b: seq<Step>)
    ensures Go(next, r, s, a + b) == Go(next, r, Go(next, r, s, a), b)
    decreases |a|
  {
    if a == [] {
      assert a + b == b;
    } else {
      assert (a + b)[1..] == a[1..] + b;
      GoOn(next, r, Advance(next, r, s, a[0]), a[1..], b);
    }
  }

  /** All pieces at hand come, unless one of 64 KiB finds the relay's buffer full. */
  lemma {:induction false} PiecesCome(next: Deframer, r: Rules, s: Line, frame: Bytes -> Bytes, limit: nat)
    returns (steps: seq<Step>)
    requires !r.creates && WellFormed(s.road.relay) && !s.road.relay.closed && limit >= BUF_SIZE_MAX
    requires Clear(s.road) && !s.road.stopped && Room(s.road.relay, limit) && Frames(next, frame)
    requires forall i :: 0 <= i < |s.road.pieces| ==> |s.road.pieces[i]| <= CHUNK
    ensures Quietly(steps)
    ensures var d := Go(next, r, s, steps).road;
            && Pumped(d, s.road.waiting, |s.road.relay.data| + |Concat(s.road.pieces)|, limit)
            && (|s.road.relay.data| >= limit && (exists p :: p in s.road.pieces && |p| == CHUNK) ==> d.stopped)
    decreases |s.road.pieces|
  {
    if s.road.pieces == [] {
      steps := [];
    } else {
      var first := [Relay(frame(s.road.pieces[0])), Pull(CHUNK)];
      PieceComes(next, r, s, frame(s.road.pieces[0]), limit);
      var s1 := Go(next, r, s, first);
      steps := first;
      if !s1.road.stopped {
        var more := PiecesCome(next, r, s1, frame, limit);
        GoOn(next, r, s, first, more);
        steps := first + more;
      }
    }
  }

  /** A reply of 64 KiB. */
  predicate Reply(p: Packet) {
    Sendable(p) && p.op == OP_DATA && |p.data| == CHUNK
  }

  lemma ReplyPieces(p: Packet)
    requires Reply(p)
    ensures var pieces := Pieces(Fragments(p));
            && (forall i :: 0 <= i < |pieces| ==> |pieces[i]| <= CHUNK)
            && p.data in pieces && |Concat(pieces)| >= CHUNK
  {
    var pieces := Pieces(Fragments(p));
    assert Fragments(p) == [p];
    assert [p][1..] == [] && pieces == [HeadOf(p), MetaOf(p), p.data] + Pieces([]);
    PiecesSpellWire([p]);
    assert WireAll([p]) == Wire(p) + WireAll([]);
  }

  lemma {:induction false} ReplyComes(next: Deframer, r: Rules, s: Line, frame: Bytes -> Bytes, limit: nat)
    returns (steps: seq<Step>)
    requires !r.creates && WellFormed(s.road.relay) && !s.road.relay.closed && limit >= BUF_SIZE_MAX
    requires Clear(s.road) && !s.road.stopped && Room(s.road.relay, limit) && Frames(next, frame)
    requires s.road.pieces == [] && s.road.waiting != [] && Reply(s.road.waiting[0])
    ensures Quietly(steps)
    ensures var d := Go(next, r, s, steps).road;
            && Pumped(d, s.road.waiting[1..], |s.road.relay.data| + CHUNK, limit)
            && (|s.road.relay.data| >= limit ==> d.stopped)
  {
    var p := s.road.waiting[0];
    ReplyPieces(p);
    var s1 := Advance(next, r, s, Start);
    assert s1.road == s.road.(waiting := s.road.waiting[1..], pieces := Pieces(Fragments(p)));
    var more := PiecesCome(next, r, s1, frame, limit);
    OneStep(next, r, s, Start);
    GoOn(next, r, s, [Start], more);
    steps := [Start] + more;
  }

  /** Enough replies of 64 KiB that nobody fetches stop the relay. */
  lemma {:induction false} RepliesStop(next: Deframer, r: Rules, s: Line, frame: Bytes -> Bytes, limit: nat)
    returns (steps: seq<Step>)
    requires !r.creates && WellFormed(s.road.relay) && !s.road.relay.closed && limit >= BUF_SIZE_MAX
    requires Clear(s.road) && !s.road.stopped && Room(s.road.relay, limit) && Frames(next, frame)
    requires s.road.pieces == [] && forall i :: 0 <= i < |s.road.waiting| ==> Reply(s.road.waiting[i])
    requires |s.road.relay.data| + CHUNK * |s.road.waiting| >= limit + CHUNK && s.road.waiting != []
    ensures Quietly(steps) && Go(next, r, s, steps).road.stopped
    decreases |s.road.waiting|
  {
    steps := ReplyComes(next, r, s, frame, limit);
    var s1 := Go(next, r, s, steps);
    if !s1.road.stopped {
      var more := RepliesStop(next, r, s1, frame, limit);
      GoOn(next, r, s, steps, more);
      steps := steps + more;
    }
  }

  function Replies(id: Bytes, chunk: Bytes, n: nat): (actions: seq<Action>)
    ensures Unclosed(actions)
  {
    if n == 0 then [] else Replies(id, chunk, n - 1) + [InstanceWrite(id, chunk)]
  }

  /** Only the replies have come to wait on the way down. */
  predicate Waiting(t: Trunk, t': Trunk, p: Packet, n: nat) {
    && t'.up == t.up && t'.over == t.over
    && t'.down.road == t.down.road.(waiting := t'.down.road.waiting, flight := t'.down.road.flight)
    && |t'.down.road.waiting| == n && forall i :: 0 <= i < n ==> t'.down.road.waiting[i] == p
  }

  lemma ReplyWaits(w: Setup, t0: Trunk, t: Trunk, id: Bytes, chunk: Bytes, n: nat)
    requires Waiting(t0, t, Packet(id, 0, OP_DATA, chunk), n) && Known(At(t.up, id))
    requires Enabled(w.atClient, DownRules(w), t.down, Send(id, chunk))
    ensures Waiting(t0, Act(w, t, InstanceWrite(id, chunk)), Packet(id, 0, OP_DATA, chunk), n + 1)
  {
  }

  lemma {:induction false} RepliesWait(w: Setup, actions: seq<Action>, id: Bytes, chunk: Bytes, n: nat)
    requires Sound(w) && Known(At(Run(w, actions).up, id)) && Run(w, actions).down.road.waiting == []
    ensures Waiting(Run(w, actions), Run(w, actions + Replies(id, chunk, n)), Packet(id, 0, OP_DATA, chunk), n)
  {
    if n == 0 {
      assert actions + [] == actions;
    } else {
      var before := actions + Replies(id, chunk, n - 1);
      RepliesWait(w, actions, id, chunk, n - 1);
      RepliesHaveOwners(w, before, id, chunk);
      ReplyWaits(w, Run(w, actions), Run(w, before), id, chunk, n - 1);
      OneReplyMore(w, actions, id, chunk, n);
    }
  }

  lemma OneReplyMore(w: Setup, actions: seq<Action>, id: Bytes, chunk: Bytes, n: nat)
    requires n > 0
    ensures Run(w, actions + Replies(id, chunk, n)) ==
              Act(w, Run(w, actions + Replies(id, chunk, n - 1)), InstanceWrite(id, chunk))
  {
    var before := actions + Replies(id, chunk, n - 1);
    assert actions + Replies(id, chunk, n) == before + [InstanceWrite(id, chunk)];
    RunOneMore(w, before, InstanceWrite(id, chunk));
  }

  lemma QuietlyCarries(steps: seq<Step>)
    requires Quietly(steps)
    ensures forall i :: 0 <= i < |steps| ==> Carrier(steps[i]) && !steps[i].Fetch?
  {
  }

  /** So many replies of 64 KiB fill any buffer. */
  function Enough(q: Queue): (n: nat)
    ensures CHUNK * n >= q.cap + BUF_SIZE_MAX + CHUNK
  {
    q.cap / CHUNK + 1 + FULL + 1
  }

  /**
   * From every reachable state with a running relay and nothing on the way to it, enough replies that nobody
   * fetches end the relay loop, while what clients have written waits.
   */
  lemma RelayEnds(f: Framer, exits: bool, actions: seq<Action>, id: Bytes, chunk: Bytes) returns (more: seq<Action>)
    requires ValidKey(f.key) && |chunk| == CHUNK
    requires var t := Run(Over(f, exits), actions);
             && Known(At(t.up, id)) && !t.down.road.stopped
             && Clear(t.down.road) && t.down.road.pieces == [] && t.down.road.waiting == []
    ensures Unclosed(more) && Run(Over(f, exits), actions + more).over
    ensures Run(Over(f, exits), actions + more).up == Run(Over(f, exits), actions).up
  {
    var w, t := Over(f, exits), Run(Over(f, exits), actions);
    var q := t.down.road.relay;
    var n := Enough(q);
    var written := actions + Replies(id, chunk, n);
    OverIsSound(f, exits);
    RepliesWait(w, actions, id, chunk, n);
    TrunkConserves(w, actions);
    TrunkConserves(w, written);
    var t1 := Run(w, written);
    RepliesAreReplies(w, t1, id, chunk);
    assert Peer(Peer(f)) == f && Peer(f).key == f.key;
    FramesExist(Peer(f));
    var steps := RepliesStop(w.atClient, DownRules(w), t1.down, SomeFrame(Peer(f)), q.cap + BUF_SIZE_MAX);
    QuietlyCarries(steps);
    DownGo(w, t1, steps);
    RunContinues(w, written, DownActions(steps));
    more := Replies(id, chunk, n) + (DownActions(steps) + [RelayReturn]);
    CarriersDoNotClose(DownActions(steps));
    ReturnsThen(w, actions, Replies(id, chunk, n), DownActions(steps));
  }

  lemma RepliesAreReplies(w: Setup, t: Trunk, id: Bytes, chunk: Bytes)
    requires TrunkInv(w, t) && |chunk| == CHUNK
    requires forall i :: 0 <= i < |t.down.road.waiting| ==> t.down.road.waiting[i] == Packet(id, 0, OP_DATA, chunk)
    ensures forall i :: 0 <= i < |t.down.road.waiting| ==> Reply(t.down.road.waiting[i])
  {
  }

  lemma ReturnsThen(w: Setup, actions: seq<Action>, a: seq<Action>, b: seq<Action>)
    requires Run(w, actions + a + b).down.road.stopped
    ensures Run(w, actions + (a + (b + [RelayReturn]))) == Run(w, actions + a + b).(over := true)
  {
    var all := actions + (a + (b + [RelayReturn]));
    assert all[..|all| - 1] == actions + a + b && all[|all| - 1] == RelayReturn;
  }

  ghost predicate NoPing(w: Setup, s: Line) {
    Inv(w.atServer, UpRules(w), s) && forall i :: 0 <= i < |s.road.flight| ==> s.road.flight[i].op != OP_PING
  }

  /** Carriers towards the server bring nothing on the way down, unless they meet a ping. */
  lemma {:induction false} NoAnswers(w: Setup, t: Trunk, steps: seq<Step>)
    requires Sound(w) && NoPing(w, t.up) && forall i :: 0 <= i < |steps| ==> Carrier(steps[i])
    ensures var t' := Continue(w, t, UpActions(steps)); t'.down == t.down && t'.over == t.over
    decreases |steps|
  {
    if steps != [] {
      var more := UpActions(steps);
      assert more[0] == UpAction(steps[0]) && more[1..] == UpActions(steps[1..]);
      NoAnswer(w, t, steps[0]);
      NoAnswers(w, Act(w, t, more[0]), steps[1..]);
    }
  }

  lemma NoAnswer(w: Setup, t: Trunk, step: Step)
    requires Sound(w) && NoPing(w, t.up) && Carrier(step)
    ensures var t' := Act(w, t, UpAction(step)); t'.down == t.down && t'.over == t.over && NoPing(w, t'.up)
  {
    var a := UpAction(step);
    NothingDown(w, t, step);
    NotDown(w, t, a);
    ActUp(w, t, a);
    OneUp(t, step);
    OneStep(w.atServer, UpRules(w), t.up, step);
    StillNoPing(w, t.up, step);
  }

  lemma NotDown(w: Setup, t: Trunk, a: Action)
    requires DownSteps(t, a) == [] && !a.RelayReturn? && !a.TrunkClose?
    ensures Act(w, t, a).down == t.down && Act(w, t, a).over == t.over
  {
    ActDown(w, t, a);
  }

  lemma OneUp(t: Trunk, step: Step)
    requires Carrier(step)
    ensures UpSteps(t, UpAction(step)) == [] || UpSteps(t, UpAction(step)) == [step]
  {
  }

  lemma NothingDown(w: Setup, t: Trunk, step: Step)
    requires NoPing(w, t.up)
    ensures DownSteps(t, UpAction(step)) == []
  {
    ParsesNoPing(w.atServer, t.up.road);
    NoPongDown(t, UpAction(step));
  }

  lemma NoPongDown(t: Trunk, a: Action)
    requires a.UpDeliver? || a.UpCarry?
    requires ReadAny(t.up.road.acc).Got? ==> ReadAny(t.up.road.acc).p.op != OP_PING
    ensures DownSteps(t, a) == []
  {
  }

  lemma ParsesNoPing(next: Deframer, d: Road)
    requires InOrder(next, d) && forall i :: 0 <= i < |d.flight| ==> d.flight[i].op != OP_PING
    ensures ReadAny(d.acc).Got? ==> ReadAny(d.acc).p.op != OP_PING
  {
    if ReadAny(d.acc).Got? {
      DeliverInOrder(next, d);
    }
  }

  lemma StillNoPing(w: Setup, s: Line, step: Step)
    requires Sound(w) && NoPing(w, s) && Carrier(step)
    ensures NoPing(w, Advance(w.atServer, UpRules(w), s, step))
  {
    StepKeepsInv(w.atServer, UpRules(w), s, step);
    if step.Deliver? {
      DeliverKeepsNoPing(w.atServer, UpRules(w), s);
    } else {
      CarryKeepsFlight(w.atServer, UpRules(w), s, step);
    }
  }

  lemma DeliverKeepsNoPing(next: Deframer, r: Rules, s: Line)
    requires InOrder(next, s.road) && forall i :: 0 <= i < |s.road.flight| ==> s.road.flight[i].op != OP_PING
    ensures var ps := Advance(next, r, s, Deliver).road.flight; forall i :: 0 <= i < |ps| ==> ps[i].op != OP_PING
  {
    if ReadAny(s.road.acc).Got? {
      DeliverInOrder(next, s.road);
      DeliverRoad(next, r, s);
    }
  }

  /** Before the first reply: the client's first write has come to its instance, and nothing is on the way down. */
  lemma FirstWriteArrives(w: Setup, frame: Bytes -> Bytes, id: Bytes, hello: Bytes) returns (actions: seq<Action>)
    requires Sound(w) && Frames(w.atServer, frame) && GoodId(id) && |hello| <= MAX_PACKET_SIZE
    ensures var t := Run(w, actions);
            && t.down.road == Quiet.road && Known(At(t.down, id)) && !t.over
            && Greeted(UpRules(w), At(t.up, id), hello) && Unclosed(actions)
  {
    var first := FirstWrite(w, id, hello);
    TrunkConserves(w, first);
    var steps := GreetingArrives(w.atServer, UpRules(w), Run(w, first).up, frame, id, hello);
    CarriedUp(w, first, steps);
    CarriersDoNotClose(UpActions(steps));
    actions := first + UpActions(steps);
  }

  lemma CarriedUp(w: Setup, actions: seq<Action>, steps: seq<Step>)
    requires Sound(w) && NoPing(w, Run(w, actions).up) && !Run(w, actions).over
    requires forall i :: 0 <= i < |steps| ==> Carrier(steps[i])
    ensures var t := Run(w, actions);
            Run(w, actions + UpActions(steps)) == t.(up := Go(w.atServer, UpRules(w), t.up, steps))
  {
    UpGo(w, Run(w, actions), steps);
    NoAnswers(w, Run(w, actions), steps);
    RunContinues(w, actions, UpActions(steps));
  }

  /** One write, which has arrived. */
  predicate Greeted(r: Rules, a: Account, hello: Bytes) {
    Healthy(r, a) && a.queue.Some? && a.sent == hello && a.writes == 1 && a.closes == 0
  }

  lemma GreetingArrives(next: Deframer, r: Rules, s: Line, frame: Bytes -> Bytes, id: Bytes, hello: Bytes)
    returns (steps: seq<Step>)
    requires Stable(next) && Inv(next, r, s) && !s.road.stopped && Frames(next, frame) && |hello| <= MAX_PACKET_SIZE
    requires At(s, id) == NewAccount.(writes := 1, sent := hello, opening := Some(Opening(0, |hello|)))
    ensures forall i :: 0 <= i < |steps| ==> Carrier(steps[i])
    ensures Greeted(r, At(Go(next, r, s, steps), id), hello)
  {
    steps := EverythingArrives(next, r, s, frame, id);
    GoContinues(next, r, s, steps, id);
  }

  lemma FirstWrite(w: Setup, id: Bytes, hello: Bytes) returns (actions: seq<Action>)
    requires GoodId(id) && |hello| <= MAX_PACKET_SIZE
    ensures Unclosed(actions)
    ensures var t := Run(w, actions);
            && t.down.road == Quiet.road && Known(At(t.down, id)) && !t.over
            && t.up.road.flight == [Packet(id, 0, OP_DATA, hello)]
            && At(t.up, id) == NewAccount.(writes := 1, sent := hello, opening := Some(Opening(0, |hello|)))
  {
    var open, write := ClientOpen(id), ClientWrite(id, hello);
    assert [open, write][..1] == [open] && [open][..0] == [];
    assert Run(w, [open]) == Act(w, Run(w, []), open);
    assert Fragments(Packet(id, 0, OP_DATA, hello)) == [Packet(id, 0, OP_DATA, hello)];
    assert [] + [Packet(id, 0, OP_DATA, hello)] == [Packet(id, 0, OP_DATA, hello)] && [] + hello == hello;
    actions := [open, write];
  }

  lemma WriteWaits(w: Setup, t: Trunk, id: Bytes, hello: Bytes, dat: Bytes)
    requires GoodId(id) && Known(At(t.down, id)) && !t.over
    requires Greeted(UpRules(w), At(t.up, id), hello) && |hello| + |dat| <= BUF_SIZE_MAX
    ensures var t' := Act(w, t, ClientWrite(id, dat));
            && t'.down == t.down && t'.over == t.over && t'.up.road.waiting != []
            && Healthy(UpRules(w), At(t'.up, id)) && At(t'.up, id).sent == hello + dat
            && Known(At(t'.up, id))
  {
  }

  lemma WaitingIsUnframed(d: Road)
    requires d.waiting != []
    ensures Unframed(d) != []
  {
    var fs := Fragments(d.waiting[0]);
    WireAllAppend(fs, AllFragments(d.waiting[1..]));
    assert WireAll(fs) == Wire(fs[0]) + WireAll(fs[1..]);
    assert |WireAll(fs)| >= 16;
  }

  /**
   * A run in which a message gets stuck: a client whose stream is healthy writes it while an instance replies more
   * than anyone fetches. The relay loop ends, and nothing the carriers do brings the message to the server.
   */
  lemma MessagesGetStuck(f: Framer, exits: bool, id: Bytes, hello: Bytes, late: Bytes, chunk: Bytes)
    returns (actions: seq<Action>)
    requires ValidKey(f.key) && GoodId(id) && |hello| <= MAX_PACKET_SIZE && |hello| + |late| <= BUF_SIZE_MAX
    requires |chunk| == CHUNK
    ensures Unclosed(actions)
    ensures var w, t := Over(f, exits), Run(Over(f, exits), actions);
            && Healthy(UpRules(w), At(t.up, id)) && At(t.up, id).sent == hello + late && !UpCanFinish(t)
            && forall more: seq<Action> :: Carriers(more) ==> Run(w, actions + more).up.road.flight != []
  {
    var w := Over(f, exits);
    OverIsSound(f, exits);
    FramesExist(f);
    var first := FirstWriteArrives(w, SomeFrame(f), id, hello);
    var second := first + [ClientWrite(id, late)];
    assert second[..|second| - 1] == first;
    WriteWaits(w, Run(w, first), id, hello, late);
    var more := RelayEnds(f, exits, second, id, chunk);
    actions := second + more;
    WaitingIsUnframed(Run(w, actions).up.road);
    UpDrainsExactly(f, exits, actions);
  }
}
