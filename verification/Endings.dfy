/** How things on a trunk come to an end: messages are read, pings answered, buffers closed, the trunk given up. */
module Endings {
  import opened Bytes
  import opened Stream
  import opened FrameStream
  import opened Encryption
  import opened Framing
  import opened Packets
  import opened ReceiveBuffer
  import opened Line
  import opened Books
  import opened Draining
  import opened Tunnel
  import opened Arrivals
  import Messages

  // ---------------------------------------------------------------- messages that have arrived are read

  lemma ReadTakes(next: Deframer, r: Rules, s: Line, id: Bytes, n: nat)
    requires At(s, id).queue.Some?
    ensures var a, a' := At(s, id), At(Advance(next, r, s, Take(id, n, false)), id);
            var data := a.queue.value.data;
            a'.taken == a.taken + data[..Min(n, |data|)] && a' == a.(taken := a'.taken, queue := a'.queue)
  {
    PoppedExactly(At(s, id).queue.value, n);
    var data := At(s, id).queue.value.data;
    assert data[..0] == [] && At(s, id).taken + [] == At(s, id).taken;
  }

  /** Whoever reads as much as his buffer holds has got it all. */
  lemma ReadsAll(next: Deframer, r: Rules, s: Line, id: Bytes)
    requires At(s, id).queue.Some?
    ensures var a := At(s, id);
            At(Advance(next, r, s, Take(id, |a.queue.value.data|, false)), id).taken == a.taken + a.queue.value.data
  {
    var data := At(s, id).queue.value.data;
    ReadTakes(next, r, s, id, |data|);
    assert data[..|data|] == data;
  }

  lemma InstanceReadsAll(w: Setup, t: Trunk, id: Bytes)
    requires At(t.up, id).queue.Some?
    ensures var a := At(t.up, id);
            At(Act(w, t, InstanceRead(id, |a.queue.value.data|, false)).up, id).taken == a.taken + a.queue.value.data
  {
    var n := |At(t.up, id).queue.value.data|;
    assert Act(w, t, InstanceRead(id, n, false)) == Up(w, t, Take(id, n, false));
    ReadsAll(w.atServer, UpRules(w), t.up, id);
  }

  lemma ClientReadsAll(w: Setup, t: Trunk, id: Bytes)
    requires At(t.down, id).queue.Some?
    ensures var a := At(t.down, id);
            At(Act(w, t, ClientRead(id, |a.queue.value.data|, false)).down, id).taken == a.taken + a.queue.value.data
  {
    var n := |At(t.down, id).queue.value.data|;
    assert Act(w, t, ClientRead(id, n, false)) == Down(w, t, Take(id, n, false));
    ReadsAll(w.atClient, DownRules(w), t.down, id);
  }

  /** All messages are read: some carriers and one read later an instance has got all its client has written. */
  lemma AllMessagesRead(
      f: Framer, exits: bool, actions: seq<Action>, id: Bytes,
      json: Messages.Json, ms: seq<Messages.Message>, randoms: seq<Bytes>)
    returns (more: seq<Action>, n: nat)
    requires ValidKey(f.key) && Messages.AllSendable(json, ms, randoms)
    requires UpCanFinish(Run(Over(f, exits), actions))
    requires var a := At(Run(Over(f, exits), actions).up, id);
             Healthy(UpRules(Over(f, exits)), a) && a.sent == Messages.EncodeAll(json, ms, randoms)
    ensures Carriers(more)
    ensures var t := Run(Over(f, exits), actions + more + [InstanceRead(id, n, false)]);
            Messages.Received(json, At(t.up, id).taken) == ms
  {
    var w := Over(f, exits);
    more := AllMessagesArrive(f, exits, actions, id, json, ms, randoms);
    var t := Run(w, actions + more);
    n := |At(t.up, id).queue.value.data|;
    InstanceReadsAll(w, t, id);
    RunOneMore(w, actions + more, InstanceRead(id, n, false));
  }

  /** And a client all its instance has written. */
  lemma AllRepliesRead(
      f: Framer, exits: bool, actions: seq<Action>, id: Bytes,
      json: Messages.Json, ms: seq<Messages.Message>, randoms: seq<Bytes>)
    returns (more: seq<Action>, n: nat)
    requires ValidKey(f.key) && Messages.AllSendable(json, ms, randoms)
    requires DownCanFinish(Run(Over(f, exits), actions))
    requires var a := At(Run(Over(f, exits), actions).down, id);
             Healthy(DownRules(Over(f, exits)), a) && a.sent == Messages.EncodeAll(json, ms, randoms)
    ensures Carriers(more)
    ensures var t := Run(Over(f, exits), actions + more + [ClientRead(id, n, false)]);
            Messages.Received(json, At(t.down, id).taken) == ms
  {
    var w := Over(f, exits);
    more := AllRepliesArrive(f, exits, actions, id, json, ms, randoms);
    var t := Run(w, actions + more);
    n := |At(t.down, id).queue.value.data|;
    ClientReadsAll(w, t, id);
    RunOneMore(w, actions + more, ClientRead(id, n, false));
  }

  // ---------------------------------------------------------------- pings

  /** A ping is sent as long as the relay loop has not returned. */
  lemma PingIsSent(w: Setup, t: Trunk)
    ensures Act(w, t, ClientPing).up.road.flight ==
              t.up.road.flight + if t.over then [] else [Packet([], 0, OP_PING, [])]
  {
    assert Fragments(Packet([], 0, OP_PING, [])) == [Packet([], 0, OP_PING, [])];
    assert t.up.road.flight + [] == t.up.road.flight;
  }

  /** Exactly the pings among the packets that come to the server are answered, each by one pong. */
  lemma PingsAreAnswered(w: Setup, t: Trunk)
    requires TrunkInv(w, t) && ReadAny(t.up.road.acc).Got?
    ensures var ps, t' := t.up.road.flight, Act(w, t, UpDeliver);
            && ps != [] && t'.up.road.flight == ps[1..]
            && t'.down.road.flight ==
                 t.down.road.flight + if ps[0].op == OP_PING then [Packet([], 0, OP_PONG, [])] else []
  {
    FirstDelivered(w.atServer, UpRules(w), t.up);
    Answered(w, t);
    DeliverIs(w, t);
  }

  lemma DeliverIs(w: Setup, t: Trunk)
    ensures Act(w, t, UpDeliver) == Delivered(w, t)
  {
  }

  lemma FirstDelivered(next: Deframer, r: Rules, s: Line)
    requires InOrder(next, s.road) && ReadAny(s.road.acc).Got?
    ensures var ps := s.road.flight;
            && ps != [] && ReadAny(s.road.acc).p.op == ps[0].op
            && Advance(next, r, s, Deliver).road.flight == ps[1..]
  {
    DeliverInOrder(next, s.road);
    DeliverRoad(next, r, s);
  }

  lemma Answered(w: Setup, t: Trunk)
    requires ReadAny(t.up.road.acc).Got?
    ensures Delivered(w, t).up == Advance(w.atServer, UpRules(w), t.up, Deliver)
    ensures Delivered(w, t).down.road.flight ==
              t.down.road.flight +
              if ReadAny(t.up.road.acc).p.op == OP_PING then [Packet([], 0, OP_PONG, [])] else []
  {
    assert Fragments(Packet([], 0, OP_PONG, [])) == [Packet([], 0, OP_PONG, [])];
    assert t.down.road.flight + [] == t.down.road.flight;
  }

  // ---------------------------------------------------------------- closed buffers

  /** The buffer has been closed and has left the map; with what was read from it, it held this. */
  predicate Final(a: Account, all: Bytes) {
    a.queue.None? && a.gone.Some? && a.gone.value.closed && a.taken + a.gone.value.data == all
  }

  lemma StepKeepsFinal(next: Deframer, r: Rules, s: Line, step: Step, id: Bytes, all: Bytes)
    requires !r.creates && Final(At(s, id), all)
    ensures Final(At(Advance(next, r, s, step), id), all)
  {
    if Enabled(next, r, s, step) && step.Take? && step.id == id {
      var a := At(s, id);
      PoppedExactly(a.gone.value, step.n);
      var (q, reading) := Popped(a.gone.value, step.n);
      if reading.Chunk? {
        Assoc(a.taken, reading.got, q.data);
      } else {
        assert a.taken + [] == a.taken;
      }
    }
  }

  lemma {:induction false} GoKeepsFinal(next: Deframer, r: Rules, s: Line, steps: seq<Step>, id: Bytes, all: Bytes)
    requires !r.creates && Final(At(s, id), all)
    ensures Final(At(Go(next, r, s, steps), id), all)
    decreases |steps|
  {
    if steps != [] {
      StepKeepsFinal(next, r, s, steps[0], id, all);
      GoKeepsFinal(next, r, Advance(next, r, s, steps[0]), steps[1..], id, all);
    }
  }

  lemma {:induction false} ContinueKeepsFinal(w: Setup, t: Trunk, more: seq<Action>, id: Bytes, all: Bytes)
    requires Final(At(t.down, id), all)
    ensures Final(At(Continue(w, t, more).down, id), all)
    decreases |more|
  {
    if more != [] {
      ActDown(w, t, more[0]);
      GoKeepsFinal(w.atClient, DownRules(w), t.down, DownSteps(t, more[0]), id, all);
      ContinueKeepsFinal(w, Act(w, t, more[0]), more[1..], id, all);
    }
  }

  lemma CloseIsFinal(w: Setup, t: Trunk, id: Bytes)
    requires At(t.down, id).queue.Some?
    ensures var a := At(t.down, id); Final(At(Act(w, t, ClientClose(id)).down, id), a.taken + a.queue.value.data)
  {
    var t1 := Down(w, t, CloseBuffer(id, false));
    assert Act(w, t, ClientClose(id)) == Closed(w, t, id);
    assert At(t1.down, id) == Closing(At(t.down, id), false);
    assert At(Down(w, t1, Retire(id)).down, id) == Retiring(At(t1.down, id));
  }

  /**
   * A close is final: whatever happens afterwards, what a closed client has read and can still read is what it had
   * read and had in its buffer when it closed.
   */
  lemma ClosedForGood(w: Setup, actions: seq<Action>, id: Bytes, more: seq<Action>)
    requires At(Run(w, actions).down, id).queue.Some?
    ensures var a := At(Run(w, actions).down, id);
            Final(At(Run(w, actions + [ClientClose(id)] + more).down, id), a.taken + a.queue.value.data)
  {
    var t := Run(w, actions);
    var a := At(t.down, id);
    RunOneMore(w, actions, ClientClose(id));
    CloseIsFinal(w, t, id);
    RunContinues(w, actions + [ClientClose(id)], more);
    ContinueKeepsFinal(w, Act(w, t, ClientClose(id)), more, id, a.taken + a.queue.value.data);
  }

  /** An instance that ends takes its buffer out of the map as it is; its client is told if the handler ended it. */
  lemma InstanceEnds(w: Setup, t: Trunk, id: Bytes, byServer: bool)
    requires w.exits && At(t.up, id).queue.Some?
    ensures var t' := Act(w, t, InstanceEnd(id, byServer));
            && At(t'.up, id) == At(t.up, id).(queue := None, gone := At(t.up, id).queue)
            && t'.down.road.flight == t.down.road.flight + if byServer then [Packet(id, 0, OP_EOS, [])] else []
  {
    assert Fragments(Packet(id, 0, OP_EOS, [])) == [Packet(id, 0, OP_EOS, [])];
    assert t.down.road.flight + [] == t.down.road.flight;
  }

  /** An instance that closes its buffer keeps what is in it, and nothing that comes later gets in. */
  lemma InstanceCloses(w: Setup, t: Trunk, id: Bytes, serial: nat, dat: Bytes)
    requires At(t.up, id).queue.Some?
    ensures var a, a' := At(t.up, id), At(Act(w, t, InstanceClose(id, false)).up, id);
            && a' == a.(queue := Some(a.queue.value.(closed := true)))
            && Arrival(UpRules(w), a', serial, dat) == a'
  {
  }

  // ---------------------------------------------------------------- the trunk is given up

  /** When the trunk client is closed, what had not been framed stays behind for good. */
  lemma ClosingStrands(f: Framer, exits: bool, actions: seq<Action>, more: seq<Action>)
    requires ValidKey(f.key) && Carriers(more) && Unframed(Run(Over(f, exits), actions).up.road) != []
    ensures Run(Over(f, exits), actions + [TrunkClose] + more).up.road.flight != []
  {
    RunOneMore(Over(f, exits), actions, TrunkClose);
    UpDrainsExactly(f, exits, actions + [TrunkClose]);
  }
}
