/** Everything on the road arrives: from every reachable state some finite run of the carriers empties it. */
module Draining {
  import opened Bytes
  import opened Stream
  import opened FrameStream
  import opened Packets
  import opened ReceiveBuffer
  import opened Line
  import opened Books

  /** Steps of the write loop, the wire, the framer's reader, the relay and the demultiplexer. */
  predicate Carrier(step: Step) {
    step.Start? || step.Relay? || step.Skip? || step.Pull? || step.Fetch? || step.Deliver?
  }

  ghost function Go(next: Deframer, r: Rules, s: Line, steps: seq<Step>): Line
    decreases |steps|
  {
    if steps == [] then s else Go(next, r, Advance(next, r, s, steps[0]), steps[1..])
  }

  /** A frame for every piece, as the framer at the sender makes one. */
  ghost predicate Frames(next: Deframer, frame: Bytes -> Bytes) {
    forall d: Bytes {:trigger frame(d)} :: |d| <= MAX_PACKET_SIZE ==> Carries(next, frame(d), d)
  }

  /** All that is in flight has come as far as the relay's buffer. */
  predicate HasCome(d: Road) {
    d.acc + d.relay.data == WireAll(d.flight)
  }

  /** All that is in flight has even come to the parser. */
  predicate HasBeenRead(d: Road) {
    d.acc == WireAll(d.flight) && d.relay.data == []
  }

  /** What may still be delivered: everything while the relay runs, and otherwise what it has let through. */
  predicate CanFinish(d: Road) {
    d.stopped ==> HasCome(d)
  }

  /** The first thing to do of: fetch, deliver if nothing is missing, pull one byte, frame a piece, start a packet. */
  function NextStep(d: Road, frame: Bytes -> Bytes): Step {
    if d.relay.data != [] then Fetch(|d.relay.data|)
    else if d.acc == WireAll(d.flight) then Deliver
    else if d.left != [] || d.wire != [] then Pull(1)
    else if d.pieces != [] then Relay(frame(d.pieces[0]))
    else Start
  }

  /** Steps of the sender's write loop. */
  predicate FramingStep(step: Step) {
    step.Start? || step.Relay? || step.Skip?
  }

  /** How far the road is from empty, outermost stage first. */
  predicate Closer(d': Road, d: Road) {
    || |d'.waiting| < |d.waiting|
    || (|d'.waiting| == |d.waiting| &&
        (|| |d'.pieces| < |d.pieces|
         || (|d'.pieces| == |d.pieces| &&
             (|| |d'.left| + |d'.wire| < |d.left| + |d.wire|
              || (|d'.left| + |d'.wire| == |d.left| + |d.wire| &&
                  (|| |d'.relay.data| < |d.relay.data|
                   || (|d'.relay.data| == |d.relay.data| && |d'.flight| < |d.flight|)))))))
  }

  lemma PullIsPossible(next: Deframer, r: Rules, d: Road)
    requires Stable(next) && InOrder(next, d) && !d.stopped && d.relay.data == [] && (d.left != [] || d.wire != [])
    ensures ReadStep(next, d.left, d.wire, 1).error == None
    ensures var d' := Pulled(next, r, d, 1); !d'.stopped && |d'.left| + |d'.wire| < |d.left| + |d.wire|
  {
    if d.left == [] {
      assert next(d.wire).Frame?;
    }
    ReadShrinks(next, d.left, d.wire, 1);
    PushedExactly(d.relay, ReadStep(next, d.left, d.wire, 1).got);
  }

  lemma DeliverIsPossible(d: Road)
    requires d.acc == WireAll(d.flight) && d.flight != [] && OneFragment(d.flight[0])
    ensures ReadAny(d.acc).Got? && Parsed(d) == d.(acc := WireAll(d.flight[1..]), flight := d.flight[1..])
  {
    ReadFirst(d.flight);
  }

  /** With nothing between sender and parser, what is missing has not been framed. */
  lemma MissingIsUnframed(next: Deframer, d: Road)
    requires Stable(next) && InOrder(next, d) && !d.stopped
    requires d.relay.data == [] && d.left == [] && d.wire == [] && d.acc != WireAll(d.flight)
    ensures Unframed(d) != [] && (d.pieces != [] || d.waiting != [])
  {
    if Unframed(d) == [] {
      AllFramed(next, d);
    }
    assert [] + WireAll(AllFragments([])) == [];
  }

  lemma AllFramed(next: Deframer, d: Road)
    requires Stable(next) && InOrder(next, d) && !d.stopped && Unframed(d) == []
    requires d.relay.data == [] && d.left == [] && d.wire == []
    ensures d.acc == WireAll(d.flight)
  {
    NothingThere(next);
    assert d.acc + ([] + ([] + ([] + []))) == d.acc;
  }

  /** Closer to empty, a road that can finish not into a dead end, and no step that can be done without. */
  predicate Leads(d: Road, step: Step, d': Road) {
    && Closer(d', d) && CanFinish(d') && (d'.stopped ==> d.stopped)
    && (Unframed(d) == [] ==> !FramingStep(step) && Unframed(d') == [])
    && (HasBeenRead(d) ==> step.Deliver? && HasBeenRead(d'))
  }

  /** A possible carrier's step that leads on. */
  ghost predicate Works(next: Deframer, r: Rules, s: Line, step: Step) {
    Carrier(step) && Enabled(next, r, s, step) && Leads(s.road, step, Advance(next, r, s, step).road)
  }

  lemma FetchLeads(d: Road)
    requires d.relay.data != [] && CanFinish(d)
    ensures Leads(d, Fetch(|d.relay.data|), Fetched(d, |d.relay.data|))
  {
    var d' := Fetched(d, |d.relay.data|);
    assert d.relay.data[|d.relay.data|..] == [] && d.relay.data[..|d.relay.data|] == d.relay.data;
    assert d'.acc + [] == d'.acc && d'.acc == d.acc + d.relay.data;
  }

  lemma DeliverLeads(d: Road)
    requires HasBeenRead(d) && d.flight != [] && OneFragment(d.flight[0])
    ensures ReadAny(d.acc).Got? && Leads(d, Deliver, Parsed(d))
  {
    DeliverIsPossible(d);
    var acc := WireAll(d.flight[1..]);
    assert acc + [] == acc;
  }

  lemma PullLeads(next: Deframer, r: Rules, d: Road)
    requires Stable(next) && InOrder(next, d) && !d.stopped && d.relay.data == [] && (d.left != [] || d.wire != [])
    requires !HasBeenRead(d)
    ensures ReadStep(next, d.left, d.wire, 1).error == None && Leads(d, Pull(1), Pulled(next, r, d, 1))
  {
    PullIsPossible(next, r, d);
  }

  lemma RelayLeads(d: Road, frame: Bytes)
    requires d.pieces != [] && CanFinish(d) && !HasCome(d) && !HasBeenRead(d) && Unframed(d) != []
    ensures Leads(d, Relay(frame), d.(pieces := d.pieces[1..], wire := d.wire + frame))
  {
  }

  lemma StartLeads(d: Road)
    requires d.waiting != [] && CanFinish(d) && !HasCome(d) && !HasBeenRead(d) && Unframed(d) != []
    ensures Leads(d, Start, d.(waiting := d.waiting[1..], pieces := Pieces(Fragments(d.waiting[0]))))
  {
  }

  /** While something in flight has not come to the relay's buffer, the next step leads on. */
  lemma MissingIsFetched(next: Deframer, r: Rules, d: Road, frame: Bytes -> Bytes)
    requires Stable(next) && InOrder(next, d) && CanFinish(d) && Bounded(d) && Frames(next, frame)
    requires d.relay.data == [] && d.acc != WireAll(d.flight)
    ensures var step := NextStep(d, frame);
            match step
            case Pull(n) => !d.stopped && ReadStep(next, d.left, d.wire, n).error == None
                            && Leads(d, step, Pulled(next, r, d, n))
            case Relay(frame) => d.pieces != [] && Carries(next, frame, d.pieces[0])
                                 && Leads(d, step, d.(pieces := d.pieces[1..], wire := d.wire + frame))
            case Start => d.pieces == [] && d.waiting != []
                          && Leads(d, step, d.(waiting := d.waiting[1..], pieces := Pieces(Fragments(d.waiting[0]))))
            case _ => false
  {
    assert d.acc + [] == d.acc;
    if d.left != [] || d.wire != [] {
      PullLeads(next, r, d);
    } else {
      MissingIsUnframed(next, d);
      if d.pieces != [] {
        RelayLeads(d, frame(d.pieces[0]));
      } else {
        StartLeads(d);
      }
    }
  }

  /** The next step works. */
  lemma NextStepWorks(next: Deframer, r: Rules, s: Line, frame: Bytes -> Bytes)
    requires Stable(next) && Inv(next, r, s) && CanFinish(s.road) && s.road.flight != [] && Frames(next, frame)
    ensures Works(next, r, s, NextStep(s.road, frame))
  {
    var d := s.road;
    if d.relay.data != [] {
      FetchLeads(d);
    } else if d.acc == WireAll(d.flight) {
      DeliverLeads(d);
    } else {
      MissingIsFetched(next, r, d, frame);
    }
  }

  /**
   * These steps are carriers' and deliver all that is in flight, without the write loop if all has been framed, and
   * without any reader if all has been read.
   */
  ghost predicate Drains(next: Deframer, r: Rules, s: Line, steps: seq<Step>) {
    && (forall i :: 0 <= i < |steps| ==> Carrier(steps[i]))
    && (Unframed(s.road) == [] ==> forall i :: 0 <= i < |steps| ==> !FramingStep(steps[i]))
    && (HasBeenRead(s.road) ==> forall i :: 0 <= i < |steps| ==> steps[i].Deliver?)
    && Go(next, r, s, steps).road.flight == []
  }

  lemma OneStepMore(next: Deframer, r: Rules, s: Line, step: Step, more: seq<Step>)
    requires Drains(next, r, Advance(next, r, s, step), more) && Carrier(step)
    requires Unframed(s.road) == [] ==> !FramingStep(step) && Unframed(Advance(next, r, s, step).road) == []
    requires HasBeenRead(s.road) ==> step.Deliver? && HasBeenRead(Advance(next, r, s, step).road)
    ensures Drains(next, r, s, [step] + more)
  {
    var steps := [step] + more;
    assert steps[1..] == more;
  }

  /**
   * Drain: from every state that can finish, carriers that do the next thing deliver every fragment in flight in
   * finitely many steps.
   */
  lemma {:induction false} Drain(next: Deframer, r: Rules, s: Line, frame: Bytes -> Bytes) returns (steps: seq<Step>)
    requires Stable(next) && Inv(next, r, s) && CanFinish(s.road) && Frames(next, frame)
    ensures Drains(next, r, s, steps)
    decreases |s.road.waiting|, |s.road.pieces|, |s.road.left| + |s.road.wire|, |s.road.relay.data|, |s.road.flight|
  {
    if s.road.flight == [] {
      steps := [];
    } else {
      var step := NextStep(s.road, frame);
      NextStepWorks(next, r, s, frame);
      StepKeepsInv(next, r, s, step);
      var more := Drain(next, r, Advance(next, r, s, step), frame);
      OneStepMore(next, r, s, step, more);
      steps := [step] + more;
    }
  }

  // ---------------------------------------------------------------- and no other state does

  /** Bytes in flight that have not come to the parser, */
  function Unread(d: Road): int {
    |WireAll(d.flight)| - |d.acc|
  }

  /** and of them, those that have not even come to the relay's buffer. */
  function Gap(d: Road): int {
    Unread(d) - |d.relay.data|
  }

  /** Once the relay has stopped, carriers bring nothing closer. */
  lemma CarrierKeepsGap(next: Deframer, r: Rules, s: Line, step: Step)
    requires Inv(next, r, s) && s.road.stopped && (Carrier(step) || step.Control?)
    ensures var d := Advance(next, r, s, step).road; d.stopped && Gap(d) >= Gap(s.road)
  {
    if Enabled(next, r, s, step) {
      match step
      case Deliver =>
        DeliverInOrder(next, s.road);
        DeliverKeepsGap(next, s.road);
      case Fetch(n) => PoppedSplits(s.road.relay, n);
      case Control(op) => WireAllAppend(s.road.flight, Fragments(Packet([], 0, op, [])));
      case _ =>
    }
  }

  /** Without fetches nothing more comes to the parser of a client. */
  lemma CarrierKeepsUnread(next: Deframer, r: Rules, s: Line, step: Step)
    requires Inv(next, r, s) && !r.creates && (Carrier(step) || step.Control?) && !step.Fetch?
    ensures Unread(Advance(next, r, s, step).road) >= Unread(s.road)
  {
    if Enabled(next, r, s, step) {
      match step
      case Deliver =>
        DeliverInOrder(next, s.road);
        DeliverKeepsGap(next, s.road);
      case Control(op) => WireAllAppend(s.road.flight, Fragments(Packet([], 0, op, [])));
      case _ =>
    }
  }

  lemma DeliverKeepsGap(next: Deframer, d: Road)
    requires InOrder(next, d) && ReadAny(d.acc).Got?
    ensures Unread(Parsed(d)) == Unread(d) && Parsed(d).relay == d.relay
  {
    var tail := BehindParser(next, d);
    FirstFragment(d.acc, tail, d.flight);
  }

  /** Without the write loop, what has not been framed stays where it is. */
  lemma UnframedStays(next: Deframer, r: Rules, s: Line, step: Step)
    requires Carrier(step) && !FramingStep(step)
    ensures var d := Advance(next, r, s, step).road; d.pieces == s.road.pieces && d.waiting == s.road.waiting
  {
  }

  lemma NothingInFlight(next: Deframer, d: Road)
    requires InOrder(next, d) && d.flight == []
    ensures Unread(d) == 0 && Gap(d) == 0
    ensures !d.stopped ==> Unframed(d) == []
  {
    ParserHasFront(next, d);
  }

  // ---------------------------------------------------------------- what one client gets from it

  /** No end-of-stream and no end of an instance has come in between. */
  predicate Open(a: Account) {
    a.gone == None && (a.queue.Some? ==> !a.queue.value.closed)
  }

  /** Same writes, same reads, and still open. */
  predicate Continues(a: Account, a': Account) {
    && a'.sent == a.sent && a'.taken == a.taken && a'.writes == a.writes && a'.closes == a.closes
    && a'.opening == a.opening && (Open(a) ==> Open(a'))
  }

  lemma ArrivalContinues(r: Rules, a: Account, serial: nat, dat: Bytes)
    ensures Continues(a, Arrival(r, a, serial, dat))
  {
  }

  lemma CarrierContinues(next: Deframer, r: Rules, s: Line, step: Step, id: Bytes)
    requires Carrier(step)
    ensures Continues(At(s, id), At(Advance(next, r, s, step), id))
  {
    if step.Deliver? && Enabled(next, r, s, step) {
      var p := ReadAny(s.road.acc).p;
      ArrivalContinues(r, At(s, id), p.serial, p.data);
    }
  }

  lemma {:induction false} GoKeepsInv(next: Deframer, r: Rules, s: Line, steps: seq<Step>)
    requires Stable(next) && Inv(next, r, s)
    ensures Inv(next, r, Go(next, r, s, steps))
    decreases |steps|
  {
    if steps != [] {
      StepKeepsInv(next, r, s, steps[0]);
      GoKeepsInv(next, r, Advance(next, r, s, steps[0]), steps[1..]);
    }
  }

  lemma {:induction false} GoContinues(next: Deframer, r: Rules, s: Line, steps: seq<Step>, id: Bytes)
    requires Stable(next) && Inv(next, r, s) && forall i :: 0 <= i < |steps| ==> Carrier(steps[i])
    ensures Continues(At(s, id), At(Go(next, r, s, steps), id))
    ensures !At(s, id).refused && Outstanding(At(s, id)) <= BUF_SIZE_MAX ==> !At(Go(next, r, s, steps), id).refused
    decreases |steps|
  {
    if steps != [] {
      var s1 := Advance(next, r, s, steps[0]);
      CarrierContinues(next, r, s, steps[0], id);
      StepKeepsInv(next, r, s, steps[0]);
      if !At(s, id).refused && Outstanding(At(s, id)) <= BUF_SIZE_MAX {
        StepRefuses(next, r, s, steps[0], id);
      }
      GoContinues(next, r, s1, steps[1..], id);
    }
  }

  /** The stream of this client is whole so far, and reaches the receiver. */
  predicate Healthy(r: Rules, a: Account) {
    && !a.refused && Outstanding(a) <= BUF_SIZE_MAX && Open(a) && a.writes > 0
    && (r.creates ==> Tame(r, a) && a.opening.Some? && a.opening.value.serial == 0)
  }

  /**
   * Everything arrives: from any state of a line that can finish, some finite run of the carriers brings all a
   * client has written, and nobody has read yet, into its receive buffer.
   */
  lemma EverythingArrives(next: Deframer, r: Rules, s: Line, frame: Bytes -> Bytes, id: Bytes)
    returns (steps: seq<Step>)
    requires Stable(next) && Inv(next, r, s) && CanFinish(s.road) && Frames(next, frame) && Healthy(r, At(s, id))
    ensures Drains(next, r, s, steps)
    ensures var a, a' := At(s, id), At(Go(next, r, s, steps), id);
            a'.sent == a.sent && a'.taken == a.taken && a'.queue.Some? && a'.taken + a'.queue.value.data == a'.sent
  {
    steps := Drain(next, r, s, frame);
    GoContinues(next, r, s, steps, id);
    GoKeepsInv(next, r, s, steps);
    AllBuffered(next, r, Go(next, r, s, steps), id);
  }

  /** With nothing in flight, a healthy stream is read or buffered. */
  lemma AllBuffered(next: Deframer, r: Rules, s: Line, id: Bytes)
    requires Inv(next, r, s) && s.road.flight == [] && Healthy(r, At(s, id))
    ensures var a := At(s, id); a.queue.Some? && a.taken + a.queue.value.data == a.sent
  {
    assert GoodAt(r, s, id);
    AllInAccount(r, At(s, id));
  }

  lemma AllInAccount(r: Rules, a: Account)
    requires Good(r, a, [], []) && Healthy(r, a)
    ensures a.queue.Some? && a.taken + a.queue.value.data == a.sent
  {
    assert a.queue.Some?;
    assert a.queue.value.data + [] == a.queue.value.data;
  }

  // ---------------------------------------------------------------- what the carriers make of the fragments

  /** The data fragments of one client. */
  function Own(id: Bytes, ps: seq<Packet>): seq<Packet> {
    if ps == [] then [] else (if Mine(id, ps[0]) then [ps[0]] else []) + Own(id, ps[1..])
  }

  function ArriveAll(r: Rules, a: Account, ps: seq<Packet>): Account
    decreases |ps|
  {
    if ps == [] then a else ArriveAll(r, Arrival(r, a, ps[0].serial, ps[0].data), ps[1..])
  }

  lemma FirstOfOwn(r: Rules, a: Account, id: Bytes, f: Packet, ps: seq<Packet>)
    ensures ArriveAll(r, a, Own(id, [f] + ps)) ==
              ArriveAll(r, if Mine(id, f) then Arrival(r, a, f.serial, f.data) else a, Own(id, ps))
  {
    assert ([f] + ps)[1..] == ps;
    if Mine(id, f) {
      assert ([f] + Own(id, ps))[1..] == Own(id, ps);
    } else {
      assert [] + Own(id, ps) == Own(id, ps);
    }
  }

  lemma FirstArrives(r: Rules, a: Account, a': Account, id: Bytes, ps: seq<Packet>)
    requires ps != [] && a' == if Mine(id, ps[0]) then Arrival(r, a, ps[0].serial, ps[0].data) else a
    ensures ArriveAll(r, a', Own(id, ps[1..])) == ArriveAll(r, a, Own(id, ps))
  {
    assert ps == [ps[0]] + ps[1..];
    FirstOfOwn(r, a, id, ps[0], ps[1..]);
  }

  lemma DeliverKeepsOutcome(next: Deframer, r: Rules, s: Line, id: Bytes)
    requires InOrder(next, s.road) && Bounded(s.road) && ReadAny(s.road.acc).Got?
    ensures var s' := Advance(next, r, s, Deliver);
            ArriveAll(r, At(s', id), Own(id, s'.road.flight)) == ArriveAll(r, At(s, id), Own(id, s.road.flight))
  {
    DeliverInOrder(next, s.road);
    DeliverAccount(next, r, s, id, s.road.flight[0]);
    DeliverRoad(next, r, s);
    FirstArrives(r, At(s, id), At(Advance(next, r, s, Deliver), id), id, s.road.flight);
  }

  lemma DeliverAccount(next: Deframer, r: Rules, s: Line, id: Bytes, f: Packet)
    requires ReadAny(s.road.acc).Got? && ReadAny(s.road.acc).p == AsRead(f) && Addressed(f)
    ensures At(Advance(next, r, s, Deliver), id) ==
              if Mine(id, f) then Arrival(r, At(s, id), f.serial, f.data) else At(s, id)
  {
  }

  lemma DeliverRoad(next: Deframer, r: Rules, s: Line)
    requires ReadAny(s.road.acc).Got? && s.road.flight != []
    ensures Advance(next, r, s, Deliver).road.flight == s.road.flight[1..]
  {
  }

  /** Delivering the rest of what is in flight comes to the same before and after a carrier's step. */
  lemma CarrierKeepsOutcome(next: Deframer, r: Rules, s: Line, step: Step, id: Bytes)
    requires Inv(next, r, s) && Carrier(step)
    ensures var s' := Advance(next, r, s, step);
            ArriveAll(r, At(s', id), Own(id, s'.road.flight)) == ArriveAll(r, At(s, id), Own(id, s.road.flight))
  {
    if step.Deliver? {
      if Enabled(next, r, s, step) {
        DeliverKeepsOutcome(next, r, s, id);
      }
    } else {
      CarryKeepsFlight(next, r, s, step);
    }
  }

  /** A run of carriers that empties the road hands each client its fragments in order, and nothing else. */
  lemma {:induction false} GoDelivers(next: Deframer, r: Rules, s: Line, steps: seq<Step>, id: Bytes)
    requires Stable(next) && Inv(next, r, s) && forall i :: 0 <= i < |steps| ==> Carrier(steps[i])
    requires Go(next, r, s, steps).road.flight == []
    ensures At(Go(next, r, s, steps), id) == ArriveAll(r, At(s, id), Own(id, s.road.flight))
    decreases |steps|
  {
    if steps != [] {
      StepKeepsInv(next, r, s, steps[0]);
      CarrierKeepsOutcome(next, r, s, steps[0], id);
      GoDelivers(next, r, Advance(next, r, s, steps[0]), steps[1..], id);
    }
  }
}
