/** What every step of a line keeps: the bytes of each client are accounted for, client by client. */
module Books {
  import opened Bytes
  import opened Stream
  import opened FrameStream
  import opened Packets
  import opened ReceiveBuffer
  import opened Line

  // ---------------------------------------------------------------- one client's books

  function Size(q: Option<Queue>): nat {
    match q
    case None => 0
    case Some(q) => |q.data|
  }

  /** No data of this client has come yet. */
  predicate Untouched(a: Account) {
    a.queue == None && a.gone == None && !a.lost
  }

  /** Bytes read, buffered and in flight. */
  function Accounted(a: Account, payload: Bytes): nat {
    |a.taken| + Size(a.queue) + Size(a.gone) + |payload|
  }

  /** No byte a client wrote counts twice, and once data was refused some byte is missing for good. */
  predicate Sized(a: Account, payload: Bytes) {
    Accounted(a, payload) <= |a.sent| && (a.refused ==> Accounted(a, payload) < |a.sent|)
  }

  /**
   * Bytes written are bytes read, then buffered, then in flight. After the buffer was closed or has left the
   * map, what was read and is buffered is still a front of them. A client whose first data found no buffer never
   * gets one. Only data refused by a full buffer and a buffer opened in mid-stream break this.
   */
  predicate Balanced(a: Account, payload: Bytes) {
    a.refused || a.reopened ||
    match (a.queue, a.gone)
    case (Some(q), None) => if q.closed then a.taken + q.data <= a.sent else a.taken + (q.data + payload) == a.sent
    case (None, Some(q)) => a.taken + q.data <= a.sent
    case (None, None) => a.taken == [] && (a.lost || payload == a.sent)
    case (Some(_), Some(_)) => false
  }

  /** The serials drawn have not wrapped around, and where instances end the first write fits one fragment. */
  predicate Tame(r: Rules, a: Account) {
    a.writes + a.closes <= U32 && (r.exits && a.opening.Some? ==> a.opening.value.size <= MAX_PACKET_SIZE)
  }

  /** The serials in flight after the one that may open a buffer. */
  function Later(a: Account, serials: seq<nat>): seq<nat> {
    if Untouched(a) && serials != [] then serials[1..] else serials
  }

  /** Serial 0 opens a buffer at the server: the first write must have drawn it, and later ones must not. */
  predicate Numbered(r: Rules, a: Account, serials: seq<nat>) {
    && (a.writes == 0 <==> a.opening == None)
    && (a.opening == None ==> Untouched(a) && !a.reopened)
    && (a.opening.Some? ==>
          && (Untouched(a) ==> serials != [] && serials[0] == a.opening.value.serial)
          && (!a.reopened && a.lost ==> a.opening.value.serial != 0)
          && (!a.reopened && Known(a) ==> a.opening.value.serial == 0)
          && (Tame(r, a) ==> !a.reopened && (r.exits || a.opening.value.serial != 0 ==> 0 !in Later(a, serials))))
    && (a.gone.Some? ==> r.exits)
  }

  /** At the client nothing depends on serials: replies go to clients that have registered. */
  predicate Registered(a: Account) {
    !a.lost && !a.reopened && (a.writes > 0 ==> Known(a))
  }

  predicate Formed(a: Account) {
    (a.queue.Some? ==> WellFormed(a.queue.value)) && (a.gone.Some? ==> WellFormed(a.gone.value))
  }

  predicate Good(r: Rules, a: Account, payload: Bytes, serials: seq<nat>) {
    && Formed(a) && Sized(a, payload) && Balanced(a, payload)
    && (a.writes == 0 ==> serials == [])
    && (if r.creates then Numbered(r, a, serials) else Registered(a))
  }

  /** The books of one client at a line. */
  predicate GoodAt(r: Rules, s: Line, id: Bytes) {
    Good(r, At(s, id), Payload(id, s.road.flight), Serials(id, s.road.flight))
  }

  // ---------------------------------------------------------------- what each event does to the books

  lemma SendKeepsBalance(r: Rules, a: Account, payload: Bytes, dat: Bytes)
    requires Formed(a) && Sized(a, payload) && Balanced(a, payload)
    ensures var a' := Sending(r, a, dat);
            Formed(a') && Sized(a', payload + dat) && Balanced(a', payload + dat)
  {
    if a.queue.Some? {
      Assoc(a.queue.value.data, payload, dat);
      Assoc(a.taken, a.queue.value.data + payload, dat);
    }
  }

  lemma SendKeepsNumbers(r: Rules, a: Account, serials: seq<nat>, more: seq<nat>, dat: Bytes)
    requires r.creates && Numbered(r, a, serials) && (a.writes == 0 ==> serials == [])
    requires more != [] && forall n :: n in more ==> n == SerialOf(r, a)
    requires |dat| <= MAX_PACKET_SIZE ==> more == [SerialOf(r, a)]
    ensures Numbered(r, Sending(r, a, dat), serials + more)
  {
    var a', all := Sending(r, a, dat), serials + more;
    assert more[0] in more;
    assert all[0] == if serials == [] then more[0] else serials[0];
    if Tame(r, a') {
      TameSend(r, a, serials, more, dat);
    }
  }

  /** In a tame run only the first draw gives serial 0. */
  lemma TameSend(r: Rules, a: Account, serials: seq<nat>, more: seq<nat>, dat: Bytes)
    requires r.creates && Numbered(r, a, serials) && (a.writes == 0 ==> serials == []) && Tame(r, Sending(r, a, dat))
    requires more != [] && forall n :: n in more ==> n == SerialOf(r, a)
    requires |dat| <= MAX_PACKET_SIZE ==> more == [SerialOf(r, a)]
    ensures var a' := Sending(r, a, dat);
            !a'.reopened && (r.exits || a'.opening.value.serial != 0 ==> 0 !in Later(a', serials + more))
  {
    var n := SerialOf(r, a);
    assert n == a.writes + a.closes;
    var a', all := Sending(r, a, dat), serials + more;
    if a.opening == None {
      assert all == more;
      if r.exits && n == 0 {
        assert Later(a', all) == [];
      } else {
        assert n != 0 ==> 0 !in more;
      }
    } else {
      assert Tame(r, a);
      assert 0 !in more;
      assert Later(a', all) == Later(a, serials) + more;
    }
  }

  lemma DrawKeepsBooks(r: Rules, a: Account, payload: Bytes, serials: seq<nat>)
    requires Good(r, a, payload, serials)
    ensures Good(r, Drawing(a), payload, serials)
  {
    assert Tame(r, Drawing(a)) ==> Tame(r, a);
    assert Later(Drawing(a), serials) == Later(a, serials);
  }

  /** The oldest fragment in flight is this client's: its data is buffered, refused, or dropped. */
  lemma ArrivalKeepsSizes(r: Rules, a: Account, serial: nat, dat: Bytes, rest: Bytes)
    requires Formed(a) && Sized(a, dat + rest)
    ensures Formed(Arrival(r, a, serial, dat)) && Sized(Arrival(r, a, serial, dat), rest)
  {
    PushedExactly(if a.queue.Some? then a.queue.value else Fresh, dat);
  }

  lemma ArrivalKeepsBalance(r: Rules, a: Account, serial: nat, dat: Bytes, rest: Bytes)
    requires Formed(a) && Balanced(a, dat + rest)
    ensures Balanced(Arrival(r, a, serial, dat), rest)
  {
    var q := if a.queue.Some? then a.queue.value else Fresh;
    PushedExactly(q, dat);
    Assoc(q.data, dat, rest);
    assert [] + (dat + rest) == dat + rest;
  }

  lemma ArrivalKeepsNumbers(r: Rules, a: Account, serial: nat, dat: Bytes, rest: seq<nat>)
    requires r.creates && a.writes > 0 && Numbered(r, a, [serial] + rest)
    ensures Numbered(r, Arrival(r, a, serial, dat), rest)
  {
    var a', all := Arrival(r, a, serial, dat), [serial] + rest;
    assert all[1..] == rest;
    assert a.opening.Some? && a'.opening == a.opening;
    if Tame(r, a') {
      TameArrival(r, a, serial, dat, rest);
    }
  }

  lemma TameArrival(r: Rules, a: Account, serial: nat, dat: Bytes, rest: seq<nat>)
    requires r.creates && Numbered(r, a, [serial] + rest) && a.opening.Some? && Tame(r, a)
    ensures var a' := Arrival(r, a, serial, dat);
            !a'.reopened && (r.exits || a'.opening.value.serial != 0 ==> 0 !in Later(a', rest))
  {
    var all := [serial] + rest;
    assert all[0] == serial && all[1..] == rest;
    assert r.exits || a.opening.value.serial != 0 ==> 0 !in rest;
  }

  lemma TakeKeepsBooks(r: Rules, a: Account, payload: Bytes, serials: seq<nat>, n: nat, late: bool)
    requires Good(r, a, payload, serials) && Held(a, late).Some?
    ensures Good(r, Taking(a, n, late), payload, serials)
  {
    var q := Held(a, late).value;
    var (q', reading) := Popped(q, n);
    var got := if reading.Chunk? then reading.got else [];
    PoppedSplits(q, n);
    Assoc(got, q'.data, payload);
    Assoc(a.taken, got, q'.data);
    Assoc(a.taken, got, q'.data + payload);
    OwnerKeepsNumbers(r, a, Taking(a, n, late), serials);
  }

  lemma ClosingKeepsBooks(r: Rules, a: Account, payload: Bytes, serials: seq<nat>, late: bool)
    requires Good(r, a, payload, serials) && Held(a, late).Some?
    ensures Good(r, Closing(a, late), payload, serials)
  {
    var q := Held(a, late).value;
    Assoc(a.taken, q.data, payload);
    OwnerKeepsNumbers(r, a, Closing(a, late), serials);
  }

  lemma RetiringKeepsBooks(r: Rules, a: Account, payload: Bytes, serials: seq<nat>)
    requires Good(r, a, payload, serials) && a.queue.Some? && (r.creates ==> r.exits)
    ensures Good(r, Retiring(a), payload, serials)
  {
    var q := a.queue.value;
    Assoc(a.taken, q.data, payload);
    if r.creates {
      assert Later(Retiring(a), serials) == Later(a, serials);
      assert Tame(r, Retiring(a)) == Tame(r, a);
    }
  }

  /** Readers and closers do not touch what the numbering speaks of. */
  lemma OwnerKeepsNumbers(r: Rules, a: Account, a': Account, serials: seq<nat>)
    requires if r.creates then Numbered(r, a, serials) else Registered(a)
    requires a'.queue.Some? == a.queue.Some? && a'.gone.Some? == a.gone.Some?
    requires a'.writes == a.writes && a'.closes == a.closes && a'.opening == a.opening
    requires a'.lost == a.lost && a'.reopened == a.reopened
    ensures if r.creates then Numbered(r, a', serials) else Registered(a')
  {
    assert Untouched(a') == Untouched(a) && Tame(r, a') == Tame(r, a);
    assert Later(a', serials) == Later(a, serials);
  }

  lemma RegisterKeepsBooks(r: Rules, a: Account, payload: Bytes, serials: seq<nat>)
    requires Good(r, a, payload, serials) && !r.creates && !Known(a)
    ensures Good(r, a.(queue := Some(Fresh)), payload, serials)
  {
    assert a.taken + ([] + payload) == a.taken + payload;
    assert a.taken == [] ==> [] + payload == payload;
  }

  // ---------------------------------------------------------------- steps and the books of every client

  /** A packet joins the fragments in flight. */
  lemma EnqueuedBooks(d: Road, p: Packet, id: Bytes)
    ensures Payload(id, Enqueued(d, p).flight) == Payload(id, d.flight) + MyData(id, p)
    ensures Serials(id, Enqueued(d, p).flight) == Serials(id, d.flight) + Serials(id, Fragments(p))
    ensures !Mine(id, p) ==>
              Payload(id, Enqueued(d, p).flight) == Payload(id, d.flight) &&
              Serials(id, Enqueued(d, p).flight) == Serials(id, d.flight)
  {
    PayloadAppend(id, d.flight, Fragments(p));
    SerialsAppend(id, d.flight, Fragments(p));
    PayloadOfPacket(id, p);
    SerialsOfPacket(id, p);
    if !Mine(id, p) {
      assert Payload(id, d.flight) + [] == Payload(id, d.flight);
      assert Serials(id, d.flight) + [] == Serials(id, d.flight);
    }
  }

  lemma SendKeepsBooks(next: Deframer, r: Rules, s: Line, id: Bytes, dat: Bytes, other: Bytes)
    requires Enabled(next, r, s, Send(id, dat)) && GoodAt(r, s, other)
    ensures GoodAt(r, Advance(next, r, s, Send(id, dat)), other)
  {
    var a, p := At(s, id), DataPacket(r, At(s, id), id, dat);
    EnqueuedBooks(s.road, p, other);
    if other == id {
      SerialsOfPacket(id, p);
      SendKeepsBalance(r, a, Payload(id, s.road.flight), dat);
      if r.creates {
        SendKeepsNumbers(r, a, Serials(id, s.road.flight), Serials(id, Fragments(p)), dat);
      }
    }
  }

  lemma EosKeepsBooks(next: Deframer, r: Rules, s: Line, id: Bytes, other: Bytes)
    requires GoodAt(r, s, other)
    ensures GoodAt(r, Advance(next, r, s, Eos(id)), other)
  {
    EnqueuedBooks(s.road, EosPacket(r, At(s, id), id), other);
    if other == id {
      DrawKeepsBooks(r, At(s, id), Payload(id, s.road.flight), Serials(id, s.road.flight));
    }
  }

  lemma ControlKeepsBooks(next: Deframer, r: Rules, s: Line, op: byte, other: Bytes)
    requires Enabled(next, r, s, Control(op)) && GoodAt(r, s, other)
    ensures GoodAt(r, Advance(next, r, s, Control(op)), other)
  {
    EnqueuedBooks(s.road, Packet([], 0, op, []), other);
  }

  predicate Addressed(p: Packet) {
    p.op == OP_DATA ==> p.clientId != []
  }

  /** What the parser delivers is filed under the right client, and nothing else moves. */
  lemma DeliverKeepsBooks(r: Rules, s: Line, other: Bytes)
    requires s.road.flight != [] && Addressed(s.road.flight[0]) && GoodAt(r, s, other)
    ensures var f := s.road.flight[0];
            GoodAt(r, Deposited(r, s, AsRead(f)).(road := s.road.(flight := s.road.flight[1..])), other)
  {
    var f, rest := s.road.flight[0], s.road.flight[1..];
    if Mine(other, f) {
      MineArrives(r, At(s, other), f, Payload(other, rest), Serials(other, rest));
    } else {
      assert [] + Payload(other, rest) == Payload(other, rest);
      assert [] + Serials(other, rest) == Serials(other, rest);
    }
  }

  lemma MineArrives(r: Rules, a: Account, f: Packet, payload: Bytes, serials: seq<nat>)
    requires Good(r, a, f.data + payload, [f.serial] + serials)
    ensures Good(r, Arrival(r, a, f.serial, f.data), payload, serials)
  {
    ArrivalKeepsSizes(r, a, f.serial, f.data, payload);
    ArrivalKeepsBalance(r, a, f.serial, f.data, payload);
    if r.creates {
      ArrivalKeepsNumbers(r, a, f.serial, f.data, serials);
    }
  }

  // ---------------------------------------------------------------- the whole invariant

  /** Packets waiting are well-formed, and no single Write call is longer than the fragment limit. */
  predicate Bounded(d: Road) {
    && (forall i :: 0 <= i < |d.waiting| ==> Sendable(d.waiting[i]))
    && (forall i :: 0 <= i < |d.pieces| ==> |d.pieces[i]| <= MAX_PACKET_SIZE)
    && (forall i :: 0 <= i < |d.flight| ==> Addressed(d.flight[i]))
  }

  ghost predicate Inv(next: Deframer, r: Rules, s: Line) {
    && InOrder(next, s.road)
    && Bounded(s.road)
    && (r.creates ==> s.road.relay == Fresh && !s.road.stopped)
    && At(s, []).queue == None
    && (forall id {:trigger GoodAt(r, s, id)} :: GoodAt(r, s, id))
  }

  lemma OwnerKeepsBooks(next: Deframer, r: Rules, s: Line, step: Step, other: Bytes)
    requires Enabled(next, r, s, step) && GoodAt(r, s, other)
    requires step.Take? || step.CloseBuffer? || step.Retire? || step.Register?
    ensures GoodAt(r, Advance(next, r, s, step), other)
  {
    if other == step.id {
      var a, payload, serials := At(s, other), Payload(other, s.road.flight), Serials(other, s.road.flight);
      match step
      case Take(_, n, late) => TakeKeepsBooks(r, a, payload, serials, n, late);
      case CloseBuffer(_, late) => ClosingKeepsBooks(r, a, payload, serials, late);
      case Retire(_) => RetiringKeepsBooks(r, a, payload, serials);
      case Register(_) => RegisterKeepsBooks(r, a, payload, serials);
    }
  }

  /** Moving bytes between the sender's lock and the parser concerns no client in particular. */
  lemma CarryKeepsBooks(next: Deframer, r: Rules, s: Line, step: Step, other: Bytes)
    requires step.Start? || step.Relay? || step.Skip? || step.Pull? || step.Fetch?
    requires GoodAt(r, s, other)
    ensures GoodAt(r, Advance(next, r, s, step), other)
  {
    CarryKeepsFlight(next, r, s, step);
  }

  lemma CarryKeepsFlight(next: Deframer, r: Rules, s: Line, step: Step)
    requires step.Start? || step.Relay? || step.Skip? || step.Pull? || step.Fetch?
    ensures Advance(next, r, s, step).road.flight == s.road.flight
    ensures Advance(next, r, s, step).accounts == s.accounts
  {
  }

  lemma DeliverStepKeepsBooks(next: Deframer, r: Rules, s: Line, other: Bytes)
    requires Inv(next, r, s) && Enabled(next, r, s, Deliver) && GoodAt(r, s, other)
    ensures GoodAt(r, Advance(next, r, s, Deliver), other)
  {
    DeliverInOrder(next, s.road);
    DeliverKeepsBooks(r, s, other);
  }

  lemma StepKeepsBooks(next: Deframer, r: Rules, s: Line, step: Step, other: Bytes)
    requires Inv(next, r, s) && Enabled(next, r, s, step) && GoodAt(r, s, other)
    ensures GoodAt(r, Advance(next, r, s, step), other)
  {
    match step
    case Send(id, dat) => SendKeepsBooks(next, r, s, id, dat, other);
    case Eos(id) => EosKeepsBooks(next, r, s, id, other);
    case Control(op) => ControlKeepsBooks(next, r, s, op, other);
    case Deliver => DeliverStepKeepsBooks(next, r, s, other);
    case Start => CarryKeepsBooks(next, r, s, step, other);
    case Relay(_) => CarryKeepsBooks(next, r, s, step, other);
    case Skip => CarryKeepsBooks(next, r, s, step, other);
    case Pull(_) => CarryKeepsBooks(next, r, s, step, other);
    case Fetch(_) => CarryKeepsBooks(next, r, s, step, other);
    case _ => OwnerKeepsBooks(next, r, s, step, other);
  }

  /** The road's side of a step, whatever happens to the books. */
  lemma StepKeepsOrder(next: Deframer, r: Rules, s: Line, step: Step)
    requires Stable(next) && Inv(next, r, s) && Enabled(next, r, s, step)
    ensures InOrder(next, Advance(next, r, s, step).road)
  {
    match step
    case Send(id, dat) => EnqueueInOrder(next, s.road, DataPacket(r, At(s, id), id, dat));
    case Eos(id) => EnqueueInOrder(next, s.road, EosPacket(r, At(s, id), id));
    case Control(op) => EnqueueInOrder(next, s.road, Packet([], 0, op, []));
    case Start => StartInOrder(next, s.road);
    case Relay(frame) => RelayInOrder(next, s.road, frame);
    case Skip => SkipInOrder(next, s.road);
    case Pull(n) => PullInOrder(next, r, s.road, n);
    case Fetch(n) => FetchInOrder(next, s.road, n);
    case Deliver => DeliverInOrder(next, s.road);
    case _ =>
  }

  lemma {:induction false} PiecesBounded(ps: seq<Packet>, i: nat)
    requires forall k :: 0 <= k < |ps| ==> OneFragment(ps[k])
    requires i < |Pieces(ps)|
    ensures |Pieces(ps)[i]| <= MAX_PACKET_SIZE
  {
    if i >= 3 {
      assert Pieces(ps)[i] == Pieces(ps[1..])[i - 3];
      PiecesBounded(ps[1..], i - 3);
    } else {
      assert Pieces(ps)[i] == [HeadOf(ps[0]), MetaOf(ps[0]), ps[0].data][i];
      assert OneFragment(ps[0]);
    }
  }

  lemma EnqueueKeepsBounds(d: Road, p: Packet)
    requires Bounded(d) && Sendable(p) && Addressed(p)
    ensures Bounded(Enqueued(d, p))
  {
    forall i | 0 <= i < |Fragments(p)| ensures Addressed(Fragments(p)[i]) {
      FragmentsAlike(p, Fragments(p)[i]);
    }
  }

  lemma StartKeepsBounds(d: Road)
    requires Bounded(d) && d.waiting != []
    ensures Bounded(d.(waiting := d.waiting[1..], pieces := Pieces(Fragments(d.waiting[0]))))
  {
    var fs := Fragments(d.waiting[0]);
    forall k | 0 <= k < |fs| ensures OneFragment(fs[k]) {
      FragmentsAlike(d.waiting[0], fs[k]);
    }
    forall i | 0 <= i < |Pieces(fs)| ensures |Pieces(fs)[i]| <= MAX_PACKET_SIZE {
      PiecesBounded(fs, i);
    }
  }

  lemma StepKeepsBounds(next: Deframer, r: Rules, s: Line, step: Step)
    requires Inv(next, r, s) && Enabled(next, r, s, step)
    ensures Bounded(Advance(next, r, s, step).road)
  {
    match step
    case Send(id, dat) => EnqueueKeepsBounds(s.road, DataPacket(r, At(s, id), id, dat));
    case Eos(id) => EnqueueKeepsBounds(s.road, EosPacket(r, At(s, id), id));
    case Control(op) => EnqueueKeepsBounds(s.road, Packet([], 0, op, []));
    case Start => StartKeepsBounds(s.road);
    case _ =>
  }

  /** The server's side has no receive buffer between framer and parser, */
  lemma StepKeepsRelay(next: Deframer, r: Rules, s: Line, step: Step)
    requires r.creates && s.road.relay == Fresh && !s.road.stopped
    ensures var d := Advance(next, r, s, step).road; d.relay == Fresh && !d.stopped
  {
  }

  /** and nobody has the empty id. */
  lemma StepKeepsNobody(next: Deframer, r: Rules, s: Line, step: Step)
    requires Inv(next, r, s) && Enabled(next, r, s, step)
    ensures At(Advance(next, r, s, step), []).queue == None
  {
    if step.Deliver? {
      DeliverInOrder(next, s.road);
      DeliverKeepsNobody(next, r, s, s.road.flight[0]);
    } else {
      OthersKeepNobody(next, r, s, step);
    }
  }

  lemma DeliverKeepsNobody(next: Deframer, r: Rules, s: Line, f: Packet)
    requires Addressed(f) && ReadAny(s.road.acc).Got? && ReadAny(s.road.acc).p == AsRead(f)
    ensures At(Advance(next, r, s, Deliver), []) == At(s, [])
  {
  }

  lemma OthersKeepNobody(next: Deframer, r: Rules, s: Line, step: Step)
    requires Enabled(next, r, s, step) && !step.Deliver? && At(s, []).queue == None
    ensures At(Advance(next, r, s, step), []).queue == None
  {
  }

  /** Every step keeps the whole invariant. */
  lemma StepKeepsInv(next: Deframer, r: Rules, s: Line, step: Step)
    requires Stable(next) && Inv(next, r, s)
    ensures Inv(next, r, Advance(next, r, s, step))
  {
    if Enabled(next, r, s, step) {
      StepKeepsOrder(next, r, s, step);
      StepKeepsBounds(next, r, s, step);
      if r.creates {
        StepKeepsRelay(next, r, s, step);
      }
      StepKeepsNobody(next, r, s, step);
      forall id ensures GoodAt(r, Advance(next, r, s, step), id) {
        assert GoodAt(r, s, id);
        StepKeepsBooks(next, r, s, step, id);
      }
    }
  }

  // ---------------------------------------------------------------- runs

  ghost function LineRun(next: Deframer, r: Rules, steps: seq<Step>): Line {
    if steps == [] then Quiet else Advance(next, r, LineRun(next, r, steps[..|steps| - 1]), steps[|steps| - 1])
  }

  lemma QuietInv(next: Deframer, r: Rules)
    requires Stable(next)
    ensures Inv(next, r, Quiet)
  {
    NothingThere(next);
    forall id ensures GoodAt(r, Quiet, id) {
    }
  }

  /**
   * The line theorem, for every run: framer, receive buffer and parser hold the fragments in flight in order,
   * and each client's bytes are conserved.
   */
  lemma {:induction false} RunKeepsInv(next: Deframer, r: Rules, steps: seq<Step>)
    requires Stable(next)
    ensures Inv(next, r, LineRun(next, r, steps))
  {
    if steps == [] {
      QuietInv(next, r);
    } else {
      RunKeepsInv(next, r, steps[..|steps| - 1]);
      StepKeepsInv(next, r, LineRun(next, r, steps[..|steps| - 1]), steps[|steps| - 1]);
    }
  }

  // ---------------------------------------------------------------- when conservation holds

  /**
   * A live and open buffer that was not opened in mid-stream conserves its client's bytes if and only if none of
   * its data has been refused.
   */
  lemma ConservedExactly(next: Deframer, r: Rules, s: Line, id: Bytes)
    requires Inv(next, r, s)
    requires var a := At(s, id); a.queue.Some? && !a.queue.value.closed && a.gone == None && !a.reopened
    ensures var a := At(s, id);
            a.taken + (a.queue.value.data + Payload(id, s.road.flight)) == a.sent <==> !a.refused
  {
    assert GoodAt(r, s, id);
    var a := At(s, id);
    assert |a.taken + (a.queue.value.data + Payload(id, s.road.flight))| == Accounted(a, Payload(id, s.road.flight));
  }

  // ---------------------------------------------------------------- when a stream reaches the server

  /** The first write draws the number of closes before it, modulo 2^32. */
  lemma FirstSerial(next: Deframer, r: Rules, s: Line, id: Bytes, dat: Bytes)
    requires Inv(next, r, s) && r.creates && At(s, id).opening == None && GoodId(id)
    ensures At(Advance(next, r, s, Send(id, dat)), id).opening == Some(Opening(At(s, id).closes % U32, |dat|))
  {
    assert GoodAt(r, s, id);
  }

  lemma StepKeepsOpening(next: Deframer, r: Rules, s: Line, step: Step, id: Bytes)
    requires At(s, id).opening.Some?
    ensures At(Advance(next, r, s, step), id).opening == At(s, id).opening
  {
  }

  /** It never changes afterwards. */
  lemma {:induction false} OpeningStays(next: Deframer, r: Rules, steps: seq<Step>, i: nat, id: Bytes)
    requires i <= |steps| && At(LineRun(next, r, steps[..i]), id).opening.Some?
    ensures At(LineRun(next, r, steps), id).opening == At(LineRun(next, r, steps[..i]), id).opening
    decreases |steps|
  {
    if i == |steps| {
      assert steps[..i] == steps;
    } else {
      var front := steps[..|steps| - 1];
      assert front[..i] == steps[..i];
      OpeningStays(next, r, front, i, id);
      StepKeepsOpening(next, r, LineRun(next, r, front), steps[|steps| - 1], id);
    }
  }

  /**
   * While no buffer has been opened in mid-stream, a client's bytes reach the server exactly when its first write
   * drew serial 0, that is when the number of closes before it is a multiple of 2^32 (none, that is): otherwise
   * no buffer has been opened for it.
   */
  lemma ReachesExactly(next: Deframer, r: Rules, s: Line, id: Bytes)
    requires Inv(next, r, s) && r.creates && At(s, id).opening.Some? && !At(s, id).reopened
    ensures var a := At(s, id);
            && (a.opening.value.serial == 0 ==> !a.lost)
            && (a.opening.value.serial != 0 ==> !Known(a) && (!a.refused ==> a.taken == []))
            && (Serials(id, s.road.flight) == [] ==> (Known(a) <==> a.opening.value.serial == 0))
  {
    assert GoodAt(r, s, id);
  }

  /** No buffer opens in mid-stream as long as serials do not wrap and, where instances end, the first write fits. */
  lemma TameNeverReopens(next: Deframer, r: Rules, s: Line, id: Bytes)
    requires Inv(next, r, s) && (r.creates ==> Tame(r, At(s, id)))
    ensures !At(s, id).reopened
  {
    assert GoodAt(r, s, id);
  }

  /** So with at most 2^32 serials drawn the first write's serial alone decides. */
  lemma ReachesTamely(next: Deframer, r: Rules, s: Line, id: Bytes)
    requires Inv(next, r, s) && r.creates && At(s, id).opening.Some? && Tame(r, At(s, id))
    ensures var a := At(s, id);
            && (a.opening.value.serial == 0 ==> !a.lost)
            && (a.opening.value.serial != 0 ==> !Known(a))
            && (Serials(id, s.road.flight) == [] ==> (Known(a) <==> a.opening.value.serial == 0))
  {
    TameNeverReopens(next, r, s, id);
    ReachesExactly(next, r, s, id);
  }

  // ---------------------------------------------------------------- when nothing is refused

  /** Bytes a client has written and nobody has read yet. */
  function Outstanding(a: Account): int {
    |a.sent| - |a.taken|
  }

  lemma OnlyArrivalsRefuse(next: Deframer, r: Rules, s: Line, step: Step, id: Bytes)
    requires !step.Deliver?
    ensures At(Advance(next, r, s, step), id).refused == At(s, id).refused
  {
  }

  lemma DeliverRefuses(next: Deframer, r: Rules, s: Line, id: Bytes)
    requires Inv(next, r, s) && GoodAt(r, s, id) && Enabled(next, r, s, Deliver)
    requires !At(s, id).refused && Outstanding(At(s, id)) <= BUF_SIZE_MAX
    ensures !At(Advance(next, r, s, Deliver), id).refused
  {
    DeliverInOrder(next, s.road);
    if Mine(id, s.road.flight[0]) {
      FitsWhenModest(r, s, id);
    }
  }

  lemma StepRefuses(next: Deframer, r: Rules, s: Line, step: Step, id: Bytes)
    requires Inv(next, r, s) && !At(s, id).refused && Outstanding(At(s, id)) <= BUF_SIZE_MAX
    ensures !At(Advance(next, r, s, step), id).refused
  {
    if step.Deliver? {
      if Enabled(next, r, s, step) {
        assert GoodAt(r, s, id);
        DeliverRefuses(next, r, s, id);
      }
    } else {
      OnlyArrivalsRefuse(next, r, s, step, id);
    }
  }

  lemma FitsWhenModest(r: Rules, s: Line, id: Bytes)
    requires s.road.flight != [] && Mine(id, s.road.flight[0]) && GoodAt(r, s, id)
    requires !At(s, id).refused && Outstanding(At(s, id)) <= BUF_SIZE_MAX
    ensures !Arrival(r, At(s, id), s.road.flight[0].serial, s.road.flight[0].data).refused
  {
    RefusedExactly(r, At(s, id), s.road.flight[0].serial, s.road.flight[0].data);
  }

  /** A client that never has more than 8 MiB outstanding loses nothing to a full buffer. */
  lemma {:induction false} NeverRefused(next: Deframer, r: Rules, steps: seq<Step>, id: Bytes)
    requires Stable(next)
    requires forall i :: 0 <= i < |steps| ==> Outstanding(At(LineRun(next, r, steps[..i]), id)) <= BUF_SIZE_MAX
    ensures !At(LineRun(next, r, steps), id).refused
  {
    if steps != [] {
      var front := steps[..|steps| - 1];
      forall i | 0 <= i < |front| ensures front[..i] == steps[..i] {
      }
      NeverRefused(next, r, front, id);
      RunKeepsInv(next, r, front);
      StepRefuses(next, r, LineRun(next, r, front), steps[|steps| - 1], id);
    }
  }

  /** The relay goes on as long as the fragments in flight take at most 8 MiB on the wire. */
  lemma StepStops(next: Deframer, r: Rules, s: Line, step: Step)
    requires Stable(next) && Inv(next, r, s) && !s.road.stopped && |WireAll(s.road.flight)| <= BUF_SIZE_MAX
    ensures !Advance(next, r, s, step).road.stopped
  {
    if step.Pull? && Enabled(next, r, s, step) {
      var o := ReadStep(next, s.road.left, s.road.wire, step.n);
      ReadFromBehind(next, s.road, step.n);
      PushedExactly(s.road.relay, o.got);
    }
  }

  lemma {:induction false} NeverStops(next: Deframer, r: Rules, steps: seq<Step>)
    requires Stable(next)
    requires forall i :: 0 <= i < |steps| ==> |WireAll(LineRun(next, r, steps[..i]).road.flight)| <= BUF_SIZE_MAX
    ensures !LineRun(next, r, steps).road.stopped
  {
    if steps != [] {
      var front := steps[..|steps| - 1];
      forall i | 0 <= i < |front| ensures front[..i] == steps[..i] {
      }
      NeverStops(next, r, front);
      RunKeepsInv(next, r, front);
      StepStops(next, r, LineRun(next, r, front), steps[|steps| - 1]);
    }
  }
}
