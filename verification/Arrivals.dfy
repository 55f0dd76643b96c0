/**
 * What the carriers of a trunk can still bring to the other side, and when: packets get stuck only behind the trunk
 * client's relay, whose loop serves both directions.
 */
module Arrivals {
  import opened Bytes
  import opened Stream
  import opened FrameStream
  import opened Encryption
  import opened Framing
  import opened Packets
  import opened ReceiveBuffer
  import opened Line
  import opened Books
  import opened Draining
  import opened Tunnel
  import Messages

  // ---------------------------------------------------------------- carriers of a trunk

  predicate CarrierAction(a: Action) {
    a.UpCarry? || a.DownCarry? || a.UpDeliver? || a.DownDeliver?
  }

  predicate Carriers(more: seq<Action>) {
    forall i :: 0 <= i < |more| ==> CarrierAction(more[i])
  }

  /** Nobody closes the trunk client. */
  predicate Unclosed(actions: seq<Action>) {
    TrunkClose !in actions
  }

  lemma CarriersDoNotClose(more: seq<Action>)
    requires Carriers(more)
    ensures Unclosed(more)
  {
  }

  ghost function Continue(w: Setup, t: Trunk, more: seq<Action>): Trunk
    decreases |more|
  {
    if more == [] then t else Continue(w, Act(w, t, more[0]), more[1..])
  }

  /** A run goes on from where it is. */
  lemma {:induction false} RunContinues(w: Setup, actions: seq<Action>, more: seq<Action>)
    ensures Run(w, actions + more) == Continue(w, Run(w, actions), more)
    decreases |more|
  {
    if more == [] {
      assert actions + more == actions;
    } else {
      var longer := actions + [more[0]];
      assert longer[..|longer| - 1] == actions && longer + more[1..] == actions + more;
      RunContinues(w, longer, more[1..]);
    }
  }

  lemma RunOneMore(w: Setup, actions: seq<Action>, a: Action)
    ensures Run(w, actions + [a]) == Act(w, Run(w, actions), a)
  {
    var longer := actions + [a];
    assert longer[..|longer| - 1] == actions;
  }

  function UpAction(step: Step): Action {
    if step.Deliver? then UpDeliver else UpCarry(step)
  }

  function DownAction(step: Step): Action {
    if step.Deliver? then DownDeliver else DownCarry(step)
  }

  function UpActions(steps: seq<Step>): (more: seq<Action>)
    ensures Carriers(more)
  {
    if steps == [] then [] else [UpAction(steps[0])] + UpActions(steps[1..])
  }

  function DownActions(steps: seq<Step>): (more: seq<Action>)
    ensures Carriers(more)
  {
    if steps == [] then [] else [DownAction(steps[0])] + DownActions(steps[1..])
  }

  lemma {:induction false} UpGo(w: Setup, t: Trunk, steps: seq<Step>)
    requires forall i :: 0 <= i < |steps| ==> Carrier(steps[i]) && (t.over ==> !FramingStep(steps[i]))
    ensures Continue(w, t, UpActions(steps)).up == Go(w.atServer, UpRules(w), t.up, steps)
    decreases |steps|
  {
    if steps != [] {
      var more := UpActions(steps);
      assert more[0] == UpAction(steps[0]) && more[1..] == UpActions(steps[1..]);
      UpGo(w, Act(w, t, more[0]), steps[1..]);
    }
  }

  lemma {:induction false} DownGo(w: Setup, t: Trunk, steps: seq<Step>)
    requires forall i :: 0 <= i < |steps| ==> Carrier(steps[i]) && (t.over ==> !steps[i].Fetch?)
    ensures Continue(w, t, DownActions(steps)) == t.(down := Go(w.atClient, DownRules(w), t.down, steps))
    decreases |steps|
  {
    if steps != [] {
      var more := DownActions(steps);
      assert more[0] == DownAction(steps[0]) && more[1..] == DownActions(steps[1..]);
      DownGo(w, Act(w, t, more[0]), steps[1..]);
    }
  }

  // ---------------------------------------------------------------- a trunk run on each of its lines

  lemma {:induction false} RunThenGo(next: Deframer, r: Rules, steps: seq<Step>, more: seq<Step>)
    ensures LineRun(next, r, steps + more) == Go(next, r, LineRun(next, r, steps), more)
    decreases |more|
  {
    if more == [] {
      assert steps + more == steps;
    } else {
      var longer := steps + [more[0]];
      assert longer[..|longer| - 1] == steps && longer + more[1..] == steps + more;
      RunThenGo(next, r, longer, more[1..]);
    }
  }

  lemma OneStep(next: Deframer, r: Rules, s: Line, a: Step)
    ensures Go(next, r, s, [a]) == Advance(next, r, s, a)
  {
    assert [a][1..] == [];
  }

  lemma TwoSteps(next: Deframer, r: Rules, s: Line, a: Step, b: Step)
    ensures Go(next, r, s, [a, b]) == Advance(next, r, Advance(next, r, s, a), b)
  {
    assert [a, b][1..] == [b];
    OneStep(next, r, Advance(next, r, s, a), b);
  }

  /** What an action does to the line towards the server, and to the other one. */
  function UpSteps(t: Trunk, a: Action): seq<Step> {
    match a
    case ClientWrite(id, dat) => if Known(At(t.down, id)) && !t.over then [Send(id, dat)] else []
    case ClientClose(id) => if Known(At(t.down, id)) && !t.over then [Eos(id)] else []
    case ClientPing => if t.over then [] else [Control(OP_PING)]
    case InstanceRead(id, n, late) => [Take(id, n, late)]
    case InstanceClose(id, late) => [CloseBuffer(id, late)]
    case InstanceEnd(id, _) => if At(t.up, id).queue.Some? then [Retire(id)] else []
    case UpCarry(step) => if Carrying(step) && !(t.over && FramingStep(step)) then [step] else []
    case UpDeliver => [Deliver]
    case _ => []
  }

  function DownSteps(t: Trunk, a: Action): seq<Step> {
    match a
    case ClientOpen(id) => [Register(id)]
    case ClientRead(id, n, late) => [Take(id, n, late)]
    case ClientClose(id) => if Known(At(t.down, id)) then [CloseBuffer(id, false), Retire(id)] else []
    case InstanceWrite(id, dat) => if Known(At(t.up, id)) then [Send(id, dat)] else []
    case InstanceEnd(id, byServer) => if At(t.up, id).queue.Some? && byServer then [Eos(id)] else []
    case DownCarry(step) => if Carrying(step) && !(t.over && step.Fetch?) then [step] else []
    case UpDeliver =>
      if ReadAny(t.up.road.acc).Got? && ReadAny(t.up.road.acc).p.op == OP_PING then [Control(OP_PONG)] else []
    case DownDeliver => [Deliver]
    case _ => []
  }

  lemma ActUp(w: Setup, t: Trunk, a: Action)
    ensures Act(w, t, a).up == Go(w.atServer, UpRules(w), t.up, UpSteps(t, a))
  {
    if UpSteps(t, a) != [] {
      OneStep(w.atServer, UpRules(w), t.up, UpSteps(t, a)[0]);
    }
  }

  lemma ActDown(w: Setup, t: Trunk, a: Action)
    ensures Act(w, t, a).down == Go(w.atClient, DownRules(w), t.down, DownSteps(t, a))
  {
    if a.ClientClose? {
      TwoSteps(w.atClient, DownRules(w), t.down, CloseBuffer(a.id, false), Retire(a.id));
    } else if DownSteps(t, a) != [] {
      OneStep(w.atClient, DownRules(w), t.down, DownSteps(t, a)[0]);
    }
  }

  /** Each line of a trunk run is a run of that line, so what holds of all runs of a line holds on a trunk. */
  lemma {:induction false} LinesOfTrunk(w: Setup, actions: seq<Action>) returns (us: seq<Step>, ds: seq<Step>)
    ensures Run(w, actions).up == LineRun(w.atServer, UpRules(w), us)
    ensures Run(w, actions).down == LineRun(w.atClient, DownRules(w), ds)
  {
    if actions == [] {
      us, ds := [], [];
    } else {
      var t, a := Run(w, actions[..|actions| - 1]), actions[|actions| - 1];
      us, ds := LinesOfTrunk(w, actions[..|actions| - 1]);
      ActUp(w, t, a);
      ActDown(w, t, a);
      RunThenGo(w.atServer, UpRules(w), us, UpSteps(t, a));
      RunThenGo(w.atClient, DownRules(w), ds, DownSteps(t, a));
      us, ds := us + UpSteps(t, a), ds + DownSteps(t, a);
    }
  }

  // ---------------------------------------------------------------- frames for every piece

  /** For each piece some padding, IV and mask. */
  function Simplest(f: Framer): Choice {
    Choice([0, 0], Zeros(BLOCK), [0, 0, 0, 0])
  }

  function SomeFrame(f: Framer): Bytes -> Bytes {
    d => if Allowed(f, d, Simplest(f)) then Encode(f, d, Simplest(f)) else []
  }

  lemma FramesExist(f: Framer)
    requires ValidKey(f.key)
    ensures Frames(Deframing(Peer(f)), SomeFrame(f))
  {
    forall d: Bytes | |d| <= MAX_PACKET_SIZE ensures Carries(Deframing(Peer(f)), SomeFrame(f)(d), d) {
      EncodeCarries(f, d, Simplest(f));
    }
  }

  // ---------------------------------------------------------------- towards the server

  /** The relay loop is there to frame what has not been framed. */
  predicate UpCanFinish(t: Trunk) {
    t.over ==> Unframed(t.up.road) == []
  }

  /** Towards the client, a stopped relay lets nothing more in, and one that has returned nothing more out. */
  predicate DownCanFinish(t: Trunk) {
    CanFinish(t.down.road) && (t.over ==> HasBeenRead(t.down.road))
  }

  /** Without the relay loop, what has not been framed stays where it is. */
  lemma {:induction false} UnframedForGood(w: Setup, t: Trunk, more: seq<Action>)
    requires Sound(w) && TrunkInv(w, t) && t.over && Carriers(more)
    ensures var t' := Continue(w, t, more);
            TrunkInv(w, t') && t'.over && Unframed(t'.up.road) == Unframed(t.up.road)
    decreases |more|
  {
    if more != [] {
      ActKeeps(w, t, more[0]);
      UnframedAsBefore(w, t, more[0]);
      UnframedForGood(w, Act(w, t, more[0]), more[1..]);
    }
  }

  lemma UnframedAsBefore(w: Setup, t: Trunk, a: Action)
    requires t.over && CarrierAction(a)
    ensures var t' := Act(w, t, a); t'.over && Unframed(t'.up.road) == Unframed(t.up.road)
  {
    match a
    case UpCarry(step) =>
      if Carrying(step) && !FramingStep(step) {
        UnframedStays(w.atServer, UpRules(w), t.up, step);
      }
    case UpDeliver => UnframedStays(w.atServer, UpRules(w), t.up, Deliver);
    case _ =>
  }

  /**
   * Exactly when the carriers can still bring everything to the server: as long as the relay loop has not returned,
   * and afterwards if it had framed everything.
   */
  lemma UpDrainsExactly(f: Framer, exits: bool, actions: seq<Action>)
    requires ValidKey(f.key)
    ensures var w := Over(f, exits);
            (exists more: seq<Action> :: Carriers(more) && Run(w, actions + more).up.road.flight == []) <==>
            UpCanFinish(Run(w, actions))
  {
    var w := Over(f, exits);
    var t := Run(w, actions);
    OverIsSound(f, exits);
    TrunkConserves(w, actions);
    if UpCanFinish(t) {
      FramesExist(f);
      var steps := Drain(w.atServer, UpRules(w), t.up, SomeFrame(f));
      UpGo(w, t, steps);
      RunContinues(w, actions, UpActions(steps));
    } else {
      forall more: seq<Action> | Carriers(more) ensures Run(w, actions + more).up.road.flight != [] {
        UnframedForGood(w, t, more);
        RunContinues(w, actions, more);
        SomethingInFlight(w.atServer, Continue(w, t, more).up.road);
      }
    }
  }

  lemma SomethingInFlight(next: Deframer, d: Road)
    requires InOrder(next, d) && !d.stopped && Unframed(d) != []
    ensures d.flight != []
  {
    if d.flight == [] {
      NothingInFlight(next, d);
    }
  }

  // ---------------------------------------------------------------- towards the client

  /** What the carriers of both directions do to the line towards the client. */
  lemma CarriersDown(w: Setup, t: Trunk, a: Action) returns (step: Step)
    requires CarrierAction(a)
    ensures Carrier(step) || step.Control?
    ensures t.over ==> !step.Fetch? || Act(w, t, a).down == t.down
    ensures Act(w, t, a).down == t.down || Act(w, t, a).down == Advance(w.atClient, DownRules(w), t.down, step)
    ensures Act(w, t, a).over == t.over
  {
    ActDown(w, t, a);
    step := Deliver;
    if DownSteps(t, a) != [] {
      step := DownSteps(t, a)[0];
      OneStep(w.atClient, DownRules(w), t.down, step);
    }
  }

  /** Once the relay has stopped, the carriers of both directions bring nothing closer. */
  lemma {:induction false} MissingForGood(w: Setup, t: Trunk, more: seq<Action>)
    requires Sound(w) && TrunkInv(w, t) && t.down.road.stopped && Carriers(more)
    ensures var t' := Continue(w, t, more); TrunkInv(w, t') && Gap(t'.down.road) >= Gap(t.down.road)
    decreases |more|
  {
    if more != [] {
      var step := CarriersDown(w, t, more[0]);
      CarrierKeepsGap(w.atClient, DownRules(w), t.down, step);
      ActKeeps(w, t, more[0]);
      MissingForGood(w, Act(w, t, more[0]), more[1..]);
    }
  }

  /** Once its loop has returned, nothing more is read from its buffer. */
  lemma {:induction false} UnreadForGood(w: Setup, t: Trunk, more: seq<Action>)
    requires Sound(w) && TrunkInv(w, t) && t.over && Carriers(more)
    ensures var t' := Continue(w, t, more); TrunkInv(w, t') && Unread(t'.down.road) >= Unread(t.down.road)
    decreases |more|
  {
    if more != [] {
      var step := CarriersDown(w, t, more[0]);
      if Act(w, t, more[0]).down != t.down {
        CarrierKeepsUnread(w.atClient, DownRules(w), t.down, step);
      }
      ActKeeps(w, t, more[0]);
      UnreadForGood(w, Act(w, t, more[0]), more[1..]);
    }
  }

  /** What has all come, or all been read, leaves no gap, and the other way round. */
  lemma NoGapExactly(next: Deframer, d: Road)
    requires InOrder(next, d)
    ensures HasCome(d) <==> Gap(d) == 0
    ensures HasBeenRead(d) <==> Unread(d) == 0
    ensures Gap(d) >= 0 && Unread(d) >= 0
  {
    ParserHasFront(next, d);
  }

  /**
   * Exactly when the carriers can still bring everything to the clients: while the relay runs; once its buffer has
   * refused a chunk, if all has come that far; and once the loop has returned, if all has been read from there.
   */
  lemma DownDrainsExactly(f: Framer, exits: bool, actions: seq<Action>)
    requires ValidKey(f.key)
    ensures var w := Over(f, exits);
            (exists more: seq<Action> :: Carriers(more) && Run(w, actions + more).down.road.flight == []) <==>
            DownCanFinish(Run(w, actions))
  {
    var w := Over(f, exits);
    var t := Run(w, actions);
    OverIsSound(f, exits);
    TrunkConserves(w, actions);
    if DownCanFinish(t) {
      assert Peer(Peer(f)) == f && Peer(f).key == f.key;
      FramesExist(Peer(f));
      var steps := Drain(w.atClient, DownRules(w), t.down, SomeFrame(Peer(f)));
      DownGo(w, t, steps);
      RunContinues(w, actions, DownActions(steps));
    } else {
      NoGapExactly(w.atClient, t.down.road);
      forall more: seq<Action> | Carriers(more) ensures Run(w, actions + more).down.road.flight != [] {
        if !CanFinish(t.down.road) {
          MissingForGood(w, t, more);
        } else {
          UnreadForGood(w, t, more);
        }
        RunContinues(w, actions, more);
        GapMeansFlight(w.atClient, Continue(w, t, more).down.road);
      }
    }
  }

  lemma GapMeansFlight(next: Deframer, d: Road)
    requires InOrder(next, d)
    ensures Gap(d) > 0 || Unread(d) > 0 ==> d.flight != []
  {
    if d.flight == [] {
      NothingInFlight(next, d);
    }
  }

  // ---------------------------------------------------------------- messages

  /**
   * All messages arrive: from every reachable state in which the relay loop has not returned, or had framed
   * everything, carriers bring all the messages a client has written to its instance, in order.
   */
  lemma AllMessagesArrive(
      f: Framer, exits: bool, actions: seq<Action>, id: Bytes,
      json: Messages.Json, ms: seq<Messages.Message>, randoms: seq<Bytes>)
    returns (more: seq<Action>)
    requires ValidKey(f.key) && Messages.AllSendable(json, ms, randoms)
    requires UpCanFinish(Run(Over(f, exits), actions))
    requires var a := At(Run(Over(f, exits), actions).up, id);
             Healthy(UpRules(Over(f, exits)), a) && a.sent == Messages.EncodeAll(json, ms, randoms)
    ensures Carriers(more)
    ensures var a := At(Run(Over(f, exits), actions + more).up, id);
            a.queue.Some? && Messages.Received(json, a.taken + a.queue.value.data) == ms
  {
    var w := Over(f, exits);
    OverIsSound(f, exits);
    TrunkConserves(w, actions);
    FramesExist(f);
    var t := Run(w, actions);
    var steps := EverythingArrives(w.atServer, UpRules(w), t.up, SomeFrame(f), id);
    more := UpActions(steps);
    UpGo(w, t, steps);
    RunContinues(w, actions, more);
    Messages.ReceivedPrefix(json, ms, randoms, At(t.up, id).sent);
  }

  /** And all a live instance has written reaches its client, if the relay can still let everything through. */
  lemma AllRepliesArrive(
      f: Framer, exits: bool, actions: seq<Action>, id: Bytes,
      json: Messages.Json, ms: seq<Messages.Message>, randoms: seq<Bytes>)
    returns (more: seq<Action>)
    requires ValidKey(f.key) && Messages.AllSendable(json, ms, randoms)
    requires DownCanFinish(Run(Over(f, exits), actions))
    requires var a := At(Run(Over(f, exits), actions).down, id);
             Healthy(DownRules(Over(f, exits)), a) && a.sent == Messages.EncodeAll(json, ms, randoms)
    ensures Carriers(more)
    ensures var a := At(Run(Over(f, exits), actions + more).down, id);
            a.queue.Some? && Messages.Received(json, a.taken + a.queue.value.data) == ms
  {
    var w := Over(f, exits);
    OverIsSound(f, exits);
    TrunkConserves(w, actions);
    assert Peer(Peer(f)) == f && Peer(f).key == f.key;
    FramesExist(Peer(f));
    var t := Run(w, actions);
    var steps := EverythingArrives(w.atClient, DownRules(w), t.down, SomeFrame(Peer(f)), id);
    more := DownActions(steps);
    DownGo(w, t, steps);
    RunContinues(w, actions, more);
    Messages.ReceivedPrefix(json, ms, randoms, At(t.down, id).sent);
  }

  // ---------------------------------------------------------------- while the relay goes on

  lemma OnlyPullsStop(next: Deframer, r: Rules, s: Line, step: Step)
    requires !step.Pull?
    ensures Advance(next, r, s, step).road.stopped == s.road.stopped
  {
  }

  lemma CloseDoesNotStop(w: Setup, t: Trunk, id: Bytes)
    ensures Closed(w, t, id).down.road.stopped == t.down.road.stopped && Closed(w, t, id).over == t.over
  {
    OnlyPullsStop(w.atClient, DownRules(w), t.down, CloseBuffer(id, false));
    OnlyPullsStop(w.atClient, DownRules(w), Down(w, t, CloseBuffer(id, false)).down, Retire(id));
  }

  lemma ActStops(w: Setup, t: Trunk, a: Action)
    requires Sound(w) && TrunkInv(w, t) && !t.down.road.stopped && !t.over && !a.TrunkClose?
    requires |WireAll(t.down.road.flight)| <= BUF_SIZE_MAX
    ensures !Act(w, t, a).down.road.stopped && !Act(w, t, a).over
  {
    ActDown(w, t, a);
    if a.ClientClose? {
      CloseDoesNotStop(w, t, a.id);
    } else if DownSteps(t, a) != [] {
      OneStep(w.atClient, DownRules(w), t.down, DownSteps(t, a)[0]);
      StepStops(w.atClient, DownRules(w), t.down, DownSteps(t, a)[0]);
    }
  }

  /**
   * The relay goes on, so that everything can still arrive in both directions, as long as the trunk client is not
   * closed and the fragments on their way to the clients never take more than 8 MiB.
   */
  lemma {:induction false} RelayGoesOn(w: Setup, actions: seq<Action>)
    requires Sound(w) && Unclosed(actions)
    requires forall i :: 0 <= i < |actions| ==> |WireAll(Run(w, actions[..i]).down.road.flight)| <= BUF_SIZE_MAX
    ensures var t := Run(w, actions);
            !t.down.road.stopped && !t.over && UpCanFinish(t) && DownCanFinish(t)
  {
    if actions != [] {
      var front := actions[..|actions| - 1];
      forall i | 0 <= i < |front| ensures front[..i] == actions[..i] {
      }
      RelayGoesOn(w, front);
      TrunkConserves(w, front);
      ActStops(w, Run(w, front), actions[|actions| - 1]);
    }
  }
}
