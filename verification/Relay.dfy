/** utils/proxy.go: Proxy, two connections joined by two readers, one writer and the main loop. */
module Relay {
  import opened Bytes

  const CHANNEL_SIZE: nat := 8
  const ERROR_SIZE: nat := 4

  /** A goroutine's state: free, holding a chunk, or ended (a writer may end with bytes it could not write). */
  datatype Loop = Free | Holding(chunk: Bytes) | Ended(unwritten: Bytes)

  /** One direction: what was read, the reading loop, the channel, the writing loop, what was written. */
  datatype Flow = Flow(input: Bytes, reader: Loop, channel: seq<Bytes>, writer: Loop, output: Bytes)

  /** The two directions, the errors reported and not yet received, and whether the main loop has returned. */
  datatype Proxy = Proxy(up: Flow, down: Flow, errors: nat, done: bool)

  const Begin: Proxy := Proxy(Flow([], Free, [], Free, []), Flow([], Free, [], Free, []), 0, false)

  /** up: from the local connection to the up-link; down: back. The down writer is the main loop. */
  datatype Way = Up | Down

  datatype Step =
    | Read(way: Way, chunk: Bytes)
    | ReadFails(way: Way)
    | Send(way: Way)
    | Receive(way: Way)
    | Write(way: Way)
    | WriteFails(way: Way, n: nat)
    | ErrorReceived
    | WriterSeesDone

  function Of(p: Proxy, way: Way): Flow {
    if way.Up? then p.up else p.down
  }

  function With(p: Proxy, way: Way, f: Flow): Proxy {
    if way.Up? then p.(up := f) else p.(down := f)
  }

  predicate Enabled(p: Proxy, step: Step) {
    match step
    case Read(way, _) => Of(p, way).reader == Free
    case ReadFails(way) => Of(p, way).reader == Free && p.errors < ERROR_SIZE
    case Send(way) => Of(p, way).reader.Holding? && |Of(p, way).channel| < CHANNEL_SIZE
    case Receive(way) => Of(p, way).writer == Free && Of(p, way).channel != []
    case Write(way) => Of(p, way).writer.Holding?
    case WriteFails(way, n) =>
      Of(p, way).writer.Holding? && n <= |Of(p, way).writer.chunk| && 0 < |Of(p, way).writer.chunk| &&
      (way.Up? ==> p.errors < ERROR_SIZE)
    case ErrorReceived => p.errors > 0 && p.down.writer == Free
    case WriterSeesDone => p.done && p.up.writer == Free
  }

  function Do(p: Proxy, step: Step): Proxy
    requires Enabled(p, step)
  {
    match step
    case Read(way, chunk) =>
      var f := Of(p, way);
      With(p, way, f.(input := f.input + chunk, reader := Holding(chunk)))
    case ReadFails(way) => With(p, way, Of(p, way).(reader := Ended([]))).(errors := p.errors + 1)
    case Send(way) =>
      var f := Of(p, way);
      With(p, way, f.(channel := f.channel + [f.reader.chunk], reader := Free))
    case Receive(way) =>
      var f := Of(p, way);
      With(p, way, f.(writer := Holding(f.channel[0]), channel := f.channel[1..]))
    case Write(way) =>
      // an empty chunk is dropped without a Write call
      var f := Of(p, way);
      With(p, way, f.(output := f.output + f.writer.chunk, writer := Free))
    case WriteFails(way, n) =>
      var f := Of(p, way);
      var f' := f.(output := f.output + f.writer.chunk[..n], writer := Ended(f.writer.chunk[n..]));
      if way.Up? then p.(up := f', errors := p.errors + 1) else p.(down := f', done := true)
    case ErrorReceived => p.(errors := p.errors - 1, down := p.down.(writer := Ended([])), done := true)
    case WriterSeesDone => p.(up := p.up.(writer := Ended([])))
  }

  function Held(l: Loop): Bytes {
    match l
    case Free => []
    case Holding(chunk) => chunk
    case Ended(unwritten) => unwritten
  }

  /** Read is written, then held by the writer, then in the channel, then held by the reader. */
  predicate Conserved(f: Flow) {
    f.input == f.output + (Held(f.writer) + (Concat(f.channel) + Held(f.reader)))
  }

  /** Errors still to be received come from distinct ended loops, so reporting one never blocks. */
  predicate ErrorsBounded(p: Proxy) {
    p.errors <= (if p.up.reader.Ended? then 1 else 0) + (if p.down.reader.Ended? then 1 else 0) +
                (if p.up.writer.Ended? then 1 else 0)
  }

  predicate Inv(p: Proxy) {
    && Conserved(p.up) && Conserved(p.down) && ErrorsBounded(p)
    && |p.up.channel| <= CHANNEL_SIZE && |p.down.channel| <= CHANNEL_SIZE
    && (p.done <==> p.down.writer.Ended?)
    && (p.up.reader.Ended? ==> p.up.reader.unwritten == []) && (p.down.reader.Ended? ==> p.down.reader.unwritten == [])
  }

  lemma ReadConserves(f: Flow, chunk: Bytes)
    requires Conserved(f) && f.reader == Free
    ensures Conserved(f.(input := f.input + chunk, reader := Holding(chunk)))
  {
    assert Concat(f.channel) + [] == Concat(f.channel);
    Assoc(Held(f.writer), Concat(f.channel), chunk);
    Assoc(f.output, Held(f.writer) + Concat(f.channel), chunk);
  }

  lemma SendConserves(f: Flow)
    requires Conserved(f) && f.reader.Holding?
    ensures Conserved(f.(channel := f.channel + [f.reader.chunk], reader := Free))
  {
    ConcatAppend(f.channel, [f.reader.chunk]);
    assert Concat([f.reader.chunk]) == f.reader.chunk;
    var all := Concat(f.channel) + f.reader.chunk;
    assert all + [] == all;
  }

  lemma ReceiveConserves(f: Flow)
    requires Conserved(f) && f.writer == Free && f.channel != []
    ensures Conserved(f.(writer := Holding(f.channel[0]), channel := f.channel[1..]))
  {
    Assoc(f.channel[0], Concat(f.channel[1..]), Held(f.reader));
    assert [] + (Concat(f.channel) + Held(f.reader)) == Concat(f.channel) + Held(f.reader);
  }

  lemma WriteConserves(f: Flow, n: nat)
    requires Conserved(f) && f.writer.Holding? && n <= |f.writer.chunk|
    ensures Conserved(f.(output := f.output + f.writer.chunk[..n], writer := Ended(f.writer.chunk[n..])))
    ensures Conserved(f.(output := f.output + f.writer.chunk, writer := Free))
  {
    var chunk, rest := f.writer.chunk, Concat(f.channel) + Held(f.reader);
    assert chunk == chunk[..n] + chunk[n..];
    Assoc(chunk[..n], chunk[n..], rest);
    Assoc(f.output, chunk[..n], chunk[n..] + rest);
    Assoc(f.output, chunk, rest);
    assert [] + rest == rest;
  }

  lemma StepConserves(p: Proxy, step: Step, way: Way)
    requires Inv(p) && Enabled(p, step)
    ensures Conserved(Of(Do(p, step), way))
  {
    var f := Of(p, way);
    match step
    case Read(w, chunk) => if w == way { ReadConserves(f, chunk); }
    case Send(w) => if w == way { SendConserves(f); }
    case Receive(w) => if w == way { ReceiveConserves(f); }
    case Write(w) => if w == way { WriteConserves(f, 0); }
    case WriteFails(w, n) => if w == way { WriteConserves(f, n); }
    case _ =>
  }

  lemma StepKeepsInv(p: Proxy, step: Step)
    requires Inv(p) && Enabled(p, step)
    ensures Inv(Do(p, step))
  {
    StepConserves(p, step, Up);
    StepConserves(p, step, Down);
  }

  predicate IsRun(states: seq<Proxy>, steps: seq<Step>) {
    |states| == |steps| + 1 && states[0] == Begin &&
    forall i :: 0 <= i < |steps| ==> Enabled(states[i], steps[i]) && states[i + 1] == Do(states[i], steps[i])
  }

  /** In every reachable state of the four loops, however they interleave or stop, no byte is lost or reordered. */
  lemma {:induction false} ProxyConserves(states: seq<Proxy>, steps: seq<Step>, i: nat)
    requires IsRun(states, steps) && i <= |steps|
    ensures Inv(states[i]) && forall way :: Conserved(Of(states[i], way))
  {
    if i > 0 {
      ProxyConserves(states, steps, i - 1);
      assert Enabled(states[i - 1], steps[i - 1]);
      StepKeepsInv(states[i - 1], steps[i - 1]);
    }
  }

  /** What comes out of either side is a prefix of what went into the other. */
  lemma OutputIsPrefix(states: seq<Proxy>, steps: seq<Step>, i: nat, way: Way)
    requires IsRun(states, steps) && i <= |steps|
    ensures Of(states[i], way).output <= Of(states[i], way).input
  {
    ProxyConserves(states, steps, i);
  }

  /** A loop that has an error to report never waits for room: the error channel holds at most three. */
  lemma ErrorsNeverBlock(states: seq<Proxy>, steps: seq<Step>, i: nat, way: Way)
    requires IsRun(states, steps) && i <= |steps|
    ensures Of(states[i], way).reader == Free ==> Enabled(states[i], ReadFails(way))
    ensures Of(states[i], way).writer.Holding? && Of(states[i], way).writer.chunk != [] ==>
              Enabled(states[i], WriteFails(way, 0))
  {
    ProxyConserves(states, steps, i);
  }

  lemma DoneStaysDone(p: Proxy, step: Step)
    requires Inv(p) && Enabled(p, step) && p.done
    ensures Do(p, step).done && Do(p, step).down.output == p.down.output
  {
  }

  /** After the main loop has returned, nothing more is written to the local side. */
  lemma {:induction false} NothingAfterReturn(states: seq<Proxy>, steps: seq<Step>, i: nat, j: nat)
    requires IsRun(states, steps) && i <= j <= |steps| && states[i].done
    ensures states[j].done && states[j].down.output == states[i].down.output
    decreases j
  {
    if i < j {
      NothingAfterReturn(states, steps, i, j - 1);
      ProxyConserves(states, steps, j - 1);
      assert Enabled(states[j - 1], steps[j - 1]);
      DoneStaysDone(states[j - 1], steps[j - 1]);
    }
  }

  // ---------------------------------------------------------------- which loop ends, and when

  /** The main loop returns on a received error and on a failed write to the local side. */
  predicate Returning(step: Step) {
    step.ErrorReceived? || (step.WriteFails? && step.way.Down?)
  }

  predicate UpWriterEnds(step: Step) {
    step.WriterSeesDone? || (step.WriteFails? && step.way.Up?)
  }

  lemma {:induction false} ReturnsExactly(states: seq<Proxy>, steps: seq<Step>, i: nat)
    requires IsRun(states, steps) && i <= |steps|
    ensures states[i].done <==> exists j :: 0 <= j < i && Returning(steps[j])
  {
    if i > 0 {
      ReturnsExactly(states, steps, i - 1);
      ProxyConserves(states, steps, i - 1);
      assert Enabled(states[i - 1], steps[i - 1]) && states[i] == Do(states[i - 1], steps[i - 1]);
      assert states[i].done <==> states[i - 1].done || Returning(steps[i - 1]);
    }
  }

  /** After a received error nothing more is written to the local side. */
  lemma NothingAfterError(states: seq<Proxy>, steps: seq<Step>, i: nat, j: nat)
    requires IsRun(states, steps) && i < j <= |steps| && steps[i] == ErrorReceived
    ensures states[j].done && states[j].down.output == states[i].down.output
  {
    ReturnsExactly(states, steps, i + 1);
    NothingAfterReturn(states, steps, i + 1, j);
    assert Enabled(states[i], steps[i]) && states[i + 1] == Do(states[i], steps[i]);
  }

  /**
   * A reading loop ends exactly when a read has failed, and the up-link's writer when a write to it has failed or
   * it has seen that the main loop returned.
   */
  lemma {:induction false} LoopsEndExactly(states: seq<Proxy>, steps: seq<Step>, i: nat, way: Way)
    requires IsRun(states, steps) && i <= |steps|
    ensures Of(states[i], way).reader.Ended? <==> exists j :: 0 <= j < i && steps[j] == ReadFails(way)
    ensures states[i].up.writer.Ended? <==> exists j :: 0 <= j < i && UpWriterEnds(steps[j])
  {
    if i > 0 {
      var step := steps[i - 1];
      LoopsEndExactly(states, steps, i - 1, way);
      assert Enabled(states[i - 1], step) && states[i] == Do(states[i - 1], step);
      assert Of(states[i], way).reader.Ended? <==> Of(states[i - 1], way).reader.Ended? || step == ReadFails(way);
      assert states[i].up.writer.Ended? <==> states[i - 1].up.writer.Ended? || UpWriterEnds(step);
    }
  }

  function Reports(steps: seq<Step>): nat {
    if steps == [] then 0
    else
      var step := steps[|steps| - 1];
      Reports(steps[..|steps| - 1]) + if step.ReadFails? || (step.WriteFails? && step.way.Up?) then 1 else 0
  }

  function Receipts(steps: seq<Step>): nat {
    if steps == [] then 0
    else Receipts(steps[..|steps| - 1]) + if steps[|steps| - 1].ErrorReceived? then 1 else 0
  }

  /** The errors in the channel are those reported and not received, and the main loop receives at most one. */
  lemma {:induction false} ErrorsExactly(states: seq<Proxy>, steps: seq<Step>, i: nat)
    requires IsRun(states, steps) && i <= |steps|
    ensures states[i].errors + Receipts(steps[..i]) == Reports(steps[..i])
    ensures Receipts(steps[..i]) <= if states[i].done then 1 else 0
  {
    if i > 0 {
      ErrorsExactly(states, steps, i - 1);
      ProxyConserves(states, steps, i - 1);
      assert Enabled(states[i - 1], steps[i - 1]) && states[i] == Do(states[i - 1], steps[i - 1]);
      assert steps[..i][..i - 1] == steps[..i - 1];
    }
  }

  // ---------------------------------------------------------------- what goes in comes out

  function ReadBytes(steps: seq<Step>, way: Way): Bytes {
    if steps == [] then []
    else
      var step := steps[|steps| - 1];
      ReadBytes(steps[..|steps| - 1], way) + if step.Read? && step.way == way then step.chunk else []
  }

  /** The input of a side is what the reads on it have returned. */
  lemma {:induction false} InputIsRead(states: seq<Proxy>, steps: seq<Step>, i: nat, way: Way)
    requires IsRun(states, steps) && i <= |steps|
    ensures Of(states[i], way).input == ReadBytes(steps[..i], way)
  {
    if i > 0 {
      InputIsRead(states, steps, i - 1, way);
      assert Enabled(states[i - 1], steps[i - 1]) && states[i] == Do(states[i - 1], steps[i - 1]);
      assert steps[..i][..i - 1] == steps[..i - 1];
      assert Of(states[i - 1], way).input + [] == Of(states[i - 1], way).input;
    }
  }

  predicate Possible(p: Proxy, steps: seq<Step>)
    decreases |steps|
  {
    steps == [] || (Enabled(p, steps[0]) && Possible(Do(p, steps[0]), steps[1..]))
  }

  function After(p: Proxy, steps: seq<Step>): Proxy
    requires Possible(p, steps)
    decreases |steps|
  {
    if steps == [] then p else After(Do(p, steps[0]), steps[1..])
  }

  /** A held chunk is written, a waiting one received, one just read sent on. */
  function NextStep(f: Flow, way: Way): Step {
    if f.writer.Holding? then Write(way) else if f.channel != [] then Receive(way) else Send(way)
  }

  function Distance(f: Flow): nat {
    (if f.reader.Holding? then 3 else 0) + 2 * |f.channel| + if f.writer.Holding? then 1 else 0
  }

  lemma OneStepOn(p: Proxy, way: Way, step: Step)
    requires Inv(p) && !Of(p, way).writer.Ended? && Distance(Of(p, way)) > 0 && step == NextStep(Of(p, way), way)
    ensures Enabled(p, step) && Inv(Do(p, step))
    ensures var f := Of(Do(p, step), way);
            Distance(f) < Distance(Of(p, way)) && !f.writer.Ended? && f.input == Of(p, way).input
  {
    StepKeepsInv(p, step);
  }

  /** As long as its writer runs, all that has been read on one side can come out on the other. */
  lemma {:induction false} EverythingComesOut(p: Proxy, way: Way) returns (steps: seq<Step>)
    requires Inv(p) && !Of(p, way).writer.Ended?
    ensures Possible(p, steps) && Of(After(p, steps), way).output == Of(p, way).input
    decreases Distance(Of(p, way))
  {
    if Distance(Of(p, way)) == 0 {
      steps := [];
      assert Of(p, way).output + [] == Of(p, way).output;
      assert Held(Of(p, way).reader) == [] && Held(Of(p, way).writer) == [];
    } else {
      var step := NextStep(Of(p, way), way);
      OneStepOn(p, way, step);
      var more := EverythingComesOut(Do(p, step), way);
      steps := [step] + more;
      assert steps[1..] == more;
    }
  }
}
