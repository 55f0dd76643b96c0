/**
 * Streams over frames: what the leftover-buffer discipline shared by f1.Read and ws.Read delivers, for any
 * way of cutting frames out of a byte string and every interleaving of writes and reads of any size.
 */
module FrameStream {
  import opened Bytes
  import opened Stream

  /** The frame at the head of a byte string, or why there is none and where reading stops. */
  datatype Frame = Frame(payload: Bytes, rest: Bytes) | Stopped(error: Error, rest: Bytes)

  type Deframer = Bytes -> Frame

  /** A complete frame takes up room and reads the same whatever arrives behind it. */
  ghost predicate Stable(next: Deframer) {
    forall s: Bytes, more: Bytes {:trigger next(s + more)} :: next(s).Frame? ==>
      |next(s).payload| + |next(s).rest| < |s| && next(s + more) == Frame(next(s).payload, next(s).rest + more)
  }

  lemma StableAt(next: Deframer, s: Bytes, more: Bytes)
    requires Stable(next) && next(s).Frame?
    ensures |next(s).payload| + |next(s).rest| < |s| && next(s + more) == Frame(next(s).payload, next(s).rest + more)
  {
    var _ := next(s + more);
  }

  /** These bytes are one frame that carries dat. */
  ghost predicate Carries(next: Deframer, frame: Bytes, dat: Bytes) {
    next(frame) == Frame(dat, [])
  }

  /** The payloads of the complete frames at the head of s. */
  function Decoded(next: Deframer, s: Bytes): Bytes
    decreases |s|
  {
    var r := next(s);
    if r.Frame? && |r.rest| < |s| then r.payload + Decoded(next, r.rest) else []
  }

  /** s is a run of complete frames and nothing else. */
  predicate Clean(next: Deframer, s: Bytes)
    decreases |s|
  {
    var r := next(s);
    if r.Frame? && |r.rest| < |s| then Clean(next, r.rest) else s == []
  }

  lemma NothingThere(next: Deframer)
    requires Stable(next)
    ensures !next([]).Frame? && Decoded(next, []) == [] && Clean(next, [])
  {
    if next([]).Frame? {
      StableAt(next, [], []);
    }
  }

  /** Runs of frames decode piece by piece. */
  lemma {:induction false} DecodedAppend(next: Deframer, s: Bytes, t: Bytes)
    requires Stable(next) && Clean(next, s)
    ensures Decoded(next, s + t) == Decoded(next, s) + Decoded(next, t)
    ensures Clean(next, t) ==> Clean(next, s + t)
    decreases |s|
  {
    if next(s).Frame? {
      StableAt(next, s, t);
      StableAt(next, s, []);
      var rest := next(s).rest;
      DecodedAppend(next, rest, t);
      Assoc(next(s).payload, Decoded(next, rest), Decoded(next, t));
    } else {
      assert s == [];
      assert s + t == t;
    }
  }

  lemma OneFrameMore(next: Deframer, s: Bytes, frame: Bytes, dat: Bytes)
    requires Stable(next) && Clean(next, s) && Carries(next, frame, dat)
    ensures Clean(next, s + frame) && Decoded(next, s + frame) == Decoded(next, s) + dat
  {
    NothingThere(next);
    StableAt(next, frame, []);
    assert Decoded(next, frame) == dat + Decoded(next, []);
    assert dat + [] == dat;
    DecodedAppend(next, s, frame);
  }

  // ---------------------------------------------------------------- one Read

  datatype ReadOutcome = ReadOutcome(got: Bytes, left: Bytes, unread: Bytes, error: Option<Error>)

  /** Read with an n-byte buffer: first the leftover of an earlier frame, otherwise one more frame. */
  function ReadStep(next: Deframer, left: Bytes, unread: Bytes, n: nat): ReadOutcome {
    if left != [] then
      var k := Min(n, |left|);
      ReadOutcome(left[..k], left[k..], unread, None)
    else
      match next(unread)
      case Stopped(e, rest) => ReadOutcome([], [], rest, Some(e))
      case Frame(payload, rest) =>
        var k := Min(n, |payload|);
        ReadOutcome(payload[..k], payload[k..], rest, None)
  }

  /** No byte is lost, repeated or reordered by a successful Read, whatever the buffer size. */
  lemma ReadConserves(next: Deframer, left: Bytes, unread: Bytes, n: nat)
    requires Stable(next) && ReadStep(next, left, unread, n).error == None
    ensures var o := ReadStep(next, left, unread, n);
            && |o.got| <= n
            && o.got + (o.left + Decoded(next, o.unread)) == left + Decoded(next, unread)
            && (Clean(next, unread) ==> Clean(next, o.unread))
            && (|o.got| < n ==> o.left == [])
  {
    var o := ReadStep(next, left, unread, n);
    if left == [] {
      StableAt(next, unread, []);
      assert next(unread).payload == o.got + o.left;
      Assoc(o.got, o.left, Decoded(next, o.unread));
      assert left + Decoded(next, unread) == Decoded(next, unread);
    } else {
      assert left == o.got + o.left;
      Assoc(o.got, o.left, Decoded(next, unread));
    }
  }

  /** A successful Read into a buffer with room uses something up. */
  lemma ReadShrinks(next: Deframer, left: Bytes, unread: Bytes, n: nat)
    requires Stable(next) && n > 0 && ReadStep(next, left, unread, n).error == None
    ensures var o := ReadStep(next, left, unread, n);
            |o.left| + |o.unread| < |left| + |unread| && |o.got| <= n
  {
    if left == [] {
      StableAt(next, unread, []);
    }
  }

  /** io.ReadFull over a framer: reads until n bytes have come or a Read fails. */
  function FullOver(next: Deframer, left: Bytes, unread: Bytes, n: nat): ReadOutcome
    decreases |left| + |unread|
  {
    if n == 0 then ReadOutcome([], left, unread, None)
    else
      var o := ReadStep(next, left, unread, n);
      if o.error != None || |o.left| + |o.unread| >= |left| + |unread| || |o.got| > n then o
      else Behind(o.got, FullOver(next, o.left, o.unread, n - |o.got|))
  }

  /** Bytes read earlier, in front of what reading on gives. */
  function Behind(got: Bytes, o: ReadOutcome): ReadOutcome {
    o.(got := got + o.got)
  }

  /** Every successful Read into a buffer with room uses something up. */
  ghost predicate Steady(next: Deframer) {
    forall left: Bytes, unread: Bytes, n: nat {:trigger ReadStep(next, left, unread, n)} ::
      n > 0 && ReadStep(next, left, unread, n).error == None ==> Shrinks(next, left, unread, n)
  }

  predicate Shrinks(next: Deframer, left: Bytes, unread: Bytes, n: nat) {
    var o := ReadStep(next, left, unread, n);
    |o.left| + |o.unread| < |left| + |unread| && |o.got| <= n
  }

  lemma StableIsSteady(next: Deframer)
    requires Stable(next)
    ensures Steady(next)
  {
    forall left: Bytes, unread: Bytes, n: nat | n > 0 && ReadStep(next, left, unread, n).error == None
      ensures Shrinks(next, left, unread, n)
    {
      ReadShrinks(next, left, unread, n);
    }
  }

  /** One round of ReadFull. */
  lemma FirstRound(next: Deframer, left: Bytes, unread: Bytes, n: nat)
    requires Steady(next) && n > 0
    ensures var o, all := ReadStep(next, left, unread, n), FullOver(next, left, unread, n);
            if o.error != None then all.error == o.error
            else
              && |o.got| <= n && |o.left| + |o.unread| < |left| + |unread|
              && all == Behind(o.got, FullOver(next, o.left, o.unread, n - |o.got|))
  {
    if ReadStep(next, left, unread, n).error == None {
      assert Shrinks(next, left, unread, n);
    }
  }

  lemma {:induction false} FullOverLength(next: Deframer, left: Bytes, unread: Bytes, n: nat)
    requires Steady(next) && FullOver(next, left, unread, n).error == None
    ensures |FullOver(next, left, unread, n).got| == n
    decreases |left| + |unread|
  {
    if n > 0 {
      FirstRound(next, left, unread, n);
      var o := ReadStep(next, left, unread, n);
      FullOverLength(next, o.left, o.unread, n - |o.got|);
    }
  }

  lemma OneReadIsEnough(next: Deframer, left: Bytes, unread: Bytes, n: nat)
    requires Stable(next) && n > 0
    requires ReadStep(next, left, unread, n).error == None && |ReadStep(next, left, unread, n).got| == n
    ensures FullOver(next, left, unread, n) == ReadStep(next, left, unread, n)
  {
    ReadShrinks(next, left, unread, n);
    var o := ReadStep(next, left, unread, n);
    assert o.got + [] == o.got;
  }

  // ---------------------------------------------------------------- whole runs

  /** One direction of a connection: frames on their way, the reader's leftover, and the two histories. */
  datatype Link = Link(unread: Bytes, left: Bytes, written: Bytes, got: Bytes)

  const Idle: Link := Link([], [], [], [])

  /** The writer puts one frame that carries dat on the wire, or the reader reads with an n-byte buffer. */
  datatype Event = Write(dat: Bytes, frame: Bytes) | Read(n: nat)

  /** A Read with nothing left over and no complete frame at hand blocks. */
  function Happen(next: Deframer, l: Link, e: Event): Link {
    match e
    case Write(dat, frame) => l.(unread := l.unread + frame, written := l.written + dat)
    case Read(n) =>
      var o := ReadStep(next, l.left, l.unread, n);
      if o.error != None then l else l.(unread := o.unread, left := o.left, got := l.got + o.got)
  }

  function HappenAll(next: Deframer, l: Link, es: seq<Event>): Link {
    if es == [] then l else Happen(next, HappenAll(next, l, es[..|es| - 1]), es[|es| - 1])
  }

  ghost predicate Conserved(next: Deframer, l: Link) {
    Clean(next, l.unread) && l.got + (l.left + Decoded(next, l.unread)) == l.written
  }

  lemma HappenConserves(next: Deframer, l: Link, e: Event)
    requires Stable(next) && Conserved(next, l) && (e.Write? ==> Carries(next, e.frame, e.dat))
    ensures Conserved(next, Happen(next, l, e))
  {
    match e
    case Write(dat, frame) =>
      OneFrameMore(next, l.unread, frame, dat);
      Assoc(l.left, Decoded(next, l.unread), dat);
      Assoc(l.got, l.left + Decoded(next, l.unread), dat);
    case Read(n) =>
      var o := ReadStep(next, l.left, l.unread, n);
      if o.error == None {
        ReadConserves(next, l.left, l.unread, n);
        Assoc(l.got, o.got, o.left + Decoded(next, o.unread));
      }
  }

  /**
   * After any interleaving of writes at one end and reads of any size at the other, the bytes read, then the
   * leftover, then the frames still unread spell exactly what was written.
   */
  lemma {:induction false} StreamConserved(next: Deframer, es: seq<Event>)
    requires Stable(next)
    requires forall i :: 0 <= i < |es| && es[i].Write? ==> Carries(next, es[i].frame, es[i].dat)
    ensures Conserved(next, HappenAll(next, Idle, es))
  {
    if es == [] {
      NothingThere(next);
    } else {
      StreamConserved(next, es[..|es| - 1]);
      HappenConserves(next, HappenAll(next, Idle, es[..|es| - 1]), es[|es| - 1]);
    }
  }

  /** Reading never fails on such a run: a Read either succeeds or blocks, and then everything has been read. */
  lemma BlockedMeansDrained(next: Deframer, l: Link, n: nat)
    requires Stable(next) && Conserved(next, l)
    ensures ReadStep(next, l.left, l.unread, n).error != None <==> l.left == [] && l.unread == []
    ensures ReadStep(next, l.left, l.unread, n).error != None ==> l.got == l.written
  {
    NothingThere(next);
    if l.unread != [] {
      assert next(l.unread).Frame?;
    } else if l.left == [] {
      assert l.got + ([] + []) == l.got;
    }
  }

  /** What the writes among the events have written, */
  function WrittenIn(es: seq<Event>): Bytes {
    if es == [] then [] else
      WrittenIn(es[..|es| - 1]) + if es[|es| - 1].Write? then es[|es| - 1].dat else []
  }

  /** which is what the history of a run has. */
  lemma {:induction false} HistoryIsRight(next: Deframer, es: seq<Event>)
    ensures HappenAll(next, Idle, es).written == WrittenIn(es)
  {
    if es != [] {
      HistoryIsRight(next, es[..|es| - 1]);
      var before := HappenAll(next, Idle, es[..|es| - 1]);
      assert before.written + [] == before.written;
    }
  }

  /** Until everything written has been read, a read with room gets on. */
  lemma ReadGetsOn(next: Deframer, l: Link, n: nat)
    requires Stable(next) && Conserved(next, l)
    ensures n > 0 && l.got != l.written ==>
              var l' := Happen(next, l, Read(n)); |l'.left| + |l'.unread| < |l.left| + |l.unread|
  {
    BlockedMeansDrained(next, l, n);
    if n > 0 && l.got != l.written {
      ReadShrinks(next, l.left, l.unread, n);
    }
  }
}
