/** utils/buffer.go: the growable byte queue between the goroutine that receives and the one that reads. */
module ReceiveBuffer {
  import opened Bytes
  import opened Stream
  import opened Arrays

  const BUF_SIZE: nat := 1024 * 4
  const BUF_SIZE_MAX: nat := 1024 * 1024 * 8

  /** What the buffer holds, how much it could hold without growing, and whether it has been closed. */
  datatype Queue = Queue(data: Bytes, cap: nat, closed: bool)

  const Fresh: Queue := Queue([], BUF_SIZE, false)

  predicate WellFormed(q: Queue) {
    |q.data| <= q.cap && q.cap % BUF_SIZE == 0
  }

  // ---------------------------------------------------------------- writing

  /** The growth loop from capacity c on; None when a step passes the maximum. */
  function Grow(c: nat, after: nat): Option<nat>
    decreases after - c
  {
    if c >= after then Some(c)
    else if c + BUF_SIZE > BUF_SIZE_MAX then None
    else Grow(c + BUF_SIZE, after)
  }

  /** The loop gives the least grown capacity that suffices, and fails past both its start and the maximum. */
  lemma {:induction false} GrowExactly(c: nat, after: nat)
    requires c % BUF_SIZE == 0
    ensures Grow(c, after) == None <==> after > c && after > BUF_SIZE_MAX
    ensures match Grow(c, after)
            case None => true
            case Some(n) => n % BUF_SIZE == 0 && after <= n && c <= n && (n == c || n < after + BUF_SIZE)
    decreases after - c
  {
    if c < after && c + BUF_SIZE <= BUF_SIZE_MAX {
      GrowExactly(c + BUF_SIZE, after);
    }
  }

  function Pushed(q: Queue, dat: Bytes): (Queue, Result<nat>) {
    var after := |q.data| + |dat|;
    if q.closed then (q, Err(EOF))
    else if after <= q.cap then (q.(data := q.data + dat), Ok(|dat|))
    else match Grow(q.cap + BUF_SIZE, after)
      case None => (q, Err(ShortBuffer))
      case Some(cap) => (Queue(q.data + dat, cap, false), Ok(|dat|))
  }

  /**
   * A write appends all its bytes or changes nothing, keeps the capacity a multiple of 4096, and on an open
   * buffer is refused exactly when the new length exceeds both the capacity plus 4096 and 8 MiB.
   */
  lemma PushedExactly(q: Queue, dat: Bytes)
    requires WellFormed(q)
    ensures var (q', r) := Pushed(q, dat); var after := |q.data| + |dat|;
            && WellFormed(q') && q'.closed == q.closed && q'.cap >= q.cap
            && (r == Ok(|dat|) <==> !q.closed && !(after > q.cap + BUF_SIZE && after > BUF_SIZE_MAX))
            && (r == Ok(|dat|) ==> q'.data == q.data + dat)
            && (r != Ok(|dat|) ==> q' == q && r == Err(if q.closed then EOF else ShortBuffer))
  {
    GrowExactly(q.cap + BUF_SIZE, |q.data| + |dat|);
  }

  /** 8 MiB is not a bound on the capacity: an open buffer takes every write of at most 4096 bytes. */
  lemma SmallWritesAccepted(q: Queue, dat: Bytes)
    requires WellFormed(q) && !q.closed && |dat| <= BUF_SIZE
    ensures Pushed(q, dat).1 == Ok(|dat|)
    ensures |q.data| == q.cap && dat != [] ==> Pushed(q, dat).0.cap == q.cap + BUF_SIZE
  {
    PushedExactly(q, dat);
  }

  /**
   * Exactly how the capacity passes 8 MiB: it stands there and one write needs at most 4096 bytes more. A buffer
   * below never jumps past it, and one beyond goes on in the same way.
   */
  lemma CapacityExactly(q: Queue, dat: Bytes)
    requires WellFormed(q)
    ensures Pushed(q, dat).0.cap > BUF_SIZE_MAX <==>
              q.cap > BUF_SIZE_MAX ||
              (!q.closed && q.cap == BUF_SIZE_MAX && q.cap < |q.data| + |dat| <= q.cap + BUF_SIZE)
  {
    if q.cap < BUF_SIZE_MAX {
      GrowBelow(q.cap + BUF_SIZE, |q.data| + |dat|);
    }
    GrowExactly(q.cap + BUF_SIZE, |q.data| + |dat|);
  }

  lemma {:induction false} GrowBelow(c: nat, after: nat)
    requires c % BUF_SIZE == 0 && c <= BUF_SIZE_MAX
    ensures match Grow(c, after) case None => true case Some(n) => n <= BUF_SIZE_MAX
    decreases after - c
  {
    if c < after && c + BUF_SIZE <= BUF_SIZE_MAX {
      GrowBelow(c + BUF_SIZE, after);
    }
  }

  // ---------------------------------------------------------------- reading

  /** A Read call: some bytes, the end of the stream, or a wait for the next write. */
  datatype Reading = Chunk(got: Bytes) | AtEnd | Waits

  function Popped(q: Queue, n: nat): (Queue, Reading) {
    if n == 0 then (q, Chunk([]))
    else if q.data != [] then
      var k := Min(n, |q.data|);
      (q.(data := q.data[k..]), Chunk(q.data[..k]))
    else if q.closed then (q, AtEnd)
    else (q, Waits)
  }

  /**
   * A read with room gets as many bytes as there are and fit, from the front; the end is reported exactly when a
   * closed buffer is empty, and it waits exactly when an open one is.
   */
  lemma PoppedExactly(q: Queue, n: nat)
    ensures var (q', reading) := Popped(q, n);
            && (reading.Chunk? <==> n == 0 || q.data != [])
            && (reading == AtEnd <==> n > 0 && q.data == [] && q.closed)
            && (reading == Waits <==> n > 0 && q.data == [] && !q.closed)
            && (reading.Chunk? ==> |reading.got| == Min(n, |q.data|) && reading.got + q'.data == q.data)
            && (!reading.Chunk? ==> q'.data == [])
            && q'.cap == q.cap && q'.closed == q.closed
  {
    if n > 0 && q.data != [] {
      var k := Min(n, |q.data|);
      assert q.data == q.data[..k] + q.data[k..];
    } else {
      assert [] + q.data == q.data;
    }
  }

  // ---------------------------------------------------------------- the object

  class ReadWriteBuffer {
    var buf: array<byte>
    var bufLen: nat
    var eof: bool

    ghost predicate Valid()
      reads this
    {
      bufLen <= buf.Length && buf.Length % BUF_SIZE == 0
    }

    ghost function View(): (q: Queue)
      requires Valid()
      reads this, buf
      ensures WellFormed(q)
    {
      Queue(buf[..bufLen], buf.Length, eof)
    }

    constructor ()
      ensures Valid() && fresh(buf) && View() == Fresh
    {
      buf, bufLen, eof := new byte[BUF_SIZE], 0, false;
    }

    /** Closing twice is an error; either way the buffer is closed. */
    method Close() returns (wasClosed: bool)
      requires Valid()
      modifies this`eof
      ensures Valid() && wasClosed == old(eof) && View() == old(View()).(closed := true)
    {
      wasClosed := eof;
      eof := true;
    }

    method ReadFromBuf(out: array<byte>) returns (size: nat)
      requires Valid() && out != buf
      modifies this`bufLen, buf, out
      ensures Valid() && size == Min(out.Length, old(bufLen))
      ensures out[..size] == old(View().data)[..size] && out[size..] == old(out[size..])
      ensures View() == old(View()).(data := old(View()).data[size..])
    {
      size := 0;
      if bufLen > 0 {
        size := MoveFront(buf, bufLen, out);
        bufLen := bufLen - size;
      }
    }

    /** Read, where a wait for data is reported instead of performed. */
    method Read(out: array<byte>) returns (r: Result<nat>, waits: bool)
      requires Valid() && out != buf
      modifies this`bufLen, buf, out
      ensures Valid()
      ensures View() == Popped(old(View()), out.Length).0
      ensures r.Ok? ==> r.value <= out.Length && out[r.value..] == old(out[r.value..])
      ensures r.Err? ==> out[0..] == old(out[0..])
      ensures match Popped(old(View()), out.Length).1
              case Chunk(got) => !waits && r == Ok(|got|) && out[..|got|] == got
              case AtEnd => !waits && r == Err(EOF)
              case Waits => waits && r == Ok(0)
    {
      waits := false;
      if out.Length == 0 {
        return Ok(0), false;
      }
      var size := ReadFromBuf(out);
      if size > 0 {
        return Ok(size), false;
      }
      if eof {
        return Err(EOF), false;
      }
      return Ok(0), true;
    }

    method Write(dat: Bytes) returns (r: Result<nat>)
      requires Valid()
      modifies this`buf, this`bufLen, buf
      ensures Valid() && (fresh(buf) || buf == old(buf))
      ensures (View(), r) == Pushed(old(View()), dat)
    {
      if eof {
        return Err(EOF);
      }
      var sizeAfter := bufLen + |dat|;
      if sizeAfter > buf.Length {
        var capNew := FindCapacity(buf.Length + BUF_SIZE, sizeAfter);
        if capNew == None {
          return Err(ShortBuffer);
        }
        buf := Enlarged(buf, bufLen, capNew.value);
      }
      Put(buf, bufLen, dat);
      bufLen := sizeAfter;
      r := Ok(|dat|);
    }
  }

  /** The loop that looks for a sufficient capacity. */
  method FindCapacity(start: nat, after: nat) returns (r: Option<nat>)
    requires start % BUF_SIZE == 0
    ensures r == Grow(start, after)
    ensures r.Some? ==> r.value >= after && r.value % BUF_SIZE == 0
  {
    var capNew := start;
    while capNew < after
      invariant capNew % BUF_SIZE == 0 && Grow(capNew, after) == Grow(start, after)
    {
      capNew := capNew + BUF_SIZE;
      if capNew > BUF_SIZE_MAX {
        return None;
      }
    }
    r := Some(capNew);
  }

  // ---------------------------------------------------------------- whole runs

  datatype Op = Write(dat: Bytes) | Read(n: nat) | Close

  /** The buffer with the bytes it has accepted and the bytes it has handed out. */
  datatype History = History(q: Queue, accepted: Bytes, handed: Bytes)

  const Start: History := History(Fresh, [], [])

  function Do(h: History, op: Op): History {
    match op
    case Write(dat) =>
      var (q, r) := Pushed(h.q, dat);
      History(q, if r.Ok? then h.accepted + dat else h.accepted, h.handed)
    case Read(n) =>
      var (q, reading) := Popped(h.q, n);
      History(q, h.accepted, if reading.Chunk? then h.handed + reading.got else h.handed)
    case Close => h.(q := h.q.(closed := true))
  }

  function DoAll(h: History, ops: seq<Op>): History {
    if ops == [] then h else Do(DoAll(h, ops[..|ops| - 1]), ops[|ops| - 1])
  }

  predicate Fifo(h: History) {
    WellFormed(h.q) && h.handed + h.q.data == h.accepted
  }

  lemma DoKeepsFifo(h: History, op: Op)
    requires Fifo(h)
    ensures Fifo(Do(h, op))
    ensures h.q.closed ==> Do(h, op).q.closed && Do(h, op).accepted == h.accepted
  {
    match op
    case Write(dat) =>
      PushedExactly(h.q, dat);
      Assoc(h.handed, h.q.data, dat);
    case Read(n) =>
      if n > 0 && h.q.data != [] {
        var k := Min(n, |h.q.data|);
        assert h.q.data == h.q.data[..k] + h.q.data[k..];
        Assoc(h.handed, h.q.data[..k], h.q.data[k..]);
      } else {
        assert h.handed + [] == h.handed;
      }
    case Close =>
  }

  /** Over every run of writes, reads and closes the buffer is a first-in first-out queue of bytes. */
  lemma {:induction false} BufferIsFifo(ops: seq<Op>)
    ensures Fifo(DoAll(Start, ops))
  {
    if ops == [] {
      assert [] + Fresh.data == [];
    } else {
      BufferIsFifo(ops[..|ops| - 1]);
      DoKeepsFifo(DoAll(Start, ops[..|ops| - 1]), ops[|ops| - 1]);
    }
  }

  /** The end is reported only when everything accepted has been handed out, and it stays that way. */
  lemma EndMeansDrained(ops: seq<Op>, n: nat, op: Op)
    requires Popped(DoAll(Start, ops).q, n).1 == AtEnd
    ensures var h := DoAll(Start, ops);
            h.handed == h.accepted && (n > 0 ==> Popped(Do(h, op).q, n).1 == AtEnd)
  {
    BufferIsFifo(ops);
    var h := DoAll(Start, ops);
    assert h.handed + [] == h.handed;
    DoKeepsFifo(h, op);
  }

  /** Over every run, a read with room reports the end exactly when the buffer was closed and has been drained. */
  lemma {:induction false} EndExactly(ops: seq<Op>, n: nat)
    requires n > 0
    ensures var h := DoAll(Start, ops);
            Popped(h.q, n).1 == AtEnd <==> Close in ops && h.handed == h.accepted
  {
    BufferIsFifo(ops);
    ClosedExactly(ops);
    var h := DoAll(Start, ops);
    PoppedExactly(h.q, n);
    assert |h.handed| + |h.q.data| == |h.accepted|;
    assert h.handed + [] == h.handed;
  }

  lemma {:induction false} ClosedExactly(ops: seq<Op>)
    ensures DoAll(Start, ops).q.closed <==> Close in ops
  {
    if ops != [] {
      var front, op := ops[..|ops| - 1], ops[|ops| - 1];
      ClosedExactly(front);
      BufferIsFifo(front);
      DoKeepsFifo(DoAll(Start, front), op);
      if op.Write? {
        PushedExactly(DoAll(Start, front).q, op.dat);
      }
      assert ops == front + [op];
    }
  }

  /** n writes of 4096 bytes. */
  function SmallWrites(n: nat): seq<Op> {
    if n == 0 then [] else SmallWrites(n - 1) + [Write(Zeros(BUF_SIZE))]
  }

  /** For instance, with n writes of 4096 bytes and no read, the buffer grows to 4096 n bytes, whatever n is. */
  lemma {:induction false} SmallWritesFill(n: nat)
    requires n > 0
    ensures var q := DoAll(Start, SmallWrites(n)).q; |q.data| == q.cap == BUF_SIZE * n && !q.closed
  {
    var ops := SmallWrites(n);
    assert ops[..|ops| - 1] == SmallWrites(n - 1) && ops[|ops| - 1] == Write(Zeros(BUF_SIZE));
    if n > 1 {
      SmallWritesFill(n - 1);
      SmallWritesAccepted(DoAll(Start, SmallWrites(n - 1)).q, Zeros(BUF_SIZE));
      PushedExactly(DoAll(Start, SmallWrites(n - 1)).q, Zeros(BUF_SIZE));
    } else {
      assert DoAll(Start, SmallWrites(0)) == Start;
    }
  }
}
