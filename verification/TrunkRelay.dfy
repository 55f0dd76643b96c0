/**
 * transport/h1/client.go: RelayTraffic, which moves what the framer delivers into the trunk client's receive
 * buffer. Unlike an instance, which drops the buffer's error, it stops at the first refused write.
 */
module TrunkRelay {
  import opened Bytes
  import opened Stream
  import opened Encryption
  import opened FrameStream
  import opened Framing
  import opened Framers
  import opened ReceiveBuffer
  import opened Packets
  import opened Line
  import opened Books

  const ToClient: Rules := Rules(false, true)

  /** The part of the road that the relay knows. */
  function Before(left: Bytes, wire: Bytes, relay: Queue): Road {
    Quiet.road.(left := left, wire := wire, relay := relay)
  }

  /** One round of the reading goroutine, over either framer; it ends with any error. */
  method RelayIn(tx: Tx, bufRead: ReadWriteBuffer) returns (stop: bool)
    requires tx.Left().Valid() && bufRead.Valid() && tx.Left().data != bufRead.buf
    modifies tx.Conn()`incoming, tx.Left(), tx.Left().data, bufRead`buf, bufRead`bufLen, bufRead.buf
    ensures tx.Left().Valid() && bufRead.Valid() && tx.Left().data != bufRead.buf
    ensures var next, left, wire := Deframing(old(tx.Format())), old(tx.Left().Contents()), old(tx.Conn().Unread());
            var o, d := ReadStep(next, left, wire, DEFAULT_BUFFER_SIZE),
                        Pulled(next, ToClient, Before(left, wire, old(bufRead.View())), DEFAULT_BUFFER_SIZE);
            && tx.Left().Contents() == o.left && tx.Conn().Unread() == o.unread
            && (o.error != None ==> stop && bufRead.View() == old(bufRead.View()))
            && (o.error == None ==> d == Before(o.left, o.unread, bufRead.View()).(stopped := stop))
  {
    var buf := new byte[DEFAULT_BUFFER_SIZE];
    var size, err := tx.Read(buf);
    if err != None {
      return true;
    }
    var r := bufRead.Write(buf[..size]);
    stop := r.Err?;
  }

  /** One chunk of the main loop: an empty one is skipped. The random choices come in as arguments. */
  method RelayOut(tx: Tx, chunk: Bytes, random: byte, pad: Bytes, iv: Block, maskKey: Bytes) returns (stop: bool)
    requires |pad| == PadSize(|chunk|, random) && |maskKey| == 4
    modifies tx.Conn()`outgoing
    ensures stop == (chunk != [] && !ValidKey(tx.Format().key))
    ensures chunk == [] || stop ==> tx.Conn().outgoing == old(tx.Conn().outgoing)
    ensures chunk != [] && !stop ==>
              Allowed(tx.Format(), chunk, Choice(pad, iv, maskKey)) &&
              tx.Conn().outgoing == old(tx.Conn().outgoing) + [Encode(tx.Format(), chunk, Choice(pad, iv, maskKey))]
  {
    stop := false;
    if |chunk| > 0 {
      var r := tx.Write(chunk, random, pad, iv, maskKey);
      stop := r.Err?;
    }
  }

  // ---------------------------------------------------------------- whole runs

  /**
   * In every run of the line the relay belongs to, the parser and the receive buffer have a front of what is in
   * flight, and until a refused write stops the relay no byte is missing: parsed, buffered, left over, still framed
   * and still to be framed make up all.
   */
  lemma RelayConserves(next: Deframer, r: Rules, steps: seq<Step>)
    requires Stable(next) && !r.creates
    ensures var d := LineRun(next, r, steps).road;
            && d.acc + d.relay.data <= WireAll(d.flight)
            && (!d.stopped ==>
                  d.acc + (d.relay.data + (d.left + (Decoded(next, d.wire) + Unframed(d)))) == WireAll(d.flight))
  {
    RunKeepsInv(next, r, steps);
    ParserHasFront(next, LineRun(next, r, steps).road);
  }
}
