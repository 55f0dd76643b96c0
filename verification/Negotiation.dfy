/**
 * transport/framer/f1g/f1g.go: f1 framers whose server offers a session key in its first frame. The server
 * switches keys right after sending it, the client when it has read it, and nothing is acknowledged.
 */
module Negotiation {
  import opened Bytes
  import opened Stream
  import opened Encryption
  import opened FrameStream
  import opened Framing
  import opened Framers

  /** Cutting f1 frames under a key. */
  function KeyedBy(aes: BlockCipher, key: Bytes): Deframer {
    Deframing(F1Framer(aes, key))
  }

  /** A read came to this outcome, and when it succeeded this is left over and unread. */
  predicate Gives(o: ReadOutcome, r: Result<Bytes>, left: Bytes, unread: Bytes) {
    && (o.error.Some? <==> r.Err?)
    && (r.Ok? ==> r.value == o.got && left == o.left && unread == o.unread)
  }

  // ---------------------------------------------------------------- the object

  class F1g {
    const server: bool
    const tx: F1
    var eof: bool

    ghost predicate Valid()
      reads tx, tx.left
    {
      tx.Valid()
    }

    constructor (server: bool, tx: F1)
      requires tx.Valid()
      ensures Valid() && this.server == server && this.tx == tx && !eof
    {
      this.server, this.tx, this.eof := server, tx, false;
    }

    /** The server's half: one frame with a nonce and the new key, then the switch. */
    method Offer(nonce: Block, key: Block, pad: Bytes, random: byte, iv: Block)
      requires Valid() && |pad| == PadSize(2 * BLOCK, random)
      modifies this`eof, tx`psk, tx.tx`outgoing
      ensures Valid()
      ensures !ValidKey(old(tx.psk)) ==> eof && tx.psk == old(tx.psk) && tx.tx.outgoing == old(tx.tx.outgoing)
      ensures ValidKey(old(tx.psk)) ==>
                Allowed(old(tx.Format()), nonce + key, Choice(pad, iv, [])) &&
                tx.psk == key && eof == old(eof) &&
                tx.tx.outgoing ==
                  old(tx.tx.outgoing) + [Encode(old(tx.Format()), nonce + key, Choice(pad, iv, []))]
    {
      var size := tx.Write(nonce + key, random, pad, iv);
      if size.Err? {
        eof := true;
        return;
      }
      tx.SetPSK(key);
    }

    /** The client's half: read 32 bytes, keep the second half as the key. A failed read is the end. */
    method Accept()
      requires Valid()
      modifies this`eof, tx`psk, tx.tx`incoming, tx.left, tx.left.data
      ensures Valid()
      ensures var o := FullOver(Deframing(old(tx.Format())), old(tx.left.Contents()), old(tx.tx.Unread()), 2 * BLOCK);
              if o.error != None then eof && tx.psk == old(tx.psk)
              else eof == old(eof) && |o.got| == 2 * BLOCK && tx.psk == o.got[BLOCK..] &&
                   tx.left.Contents() == o.left && tx.tx.Unread() == o.unread
    {
      DeframingIsStable(tx.Format());
      StableIsSteady(Deframing(tx.Format()));
      ghost var left, unread := tx.left.Contents(), tx.tx.Unread();
      var chunk := ReadFull(2 * BLOCK, Deframing(tx.Format()));
      if chunk.Err? {
        eof := true;
        return;
      }
      FullOverLength(Deframing(tx.Format()), left, unread, 2 * BLOCK);
      tx.SetPSK(chunk.value[BLOCK..]);
    }

    /** io.ReadFull over the framer: the first piece, then the rest. */
    method ReadFull(n: nat, ghost next: Deframer) returns (r: Result<Bytes>)
      requires Valid() && Steady(next) && Cuts(next, tx.Format())
      modifies tx.tx`incoming, tx.left, tx.left.data
      ensures Valid() && (fresh(tx.left.data) || tx.left.data == old(tx.left.data))
      ensures Gives(FullOver(next, old(tx.left.Contents()), old(tx.tx.Unread()), n),
                    r, tx.left.Contents(), tx.tx.Unread())
      decreases |tx.left.Contents()| + |tx.tx.Unread()|, 0
    {
      if n == 0 {
        return Ok([]);
      }
      FirstRound(next, tx.left.Contents(), tx.tx.Unread(), n);
      var piece := ReadPiece(n, next);
      if piece.Err? {
        return piece;
      }
      r := ReadRest(piece.value, n - |piece.value|, next);
    }

    /** What follows a first piece. */
    method ReadRest(piece: Bytes, n: nat, ghost next: Deframer) returns (r: Result<Bytes>)
      requires Valid() && Steady(next) && Cuts(next, tx.Format())
      modifies tx.tx`incoming, tx.left, tx.left.data
      ensures Valid() && (fresh(tx.left.data) || tx.left.data == old(tx.left.data))
      ensures Gives(Behind(piece, FullOver(next, old(tx.left.Contents()), old(tx.tx.Unread()), n)),
                    r, tx.left.Contents(), tx.tx.Unread())
      decreases |tx.left.Contents()| + |tx.tx.Unread()|, 1
    {
      var more := ReadFull(n, next);
      r := if more.Err? then more else Ok(piece + more.value);
    }

    /** One Read into the rest of the buffer. */
    method ReadPiece(n: nat, ghost next: Deframer) returns (r: Result<Bytes>)
      requires Valid() && Cuts(next, tx.Format())
      modifies tx.tx`incoming, tx.left, tx.left.data
      ensures Valid() && (fresh(tx.left.data) || tx.left.data == old(tx.left.data))
      ensures var o := ReadStep(next, old(tx.left.Contents()), old(tx.tx.Unread()), n);
              match o.error
              case Some(e) => r == Err(e)
              case None => r == Ok(o.got) && tx.left.Contents() == o.left && tx.tx.Unread() == o.unread
    {
      var chunk := new byte[n];
      assert next(tx.tx.Unread()) == Next(tx.Format(), tx.tx.Unread());
      var k, err := tx.Read(chunk);
      r := if err != None then Err(err.value) else Ok(chunk[..k]);
    }

    /** After a failed key exchange reads and writes report the end; otherwise they are the inner framer's. */
    method Read(buf: array<byte>) returns (n: nat, err: Option<Error>)
      requires Valid() && buf != tx.left.data
      modifies tx.tx`incoming, tx.left, tx.left.data, buf
      ensures Valid()
      ensures eof ==> n == 0 && err == Some(EOF) && tx.tx.incoming == old(tx.tx.incoming) &&
                      tx.left.Contents() == old(tx.left.Contents())
      ensures !eof ==>
                var o := ReadStep(Deframing(tx.Format()), old(tx.left.Contents()), old(tx.tx.Unread()), buf.Length);
                && n == |o.got| && err == o.error && buf[..n] == o.got
                && tx.left.Contents() == o.left && tx.tx.Unread() == o.unread
    {
      if eof {
        return 0, Some(EOF);
      }
      n, err := tx.Read(buf);
    }

    method Write(dat: Bytes, random: byte, pad: Bytes, iv: Block) returns (r: Result<nat>)
      requires |pad| == PadSize(|dat|, random)
      modifies tx.tx`outgoing
      ensures eof ==> r == Err(EOF)
      ensures r.Err? ==> tx.tx.outgoing == old(tx.tx.outgoing)
      ensures r.Ok? <==> !eof && ValidKey(tx.psk)
      ensures r.Ok? ==>
                Allowed(tx.Format(), dat, Choice(pad, iv, [])) &&
                tx.tx.outgoing == old(tx.tx.outgoing) + [Encode(tx.Format(), dat, Choice(pad, iv, []))]
    {
      if eof {
        return Err(EOF);
      }
      r := tx.Write(dat, random, pad, iv);
    }
  }

  // ---------------------------------------------------------------- both parties

  datatype ServerPhase = New | Offered | Ready

  /**
   * Keys in use at both ends, the two directions with their histories, and as history the session key and the
   * bytes of the frame that carried it. The server may be between sending the key and switching to it.
   */
  datatype Party = Party(
    phase: ServerPhase, joined: bool, serverKey: Bytes, clientKey: Bytes, down: Link, up: Link,
    session: Bytes, offer: Bytes)

  datatype Step =
    | Offer(nonce: Block, key: Block, frame: Bytes)
    | Switch
    | Join
    | ServerWrite(dat: Bytes, frame: Bytes)
    | ServerRead(n: nat)
    | ClientWrite(dat: Bytes, frame: Bytes)
    | ClientRead(n: nat)

  function Start(key: Bytes): Party {
    Party(New, false, key, key, Idle, Idle, [], [])
  }

  /** A frame is written under the key its writer has at that moment. */
  ghost predicate Enabled(aes: BlockCipher, s: Party, step: Step) {
    match step
    case Offer(nonce, key, frame) => s.phase == New && Carries(KeyedBy(aes, s.serverKey), frame, nonce + key)
    case Switch => s.phase == Offered
    case Join => !s.joined && ReadStep(KeyedBy(aes, s.clientKey), s.down.left, s.down.unread, 2 * BLOCK).error == None
    case ServerWrite(dat, frame) => s.phase == Ready && Carries(KeyedBy(aes, s.serverKey), frame, dat)
    case ServerRead(_) => s.phase == Ready
    case ClientWrite(dat, frame) => s.joined && Carries(KeyedBy(aes, s.clientKey), frame, dat)
    case ClientRead(_) => s.joined
  }

  /** The client's ReadFull of 32 bytes; what it reads is the key, not part of the application's stream. */
  function Joined(aes: BlockCipher, s: Party): Party {
    var o := FullOver(KeyedBy(aes, s.clientKey), s.down.left, s.down.unread, 2 * BLOCK);
    if o.error != None || |o.got| != 2 * BLOCK then s
    else s.(joined := true, clientKey := o.got[BLOCK..], down := s.down.(left := o.left, unread := o.unread))
  }

  ghost function Do(aes: BlockCipher, s: Party, step: Step): Party {
    if !Enabled(aes, s, step) then s
    else match step
      case Offer(nonce, key, frame) =>
        s.(phase := Offered, session := key, offer := frame, down := s.down.(unread := s.down.unread + frame))
      case Switch => s.(phase := Ready, serverKey := s.session)
      case Join => Joined(aes, s)
      case ServerWrite(dat, frame) => s.(down := Happen(KeyedBy(aes, s.clientKey), s.down, Write(dat, frame)))
      case ServerRead(n) => s.(up := Happen(KeyedBy(aes, s.serverKey), s.up, Read(n)))
      case ClientWrite(dat, frame) => s.(up := Happen(KeyedBy(aes, s.serverKey), s.up, Write(dat, frame)))
      case ClientRead(n) => s.(down := Happen(KeyedBy(aes, s.clientKey), s.down, Read(n)))
  }

  ghost function Run(aes: BlockCipher, key: Bytes, steps: seq<Step>): Party {
    if steps == [] then Start(key) else Do(aes, Run(aes, key, steps[..|steps| - 1]), steps[|steps| - 1])
  }

  /** Until the client has joined, the wire holds the offer and behind it frames under the session key. */
  ghost predicate Waiting(aes: BlockCipher, key: Bytes, s: Party) {
    && s.clientKey == key && s.up == Idle && s.down.left == [] && s.down.got == []
    && if s.phase == New then s.down == Idle && s.serverKey == key
       else
         && (exists nonce: Block :: Carries(KeyedBy(aes, key), s.offer, nonce + s.session))
         && |s.session| == BLOCK
         && s.offer <= s.down.unread
         && Conserved(KeyedBy(aes, s.session), s.down.(unread := s.down.unread[|s.offer|..]))
         && s.serverKey == if s.phase == Ready then s.session else key
  }

  /** Afterwards both directions run under the session key alone. */
  ghost predicate Talking(aes: BlockCipher, key: Bytes, s: Party) {
    && s.phase != New && |s.session| == BLOCK && s.clientKey == s.session
    && s.serverKey == (if s.phase == Ready then s.session else key)
    && Conserved(KeyedBy(aes, s.session), s.down)
    && Conserved(KeyedBy(aes, s.session), s.up)
  }

  ghost predicate Inv(aes: BlockCipher, key: Bytes, s: Party) {
    if s.joined then Talking(aes, key, s) else Waiting(aes, key, s)
  }

  lemma IdleConserved(next: Deframer)
    requires Stable(next)
    ensures Conserved(next, Idle)
  {
    NothingThere(next);
  }

  /** One Read of 32 bytes meets a frame of exactly 32 bytes: nothing is left over and nothing is missing. */
  lemma KeyFrameFits(next: Deframer, offer: Bytes, dat: Bytes, rest: Bytes)
    requires Stable(next) && Carries(next, offer, dat) && |dat| == 2 * BLOCK
    ensures FullOver(next, [], offer + rest, 2 * BLOCK) == ReadOutcome(dat, [], rest, None)
  {
    StableAt(next, offer, rest);
    assert [] + rest == rest && dat[..2 * BLOCK] == dat;
    OneReadIsEnough(next, [], offer + rest, 2 * BLOCK);
  }

  lemma JoinKeepsInv(aes: BlockCipher, key: Bytes, s: Party)
    requires Inv(aes, key, s) && Enabled(aes, s, Join)
    ensures Inv(aes, key, Do(aes, s, Join)) && Do(aes, s, Join).joined && Do(aes, s, Join).down.left == []
  {
    DeframingIsStable(F1Framer(aes, key));
    if s.phase == New {
      NothingThere(KeyedBy(aes, key));
    } else {
      var nonce: Block :| Carries(KeyedBy(aes, key), s.offer, nonce + s.session);
      var rest := s.down.unread[|s.offer|..];
      assert s.down.unread == s.offer + rest;
      KeyFrameFits(KeyedBy(aes, key), s.offer, nonce + s.session, rest);
      assert (nonce + s.session)[BLOCK..] == s.session;
      DeframingIsStable(F1Framer(aes, s.session));
      IdleConserved(KeyedBy(aes, s.session));
    }
  }

  lemma OfferKeepsInv(aes: BlockCipher, key: Bytes, s: Party, step: Step)
    requires step.Offer? && Inv(aes, key, s) && Enabled(aes, s, step)
    ensures Inv(aes, key, Do(aes, s, step))
  {
    var s' := Do(aes, s, step);
    assert s'.down.unread == [] + step.frame == step.frame;
    assert s'.down.unread[|s'.offer|..] == [];
    DeframingIsStable(F1Framer(aes, step.key));
    IdleConserved(KeyedBy(aes, step.key));
    assert Carries(KeyedBy(aes, key), s'.offer, step.nonce + s'.session);
  }

  /** More frames behind the offer. */
  lemma BehindOffer(next: Deframer, offer: Bytes, down: Link, dat: Bytes, frame: Bytes)
    requires Stable(next) && Carries(next, frame, dat) && offer <= down.unread
    requires Conserved(next, down.(unread := down.unread[|offer|..]))
    ensures var down' := Happen(next, down, Write(dat, frame));
            offer <= down'.unread && Conserved(next, down'.(unread := down'.unread[|offer|..]))
  {
    var rest := down.(unread := down.unread[|offer|..]);
    HappenConserves(next, rest, Write(dat, frame));
    assert (down.unread + frame)[|offer|..] == down.unread[|offer|..] + frame;
  }

  lemma ServerWriteKeepsInv(aes: BlockCipher, key: Bytes, s: Party, step: Step)
    requires step.ServerWrite? && Inv(aes, key, s) && Enabled(aes, s, step)
    ensures Inv(aes, key, Do(aes, s, step))
  {
    DeframingIsStable(F1Framer(aes, s.session));
    var next := KeyedBy(aes, s.session);
    if s.joined {
      HappenConserves(next, s.down, Write(step.dat, step.frame));
    } else {
      BehindOffer(next, s.offer, s.down, step.dat, step.frame);
    }
  }

  lemma TalkKeepsInv(aes: BlockCipher, key: Bytes, s: Party, step: Step)
    requires step.ServerRead? || step.ClientWrite? || step.ClientRead?
    requires Inv(aes, key, s) && Enabled(aes, s, step)
    ensures Inv(aes, key, Do(aes, s, step))
  {
    DeframingIsStable(F1Framer(aes, s.session));
    var next := KeyedBy(aes, s.session);
    match step
    case ClientWrite(dat, frame) => HappenConserves(next, s.up, Write(dat, frame));
    case ClientRead(n) => HappenConserves(next, s.down, Read(n));
    case ServerRead(n) =>
      if s.joined {
        HappenConserves(next, s.up, Read(n));
      } else {
        NothingThere(next);
      }
  }

  lemma StepKeepsInv(aes: BlockCipher, key: Bytes, s: Party, step: Step)
    requires Inv(aes, key, s)
    ensures Inv(aes, key, Do(aes, s, step))
  {
    if Enabled(aes, s, step) {
      match step
      case Offer(_, _, _) => OfferKeepsInv(aes, key, s, step);
      case Switch =>
      case Join => JoinKeepsInv(aes, key, s);
      case ServerWrite(_, _) => ServerWriteKeepsInv(aes, key, s, step);
      case _ => TalkKeepsInv(aes, key, s, step);
    }
  }

  /**
   * The key-switch theorem: in every interleaving the client reads the whole offer and nothing else under the
   * old key, every later frame is read under the key it was written with, and both directions conserve their
   * streams.
   */
  lemma {:induction false} KeySwitch(aes: BlockCipher, key: Bytes, steps: seq<Step>)
    ensures Inv(aes, key, Run(aes, key, steps))
  {
    if steps != [] {
      KeySwitch(aes, key, steps[..|steps| - 1]);
      StepKeepsInv(aes, key, Run(aes, key, steps[..|steps| - 1]), steps[|steps| - 1]);
    }
  }

  /** What either end has read is a prefix of what the other has written. */
  lemma BothWaysInOrder(aes: BlockCipher, key: Bytes, steps: seq<Step>)
    ensures var s := Run(aes, key, steps); s.down.got <= s.down.written && s.up.got <= s.up.written
  {
    KeySwitch(aes, key, steps);
  }

  /** An offer is made by a new server only, and it is what the client reads. */
  lemma OfferIsMade(aes: BlockCipher, s: Party, nonce: Block, key: Block, frame: Bytes)
    requires Carries(KeyedBy(aes, s.serverKey), frame, nonce + key)
    ensures var s' := Do(aes, s, Offer(nonce, key, frame));
            if s.phase == New then s'.phase == Offered && s'.session == key && s'.down.unread == s.down.unread + frame
            else s' == s
  {
  }

  /** From every reachable state in which the offer has been made, two steps bring both ends to the session key. */
  lemma NegotiationCompletes(aes: BlockCipher, key: Bytes, steps: seq<Step>)
    requires Run(aes, key, steps).phase != New
    ensures var s := Run(aes, key, steps);
            var s' := Do(aes, Do(aes, s, Switch), Join);
            && s'.phase == Ready && s'.joined && s'.serverKey == s.session && s'.clientKey == s.session
  {
    var s := Run(aes, key, steps);
    KeySwitch(aes, key, steps);
    StepKeepsInv(aes, key, s, Switch);
    var s1 := Do(aes, s, Switch);
    if !s1.joined {
      OfferIsThere(aes, key, s1);
      JoinKeepsInv(aes, key, s1);
    }
  }

  lemma OfferIsThere(aes: BlockCipher, key: Bytes, s: Party)
    requires Inv(aes, key, s) && s.phase != New && !s.joined
    ensures Enabled(aes, s, Join) && Do(aes, s, Join).phase == s.phase
  {
    var nonce: Block :| Carries(KeyedBy(aes, key), s.offer, nonce + s.session);
    var rest := s.down.unread[|s.offer|..];
    DeframingIsStable(F1Framer(aes, key));
    assert s.down.unread == s.offer + rest;
    StableAt(KeyedBy(aes, key), s.offer, rest);
  }

  /** Once both have the key, what either writes joins its direction and what the other reads leaves it. */
  lemma TrafficGoes(aes: BlockCipher, key: Bytes, s: Party, step: Step)
    requires Inv(aes, key, s) && s.joined && s.phase == Ready && Enabled(aes, s, step)
    ensures step.ServerWrite? ==> Do(aes, s, step).down.written == s.down.written + step.dat
    ensures step.ClientWrite? ==> Do(aes, s, step).up.written == s.up.written + step.dat
    ensures step.ClientRead? && step.n > 0 && s.down.got != s.down.written ==>
              |Do(aes, s, step).down.left| + |Do(aes, s, step).down.unread| < |s.down.left| + |s.down.unread|
    ensures step.ServerRead? && step.n > 0 && s.up.got != s.up.written ==>
              |Do(aes, s, step).up.left| + |Do(aes, s, step).up.unread| < |s.up.left| + |s.up.unread|
  {
    var next := KeyedBy(aes, s.session);
    DeframingIsStable(F1Framer(aes, s.session));
    match step
    case ClientRead(n) => ReadGetsOn(next, s.down, n);
    case ServerRead(n) => ReadGetsOn(next, s.up, n);
    case _ =>
  }
}
