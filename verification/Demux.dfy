/**
 * transport/h1pool/server.go and client.go: the two demultiplexers, one receive buffer per client id, and the
 * serial numbers and end-of-stream packets the client side writes.
 */
module Demux {
  import opened Bytes
  import opened Stream
  import opened Packets
  import opened ReceiveBuffer
  import opened Line

  type Buffers = map<Bytes, ReadWriteBuffer>

  // ---------------------------------------------------------------- buffers by client id

  ghost predicate Filed(b: ReadWriteBuffer, q: Queue)
    reads b, b.buf
  {
    b.Valid() && b.View() == q
  }

  /** The buffers contain what the table says, and no two ids share a buffer or its array. */
  ghost predicate Holds(m: Buffers, t: Table)
    reads m.Values, set b | b in m.Values :: b.buf
  {
    && m.Keys == t.Keys
    && (forall id :: id in m ==> Filed(m[id], t[id]))
    && Apart(m)
  }

  ghost predicate Apart(m: Buffers)
    reads m.Values
  {
    forall a, b :: a in m && b in m && a != b ==> m[a] != m[b] && m[a].buf != m[b].buf
  }

  /** The buffer's error is dropped, as instance.writePacket and dividedClient.writeBuf drop it. */
  method Append(b: ReadWriteBuffer, ghost q: Queue, dat: Bytes)
    requires Filed(b, q)
    modifies b, b.buf
    ensures Filed(b, Pushed(q, dat).0) && (fresh(b.buf) || b.buf == old(b.buf))
  {
    var _ := b.Write(dat);
  }

  /** These objects include the buffers and their arrays. */
  ghost predicate Owned(m: Buffers, repr: set<object>)
    reads m.Values
  {
    forall id :: id in m ==> m[id] in repr && m[id].buf in repr
  }

  /** Writing to one buffer leaves the others alone. */
  method WriteTo(m: Buffers, ghost t: Table, ghost repr: set<object>, id: Bytes, dat: Bytes)
    requires Holds(m, t) && id in m && Owned(m, repr)
    modifies m[id], m[id].buf
    ensures Holds(m, t[id := Pushed(t[id], dat).0])
    ensures Owned(m, repr + {m[id].buf}) && (fresh(m[id].buf) || m[id].buf in repr)
  {
    ghost var others := m.Keys - {id};
    assert forall k :: k in others ==> m[k] != m[id] && m[k].buf != m[id].buf;
    Append(m[id], t[id], dat);
    assert forall k :: k in others ==> Filed(m[k], t[k]) && m[k].buf == old(m[k].buf);
    assert forall k :: k in others ==> m[k].buf != m[id].buf;
    Refiled(m, t, id, Pushed(t[id], dat).0);
  }

  method CloseIn(m: Buffers, ghost t: Table, id: Bytes)
    requires Holds(m, t) && id in m
    modifies m[id]
    ensures Holds(m, t[id := t[id].(closed := true)]) && m[id].eof
    ensures forall k :: k in m ==> m[k].buf == old(m[k].buf)
  {
    var _ := m[id].Close();
    Refiled(m, t, id, t[id].(closed := true));
  }

  lemma Refiled(m: Buffers, t: Table, id: Bytes, q: Queue)
    requires m.Keys == t.Keys && id in m && Filed(m[id], q) && Apart(m)
    requires forall k :: k in m && k != id ==> Filed(m[k], t[k])
    ensures Holds(m, t[id := q])
  {
  }

  /** The concurrent map from client ids to buffers that each side keeps. */
  class Shelf {
    var buffers: Buffers
    ghost var table: Table
    ghost var Repr: set<object>

    ghost predicate Valid()
      reads this, Repr
    {
      && this !in Repr && (forall id :: id in buffers ==> buffers[id] in Repr && buffers[id].buf in Repr)
      && Holds(buffers, table)
    }

    constructor ()
      ensures Valid() && table == map[] && fresh(Repr)
    {
      buffers, table := map[], map[];
      Repr := {};
    }

    method Store(id: Bytes, b: ReadWriteBuffer, ghost q: Queue)
      requires Valid() && Filed(b, q) && b.buf !in Repr
      modifies this
      ensures Valid() && table == old(table)[id := q] && buffers == old(buffers)[id := b]
      ensures Repr == old(Repr) + {b, b.buf}
    {
      buffers, table, Repr := buffers[id := b], table[id := q], Repr + {b, b.buf};
    }

    method Deposit(id: Bytes, dat: Bytes)
      requires Valid() && id in buffers
      modifies this, Repr
      ensures Valid() && table == old(table)[id := Pushed(old(table)[id], dat).0]
      ensures fresh(Repr - old(Repr)) && buffers == old(buffers)
    {
      WriteTo(buffers, table, Repr, id, dat);
      Book(table[id := Pushed(table[id], dat).0], Repr + {buffers[id].buf});
    }

    /** What the buffers contain has been established: the ghost fields follow. */
    ghost method Book(t: Table, repr: set<object>)
      requires Owned(buffers, repr) && this !in repr && Holds(buffers, t)
      modifies this`table, this`Repr
      ensures Valid() && table == t && Repr == repr
    {
      table, Repr := t, repr;
    }

    method CloseOne(id: Bytes)
      requires Valid() && id in buffers
      modifies this`table, buffers[id]
      ensures Valid() && table == old(table)[id := old(table)[id].(closed := true)] && buffers[id].eof
    {
      CloseIn(buffers, table, id);
      table := table[id := table[id].(closed := true)];
    }

    method Delete(id: Bytes)
      requires Valid()
      modifies this`buffers, this`table
      ensures Valid() && table == old(table) - {id} && buffers == old(buffers) - {id}
    {
      buffers, table := buffers - {id}, table - {id};
    }
  }

  // ---------------------------------------------------------------- the server

  /** The instances by client id, and what has been put into the trunk's reply channel. */
  class Server {
    const instances: Shelf
    var replies: seq<Packet>

    constructor ()
      ensures Valid() && instances.table == map[] && replies == [] && fresh(instances.Repr)
    {
      instances := new Shelf();
      replies := [];
    }

    ghost predicate Valid()
      reads this, instances, instances.Repr
    {
      instances.Valid() && this !in instances.Repr
    }

    /** The body of the read loop: one packet off the trunk. */
    method Handle(p: Packet)
      requires Valid()
      modifies this, instances, instances.Repr
      ensures Valid() && instances.table == RouteServer(old(instances.table), p)
      ensures fresh(instances.Repr - old(instances.Repr))
      ensures replies == old(replies) + if p.op == OP_PING then [Packet([], 0, OP_PONG, [])] else []
    {
      var cid := p.clientId;
      if p.op == OP_PING {
        replies := replies + [Packet([], 0, OP_PONG, [])];
      } else if |cid| == 0 {
        // nobody's
      } else if p.op == OP_EOS {
        if cid in instances.buffers {
          instances.CloseOne(cid);
        }
      } else if cid in instances.buffers {
        instances.Deposit(cid, p.data);
      } else if p.serial == 0 {
        Create(cid, p.data);
      }
    }

    /** A new instance with its first data. */
    method Create(cid: Bytes, dat: Bytes)
      requires Valid()
      modifies instances
      ensures Valid() && instances.table == old(instances.table)[cid := Pushed(Fresh, dat).0]
      ensures fresh(instances.Repr - old(instances.Repr))
    {
      var inst := new ReadWriteBuffer();
      var _ := inst.Write(dat);
      instances.Store(cid, inst, Pushed(Fresh, dat).0);
    }

    /** instance.Write: the reply carries serial 0, whatever came before. */
    method Reply(id: Bytes, dat: Bytes)
      modifies this`replies
      ensures replies == old(replies) + [DataPacket(Rules(false, true), NewAccount, id, dat)]
    {
      replies := replies + [Packet(id, 0, OP_DATA, dat)];
    }

    /** The end of an instance's goroutine; when its handler ended it, the client is told. */
    method End(id: Bytes, byServer: bool)
      requires Valid()
      modifies this, instances
      ensures Valid() && instances.table == old(instances.table) - {id}
      ensures replies == old(replies) + if byServer then [Packet(id, 0, OP_EOS, [])] else []
    {
      if byServer {
        replies := replies + [Packet(id, 0, OP_EOS, [])];
      }
      instances.Delete(id);
    }
  }

  /** A reply channel: the trunk's prefix and when its handler started. */
  datatype Channel = Channel(prefix: string, createdAt: int)

  /**
   * The Range loop of getReplyChannel, in whatever order the map is visited: a newest channel among those of
   * the instance's trunk, or none when it has none.
   */
  method GetReplyChannel(channels: map<string, Channel>, prefix: string) returns (r: Option<string>)
    requires forall k :: k in channels ==> channels[k].createdAt > 0
    ensures r == None <==> forall k :: k in channels ==> channels[k].prefix != prefix
    ensures r.Some? ==>
              && r.value in channels && channels[r.value].prefix == prefix
              && forall k :: k in channels && channels[k].prefix == prefix ==>
                   channels[k].createdAt <= channels[r.value].createdAt
  {
    var todo, latest := channels.Keys, 0;
    r := None;
    while todo != {}
      invariant todo <= channels.Keys
      invariant r == None ==> latest == 0
      invariant r.Some? ==> r.value in channels && channels[r.value] == Channel(prefix, latest)
      invariant forall k :: k in channels && k !in todo && channels[k].prefix == prefix ==>
                  r.Some? && channels[k].createdAt <= latest
      decreases todo
    {
      var k :| k in todo;
      todo := todo - {k};
      if channels[k].prefix == prefix && (latest == 0 || latest < channels[k].createdAt) {
        latest, r := channels[k].createdAt, Some(k);
      }
    }
  }

  // ---------------------------------------------------------------- the client

  lemma ReplacedThenRemoved(t: Table, id: Bytes, q: Queue)
    ensures t[id := q] - {id} == t - {id}
  {
  }

  type Serial = x: nat | x < U32

  /** A divided client draws a serial for every write and every close, wherever its buffer is. */
  const ToServer: Rules := Rules(true, true)

  function Draws(a: Account): nat {
    a.writes + a.closes
  }

  /** Each counter stands where the account's writes and closes have brought it. */
  ghost predicate Tallied(serials: map<Bytes, Serial>, accounts: map<Bytes, Account>) {
    serials.Keys == accounts.Keys && forall id :: id in serials ==> serials[id] == Counter(Draws(accounts[id]))
  }

  lemma DrawKeepsTally(serials: map<Bytes, Serial>, accounts: map<Bytes, Account>, id: Bytes, next: Account)
    requires Tallied(serials, accounts) && id in serials && Draws(next) == Draws(accounts[id]) + 1
    ensures Tallied(serials[id := (serials[id] + 1) % U32], accounts[id := next])
    ensures serials[id] == SerialOf(ToServer, accounts[id])
  {
    CounterAfter(Draws(accounts[id]));
  }

  lemma OpenKeepsTally(serials: map<Bytes, Serial>, accounts: map<Bytes, Account>, id: Bytes)
    requires Tallied(serials, accounts)
    ensures Tallied(serials[id := 0], accounts[id := NewAccount])
  {
  }

  /**
   * The buffers of the divided clients by id, their serial counters, and the packets written to the trunk. As
   * history, each client's account at the line towards the server.
   */
  class Client {
    const clients: Shelf
    var serials: map<Bytes, Serial>
    var written: seq<Packet>
    ghost var accounts: map<Bytes, Account>

    constructor ()
      ensures Valid() && clients.table == map[] && written == [] && accounts == map[] && fresh(clients.Repr)
    {
      clients := new Shelf();
      serials, written, accounts := map[], [], map[];
    }

    ghost predicate Valid()
      reads this, clients, clients.Repr
    {
      clients.Valid() && this !in clients.Repr && Counted() && clients.buffers.Keys <= serials.Keys
    }

    ghost predicate Counted()
      reads this
    {
      Tallied(serials, accounts)
    }

    /** getClient */
    method Open(id: Bytes)
      requires Valid()
      modifies this, clients
      ensures Valid() && clients.table == old(clients.table)[id := Fresh]
      ensures accounts == old(accounts)[id := NewAccount] && written == old(written)
      ensures fresh(clients.Repr - old(clients.Repr))
    {
      OpenKeepsTally(serials, accounts, id);
      serials, accounts := serials[id := 0], accounts[id := NewAccount];
      var buffer := new ReadWriteBuffer();
      clients.Store(id, buffer, Fresh);
    }

    /** c.serial.Add(1) - 1: the 32-bit counter wraps around. */
    method NextSerial(id: Bytes, ghost next: Account) returns (serial: Serial)
      requires Counted() && id in serials && Draws(next) == Draws(accounts[id]) + 1
      modifies this`serials, this`accounts
      ensures Counted() && serials.Keys == old(serials).Keys
      ensures serial == SerialOf(ToServer, old(accounts)[id]) && accounts == old(accounts)[id := next]
    {
      DrawKeepsTally(serials, accounts, id, next);
      serial := serials[id];
      serials, accounts := serials[id := (serial + 1) % U32], accounts[id := next];
    }

    /** dividedClient.Write, which still writes after Close: a Send step of the line. */
    method Write(id: Bytes, dat: Bytes)
      requires Counted() && id in serials
      modifies this`serials, this`accounts, this`written
      ensures Counted() && serials.Keys == old(serials).Keys
      ensures written == old(written) + [DataPacket(ToServer, old(accounts)[id], id, dat)]
      ensures accounts == old(accounts)[id := Sending(ToServer, old(accounts)[id], dat)]
    {
      var serial := NextSerial(id, Sending(ToServer, accounts[id], dat));
      written := written + [Packet(id, serial, OP_DATA, dat)];
    }

    /** The packet of a close: an Eos step of the line. */
    method WriteEos(id: Bytes)
      requires Counted() && id in serials
      modifies this`serials, this`accounts, this`written
      ensures Counted() && serials.Keys == old(serials).Keys
      ensures written == old(written) + [EosPacket(ToServer, old(accounts)[id], id)]
      ensures accounts == old(accounts)[id := Drawing(old(accounts)[id])]
    {
      var serial := NextSerial(id, Drawing(accounts[id]));
      written := written + [Packet(id, serial, OP_EOS, [])];
    }

    /** Where the client has left the map, nothing happens to a buffer. */
    method CloseAndForget(id: Bytes)
      requires clients.Valid()
      modifies clients, clients.Repr
      ensures clients.Valid() && clients.table == old(clients.table) - {id} && clients.Repr == old(clients.Repr)
      ensures clients.buffers == old(clients.buffers) - {id}
      ensures id in old(clients.buffers) ==> old(clients.buffers)[id].eof
    {
      if id in clients.buffers {
        ReplacedThenRemoved(clients.table, id, clients.table[id].(closed := true));
        clients.CloseOne(id);
      }
      clients.Delete(id);
    }

    /**
     * dividedClient.Close: the buffer ends, the client is forgotten, and an end-of-stream packet is written. A
     * second Close finds no buffer, but it draws a serial and writes once more.
     */
    method Close(id: Bytes)
      requires Valid() && id in serials
      modifies this, clients, clients.Repr
      ensures Valid() && clients.table == old(clients.table) - {id} && clients.Repr == old(clients.Repr)
      ensures id in old(clients.buffers) ==> old(clients.buffers)[id].eof
      ensures written == old(written) + [EosPacket(ToServer, old(accounts)[id], id)]
      ensures accounts == old(accounts)[id := Drawing(old(accounts)[id])]
    {
      CloseAndForget(id);
      WriteEos(id);
    }

    /** The body of client.start's read loop: one packet off the trunk. */
    method Handle(p: Packet)
      requires Valid()
      modifies this, clients, clients.Repr
      ensures Valid() && clients.table == RouteClient(old(clients.table), p)
      ensures fresh(clients.Repr - old(clients.Repr))
      ensures var id, ends := p.clientId, p.op == OP_EOS && p.clientId in old(clients.table);
              && written == old(written) + (if ends then [EosPacket(ToServer, old(accounts)[id], id)] else [])
              && accounts == if ends then old(accounts)[id := Drawing(old(accounts)[id])] else old(accounts)
    {
      if p.op == OP_DATA {
        if p.clientId in clients.buffers {
          clients.Deposit(p.clientId, p.data);
        }
      } else if p.op == OP_EOS && p.clientId in clients.buffers {
        Close(p.clientId);
      }
    }
  }

  /** The counter of a divided client stands at the serial the line gives its next packet. */
  lemma CounterIsLines(c: Client, id: Bytes, r: Rules)
    requires c.Counted() && id in c.serials && r.creates
    ensures c.serials[id] == SerialOf(r, c.accounts[id])
  {
    CounterAfter(c.accounts[id].writes + c.accounts[id].closes);
  }

  /** After k draws, by writes or closes, a client's counter stands at k modulo 2^32. */
  lemma {:induction false} CounterAfter(k: nat)
    ensures Counter(k) == k % U32
  {
    if k > 0 {
      CounterAfter(k - 1);
      NextModulo(k - 1);
    }
  }

  function Counter(draws: nat): Serial {
    if draws == 0 then 0 else (Counter(draws - 1) + 1) % U32
  }

  lemma NextModulo(k: nat)
    ensures (k % U32 + 1) % U32 == (k + 1) % U32
  {
  }

  // ---------------------------------------------------------------- routing

  /**
   * An end-of-stream packet that names a client ends its instance's buffer, which keeps what it holds, and makes the
   * client side forget its own; without that client it changes nothing.
   */
  lemma EosEndsItsOwn(table: Table, id: Bytes, serial: nat)
    requires id != []
    ensures var p := Packet(id, serial, OP_EOS, []);
            && RouteServer(table, p).Keys == table.Keys
            && (id in table ==> RouteServer(table, p)[id] == table[id].(closed := true))
            && RouteClient(table, p).Keys == table.Keys - {id}
  {
  }

  /** No packet touches another client's buffer. */
  lemma OthersAreLeftAlone(r: Rules, table: Table, p: Packet, other: Bytes)
    requires other != p.clientId
    ensures other in Route(r, table, p) <==> other in table
    ensures other in table ==> Route(r, table, p)[other] == table[other]
  {
  }

  // ---------------------------------------------------------------- what the hypotheses on a run are for

  /**
   * When an instance has gone, a fragment of a write that drew after k others (writes and closes) opens a new
   * buffer, which begins in the middle of the stream, exactly when k is a multiple of 2^32: the first draw and
   * those after a full round.
   */
  lemma LateFragmentReopens(id: Bytes, k: nat, dat: Bytes, table: Table, f: Packet)
    requires id != [] && id !in table && f in Fragments(Packet(id, Counter(k), OP_DATA, dat))
    ensures id in RouteServer(table, f) <==> k % U32 == 0
    ensures k % U32 == 0 ==> RouteServer(table, f)[id] == Pushed(Fresh, f.data).0
  {
    CounterAfter(k);
    FragmentsAlike(Packet(id, Counter(k), OP_DATA, dat), f);
  }

  /** For instance the second fragment of a first write that needs two: its buffer starts at byte 131072. */
  lemma SecondFragmentStartsMidStream(id: Bytes, dat: Bytes)
    requires id != [] && MAX_PACKET_SIZE < |dat| <= 2 * MAX_PACKET_SIZE
    ensures var fs := Fragments(Packet(id, 0, OP_DATA, dat));
            && |fs| == 2
            && RouteServer(map[], fs[1]).Keys == {id}
            && RouteServer(map[], fs[1])[id].data == dat[MAX_PACKET_SIZE..]
  {
    var p := Packet(id, 0, OP_DATA, dat);
    var rest := p.(data := dat[MAX_PACKET_SIZE..]);
    assert Fragments(rest) == [rest];
    assert Fragments(p) == [p.(data := dat[..MAX_PACKET_SIZE])] + [rest];
    PushedExactly(Fresh, rest.data);
    assert [] + rest.data == rest.data;
  }

  /** A refused write loses its bytes while later ones still arrive: the buffer no longer holds a prefix. */
  lemma RefusalTears(q: Queue, big: Bytes, small: Bytes)
    requires WellFormed(q) && !q.closed
    requires |q.data| + |big| > q.cap + BUF_SIZE && |q.data| + |big| > BUF_SIZE_MAX
    requires 0 < |small| <= BUF_SIZE && big[0] != small[0]
    ensures var after := Pushed(Pushed(q, big).0, small);
            after.1 == Ok(|small|) && !(after.0.data <= q.data + (big + small))
  {
    PushedExactly(q, big);
    PushedExactly(q, small);
    var at := |q.data|;
    assert (q.data + small)[at] == small[0] && (q.data + (big + small))[at] == big[0];
  }
}
