/** The loops on both ends of a connection, over buffers reused from packet to packet. */
module Marshalling {
  import opened CStrings
  import opened Packets
  import opened Items
  import opened Transfer
  import opened Buffers
  import opened LinkedList

  /** One end of a connection. `incoming` is what the other end is going to do: any
      sequence of packets and failures, after which every receive fails. */
  class Connection {
    var sent: seq<Packet>
    var incoming: seq<Received>
    /** How many receives were made. */
    ghost var receives: nat

    constructor (incoming: seq<Received>)
      ensures sent == [] && this.incoming == incoming && receives == 0
    {
      sent := [];
      this.incoming := incoming;
      receives := 0;
    }

    method Send(buf: array<Char>)
      requires buf.Length == PACKET_LENGTH
      modifies this`sent
      ensures sent == old(sent) + [buf[..]]
    {
      sent := sent + [buf[..]];
    }

    /** Fills the buffer, or fails and leaves it alone. */
    method Receive(buf: array<Char>) returns (ok: bool)
      requires buf.Length >= PACKET_LENGTH
      modifies this`incoming, this`receives, buf
      ensures receives == old(receives) + 1
      ensures incoming == Tail(old(incoming)) && (ok <==> Head(old(incoming)).Arrived?)
      ensures buf[..PACKET_LENGTH] == Refilled(old(buf[..PACKET_LENGTH]), Head(old(incoming)))
      ensures buf[PACKET_LENGTH..] == old(buf[PACKET_LENGTH..])
    {
      ok := Head(incoming).Arrived?;
      if ok {
        var p := Head(incoming).packet;
        forall k | 0 <= k < PACKET_LENGTH {
          buf[k] := p[k];
        }
      }
      incoming := Tail(incoming);
      receives := receives + 1;
    }
  }

  /** Sending a packet and waiting for the answer in the same buffer. */
  method Exchange(con: Connection, buf: array<Char>) returns (ok: bool)
    requires buf.Length == PACKET_LENGTH
    modifies con, buf
    ensures con.sent == old(con.sent) + [old(buf[..])] && con.receives == old(con.receives) + 1
    ensures con.incoming == Tail(old(con.incoming)) && (ok <==> Head(old(con.incoming)).Arrived?)
    ensures buf[..] == Refilled(old(buf[..]), Head(old(con.incoming)))
  {
    assert buf[..] == buf[..PACKET_LENGTH];
    con.Send(buf);
    ok := con.Receive(buf);
    assert buf[..] == buf[..PACKET_LENGTH];
  }

  // ---- Server ----

  /** What the server still sends once its buffer is refilled. */
  ghost function Rest(buf: Packet, rest: seq<Item>, replies: seq<Received>): seq<Packet>
    requires AllFit(rest)
  {
    var r := React(buf, rest);
    if r.done then [r.packet] else [r.packet] + Trace(r.packet, r.rest, replies)
  }

  ghost predicate Sendable(list: List<Item>)
    reads list, list.nodes
  {
    list.Valid() && AllFit(list.Contents())
  }

  lemma TraceIsRest(buf: Packet, rest: seq<Item>, replies: seq<Received>)
    requires AllFit(rest)
    ensures Trace(buf, rest, replies) == Rest(Refilled(buf, Head(replies)), rest, Tail(replies))
  {}

  /** One item goes out: the packets sent and those to come stay the same sequence. */
  lemma ItemGoesOut(sent: seq<Packet>, buf: Packet, items: seq<Item>, pos: nat, replies: seq<Received>)
    requires AllFit(items) && pos < |items| && buf[0] == TRANSACTION_NEXT
    ensures var p := EncodeItem(buf, items[pos]);
      sent + Rest(buf, items[pos..], replies)
      == sent + [p] + Rest(Refilled(p, Head(replies)), items[pos + 1..], Tail(replies))
  {
    hide EncodeItem, Trace, Refilled, Head, Tail;
    var p := EncodeItem(buf, items[pos]);
    assert items[pos..][0] == items[pos] && items[pos..][1..] == items[pos + 1..];
    TraceIsRest(p, items[pos + 1..], replies);
    assert Rest(buf, items[pos..], replies) == [p] + Rest(Refilled(p, Head(replies)), items[pos + 1..], Tail(replies));
  }

  /** Building the next item packet and waiting for the answer to it. */
  method SendItem(con: Connection, buf: array<Char>, item: Item)
    requires buf.Length == PACKET_LENGTH && ItemFits(item)
    modifies con, buf
    ensures con.sent == old(con.sent) + [EncodeItem(old(buf[..]), item)]
    ensures con.incoming == Tail(old(con.incoming)) && con.receives == old(con.receives) + 1
    ensures buf[..] == Refilled(EncodeItem(old(buf[..]), item), Head(old(con.incoming)))
  {
    WriteItem(buf, item);
    var ok := Exchange(con, buf);
  }

  /** The last packet of a transfer. */
  method SendLast(con: Connection, buf: array<Char>, ghost rest: seq<Item>)
    requires buf.Length == PACKET_LENGTH && AllFit(rest) && !(buf[0] == TRANSACTION_NEXT && rest != [])
    modifies con, buf
    ensures con.sent == old(con.sent) + Rest(old(buf[..]), rest, con.incoming) && |con.sent| == |old(con.sent)| + 1
    ensures con.incoming == old(con.incoming) && con.receives == old(con.receives)
  {
    if buf[0] == TRANSACTION_NEXT {
      buf[0] := TRANSACTION_END;
      assert buf[..] == old(buf[..])[0 := TRANSACTION_END];
    } else {
      buf[0] := OK;
      assert buf[..] == old(buf[..])[0 := OK];
    }
    con.Send(buf);
  }

  /** The transfer loop and the last packet. */
  method SendItems(con: Connection, buf: array<Char>, list: List<Item>)
    requires buf.Length == PACKET_LENGTH && Sendable(list)
    modifies con, buf
    ensures con.sent == old(con.sent) + Rest(old(buf[..]), list.Contents(), old(con.incoming))
    ensures con.receives - old(con.receives) == |con.sent| - |old(con.sent)| - 1
  {
    hide EncodeItem, React, Trace, Rest, Refilled, Head, Tail, List.Valid, List.Contents;
    ghost var items := list.Contents();
    var iter := new Iterator(list);
    var more := iter.HasNext();
    assert items[0..] == items;
    while buf[0] == TRANSACTION_NEXT && more
      invariant iter.Valid() && iter.list == list && list.Contents() == items
      invariant more <==> iter.pos < |items|
      invariant con.receives - old(con.receives) == |con.sent| - |old(con.sent)|
      invariant con.sent + Rest(buf[..], items[iter.pos..], con.incoming)
             == old(con.sent) + Rest(old(buf[..]), items, old(con.incoming))
      decreases |items| - iter.pos
    {
      ItemGoesOut(con.sent, buf[..], items, iter.pos, con.incoming);
      var next := iter.Next();
      SendItem(con, buf, next.value);
      more := iter.HasNext();
    }
    SendLast(con, buf, items[iter.pos..]);
  }

  /** `send_screenings`, `send_movies` and `send_tickets`: one transfer over one buffer,
      against any peer. */
  method SendList(con: Connection, list: List<Item>)
    requires Sendable(list)
    modifies con
    ensures var opening := Opening(|list.Contents()|);
      && con.sent == old(con.sent) + [opening] + Trace(opening, list.Contents(), old(con.incoming))
      && con.receives == old(con.receives) + |Trace(opening, list.Contents(), old(con.incoming))|
    ensures con.receives <= old(con.receives) + |list.Contents()| + 1
  {
    hide Trace, Rest;
    ghost var items := list.Contents();
    var buf := new Char[PACKET_LENGTH](i => 0);
    var count := list.Length();
    buf[0], buf[1] := TRANSACTION_BEGIN, ToChar(count);
    ghost var opening := Opening(|items|);
    assert buf[..] == opening;
    var ok := Exchange(con, buf);
    TraceIsRest(opening, items, old(con.incoming));
    assert list.Contents() == items;
    SendItems(con, buf, list);
  }

  // ---- Client ----

  /** The client's list once the peer has answered, and whether the connection held. */
  datatype ClientOutcome = ClientOutcome(client: Client, alive: bool)

  function Digested(kind: Kind, c: Client, replies: seq<Received>): ClientOutcome
    decreases |replies|
  {
    if c.progress == Finished then ClientOutcome(c, true)
    else if Head(replies).Failed? then ClientOutcome(c, false)
    else Digested(kind, Digest(kind, c, replies[0].packet), replies[1..])
  }

  /** What the client sends: its buffer, until it is finished or the connection fails. */
  function Asks(kind: Kind, c: Client, replies: seq<Received>): seq<Packet>
    decreases |replies|, 1
  {
    if c.progress == Finished then [] else [c.buf] + AsksAfter(kind, c, replies)
  }

  function AsksAfter(kind: Kind, c: Client, replies: seq<Received>): seq<Packet>
    decreases |replies|, 0
  {
    if Head(replies).Failed? then [] else Asks(kind, Digest(kind, c, replies[0].packet), replies[1..])
  }

  lemma DigestedUnfolds(kind: Kind, c: Client, replies: seq<Received>)
    requires c.progress != Finished
    ensures Digested(kind, c, replies)
      == if Head(replies).Failed? then ClientOutcome(c, false)
         else
           var d := Digest(kind, c, replies[0].packet);
           if d.progress == Finished then ClientOutcome(d, true) else Digested(kind, d, replies[1..])
    ensures AsksAfter(kind, c, replies)
      == if Head(replies).Failed? then []
         else
           var d := Digest(kind, c, replies[0].packet);
           if d.progress == Finished then [] else [d.buf] + AsksAfter(kind, d, replies[1..])
  {}

  /** Asking for the next item with the packet just received. */
  method AskNext(con: Connection, buf: array<Char>) returns (alive: bool)
    requires buf.Length == PACKET_LENGTH
    modifies con, buf
    ensures con.sent == old(con.sent) + [old(buf[..])[0 := TRANSACTION_NEXT]]
    ensures con.incoming == Tail(old(con.incoming)) && (alive <==> Head(old(con.incoming)).Arrived?)
    ensures alive ==> buf[..] == old(con.incoming)[0].packet
  {
    ghost var before := buf[..];
    buf[0] := TRANSACTION_NEXT;
    assert buf[..] == before[0 := TRANSACTION_NEXT];
    alive := Exchange(con, buf);
  }

  /** The client's loop, entered with a NEXT packet in the buffer. */
  method GetItems(con: Connection, buf: array<Char>, kind: Kind, list: List<Item>) returns (alive: bool)
    requires buf.Length == PACKET_LENGTH && list.Valid() && list.nodes == []
    modifies con, buf, list
    ensures list.Valid()
    ensures var c := Client(old(buf[..]), AwaitItem, []);
      var o := Digested(kind, c, old(con.incoming));
      && alive == o.alive && list.Contents() == o.client.got
      && con.sent == old(con.sent) + [c.buf] + AsksAfter(kind, c, old(con.incoming))
  {
    hide DecodeItem, Digested, AsksAfter, List.Valid, List.Contents;
    ghost var c := Client(buf[..], AwaitItem, []);
    ghost var left := con.incoming;
    ghost var o := Digested(kind, c, left);
    ghost var all := con.sent + [c.buf] + AsksAfter(kind, c, left);
    alive := Exchange(con, buf);
    while alive && buf[0] == TRANSACTION_ITEM
      invariant list.Valid() && fresh(list.nodes) && list.Contents() == c.got
      invariant c.progress == AwaitItem && o == Digested(kind, c, left)
      invariant all == con.sent + AsksAfter(kind, c, left)
      invariant con.incoming == Tail(left) && (alive <==> Head(left).Arrived?)
      invariant alive ==> buf[..] == left[0].packet
      decreases |left|
    {
      DigestedUnfolds(kind, c, left);
      c := Digest(kind, c, buf[..]);
      assert all == con.sent + [c.buf] + AsksAfter(kind, c, left[1..]);
      left := con.incoming;
      list.Add(DecodeItem(kind, buf[..]));
      alive := AskNext(con, buf);
    }
    DigestedUnfolds(kind, c, left);
  }

  /** `get_tickets`, `get_screenings` and `get_movies`, from the request in the buffer on. */
  method GetList(con: Connection, buf: array<Char>, kind: Kind) returns (alive: bool, list: List<Item>)
    requires buf.Length == PACKET_LENGTH
    modifies con, buf
    ensures list.Valid() && fresh(list)
    ensures var c := Client(old(buf[..]), AwaitBegin, []);
      var o := Digested(kind, c, old(con.incoming));
      && alive == o.alive && list.Contents() == o.client.got
      && con.sent == old(con.sent) + Asks(kind, c, old(con.incoming))
  {
    hide DecodeItem, Digested, AsksAfter;
    DigestedUnfolds(kind, Client(buf[..], AwaitBegin, []), con.incoming);
    list := new List();
    alive := Exchange(con, buf);
    if !alive || buf[0] != TRANSACTION_BEGIN {
      return;
    }
    ghost var before := buf[..];
    buf[0] := TRANSACTION_NEXT;
    assert buf[..] == before[0 := TRANSACTION_NEXT];
    alive := GetItems(con, buf, kind, list);
  }

  /** The ITEM packets up to the first packet that is none. */
  function ItemsArriving(replies: seq<Received>): seq<Packet> {
    if replies != [] && replies[0].Arrived? && replies[0].packet[0] == TRANSACTION_ITEM
    then [replies[0].packet] + ItemsArriving(replies[1..])
    else []
  }

  function DecodeAll(kind: Kind, packets: seq<Packet>): seq<Item> {
    seq(|packets|, i requires 0 <= i < |packets| => DecodeItem(kind, packets[i]))
  }

  /** Whatever the peer sends, the client's list is what the ITEM packets said up to the
      first packet that is none, in their order. */
  lemma {:induction false} ClientShape(kind: Kind, c: Client, replies: seq<Received>)
    requires c.progress == AwaitItem
    ensures Digested(kind, c, replies).client.got == c.got + DecodeAll(kind, ItemsArriving(replies))
    decreases |replies|
  {
    hide DecodeItem;
    var a := ItemsArriving(replies);
    if a == [] {
    } else {
      var d := Digest(kind, c, replies[0].packet);
      ClientShape(kind, d, replies[1..]);
      assert DecodeAll(kind, a) == [DecodeItem(kind, a[0])] + DecodeAll(kind, a[1..]);
    }
  }

  /** From its request on: nothing unless the first packet is BEGIN, else those. It knows of
      a lost connection, and asks once more after each packet that goes on. */
  lemma ClientGets(kind: Kind, request: Packet, replies: seq<Received>)
    ensures var o := Digested(kind, Client(request, AwaitBegin, []), replies);
      var begun := replies != [] && replies[0].Arrived? && replies[0].packet[0] == TRANSACTION_BEGIN;
      var items := if begun then ItemsArriving(replies[1..]) else [];
      var packets := if begun then 1 + |items| else 0;
      && o.client.got == DecodeAll(kind, items)
      && (o.alive <==> packets < |replies| && replies[packets].Arrived?)
      && |Asks(kind, Client(request, AwaitBegin, []), replies)| == 1 + packets
  {
    hide DecodeItem;
    var c := Client(request, AwaitBegin, []);
    DigestedUnfolds(kind, c, replies);
    if replies != [] && replies[0].Arrived? && replies[0].packet[0] == TRANSACTION_BEGIN {
      var d := Digest(kind, c, replies[0].packet);
      ClientShape(kind, d, replies[1..]);
      ClientAsks(kind, d, replies[1..]);
    }
  }

  lemma {:induction false} ClientAsks(kind: Kind, c: Client, replies: seq<Received>)
    requires c.progress == AwaitItem
    ensures var n := |ItemsArriving(replies)|;
      && (Digested(kind, c, replies).alive <==> n < |replies| && replies[n].Arrived?)
      && |Asks(kind, c, replies)| == 1 + n
    decreases |replies|
  {
    hide DecodeItem;
    DigestedUnfolds(kind, c, replies);
    if ItemsArriving(replies) == [] {
    } else {
      ClientAsks(kind, Digest(kind, c, replies[0].packet), replies[1..]);
    }
  }

  // ---- The two ends of one conversation ----

  function Arriving(packets: seq<Packet>): seq<Received> {
    seq(|packets|, i requires 0 <= i < |packets| => Arrived(packets[i]))
  }

  /** What both ends send when each receives exactly what the other one sends. The first
      packet of the client is its request; the server has it before its transfer begins. */
  ghost predicate Conversation(kind: Kind, items: seq<Item>, request: Packet,
                               fromServer: seq<Packet>, fromClient: seq<Packet>)
    requires AllFit(items)
  {
    && fromClient == Asks(kind, Client(request, AwaitBegin, []), Arriving(fromServer))
    && fromClient != []
    && var opening := Opening(|items|);
       fromServer == [opening] + Trace(opening, items, Arriving(fromClient[1..]))
  }

  lemma {:induction false} AskedThroughout(packets: seq<Packet>)
    requires forall p | p in packets :: p[0] == TRANSACTION_NEXT
    ensures Asked(Arriving(packets)) == |packets|
  {
    if packets == [] {
    } else {
      AskedThroughout(packets[1..]);
      assert Arriving(packets)[1..] == Arriving(packets[1..]);
    }
  }

  /** The client, given ITEM packets and then one that is none. */
  lemma {:induction false} ClientOnItems(kind: Kind, c: Client, packets: seq<Packet>)
    requires c.progress == AwaitItem && c.buf[0] == TRANSACTION_NEXT && packets != []
    requires forall i | 0 <= i < |packets| :: packets[i][0] == TRANSACTION_ITEM <==> i < |packets| - 1
    ensures var asks := Asks(kind, c, Arriving(packets));
      |asks| == |packets| && forall p | p in asks :: p[0] == TRANSACTION_NEXT
    ensures var o := Digested(kind, c, Arriving(packets));
      o.alive && o.client.progress == Finished && o.client.got == c.got + DecodeAll(kind, packets[..|packets| - 1])
    decreases |packets|
  {
    hide DecodeItem, Digested, AsksAfter;
    var d := Digest(kind, c, packets[0]);
    var rest := packets[1..];
    assert Arriving(packets)[1..] == Arriving(rest);
    DigestedUnfolds(kind, c, Arriving(packets));
    if |packets| == 1 {
    } else {
      ClientOnItems(kind, d, rest);
      assert DecodeAll(kind, packets[..|packets| - 1])
        == [DecodeItem(kind, packets[0])] + DecodeAll(kind, rest[..|rest| - 1]);
    }
  }

  /** However long the list, also where its length does not fit the count byte: both ends
      finish after n + 2 packets each, and the client's list is the server's. */
  lemma ConversationIsExact(kind: Kind, items: seq<Item>, request: Packet,
                            fromServer: seq<Packet>, fromClient: seq<Packet>)
    requires AllFit(items) && forall item | item in items :: KindOf(item) == kind
    requires Conversation(kind, items, request, fromServer, fromClient)
    ensures var o := Digested(kind, Client(request, AwaitBegin, []), Arriving(fromServer));
      o.alive && o.client.got == items
    ensures |fromServer| == |fromClient| == |items| + 2
    ensures fromServer[|items| + 1][0] == TRANSACTION_END
  {
    hide DecodeItem, Trace, Asks, AsksAfter, Digested, Asked;
    var start := Client(request, AwaitBegin, []);
    var opening := Opening(|items|);
    var asks := fromClient[1..];
    var trace := fromServer[1..];
    TraceShape(kind, opening, items, Arriving(asks));
    var c := Digest(kind, start, opening);
    assert Arriving(fromServer)[1..] == Arriving(trace);
    DigestedUnfolds(kind, start, Arriving(fromServer));
    ClientOnItems(kind, c, trace);
    assert asks == Asks(kind, c, Arriving(trace)) by { AsksUnfold(kind, start, Arriving(fromServer)); }
    AskedThroughout(asks);
    assert DecodeAll(kind, trace[..|trace| - 1]) == items;
  }

  lemma AsksUnfold(kind: Kind, c: Client, replies: seq<Received>)
    requires c.progress == AwaitBegin && replies != [] && replies[0].Arrived?
    ensures Asks(kind, c, replies)[1..] == Asks(kind, Digest(kind, c, replies[0].packet), replies[1..])
  {}

  /** The two loops from a NEXT on: the client in its loop, the server with `rest` to send
      and `old` in its buffer. */
  lemma {:induction false} LoopsMeet(kind: Kind, c: Client, rest: seq<Item>, stale: Packet)
    returns (fromServer: seq<Packet>, fromClient: seq<Packet>)
    requires AllFit(rest) && forall item | item in rest :: KindOf(item) == kind
    requires c.progress == AwaitItem && c.buf[0] == TRANSACTION_NEXT
    ensures fromServer == Trace(stale, rest, Arriving(fromClient))
    ensures fromClient == Asks(kind, c, Arriving(fromServer))
    decreases |rest|
  {
    hide EncodeItem, DecodeItem;
    if rest == [] {
      fromServer, fromClient := [c.buf[0 := TRANSACTION_END]], [c.buf];
      DigestedUnfolds(kind, c, Arriving(fromServer));
    } else {
      var p := EncodeItem(c.buf, rest[0]);
      ItemRoundTrip(c.buf, rest[0]);
      var t, a := LoopsMeet(kind, Digest(kind, c, p), rest[1..], p);
      fromServer, fromClient := [p] + t, [c.buf] + a;
      assert Arriving(fromServer)[1..] == Arriving(t) && Arriving(fromClient)[1..] == Arriving(a);
      DigestedUnfolds(kind, c, Arriving(fromServer));
    }
  }

  /** The two loops always find a conversation. */
  lemma ConversationExists(kind: Kind, items: seq<Item>, request: Packet)
    returns (fromServer: seq<Packet>, fromClient: seq<Packet>)
    requires AllFit(items) && forall item | item in items :: KindOf(item) == kind
    ensures Conversation(kind, items, request, fromServer, fromClient)
  {
    hide Trace;
    var start, opening := Client(request, AwaitBegin, []), Opening(|items|);
    var t, a := LoopsMeet(kind, Digest(kind, start, opening), items, opening);
    fromServer, fromClient := [opening] + t, [request] + a;
    assert Arriving(fromServer)[1..] == Arriving(t) && fromClient[1..] == a;
    DigestedUnfolds(kind, start, Arriving(fromServer));
  }
}
