/** The list transfer: the server answers every NEXT with an ITEM or, at the end, END;
    anything else it answers with OK. The client asks NEXT as long as it gets ITEMs. */
module Transfer {
  import opened CStrings
  import opened Packets
  import opened Items

  /** What a receive does: a packet arrives, or it fails and leaves the buffer alone. */
  datatype Received = Arrived(packet: Packet) | Failed

  function Refilled(buf: Packet, r: Received): Packet {
    match r
    case Arrived(p) => p
    case Failed => buf
  }

  // ---- The server's side ----

  function Opening(count: nat): Packet {
    CLEARED[0 := TRANSACTION_BEGIN][1 := ToChar(count)]
  }

  /** The announced count is the length of the list exactly up to 127 items: beyond, it
      does not fit its byte. Nothing else depends on it. */
  lemma CountByte(count: nat)
    ensures Opening(count)[1] == count <==> count <= 127
  {}

  predicate AllFit(items: seq<Item>) {
    forall item | item in items :: ItemFits(item)
  }

  /** What the server sends on finding `buf` in its buffer with `rest` still to send. */
  datatype Reaction = Reaction(packet: Packet, rest: seq<Item>, done: bool)

  function React(buf: Packet, rest: seq<Item>): (r: Reaction)
    requires AllFit(rest)
    ensures AllFit(r.rest)
    ensures !r.done ==> |r.rest| == |rest| - 1
  {
    if buf[0] == TRANSACTION_NEXT && rest != [] then Reaction(EncodeItem(buf, rest[0]), rest[1..], false)
    else if buf[0] == TRANSACTION_NEXT then Reaction(buf[0 := TRANSACTION_END], rest, true)
    else Reaction(buf[0 := OK], rest, true)
  }

  /** The next receive of a peer that gives these replies and then no more. */
  function Head(replies: seq<Received>): Received {
    if replies == [] then Failed else replies[0]
  }

  function Tail(replies: seq<Received>): seq<Received> {
    if replies == [] then [] else replies[1..]
  }

  /** Everything the server sends after its opening packet. */
  function Trace(buf: Packet, rest: seq<Item>, replies: seq<Received>): (t: seq<Packet>)
    requires AllFit(rest)
    ensures 1 <= |t| <= |rest| + 1
    decreases |rest|
  {
    var r := React(Refilled(buf, Head(replies)), rest);
    if r.done then [r.packet] else [r.packet] + Trace(r.packet, r.rest, Tail(replies))
  }

  /** The receive leaves a NEXT in a buffer that held none. */
  predicate NextArrives(r: Received) {
    r.Arrived? && r.packet[0] == TRANSACTION_NEXT
  }

  /** How many replies in a row ask for the next item. */
  function Asked(replies: seq<Received>): nat {
    if replies != [] && NextArrives(replies[0]) then 1 + Asked(replies[1..]) else 0
  }

  function Min(a: nat, b: nat): nat { if a < b then a else b }

  /** Against any peer, failed receives included: as many items as were asked for and
      exist, in order, then exactly one END if the last item was followed by one more NEXT,
      else exactly one OK. */
  lemma {:induction false} TraceShape(kind: Kind, buf: Packet, rest: seq<Item>, replies: seq<Received>)
    requires AllFit(rest) && forall item | item in rest :: KindOf(item) == kind
    requires buf[0] != TRANSACTION_NEXT
    ensures var trace := Trace(buf, rest, replies);
      var k := Min(|rest|, Asked(replies));
      && |trace| == k + 1
      && (forall i | 0 <= i < k :: trace[i][0] == TRANSACTION_ITEM && DecodeItem(kind, trace[i]) == rest[i])
      && trace[k][0] == if Asked(replies) > |rest| then TRANSACTION_END else OK
    decreases |rest|
  {
    hide EncodeItem, DecodeItem;
    var got := Refilled(buf, Head(replies));
    if got[0] == TRANSACTION_NEXT && rest != [] {
      ItemRoundTrip(got, rest[0]);
      TraceShape(kind, EncodeItem(got, rest[0]), rest[1..], Tail(replies));
    }
  }

  // ---- The client's side ----

  datatype Progress = AwaitBegin | AwaitItem | Finished

  /** `buf` is the client's only buffer; `got` the list it has built so far. */
  datatype Client = Client(buf: Packet, progress: Progress, got: seq<Item>)

  /** What the client does with a packet, and the packet it sends back unless finished. */
  function Digest(kind: Kind, c: Client, p: Packet): Client {
    var ask := p[0 := TRANSACTION_NEXT];
    if c.progress == AwaitBegin && p[0] == TRANSACTION_BEGIN then Client(ask, AwaitItem, c.got)
    else if c.progress == AwaitItem && p[0] == TRANSACTION_ITEM then
      Client(ask, AwaitItem, c.got + [DecodeItem(kind, p)])
    else Client(p, Finished, c.got)
  }

  // ---- Both together ----

  datatype ServerState = ToOpen | AwaitReply | Done

  /** A transfer in progress: both programs, their buffers, and the two directions of the
      connection between them. */
  datatype Joint = Joint(server: ServerState, serverBuf: Packet, rest: seq<Item>,
                         client: Client, toClient: seq<Packet>, toServer: seq<Packet>)

  predicate ServerOpens(s: Joint, s': Joint) {
    && s.server == ToOpen
    && var p := Opening(|s.rest|);
       s' == s.(server := AwaitReply, serverBuf := p, toClient := s.toClient + [p])
  }

  ghost predicate ServerReacts(s: Joint, s': Joint) {
    && s.server == AwaitReply && s.toServer != [] && AllFit(s.rest)
    && var r := React(s.toServer[0], s.rest);
       s' == s.(server := if r.done then Done else AwaitReply, serverBuf := r.packet, rest := r.rest,
                toServer := s.toServer[1..], toClient := s.toClient + [r.packet])
  }

  predicate ClientDigests(kind: Kind, s: Joint, s': Joint) {
    && s.client.progress != Finished && s.toClient != []
    && var c := Digest(kind, s.client, s.toClient[0]);
       s' == s.(client := c, toClient := s.toClient[1..],
                toServer := if c.progress == Finished then s.toServer else s.toServer + [c.buf])
  }

  ghost predicate JointStep(kind: Kind, s: Joint, s': Joint) {
    ServerOpens(s, s') || ServerReacts(s, s') || ClientDigests(kind, s, s')
  }

  /** The server has its list, the client has sent its request and waits. */
  ghost predicate JointInitial(s: Joint, items: seq<Item>) {
    && s.server == ToOpen && s.rest == items
    && s.client.progress == AwaitBegin && s.client.got == []
    && s.toClient == [] && s.toServer == []
  }

  /** What is where at each stage. */
  ghost predicate Stage(kind: Kind, s: Joint, items: seq<Item>) {
    var c := s.client;
    match s.server
    case ToOpen => JointInitial(s, items)
    case AwaitReply =>
      || (s.toServer == [] && |s.toClient| == 1 && c.progress == AwaitBegin && s.toClient[0][0] == TRANSACTION_BEGIN
          && c.got + s.rest == items)
      || (s.toServer == [] && |s.toClient| == 1 && c.progress == AwaitItem && s.toClient[0][0] == TRANSACTION_ITEM
          && c.got + [DecodeItem(kind, s.toClient[0])] + s.rest == items)
      || (s.toClient == [] && |s.toServer| == 1 && c.progress == AwaitItem && s.toServer[0][0] == TRANSACTION_NEXT
          && c.got + s.rest == items)
    case Done =>
      && s.toServer == [] && s.rest == [] && c.got == items
      && ((|s.toClient| == 1 && c.progress == AwaitItem && s.toClient[0][0] == TRANSACTION_END)
          || (s.toClient == [] && c.progress == Finished))
  }

  ghost predicate Good(kind: Kind, s: Joint, items: seq<Item>) {
    && AllFit(s.rest) && (forall item | item in s.rest :: KindOf(item) == kind)
    && Stage(kind, s, items)
  }

  lemma InitialGood(kind: Kind, s: Joint, items: seq<Item>)
    requires JointInitial(s, items) && AllFit(items) && forall item | item in items :: KindOf(item) == kind
    ensures Good(kind, s, items)
  {}

  lemma StepGood(kind: Kind, s: Joint, s': Joint, items: seq<Item>)
    requires Good(kind, s, items) && JointStep(kind, s, s')
    ensures Good(kind, s', items)
  {
    hide EncodeItem, DecodeItem;
    if ServerReacts(s, s') {
      if s.rest != [] {
        var p := EncodeItem(s.toServer[0], s.rest[0]);
        ItemRoundTrip(s.toServer[0], s.rest[0]);
        assert s.client.got + [s.rest[0]] + s.rest[1..] == items;
      } else {
        assert s.client.got + [] == s.client.got;
      }
    } else if ClientDigests(kind, s, s') && s.client.progress == AwaitItem && s.toClient[0][0] == TRANSACTION_ITEM {
      assert s'.client.got == s.client.got + [DecodeItem(kind, s.toClient[0])];
    }
  }

  ghost predicate JointRun(kind: Kind, run: seq<Joint>, items: seq<Item>) {
    && run != [] && JointInitial(run[0], items)
    && AllFit(items) && (forall item | item in items :: KindOf(item) == kind)
    && forall i | 0 <= i < |run| - 1 :: JointStep(kind, run[i], run[i + 1])
  }

  lemma {:induction false} RunGood(kind: Kind, run: seq<Joint>, items: seq<Item>, i: nat)
    requires JointRun(kind, run, items) && i < |run|
    ensures Good(kind, run[i], items)
  {
    hide JointStep, Good, JointInitial;
    if i == 0 {
      InitialGood(kind, run[0], items);
    } else {
      RunGood(kind, run, items, i - 1);
      StepGood(kind, run[i - 1], run[i], items);
    }
  }

  /** The steps still to be taken. */
  function StepsLeft(s: Joint): nat {
    match s.server
    case ToOpen => 2 * |s.rest| + 4
    case AwaitReply => 2 * |s.rest| + 2 + |s.toClient|
    case Done => |s.toClient|
  }

  lemma StepCounts(kind: Kind, s: Joint, s': Joint, items: seq<Item>)
    requires Good(kind, s, items) && JointStep(kind, s, s')
    ensures StepsLeft(s') == StepsLeft(s) - 1
  {
    hide EncodeItem, DecodeItem;
  }

  /** No transfer gets stuck: something can happen until nothing is left to do. */
  lemma StepExists(kind: Kind, s: Joint, items: seq<Item>)
    requires Good(kind, s, items) && StepsLeft(s) > 0
    ensures exists s' :: JointStep(kind, s, s')
  {
    hide EncodeItem, DecodeItem;
    match s.server
    case ToOpen =>
      var p := Opening(|s.rest|);
      assert JointStep(kind, s, s.(server := AwaitReply, serverBuf := p, toClient := s.toClient + [p]));
    case Done =>
      var c := Digest(kind, s.client, s.toClient[0]);
      var s' := s.(client := c, toClient := s.toClient[1..],
                   toServer := if c.progress == Finished then s.toServer else s.toServer + [c.buf]);
      assert JointStep(kind, s, s');
    case AwaitReply =>
      if s.toServer != [] {
        var r := React(s.toServer[0], s.rest);
        var s' := s.(server := if r.done then Done else AwaitReply, serverBuf := r.packet, rest := r.rest,
                     toServer := s.toServer[1..], toClient := s.toClient + [r.packet]);
        assert ServerReacts(s, s');
        assert JointStep(kind, s, s');
      } else {
        var c := Digest(kind, s.client, s.toClient[0]);
        var s' := s.(client := c, toClient := s.toClient[1..],
                     toServer := if c.progress == Finished then s.toServer else s.toServer + [c.buf]);
        assert JointStep(kind, s, s');
      }
  }

  lemma {:induction false} RunCounts(kind: Kind, run: seq<Joint>, items: seq<Item>)
    requires JointRun(kind, run, items)
    ensures |run| - 1 + StepsLeft(run[|run| - 1]) == 2 * |items| + 4
  {
    hide JointStep, Good;
    if |run| == 1 {
    } else {
      var n := |run| - 1;
      var front := run[..n];
      assert forall i | 0 <= i < |front| :: front[i] == run[i];
      RunCounts(kind, front, items);
      RunGood(kind, run, items, n - 1);
      assert JointStep(kind, run[n - 1], run[n]);
      StepCounts(kind, run[n - 1], run[n], items);
    }
  }

  /** For a list of any length: never more than one packet is in flight; a run takes at
      most 2n + 4 steps and can always be continued until it has taken them; then both
      sides are done, nothing is in flight and the client's list is the server's. */
  lemma TransferIsExact(kind: Kind, run: seq<Joint>, items: seq<Item>)
    requires JointRun(kind, run, items)
    ensures var s := run[|run| - 1];
      && |s.toClient| + |s.toServer| <= 1
      && |run| <= 2 * |items| + 5
      && (|run| <= 2 * |items| + 4 ==> exists s' :: JointStep(kind, s, s'))
      && (|run| == 2 * |items| + 5 ==>
            s.server == Done && s.client.progress == Finished && s.client.got == items
            && s.toClient == [] && s.toServer == [])
      && s.client.got <= items
  {
    hide JointStep, DecodeItem, EncodeItem;
    var s := run[|run| - 1];
    RunCounts(kind, run, items);
    RunGood(kind, run, items, |run| - 1);
    if StepsLeft(s) > 0 {
      StepExists(kind, s, items);
    }
    match s.server
    case ToOpen =>
    case AwaitReply =>
      if s.client.got + s.rest != items {
        assert s.client.got + [DecodeItem(kind, s.toClient[0])] + s.rest
          == s.client.got + ([DecodeItem(kind, s.toClient[0])] + s.rest);
      }
    case Done =>
  }
}
