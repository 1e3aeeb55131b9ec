/** The packets of the protocol: requests, replies and items, and how both sides write
    and read them. */
module Packets {
  import opened CStrings
  import opened Service

  const PACKET_LENGTH: nat := 512

  type Packet = p: seq<Char> | |p| == PACKET_LENGTH witness Zeros(PACKET_LENGTH)

  const CLEARED: Packet := Zeros(PACKET_LENGTH)

  datatype Option<+T> = None | Some(value: T)

  // Packet headers.
  const OK: Char := 20
  const ERROR: Char := 30
  const ERR_UNKNOWN: Char := 31
  const ERR_NO_SUCH_DATA: Char := 32
  const ERR_INVALID_PACKET: Char := 33
  const ERR_CONSTRAINT_VIOLATION: Char := 35
  const TRANSACTION_BEGIN: Char := 70
  const TRANSACTION_END: Char := 71
  const TRANSACTION_NEXT: Char := 72
  const TRANSACTION_ITEM: Char := 73
  const MOVIE_ADD: Char := 0
  const MOVIE_DELETE: Char := 1
  const SCREENING_ADD: Char := 2
  const SCREENING_DELETE: Char := 3
  const MAKE_RESERVATION: Char := 6
  const MOVIE_SCREENINGS: Char := 7
  const SEATING_INFO: Char := 8
  const MOVIE_LIST: Char := 9
  const RESERVATION_LIST: Char := 10
  const CANCEL_RESERVATION: Char := 11

  // Field sizes.
  const MOVIE_NAME_LEN := 127
  const CLIENT_NAME_LEN := 63
  const DESCRIPTION_LEN := 255
  const ID_LEN := 20
  const CLIENT_ID_LEN := 30

  predicate IsText(s: Text, n: nat) {
    NulFree(s) && |s| <= n
  }

  // ---- Requests, client side ----

  /** The calls of the client's interface. */
  datatype Call =
    | SendMovie(name: Text, description: Text)
    | SendMovieDeletion(name: Text)
    | SendScreening(movie: Text, day: Char, month: Char, slot: Char, hall: Char)
    | SendScreeningDeletion(id: Text)
    | SendReservation(seat: Char, id: Text, client: Text)
    | SendCancellation(seat: Char, id: Text, client: Text)
    | AskTickets(client: Text, cancelled: Char)
    | AskScreenings(movie: Text)
    | AskMovies
    | AskSeats(id: Text)

  /** The texts fit the fields of the client's structures. */
  predicate CallFits(call: Call) {
    match call
    case SendMovie(name, description) => IsText(name, MOVIE_NAME_LEN) && IsText(description, DESCRIPTION_LEN)
    case SendMovieDeletion(name) => IsText(name, MOVIE_NAME_LEN)
    case SendScreening(movie, _, _, _, _) => IsText(movie, MOVIE_NAME_LEN)
    case SendScreeningDeletion(id) => IsText(id, CLIENT_ID_LEN - 1)
    case SendReservation(_, id, client) => IsText(id, ID_LEN - 1) && IsText(client, CLIENT_NAME_LEN)
    case SendCancellation(_, id, client) => IsText(id, ID_LEN - 1) && IsText(client, CLIENT_NAME_LEN)
    case AskTickets(client, _) => IsText(client, CLIENT_NAME_LEN)
    case AskScreenings(movie) => IsText(movie, MOVIE_NAME_LEN)
    case AskMovies => true
    case AskSeats(id) => IsText(id, CLIENT_ID_LEN - 1)
  }

  /** `fill_reservation_data` of the client. */
  function PutReservation(p: Packet, seat: Char, id: Text, client: Text): Packet
    requires IsText(id, ID_LEN - 1) && IsText(client, CLIENT_NAME_LEN)
  {
    Put(Put(p[1 := seat], 2, id), 2 + |id| + 1, client)
  }

  /** What the client sends, given what its buffer held before. */
  function Encode(stale: Packet, call: Call): Packet
    requires CallFits(call)
  {
    match call
    case SendMovie(name, description) =>
      Put(Put(CLEARED[0 := MOVIE_ADD], 1, name), 1 + |name| + 1, description)
    case SendMovieDeletion(name) => Put(CLEARED[0 := MOVIE_DELETE], 1, name)
    case SendScreening(movie, day, month, slot, hall) =>
      Put(CLEARED[0 := SCREENING_ADD][1 := day][2 := month][3 := slot][4 := hall], 5, movie)
    case SendScreeningDeletion(id) => Put(CLEARED[0 := SCREENING_DELETE], 1, id)
    case SendReservation(seat, id, client) => PutReservation(CLEARED[0 := MAKE_RESERVATION], seat, id, client)
    case SendCancellation(seat, id, client) => PutReservation(stale[0 := CANCEL_RESERVATION], seat, id, client)
    case AskTickets(client, cancelled) => Put(stale[0 := RESERVATION_LIST][1 := cancelled], 2, client)
    case AskScreenings(movie) => Put(CLEARED[0 := MOVIE_SCREENINGS], 1, movie)
    case AskMovies => CLEARED[0 := MOVIE_LIST]
    case AskSeats(id) => Put(stale[0 := SEATING_INFO], 1, id)
  }

  // ---- Requests, server side ----

  /** `req_movie_add` on the received packet followed by the zero barrier. */
  function DecodeMovie(buf: seq<Char>): Option<Request>
    requires |buf| == PACKET_LENGTH + 1
  {
    var second := End(buf, 1) + 1;
    if second >= PACKET_LENGTH then None
    else Some(AddMovie(Truncated(StringAt(buf, 1), MOVIE_NAME_LEN), Truncated(StringAt(buf, second), DESCRIPTION_LEN)))
  }

  /** `fill_reservation_data` of the server. */
  function DecodeReservation(buf: seq<Char>, cancel: bool): Option<Request>
    requires |buf| == PACKET_LENGTH + 1
  {
    var second := End(buf, 2) + 1;
    var id := Atoi(StringAt(buf, 2));
    if second >= PACKET_LENGTH then None
    else
      var client := Truncated(StringAt(buf, second), CLIENT_NAME_LEN);
      Some(if cancel then CancelReservation(client, id, buf[1]) else MakeReservation(client, id, buf[1]))
  }

  /** `wait_request` and the request builders, on a received packet. */
  function Decode(p: Packet): Option<Request> {
    var buf := p + [0];
    if p[0] == MOVIE_ADD then DecodeMovie(buf)
    else if p[0] == MOVIE_DELETE then Some(DeleteMovie(StringAt(buf, 1)))
    else if p[0] == SCREENING_ADD then
      Some(AddScreening(Truncated(StringAt(buf, 5), MOVIE_NAME_LEN), p[1], p[2], p[3], p[4]))
    else if p[0] == SCREENING_DELETE then Some(DeleteScreening(StringAt(buf, 1)))
    else if p[0] == MAKE_RESERVATION then DecodeReservation(buf, false)
    else if p[0] == CANCEL_RESERVATION then DecodeReservation(buf, true)
    else if p[0] == MOVIE_SCREENINGS then Some(ListScreenings(StringAt(buf, 1)))
    else if p[0] == SEATING_INFO then Some(ShowSeats(StringAt(buf, 1)))
    else if p[0] == MOVIE_LIST then Some(ListMovies)
    else if p[0] == RESERVATION_LIST then
      Some(if p[1] == 0 then ListReservations(StringAt(buf, 2)) else ListCancelled(StringAt(buf, 2)))
    else None
  }

  /** The request a call stands for. */
  function Meaning(call: Call): Request {
    match call
    case SendMovie(name, description) => AddMovie(name, description)
    case SendMovieDeletion(name) => DeleteMovie(name)
    case SendScreening(movie, day, month, slot, hall) => AddScreening(movie, day, month, slot, hall)
    case SendScreeningDeletion(id) => DeleteScreening(id)
    case SendReservation(seat, id, client) => MakeReservation(client, Atoi(id), seat)
    case SendCancellation(seat, id, client) => CancelReservation(client, Atoi(id), seat)
    case AskTickets(client, cancelled) => if cancelled == 0 then ListReservations(client) else ListCancelled(client)
    case AskScreenings(movie) => ListScreenings(movie)
    case AskMovies => ListMovies
    case AskSeats(id) => ShowSeats(id)
  }

  /** A string written in a packet is read back behind the zero barrier. */
  lemma PacketString(p: Packet, at: nat, s: Text)
    requires NulFree(s) && at + |s| < PACKET_LENGTH
    requires p[at..at + |s|] == s && p[at + |s|] == 0
    ensures End(p + [0], at) == at + |s| && StringAt(p + [0], at) == s
  {
    assert (p + [0])[at..at + |s|] == p[at..at + |s|];
    ReadBack(p + [0], at, s);
  }

  /** Two strings written one after the other are both there. */
  lemma PutTwice(p: seq<Char>, at: nat, s: Text, t: Text)
    requires at + |s| + 1 + |t| < |p|
    ensures var q := Put(Put(p, at, s), at + |s| + 1, t);
      && q[at..at + |s|] == s && q[at + |s|] == 0
      && q[at + |s| + 1..at + |s| + 1 + |t|] == t && q[at + |s| + 1 + |t|] == 0
      && forall k | 0 <= k < at :: q[k] == p[k]
  {
    var r := Put(p, at, s);
    var q := Put(r, at + |s| + 1, t);
    assert q[at..at + |s|] == r[at..at + |s|];
  }

  lemma ReservationRoundTrip(p: Packet, seat: Char, id: Text, client: Text, cancel: bool)
    requires IsText(id, ID_LEN - 1) && IsText(client, CLIENT_NAME_LEN)
    ensures var q := PutReservation(p, seat, id, client);
      && q[0] == p[0]
      && DecodeReservation(q + [0], cancel)
         == Some(if cancel then CancelReservation(client, Atoi(id), seat) else MakeReservation(client, Atoi(id), seat))
  {
    hide Put, End, StringAt;
    var q := PutReservation(p, seat, id, client);
    PutTwice(p[1 := seat], 2, id, client);
    PacketString(q, 2, id);
    PacketString(q, 2 + |id| + 1, client);
  }

  lemma MovieRoundTrip(stale: Packet, name: Text, description: Text)
    requires CallFits(SendMovie(name, description))
    ensures Decode(Encode(stale, SendMovie(name, description))) == Some(AddMovie(name, description))
  {
    hide Put, End, StringAt, DecodeReservation;
    var q := Encode(stale, SendMovie(name, description));
    PutTwice(CLEARED[0 := MOVIE_ADD], 1, name, description);
    PacketString(q, 1, name);
    PacketString(q, 1 + |name| + 1, description);
  }

  lemma TextCallRoundTrip(stale: Packet, call: Call)
    requires CallFits(call)
    requires call.SendMovieDeletion? || call.SendScreeningDeletion? || call.AskScreenings? || call.AskSeats?
    ensures Decode(Encode(stale, call)) == Some(Meaning(call))
  {
    hide DecodeMovie, DecodeReservation, PutReservation, Put, End, StringAt;
    var q := Encode(stale, call);
    match call
    case SendMovieDeletion(name) => PacketString(q, 1, name);
    case SendScreeningDeletion(id) => PacketString(q, 1, id);
    case AskScreenings(movie) => PacketString(q, 1, movie);
    case AskSeats(id) => PacketString(q, 1, id);
  }

  lemma FieldsCallRoundTrip(stale: Packet, call: Call)
    requires CallFits(call) && (call.SendScreening? || call.AskTickets? || call.AskMovies?)
    ensures Decode(Encode(stale, call)) == Some(Meaning(call))
  {
    hide DecodeMovie, DecodeReservation, PutReservation, Put, End, StringAt;
    var q := Encode(stale, call);
    match call
    case SendScreening(movie, _, _, _, _) => PacketString(q, 5, movie);
    case AskTickets(client, _) => PacketString(q, 2, client);
    case AskMovies =>
  }

  /** The server decodes every call of the client to the request it stands for, whatever
      the client's buffer held before. */
  lemma RequestRoundTrip(stale: Packet, call: Call)
    requires CallFits(call)
    ensures Decode(Encode(stale, call)) == Some(Meaning(call))
  {
    hide DecodeMovie, DecodeReservation, PutReservation;
    match call
    case SendMovie(name, description) => MovieRoundTrip(stale, name, description);
    case SendReservation(seat, id, client) =>
      ReservationRoundTrip(CLEARED[0 := MAKE_RESERVATION], seat, id, client, false);
    case SendCancellation(seat, id, client) =>
      ReservationRoundTrip(stale[0 := CANCEL_RESERVATION], seat, id, client, true);
    case SendMovieDeletion(_) | SendScreeningDeletion(_) | AskScreenings(_) | AskSeats(_) =>
      TextCallRoundTrip(stale, call);
    case SendScreening(_, _, _, _, _) | AskTickets(_, _) | AskMovies => FieldsCallRoundTrip(stale, call);
  }

  // ---- Decoding arbitrary packets ----

  lemma EndBeyond(p: Packet, at: nat)
    requires at < PACKET_LENGTH - 1
    ensures End(p + [0], at) + 1 >= PACKET_LENGTH <==> NulFree(p[at..PACKET_LENGTH - 1])
  {
    var buf := p + [0];
    var e := End(buf, at);
    if e < PACKET_LENGTH - 1 {
      assert p[at..PACKET_LENGTH - 1][e - at] == buf[e];
    } else {
      var front := p[at..PACKET_LENGTH - 1];
      forall k | 0 <= k < |front| ensures front[k] != 0 {
        assert front[k] == buf[at..e][k];
      }
    }
  }

  /** Which packets are ignored: unknown headers, and packets with two strings whose first
      one leaves no room for the second. */
  lemma DecodeRejects(p: Packet)
    ensures Decode(p) == None <==>
      || p[0] !in {MOVIE_ADD, MOVIE_DELETE, SCREENING_ADD, SCREENING_DELETE, MAKE_RESERVATION, CANCEL_RESERVATION,
                   MOVIE_SCREENINGS, SEATING_INFO, MOVIE_LIST, RESERVATION_LIST}
      || (p[0] == MOVIE_ADD && NulFree(p[1..PACKET_LENGTH - 1]))
      || (p[0] in {MAKE_RESERVATION, CANCEL_RESERVATION} && NulFree(p[2..PACKET_LENGTH - 1]))
  {
    EndBeyond(p, 1);
    EndBeyond(p, 2);
  }

  /** What a decoded request may store is within the sizes of the fields. */
  predicate RequestFits(req: Request) {
    match req
    case AddMovie(name, description) => IsText(name, MOVIE_NAME_LEN) && IsText(description, DESCRIPTION_LEN)
    case AddScreening(movie, _, _, _, _) => IsText(movie, MOVIE_NAME_LEN)
    case MakeReservation(client, _, _) => IsText(client, CLIENT_NAME_LEN)
    case CancelReservation(client, _, _) => IsText(client, CLIENT_NAME_LEN)
    case _ => true
  }

  /** Nothing longer than its field is ever stored, whatever packet arrives. */
  lemma DecodedFits(p: Packet)
    ensures Decode(p).Some? ==> RequestFits(Decode(p).value)
  {}

  // ---- Acknowledgements ----

  /** `get_error_code`. */
  function ErrorCode(error: ServerError): Char {
    match error
    case InvalidRequest => ERR_INVALID_PACKET
    case NoSuchElement => ERR_NO_SUCH_DATA
    case ConstraintViolation => ERR_CONSTRAINT_VIOLATION
    case _ => ERR_UNKNOWN
  }

  /** The packet of `client_send_ok` or `client_send_error`; `garbage` is what the
      uninitialised buffer of the latter held. */
  function AckPacket(garbage: Packet, reply: Reply): Packet
    requires reply.Ack? || reply.Error?
  {
    match reply
    case Ack => CLEARED[0 := OK]
    case Error(error) => garbage[0 := ERROR][1 := ErrorCode(error)]
  }

  datatype Response = SrvOk | ProtocolError | DbViolation | NoSuchData | Unknown

  /** `ntoh_error`. */
  function FromCode(code: Char): Response {
    if code == ERR_NO_SUCH_DATA then NoSuchData
    else if code == ERR_INVALID_PACKET then ProtocolError
    else if code == ERR_CONSTRAINT_VIOLATION then DbViolation
    else Unknown
  }

  /** `wait_ack` on the packet received. */
  function ReadAck(p: Packet): Response {
    if p[0] == OK then SrvOk else if p[0] == ERROR then FromCode(p[1]) else Unknown
  }

  /** The client's answer tells all kinds of reply apart. */
  lemma AckRoundTrip(garbage: Packet, reply: Reply)
    requires reply.Ack? || reply.Error?
    ensures var r := ReadAck(AckPacket(garbage, reply));
      && (r == SrvOk <==> reply == Ack)
      && (r == NoSuchData <==> reply == Error(NoSuchElement))
      && (r == DbViolation <==> reply == Error(ConstraintViolation))
      && (r == ProtocolError <==> reply == Error(InvalidRequest))
      && (r == Unknown <==> reply == Error(UnknownDbError) || reply == Error(OtherError))
  {}
}
