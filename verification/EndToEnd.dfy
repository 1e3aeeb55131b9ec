/** From the client's call to the client's answer, across both codecs and the handler. */
module EndToEnd {
  import opened CStrings
  import opened Database
  import opened Queries
  import opened Service
  import opened Packets
  import opened Items
  import opened Transfer
  import opened Marshalling
  import opened LinkedList
  import opened QueryData
  import opened Handlers
  import opened Server
  import opened ServerInvariant
  import opened Lock
  import ServerTheorems

  /** What a call of the client returns and does, when nobody else is served meanwhile.
      `stale` is what the client's buffer held, `garbage` what the server's reply buffer
      held. */
  datatype Served = Served(db: Tables, response: Response)

  predicate IsUpdateCall(call: Call) {
    call.SendMovie? || call.SendMovieDeletion? || call.SendScreening? || call.SendScreeningDeletion?
    || call.SendReservation? || call.SendCancellation?
  }

  function Serve(db: Tables, stale: Packet, garbage: Packet, call: Call): Served
    requires CallFits(call) && IsUpdateCall(call)
  {
    RequestRoundTrip(stale, call);
    var req := Decode(Encode(stale, call)).value;
    var h := Update(db, req);
    Served(h.db, ReadAck(AckPacket(garbage, h.reply)))
  }

  lemma ServeIs(db: Tables, stale: Packet, garbage: Packet, call: Call)
    requires CallFits(call) && IsUpdateCall(call)
    ensures var h := Update(db, Meaning(call));
      Serve(db, stale, garbage, call) == Served(h.db, ReadAck(AckPacket(garbage, h.reply)))
  {
    RequestRoundTrip(stale, call);
  }

  /** An answer other than OK means the tables are as before; whatever the answer, every
      constraint holds afterwards and what is stored still fits its packets. */
  lemma EveryAnswerIsHonest(db: Tables, stale: Packet, garbage: Packet, call: Call)
    requires Consistent(db) && RowsFit(db) && CallFits(call) && IsUpdateCall(call)
    ensures var r := Serve(db, stale, garbage, call);
      && (r.response != SrvOk ==> r.db == db)
      && r.response != ProtocolError
      && Consistent(r.db) && RowsFit(r.db)
  {
    hide Update, Consistent, RowsFit, Serve;
    ServeIs(db, stale, garbage, call);
    var req := Meaning(call);
    AckRoundTrip(garbage, Update(db, req).reply) by { ReplyKinds(db, req); }
    ReplyKinds(db, req);
    UpdateKeepsConsistent(db, req);
    RowsKeepFitting(db, req);
    if Update(db, req).reply != Ack {
      FailureChangesNothing(db, req);
    }
  }

  lemma ReplyKinds(db: Tables, req: Request)
    requires !IsQuery(req)
    ensures var reply := Update(db, req).reply;
      reply == Ack || (reply.Error? && reply.error in {NoSuchElement, ConstraintViolation, UnknownDbError})
  {}

  predicate IsInt(n: int) {
    0 - INT_MAX <= n + 1 && n <= INT_MAX
  }

  // ---- Each update call, exactly, in rows and columns ----

  /** `add_movie` returns SRV_OK and stores the film exactly when its name is free, else
      DB_VIOLATION. */
  lemma AddMovieExact(db: Tables, stale: Packet, garbage: Packet, name: Text, description: Text)
    requires Consistent(db) && IsText(name, 127) && IsText(description, 255)
    ensures var r := Serve(db, stale, garbage, SendMovie(name, description));
      var taken := exists m :: m in db.movies && m.name == name;
      && (r.response == SrvOk <==> !taken)
      && (r.response == DbViolation <==> taken)
      && r.db == if taken then db else db.(movies := db.movies + {Movie(name, description)})
  {
    hide Update, Consistent, Serve, Atoi, ReadAck, AckPacket;
    var call := SendMovie(name, description);
    ServeIs(db, stale, garbage, call);
    var req := AddMovie(name, description);
    assert Meaning(call) == req;
    ReplyKinds(db, req);
    AckRoundTrip(garbage, Update(db, req).reply);
    MovieAnswer(db, req);
    if Update(db, req).reply != Ack {
      FailureChangesNothing(db, req);
    }
  }

  /** `delete_movie` always returns SRV_OK. The film goes with its screenings and what hangs
      on them; everything else stays, the id marks included. */
  lemma DeleteMovieExact(db: Tables, stale: Packet, garbage: Packet, name: Text)
    requires Consistent(db) && IsText(name, 127)
    ensures var r := Serve(db, stale, garbage, SendMovieDeletion(name));
      && r.response == SrvOk
      && (forall m :: m in r.db.movies <==> m in db.movies && m.name != name)
      && (forall s :: s in r.db.screenings <==> s in db.screenings && s.movie != name)
      && (forall t :: t in r.db.reservations <==>
            t in db.reservations && exists s :: s in db.screenings && s.id == t.screening && s.movie != name)
      && (forall c :: c in r.db.cancelled <==>
            c in db.cancelled && exists s :: s in db.screenings && s.id == c.screening && s.movie != name)
      && r.db.lastScreening == db.lastScreening && r.db.lastCancelled == db.lastCancelled
  {
    hide Update, Consistent, Serve, Atoi, ReadAck, AckPacket;
    var call := SendMovieDeletion(name);
    ServeIs(db, stale, garbage, call);
    var req := DeleteMovie(name);
    assert Meaning(call) == req;
    ReplyKinds(db, req);
    AckRoundTrip(garbage, Update(db, req).reply);
    MovieDeleted(db, req);
    if Update(db, req).reply != Ack {
      FailureChangesNothing(db, req);
    }
  }

  /** `add_screening` returns NO_SUCH_DATA exactly when the film does not exist; else UNKNOWN
      exactly when the ids are used up; else SRV_OK exactly when day, month, slot and hall
      are possible and not all four the same as those of a stored screening; else
      DB_VIOLATION. */
  lemma AddScreeningExact(db: Tables, stale: Packet, garbage: Packet, movie: Text,
                          day: Char, month: Char, slot: Char, hall: Char)
    requires Consistent(db) && IsText(movie, 127)
    ensures var r := Serve(db, stale, garbage, SendScreening(movie, day, month, slot, hall));
      var known := exists m :: m in db.movies && m.name == movie;
      var possible := 1 <= day <= 31 && 1 <= month <= 12 && 1 <= slot && 1 <= hall;
      var occupied := exists t :: t in db.screenings
                        && t.day == day && t.month == month && t.slot == slot && t.hall == hall;
      var idsLeft := db.lastScreening < 0x7fff_ffff_ffff_ffff;
      && (r.response == NoSuchData <==> !known)
      && (r.response == Unknown <==> known && !idsLeft)
      && (r.response == SrvOk <==> known && idsLeft && possible && !occupied)
      && (r.response == DbViolation <==> known && idsLeft && (!possible || occupied))
      && (r.response != SrvOk ==> r.db == db)
      && (r.response == SrvOk ==>
            var id := db.lastScreening + 1;
            r.db == db.(screenings := db.screenings + {Screening(id, movie, day, month, slot, hall)},
                        lastScreening := id))
  {
    hide Update, Consistent, Serve, Atoi, ReadAck, AckPacket;
    var call := SendScreening(movie, day, month, slot, hall);
    ServeIs(db, stale, garbage, call);
    var req := AddScreening(movie, day, month, slot, hall);
    assert Meaning(call) == req;
    ReplyKinds(db, req);
    AckRoundTrip(garbage, Update(db, req).reply);
    ScreeningAnswer(db, req);
    if Update(db, req).reply != Ack {
      FailureChangesNothing(db, req);
    }
  }

  /** `delete_screening` returns SRV_OK exactly when the screening exists, else NO_SUCH_DATA.
      The screening goes with what hangs on it; everything else stays. */
  lemma DeleteScreeningExact(db: Tables, stale: Packet, garbage: Packet, text: Text)
    requires Consistent(db) && IsText(text, 29) && IsInt(Atoi(text))
    ensures var r := Serve(db, stale, garbage, SendScreeningDeletion(text));
      var id := Atoi(text);
      var known := exists s :: s in db.screenings && s.id == id;
      && (r.response == SrvOk <==> known)
      && (r.response == NoSuchData <==> !known)
      && r.db.movies == db.movies
      && (forall s :: s in r.db.screenings <==> s in db.screenings && s.id != id)
      && (forall t :: t in r.db.reservations <==> t in db.reservations && t.screening != id)
      && (forall c :: c in r.db.cancelled <==> c in db.cancelled && c.screening != id)
      && r.db.lastScreening == db.lastScreening && r.db.lastCancelled == db.lastCancelled
  {
    hide Update, Consistent, Serve, Atoi, ReadAck, AckPacket;
    var call := SendScreeningDeletion(text);
    ServeIs(db, stale, garbage, call);
    var req := DeleteScreening(text);
    assert Meaning(call) == req;
    ReplyKinds(db, req);
    AckRoundTrip(garbage, Update(db, req).reply);
    ScreeningDeleted(db, req);
    if Update(db, req).reply != Ack {
      FailureChangesNothing(db, req);
    }
  }

  /** `make_reservation` returns NO_SUCH_DATA exactly when the screening does not exist,
      DB_VIOLATION exactly when the seat is taken, else SRV_OK, and nothing else; with
      SRV_OK the row, absent before, is present after. */
  lemma MakeReservationExact(db: Tables, stale: Packet, garbage: Packet, text: Text, seat: Char, client: Text)
    requires Consistent(db) && IsText(text, 19) && IsInt(Atoi(text)) && IsText(client, 63)
    ensures var r := Serve(db, stale, garbage, SendReservation(seat, text, client));
      var id := Atoi(text);
      var row := Reservation(client, id, seat);
      && (r.response == SrvOk <==> row !in db.reservations && row in r.db.reservations)
      && (r.response == NoSuchData <==> !exists s :: s in db.screenings && s.id == id)
      && (r.response == DbViolation <==> exists q :: q in db.reservations && q.screening == id && q.seat == seat)
      && (r.response == SrvOk || r.response == NoSuchData || r.response == DbViolation)
      && (r.response == SrvOk ==> r.db == db.(reservations := db.reservations + {row}))
      && (r.response != SrvOk ==> r.db == db)
  {
    hide Update, Consistent, Serve, Atoi, ReadAck, AckPacket;
    var call := SendReservation(seat, text, client);
    ServeIs(db, stale, garbage, call);
    var req := MakeReservation(client, Atoi(text), seat);
    assert Meaning(call) == req;
    ReplyKinds(db, req);
    AckRoundTrip(garbage, Update(db, req).reply);
    ReservationAnswer(db, req);
    if Update(db, req).reply != Ack {
      FailureChangesNothing(db, req);
    }
  }

  /** `cancel_reservation`, although its buffer is not cleared, returns SRV_OK exactly when
      the row was there and moved, NO_SUCH_DATA exactly when it was not there, UNKNOWN
      exactly when the ids are used up, and never DB_VIOLATION. */
  lemma CancelReservationExact(db: Tables, stale: Packet, garbage: Packet, text: Text, seat: Char, client: Text)
    requires Consistent(db) && IsText(text, 19) && IsInt(Atoi(text)) && IsText(client, 63)
    ensures var r := Serve(db, stale, garbage, SendCancellation(seat, text, client));
      var id := Atoi(text);
      var row := Reservation(client, id, seat);
      var moved := Cancellation(db.lastCancelled + 1, client, id, seat);
      var idsLeft := db.lastCancelled < 0x7fff_ffff_ffff_ffff;
      && (r.response == SrvOk <==> row in db.reservations && idsLeft)
      && (r.response == NoSuchData <==> row !in db.reservations)
      && (r.response == Unknown <==> row in db.reservations && !idsLeft)
      && r.response != DbViolation
      && (r.response == SrvOk ==>
            r.db == db.(reservations := db.reservations - {row},
                        cancelled := db.cancelled + {moved}, lastCancelled := moved.id))
      && (r.response != SrvOk ==> r.db == db)
  {
    hide Update, Consistent, Serve, Atoi, ReadAck, AckPacket;
    var call := SendCancellation(seat, text, client);
    ServeIs(db, stale, garbage, call);
    var req := CancelReservation(client, Atoi(text), seat);
    assert Meaning(call) == req;
    ReplyKinds(db, req);
    AckRoundTrip(garbage, Update(db, req).reply);
    CancellationAnswer(db, req);
    if Update(db, req).reply != Ack {
      FailureChangesNothing(db, req);
    }
  }

  /** In a run of the concurrent server, the answer a client gets to an update call is the
      one the call has on its own at its place in the order. */
  lemma ConcurrentAnswer(s: Sys, db0: Tables, stale: Packet, garbage: Packet, call: Call, i: nat, reply: Reply)
    returns (k: nat)
    requires ServerTheorems.Reached(s, db0) && Consistent(db0) && CallFits(call) && IsUpdateCall(call)
    requires Invoke(i, Meaning(call)) in s.hist && Respond(i, reply) in s.hist
    ensures k < |s.lin| && s.lin[k] == Op(i, Meaning(call), reply) && Consistent(Replay(db0, s.lin[..k]))
    ensures reply.Ack? || reply.Error?
    ensures ReadAck(AckPacket(garbage, reply)) == Serve(Replay(db0, s.lin[..k]), stale, garbage, call).response
  {
    hide ServerTheorems.Reached, Consistent, Replay, Update, Serve;
    k := ServerTheorems.AnswerHasItsPlace(s, db0, i, Meaning(call), reply);
    ServeIs(Replay(db0, s.lin[..k]), stale, garbage, call);
    ReplyKinds(Replay(db0, s.lin[..k]), Meaning(call));
  }

  // ---- Lists ----

  /** The two loops have a conversation, and in each one the client ends up with `items`. */
  ghost predicate EndsWith(kind: Kind, items: seq<Item>, request: Packet)
    requires AllFit(items)
  {
    && (exists fromServer, fromClient :: Conversation(kind, items, request, fromServer, fromClient))
    && forall fromServer, fromClient | Conversation(kind, items, request, fromServer, fromClient) ::
      var o := Digested(kind, Client(request, AwaitBegin, []), Arriving(fromServer));
      o.alive && o.client.got == items
  }

  lemma ListArrives(kind: Kind, items: seq<Item>, request: Packet)
    requires AllFit(items) && forall item | item in items :: KindOf(item) == kind
    ensures EndsWith(kind, items, request)
  {
    hide Conversation, Digested;
    var s, c := ConversationExists(kind, items, request);
    forall fromServer, fromClient | Conversation(kind, items, request, fromServer, fromClient)
      ensures var o := Digested(kind, Client(request, AwaitBegin, []), Arriving(fromServer));
        o.alive && o.client.got == items
    {
      ConversationIsExact(kind, items, request, fromServer, fromClient);
    }
  }

  lemma ScreeningItemsFit(db: Tables, movie: Text, rows: seq<Screening>)
    requires Consistent(db) && RowsFit(db) && ScreeningList(db, movie, rows)
    ensures AllFit(ScreeningItems(rows)) && forall item | item in ScreeningItems(rows) :: KindOf(item) == OfScreening
  {
    hide Consistent, RowsFit, ItemFits;
    forall item | item in ScreeningItems(rows) ensures ItemFits(item) {
      var i :| 0 <= i < |rows| && ScreeningItems(rows)[i] == item;
      assert rows[i] in rows;
      StoredRowsMakeItems(db, rows[i]);
    }
  }

  lemma TicketItemsFit(db: Tables, client: Text, cancelled: bool, rows: seq<Ticket>)
    requires Consistent(db) && RowsFit(db) && TicketList(db, client, cancelled, rows)
    ensures AllFit(TicketItems(rows)) && forall item | item in TicketItems(rows) :: KindOf(item) == OfTicket
  {
    hide Consistent, ItemFits;
    var order :| Lists(order, Joined(db, Entries(db, client, cancelled)), EntryKey(db))
      && |rows| == |order| && forall i | 0 <= i < |rows| :: TicketOf(db, rows[i], order[i]);
    forall item | item in TicketItems(rows) ensures ItemFits(item) {
      var i :| 0 <= i < |rows| && TicketItems(rows)[i] == item;
      assert order[i] in order && TicketOf(db, rows[i], order[i]);
      StoredRowsMakeItems(db, rows[i].screening);
      assert rows[i] == Ticket(rows[i].seat, rows[i].screening);
    }
  }

  lemma MovieItemsFit(db: Tables, rows: seq<Movie>)
    requires RowsFit(db) && MovieList(db, rows)
    ensures AllFit(MovieItems(rows)) && forall item | item in MovieItems(rows) :: KindOf(item) == OfMovie
  {
    forall item | item in MovieItems(rows) ensures ItemFits(item) {
      var i :| 0 <= i < |rows| && MovieItems(rows)[i] == item;
      assert rows[i] in rows;
    }
  }

  /** `get_screenings` of the server, given the rows its query delivers: whatever the
      peer answers, it sends the transfer of exactly these rows. */
  method GetScreenings(con: Connection, ghost db: Tables, ghost movie: Text,
                       result: seq<Row>, ghost rows: seq<Screening>)
    requires Consistent(db) && RowsFit(db) && ScreeningList(db, movie, rows)
    requires |result| == |rows| && forall i | 0 <= i < |rows| :: result[i] == ScreeningRow(rows[i])
    modifies con
    ensures AllFit(ScreeningItems(rows))
    ensures con.sent
      == old(con.sent) + [Opening(|rows|)] + Trace(Opening(|rows|), ScreeningItems(rows), old(con.incoming))
    ensures con.receives <= old(con.receives) + |rows| + 1
  {
    hide Consistent, RowsFit, ScreeningList, Trace, List.Valid, List.Contents;
    ScreeningItemsFit(db, movie, rows);
    var list := ScreeningListFor(result, rows);
    SendList(con, list);
  }

  /** `get_movies` of the server. */
  method GetMovies(con: Connection, ghost db: Tables, result: seq<Row>, ghost rows: seq<Movie>)
    requires RowsFit(db) && MovieList(db, rows)
    requires |result| == |rows| && forall i | 0 <= i < |rows| :: result[i] == MovieRow(rows[i])
    modifies con
    ensures AllFit(MovieItems(rows))
    ensures con.sent == old(con.sent) + [Opening(|rows|)] + Trace(Opening(|rows|), MovieItems(rows), old(con.incoming))
    ensures con.receives <= old(con.receives) + |rows| + 1
  {
    hide RowsFit, MovieList, Trace, List.Valid, List.Contents;
    MovieItemsFit(db, rows);
    var list := MovieListFor(result, rows);
    SendList(con, list);
  }

  /** `get_reservations` of the server. */
  method GetReservations(con: Connection, ghost db: Tables, ghost client: Text, ghost cancelled: bool,
                         result: seq<Row>, ghost rows: seq<Ticket>)
    requires Consistent(db) && RowsFit(db) && TicketList(db, client, cancelled, rows)
    requires |result| == |rows| && forall i | 0 <= i < |rows| :: result[i] == TicketRow(rows[i])
    modifies con
    ensures AllFit(TicketItems(rows))
    ensures con.sent == old(con.sent) + [Opening(|rows|)] + Trace(Opening(|rows|), TicketItems(rows), old(con.incoming))
    ensures con.receives <= old(con.receives) + |rows| + 1
  {
    hide Consistent, RowsFit, TicketList, Trace, List.Valid, List.Contents;
    TicketItemsFit(db, client, cancelled, rows);
    var list := TicketListFor(result, rows);
    SendList(con, list);
  }

  // ---- From the client's question to the client's list, in rows and columns ----

  /** `reply` is what the server may answer to the packet of `call`. */
  ghost predicate Asked(db: Tables, stale: Packet, call: Call, reply: Reply)
    requires CallFits(call)
  {
    var req := Decode(Encode(stale, call));
    req.Some? && Serves(db, req.value, reply)
  }

  lemma AskedMeans(db: Tables, stale: Packet, call: Call, reply: Reply)
    requires CallFits(call)
    ensures Asked(db, stale, call, reply) <==> Serves(db, Meaning(call), reply)
  {
    hide Serves;
    RequestRoundTrip(stale, call);
  }

  lemma ScreeningFields(db: Tables, s: Screening)
    requires Consistent(db) && RowsFit(db) && s in db.screenings
    ensures var item := ScreeningRowItem(s);
      && item.ScreeningItem?
      && Screening(Atoi(item.id), s.movie, item.day, item.month, item.slot, item.hall) == s
  {
    StoredRowsMakeItems(db, s);
    AtoiOfDecimal(s.id);
  }

  lemma TicketFields(db: Tables, t: Ticket)
    requires Consistent(db) && RowsFit(db) && t.screening in db.screenings
    ensures var item := TicketRowItem(t);
      && item.TicketItem? && item.seat == t.seat
      && Screening(Atoi(item.id), item.movie, item.day, item.month, item.slot, item.hall) == t.screening
  {
    StoredRowsMakeItems(db, t.screening);
    AtoiOfDecimal(t.screening.id);
  }

  /** The screening list a client ends up with, whichever answer the database gave and
      whatever its buffer held: one item for each of the movie's screenings and no other,
      with its id, day, month, slot and hall, strictly by month, then day, then slot, then
      hall. There is only one such answer. */
  lemma ClientScreeningList(db: Tables, stale: Packet, movie: Text, reply: Reply) returns (got: seq<Item>)
    requires Consistent(db) && RowsFit(db) && IsText(movie, 127)
    requires Asked(db, stale, AskScreenings(movie), reply)
    ensures reply.Screenings? && got == ScreeningItems(reply.screenings) && AllFit(got)
    ensures EndsWith(OfScreening, got, Encode(stale, AskScreenings(movie)))
    ensures forall g | g in got ::
      g.ScreeningItem? && Screening(Atoi(g.id), movie, g.day, g.month, g.slot, g.hall) in db.screenings
    ensures forall s | s in db.screenings && s.movie == movie ::
      exists g :: g in got && g == ScreeningItem(g.id, s.day, s.month, s.slot, s.hall) && Atoi(g.id) == s.id
    ensures forall i, j | 0 <= i < j < |got| :: var g, h := got[i], got[j];
      && g.month <= h.month
      && (g.month == h.month ==> g.day <= h.day)
      && (g.month == h.month && g.day == h.day ==> g.slot <= h.slot)
      && (g.month == h.month && g.day == h.day && g.slot == h.slot ==> g.hall < h.hall)
    ensures forall other | Asked(db, stale, AskScreenings(movie), other) :: other == reply
  {
    hide Consistent, RowsFit, EndsWith, Serves, Asked, Encode, ScreeningRowItem, Atoi;
    AskedMeans(db, stale, AskScreenings(movie), reply);
    ScreeningsAnswer(db, movie, reply);
    var rows := reply.screenings;
    got := ScreeningItems(rows);
    ScreeningListFits(db, movie, reply);
    ListArrives(OfScreening, got, Encode(stale, AskScreenings(movie)));
    forall i | 0 <= i < |rows|
      ensures got[i].ScreeningItem?
        && Screening(Atoi(got[i].id), movie, got[i].day, got[i].month, got[i].slot, got[i].hall) == rows[i]
    {
      assert rows[i] in rows;
      ScreeningFields(db, rows[i]);
    }
    forall s | s in db.screenings && s.movie == movie
      ensures exists g :: g in got && g == ScreeningItem(g.id, s.day, s.month, s.slot, s.hall) && Atoi(g.id) == s.id
    {
      var i :| 0 <= i < |rows| && rows[i] == s;
      assert got[i] in got;
    }
    forall other | Asked(db, stale, AskScreenings(movie), other) ensures other == reply {
      AskedMeans(db, stale, AskScreenings(movie), other);
      OneScreeningsAnswer(db, movie, reply, other);
    }
  }

  lemma ScreeningListFits(db: Tables, movie: Text, reply: Reply)
    requires Consistent(db) && RowsFit(db) && Serves(db, ListScreenings(movie), reply)
    ensures AllFit(ScreeningItems(reply.screenings))
    ensures forall item | item in ScreeningItems(reply.screenings) :: KindOf(item) == OfScreening
  {
    hide Consistent, RowsFit, ScreeningList;
    ScreeningItemsFit(db, movie, reply.screenings);
  }

  lemma OneScreeningsAnswer(db: Tables, movie: Text, a: Reply, b: Reply)
    requires Consistent(db) && Serves(db, ListScreenings(movie), a) && Serves(db, ListScreenings(movie), b)
    ensures a == b
  {
    hide Consistent, ScreeningList;
    ScreeningListUnique(db, movie, a.screenings, b.screenings);
  }

  /** The film list a client ends up with: one item for each film and no other, with its
      name and description. */
  lemma ClientMovieList(db: Tables, stale: Packet, reply: Reply) returns (got: seq<Item>)
    requires RowsFit(db) && Asked(db, stale, AskMovies, reply)
    ensures reply.Movies? && got == MovieItems(reply.movies) && AllFit(got)
    ensures EndsWith(OfMovie, got, Encode(stale, AskMovies))
    ensures forall g :: g in got <==> g.MovieItem? && Movie(g.name, g.description) in db.movies
    ensures forall i, j | 0 <= i < j < |got| :: got[i] != got[j]
  {
    hide RowsFit, EndsWith, Serves, Asked, Encode;
    AskedMeans(db, stale, AskMovies, reply);
    MoviesAnswer(db, reply);
    got := MovieItems(reply.movies);
    MovieListFits(db, reply);
    ListArrives(OfMovie, got, Encode(stale, AskMovies));
    forall g ensures g in got <==> g.MovieItem? && Movie(g.name, g.description) in db.movies {
      if i :| 0 <= i < |got| && got[i] == g {
        assert reply.movies[i] in reply.movies;
      }
      if g.MovieItem? && Movie(g.name, g.description) in db.movies {
        var i :| 0 <= i < |got| && reply.movies[i] == Movie(g.name, g.description);
        assert got[i] in got;
      }
    }
  }

  lemma MovieListFits(db: Tables, reply: Reply)
    requires RowsFit(db) && Serves(db, ListMovies, reply)
    ensures AllFit(MovieItems(reply.movies))
    ensures forall item | item in MovieItems(reply.movies) :: KindOf(item) == OfMovie
  {
    hide RowsFit, MovieList;
    MovieItemsFit(db, reply.movies);
  }

  /** The active tickets a client ends up with: one item for each of its reservations and no
      other, with the seat and what is stored of the screening, by the screening's date. */
  lemma ClientTicketList(db: Tables, stale: Packet, client: Text, reply: Reply) returns (got: seq<Item>)
    requires Consistent(db) && RowsFit(db) && IsText(client, 63)
    requires Asked(db, stale, AskTickets(client, 0), reply)
    ensures reply.Tickets? && got == TicketItems(reply.tickets) && AllFit(got)
    ensures EndsWith(OfTicket, got, Encode(stale, AskTickets(client, 0)))
    ensures forall g | g in got ::
      && g.TicketItem?
      && Screening(Atoi(g.id), g.movie, g.day, g.month, g.slot, g.hall) in db.screenings
      && Reservation(client, Atoi(g.id), g.seat) in db.reservations
    ensures forall r | r in db.reservations && r.client == client ::
      exists g :: g in got && g.TicketItem? && Atoi(g.id) == r.screening && g.seat == r.seat
    ensures forall i, j | 0 <= i < j < |got| :: !(Atoi(got[i].id) == Atoi(got[j].id) && got[i].seat == got[j].seat)
    ensures forall i, j | 0 <= i < j < |got| :: var g, h := got[i], got[j];
      && g.month <= h.month
      && (g.month == h.month ==> g.day <= h.day)
      && (g.month == h.month && g.day == h.day ==> g.slot <= h.slot)
      && (g.month == h.month && g.day == h.day && g.slot == h.slot ==> g.hall <= h.hall)
  {
    hide RowsFit, EndsWith, Serves, Asked, Encode, TicketRowItem, Atoi;
    AskedMeans(db, stale, AskTickets(client, 0), reply);
    ReservationsAnswer(db, client, reply);
    var rows := reply.tickets;
    got := TicketItems(rows);
    TicketListFits(db, client, false, reply);
    ListArrives(OfTicket, got, Encode(stale, AskTickets(client, 0)));
    TicketItemsRead(db, rows);
    forall r | r in db.reservations && r.client == client
      ensures exists g :: g in got && g.TicketItem? && Atoi(g.id) == r.screening && g.seat == r.seat
    {
      var s :| s in db.screenings && s.id == r.screening;
      assert Ticket(r.seat, s) in rows;
      var i :| 0 <= i < |rows| && rows[i] == Ticket(r.seat, s);
      assert got[i] in got;
    }
    forall i, j | 0 <= i < j < |got|
      ensures !(Atoi(got[i].id) == Atoi(got[j].id) && got[i].seat == got[j].seat)
    {
      assert rows[i] in rows && rows[j] in rows && rows[i] != rows[j];
    }
  }

  /** The cancelled tickets a client ends up with: item by item those of the answer, with the
      seat and what is stored of the screening; each ticket as often as the client cancelled
      it, by the screening's date. */
  lemma ClientCancelledList(db: Tables, stale: Packet, client: Text, which: Char, reply: Reply) returns (got: seq<Item>)
    requires Consistent(db) && RowsFit(db) && IsText(client, 63) && which != 0
    requires Asked(db, stale, AskTickets(client, which), reply)
    ensures reply.Tickets? && got == TicketItems(reply.tickets) && AllFit(got)
    ensures EndsWith(OfTicket, got, Encode(stale, AskTickets(client, which)))
    ensures forall i | 0 <= i < |got| :: var g, t := got[i], reply.tickets[i];
      && g.TicketItem? && g.seat == t.seat
      && Screening(Atoi(g.id), g.movie, g.day, g.month, g.slot, g.hall) == t.screening
    ensures forall t: Ticket ::
      multiset(reply.tickets)[t] == if t.screening !in db.screenings then 0 else
        |set c | c in db.cancelled && c.client == client && c.screening == t.screening.id && c.seat == t.seat|
    ensures |got| == |set c | c in db.cancelled && c.client == client|
    ensures forall i, j | 0 <= i < j < |got| :: var g, h := got[i], got[j];
      && g.month <= h.month
      && (g.month == h.month ==> g.day <= h.day)
      && (g.month == h.month && g.day == h.day ==> g.slot <= h.slot)
      && (g.month == h.month && g.day == h.day && g.slot == h.slot ==> g.hall <= h.hall)
  {
    hide RowsFit, Consistent, EndsWith, Serves, Asked, Encode, TicketRowItem, Atoi;
    AskedMeans(db, stale, AskTickets(client, which), reply);
    CancelledAnswer(db, client, reply);
    CancelledAnswerLength(db, client, reply);
    var rows := reply.tickets;
    got := TicketItems(rows);
    forall i | 0 <= i < |rows| ensures rows[i].screening in db.screenings {
      assert rows[i] in rows && multiset(rows)[rows[i]] > 0;
    }
    TicketListFits(db, client, true, reply);
    ListArrives(OfTicket, got, Encode(stale, AskTickets(client, which)));
    TicketItemsRead(db, rows);
  }

  lemma TicketListFits(db: Tables, client: Text, cancelled: bool, reply: Reply)
    requires Consistent(db) && RowsFit(db)
    requires Serves(db, if cancelled then ListCancelled(client) else ListReservations(client), reply)
    ensures AllFit(TicketItems(reply.tickets))
    ensures forall item | item in TicketItems(reply.tickets) :: KindOf(item) == OfTicket
  {
    hide Consistent, RowsFit, TicketList;
    TicketItemsFit(db, client, cancelled, reply.tickets);
  }

  lemma TicketItemsRead(db: Tables, rows: seq<Ticket>)
    requires Consistent(db) && RowsFit(db) && forall i | 0 <= i < |rows| :: rows[i].screening in db.screenings
    ensures forall i | 0 <= i < |rows| :: var g := TicketItems(rows)[i];
      && g.TicketItem? && g.seat == rows[i].seat
      && Screening(Atoi(g.id), g.movie, g.day, g.month, g.slot, g.hall) == rows[i].screening
  {
    hide Consistent, RowsFit, TicketRowItem, Atoi;
    forall i | 0 <= i < |rows| ensures var g := TicketItems(rows)[i];
      && g.TicketItem? && g.seat == rows[i].seat
      && Screening(Atoi(g.id), g.movie, g.day, g.month, g.slot, g.hall) == rows[i].screening
    {
      TicketFields(db, rows[i]);
    }
  }

  /** The seat map asked for by any id text. */
  lemma SeatsAsked(db: Tables, stale: Packet, text: Text, reply: Reply)
    requires IsText(text, 29)
    ensures Asked(db, stale, AskSeats(text), reply) <==>
      && reply.Seats? && |reply.seats| == 300
      && (forall i | 0 <= i < 300 :: reply.seats[i] == 0 || reply.seats[i] == 1)
      && forall i | 0 <= i < 300 ::
        reply.seats[i] == 1 <==> exists r :: r in db.reservations && r.screening == Atoi(text) && r.seat == i
  {
    hide Serves, Asked, Atoi;
    AskedMeans(db, stale, AskSeats(text), reply);
    SeatsAnswer(db, text, reply);
  }

  // ---- Transfers in the concurrent server ----

  /** A list reply opens a transfer with as many items left as the client is to get; any
      other reply is sent at once. */
  lemma TransferOpens(s: Sys, s': Sys, t: Thread)
    requires Replies(s, s', t)
    ensures t in s'.jobs && s'.jobs[t].Job?
    ensures var reply := s.jobs[t].phase.reply;
      s'.jobs[t].phase == match reply
        case Screenings(rows) => Sending(reply, |ScreeningItems(rows)|)
        case Movies(rows) => Sending(reply, |MovieItems(rows)|)
        case Tickets(rows) => Sending(reply, |TicketItems(rows)|)
        case _ => Answered(reply)
  {}

  /** A step of a transfer in the concurrent server is what the server's loop does with
      the same receive: it goes on with the same items left, or both send their last
      packet. The buffer never holds a NEXT when the next receive begins. */
  lemma ExchangeIsReaction(s: Sys, s': Sys, t: Thread, r: Received, buf: Packet, rest: seq<Item>)
    requires Exchanges(s, s', t, r) && s.jobs[t].phase.left == |rest|
    requires AllFit(rest) && buf[0] != TRANSACTION_NEXT
    ensures var a := React(Refilled(buf, r), rest);
      && a.packet[0] != TRANSACTION_NEXT
      && t in s'.jobs && s'.jobs[t].Job?
      && s'.jobs[t].phase == if a.done then Answered(s.jobs[t].phase.reply)
                             else Sending(s.jobs[t].phase.reply, |a.rest|)
  {
    hide EncodeItem;
    if rest != [] {
      ItemRoundTrip(Refilled(buf, r), rest[0]);
    }
  }

  /** Stored rows stay within their packets over any history of decoded requests. */
  lemma {:induction false} ReplayFits(db: Tables, ops: seq<Op>)
    requires RowsFit(db) && forall op | op in ops :: RequestFits(op.req)
    ensures RowsFit(Replay(db, ops))
  {
    hide RowsFit, RequestFits;
    if ops == [] {
    } else {
      var front := ops[..|ops| - 1];
      assert ops[|ops| - 1] in ops;
      ReplayFits(db, front);
      RowsKeepFitting(Replay(db, front), ops[|ops| - 1].req);
    }
  }

  lemma FirstFits(db: Tables, req: Request)
    requires RowsFit(db) && RequestFits(req) && !IsQuery(req)
    ensures RowsFit(First(db, req).db)
  {}

  /** In every run of the concurrent server whose requests came out of the decoder, what
      is stored fits its packets, so every list can be transferred. */
  lemma RunsStoreOnlyWhatFits(s: Sys, db0: Tables)
    requires ServerTheorems.Reached(s, db0) && RowsFit(db0)
    requires forall e | e in s.hist && e.Invoke? :: RequestFits(e.req)
    ensures RowsFit(s.db)
  {
    hide RowsFit, RequestFits, ServerTheorems.Reached, LockInvariant.Inv, HistoryFit, Replay, First, Check;
    ServerTheorems.ReachedInv(s, db0);
    forall op | op in s.lin ensures RequestFits(op.req) {
      assert Invoke(op.id, op.req) in s.hist;
    }
    ReplayFits(db0, s.lin);
    if t :| t in s.jobs && s.jobs[t].Job? && s.jobs[t].phase.HalfDone? {
      assert JobFits(s.lock.pc[t], s.jobs[t]) && Invoke(s.jobs[t].id, s.jobs[t].req) in s.hist;
      FirstFits(Replay(db0, s.lin), s.jobs[t].req);
    }
  }

  /** From an empty database, in every run on decoded requests, every stored row makes an
      item that fits its packet. */
  lemma EveryRowCanBeSent(s: Sys)
    requires ServerTheorems.Reached(s, EMPTY)
    requires forall e | e in s.hist && e.Invoke? :: RequestFits(e.req)
    ensures forall r | r in s.db.screenings :: ItemFits(ScreeningRowItem(r))
    ensures forall m | m in s.db.movies :: ItemFits(MovieRowItem(m))
    ensures forall r, t | r in s.db.reservations && t in s.db.screenings && t.id == r.screening ::
      ItemFits(TicketRowItem(Ticket(r.seat, t)))
    ensures forall r, t | r in s.db.cancelled && t in s.db.screenings && t.id == r.screening ::
      ItemFits(TicketRowItem(Ticket(r.seat, t)))
  {
    hide ServerTheorems.Reached, Consistent, ItemFits;
    EmptyFits();
    EmptyConsistent();
    RunsStoreOnlyWhatFits(s, EMPTY);
    ServerTheorems.TablesStayConsistent(s, EMPTY);
    forall t | t in s.db.screenings
      ensures ItemFits(ScreeningRowItem(t))
      ensures forall seat | -128 <= seat < 128 :: ItemFits(TicketRowItem(Ticket(seat, t)))
    {
      StoredRowsMakeItems(s.db, t);
    }
    forall m | m in s.db.movies ensures ItemFits(MovieRowItem(m)) {
      MovieFits(m);
    }
  }

  lemma MovieFits(m: Movie)
    requires IsText(m.name, MOVIE_NAME_LEN) && IsText(m.description, DESCRIPTION_LEN)
    ensures ItemFits(MovieRowItem(m))
  {}

  // ---- The hall ----

  /** `send_seating_info`, given the seats its query delivers: every byte of the reply says
      whether that seat is reserved. */
  method SendSeatingInfo(con: Connection, ghost db: Tables, ghost id: int, result: seq<Row>, ghost taken: seq<int>)
    returns (ghost p: Packet)
    requires |result| == |taken|
    requires forall i | 0 <= i < |taken| :: result[i] == [Field(taken[i])] && 0 <= taken[i] < MAX_SEATS
    requires forall seat :: seat in taken <==> SeatTaken(db, id, seat)
    modifies con
    ensures con.sent == old(con.sent) + [p] && p[0] == OK
    ensures SeatMap(db, id, p[1..1 + MAX_SEATS])
  {
    hide SeatTaken;
    var seats := MarkSeats(result, taken);
    p := SendSeats(con, seats);
    assert forall i | 0 <= i < MAX_SEATS :: p[1..1 + MAX_SEATS][i] == seats[..][i];
  }

  /** `get_hall` against `send_seating_info`: the client gets a hall, and a seat shows as
      taken there exactly when it is reserved. */
  method ClientHall(server: Connection, ghost db: Tables, ghost id: int, result: seq<Row>, ghost taken: seq<int>)
    returns (seats: Option<seq<Char>>)
    requires |result| == |taken|
    requires forall i | 0 <= i < |taken| :: result[i] == [Field(taken[i])] && 0 <= taken[i] < MAX_SEATS
    requires forall seat :: seat in taken <==> SeatTaken(db, id, seat)
    modifies server
    ensures seats.Some? && |seats.value| == 64
    ensures forall i | 0 <= i < 64 ::
      seats.value[i] == 1 <==> exists r :: r in db.reservations && r.screening == id && r.seat == i
  {
    ghost var p := SendSeatingInfo(server, db, id, result, taken);
    var client := new Connection([Arrived(server.sent[|server.sent| - 1])]);
    var buf := new Char[PACKET_LENGTH](i => 0);
    var alive := client.Receive(buf);
    assert buf[..] == buf[..PACKET_LENGTH] == p;
    seats := ReadHall(buf);
    assert forall i | 0 <= i < HALL_SEATS :: seats.value[i] == p[1..1 + MAX_SEATS][i];
  }
}
