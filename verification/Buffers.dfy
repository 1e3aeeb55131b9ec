/** Buffers rewritten in place: the string functions, the client's request encoders, the
    server's request builders and item encoders. */
module Buffers {
  import opened CStrings
  import opened Service
  import opened Packets
  import opened Items

  /** `strlen(&buf[at])`. It never looks beyond the first NUL. */
  method StrLen(buf: array<Char>, at: nat) returns (n: nat)
    requires at < buf.Length && exists k :: at <= k < buf.Length && buf[k] == 0
    ensures at + n < buf.Length && at + n == End(buf[..], at)
  {
    n := 0;
    while buf[at + n] != 0
      invariant at + n < buf.Length
      invariant forall k | at <= k < at + n :: buf[k] != 0
      decreases buf.Length - n
    {
      n := n + 1;
    }
    EndUnique(buf[..], at, at + n);
  }

  /** `strcpy(&buf[at], s)`. */
  method StrCpy(buf: array<Char>, at: nat, s: Text)
    requires at + |s| < buf.Length
    modifies buf
    ensures buf[..] == Put(old(buf[..]), at, s)
  {
    forall k | 0 <= k < |s| {
      buf[at + k] := s[k];
    }
    buf[at + |s|] := 0;
    ghost var was := old(buf[..]);
    assert forall k | 0 <= k < buf.Length :: buf[..][k] == Put(was, at, s)[k];
  }

  /** `clear_buffer`. */
  method Clear(buf: array<Char>)
    requires buf.Length == PACKET_LENGTH
    modifies buf
    ensures buf[..] == CLEARED
  {
    forall k | 0 <= k < buf.Length {
      buf[k] := 0;
    }
  }

  /** Reading the string at `at` out of the buffer. */
  method ReadString(buf: array<Char>, at: nat) returns (s: Text)
    requires at < buf.Length && exists k :: at <= k < buf.Length && buf[k] == 0
    ensures s == StringAt(buf[..], at)
  {
    var n := StrLen(buf, at);
    s := buf[at..at + n];
  }

  // ---- Client: writing requests ----

  /** `fill_reservation_data`. The second string goes where the first one is found to end. */
  method FillReservationData(buf: array<Char>, seat: Char, id: Text, client: Text)
    requires buf.Length == PACKET_LENGTH && IsText(id, ID_LEN - 1) && IsText(client, CLIENT_NAME_LEN)
    modifies buf
    ensures buf[..] == PutReservation(old(buf[..]), seat, id, client)
  {
    buf[1] := seat;
    assert buf[..] == old(buf[..])[1 := seat];
    StrCpy(buf, 2, id);
    assert buf[..][2 + |id|] == 0;
    ReadBack(buf[..], 2, id);
    var len := StrLen(buf, 2);
    StrCpy(buf, 2 + len + 1, client);
  }

  /** Every request function of the client, up to sending the buffer. */
  method WriteCall(buf: array<Char>, call: Call)
    requires buf.Length == PACKET_LENGTH && CallFits(call)
    modifies buf
    ensures buf[..] == Encode(old(buf[..]), call)
  {
    match call
    case SendMovie(name, description) =>
      Clear(buf);
      buf[0] := MOVIE_ADD;
      assert buf[..] == CLEARED[0 := MOVIE_ADD];
      StrCpy(buf, 1, name);
      StrCpy(buf, 1 + |name| + 1, description);
    case SendMovieDeletion(name) =>
      Clear(buf);
      buf[0] := MOVIE_DELETE;
      assert buf[..] == CLEARED[0 := MOVIE_DELETE];
      StrCpy(buf, 1, name);
    case SendScreening(movie, day, month, slot, hall) =>
      Clear(buf);
      buf[0], buf[1], buf[2], buf[3], buf[4] := SCREENING_ADD, day, month, slot, hall;
      assert buf[..] == CLEARED[0 := SCREENING_ADD][1 := day][2 := month][3 := slot][4 := hall];
      StrCpy(buf, 5, movie);
    case SendScreeningDeletion(id) =>
      Clear(buf);
      buf[0] := SCREENING_DELETE;
      assert buf[..] == CLEARED[0 := SCREENING_DELETE];
      StrCpy(buf, 1, id);
    case SendReservation(seat, id, client) =>
      Clear(buf);
      buf[0] := MAKE_RESERVATION;
      assert buf[..] == CLEARED[0 := MAKE_RESERVATION];
      FillReservationData(buf, seat, id, client);
    case SendCancellation(seat, id, client) =>
      buf[0] := CANCEL_RESERVATION;
      assert buf[..] == old(buf[..])[0 := CANCEL_RESERVATION];
      FillReservationData(buf, seat, id, client);
    case AskTickets(client, cancelled) =>
      buf[0], buf[1] := RESERVATION_LIST, cancelled;
      assert buf[..] == old(buf[..])[0 := RESERVATION_LIST][1 := cancelled];
      StrCpy(buf, 2, client);
    case AskScreenings(movie) =>
      Clear(buf);
      buf[0] := MOVIE_SCREENINGS;
      assert buf[..] == CLEARED[0 := MOVIE_SCREENINGS];
      StrCpy(buf, 1, movie);
    case AskMovies =>
      Clear(buf);
      buf[0] := MOVIE_LIST;
      assert buf[..] == CLEARED[0 := MOVIE_LIST];
    case AskSeats(id) =>
      buf[0] := SEATING_INFO;
      assert buf[..] == old(buf[..])[0 := SEATING_INFO];
      StrCpy(buf, 1, id);
  }

  // ---- Server: building requests ----

  /** The server's receive buffer: a packet and the zero barrier behind it. */
  ghost predicate Barred(buf: array<Char>)
    reads buf
  {
    buf.Length == PACKET_LENGTH + 1 && buf[PACKET_LENGTH] == 0
  }

  method ReqMovieAdd(buf: array<Char>) returns (req: Option<Request>)
    requires Barred(buf)
    ensures req == DecodeMovie(buf[..])
  {
    var len := StrLen(buf, 1);
    var second := 1 + len + 1;
    if second >= PACKET_LENGTH {
      return None;
    }
    var name := ReadString(buf, 1);
    var description := ReadString(buf, second);
    return Some(AddMovie(Truncated(name, MOVIE_NAME_LEN), Truncated(description, DESCRIPTION_LEN)));
  }

  method ReqReservation(buf: array<Char>, cancel: bool) returns (req: Option<Request>)
    requires Barred(buf)
    ensures req == DecodeReservation(buf[..], cancel)
  {
    var seat := buf[1];
    var digits := ReadString(buf, 2);
    var id := Atoi(digits);
    var len := StrLen(buf, 2);
    var second := 2 + len + 1;
    if second >= PACKET_LENGTH {
      return None;
    }
    var client := ReadString(buf, second);
    client := Truncated(client, CLIENT_NAME_LEN);
    return Some(if cancel then CancelReservation(client, id, seat) else MakeReservation(client, id, seat));
  }

  method ReqScreeningAdd(buf: array<Char>) returns (req: Option<Request>)
    requires Barred(buf)
    ensures req == Some(AddScreening(Truncated(StringAt(buf[..], 5), MOVIE_NAME_LEN), buf[1], buf[2], buf[3], buf[4]))
  {
    var movie := ReadString(buf, 5);
    return Some(AddScreening(Truncated(movie, MOVIE_NAME_LEN), buf[1], buf[2], buf[3], buf[4]));
  }

  /** `wait_request` after a whole packet arrived. It reads at most up to the barrier. */
  method BuildRequest(buf: array<Char>) returns (req: Option<Request>)
    requires Barred(buf)
    ensures req == Decode(buf[..PACKET_LENGTH])
  {
    ghost var p := buf[..PACKET_LENGTH];
    assert buf[..] == p + [0];
    var code := buf[0];
    if code == MOVIE_ADD {
      req := ReqMovieAdd(buf);
    } else if code == SCREENING_ADD {
      req := ReqScreeningAdd(buf);
    } else if code == MAKE_RESERVATION {
      req := ReqReservation(buf, false);
    } else if code == CANCEL_RESERVATION {
      req := ReqReservation(buf, true);
    } else if code == MOVIE_LIST {
      req := Some(ListMovies);
    } else if code == RESERVATION_LIST {
      var client := ReadString(buf, 2);
      req := Some(if buf[1] == 0 then ListReservations(client) else ListCancelled(client));
    } else if code in {MOVIE_DELETE, SCREENING_DELETE, MOVIE_SCREENINGS, SEATING_INFO} {
      var s := ReadString(buf, 1);
      req := Some(
        if code == MOVIE_DELETE then DeleteMovie(s)
        else if code == SCREENING_DELETE then DeleteScreening(s)
        else if code == MOVIE_SCREENINGS then ListScreenings(s)
        else ShowSeats(s));
    } else {
      req := None;
    }
  }

  // ---- Server: writing items ----

  /** The body of the transfer loops up to sending the item. */
  method WriteItem(buf: array<Char>, item: Item)
    requires buf.Length == PACKET_LENGTH && ItemFits(item)
    modifies buf
    ensures buf[..] == EncodeItem(old(buf[..]), item)
  {
    match item
    case ScreeningItem(id, day, month, slot, hall) =>
      buf[0], buf[1], buf[2], buf[3], buf[4] := TRANSACTION_ITEM, day, month, slot, hall;
      assert buf[..] == old(buf[..])[0 := TRANSACTION_ITEM][1 := day][2 := month][3 := slot][4 := hall];
      StrCpy(buf, 5, id);
    case MovieItem(name, description) =>
      buf[0] := TRANSACTION_ITEM;
      assert buf[..] == old(buf[..])[0 := TRANSACTION_ITEM];
      StrCpy(buf, 1, name);
      assert buf[..][1 + |name|] == 0;
      ReadBack(buf[..], 1, name);
      var len := StrLen(buf, 1);
      StrCpy(buf, 1 + len + 1, description);
    case TicketItem(seat, id, movie, day, month, slot, hall) =>
      buf[0], buf[1], buf[2], buf[3], buf[4], buf[5] := TRANSACTION_ITEM, ToChar(seat), day, month, slot, hall;
      assert buf[..]
        == old(buf[..])[0 := TRANSACTION_ITEM][1 := ToChar(seat)][2 := day][3 := month][4 := slot][5 := hall];
      StrCpy(buf, 6, id);
      assert buf[..][6 + |id|] == 0;
      ReadBack(buf[..], 6, id);
      var len := StrLen(buf, 6);
      StrCpy(buf, 6 + len + 1, movie);
  }
}
