/**
 * The room-status projection of the booking page (app.py:33-39, 87-99): the
 * static room list, the vacant entry every room starts with, and the scan
 * over the newest-first bookings that marks a room sold.
 */
module Rooms {
  import opened Wrappers
  import opened Bookings
  import opened Queries

  /**
   * The bed type of a room, the letters `'s'`, `'d'` and `'t'` of the room
   * list. The list gives only the letters; reading `'t'` as twin (rather
   * than, say, triple) is a guess that nothing here depends on.
   */
  datatype Bed = Single | Double | Twin

  /** The static room list, room number and bed type (app.py:34-39): 25 rooms. */
  const RoomTable: seq<(string, Bed)> := [
    ("100", Double), ("101", Double), ("102", Twin), ("103", Double), ("104", Double), ("105", Single), ("106", Single),
    ("201", Double), ("202", Twin), ("203", Double), ("204", Double), ("205", Single), ("206", Single),
    ("301", Double), ("302", Twin), ("303", Double), ("304", Double), ("305", Single), ("306", Single),
    ("401", Double), ("402", Twin), ("403", Twin), ("404", Double), ("405", Single), ("406", Single)
  ]

  /**
   * The room list has 25 entries with distinct room numbers, so the
   * comprehension at app.py:88 has 25 rooms.
   */
  lemma RoomTableDistinct()
    ensures |RoomTable| == 25
    ensures forall i, j :: 0 <= i < j < |RoomTable| ==> RoomTable[i].0 != RoomTable[j].0
  {
  }

  /** The room numbers of a room list. */
  function RoomNumbers(table: seq<(string, Bed)>): (numbers: set<string>) {
    set e | e in table :: e.0
  }

  /** The bed type a dict comprehension over `table` keeps for `room`: that of its last entry. */
  function LookupBed(table: seq<(string, Bed)>, room: string): (r: Option<Bed>)
    ensures r.Some? <==> room in RoomNumbers(table)
    ensures r.Some? ==> (room, r.value) in table
    decreases |table|
  {
    if table == [] then None
    else
      var last := table[|table| - 1];
      var init := table[..|table| - 1];
      assert table == init + [last];
      if last.0 == room then Some(last.1) else LookupBed(init, room)
  }

  /** What the booking page shows about the booking that occupies a room. */
  datatype Occupant = Occupant(from: DateField, until: DateField, source: string, bookingId: nat)

  /**
   * One entry of `room_status`: the bed type, and the occupant when the room
   * is sold. `occupant == None` is the default `sold=False, from='-',
   * until='-', source=None, booking_id=None`.
   */
  datatype RoomEntry = RoomEntry(bed: Bed, occupant: Option<Occupant>) {
    predicate Sold() {
      occupant.Some?
    }
  }

  /** The fields `.update(...)` copies from a booking (app.py:93-99). */
  function OccupantOf(b: Booking): Occupant {
    Occupant(b.checkin, b.checkout, b.source, b.id)
  }

  /** The occupant a room shows for the booking the scan leaves on it, if any. */
  function OccupancyOf(b: Option<Booking>): (o: Option<Occupant>) {
    match b
    case None => None
    case Some(x) => Some(OccupantOf(x))
  }

  /** The dict comprehension at app.py:88: every listed room, vacant, with its bed type. */
  function InitialStatus(table: seq<(string, Bed)>): (m: map<string, RoomEntry>)
    ensures m.Keys == RoomNumbers(table)
    ensures forall r :: r in m ==> Some(m[r].bed) == LookupBed(table, r) && !m[r].Sold()
    decreases |table|
  {
    if table == [] then map[]
    else
      var last := table[|table| - 1];
      var init := table[..|table| - 1];
      assert table == init + [last];
      InitialStatus(init)[last.0 := RoomEntry(last.1, None)]
  }

  /**
   * The booking of `room` occupying the room on `today` that a scan of
   * `rows` processes last: with `rows` newest first, the oldest one.
   */
  function LastOccupant(rows: seq<Booking>, room: string, today: Day): (r: Option<Booking>)
    ensures r.Some? <==> exists b :: b in rows && b.room == room && Occupies(b, today)
    ensures r.Some? ==> r.value in rows && r.value.room == room && Occupies(r.value, today)
    ensures r.Some? && IdsDescending(rows) ==>
      forall b :: b in rows && b.room == room && Occupies(b, today) ==> r.value.id <= b.id
    decreases |rows|
  {
    if rows == [] then None
    else
      var last := rows[|rows| - 1];
      var init := rows[..|rows| - 1];
      assert rows == init + [last];
      if last.room == room && Occupies(last, today) then Some(last)
      else LastOccupant(init, room, today)
  }

  /** Extending the scanned prefix by one booking: it becomes the last occupant when it covers `today`. */
  lemma LastOccupantStep(rows: seq<Booking>, i: nat, room: string, today: Day)
    requires i < |rows|
    ensures LastOccupant(rows[..i + 1], room, today) ==
      if rows[i].room == room && Occupies(rows[i], today) then Some(rows[i]) else LastOccupant(rows[..i], room, today)
  {
    assert rows[..i + 1][..i] == rows[..i];
  }

  /**
   * The room-status loop of `booking` (app.py:88-99) over the listing `rows`
   * (newest first, as app.py:90 fetches it): each booking that covers `today`
   * overwrites its room's entry, so a room ends up with the occupant the scan
   * met last. A covering booking whose room is not listed would raise
   * `KeyError`, hence the precondition.
   */
  method RoomStatus(rows: seq<Booking>, today: Day) returns (status: map<string, RoomEntry>)
    requires forall b :: b in rows && Occupies(b, today) ==> b.room in RoomNumbers(RoomTable)
    ensures status.Keys == RoomNumbers(RoomTable)
    ensures forall r :: r in status ==> Some(status[r].bed) == LookupBed(RoomTable, r)
    ensures forall r :: r in status ==> status[r].occupant == OccupancyOf(LastOccupant(rows, r, today))
  {
    var start := InitialStatus(RoomTable);
    status := ScanBookings(rows, today, start);
  }

  /**
   * The loop itself, from any starting status: a room some booking covers
   * gets the occupant the scan meets last, every other entry is kept.
   */
  method ScanBookings(rows: seq<Booking>, today: Day, start: map<string, RoomEntry>)
    returns (status: map<string, RoomEntry>)
    requires forall b :: b in rows && Occupies(b, today) ==> b.room in start
    ensures status.Keys == start.Keys
    ensures forall r :: r in status ==> status[r].bed == start[r].bed
    ensures forall r :: r in status ==>
      status[r].occupant == (if LastOccupant(rows, r, today).Some? then OccupancyOf(LastOccupant(rows, r, today)) else start[r].occupant)
  {
    status := start;
    for i := 0 to |rows|
      invariant status.Keys == start.Keys
      invariant forall r :: r in status ==> status[r].bed == start[r].bed
      invariant forall r :: r in status ==>
        status[r].occupant == (if LastOccupant(rows[..i], r, today).Some? then OccupancyOf(LastOccupant(rows[..i], r, today)) else start[r].occupant)
    {
      var row := rows[i];
      forall r | r in status {
        LastOccupantStep(rows, i, r, today);
      }
      if Occupies(row, today) {
        assert row in rows;
        status := status[row.room := status[row.room].(occupant := Some(OccupantOf(row)))];
      }
    }
    assert rows[..|rows|] == rows;
  }
}
