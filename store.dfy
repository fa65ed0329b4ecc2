/**
 * The `bookings` table as an in-memory store: the rows in insertion order and
 * the next AUTOINCREMENT id (app.py:51), the insert of the POST branch of
 * `booking`, the two single-row UPDATEs `mark_paid` and `early_checkout`, and
 * the read-only pages built over the rows.
 */
module Store {
  import opened Wrappers
  import opened Text
  import opened Bookings
  import opened Queries
  import opened Rooms

  /** The method `mark_paid` records when none is given (app.py:232). */
  const DefaultPaidMethod := "Cash"

  /**
   * What every reachable table satisfies: ids are assigned in increasing
   * order, each below the next id to hand out, and a pending booking still
   * carries the method "pending" it was created with.
   */
  predicate Consistent(rows: seq<Booking>, nextId: nat) {
    && 1 <= nextId
    && IdsAscending(rows)
    && (forall i :: 0 <= i < |rows| ==> 1 <= rows[i].id < nextId)
    && (forall i :: 0 <= i < |rows| && rows[i].pending ==> IsPendingMethod(rows[i].payment))
  }

  /** Appending a pending-consistent booking with the next id keeps the table consistent. */
  lemma AppendKeepsConsistent(rows: seq<Booking>, nextId: nat, b: Booking)
    requires Consistent(rows, nextId)
    requires b.id == nextId && (b.pending ==> IsPendingMethod(b.payment))
    ensures Consistent(rows + [b], nextId + 1)
  {
    var r := rows + [b];
    forall i, j | 0 <= i < j < |r| ensures r[i].id < r[j].id {
      if j < |rows| {
        assert r[i] == rows[i] && r[j] == rows[j];
      } else {
        assert r[i] == rows[i];
      }
    }
  }

  /**
   * Rewriting rows without changing any id, where every row that is still
   * pending is the row it was, keeps the table consistent.
   */
  lemma RewriteKeepsConsistent(rows: seq<Booking>, nextId: nat, r: seq<Booking>)
    requires Consistent(rows, nextId) && |r| == |rows|
    requires forall k :: 0 <= k < |r| ==> r[k].id == rows[k].id && (r[k].pending ==> r[k] == rows[k])
    ensures Consistent(r, nextId)
  {
  }

  /** `UPDATE bookings SET ... WHERE id=?`: `f` applied to the rows with that id, the others kept. */
  function UpdateRow(rows: seq<Booking>, id: int, f: Booking -> Booking): (r: seq<Booking>)
    ensures |r| == |rows|
    ensures forall k :: 0 <= k < |rows| ==> r[k] == if rows[k].id == id then f(rows[k]) else rows[k]
    decreases |rows|
  {
    if rows == [] then []
    else [if rows[0].id == id then f(rows[0]) else rows[0]] + UpdateRow(rows[1..], id, f)
  }

  /** An UPDATE for an id no row has changes nothing. */
  lemma UnknownIdIsNoOp(rows: seq<Booking>, id: int, f: Booking -> Booking)
    requires forall k :: 0 <= k < |rows| ==> rows[k].id != id
    ensures UpdateRow(rows, id, f) == rows
  {
  }

  /**
   * An UPDATE of the row at index `k` changes the pending sum by the
   * difference between what the row owes while pending after and before.
   */
  lemma {:induction false} PendingSumAfterUpdate(rows: seq<Booking>, id: int, f: Booking -> Booking, k: nat)
    requires IdsAscending(rows) && k < |rows| && rows[k].id == id
    ensures PendingSum(UpdateRow(rows, id, f)) == PendingSum(rows) - PendingAmount(rows[k]) + PendingAmount(f(rows[k]))
  {
    var r := UpdateRow(rows, id, f);
    assert r[1..] == UpdateRow(rows[1..], id, f);
    if k == 0 {
      UnknownIdIsNoOp(rows[1..], id, f);
    } else {
      assert rows[0].id < rows[k].id;
      PendingSumAfterUpdate(rows[1..], id, f, k - 1);
    }
  }

  /** Marking booking `id` paid removes what it owed from the pending total. */
  lemma MarkPaidPendingTotal(rows: seq<Booking>, id: int, m: string, k: nat)
    requires IdsAscending(rows) && k < |rows| && rows[k].id == id
    ensures PendingTotal(UpdateRow(rows, id, b => Paid(b, m))) == PendingTotal(rows) - PendingAmount(rows[k])
  {
    PendingTotalIsPendingSum(rows);
    PendingTotalIsPendingSum(UpdateRow(rows, id, b => Paid(b, m)));
    PendingSumAfterUpdate(rows, id, b => Paid(b, m), k);
  }

  /** An early checkout of booking `id` removes what it owed from the pending total. */
  lemma EarlyCheckoutPendingTotal(rows: seq<Booking>, id: int, today: Day, k: nat)
    requires IdsAscending(rows) && k < |rows| && rows[k].id == id
    ensures PendingTotal(UpdateRow(rows, id, b => CheckedOut(b, today))) == PendingTotal(rows) - PendingAmount(rows[k])
  {
    PendingTotalIsPendingSum(rows);
    PendingTotalIsPendingSum(UpdateRow(rows, id, b => CheckedOut(b, today)));
    PendingSumAfterUpdate(rows, id, b => CheckedOut(b, today), k);
  }

  /** A created booking adds its amount to the pending total exactly when its method is "pending". */
  lemma CreatePendingTotal(rows: seq<Booking>, form: BookingForm, id: nat, time: Timestamp)
    ensures var b := NewBooking(form, id, time);
      PendingTotal(rows + [b]) == PendingTotal(rows) + (if IsPendingMethod(b.payment) then AmountOrZero(b) else 0)
  {
    var b := NewBooking(form, id, time);
    PendingTotalIsPendingSum(rows);
    PendingTotalIsPendingSum(rows + [b]);
    PendingSumAppend(rows, b);
  }

  /** `b` is the smallest-id booking of `room` that covers `today`. */
  ghost predicate OldestOccupant(rows: seq<Booking>, room: string, today: Day, b: Booking) {
    && b in rows && b.room == room && Occupies(b, today)
    && forall c :: c in rows && c.room == room && Occupies(c, today) ==> b.id <= c.id
  }

  /** The bookings table. */
  class BookingStore {
    var rows: seq<Booking>
    var nextId: nat

    ghost predicate Valid()
      reads this
    {
      Consistent(rows, nextId)
    }

    /** An empty table; AUTOINCREMENT hands out 1 first. */
    constructor ()
      ensures Valid() && rows == [] && nextId == 1
    {
      rows := [];
      nextId := 1;
    }

    /**
     * The INSERT of the POST branch of `booking` (app.py:104-130): the new
     * row gets an id above every existing one and goes after them; nothing
     * else changes. The emails it then sends are not part of the store.
     */
    method Create(form: BookingForm, time: Timestamp) returns (id: nat)
      requires Valid()
      modifies this
      ensures Valid()
      ensures id == old(nextId) && nextId == id + 1
      ensures forall b :: b in old(rows) ==> b.id < id
      ensures rows == old(rows) + [NewBooking(form, id, time)]
    {
      id := nextId;
      var b := NewBooking(form, id, time);
      AppendKeepsConsistent(rows, nextId, b);
      assert forall c :: c in rows ==> c.id < id;
      rows := rows + [b];
      nextId := nextId + 1;
    }

    /**
     * `mark_paid` (app.py:230-236): the row with that id is no longer
     * pending and carries the given method, "Cash" by default; every other
     * row and field is unchanged, and an unknown id changes nothing.
     */
    method MarkPaid(id: nat, payment: Option<string>)
      requires Valid()
      modifies this
      ensures Valid() && nextId == old(nextId)
      ensures |rows| == |old(rows)|
      ensures forall k :: 0 <= k < |rows| && old(rows)[k].id == id ==>
        rows[k] == old(rows)[k].(pending := false, payment := payment.GetOr(DefaultPaidMethod))
      ensures forall k :: 0 <= k < |rows| && old(rows)[k].id != id ==> rows[k] == old(rows)[k]
      ensures (forall b :: b in old(rows) ==> b.id != id) ==> rows == old(rows)
    {
      var m := payment.GetOr(DefaultPaidMethod);
      if forall b :: b in rows ==> b.id != id {
        UnknownIdIsNoOp(rows, id, b => Paid(b, m));
      }
      RewriteKeepsConsistent(rows, nextId, UpdateRow(rows, id, b => Paid(b, m)));
      rows := UpdateRow(rows, id, b => Paid(b, m));
    }

    /**
     * `early_checkout` (app.py:222-228): the row with that id checks out
     * `today` and is no longer pending; every other row and field is
     * unchanged (its amount too), and an unknown id changes nothing.
     */
    method EarlyCheckout(id: nat, today: Day)
      requires Valid()
      modifies this
      ensures Valid() && nextId == old(nextId)
      ensures |rows| == |old(rows)|
      ensures forall k :: 0 <= k < |rows| && old(rows)[k].id == id ==>
        rows[k] == old(rows)[k].(checkout := Some(today), pending := false)
      ensures forall k :: 0 <= k < |rows| && old(rows)[k].id != id ==> rows[k] == old(rows)[k]
      ensures (forall b :: b in old(rows) ==> b.id != id) ==> rows == old(rows)
    {
      if forall b :: b in rows ==> b.id != id {
        UnknownIdIsNoOp(rows, id, b => CheckedOut(b, today));
      }
      RewriteKeepsConsistent(rows, nextId, UpdateRow(rows, id, b => CheckedOut(b, today)));
      rows := UpdateRow(rows, id, b => CheckedOut(b, today));
    }

    /**
     * The GET side of `booking` (app.py:87-102): the status of every listed
     * room on `today`, the pending bookings newest first, and their total.
     * A room is sold exactly when some booking of it covers `today`, and then
     * shows the smallest-id such booking.
     */
    method BookingPage(today: Day) returns (status: map<string, RoomEntry>, pending: seq<Booking>, total: int)
      requires Valid()
      requires forall b :: b in rows && Occupies(b, today) ==> b.room in RoomNumbers(RoomTable)
      ensures status.Keys == RoomNumbers(RoomTable)
      ensures forall r :: r in status ==> Some(status[r].bed) == LookupBed(RoomTable, r)
      ensures forall r :: r in status ==>
        (status[r].Sold() <==> exists b :: b in rows && b.room == r && Occupies(b, today))
      ensures forall r :: r in status && status[r].Sold() ==>
        exists b :: OldestOccupant(rows, r, today, b) && status[r].occupant == Some(OccupantOf(b))
      ensures forall b :: b in pending <==> b in rows && b.pending
      ensures IdsDescending(pending)
      ensures total == PendingSum(rows)
    {
      var listing := NewestFirst(rows);
      status := RoomStatus(listing, today);
      forall r | r in status && status[r].Sold()
        ensures exists b :: OldestOccupant(rows, r, today, b) && status[r].occupant == Some(OccupantOf(b))
      {
        var b := LastOccupant(listing, r, today).value;
        assert OldestOccupant(rows, r, today, b);
      }
      pending := PendingRows(rows);
      total := PendingTotal(rows);
      PendingTotalIsPendingSum(rows);
    }

    /** `room_detail` (app.py:199-205): the bookings of that room, newest first. */
    method RoomBookings(room: string) returns (r: seq<Booking>)
      requires Valid()
      ensures forall b :: b in r <==> b in rows && b.room == room
      ensures IdsDescending(r)
    {
      r := RoomDetail(rows, room);
    }

    /** `history` (app.py:207-220), newest first. */
    method HistoryPage(q: string, room: string) returns (r: seq<Booking>)
      requires Valid()
      ensures IdsDescending(r)
      ensures Strip(room) != "" ==> forall b :: b in r <==> b in rows && b.room == Strip(room)
      ensures Strip(room) == "" && Strip(q) != "" ==>
        forall b :: b in r <==> b in rows && Like(b.name, "%" + Strip(q) + "%")
      ensures Strip(room) == "" && Strip(q) != "" && Literal(Strip(q)) ==>
        forall b :: b in r <==> b in rows && ContainsIgnoringCase(b.name, Strip(q))
      ensures Strip(room) == "" && Strip(q) == "" ==> r == NewestFirst(rows)
    {
      r := History(rows, q, room);
      if Strip(room) == "" && Strip(q) != "" && Literal(Strip(q)) {
        HistoryNameSearch(rows, q, room);
      }
      if Strip(room) == "" && Strip(q) == "" {
        NewestFirstIsUnique(r, NewestFirst(rows));
      }
    }

    /** `whatsapp` (app.py:239-266): the newest booking and the operator's number, or "No booking found". */
    method WhatsAppHandoff(boss: string) returns (h: Handoff)
      requires Valid()
      ensures h.NoBookingFound? <==> rows == []
      ensures h.OpenChat? ==> h.booking in rows && forall b :: b in rows ==> b.id <= h.booking.id
      ensures h.OpenChat? ==> "+" + h.phone == OperatorNumber(boss)
    {
      h := WhatsApp(rows, boss);
    }
  }
}
