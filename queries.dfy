/**
 * The read side of the handlers: the `SELECT ... ORDER BY id DESC` listings
 * of `room_detail`, `history` and the pending box, the pending total, and the
 * latest-booking lookup and number choice of `whatsapp`.
 */
module Queries {
  import opened Wrappers
  import opened Text
  import opened Bookings

  /** Table order: every row has a larger id than the rows before it. */
  predicate IdsAscending(rows: seq<Booking>) {
    forall i, j :: 0 <= i < j < |rows| ==> rows[i].id < rows[j].id
  }

  /** Newest-first order, `ORDER BY id DESC`. */
  predicate IdsDescending(rows: seq<Booking>) {
    forall i, j :: 0 <= i < j < |rows| ==> rows[i].id > rows[j].id
  }

  /** The WHERE clauses the handlers use. */
  datatype Filter =
    | Everything                 // no WHERE clause
    | RoomIs(room: string)       // WHERE room=?            (app.py:204, app.py:215)
    | NameLike(query: string)    // WHERE name LIKE '%q%'   (app.py:217)
    | PendingOnly                // WHERE pending=1         (app.py:101)

  predicate Matches(f: Filter, b: Booking) {
    match f
    case Everything => true
    case RoomIs(room) => b.room == room
    case NameLike(q) => Like(b.name, "%" + q + "%")
    case PendingOnly => b.pending
  }

  /**
   * `SELECT * FROM bookings WHERE f ORDER BY id DESC` over a table held in
   * insertion order: the rows that match, newest first.
   */
  function Select(rows: seq<Booking>, f: Filter): (r: seq<Booking>)
    ensures forall b :: b in r <==> b in rows && Matches(f, b)
    ensures |r| <= |rows|
    ensures IdsAscending(rows) ==> IdsDescending(r)
    decreases |rows|
  {
    if rows == [] then []
    else
      var rest := Select(rows[1..], f);
      assert IdsAscending(rows) ==> forall b :: b in rest ==> rows[0].id < b.id;
      if Matches(f, rows[0]) then rest + [rows[0]] else rest
  }

  /** Two sequences with the same members are both empty or both not. */
  lemma NewestFirstSameEmptiness(a: seq<Booking>, b: seq<Booking>)
    requires forall x :: x in a <==> x in b
    ensures a == [] <==> b == []
  {
    if a != [] {
      assert a[0] in b;
    }
    if b != [] {
      assert b[0] in a;
    }
  }

  /** Two newest-first listings with the same members start with the same row. */
  lemma NewestFirstSameHead(a: seq<Booking>, b: seq<Booking>)
    requires IdsDescending(a) && IdsDescending(b) && a != [] && b != []
    requires forall x :: x in a <==> x in b
    ensures a[0] == b[0]
  {
    assert a[0] in b && b[0] in a;
    var i :| 0 <= i < |a| && a[i] == b[0];
    var j :| 0 <= j < |b| && b[j] == a[0];
    assert a[0].id >= a[i].id && b[0].id >= b[j].id;
    assert i == 0;
  }

  /** Dropping a shared first row keeps the members the same. */
  lemma NewestFirstSameTail(a: seq<Booking>, b: seq<Booking>)
    requires IdsDescending(a) && IdsDescending(b) && a != [] && b != [] && a[0] == b[0]
    requires forall x :: x in a <==> x in b
    ensures forall x :: x in a[1..] <==> x in b[1..]
  {
    forall x | x in a[1..] ensures x in b[1..] {
      var k :| 1 <= k < |a| && a[k] == x;
      assert x in a && x.id < a[0].id;
      var l :| 0 <= l < |b| && b[l] == x;
      assert l != 0 && b[1..][l - 1] == x;
    }
    forall x | x in b[1..] ensures x in a[1..] {
      var k :| 1 <= k < |b| && b[k] == x;
      assert x in b && x.id < b[0].id;
      var l :| 0 <= l < |a| && a[l] == x;
      assert l != 0 && a[1..][l - 1] == x;
    }
  }

  /**
   * A newest-first listing is determined by which rows it holds: two
   * id-descending sequences with the same members are equal. So the
   * contract of `Select` pins down exactly what the SQL query returns.
   */
  lemma {:induction false} NewestFirstIsUnique(a: seq<Booking>, b: seq<Booking>)
    requires IdsDescending(a) && IdsDescending(b)
    requires forall x :: x in a <==> x in b
    ensures a == b
  {
    if a != [] && b != [] {
      NewestFirstSameHead(a, b);
      NewestFirstSameTail(a, b);
      NewestFirstIsUnique(a[1..], b[1..]);
      assert a == [a[0]] + a[1..];
      assert b == [b[0]] + b[1..];
    } else {
      NewestFirstSameEmptiness(a, b);
    }
  }

  /** All bookings, newest first (app.py:219). */
  function NewestFirst(rows: seq<Booking>): (r: seq<Booking>)
    ensures forall b :: b in r <==> b in rows
    ensures IdsAscending(rows) ==> IdsDescending(r)
  {
    Select(rows, Everything)
  }

  /** `room_detail` (app.py:204): the bookings of exactly that room, newest first. */
  function RoomDetail(rows: seq<Booking>, room: string): (r: seq<Booking>)
    ensures forall b :: b in r <==> b in rows && b.room == room
    ensures IdsAscending(rows) ==> IdsDescending(r)
  {
    Select(rows, RoomIs(room))
  }

  /** The query `history` runs for its trimmed `q` and `room` arguments (app.py:211-219). */
  function HistoryFilter(q: string, room: string): (f: Filter) {
    var roomFilter := Strip(room);
    var query := Strip(q);
    if roomFilter != "" then RoomIs(roomFilter)
    else if query != "" then NameLike(query)
    else Everything
  }

  /**
   * `history` (app.py:207-220): a non-blank room wins and lists exactly that
   * room; otherwise a non-blank query lists the names it matches; otherwise
   * everything. Each listing is newest first.
   */
  function History(rows: seq<Booking>, q: string, room: string): (r: seq<Booking>)
    ensures IdsAscending(rows) ==> IdsDescending(r)
    ensures Strip(room) != "" ==>
      forall b :: b in r <==> b in rows && b.room == Strip(room)
    ensures Strip(room) == "" && Strip(q) != "" ==>
      forall b :: b in r <==> b in rows && Like(b.name, "%" + Strip(q) + "%")
    ensures Strip(room) == "" && Strip(q) == "" ==>
      forall b :: b in r <==> b in rows
  {
    Select(rows, HistoryFilter(q, room))
  }

  /**
   * With no room filter and a search text free of `%` and `_`, history lists
   * exactly the bookings whose name contains the trimmed text, ignoring ASCII
   * case.
   */
  lemma HistoryNameSearch(rows: seq<Booking>, q: string, room: string)
    requires Strip(room) == "" && Strip(q) != "" && Literal(Strip(q))
    ensures forall b :: b in History(rows, q, room) <==> b in rows && ContainsIgnoringCase(b.name, Strip(q))
  {
    forall b | b in rows {
      NameLikeIsContains(b.name, Strip(q));
    }
  }

  /** `SELECT * FROM bookings ORDER BY id DESC LIMIT 1` (app.py:242). */
  function Latest(rows: seq<Booking>): (r: Option<Booking>)
    ensures r.None? <==> rows == []
    ensures r.Some? ==> r.value in rows
    ensures r.Some? && IdsAscending(rows) ==> forall b :: b in rows ==> b.id <= r.value.id
  {
    var all := NewestFirst(rows);
    if all == [] then None
    else
      Some(all[0])
  }

  const YunusNumber := "+905353601136"
  const OtherNumber := "+905335247460"

  /** The WhatsApp number for an operator: `'yunus'` gets his, anything else the other one (app.py:260-263). */
  function OperatorNumber(boss: string): (n: string)
    ensures n == YunusNumber || n == OtherNumber
    ensures n == YunusNumber <==> boss == "yunus"
  {
    if boss == "yunus" then YunusNumber else OtherNumber
  }

  /** What `whatsapp` answers: the plain "No booking found" text, or the chat to open about a booking. */
  datatype Handoff =
    | NoBookingFound
    | OpenChat(phone: string, booking: Booking)

  /**
   * `whatsapp` (app.py:240-266) without the message text and URL: the latest
   * booking and the number, without its `+`, that `wa.me/` is given.
   */
  function WhatsApp(rows: seq<Booking>, boss: string): (h: Handoff)
    ensures h.NoBookingFound? <==> rows == []
    ensures h.OpenChat? ==> h.booking in rows && "+" + h.phone == OperatorNumber(boss)
    ensures h.OpenChat? && IdsAscending(rows) ==> forall b :: b in rows ==> b.id <= h.booking.id
  {
    match Latest(rows)
    case None => NoBookingFound
    case Some(b) =>
      var number := OperatorNumber(boss);
      assert number == [number[0]] + number[1..];
      OpenChat(number[1..], b)
  }

  /** `sum(...)` over a listing, a NULL amount counting as 0. */
  function SumAmounts(rows: seq<Booking>): (total: int) {
    if rows == [] then 0 else AmountOrZero(rows[0]) + SumAmounts(rows[1..])
  }

  /** The pending box: `SELECT * FROM bookings WHERE pending=1 ORDER BY id DESC` (app.py:101). */
  function PendingRows(rows: seq<Booking>): (r: seq<Booking>)
    ensures forall b :: b in r <==> b in rows && b.pending
    ensures IdsAscending(rows) ==> IdsDescending(r)
  {
    Select(rows, PendingOnly)
  }

  /**
   * `total_pending` as app.py:102 computes it, over the pending listing: what
   * the pending bookings owe, NULL amounts as 0.
   */
  function PendingTotal(rows: seq<Booking>): (t: int)
    ensures t == PendingSum(rows)
  {
    PendingTotalIsPendingSum(rows);
    SumAmounts(PendingRows(rows))
  }

  /** Reference definition: the sum, in table order, of what each booking owes while pending. */
  function PendingSum(rows: seq<Booking>): (total: int) {
    if rows == [] then 0 else PendingAmount(rows[0]) + PendingSum(rows[1..])
  }

  lemma {:induction false} SumAmountsAppend(rows: seq<Booking>, b: Booking)
    ensures SumAmounts(rows + [b]) == SumAmounts(rows) + AmountOrZero(b)
  {
    if rows != [] {
      assert (rows + [b])[1..] == rows[1..] + [b];
      SumAmountsAppend(rows[1..], b);
    }
  }

  /** The pending total is the sum of the amounts (NULL as 0) of exactly the pending bookings. */
  lemma {:induction false} PendingTotalIsPendingSum(rows: seq<Booking>)
    ensures SumAmounts(PendingRows(rows)) == PendingSum(rows)
  {
    if rows != [] {
      PendingTotalIsPendingSum(rows[1..]);
      if rows[0].pending {
        SumAmountsAppend(Select(rows[1..], PendingOnly), rows[0]);
      }
    }
  }

  /** With no pending booking the pending total is 0. */
  lemma NoPendingNoTotal(rows: seq<Booking>)
    requires forall b :: b in rows ==> !b.pending
    ensures PendingTotal(rows) == 0
  {
  }

  /** A booking added at the end of the table adds what it owes, if pending, to the pending sum. */
  lemma {:induction false} PendingSumAppend(rows: seq<Booking>, b: Booking)
    ensures PendingSum(rows + [b]) == PendingSum(rows) + PendingAmount(b)
  {
    if rows != [] {
      assert (rows + [b])[1..] == rows[1..] + [b];
      PendingSumAppend(rows[1..], b);
    }
  }
}
