/**
 * The booking record of the `bookings` table (app.py:50-66), the booking form
 * the POST branch of `booking` reads (app.py:104-122), and the fields derived
 * from it when a booking is created.
 */
module Bookings {
  import opened Wrappers
  import opened Text

  /**
   * A calendar day as an ordinal number (the next day is one more). It stands
   * for the zero-padded `YYYY-MM-DD` text the table stores: for such text,
   * string order is date order and `date.fromisoformat` differences are
   * ordinal differences.
   */
  type Day = int

  /**
   * A date column or date form field. `None` is the empty string, which in
   * the string comparison at app.py:92 sorts before every date.
   */
  type DateField = Option<Day>

  /** The creation timestamp, an opaque value supplied by the caller. */
  type Timestamp = string

  /** One row of the `bookings` table; prices and amounts are in minor currency units. */
  datatype Booking = Booking(
    id: nat,
    name: string,
    email: string,
    room: string,
    guests: int,
    checkin: DateField,
    checkout: DateField,
    source: string,
    pricePerNight: int,
    amountTotal: Option<int>,   // a nullable column; None is NULL
    currency: string,
    payment: string,
    notes: string,
    pending: bool,
    time: Timestamp)

  /**
   * The submitted booking form. A text field is `None` when absent, so that
   * the handler's default applies. `guests` is `None` when absent or empty,
   * else the integer its text parses to; `price` is `None` when absent, empty
   * or not a number. Date fields are `None` when absent or empty.
   */
  datatype BookingForm = BookingForm(
    name: Option<string>,
    email: Option<string>,
    room: Option<string>,
    guests: Option<int>,
    checkin: DateField,
    checkout: DateField,
    source: Option<string>,
    price: Option<int>,
    currency: Option<string>,
    payment: Option<string>,
    notes: Option<string>)

  const DefaultGuests := 1
  const DefaultCurrency := "TRY"
  const DefaultMethod := "Pending"

  /** `nights_between` (app.py:73-77): the whole days from `start` to `end`, never negative. */
  function NightsBetween(start: Day, end: Day): (n: nat)
    ensures end <= start ==> n == 0
    ensures start < end ==> start + n == end
  {
    var delta := end - start;
    if delta > 0 then delta else 0
  }

  /** The nights of a stay as the POST branch computes them (app.py:116): 0 unless both dates are given. */
  function StayNights(checkin: DateField, checkout: DateField): (n: nat)
    ensures n > 0 <==> checkin.Some? && checkout.Some? && checkin.value < checkout.value
    ensures n > 0 ==> checkin.value + n == checkout.value
  {
    if checkin.Some? && checkout.Some? then NightsBetween(checkin.value, checkout.value) else 0
  }

  /** `method.lower() == 'pending'` (app.py:121), on ASCII case folding. */
  predicate IsPendingMethod(m: string) {
    AsciiLower(m) == "pending"
  }

  /** A method flags a booking as pending exactly when it spells "pending" in any mix of cases. */
  lemma PendingMethodSpelling(m: string)
    ensures IsPendingMethod(m) <==>
      |m| == 7 && forall i :: 0 <= i < 7 ==> m[i] == "pending"[i] || m[i] == "PENDING"[i]
  {
    forall i | 0 <= i < |m| {
      AsciiLowerAt(m, i);
    }
    if |m| == 7 && forall i :: 0 <= i < 7 ==> m[i] == "pending"[i] || m[i] == "PENDING"[i] {
      assert forall i :: 0 <= i < 7 ==> AsciiLower(m)[i] == "pending"[i];
    }
  }

  /** The default method "Pending" (app.py:119) makes a booking pending. */
  lemma DefaultMethodIsPending()
    ensures IsPendingMethod(DefaultMethod)
  {
    PendingMethodSpelling(DefaultMethod);
  }

  /**
   * The record the POST branch of `booking` inserts (app.py:105-129): trimmed
   * name, email and room, the form's defaults, the amount computed from the
   * price and the nights, and the pending flag computed from the method.
   */
  function NewBooking(form: BookingForm, id: nat, time: Timestamp): (b: Booking)
    ensures b.id == id && b.time == time
    ensures b.name == Strip(form.name.GetOr("")) && b.email == Strip(form.email.GetOr(""))
    ensures b.room == Strip(form.room.GetOr(""))
    ensures b.checkin == form.checkin && b.checkout == form.checkout
    ensures b.guests == form.guests.GetOr(DefaultGuests) && b.source == form.source.GetOr("")
    ensures b.pricePerNight == form.price.GetOr(0)
    ensures b.currency == form.currency.GetOr(DefaultCurrency) && b.notes == form.notes.GetOr("")
    ensures b.payment == form.payment.GetOr(DefaultMethod)
    ensures form.guests.None? ==> b.guests == DefaultGuests
    ensures form.price.None? ==> b.pricePerNight == 0
    ensures b.amountTotal == Some(form.price.GetOr(0) * StayNights(form.checkin, form.checkout))
    ensures form.checkin.None? || form.checkout.None? ==> b.amountTotal == Some(0)
    ensures b.pending <==> IsPendingMethod(form.payment.GetOr(DefaultMethod))
    ensures form.payment.None? ==> b.payment == DefaultMethod && b.pending
  {
    var price := form.price.GetOr(0);
    var nights := StayNights(form.checkin, form.checkout);
    var payment := form.payment.GetOr(DefaultMethod);
    DefaultMethodIsPending();
    assert nights == 0 ==> price * nights == 0;
    Booking(
      id := id,
      name := Strip(form.name.GetOr("")),
      email := Strip(form.email.GetOr("")),
      room := Strip(form.room.GetOr("")),
      guests := form.guests.GetOr(DefaultGuests),
      checkin := form.checkin,
      checkout := form.checkout,
      source := form.source.GetOr(""),
      pricePerNight := price,
      amountTotal := Some(price * nights),
      currency := form.currency.GetOr(DefaultCurrency),
      payment := payment,
      notes := form.notes.GetOr(""),
      pending := IsPendingMethod(payment),
      time := time)
  }

  /**
   * The worked example of a three-night stay: checking in on day `d` and out
   * on day `d + 3` at 100 a night comes to 300; checking out before checking
   * in comes to 0.
   */
  lemma AmountExamples(form: BookingForm, id: nat, time: Timestamp, d: Day)
    ensures form.checkin == Some(d) && form.checkout == Some(d + 3) && form.price == Some(100)
      ==> NewBooking(form, id, time).amountTotal == Some(300)
    ensures form.checkin == Some(d) && form.checkout == Some(d - 1)
      ==> NewBooking(form, id, time).amountTotal == Some(0)
  {
    var b := NewBooking(form, id, time);
    if form.checkin == Some(d) && form.checkout == Some(d - 1) {
      assert StayNights(b.checkin, b.checkout) == 0;
      assert b.pricePerNight * 0 == 0;
    }
  }

  /** `checkin <= today < checkout` on the stored text (app.py:92). */
  predicate Occupies(b: Booking, today: Day) {
    (b.checkin.None? || b.checkin.value <= today) && b.checkout.Some? && today < b.checkout.value
  }

  /**
   * Which bookings occupy a room on `today`, in terms of the stay: a booking
   * with both dates occupies exactly the nights of its stay, so a stay of no
   * nights occupies nothing; a booking with no checkout never occupies; one
   * with no checkin occupies every day before its checkout.
   */
  lemma OccupiesStay(b: Booking, today: Day)
    ensures b.checkin.Some? && b.checkout.Some? ==>
      (Occupies(b, today) <==>
        StayNights(b.checkin, b.checkout) > 0 &&
        b.checkin.value <= today < b.checkin.value + StayNights(b.checkin, b.checkout))
    ensures b.checkout.None? ==> !Occupies(b, today)
    ensures b.checkin.None? ==> (Occupies(b, today) <==> b.checkout.Some? && today < b.checkout.value)
  {
  }

  /** `r['amount_total'] or 0` (app.py:102). */
  function AmountOrZero(b: Booking): (a: int) {
    b.amountTotal.GetOr(0)
  }

  /** What a booking adds to the pending total: its amount when pending, else nothing. */
  function PendingAmount(b: Booking): (a: int)
    ensures !b.pending ==> a == 0
  {
    if b.pending then AmountOrZero(b) else 0
  }

  /** The row as `UPDATE bookings SET pending=0, method=?` leaves it (app.py:234). */
  function Paid(b: Booking, payment: string): (c: Booking)
    ensures !c.pending && c.payment == payment
    ensures c.(pending := b.pending, payment := b.payment) == b
  {
    b.(pending := false, payment := payment)
  }

  /** The row as `UPDATE bookings SET checkout=?, pending=0` leaves it (app.py:226). */
  function CheckedOut(b: Booking, today: Day): (c: Booking)
    ensures !c.pending && c.checkout == Some(today)
    ensures c.(pending := b.pending, checkout := b.checkout) == b
  {
    b.(checkout := Some(today), pending := false)
  }
}
