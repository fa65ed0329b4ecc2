# Hotel front-desk booking store

A Dafny model of the booking core of a small hotel front-desk web application
(`app.py`). The application keeps one table of room reservations. It inserts
a row per submitted booking form and updates a row in two narrow ways: it
marks a booking paid, or checks a guest out early. From the table it computes
which of its fixed rooms are occupied today, the bookings still awaiting
payment and their total, filtered listings (by room, by guest name), and the
latest booking for a WhatsApp hand-off to an operator.

The model is an in-memory store: the class `Store.BookingStore` holds the rows
in insertion order and the next id the table's AUTOINCREMENT would hand out.
The handlers are its methods. The projections are pure functions over the
rows.

- `wrappers.dfy`: `Option`, used for absent form fields and nullable columns.
- `text.dfy`: Python's `str.strip()`, ASCII case folding, and SQLite's `LIKE`
  with its `%` and `_` wildcards. A proof shows that `'%' + q + '%'` is a
  case-insensitive substring search when `q` holds no wildcard.
- `bookings.dfy`: the booking record, the booking form, `nights_between`, the
  fields a new booking derives (nights, amount, pending flag), the occupancy
  test, and the two row updates.
- `queries.dfy`: the `ORDER BY id DESC` listings, the history filter
  precedence, the latest-booking lookup, the operator-number rule, and the
  pending total.
- `rooms.dfy`: the static room list and the room-status loop. The loop is a
  method, proved against `LastOccupant`.
- `store.dfy`: the store class, its invariant, and the lemmas relating
  updates and inserts to the pending total.

Dates are day ordinals. A missing date is `None` and behaves like the empty
string in the comparison `checkin <= today < checkout`: it sorts before every
date. Prices and amounts are integers in minor currency units. The clock is a
parameter: `today` for the room status and early checkout, an opaque
timestamp for creation.

Facts about the code that the model keeps:

- The room list has 25 rooms (app.py:34-39). `Rooms.RoomTableDistinct` shows their numbers are distinct.
- The status loop scans the bookings newest first, and each covering booking overwrites the room's entry.
  A room covered by several bookings therefore shows the **oldest** (smallest-id) of them.
  This is stated in `Rooms.LastOccupant` and `Store.BookingStore.BookingPage`.
- `mark_paid` and `early_checkout` with an id that no row has are silent no-ops.
- A non-numeric guest count makes `int()` raise (app.py:108).
- Early checkout rewrites the checkout date but not `amount_total`. After it, the amount is no longer
  price times nights. The store invariant (`Store.Consistent`) therefore does not claim that relation.
  `Bookings.NewBooking` states it at creation.
- The name search is SQLite `LIKE`, so a `%` or `_` typed into the search box is a wildcard.
  `Text.WildcardInSearch` shows `a_c` matching the name `abc`.
  `Queries.HistoryNameSearch` states the substring reading when the query has no wildcard.

## Model

| member | source | states |
|---|---|---|
| `Text.StripSpec` | app.py:211-216 | `strip()` leaves the slice of the input between its leading and trailing whitespace. The result neither starts nor ends with whitespace. It is empty exactly when the input is blank, which is what `if room_filter:` / `elif q:` test. |
| `Text.NameLikeIsContains` | app.py:217 | `name LIKE '%q%'` holds exactly when `name` contains `q` ignoring ASCII case, for `q` without `%`/`_`. |
| `Text.WildcardInSearch` | app.py:217 | With a `_` in the query, the LIKE pattern matches a name that does not contain the query text. |
| `Bookings.NightsBetween` | app.py:73-77 | The result is never negative. It is 0 when checkout is on or before checkin, otherwise checkin plus the result is checkout. |
| `Bookings.StayNights` | app.py:116 | The nights are positive exactly when both dates are given and checkin < checkout. They are then the difference. A missing date gives 0. |
| `Bookings.PendingMethodSpelling` | app.py:121 | `method.lower() == 'pending'` holds exactly for the 7-letter spellings of "pending" in any mix of cases. |
| `Bookings.DefaultMethodIsPending` | app.py:119-121 | The default method "Pending" flags the booking pending. |
| `Bookings.NewBooking` | app.py:104-129 | The inserted row has the given id and timestamp, and the trimmed name, email and room. Guests, source, price, currency, method and notes are the submitted values or their defaults (1, "", 0, "TRY", "Pending", ""). The dates are the submitted ones. `amount_total` is the submitted price times `StayNights` of the submitted dates, and it is 0 when a date is missing. `pending` holds iff the submitted method (default "Pending") lower-cases to "pending". |
| `Bookings.AmountExamples` | app.py:112-117 | Three nights at 100 come to 300. A checkout before checkin comes to 0. |
| `Bookings.OccupiesStay` | app.py:92 | `checkin <= today < checkout` holds for a booking with both dates exactly on the nights of its stay, so a zero-night stay occupies nothing. With no checkout a booking never occupies. With no checkin (the empty text sorts first) it occupies every day before its checkout. |
| `Bookings.Paid` | app.py:234 | The paid row is not pending and carries the new method. Every other field is unchanged. |
| `Bookings.CheckedOut` | app.py:226 | The checked-out row has `checkout = today` and is not pending. Every other field is unchanged. |
| `Queries.Select` | app.py:214-219 | `WHERE f ORDER BY id DESC` yields exactly the matching rows, in strictly descending id order when the table is in insertion order. |
| `Queries.NewestFirstIsUnique` | app.py:219 | Two id-descending listings with the same rows are equal, so this contract determines the query result. |
| `Queries.NewestFirst` | app.py:219 | The unfiltered listing holds every booking, newest first. |
| `Queries.RoomDetail` | app.py:204 | `room_detail` lists exactly the bookings of that room, newest first. |
| `Queries.History` | app.py:211-219 | A non-blank room lists exactly that room's bookings. Otherwise a non-blank query lists the names LIKE `%q%`. Otherwise it lists everything. Each is newest first. |
| `Queries.HistoryNameSearch` | app.py:217 | With no room filter and a wildcard-free query, history lists exactly the bookings whose name contains the trimmed query, ignoring ASCII case. |
| `Queries.Latest` | app.py:242-244 | There is no booking exactly when the table is empty. Otherwise the result is a booking with the highest id. |
| `Queries.OperatorNumber` | app.py:260-263 | The operator `'yunus'` gets the first number, and any other value gets the other one. |
| `Queries.WhatsApp` | app.py:240-265 | The answer is "No booking found" iff the table is empty. Otherwise it is the highest-id booking and the chosen number without its `+`. |
| `Queries.PendingRows` | app.py:101 | The pending box holds exactly the pending bookings, newest first. |
| `Queries.PendingTotal` | app.py:101-102 | `total_pending` equals the sum, over the pending bookings, of their amounts with NULL as 0. |
| `Queries.PendingTotalIsPendingSum` | app.py:101-102 | The sum of amounts (NULL as 0) over the pending listing equals the sum over the table of what each booking owes while pending. |
| `Queries.NoPendingNoTotal` | app.py:101-102 | With no pending booking the total is 0. |
| `Rooms.RoomTableDistinct` | app.py:34-39 | The room list has 25 entries with pairwise distinct room numbers. |
| `Rooms.LookupBed` | app.py:34-39 | A room has a bed type exactly when it is in the room list, and that pairing is an entry of the list. |
| `Rooms.InitialStatus` | app.py:88 | Every listed room starts with its bed type and no occupant, and no other room has an entry. |
| `Rooms.LastOccupant` | app.py:90-99 | A booking is found iff some booking of the room covers `today`. It covers `today`. Over a newest-first listing it has the smallest id of all such bookings. |
| `Rooms.ScanBookings` | app.py:90-99 | The loop keeps every room and bed type. A room some covering booking names ends up with that booking of the scan's last such one. Every other room keeps its starting entry. |
| `Rooms.RoomStatus` | app.py:88-99 | Starting from the comprehension at app.py:88, the status has an entry for exactly the listed rooms, each with its bed type. Each room has the occupant the scan meets last (`Rooms.LastOccupant`), or none. |
| `Store.AppendKeepsConsistent` | app.py:124-129 | Inserting a row with the next id keeps ids increasing and below the next id, and keeps pending rows' method "pending". |
| `Store.RewriteKeepsConsistent` | app.py:222-236 | An update that keeps ids and leaves no row newly pending keeps the table invariant. |
| `Store.UpdateRow` | app.py:226-234 | `UPDATE ... WHERE id=?` applies the change to exactly the rows with that id. Every other row is kept and the length is unchanged. |
| `Store.UnknownIdIsNoOp` | app.py:226-234 | An update for an id no row has leaves the table as it was. |
| `Store.MarkPaidPendingTotal` | app.py:230-236 | Marking a booking paid lowers the pending total by exactly what it owed while pending. |
| `Store.EarlyCheckoutPendingTotal` | app.py:222-228 | An early checkout lowers the pending total by exactly what the booking owed while pending. |
| `Store.CreatePendingTotal` | app.py:119-129 | A new booking raises the pending total by its amount exactly when its method is "pending". |
| `Store.BookingStore.constructor` | app.py:47-51 | The table starts empty and the first id is 1. |
| `Store.BookingStore.Create` | app.py:104-130 | The new row is appended with id `nextId`, which is above every existing id. The counter advances and existing rows are unchanged. The invariant is kept. |
| `Store.BookingStore.MarkPaid` | app.py:230-236 | Only the row with that id changes: `pending` becomes false and `method` the given one, "Cash" by default. An unknown id changes nothing. |
| `Store.BookingStore.EarlyCheckout` | app.py:222-228 | Only the row with that id changes: `checkout` becomes today and `pending` false. An unknown id changes nothing. |
| `Store.BookingStore.BookingPage` | app.py:87-102 | A listed room is sold iff some booking of it covers today. It then shows the smallest-id such booking. The pending listing holds exactly the pending bookings, newest first, and the total is their sum. |
| `Store.BookingStore.RoomBookings` | app.py:199-205 | The room page lists exactly that room's bookings, newest first. |
| `Store.BookingStore.HistoryPage` | app.py:207-220 | The room filter wins over the name query, and the name query over the full listing. A non-blank query lists exactly the names LIKE `%q%`; when the query is wildcard-free, that is a case-insensitive substring search. Each listing is newest first. |
| `Store.BookingStore.WhatsAppHandoff` | app.py:239-266 | "No booking found" iff the table is empty. Otherwise the highest-id booking and the operator's number. |

## Left out

- Flask routing, templates, redirects and the `lang` lookup into the translation table (app.py:15-31, 83-84): presentation only.
- The confirmation and receipt emails (app.py:132-192): network I/O whose failures are swallowed. They happen after the insert and cannot affect the store.
- The SQLite connection and schema (app.py:42-70): replaced by the in-memory rows. SQLite's AUTOINCREMENT limit at the largest 64-bit id is not modelled, and ids are unbounded.
- `datetime.now()` (app.py:87, 122, 225): `today` and the creation timestamp are parameters.
- Floating point: prices and amounts are integers in minor units. `float()` parsing of the price is the form's `price` field: `None` when absent, empty or not a number. NaN and infinities are not modelled.
- `date.fromisoformat` (app.py:74-75): dates are day ordinals. The comparison at app.py:92 on ISO text agrees with ordinal order for zero-padded dates.
- An absent date field (Python `None`, stored as NULL) would make the comparison at app.py:92 raise. The model treats it like the empty string a browser sends for an empty date field.
- `int()` raising on a non-numeric guest count (app.py:108): the form's `guests` is already an integer or absent.
- The `KeyError` for a booking whose room is not listed and that covers today (app.py:93): a precondition of `Rooms.RoomStatus` and `Store.BookingStore.BookingPage`.
- The WhatsApp message text, `urllib.parse.quote` and the URL (app.py:246-258, 265): string templating and a library call.
- Python's `str.lower()` is full Unicode case mapping; the model folds ASCII only. For the comparison with "pending" the two agree: no non-ASCII character lower-cases to a single ASCII letter of that word.
- Concurrency between requests and process start-up (app.py:268-271).
