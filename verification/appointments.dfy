/** Viewing appointments: a buyer books a visit to a listing and may
    cancel it, the seller sets any status, and the buyer's page splits the
    visits into upcoming and past ones. Dates are ticks; a time of day is a
    `TimeSpan` in ticks. */
module Appointments {
  import opened Wrappers
  import opened Text
  import opened Seqs
  import opened Time
  import Listings

  /** The five declared members, and any other value of the underlying
      integer, which an enum variable can hold too. */
  datatype AppointmentStatus = Requested | Confirmed | Rescheduled | Cancelled | Completed | Undefined(code: int)

  /** The underlying value: 1 to 5 for the declared members. */
  function StatusCode(s: AppointmentStatus): int {
    match s
    case Requested => 1
    case Confirmed => 2
    case Rescheduled => 3
    case Cancelled => 4
    case Completed => 5
    case Undefined(c) => c
  }

  /** The status an integer value stands for. */
  function StatusOfCode(c: int): (r: AppointmentStatus)
    ensures StatusCode(r) == c
    ensures r.Undefined? <==> !(1 <= c <= 5)
  {
    if c == 1 then Requested
    else if c == 2 then Confirmed
    else if c == 3 then Rescheduled
    else if c == 4 then Cancelled
    else if c == 5 then Completed
    else Undefined(c)
  }

  /** A status whose undefined value really is outside the declared ones
      survives the trip through its integer value. */
  lemma StatusCodeRoundTrip(s: AppointmentStatus)
    requires s.Undefined? ==> !(1 <= s.code <= 5)
    ensures StatusOfCode(StatusCode(s)) == s
  {
  }

  datatype Appointment = Appointment(
    id: nat,
    propertyId: nat,
    buyerId: nat,
    sellerId: nat,
    date: int,
    time: int,
    status: AppointmentStatus,
    notes: Option<string>,
    created: int,
    updated: Option<int>)

  /** A visit that still holds its slot. */
  predicate Holding(s: AppointmentStatus) {
    s == Requested || s == Confirmed || s == Rescheduled
  }

  /** An existing visit that blocks booking the same slot again. */
  predicate Blocks(a: Appointment, buyerId: nat, propertyId: int, date: int, time: int) {
    a.propertyId == propertyId && a.buyerId == buyerId && Holding(a.status) && a.date == date && a.time == time
  }

  predicate HasBlocking(appts: seq<Appointment>, buyerId: nat, propertyId: int, date: int, time: int) {
    exists k :: 0 <= k < |appts| && Blocks(appts[k], buyerId, propertyId, date, time)
  }

  datatype BookOutcome = BookNotFound | BadTime | InThePast | AlreadyBooked | SaveFailed | Booked

  /** `Book`: a visit request for listing `propertyId` on the day of `date`
      at `time`, which is `None` when the posted time does not parse. The
      day may be today but not earlier, and the buyer must not hold the
      same slot already. The new visit takes the listing's seller and an
      absent note when the message is blank. This is the booking as
      evidently intended; `BookAsWritten` is the controller's actual
      behaviour. */
  function Book(appts: seq<Appointment>, props: seq<Listings.Property>, buyerId: nat, propertyId: int,
                date: int, time: Option<int>, message: string, id: nat, now: int)
    : (r: (BookOutcome, seq<Appointment>))
    ensures r.0 != Booked ==> r.1 == appts
    ensures r.0 != SaveFailed
    ensures r.0 == BookNotFound <==> Listings.FindProperty(props, propertyId).None?
    ensures r.0 == BadTime <==> Listings.FindProperty(props, propertyId).Some? && time.None?
    ensures r.0 == InThePast <==>
      Listings.FindProperty(props, propertyId).Some? && time.Some? && DayOf(date) < DayOf(now)
    ensures r.0 == AlreadyBooked <==>
      && Listings.FindProperty(props, propertyId).Some? && time.Some?
      && DayOf(date) >= DayOf(now)
      && HasBlocking(appts, buyerId, propertyId, StartOfDay(DayOf(date)), time.value)
    ensures r.0 == Booked <==>
      && Listings.FindProperty(props, propertyId).Some? && time.Some?
      && DayOf(date) >= DayOf(now)
      && !HasBlocking(appts, buyerId, propertyId, StartOfDay(DayOf(date)), time.value)
    ensures r.0 == Booked ==> |r.1| == |appts| + 1 && r.1[..|appts|] == appts
    ensures r.0 == Booked ==>
      var p := props[Listings.FindProperty(props, propertyId).value];
      var a := r.1[|appts|];
      && a.id == id && a.propertyId == propertyId && a.buyerId == buyerId && a.sellerId == p.sellerId
      && a.date == StartOfDay(DayOf(date)) && DayOf(a.date) == DayOf(date) && a.time == time.value
      && a.status == Requested && a.created == now && a.updated.None?
      && (a.notes.None? <==> IsBlank(message))
      && (a.notes.Some? ==> a.notes.value == message)
  {
    match Listings.FindProperty(props, propertyId)
    case None => (BookNotFound, appts)
    case Some(k) =>
      if time.None? then (BadTime, appts)
      else
        var day := DayOf(date);
        if day < DayOf(now) then (InThePast, appts)
        else if HasBlocking(appts, buyerId, propertyId, StartOfDay(day), time.value) then (AlreadyBooked, appts)
        else
          var a := Appointment(id, props[k].id, buyerId, props[k].sellerId, StartOfDay(day), time.value,
                               Requested, if IsBlank(message) then None else Some(message), now, None);
          (Booked, appts + [a])
  }

  /** `Book` as the controller does it: a blank message becomes a null
      `Notes`, but the `Notes` column is NOT NULL, so the save fails and no
      visit is stored; every other request fares as under `Book`. */
  function BookAsWritten(appts: seq<Appointment>, props: seq<Listings.Property>, buyerId: nat, propertyId: int,
                         date: int, time: Option<int>, message: string, id: nat, now: int)
    : (r: (BookOutcome, seq<Appointment>))
    ensures r.0 == SaveFailed <==>
      Book(appts, props, buyerId, propertyId, date, time, message, id, now).0 == Booked && IsBlank(message)
    ensures r.0 != SaveFailed ==> r == Book(appts, props, buyerId, propertyId, date, time, message, id, now)
    ensures r.0 != Booked ==> r.1 == appts
    ensures r.0 == Booked ==> r.1[|appts|].notes == Some(message)
  {
    var b := Book(appts, props, buyerId, propertyId, date, time, message, id, now);
    if b.0 == Booked && IsBlank(message) then (SaveFailed, appts) else b
  }

  /** As written, a request with a blank message never books a visit, even
      for a free slot on a day that is not past, where `Book` adds one
      with no note. */
  lemma BlankMessageNeverBooks(appts: seq<Appointment>, props: seq<Listings.Property>, buyerId: nat, propertyId: int,
                               date: int, time: Option<int>, message: string, id: nat, now: int)
    requires IsBlank(message)
    ensures BookAsWritten(appts, props, buyerId, propertyId, date, time, message, id, now).1 == appts
    ensures Book(appts, props, buyerId, propertyId, date, time, message, id, now).0 == Booked ==>
      && BookAsWritten(appts, props, buyerId, propertyId, date, time, message, id, now).0 == SaveFailed
      && Book(appts, props, buyerId, propertyId, date, time, message, id, now).1[|appts|].notes.None?
  {
  }

  /** Booking the same slot twice: the second request is refused and
      nothing is added. */
  lemma RebookingRefused(appts: seq<Appointment>, props: seq<Listings.Property>, buyerId: nat, propertyId: int,
                         date: int, time: Option<int>, message: string, id: nat, now: int,
                         date2: int, message2: string, id2: nat, now2: int)
    requires Book(appts, props, buyerId, propertyId, date, time, message, id, now).0 == Booked
    requires DayOf(date2) == DayOf(date) && DayOf(now2) <= DayOf(date2)
    ensures var after := Book(appts, props, buyerId, propertyId, date, time, message, id, now).1;
      Book(after, props, buyerId, propertyId, date2, time, message2, id2, now2) == (AlreadyBooked, after)
  {
    var after := Book(appts, props, buyerId, propertyId, date, time, message, id, now).1;
    assert Blocks(after[|appts|], buyerId, propertyId, StartOfDay(DayOf(date2)), time.value);
  }

  /** `FirstOrDefault(a => a.AppointmentId == id && owner(a))`. */
  function FindWhere(appts: seq<Appointment>, p: Appointment -> bool): (r: Option<nat>)
    ensures r.Some? ==> r.value < |appts| && p(appts[r.value])
    ensures r.None? <==> forall k :: 0 <= k < |appts| ==> !p(appts[k])
  {
    FirstIndex(appts, p)
  }

  datatype CancelOutcome = CancelNotFound | CannotCancelCompleted | CancelledByBuyer

  /** `Cancel`: the buyer cancels one of their own visits unless it is
      completed; even a cancelled visit is cancelled again and restamped. */
  function Cancel(appts: seq<Appointment>, buyerId: nat, id: int, now: int): (r: (CancelOutcome, seq<Appointment>))
    ensures var f := FindWhere(appts, (a: Appointment) => a.id == id && a.buyerId == buyerId);
      && (r.0 == CancelNotFound <==> f.None?)
      && (r.0 == CannotCancelCompleted <==> f.Some? && appts[f.value].status == Completed)
      && (r.0 != CancelledByBuyer ==> r.1 == appts)
      && (r.0 == CancelledByBuyer ==>
            r.1 == appts[f.value := appts[f.value].(status := Cancelled, updated := Some(now))])
    ensures |r.1| == |appts|
  {
    match FindWhere(appts, (a: Appointment) => a.id == id && a.buyerId == buyerId)
    case None => (CancelNotFound, appts)
    case Some(k) =>
      if appts[k].status == Completed then (CannotCancelCompleted, appts)
      else (CancelledByBuyer, appts[k := appts[k].(status := Cancelled, updated := Some(now))])
  }

  /** The confirmation shown to the seller after a status change; a value
      outside the declared members falls to the default message. */
  function SellerPopup(s: AppointmentStatus): (msg: string)
    ensures |msg| > 0
  {
    match s
    case Confirmed => "You have confirmed this appointment."
    case Rescheduled => "You marked this appointment as rescheduled."
    case Cancelled => "You have cancelled this appointment."
    case Completed => "You marked this appointment as completed."
    case Requested => "Appointment status set to requested."
    case Undefined(_) => "Appointment updated."
  }

  /** Each declared status has its own message, and the default message is
      none of theirs. */
  lemma SellerPopupDistinct(s: AppointmentStatus, t: AppointmentStatus)
    requires SellerPopup(s) == SellerPopup(t)
    ensures s == t || (s.Undefined? && t.Undefined?)
  {
    var a := SellerPopup(s);
    var b := SellerPopup(t);
    if |a| == 36 && |b| == 36 {
      assert a[4] == b[4] && a[10] == b[10];
    }
  }

  datatype UpdateOutcome = UpdateNotFound | StatusUpdated(popup: string)

  /** `UpdateStatus`: the seller sets the posted status value on a visit
      to one of their listings, with no transition check and no check that
      the value is a declared member, and the time is stamped. */
  function UpdateStatus(appts: seq<Appointment>, sellerId: nat, id: int, code: int, now: int)
    : (r: (UpdateOutcome, seq<Appointment>))
    ensures var f := FindWhere(appts, (a: Appointment) => a.id == id && a.sellerId == sellerId);
      && (r.0 == UpdateNotFound <==> f.None?)
      && (r.0 == UpdateNotFound ==> r.1 == appts)
      && (r.0.StatusUpdated? ==>
            && |r.1| == |appts| && StatusCode(r.1[f.value].status) == code
            && r.1 == appts[f.value := appts[f.value].(status := r.1[f.value].status, updated := Some(now))]
            && (r.0.popup == "Appointment updated." <==> !(1 <= code <= 5)))
    ensures |r.1| == |appts|
  {
    match FindWhere(appts, (a: Appointment) => a.id == id && a.sellerId == sellerId)
    case None => (UpdateNotFound, appts)
    case Some(k) =>
      var status := StatusOfCode(code);
      (StatusUpdated(SellerPopup(status)), appts[k := appts[k].(status := status, updated := Some(now))])
  }

  /** A seller may reopen a completed visit. */
  lemma SellerMayReopenCompleted(appts: seq<Appointment>, sellerId: nat, k: nat, now: int)
    requires k < |appts| && appts[k].sellerId == sellerId && appts[k].status == Completed
    requires forall j :: 0 <= j < |appts| && j != k ==> appts[j].id != appts[k].id
    ensures UpdateStatus(appts, sellerId, appts[k].id, StatusCode(Requested), now).1[k].status == Requested
  {
    var id := appts[k].id;
    assert FindWhere(appts, (a: Appointment) => a.id == id && a.sellerId == sellerId) == Some(k);
  }

  // ---------------------------------------------------------------------
  // The buyer's schedule
  // ---------------------------------------------------------------------

  /** A later day, or today at or after the current time of day. */
  predicate IsUpcoming(a: Appointment, now: int) {
    var today := DayOf(now);
    DayOf(a.date) > today || (DayOf(a.date) == today && a.time >= now - StartOfDay(today))
  }

  /** Earlier date, then earlier time, first. */
  predicate Earlier(a: Appointment, b: Appointment) {
    a.date < b.date || (a.date == b.date && a.time <= b.time)
  }

  predicate Later(a: Appointment, b: Appointment) {
    Earlier(b, a)
  }

  /** The buyer's visits, earliest first. */
  function Timeline(appts: seq<Appointment>, buyerId: nat): (r: seq<Appointment>)
    ensures multiset(r) == multiset(Filter(appts, (a: Appointment) => a.buyerId == buyerId))
    ensures forall i :: 0 <= i < |r| ==> r[i].buyerId == buyerId
    ensures SortedBy(r, Earlier)
  {
    var mine := Filter(appts, (a: Appointment) => a.buyerId == buyerId);
    var r := Sort(mine, Earlier);
    AllOfSubmultiset(r, mine, (a: Appointment) => a.buyerId == buyerId);
    r
  }

  /** The upcoming part of a timeline, in timeline order. */
  function Upcoming(items: seq<Appointment>, now: int): (r: seq<Appointment>)
    requires SortedBy(items, Earlier)
    ensures multiset(r) <= multiset(items)
    ensures forall i :: 0 <= i < |r| ==> IsUpcoming(r[i], now)
    ensures SortedBy(r, Earlier)
  {
    FilterSorted(items, (a: Appointment) => IsUpcoming(a, now), Earlier);
    Filter(items, (a: Appointment) => IsUpcoming(a, now))
  }

  /** The rest of a timeline, most recent first. */
  function Past(items: seq<Appointment>, now: int): (r: seq<Appointment>)
    ensures multiset(r) <= multiset(items)
    ensures forall i :: 0 <= i < |r| ==> !IsUpcoming(r[i], now)
    ensures multiset(r) + multiset(Filter(items, (a: Appointment) => IsUpcoming(a, now))) == multiset(items)
    ensures SortedBy(r, Later)
  {
    var rest := Filter(items, (a: Appointment) => !IsUpcoming(a, now));
    var r := Sort(rest, Later);
    FilterPartition(items, (a: Appointment) => IsUpcoming(a, now), (a: Appointment) => !IsUpcoming(a, now));
    AllOfSubmultiset(r, rest, (a: Appointment) => !IsUpcoming(a, now));
    r
  }

  /** `Index`: the buyer's visits split into the upcoming ones, earliest
      first, and the rest, most recent first. Together they are exactly
      the buyer's visits. */
  function Schedule(appts: seq<Appointment>, buyerId: nat, now: int): (r: (seq<Appointment>, seq<Appointment>))
    ensures multiset(r.0) + multiset(r.1) == multiset(Filter(appts, (a: Appointment) => a.buyerId == buyerId))
    ensures forall i :: 0 <= i < |r.0| ==> IsUpcoming(r.0[i], now) && r.0[i].buyerId == buyerId
    ensures forall i :: 0 <= i < |r.1| ==> !IsUpcoming(r.1[i], now) && r.1[i].buyerId == buyerId
    ensures SortedBy(r.0, Earlier)
    ensures SortedBy(r.1, Later)
  {
    var items := Timeline(appts, buyerId);
    var up := Upcoming(items, now);
    var past := Past(items, now);
    AllOfSubmultiset(up, items, (a: Appointment) => a.buyerId == buyerId);
    AllOfSubmultiset(past, items, (a: Appointment) => a.buyerId == buyerId);
    (up, past)
  }
}
