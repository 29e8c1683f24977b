/** Rescheduling a booking by dropping one of its drag handles on a day cell. */
module Reschedule {
  import opened Wrappers
  import opened Dates
  import opened Stations
  import Text
  import DraggableBooking

  datatype DatePair = DatePair(startDate: Timestamp, endDate: Timestamp)

  /** The dates a booking gets when its `type` handle is dropped on `newDate`.
      A start dropped after the end pushes the end to one day after the new
      start; an end dropped before the start lands one day after the start.
      Any other `type` leaves both dates as they were. */
  function RescheduledDates(b: Booking, kind: Option<string>, newDate: Timestamp): (r: DatePair)
    ensures kind == Some("start") || kind == Some("end") ==> r.startDate <= r.endDate
    ensures kind == Some("start") ==>
              r.startDate == newDate
              && r.endDate == (if newDate <= b.endDate then b.endDate else NextDay(newDate))
    ensures kind == Some("end") ==>
              r.startDate == b.startDate
              && r.endDate == (if b.startDate <= newDate then newDate else NextDay(b.startDate))
    ensures kind != Some("start") && kind != Some("end") ==> r == DatePair(b.startDate, b.endDate)
  {
    if kind == Some("start") then
      DatePair(newDate, if newDate > b.endDate then NextDay(newDate) else b.endDate)
    else if kind == Some("end") then
      DatePair(b.startDate, if newDate < b.startDate then NextDay(b.startDate) else newDate)
    else
      DatePair(b.startDate, b.endDate)
  }

  /** `getUpdatedBookingDates(booking, type, newDate)`. */
  method GetUpdatedBookingDates(booking: Booking, kind: Option<string>, newDate: Timestamp)
    returns (r: DatePair)
    ensures r == RescheduledDates(booking, kind, newDate)
  {
    var startDate := booking.startDate;
    var endDate := booking.endDate;
    if kind == Some("start") {
      startDate := newDate;
      if startDate > endDate {
        endDate := NextDay(startDate);
      }
    } else if kind == Some("end") {
      endDate := newDate;
      if endDate < startDate {
        endDate := NextDay(startDate);
      }
    }
    r := DatePair(startDate, endDate);
  }

  /** Dropping the same handle on the same date a second time changes nothing more. */
  lemma RescheduleIdempotent(b: Booking, kind: Option<string>, newDate: Timestamp)
    ensures var r := RescheduledDates(b, kind, newDate);
            RescheduledDates(b.(startDate := r.startDate, endDate := r.endDate), kind, newDate) == r
  {
  }

  /** Only the dragged end moves, or the end when the start overtakes it. */
  lemma RescheduleMinimal(b: Booking, kind: Option<string>, newDate: Timestamp)
    requires b.startDate <= b.endDate
    ensures var r := RescheduledDates(b, kind, newDate);
            (kind == Some("start") && newDate <= b.endDate ==> r == DatePair(newDate, b.endDate))
            && (kind == Some("end") && b.startDate <= newDate ==> r == DatePair(b.startDate, newDate))
  {
  }

  /** The cell dated `d` of the dashboard's mock data: local midnight of 2025-08-d. */
  function August(d: int): Timestamp {
    Midnight(2025, 7, d)
  }

  /** 2025-08-05 10:00 to 2025-08-06 10:00. Dragging the start to the 10th pushes the
      end to the 11th; dragging the end to the 20th keeps the start. */
  lemma RescheduleExamples()
    ensures var b := Booking("1", "1", "Kera", August(5) + 36_000_000, August(6) + 36_000_000, None, None);
            RescheduledDates(b, Some("start"), August(10)) == DatePair(August(10), August(11))
            && RescheduledDates(b, Some("end"), August(20)) == DatePair(b.startDate, August(20))
  {
  }

  /** Dropping the end handle on the start's own day, before the start's time of
      day, sets the end to one day after the start. */
  lemma EndDroppedOnStartDay(b: Booking, cell: Timestamp)
    requires cell % DayLength == 0 && DayOf(cell) == DayOf(b.startDate) && b.startDate % DayLength != 0
    ensures RescheduledDates(b, Some("end"), cell).endDate == NextDay(b.startDate)
  {
  }

  /** `const [bookingId, type] = active.id.split("-")`: the first two pieces;
      `type` is `undefined` when there is no hyphen. */
  function DecodeActiveId(activeId: string): (r: (string, Option<string>))
    ensures '-' !in r.0 && r.0 <= activeId
    ensures |r.0| < |activeId| ==> activeId[|r.0|] == '-'
    ensures r.1.None? <==> '-' !in activeId
    ensures r.1.Some? ==>
              var k := |r.0| + 1 + |r.1.value|;
              '-' !in r.1.value && r.0 + "-" + r.1.value <= activeId
              && (k < |activeId| ==> activeId[k] == '-')
  {
    Text.FirstPieceIsPrefix(activeId);
    Text.SplitWithoutHyphen(activeId);
    Text.JoinSplit(activeId);
    var parts := Text.Split(activeId);
    if |parts| > 1 then
      SecondPiece(activeId);
      (parts[0], Some(parts[1]))
    else
      (parts[0], None)
  }

  /** The second piece of a split follows the first piece and its hyphen, and
      ends at the next hyphen or at the end. */
  lemma SecondPiece(s: string)
    requires |Text.Split(s)| > 1
    ensures var parts := Text.Split(s);
            var k := |parts[0]| + 1 + |parts[1]|;
            parts[0] + "-" + parts[1] <= s && (k < |s| ==> s[k] == '-')
  {
    var parts := Text.Split(s);
    var tail := Text.Join(parts[1..]);
    Text.JoinSplit(s);
    assert s == parts[0] + [Text.Hyphen] + tail;
    Text.SplitAfterPrefix(parts[0], tail);
    assert parts[1] == Text.Split(tail)[0];
    Text.FirstPieceIsPrefix(tail);
    var k := |parts[0]| + 1 + |parts[1]|;
    assert s[..k] == parts[0] + [Text.Hyphen] + tail[..|parts[1]|];
    if k < |s| {
      assert s[k] == tail[|parts[1]|];
    }
  }

  /** Decoding a handle of `DraggableBooking` recovers the booking id and the
      handle's payload type exactly when the booking id holds no hyphen. */
  lemma {:induction false} HandleRoundTrip(b: Booking)
    ensures var s := DraggableBooking.StartHandle(b);
            DecodeActiveId(s.id) == (b.id, Some(s.kind)) <==> '-' !in b.id
    ensures var e := DraggableBooking.EndHandle(b);
            DecodeActiveId(e.id) == (b.id, Some(e.kind)) <==> '-' !in b.id
  {
    DraggableBooking.HandleIdentity(b);
    if '-' !in b.id {
      Text.SplitAfterPrefix(b.id, "start");
      Text.SplitAfterPrefix(b.id, "end");
      Text.SplitWithoutHyphen("start");
      Text.SplitWithoutHyphen("end");
    }
  }

  /** The bookings of every station after a drop: those with id `bookingId`
      get their rescheduled dates, every other booking is kept as it was. */
  function RescheduleStations(stations: seq<Station>, bookingId: string, kind: Option<string>,
                              newDate: Timestamp): (r: seq<Station>)
    ensures |r| == |stations|
    ensures forall i :: 0 <= i < |r| ==>
              r[i].id == stations[i].id && r[i].name == stations[i].name
              && |r[i].bookings| == |stations[i].bookings|
    ensures forall i, j :: 0 <= i < |r| && 0 <= j < |r[i].bookings| ==>
              var b := stations[i].bookings[j];
              var b' := r[i].bookings[j];
              if b.id == bookingId then
                b' == b.(startDate := b'.startDate, endDate := b'.endDate)
                && DatePair(b'.startDate, b'.endDate) == RescheduledDates(b, kind, newDate)
              else b' == b
  {
    seq(|stations|, i requires 0 <= i < |stations| =>
      var station := stations[i];
      station.(bookings := seq(|station.bookings|, j requires 0 <= j < |station.bookings| =>
        var b := station.bookings[j];
        if b.id == bookingId then
          var updated := RescheduledDates(b, kind, newDate);
          b.(startDate := updated.startDate, endDate := updated.endDate)
        else b)))
  }

  /** A booking whose id holds a hyphen is never changed by a drop: the decoded
      id stops at the first hyphen and so never equals it. */
  lemma HyphenatedIdsStay(stations: seq<Station>, activeId: string, newDate: Timestamp, i: int, j: int)
    requires 0 <= i < |stations| && 0 <= j < |stations[i].bookings|
    requires '-' in stations[i].bookings[j].id
    ensures var (bookingId, kind) := DecodeActiveId(activeId);
            RescheduleStations(stations, bookingId, kind, newDate)[i].bookings[j] == stations[i].bookings[j]
  {
  }

  /** After a start or end drop every rescheduled booking ends no earlier than it starts. */
  lemma DroppedBookingsOrdered(stations: seq<Station>, bookingId: string, kind: Option<string>,
                               newDate: Timestamp, i: int, j: int)
    requires kind == Some("start") || kind == Some("end")
    requires 0 <= i < |stations| && 0 <= j < |stations[i].bookings|
    requires stations[i].bookings[j].id == bookingId
    ensures var b := RescheduleStations(stations, bookingId, kind, newDate)[i].bookings[j];
            b.startDate <= b.endDate
  {
  }
}
