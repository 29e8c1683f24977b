/** One booking inside a calendar cell, with its two drag handles. */
module DraggableBooking {
  import opened Wrappers
  import opened Dates
  import opened Stations
  import Text

  /** A drag source: its identifier and the `type` carried in its payload. */
  datatype DragHandle = DragHandle(id: string, kind: string)

  /** The background of the booking body. */
  datatype Shade = Green | Red

  /** What is drawn for one booking in a cell whose date is `date`
      (`None` for a detail view that has no date). */
  datatype BookingView = BookingView(
    shade: Shade,
    startHandle: Option<DragHandle>,
    endHandle: Option<DragHandle>)

  /** The handle that drags the start date. */
  function StartHandle(b: Booking): (h: DragHandle)
    ensures h.kind == "start"
  {
    DragHandle(b.id + "-start", "start")
  }

  /** The handle that drags the end date. */
  function EndHandle(b: Booking): (h: DragHandle)
    ensures h.kind == "end"
  {
    DragHandle(b.id + "-end", "end")
  }

  /** Each handle's identifier is the booking id, a hyphen and the payload type,
      and the two handles of a booking never share an identifier. */
  lemma HandleIdentity(b: Booking)
    ensures StartHandle(b).id == b.id + "-" + StartHandle(b).kind
    ensures EndHandle(b).id == b.id + "-" + EndHandle(b).kind
    ensures StartHandle(b).id != EndHandle(b).id
  {
    assert StartHandle(b).id[|b.id| + 1] == 's';
    assert EndHandle(b).id[|b.id| + 1] == 'e';
  }

  /** Handles of bookings with different ids never collide. */
  lemma {:induction false} HandlesDistinguishBookings(a: Booking, b: Booking)
    requires '-' !in a.id && '-' !in b.id && a.id != b.id
    ensures StartHandle(a).id != StartHandle(b).id && EndHandle(a).id != EndHandle(b).id
    ensures StartHandle(a).id != EndHandle(b).id
  {
    forall x: string, y: string, s: string, t: string | '-' !in x && '-' !in y && x + s == y + t
        && |s| > 0 && |t| > 0 && s[0] == '-' && t[0] == '-'
      ensures x == y
    {
      PrefixBeforeHyphen(x, y, s, t);
    }
  }

  lemma {:induction false} PrefixBeforeHyphen(x: string, y: string, s: string, t: string)
    requires '-' !in x && '-' !in y && x + s == y + t
    requires |s| > 0 && |t| > 0 && s[0] == '-' && t[0] == '-'
    ensures x == y
  {
    assert s == [Text.Hyphen] + s[1..] && t == [Text.Hyphen] + t[1..];
    assert x + s == x + [Text.Hyphen] + s[1..];
    assert y + t == y + [Text.Hyphen] + t[1..];
    Text.SplitAfterPrefix(x, s[1..]);
    Text.SplitAfterPrefix(y, t[1..]);
    assert Text.Split(x + s)[0] == x;
    assert Text.Split(y + t)[0] == y;
  }

  /** The view of booking `b` in a cell dated `date`: `isStart`/`isEnd` compare
      the booking's dates with the cell's; a handle is shown on its own day, and
      both are shown when there is no date. */
  function Render(b: Booking, date: Option<Timestamp>): (v: BookingView)
    ensures v.shade == Green <==> IsSameDay(b.startDate, date)
    ensures v.startHandle.Some? <==> date.None? || DayOf(b.startDate) == DayOf(date.value)
    ensures v.endHandle.Some? <==> date.None? || DayOf(b.endDate) == DayOf(date.value)
    ensures v.startHandle.Some? ==> v.startHandle.value == StartHandle(b)
    ensures v.endHandle.Some? ==> v.endHandle.value == EndHandle(b)
  {
    var isStart := IsSameDay(b.startDate, date);
    var isEnd := IsSameDay(b.endDate, date);
    BookingView(
      if isStart then Green else Red,
      if isStart || date.None? then Some(StartHandle(b)) else None,
      if isEnd || date.None? then Some(EndHandle(b)) else None)
  }

  /** In a dated cell both handles show exactly when the booking starts and ends on that day. */
  lemma BothHandlesOnOneDay(b: Booking, t: Timestamp)
    ensures (Render(b, Some(t)).startHandle.Some? && Render(b, Some(t)).endHandle.Some?)
            <==> DayOf(b.startDate) == DayOf(t) == DayOf(b.endDate)
  {
  }
}
