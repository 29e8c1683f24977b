/** The dashboard page: the station search, the month being shown, the
    bookings of each calendar cell and drag-to-reschedule. */
module Dashboard {
  import opened Wrappers
  import opened Dates
  import opened Stations
  import Text
  import Lists
  import CalendarGrid
  import DraggableBooking
  import Reschedule

  /** A station matches a query when its lower-cased name contains the lower-cased query. */
  predicate Matches(station: Station, query: string)
    ensures Matches(station, query) ==> |query| <= |station.name|
    ensures query == "" || Text.Lower(query) == Text.Lower(station.name) ==> Matches(station, query)
  {
    Text.Contains(Text.Lower(station.name), Text.Lower(query))
  }

  /** `fetchSuggestions(query)`: no suggestions for an empty query, otherwise
      the stations whose name contains the query, ignoring case, in the order
      the stations were loaded. */
  function Suggestions(data: seq<Station>, query: string): (r: seq<Station>)
    ensures query == "" ==> r == []
    ensures query != "" ==> forall st :: st in r <==> st in data && Matches(st, query)
  {
    if query == "" then [] else Lists.Filter(data, st => Matches(st, query))
  }

  /** The suggestions keep the stations' order. */
  lemma SuggestionsInOrder(data: seq<Station>, query: string)
    ensures Lists.IsSubsequence(Suggestions(data, query), data)
  {
    if query != "" {
      Lists.FilterIsSubsequence(data, st => Matches(st, query));
    }
  }

  /** A matching station is suggested as often as it occurs in the data, and no
      other station is. */
  lemma SuggestionsMultiset(data: seq<Station>, query: string)
    requires query != ""
    ensures forall st :: multiset(Suggestions(data, query))[st] ==
                           if Matches(st, query) then multiset(data)[st] else 0
  {
    Lists.FilterMultiset(data, st => Matches(st, query));
  }

  /** The case of the query does not matter. */
  lemma SuggestionsIgnoreCase(data: seq<Station>, query: string)
    ensures Suggestions(data, query) == Suggestions(data, Text.Lower(query))
  {
    Text.LowerIdempotent(query);
    Lists.FilterCongruent(data, st => Matches(st, query), st => Matches(st, Text.Lower(query)));
  }

  /** A query occurring in a station's name, in any case, makes it a suggestion. */
  lemma {:induction false} OccurringQuerySuggests(data: seq<Station>, query: string, st: Station, k: int)
    requires query != "" && st in data
    requires Text.OccursAt(Text.Lower(st.name), Text.Lower(query), k)
    ensures st in Suggestions(data, query)
  {
    Text.ContainsIff(Text.Lower(st.name), Text.Lower(query));
  }

  /** The bookings listed in a calendar cell: those of the selected station that
      start or end on the cell's day; none for a padding cell or when no station
      is selected. */
  function CellBookings(selected: Option<Station>, cell: CalendarGrid.Cell): (r: seq<Booking>)
    ensures selected.None? || cell.None? ==> r == []
    ensures forall b :: b in r <==>
              selected.Some? && b in selected.value.bookings
              && (IsSameDay(b.startDate, cell) || IsSameDay(b.endDate, cell))
  {
    match selected
    case None => []
    case Some(station) =>
      var onCellDay := (b: Booking) => IsSameDay(b.startDate, cell) || IsSameDay(b.endDate, cell);
      assert cell.None? ==> Lists.Filter(station.bookings, onCellDay) == [] by {
        if cell.None? { Lists.FilterNothing(station.bookings, onCellDay); }
      }
      Lists.Filter(station.bookings, onCellDay)
  }

  /** A cell lists the selected station's bookings in their own order, each as
      often as it occurs there. */
  lemma CellBookingsInOrder(selected: Option<Station>, cell: CalendarGrid.Cell)
    requires selected.Some?
    ensures var r := CellBookings(selected, cell);
            Lists.IsSubsequence(r, selected.value.bookings)
            && forall b :: multiset(r)[b] ==
                 if IsSameDay(b.startDate, cell) || IsSameDay(b.endDate, cell)
                 then multiset(selected.value.bookings)[b] else 0
  {
    var onCellDay := (b: Booking) => IsSameDay(b.startDate, cell) || IsSameDay(b.endDate, cell);
    Lists.FilterIsSubsequence(selected.value.bookings, onCellDay);
    Lists.FilterMultiset(selected.value.bookings, onCellDay);
  }

  /** Every booking listed in a cell shows at least one drag handle there. */
  lemma ListedBookingsHaveHandle(selected: Option<Station>, cell: CalendarGrid.Cell, b: Booking)
    requires b in CellBookings(selected, cell)
    ensures var v := DraggableBooking.Render(b, cell);
            v.startHandle.Some? || v.endHandle.Some?
  {
  }

  /** `data.find((s) => s.id === id)`. */
  function FindStation(data: seq<Station>, id: string): (r: Option<Station>)
    ensures r.Some? ==> r.value in data && r.value.id == id
    ensures r.Some? ==> exists i :: 0 <= i < |data| && data[i] == r.value
                          && forall j :: 0 <= j < i ==> data[j].id != id
    ensures r.None? <==> forall i :: 0 <= i < |data| ==> data[i].id != id
  {
    Lists.Find(data, (s: Station) => s.id == id)
  }

  /** The page's state. */
  class DashboardView {
    var currentMonth: CalendarDate
    var data: seq<Station>
    var selectedStation: Option<Station>
    var selectedStationData: Option<Station>
    var selectedBooking: Option<Booking>
    var dragOperation: Option<string>

    /** The month is a real month, and the selected station's data is the loaded
        station with the selected id, as the selection effect keeps it. */
    ghost predicate Valid()
      reads this
    {
      && 0 <= currentMonth.month < 12
      && (selectedStation.None? ==> selectedStationData.None?)
      && (selectedStation.Some? ==> selectedStationData == FindStation(data, selectedStation.value.id))
    }

    /** The page as first rendered on `today`, before the stations arrive. */
    constructor (today: CalendarDate)
      requires 0 <= today.month < 12
      ensures Valid()
      ensures currentMonth == today && data == []
      ensures selectedStation == None && selectedBooking == None && dragOperation == None
    {
      currentMonth := today;
      data := [];
      selectedStation := None;
      selectedStationData := None;
      selectedBooking := None;
      dragOperation := None;
    }

    /** The effect that re-derives the selected station's data when the
        selection or the data change. */
    method SyncSelectedStationData()
      modifies this`selectedStationData
      requires selectedStation.None? ==> selectedStationData.None?
      ensures Valid() <==> 0 <= currentMonth.month < 12
      ensures selectedStation.Some? ==> selectedStationData == FindStation(data, selectedStation.value.id)
      ensures selectedStation.None? ==> selectedStationData == old(selectedStationData)
    {
      if selectedStation.Some? {
        selectedStationData := FindStation(data, selectedStation.value.id);
      }
    }

    /** `setData(json)` once the stations request has answered. */
    method StationsLoaded(json: seq<Station>)
      requires Valid()
      modifies this
      ensures Valid() && data == json
      ensures currentMonth == old(currentMonth) && selectedStation == old(selectedStation)
      ensures selectedBooking == old(selectedBooking) && dragOperation == old(dragOperation)
    {
      data := json;
      SyncSelectedStationData();
    }

    /** `onSelect` of the station search: `setSelectedStation(station)`. */
    method SelectStation(station: Station)
      requires Valid()
      modifies this
      ensures Valid() && selectedStation == Some(station)
      ensures selectedStationData == FindStation(data, station.id)
      ensures data == old(data) && currentMonth == old(currentMonth)
      ensures selectedBooking == old(selectedBooking) && dragOperation == old(dragOperation)
    {
      selectedStation := Some(station);
      SyncSelectedStationData();
    }

    /** The `fetchSuggestions` handed to the station search. */
    method FetchSuggestions(query: string) returns (results: seq<Station>)
      ensures results == Suggestions(data, query)
    {
      results := Suggestions(data, query);
    }

    /** `goToPrevMonth`: the first of the previous month. */
    method GoToPrevMonth()
      requires Valid()
      modifies this`currentMonth
      ensures Valid()
      ensures currentMonth == MonthStart(old(currentMonth).year, old(currentMonth).month - 1)
    {
      currentMonth := MonthStart(currentMonth.year, currentMonth.month - 1);
    }

    /** `goToNextMonth`: the first of the next month. */
    method GoToNextMonth()
      requires Valid()
      modifies this`currentMonth
      ensures Valid()
      ensures currentMonth == MonthStart(old(currentMonth).year, old(currentMonth).month + 1)
    {
      currentMonth := MonthStart(currentMonth.year, currentMonth.month + 1);
    }

    /** `goToToday`, with the clock's reading passed in. */
    method GoToToday(today: CalendarDate)
      requires Valid() && 0 <= today.month < 12
      modifies this`currentMonth
      ensures Valid() && currentMonth == today
    {
      currentMonth := today;
    }

    /** The calendar as rendered: each cell of the current month's grid with the
        bookings listed in it. */
    method DayCells() returns (cells: seq<(CalendarGrid.Cell, seq<Booking>)>)
      requires Valid()
      ensures var grid := CalendarGrid.MonthGrid(currentMonth.year, currentMonth.month);
              |cells| == |grid|
              && forall k :: 0 <= k < |cells| ==>
                   cells[k] == (grid[k], CellBookings(selectedStationData, grid[k]))
    {
      var daysArray := CalendarGrid.GenerateMonthGrid(currentMonth.year, currentMonth.month);
      var stationData := selectedStationData;
      cells := seq(|daysArray|, k requires 0 <= k < |daysArray| =>
        (daysArray[k], CellBookings(stationData, daysArray[k])));
    }

    /** Clicking a booking opens its details. */
    method OpenBooking(b: Booking)
      modifies this`selectedBooking
      ensures selectedBooking == Some(b)
    {
      selectedBooking := Some(b);
    }

    /** The "Back" and close buttons of the details. */
    method CloseBooking()
      modifies this`selectedBooking
      ensures selectedBooking == None
    {
      selectedBooking := None;
    }

    /** `handleDragEnd`: a drop outside every cell does nothing; a drop on the
        cell dated `over` reschedules the bookings named by the handle id and
        ends the drag operation. */
    method HandleDragEnd(activeId: string, over: Option<Timestamp>)
      requires Valid()
      modifies this
      ensures Valid()
      ensures over.None? ==>
                data == old(data) && dragOperation == old(dragOperation)
                && selectedStationData == old(selectedStationData)
      ensures over.Some? ==>
                var (bookingId, kind) := Reschedule.DecodeActiveId(activeId);
                data == Reschedule.RescheduleStations(old(data), bookingId, kind, over.value)
                && dragOperation == None
      ensures currentMonth == old(currentMonth) && selectedStation == old(selectedStation)
      ensures selectedBooking == old(selectedBooking)
    {
      if over.None? {
        return;
      }
      var (bookingId, kind) := Reschedule.DecodeActiveId(activeId);
      var newDate := over.value;
      data := Reschedule.RescheduleStations(data, bookingId, kind, newDate);
      SyncSelectedStationData();
      dragOperation := None;
    }
  }

  /** Going back a month and then forward again returns to the first of the
      month shown, for every year from which going back does not reach the
      two-digit years, which `new Date` reads as 1900..1999. */
  lemma PrevThenNext(c: CalendarDate)
    requires 0 <= c.month < 12
    requires !(0 <= c.year <= 99) && !(c.year == 100 && c.month == 0)
    ensures var p := MonthStart(c.year, c.month - 1);
            MonthStart(p.year, p.month + 1) == CalendarDate(c.year, c.month, 1)
  {
    var p := MonthStart(c.year, c.month - 1);
    MonthStartCanonical(c.year, c.month);
    NormalisedMonthOnly(p.year, p.month + 1, c.year, c.month);
  }

  /** Going forward a month and then back again returns to the first of the
      month shown, for every year from which going forward does not reach the
      two-digit years. */
  lemma NextThenPrev(c: CalendarDate)
    requires 0 <= c.month < 12
    requires !(0 <= c.year <= 99) && !(c.year == -1 && c.month == 11)
    ensures var n := MonthStart(c.year, c.month + 1);
            MonthStart(n.year, n.month - 1) == CalendarDate(c.year, c.month, 1)
  {
    var n := MonthStart(c.year, c.month + 1);
    MonthStartCanonical(c.year, c.month);
    NormalisedMonthOnly(n.year, n.month - 1, c.year, c.month);
  }

  /** `new Date(y, m, 1)` depends only on the absolute month `12 * y + m` of the full year. */
  lemma NormalisedMonthOnly(y1: int, m1: int, y2: int, m2: int)
    requires FullYear(y1) * 12 + m1 == FullYear(y2) * 12 + m2
    ensures MonthStart(y1, m1) == MonthStart(y2, m2)
  {
  }

  /** From January of the year 100, "<" shows December 99 and ">" then shows
      January 2000, because `new Date(99, 12, 1)` reads 99 as 1999. */
  lemma BackFromYear100()
    ensures var p := MonthStart(100, 0 - 1);
            p == CalendarDate(99, 11, 1) && MonthStart(p.year, p.month + 1) == CalendarDate(2000, 0, 1)
  {
  }

  /** The two stations the tests use, with the dates of their bookings. */
  function MockStations(): seq<Station> {
    [ Station("1", "Berlin Station",
        [Booking("1", "1", "Kera", Reschedule.August(5) + 36_000_000, Reschedule.August(6) + 36_000_000, None, None)]),
      Station("2", "Hamburg Station",
        [Booking("2", "2", "John", Reschedule.August(10) + 36_000_000, Reschedule.August(15) + 36_000_000, None, None)]) ]
  }

  /** "S" suggests both test stations; "Berlin" only the Berlin one. */
  lemma MockSuggestions()
    ensures Suggestions(MockStations(), "S") == MockStations()
    ensures Suggestions(MockStations(), "Berlin") == [MockStations()[0]]
  {
    var m := MockStations();
    assert m == [m[0], m[1]];
    BothSuggested(m[0], m[1]);
    BerlinSuggested(m[0], m[1]);
  }

  lemma BothSuggested(berlin: Station, hamburg: Station)
    requires berlin.name == "Berlin Station" && hamburg.name == "Hamburg Station"
    ensures Suggestions([berlin, hamburg], "S") == [berlin, hamburg]
  {
    BerlinMatches(berlin);
    HamburgMatches(hamburg);
    TwoStations(berlin, hamburg, "S");
  }

  lemma BerlinSuggested(berlin: Station, hamburg: Station)
    requires berlin.name == "Berlin Station" && hamburg.name == "Hamburg Station"
    ensures Suggestions([berlin, hamburg], "Berlin") == [berlin]
  {
    BerlinMatches(berlin);
    HamburgMatches(hamburg);
    TwoStations(berlin, hamburg, "Berlin");
  }

  lemma TwoStations(s: Station, t: Station, query: string)
    requires query != ""
    ensures Suggestions([s, t], query) ==
            (if Matches(s, query) then [s] else []) + (if Matches(t, query) then [t] else [])
  {
    var p := st => Matches(st, query);
    assert [s, t] == [s] + [t] && [s][1..] == [] && [t][1..] == [];
    Lists.FilterConcat([s], [t], p);
    assert Lists.Filter([s], p) == (if Matches(s, query) then [s] else []);
    assert Lists.Filter([t], p) == (if Matches(t, query) then [t] else []);
  }

  lemma BerlinMatches(st: Station)
    requires st.name == "Berlin Station"
    ensures Matches(st, "S") && Matches(st, "Berlin")
  {
    assert Text.Lower("Berlin Station") == "berlin station";
    assert Text.Lower("S") == "s" && Text.Lower("Berlin") == "berlin";
    Text.ContainsIff("berlin station", "s");
    assert Text.OccursAt("berlin station", "s", 7);
    Text.ContainsIff("berlin station", "berlin");
    assert Text.OccursAt("berlin station", "berlin", 0);
  }

  lemma HamburgMatches(st: Station)
    requires st.name == "Hamburg Station"
    ensures Matches(st, "S") && !Matches(st, "Berlin")
  {
    assert Text.Lower("Hamburg Station") == "hamburg station";
    assert Text.Lower("S") == "s" && Text.Lower("Berlin") == "berlin";
    Text.ContainsIff("hamburg station", "s");
    assert Text.OccursAt("hamburg station", "s", 8);
    HamburgLacksBerlin();
  }

  lemma HamburgLacksBerlin()
    ensures !Text.Contains("hamburg station", "berlin")
  {
    assert "berlin"[3] == 'l' && 'l' !in "hamburg station";
    Text.MissingCharAbsent("hamburg station", "berlin", 3);
  }


  /** The cell of 2025-08-05 lists the Berlin booking once Berlin is selected. */
  lemma MockCell()
    ensures CalendarGrid.MonthGrid(2025, 7)[4 + 5 - 1] == Some(Reschedule.August(5))
    ensures CellBookings(Some(MockStations()[0]), Some(Reschedule.August(5))) == MockStations()[0].bookings
  {
    CalendarGrid.August2025();
    CalendarGrid.GridCells(2025, 7);
    var kera := MockStations()[0].bookings[0];
    assert IsSameDay(kera.startDate, Some(Reschedule.August(5)));
    assert [kera][1..] == [];
  }

  /** The start handle of booking "1" decodes to its id and kind. */
  lemma DecodeStartOfOne()
    ensures Reschedule.DecodeActiveId("1-start") == ("1", Some("start"))
  {
    Text.SplitAfterPrefix("1", "start");
    Text.SplitWithoutHyphen("start");
    assert "1" + [Text.Hyphen] + "start" == "1-start";
  }

  /** Dragging the start of booking "1" onto 2025-08-10 moves it to 08-10 .. 08-11
      and leaves the Hamburg station alone. */
  lemma MockDrop()
    ensures var r := Reschedule.RescheduleStations(MockStations(), "1", Some("start"), Reschedule.August(10));
            |r| == 2 && |r[0].bookings| == 1
            && r[0].bookings[0].startDate == Reschedule.August(10)
            && r[0].bookings[0].endDate == Reschedule.August(11)
            && r[1] == MockStations()[1]
  {
    var m := MockStations();
    var r := Reschedule.RescheduleStations(m, "1", Some("start"), Reschedule.August(10));
    Reschedule.RescheduleExamples();
    assert r[1].bookings[0] == m[1].bookings[0];
    assert r[1].bookings == m[1].bookings;
  }

  /** Selecting the Berlin station on the calendar of August 2025 lists its booking on 08-05. */
  method SelectTrace() returns (cells: seq<(CalendarGrid.Cell, seq<Booking>)>)
    ensures |cells| == 35 && cells[8] == (Some(Reschedule.August(5)), MockStations()[0].bookings)
  {
    var d := new DashboardView(CalendarDate(2025, 7, 14));
    d.StationsLoaded(MockStations());
    var berlin := MockStations()[0];
    d.SelectStation(berlin);
    assert d.selectedStationData == Some(berlin);
    cells := d.DayCells();
    MockCell();
  }

  /** A drop outside the calendar changes nothing; a drop of the start handle moves the booking. */
  method DragTrace() returns (missed: seq<Station>, dropped: seq<Station>)
    ensures missed == MockStations()
    ensures |dropped| == 2 && |dropped[0].bookings| == 1
            && dropped[0].bookings[0].startDate == Reschedule.August(10)
            && dropped[0].bookings[0].endDate == Reschedule.August(11)
            && dropped[1] == MockStations()[1]
  {
    var d := new DashboardView(CalendarDate(2025, 7, 14));
    d.StationsLoaded(MockStations());
    d.HandleDragEnd("1-start", None);
    missed := d.data;
    DecodeStartOfOne();
    MockDrop();
    d.HandleDragEnd("1-start", Some(Reschedule.August(10)));
    dropped := d.data;
  }
}
