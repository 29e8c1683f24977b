# Booking dashboard calendar, modelled in Dafny

This project models the core of a station booking dashboard. The dashboard shows one month as a grid of calendar cells, Monday first. A user searches a station with a debounced autocomplete box. The bookings of the chosen station appear on the cells of their start and end days. Each booking has a start handle and an end handle, and dragging a handle onto another day reschedules the booking in the local list of stations.

The Dafny modules follow the source components:

- `Dates` (dates.dfy): local wall-clock timestamps in milliseconds, `new Date(y, m, d)` (days from the civil date, with a year 0..99 read as 19yy), month lengths, weekdays, the month arithmetic of `new Date(y, m ± 1, 1)`, and `isSameDay`.
- `Stations` (stations.dfy): the station and booking records.
- `CalendarGrid` (calendar_grid.dfy): `generateMonthGrid` as an imperative method, proved equal to a grid specification function, and the grid's properties.
- `Reschedule` (reschedule.dfy): `getUpdatedBookingDates`, the decoding of a handle id, and the per-station update done by `handleDragEnd`.
- `Dashboard` (dashboard_view.dfy): the `DashboardView` component as a class whose fields are its state hooks, one method per event handler, the suggestion filter, the bookings listed in a cell, and replays of the component's tests.
- `DraggableBooking` (draggable_booking.dfy): the handle ids and what a rendered booking shows in a cell.
- `AutocompleteWidget` (autocomplete.dfy): the `Autocomplete` component as a class with one method per event (keystroke, debounce timer, fetch answer, key press, click, outside click), plus replays of its tests.
- `Lists`, `Text` and `Wrappers` (lists.dfy, text.dfy, wrappers.dfy): `filter`, `find`, `split("-")`, ASCII lower-casing, `includes`, and `Option`.

Timers, promises and the network are events or parameters. A keystroke or a selection is `SetInput`. The end of the 300 ms quiet period is `FireTimer`. The answer of a fetch is `ResolveFetch`, which receives the results as a parameter. The station list arrives through `StationsLoaded(json)`. Today's date is a parameter of the constructor and of `GoToToday`. A cell's date is the local midnight of its day, and a booking's dates are timestamps such as 10:00 on their day.

## Model

| member | source | states |
|---|---|---|
| Dates.NextDay | src/pages/DashboardView.jsx:157-158 | `setDate(getDate() + 1)` moves to the next day number at the same time of day |
| Dates.DaysInMonth | src/pages/DashboardView.jsx:106 | a month of a full year has 28 to 31 days, and 29 exactly for February of a Gregorian leap year; the grid asks it for `FullYear(year)` |
| Dates.DayZeroOfNextMonth | src/pages/DashboardView.jsx:106 | `new Date(year, month + 1, 0)`, day 0 of the following month, is the last day of this month of the full year `FullYear(year)`, so `getDate()` of it is the number of days in the month, December included |
| Dates.LastDayIsDayZero | src/pages/DashboardView.jsx:106 | for a full year, day 0 of month `month + 1` is the day number of the month's last day |
| Dates.FullYear | src/pages/DashboardView.jsx:90 | the `Date` constructor reads a year 0..99 as 1900 + year and keeps every other year |
| Dates.DayNumber | src/pages/DashboardView.jsx:105 | for a month in 0..11, day `d` is `d - 1` days after the first of the month (`DaysFromCivil(y, m+1, 1) + d - 1`) |
| Dates.DayNumberRollOver | src/pages/DashboardView.jsx:90 | any month, in range or not, counts from the first of the month it rolls over to, `m / 12` years on at month `m % 12` |
| Dates.Midnight | src/pages/DashboardView.jsx:105 | `new Date(y, m, d)` falls at midnight of day number `DayNumber(FullYear(y), m, d)`, so two-digit years are read as 19yy |
| Dates.IsSameDay | src/pages/DashboardView.jsx:281 | two timestamps are on the same day only when a date is given and they are less than a day apart; against a midnight it holds exactly for the timestamps of the following 24 hours |
| Dates.Weekday | src/pages/DashboardView.jsx:107 | `getDay()` is in 0..6 |
| Dates.MonthStart | src/pages/DashboardView.jsx:90 | `new Date(y, m, 1)` with an out-of-range month is normalised: month in 0..11, day 1, the same month count `12*FullYear(y) + m` |
| Dates.MonthStartDay | src/pages/DashboardView.jsx:90 | the normalised month start is the day `new Date(y, m, 1)` falls on |
| Dates.MonthStartCanonical | src/pages/DashboardView.jsx:88-98 | a month already in range, of a year outside 0..99, is kept as it is |
| Dates.MarchToMarch | src/pages/DashboardView.jsx:106 | consecutive first days of March are 366 days apart in leap years and 365 otherwise |
| CalendarGrid.Column | src/pages/DashboardView.jsx:16 | the Monday-first column of a day is in 0..6 |
| CalendarGrid.LeadingBlanks | src/pages/DashboardView.jsx:107-110 | the offset (Sunday goes to 6, every other day one less) is in 0..6 and is the Monday-first column of the first of the month |
| CalendarGrid.TrailingBlanks | src/pages/DashboardView.jsx:125-127 | the padding is less than a week and completes a multiple of 7 |
| CalendarGrid.MonthDays | src/pages/DashboardView.jsx:119-122 | the days of the month are `DaysInMonth` cells, cell `i` holding the midnight of day `i + 1` |
| CalendarGrid.MonthGrid | src/pages/DashboardView.jsx:104-130 | the grid is whole weeks, and a cell holds a date exactly when it lies between the leading blanks and the end of the month's days |
| CalendarGrid.OnlyPadding | src/pages/DashboardView.jsx:125-127 | fewer than 7 blanks that complete a week are the `TrailingBlanks` padding |
| CalendarGrid.GenerateMonthGrid | src/pages/DashboardView.jsx:104-130 | the three loops produce exactly the month grid: blanks before the first, the days 1..n at midnight, blanks to a full week |
| CalendarGrid.GridShape | src/pages/DashboardView.jsx:112-129 | the grid's length is a multiple of 7 between 28 and 42, and fewer than 7 blanks pad the end |
| CalendarGrid.GridCells | src/pages/DashboardView.jsx:115-122 | cell `offset + d - 1` holds day `d`, and every cell before the offset or after the last day is blank |
| CalendarGrid.GridDays | src/pages/DashboardView.jsx:119-122 | filtering the blanks out of the grid leaves exactly `DaysInMonth` dates, the midnights of days 1..n of the month in order |
| CalendarGrid.GridCell | src/pages/DashboardView.jsx:115-122 | a dated cell `k` lies after the offset and holds the midnight of day `k - offset + 1` |
| CalendarGrid.DayColumn | src/pages/DashboardView.jsx:107-110 | day `d` of the month stands in Monday-first column `(offset + d - 1) % 7` |
| CalendarGrid.FullYearGrid | src/pages/DashboardView.jsx:105-106 | the grid of a two-digit year is the grid of its full year |
| CalendarGrid.PaddedDates | src/pages/DashboardView.jsx:112-127 | dropping the blanks of a blank-padded run of dates gives back the dates |
| CalendarGrid.GridColumns | src/pages/DashboardView.jsx:265-276 | every date cell stands in the column of its own weekday under the Mon..Sun headers (`Column(date) == index % 7`) |
| CalendarGrid.August2025 | src/pages/DashboardView.jsx:104-130 | for the month of the test fixtures (src/pages/DashboardView.test.jsx:13-33): 2025-08-01 is a Friday, so August 2025 starts after 4 blanks and fills 35 cells |
| Reschedule.RescheduledDates | src/pages/DashboardView.jsx:148-173 | a start drop moves the start and, when the start passes the end, sets the end one day after the start; an end drop moves the end and, when the end falls before the start, sets it one day after the start; any other kind keeps both dates; after a start or end drop the start is not after the end |
| Reschedule.GetUpdatedBookingDates | src/pages/DashboardView.jsx:148-173 | the reassigning implementation returns the dates of `RescheduledDates` |
| Reschedule.RescheduleIdempotent | src/pages/DashboardView.jsx:148-173 | dropping the same handle on the same day a second time changes nothing further |
| Reschedule.RescheduleMinimal | src/pages/DashboardView.jsx:153-167 | on an ordered booking, a drop that keeps the order changes only the dragged date |
| Reschedule.EndDroppedOnStartDay | src/pages/DashboardView.jsx:160-166 | an end handle dropped on the start's own day, before the start's time of day, sets the end one day after the start |
| Reschedule.DecodeActiveId | src/pages/DashboardView.jsx:181 | the booking id is the handle id up to its first hyphen; the kind is missing exactly when the handle id holds no hyphen, and otherwise is the piece after the first hyphen, up to the next hyphen or the end |
| Reschedule.SecondPiece | src/pages/DashboardView.jsx:181 | the first two parts of `split("-")`, joined by a hyphen, begin the string, and a hyphen or the end follows them |
| Reschedule.RescheduleExamples | src/pages/DashboardView.jsx:148-173 | a booking of 08-05 ... 08-06 has its start dropped on 08-10 and becomes 08-10 ... 08-11; its end dropped on 08-20 keeps the start and ends on 08-20 |
| Reschedule.HandleRoundTrip | src/components/DraggableBooking.jsx:13-27 | decoding a booking's start or end handle id gives back its id and kind exactly when the booking id has no hyphen |
| Reschedule.RescheduleStations | src/pages/DashboardView.jsx:185-199 | the stations keep their order, ids, names and booking counts; a booking with the decoded id gets only its dates replaced, by `RescheduledDates`; every other booking stays equal |
| Reschedule.HyphenatedIdsStay | src/pages/DashboardView.jsx:181-196 | a booking whose id holds a hyphen is never changed by a drop |
| Reschedule.DroppedBookingsOrdered | src/pages/DashboardView.jsx:153-167 | after a start or end drop, every rescheduled booking starts no later than it ends |
| DraggableBooking.StartHandle | src/components/DraggableBooking.jsx:13-16 | the start handle is of kind "start" |
| DraggableBooking.EndHandle | src/components/DraggableBooking.jsx:24-27 | the end handle is of kind "end" |
| DraggableBooking.HandleIdentity | src/components/DraggableBooking.jsx:13-27 | a handle id is the booking id, a hyphen and the kind, and the two handles of a booking differ |
| DraggableBooking.HandlesDistinguishBookings | src/components/DraggableBooking.jsx:13-27 | for hyphen-free ids, different bookings never share a handle id |
| DraggableBooking.Render | src/components/DraggableBooking.jsx:29-77 | the booking is green exactly on its start day and red elsewhere; the start handle shows on the start day or with no date, the end handle on the end day or with no date |
| DraggableBooking.BothHandlesOnOneDay | src/components/DraggableBooking.jsx:51-63 | both handles show on one cell exactly when the booking starts and ends on that day |
| Dashboard.Suggestions | src/pages/DashboardView.jsx:72-79 | an empty query gives nothing; otherwise a station is suggested exactly when its lower-cased name contains the lower-cased query |
| Dashboard.Matches | src/pages/DashboardView.jsx:76 | a matching name is at least as long as the query; the empty query and a query equal to the name up to case match |
| Dashboard.SuggestionsInOrder | src/pages/DashboardView.jsx:75-77 | the suggestions keep the order of the station list |
| Dashboard.SuggestionsMultiset | src/pages/DashboardView.jsx:75-77 | for a non-empty query, a matching station is suggested exactly as often as it occurs in the data, and no other station is suggested |
| Dashboard.SuggestionsIgnoreCase | src/pages/DashboardView.jsx:76 | a query and its lower-cased form give the same suggestions |
| Dashboard.OccurringQuerySuggests | src/pages/DashboardView.jsx:76 | a station whose lower-cased name holds the lower-cased query at some position is suggested |
| Dashboard.CellBookings | src/pages/DashboardView.jsx:277-282 | with no station selected or on a blank cell nothing is listed; otherwise exactly the selected station's bookings that start or end on the cell's day |
| Dashboard.ListedBookingsHaveHandle | src/pages/DashboardView.jsx:277-282 | every booking listed on a dated cell shows at least one handle there |
| Dashboard.CellBookingsInOrder | src/pages/DashboardView.jsx:277-282 | with a station selected, a cell lists its bookings in the station's order, each booking on the cell's day as often as it occurs in the station, and no other |
| Dashboard.FindStation | src/pages/DashboardView.jsx:81-86 | a found station is the first one in the list with the requested id; nothing is found exactly when no station has that id |
| Dashboard.DashboardView.constructor | src/pages/DashboardView.jsx:18-23 | the initial state: the given month, no stations, nothing selected, no drag operation |
| Dashboard.DashboardView.SyncSelectedStationData | src/pages/DashboardView.jsx:81-86 | with a selected station, the shown data becomes the station of that id found in the data, or none; without one it stays |
| Dashboard.DashboardView.StationsLoaded | src/pages/DashboardView.jsx:55-70 | the fetched list replaces the data and the shown station is re-derived from the new list; everything else stays |
| Dashboard.DashboardView.SelectStation | src/pages/DashboardView.jsx:81-86 | selecting a station shows the station of that id found in the data |
| Dashboard.DashboardView.FetchSuggestions | src/pages/DashboardView.jsx:72-79 | the call site: the answer is `Suggestions(data, query)` of the current data, whose filter is stated on `Dashboard.Suggestions` |
| Dashboard.DashboardView.GoToPrevMonth | src/pages/DashboardView.jsx:88-92 | the month becomes the first of the previous month, wrapping January to December of the previous year |
| Dashboard.DashboardView.GoToNextMonth | src/pages/DashboardView.jsx:94-98 | the month becomes the first of the next month, wrapping December to January of the next year |
| Dashboard.DashboardView.GoToToday | src/pages/DashboardView.jsx:100-102 | the month becomes today's date |
| Dashboard.DashboardView.DayCells | src/pages/DashboardView.jsx:131-134 | one entry per grid cell of the current month, each with the bookings `CellBookings` lists for it |
| Dashboard.DashboardView.OpenBooking | src/pages/DashboardView.jsx:289 | a click on a booking opens its details |
| Dashboard.DashboardView.CloseBooking | src/pages/DashboardView.jsx:339-347 | both close buttons clear the open booking |
| Dashboard.DashboardView.HandleDragEnd | src/pages/DashboardView.jsx:176-202 | a drop outside every cell changes nothing; a drop on a cell applies `RescheduleStations` with the decoded id and kind, refreshes the shown station and ends the drag operation |
| Dashboard.PrevThenNext | src/pages/DashboardView.jsx:88-98 | for a year outside 0..99, going back a month and then forward returns to the first of the month shown, except from January of the year 100 |
| Dashboard.NextThenPrev | src/pages/DashboardView.jsx:88-98 | for a year outside 0..99, going forward a month and then back returns to the first of the month shown, except from December of the year -1 |
| Dashboard.BackFromYear100 | src/pages/DashboardView.jsx:88-98 | from January 100, "<" shows December 99 and ">" then shows January 2000, because 99 is read as 1999 |
| Dashboard.NormalisedMonthOnly | src/pages/DashboardView.jsx:88-98 | two year/month pairs with the same full-year month count `12*FullYear(y) + m` give the same month start |
| Dashboard.MockSuggestions | src/pages/DashboardView.test.jsx:63-117 | for the test stations, "S" suggests both (line 80) and "Berlin" only Berlin Station (line 104) |
| Dashboard.MockCell | src/pages/DashboardView.test.jsx:90-117 | in August 2025 the cell of the 5th lists the Berlin booking once Berlin Station is selected |
| Dashboard.SelectTrace | src/pages/DashboardView.test.jsx:90-117 | loading the test stations and selecting Berlin Station in August 2025 gives 35 cells, and the cell of the 5th lists Berlin's booking |
| Dashboard.DecodeStartOfOne | src/pages/DashboardView.jsx:181 | the handle id "1-start" decodes to booking "1" and kind "start" |
| Dashboard.DragTrace | src/pages/DashboardView.jsx:176-202 | a drop outside every cell leaves the stations unchanged; the start of booking "1" dropped on 2025-08-10 moves it to 08-10 ... 08-11 and leaves Hamburg Station equal |
| Dashboard.MockDrop | src/pages/DashboardView.jsx:176-202 | dragging the start of booking "1" onto 2025-08-10 moves it to 08-10 ... 08-11 and leaves Hamburg alone |
| Lists.Filter | src/pages/DashboardView.jsx:75-77 | `filter` keeps exactly the elements satisfying the predicate, all of them satisfying it |
| Lists.FilterIsSubsequence | src/pages/DashboardView.jsx:75-77 | `filter` keeps the original order |
| Lists.FilterMultiset | src/pages/DashboardView.jsx:75-77 | `filter` keeps every satisfying element as often as it occurs and drops every other one |
| Lists.Find | src/pages/DashboardView.jsx:83 | `find` gives nothing exactly when no element matches, and otherwise the first match |
| Text.Split | src/pages/DashboardView.jsx:181 | `split("-")` gives at least one part and no part holds a hyphen |
| Text.JoinSplit | src/pages/DashboardView.jsx:181 | joining the parts with hyphens gives back the string |
| Text.SplitWithoutHyphen | src/pages/DashboardView.jsx:181 | a string splits into itself alone exactly when it holds no hyphen |
| Text.SplitAfterPrefix | src/pages/DashboardView.jsx:181 | a hyphen-free prefix and a hyphen split off as the first part |
| Text.Lower | src/pages/DashboardView.jsx:76 | lower-casing keeps the length and maps each character on its own |
| Text.LowerIdempotent | src/pages/DashboardView.jsx:76 | lower-casing twice is lower-casing once |
| Text.ContainsIff | src/pages/DashboardView.jsx:76 | `includes` holds exactly when the needle occurs at some position |
| Text.Contains | src/pages/DashboardView.jsx:76 | `includes` needs a needle no longer than the haystack, and holds for the empty needle and for the haystack itself |
| Text.MissingCharAbsent | src/pages/DashboardView.jsx:76 | a needle holding a character the haystack lacks is not included |
| AutocompleteWidget.ArrowDownIndex | src/components/Autocomplete.jsx:55-59 | ArrowDown moves the highlight one further down, from the last suggestion back to the first, and from no highlight to the first |
| AutocompleteWidget.ArrowUpIndex | src/components/Autocomplete.jsx:60-64 | ArrowUp moves the highlight one further up, from the first suggestion and from no highlight to the last |
| AutocompleteWidget.ArrowsInverse | src/components/Autocomplete.jsx:55-64 | on a highlighted suggestion, ArrowUp undoes ArrowDown and ArrowDown undoes ArrowUp |
| AutocompleteWidget.PressDownVisitsInOrder | src/components/Autocomplete.jsx:55-59 | from no highlight, the first n presses of ArrowDown highlight suggestions 0..n-1 in order |
| AutocompleteWidget.PressDownPeriodic | src/components/Autocomplete.jsx:55-59 | after the first press, ArrowDown cycles with the length of the list as its period |
| AutocompleteWidget.Listbox | src/components/Autocomplete.jsx:89-116 | the list is rendered exactly when it is shown; an empty list shows a lone "No results" row; otherwise one row per suggestion with its label, the highlighted one selected |
| AutocompleteWidget.Autocomplete.constructor | src/components/Autocomplete.jsx:10-22 | the initial state: empty input, no suggestions, list closed, nothing highlighted, no timer |
| AutocompleteWidget.Autocomplete.SetInput | src/components/Autocomplete.jsx:17-33 | a changed input clears the previous timer; an empty input empties and closes the list, any other schedules a timer; an unchanged input does nothing |
| AutocompleteWidget.Autocomplete.FireTimer | src/components/Autocomplete.jsx:24-25 | the pending timer calls `fetchSuggestions` once with the current input |
| AutocompleteWidget.Autocomplete.ResolveFetch | src/components/Autocomplete.jsx:25-29 | the answer of a fetch replaces the suggestions, opens the list and clears the highlight, even when the input has changed since |
| AutocompleteWidget.Autocomplete.HandleClickOutside | src/components/Autocomplete.jsx:35-43 | a mousedown outside the widget closes the list, one inside changes nothing |
| AutocompleteWidget.Autocomplete.HandleSelect | src/components/Autocomplete.jsx:45-50 | the input shows the item's label, the list closes, the highlight clears and `onSelect` receives the item once |
| AutocompleteWidget.Autocomplete.ClickOption | src/components/Autocomplete.jsx:100-105 | clicking an option selects the suggestion at its index |
| AutocompleteWidget.ClearBeforeTimerTrace | src/components/Autocomplete.jsx:17-33 | an empty input shows no list (the test at Autocomplete.test.jsx:43-51); typing and clearing before the quiet period ends sends no fetch, because the early return and the effect cleanup cancel the timer |
| AutocompleteWidget.ClickTrace | src/components/Autocomplete.test.jsx:79-100 | after typing "Ber" and waiting, clicking the first option passes Berlin Station to `onSelect` once and shows its label; a mousedown outside the open list closes it (lines 133-155) |
| AutocompleteWidget.KeyboardNavigationTrace | src/components/Autocomplete.test.jsx:102-131 | after typing "S" and waiting, ArrowDown, ArrowDown and Enter select Hamburg Station; the fetches sent are for "S" and then for the committed label |
| AutocompleteWidget.WrapAroundTrace | src/components/Autocomplete.jsx:52-71 | with two suggestions, a third ArrowDown wraps back to the first, ArrowUp from the first goes to the last, and a key the handler does not know is not prevented and keeps the highlight |
| AutocompleteWidget.NoResultsTrace | src/components/Autocomplete.test.jsx:157-174 | an empty answer shows the lone "No results" row, and ArrowDown on it is not prevented |
| AutocompleteWidget.LateAnswerTrace | src/components/Autocomplete.jsx:16-33 | a fetch sent before the input was cleared still opens the list with its answer, on an empty input |
| AutocompleteWidget.Autocomplete.HandleKey | src/components/Autocomplete.jsx:52-71 | keys are ignored while the list is closed or empty; the arrows move the highlight cyclically and Enter selects the highlighted suggestion, each with `preventDefault`; other keys change nothing |

## Left out

- Network: the fetch of the station list and its error branch are not modelled; `StationsLoaded` receives the parsed list, and a failed fetch leaves `data` empty, as the unchanged initial state shows.
- Logging: the `console.log` and `console.error` calls print only and change no state.
- Dates: ISO strings, `toISOString`, time zones and daylight-saving shifts are not modelled; every date is a local timestamp in milliseconds, and a day is always 86 400 000 ms.
- Dates.Midnight, Dates.MonthStart: the `Date` time-value range of ±8.64e15 ms is not modelled; a date beyond it is an Invalid Date in the source, while the model keeps computing with unbounded integers. Such dates lie about 273 000 years from 1970.
- Malformed server data: a station without a `name` makes the filter throw a TypeError (src/pages/DashboardView.jsx:76), and an unparsable booking date makes `toISOString` throw a RangeError (src/pages/DashboardView.jsx:170-171); these paths are out of the model because every modelled station has a name and every date is an integer.
- Dates.IsSameDay: `src/utils/dateHelpers` is not part of this model; it is taken to compare the local calendar day, and to be false when there is no date.
- Text.Lower: only ASCII letters are lower-cased; `toLowerCase` on other Unicode letters is not modelled.
- Drag and drop library: the sensors, the pointer tracking, the drag transforms of the handles and `DroppableDay` are not modelled; a drop is the pair of the handle id and the date of the cell under it, or none.
- Dashboard.DashboardView: the drag operation state is only ever cleared in the source, so it is modelled only by being cleared.
- Dashboard.DashboardView.DayCells: the cell list is what the grid renders; styling, the weekday headers' text and `toLocaleDateString` month title are not modelled.
- Booking details: `toUpperCase` of the customer name, `toLocaleString` of the dates and the optional pickup and return labels are display only.
- AutocompleteWidget.Autocomplete: the 300 ms delay itself, the promise queue, `scrollIntoView` of the highlighted option, focus and the effect cleanup on unmount are not modelled; a timer is a flag and the answers of the fetches in flight are a count.
- Dashboard.DashboardView.FetchSuggestions: the source's timer calls the `fetchSuggestions` closure of the render in which the input last changed, so text typed before the station list arrives is still answered with no suggestions afterwards; the model answers from the current `data` instead.
- The "Update" button has no handler in the source and does nothing.
- `App.jsx`, the build configuration and the test setup are outside the core.

The first dated cell of a grid is a Monday only in months that begin on a Monday. In every month the grid puts each day in the column of its own weekday, Monday first, and `CalendarGrid.GridColumns` proves this.
