/** The data the dashboard holds: stations, each with its bookings. The ISO
    date strings of a booking are kept as the timestamps they parse to. */
module Stations {
  import opened Wrappers
  import opened Dates

  datatype Booking = Booking(
    id: string,
    stationId: string,
    customerName: string,
    startDate: Timestamp,
    endDate: Timestamp,
    pickupStation: Option<string>,
    returnStation: Option<string>)

  datatype Station = Station(id: string, name: string, bookings: seq<Booking>)
}
