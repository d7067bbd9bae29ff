/**
 * The Booking Record Table: one row per hotel reservation, with the
 * columns the pipeline reads or writes, and whole-column assignment
 * (`df[col] = ...`) as an in-place update of an array of rows.
 */
module Bookings {
  import opened Wrappers

  /** A calendar date, as `pd.to_datetime` produces it. */
  datatype Date = Date(year: int, month: int, day: int)

  /** A monthly period (`to_period('M')`): a year and a month. */
  datatype Month = Month(year: int, month: int)

  /**
   * The `reservation_status_date` cell: text as read from the file, a
   * parsed date, or absent (NaN in the file, NaT once converted).
   */
  datatype DateCell = Text(raw: string) | Stamp(date: Date) | Missing

  /**
   * One reservation. `hotel`, `children`, `country`, `agent`, `company` and
   * the status date may be absent in the raw file. `totalStay`, `totalGuests` and `month` are the
   * columns the pipeline adds; they are absent until it adds them (and an
   * absent sum is NaN). `others` stands for every column the pipeline never
   * writes (lead_time, adr, meal, ...), cell by cell.
   */
  datatype Row = Row(
    hotel: Option<string>,
    isCanceled: int,
    adults: int,
    children: Option<int>,
    babies: int,
    country: Option<string>,
    agent: Option<int>,
    company: Option<int>,
    staysInWeekendNights: int,
    staysInWeekNights: int,
    reservationStatusDate: DateCell,
    totalStay: Option<int>,
    totalGuests: Option<int>,
    month: Option<Month>,
    others: seq<string>)

  /** The month a date falls in. */
  function MonthOf(d: Date): Month
  {
    Month(d.year, d.month)
  }

  /** The status date column has been converted: no cell is still text. */
  predicate DatesConverted(t: seq<Row>)
  {
    forall i :: 0 <= i < |t| ==> !t[i].reservationStatusDate.Text?
  }

  /** The table obtained by applying `f` to every row, in order. */
  function MapRows(t: seq<Row>, f: Row -> Row): (r: seq<Row>)
    ensures |r| == |t|
    ensures forall i :: 0 <= i < |t| ==> r[i] == f(t[i])
  {
    seq(|t|, i requires 0 <= i < |t| => f(t[i]))
  }

  /**
   * A whole-column assignment `df[col] = expr`, where `f` rewrites the one
   * row it is given: every row of the shared table is overwritten in place,
   * none is added or removed and the order is kept.
   */
  method AssignColumn(df: array<Row>, f: Row -> Row)
    modifies df
    ensures df[..] == MapRows(old(df[..]), f)
  {
    var i := 0;
    while i < df.Length
      invariant 0 <= i <= df.Length
      invariant forall k :: 0 <= k < i ==> df[k] == f(old(df[k]))
      invariant forall k :: i <= k < df.Length ==> df[k] == old(df[k])
    {
      df[i] := f(df[i]);
      i := i + 1;
    }
  }
}
