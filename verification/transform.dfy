/**
 * The Transform step: four imputations, two derived sums and the date
 * parse, each a whole-column assignment on the shared table, in the order
 * the pipeline runs them.
 */
module Transform {
  import opened Wrappers
  import opened Bookings

  /** The text that replaces an absent country. */
  const UnknownCountry: string := "Unknown"

  // One function per column assignment; each rewrites a single row.

  function FillChildren(r: Row): Row { r.(children := Some(r.children.GetOr(0))) }

  function FillCountry(r: Row): Row { r.(country := Some(r.country.GetOr(UnknownCountry))) }

  function FillAgent(r: Row): Row { r.(agent := Some(r.agent.GetOr(0))) }

  function FillCompany(r: Row): Row { r.(company := Some(r.company.GetOr(0))) }

  function AddTotalStay(r: Row): Row
  {
    r.(totalStay := Some(r.staysInWeekendNights + r.staysInWeekNights))
  }

  /** `pd.to_datetime` on one cell: text is parsed; a date, or an absent cell (NaT), is kept. */
  function ParseStatusDate(r: Row, parse: string -> Date): Row
  {
    match r.reservationStatusDate
    case Text(s) => r.(reservationStatusDate := Stamp(parse(s)))
    case Stamp(_) => r
    case Missing => r
  }

  /** The sum is NaN (absent) when `children` is absent. */
  function AddTotalGuests(r: Row): Row
  {
    r.(totalGuests :=
         match r.children
         case None => None
         case Some(c) => Some(r.adults + c + r.babies))
  }

  /** The whole transform, seen from one row. */
  function TransformRow(r: Row, parse: string -> Date): (t: Row)
    // absent cells get their defaults, present ones are kept
    ensures t.children == (if r.children.None? then Some(0) else r.children)
    ensures t.country == (if r.country.None? then Some(UnknownCountry) else r.country)
    ensures t.agent == (if r.agent.None? then Some(0) else r.agent)
    ensures t.company == (if r.company.None? then Some(0) else r.company)
    // the derived columns; total_guests uses the imputed children
    ensures t.totalStay == Some(t.staysInWeekendNights + t.staysInWeekNights)
    ensures t.totalGuests == Some(t.adults + t.children.value + t.babies)
    // the date is parsed; a date or an absent cell stays as it was
    ensures !t.reservationStatusDate.Text?
    ensures r.reservationStatusDate.Text? ==>
              t.reservationStatusDate == Stamp(parse(r.reservationStatusDate.raw))
    ensures !r.reservationStatusDate.Text? ==> t.reservationStatusDate == r.reservationStatusDate
    // nothing else changes
    ensures t.hotel == r.hotel && t.isCanceled == r.isCanceled
    ensures t.adults == r.adults && t.babies == r.babies
    ensures t.staysInWeekendNights == r.staysInWeekendNights
    ensures t.staysInWeekNights == r.staysInWeekNights
    ensures t.month == r.month && t.others == r.others
  {
    AddTotalGuests(ParseStatusDate(AddTotalStay(
      FillCompany(FillAgent(FillCountry(FillChildren(r))))), parse))
  }

  /**
   * The transformed table: no row added, dropped or moved, each row
   * transformed as `TransformRow` states, so no imputed cell is left absent,
   * no date is left as text, and both sums are present in every row.
   */
  function Transformed(t: seq<Row>, parse: string -> Date): (r: seq<Row>)
    ensures |r| == |t|
    ensures forall i :: 0 <= i < |t| ==> r[i] == TransformRow(t[i], parse)
    ensures DatesConverted(r)
    ensures forall i :: 0 <= i < |r| ==>
              r[i].children.Some? && r[i].country.Some? && r[i].agent.Some? && r[i].company.Some?
    ensures forall i :: 0 <= i < |r| ==>
              r[i].totalStay == Some(r[i].staysInWeekendNights + r[i].staysInWeekNights)
    ensures forall i :: 0 <= i < |r| ==>
              r[i].totalGuests == Some(r[i].adults + r[i].children.value + r[i].babies)
  {
    MapRows(t, r => TransformRow(r, parse))
  }

  /**
   * `transform_data`: the seven column assignments, in order, on the
   * caller's table, which is changed in place.
   */
  method TransformData(df: array<Row>, parse: string -> Date)
    modifies df
    ensures df[..] == Transformed(old(df[..]), parse)
  {
    ghost var t := df[..];
    AssignColumn(df, FillChildren);
    AssignColumn(df, FillCountry);
    AssignColumn(df, FillAgent);
    AssignColumn(df, FillCompany);
    AssignColumn(df, AddTotalStay);
    AssignColumn(df, r => ParseStatusDate(r, parse));
    AssignColumn(df, AddTotalGuests);
    assert forall i :: 0 <= i < df.Length ==> df[i] == TransformRow(t[i], parse);
  }

  /** Running the transform a second time changes nothing. */
  lemma TransformIdempotent(t: seq<Row>, parse: string -> Date)
    ensures Transformed(Transformed(t, parse), parse) == Transformed(t, parse)
  {
  }

  /** The worked example: a row with every imputed cell absent. */
  lemma ScenarioAllAbsent(parse: string -> Date)
    requires parse("2015-07-01") == Date(2015, 7, 1)
    ensures
      var r := Row(Some("Resort Hotel"), 0, 2, None, 0, None, None, None, 1, 2,
                   Text("2015-07-01"), None, None, None, []);
      var t := TransformRow(r, parse);
      t.children == Some(0) && t.country == Some("Unknown") &&
      t.agent == Some(0) && t.company == Some(0) &&
      t.totalStay == Some(3) && t.totalGuests == Some(2) &&
      t.reservationStatusDate == Stamp(Date(2015, 7, 1))
  {
  }
}
