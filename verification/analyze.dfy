/**
 * The integer aggregates of the Analyze step: the five hotels with the
 * most bookings (`value_counts().head(5)`) and the number of bookings per
 * month in chronological order (`groupby('month').size()`).
 */
module Analyze {
  import opened Wrappers
  import opened Bookings

  // ---------------- Top hotels ----------------

  /** How many hotels `value_counts().head` keeps. */
  const TopN: nat := 5

  /** One entry of `value_counts()`: a hotel name and its number of rows. */
  datatype HotelCount = HotelCount(hotel: string, bookings: nat)

  /** The hotel names that occur in the table (absent cells are skipped, as `value_counts` does). */
  function HotelNames(t: seq<Row>): set<string>
  {
    set i | 0 <= i < |t| && t[i].hotel.Some? :: t[i].hotel.value
  }

  /** The hotel names of a table are those of all but its last row, plus the last row's. */
  lemma HotelNamesLast(t: seq<Row>)
    requires t != []
    ensures HotelNames(t) == HotelNames(t[..|t| - 1]) +
              (if t[|t| - 1].hotel.Some? then {t[|t| - 1].hotel.value} else {})
  {
    var init := t[..|t| - 1];
    forall h ensures h in HotelNames(t) <==>
                     h in HotelNames(init) || (t[|t| - 1].hotel == Some(h))
    {
      if h in HotelNames(t) {
        var i :| 0 <= i < |t| && t[i].hotel == Some(h);
        if i < |t| - 1 { assert init[i] == t[i]; }
      }
      if h in HotelNames(init) {
        var i :| 0 <= i < |init| && init[i].hotel == Some(h);
        assert t[i] == init[i];
      }
    }
  }

  /** The number of rows booked at hotel `h`. */
  function CountHotel(t: seq<Row>, h: string): nat
  {
    if t == [] then 0
    else CountHotel(t[..|t| - 1], h) + (if t[|t| - 1].hotel == Some(h) then 1 else 0)
  }

  /** No element occurs twice in `s`. */
  predicate NoDuplicates<T(==)>(s: seq<T>)
  {
    forall i, j :: 0 <= i < j < |s| ==> s[i] != s[j]
  }

  /** The hotel names of the table, each once, in order of first appearance. */
  function DistinctHotels(t: seq<Row>): (d: seq<string>)
    ensures NoDuplicates(d)
    ensures forall h :: h in d <==> h in HotelNames(t)
    ensures |d| == |HotelNames(t)|
  {
    if t == [] then []
    else if t[|t| - 1].hotel.None? then
      HotelNamesLast(t);
      DistinctHotels(t[..|t| - 1])
    else
      var names, h := HotelNames(t[..|t| - 1]), t[|t| - 1].hotel.value;
      var d := DistinctHotels(t[..|t| - 1]);
      HotelNamesLast(t);
      if h in d then
        assert names + {h} == names by { assert h in names; }
        d
      else
        assert |names + {h}| == |names| + 1 by { assert h !in names; }
        d + [h]
  }

  /** Counts never increase along `s`. */
  predicate Descending(s: seq<HotelCount>)
  {
    forall i, j :: 0 <= i < j < |s| ==> s[i].bookings >= s[j].bookings
  }

  /** Inserts `x` into a descending list, after every entry with at least its count. */
  function InsertDescending(s: seq<HotelCount>, x: HotelCount): (r: seq<HotelCount>)
    ensures |r| == |s| + 1
    ensures forall y :: y in r <==> y in s || y == x
  {
    if s == [] then [x]
    else if s[0].bookings >= x.bookings then
      assert forall y :: y in s <==> y == s[0] || y in s[1..];
      [s[0]] + InsertDescending(s[1..], x)
    else [x] + s
  }

  /** Inserting keeps a descending list descending. */
  lemma {:induction false} InsertKeepsDescending(s: seq<HotelCount>, x: HotelCount)
    requires Descending(s)
    ensures Descending(InsertDescending(s, x))
  {
    if s != [] && s[0].bookings >= x.bookings {
      var rest := InsertDescending(s[1..], x);
      InsertKeepsDescending(s[1..], x);
      forall k | 0 <= k < |rest| ensures s[0].bookings >= rest[k].bookings {
        assert rest[k] in rest;
        if rest[k] != x {
          var j :| 0 <= j < |s[1..]| && s[1..][j] == rest[k];
          assert s[j + 1] == rest[k];
        }
      }
    }
  }

  /** Inserting a new entry keeps a list free of repeats. */
  lemma {:induction false} InsertKeepsDistinct(s: seq<HotelCount>, x: HotelCount)
    requires NoDuplicates(s) && x !in s
    ensures NoDuplicates(InsertDescending(s, x))
  {
    if s != [] && s[0].bookings >= x.bookings {
      InsertKeepsDistinct(s[1..], x);
      assert s[0] !in s[1..];
      assert s[0] !in InsertDescending(s[1..], x);
    }
  }

  /** A stable sort by decreasing count (ties keep their order). */
  function SortDescending(s: seq<HotelCount>): (r: seq<HotelCount>)
    ensures |r| == |s|
    ensures forall y :: y in r <==> y in s
  {
    if s == [] then []
    else
      assert forall y :: y in s <==> y in s[..|s| - 1] || y == s[|s| - 1];
      InsertDescending(SortDescending(s[..|s| - 1]), s[|s| - 1])
  }

  /** The sorted list is ordered, and has no repeats when its input had none. */
  lemma {:induction false} SortDescendingSpec(s: seq<HotelCount>)
    ensures Descending(SortDescending(s))
    ensures NoDuplicates(s) ==> NoDuplicates(SortDescending(s))
  {
    if s != [] {
      var init := s[..|s| - 1];
      SortDescendingSpec(init);
      InsertKeepsDescending(SortDescending(init), s[|s| - 1]);
      if NoDuplicates(s) {
        assert NoDuplicates(init);
        assert s[|s| - 1] !in init;
        InsertKeepsDistinct(SortDescending(init), s[|s| - 1]);
      }
    }
  }

  /** Each hotel of `hotels` paired with its number of rows in `t`. */
  function CountsOf(t: seq<Row>, hotels: seq<string>): (r: seq<HotelCount>)
    ensures |r| == |hotels|
    ensures forall i :: 0 <= i < |r| ==> r[i].hotel == hotels[i] && r[i].bookings == CountHotel(t, hotels[i])
  {
    if hotels == [] then [] else [HotelCount(hotels[0], CountHotel(t, hotels[0]))] + CountsOf(t, hotels[1..])
  }

  /**
   * `value_counts()`: one entry per distinct hotel of the table, each with
   * its exact number of rows, largest count first.
   */
  function ValueCounts(t: seq<Row>): (vc: seq<HotelCount>)
    ensures |vc| == |HotelNames(t)|
    ensures forall x :: x in vc ==> x.hotel in HotelNames(t) && x.bookings == CountHotel(t, x.hotel)
    ensures forall h :: h in HotelNames(t) ==> HotelCount(h, CountHotel(t, h)) in vc
    ensures Descending(vc) && NoDuplicates(vc)
  {
    var d := DistinctHotels(t);
    var full := CountsOf(t, d);
    assert NoDuplicates(full) by {
      forall i, j | 0 <= i < j < |full| ensures full[i] != full[j] {
        assert d[i] != d[j];
      }
    }
    SortDescendingSpec(full);
    SortDescending(full)
  }

  /**
   * `value_counts().head(5)`: at most five entries, fewer only when there
   * are fewer hotels, each a distinct hotel of the table with its number
   * of rows, largest count first; no hotel left out has more bookings than
   * one kept.
   */
  function TopHotels(t: seq<Row>): (r: seq<HotelCount>)
    ensures |r| <= TopN
    ensures |r| == (if |HotelNames(t)| < TopN then |HotelNames(t)| else TopN)
    ensures forall i :: 0 <= i < |r| ==>
              r[i].hotel in HotelNames(t) && r[i].bookings == CountHotel(t, r[i].hotel)
    ensures forall i, j :: 0 <= i < j < |r| ==> r[i].hotel != r[j].hotel
    ensures Descending(r)
    ensures forall h :: h in HotelNames(t) && !Listed(r, h) ==>
              forall i :: 0 <= i < |r| ==> CountHotel(t, h) <= r[i].bookings
  {
    var vc := ValueCounts(t);
    var r := if |vc| <= TopN then vc else vc[..TopN];
    HeadRanking(t, vc, |r|);
    r
  }

  /** Hotel `h` has an entry in `r`. */
  predicate Listed(r: seq<HotelCount>, h: string)
  {
    exists i :: 0 <= i < |r| && r[i].hotel == h
  }

  /** The first `n` entries of a ranking of every hotel rank the top `n`. */
  lemma HeadRanking(t: seq<Row>, vc: seq<HotelCount>, n: nat)
    requires n <= |vc|
    requires Descending(vc) && NoDuplicates(vc)
    requires forall x :: x in vc ==> x.hotel in HotelNames(t) && x.bookings == CountHotel(t, x.hotel)
    requires forall h :: h in HotelNames(t) ==> HotelCount(h, CountHotel(t, h)) in vc
    ensures var r := vc[..n];
      && (forall i, j :: 0 <= i < j < |r| ==> r[i].hotel != r[j].hotel)
      && Descending(r)
      && (forall h :: h in HotelNames(t) && !Listed(r, h) ==>
            forall i :: 0 <= i < |r| ==> CountHotel(t, h) <= r[i].bookings)
  {
  }

  /** With a single hotel in the table, the top list is that hotel with every row. */
  lemma {:induction false} TopHotelsSingle(t: seq<Row>, h: string)
    requires |t| > 0
    requires forall i :: 0 <= i < |t| ==> t[i].hotel == Some(h)
    ensures TopHotels(t) == [HotelCount(h, |t|)]
  {
    CountHotelAll(t, h);
  }

  /** When every row is at hotel `h`, `h` is the only hotel and has every row. */
  lemma {:induction false} CountHotelAll(t: seq<Row>, h: string)
    requires forall i :: 0 <= i < |t| ==> t[i].hotel == Some(h)
    ensures CountHotel(t, h) == |t|
    ensures |t| > 0 ==> HotelNames(t) == {h}
  {
    if t != [] {
      CountHotelAll(t[..|t| - 1], h);
    }
  }

  // ---------------- Monthly bookings ----------------

  /** One group of `groupby('month').size()`: a month and its number of rows. */
  datatype MonthCount = MonthCount(month: Month, bookings: nat)

  /** Chronological order of monthly periods. */
  predicate Precedes(a: Month, b: Month)
  {
    a.year < b.year || (a.year == b.year && a.month < b.month)
  }

  /** Months strictly increase along `s` (so each appears once). */
  predicate Chronological(s: seq<MonthCount>)
  {
    forall i, j :: 0 <= i < j < |s| ==> Precedes(s[i].month, s[j].month)
  }

  /** Every month of `s` comes after `b`. */
  predicate After(b: Month, s: seq<MonthCount>)
  {
    forall i :: 0 <= i < |s| ==> Precedes(b, s[i].month)
  }

  /** Every group of `s` is non-empty. */
  predicate Positive(s: seq<MonthCount>)
  {
    forall i :: 0 <= i < |s| ==> s[i].bookings > 0
  }

  /** The months that have a group in `s`. */
  function MonthKeys(s: seq<MonthCount>): set<Month>
  {
    if s == [] then {} else {s[0].month} + MonthKeys(s[1..])
  }

  /** The count recorded for month `m` in `s`, or 0 when it has no group. */
  function Lookup(s: seq<MonthCount>, m: Month): nat
  {
    if s == [] then 0
    else if s[0].month == m then s[0].bookings
    else Lookup(s[1..], m)
  }

  /** The sum of the group sizes. */
  function Total(s: seq<MonthCount>): nat
  {
    if s == [] then 0 else s[0].bookings + Total(s[1..])
  }

  /** The number of rows whose month cell is `m`. */
  function CountMonth(t: seq<Row>, m: Month): nat
  {
    if t == [] then 0
    else CountMonth(t[..|t| - 1], m) + (if t[|t| - 1].month == Some(m) then 1 else 0)
  }

  /** The number of rows that have a month (groupby leaves out missing keys). */
  function CountDated(t: seq<Row>): nat
  {
    if t == [] then 0
    else CountDated(t[..|t| - 1]) + (if t[|t| - 1].month.Some? then 1 else 0)
  }

  /** Counts one more row of month `m` into the chronological groups `acc`. */
  function Tally(acc: seq<MonthCount>, m: Month): seq<MonthCount>
  {
    if acc == [] then [MonthCount(m, 1)]
    else if acc[0].month == m then [MonthCount(m, acc[0].bookings + 1)] + acc[1..]
    else if Precedes(m, acc[0].month) then [MonthCount(m, 1)] + acc
    else [acc[0]] + Tally(acc[1..], m)
  }

  /** `df.groupby('month').size()`: one group per month present, in chronological order. */
  function MonthlyBookings(t: seq<Row>): seq<MonthCount>
  {
    if t == [] then []
    else
      var acc := MonthlyBookings(t[..|t| - 1]);
      match t[|t| - 1].month
      case None => acc
      case Some(m) => Tally(acc, m)
  }

  /** `Tally` keeps a lower bound on the months. */
  lemma {:induction false} TallyAfter(acc: seq<MonthCount>, m: Month, b: Month)
    requires After(b, acc) && Precedes(b, m)
    ensures After(b, Tally(acc, m))
  {
    if acc != [] && acc[0].month != m && !Precedes(m, acc[0].month) {
      TallyAfter(acc[1..], m, b);
    }
  }

  /**
   * Counting one row of month `m` keeps the groups chronological and
   * non-empty, adds one to the group of `m` (creating it if needed) and
   * leaves every other group as it was.
   */
  lemma {:induction false} TallySpec(acc: seq<MonthCount>, m: Month)
    requires Chronological(acc) && Positive(acc)
    ensures Chronological(Tally(acc, m)) && Positive(Tally(acc, m))
    ensures forall k :: Lookup(Tally(acc, m), k) == Lookup(acc, k) + (if k == m then 1 else 0)
    ensures Total(Tally(acc, m)) == Total(acc) + 1
  {
    if acc == [] {
    } else if acc[0].month == m {
      assert After(m, acc[1..]);
      LookupAfter(acc[1..], m);
    } else if Precedes(m, acc[0].month) {
      assert After(m, acc);
      LookupAfter(acc, m);
    } else {
      var rest := Tally(acc[1..], m);
      TallySpec(acc[1..], m);
      TallyAfter(acc[1..], m, acc[0].month);
      assert Tally(acc, m) == [acc[0]] + rest;
    }
  }

  /** A month earlier than every group has no group. */
  lemma {:induction false} LookupAfter(s: seq<MonthCount>, m: Month)
    requires After(m, s)
    ensures Lookup(s, m) == 0
  {
    if s != [] {
      LookupAfter(s[1..], m);
    }
  }

  /**
   * The groups are chronological and non-empty, every month's count is its
   * number of rows, and the counts add up to the rows that have a month.
   */
  lemma {:induction false} MonthlyBookingsInvariant(t: seq<Row>)
    ensures Chronological(MonthlyBookings(t)) && Positive(MonthlyBookings(t))
    ensures forall k :: Lookup(MonthlyBookings(t), k) == CountMonth(t, k)
    ensures Total(MonthlyBookings(t)) == CountDated(t)
  {
    if t != [] {
      var init := t[..|t| - 1];
      MonthlyBookingsInvariant(init);
      match t[|t| - 1].month
      case None =>
      case Some(m) => TallySpec(MonthlyBookings(init), m);
    }
  }

  /** In chronological groups, the count looked up at a group's month is that group's. */
  lemma {:induction false} LookupAt(s: seq<MonthCount>, i: nat)
    requires Chronological(s) && i < |s|
    ensures Lookup(s, s[i].month) == s[i].bookings
  {
    if i > 0 {
      LookupAt(s[1..], i - 1);
    }
  }

  /** In non-empty groups, a positive count means the month has a group. */
  lemma {:induction false} LookupKeys(s: seq<MonthCount>, m: Month)
    requires Positive(s)
    ensures Lookup(s, m) > 0 <==> m in MonthKeys(s)
  {
    if s != [] {
      LookupKeys(s[1..], m);
    }
  }

  /** Rows that all have a month are all counted. */
  lemma {:induction false} CountDatedAll(t: seq<Row>)
    requires forall i :: 0 <= i < |t| ==> t[i].month.Some?
    ensures CountDated(t) == |t|
  {
    if t != [] {
      CountDatedAll(t[..|t| - 1]);
    }
  }

  /**
   * What `groupby('month').size()` promises: months in chronological order,
   * each once; each group's size is the number of rows of that month; every
   * month that has rows has a group; and the sizes add up to the number of
   * rows (all of them, once every row has a month).
   */
  lemma MonthlyBookingsSpec(t: seq<Row>)
    ensures var r := MonthlyBookings(t);
      && Chronological(r)
      && (forall i :: 0 <= i < |r| ==> r[i].bookings == CountMonth(t, r[i].month) > 0)
      && (forall m :: CountMonth(t, m) > 0 <==> m in MonthKeys(r))
      && Total(r) == CountDated(t)
      && ((forall i :: 0 <= i < |t| ==> t[i].month.Some?) ==> Total(r) == |t|)
  {
    var r := MonthlyBookings(t);
    MonthlyBookingsInvariant(t);
    forall i | 0 <= i < |r| ensures r[i].bookings == CountMonth(t, r[i].month) {
      LookupAt(r, i);
    }
    forall m ensures CountMonth(t, m) > 0 <==> m in MonthKeys(r) {
      LookupKeys(r, m);
    }
    if forall i :: 0 <= i < |t| ==> t[i].month.Some? {
      CountDatedAll(t);
    }
  }

  // ---------------- analyze_data ----------------

  /** `df['month'] = df['reservation_status_date'].dt.to_period('M')` on one row. */
  function AddMonth(r: Row): (t: Row)
    ensures r.reservationStatusDate.Stamp? ==>
              t.month == Some(MonthOf(r.reservationStatusDate.date))
    ensures t == r.(month := t.month)
  {
    match r.reservationStatusDate
    case Stamp(d) => r.(month := Some(MonthOf(d)))
    case Missing => r.(month := None)  // NaT gives NaT
    case Text(_) => r.(month := None)  // not reached: the caller's dates are converted
  }

  /** The rows whose status date is a date. */
  function DatedRows(t: seq<Row>): set<int>
  {
    set i | 0 <= i < |t| && t[i].reservationStatusDate.Stamp?
  }

  /** The rows whose status date falls in month `m`. */
  function RowsInMonth(t: seq<Row>, m: Month): set<int>
  {
    set i | 0 <= i < |t| && t[i].reservationStatusDate.Stamp? &&
            MonthOf(t[i].reservationStatusDate.date) == m
  }

  /** The rows of month `m` are those of all but the last row, plus the last if its date is in `m`. */
  lemma RowsInMonthLast(t: seq<Row>, m: Month)
    requires t != []
    ensures var n, date := |t| - 1, t[|t| - 1].reservationStatusDate;
      && n !in RowsInMonth(t[..n], m)
      && RowsInMonth(t, m) == RowsInMonth(t[..n], m) +
           (if date.Stamp? && MonthOf(date.date) == m then {n} else {})
  {
    var n := |t| - 1;
    forall i | 0 <= i < n ensures t[i] == t[..n][i] { }
  }

  /** The dated rows are those of all but the last row, plus the last if it has a date. */
  lemma DatedRowsLast(t: seq<Row>)
    requires t != []
    ensures var n := |t| - 1;
      && n !in DatedRows(t[..n])
      && DatedRows(t) == DatedRows(t[..n]) +
           (if t[n].reservationStatusDate.Stamp? then {n} else {})
  {
    var n := |t| - 1;
    forall i | 0 <= i < n ensures t[i] == t[..n][i] { }
  }

  /**
   * After the month column is added, the rows counted for month `m` are
   * exactly the rows whose status date falls in `m`.
   */
  lemma {:induction false} MonthColumnCounts(t: seq<Row>, m: Month)
    ensures CountMonth(MapRows(t, AddMonth), m) == |RowsInMonth(t, m)|
  {
    if t != [] {
      var n := |t| - 1;
      var u := MapRows(t, AddMonth);
      MonthColumnCounts(t[..n], m);
      assert u[..n] == MapRows(t[..n], AddMonth);
      RowsInMonthLast(t, m);
    }
  }

  /** After the month column is added, the rows with a month are exactly those with a date. */
  lemma {:induction false} MonthColumnDated(t: seq<Row>)
    ensures CountDated(MapRows(t, AddMonth)) == |DatedRows(t)|
  {
    if t != [] {
      var n := |t| - 1;
      var u := MapRows(t, AddMonth);
      MonthColumnDated(t[..n]);
      assert u[..n] == MapRows(t[..n], AddMonth);
      DatedRowsLast(t);
    }
  }

  /**
   * The integer aggregates of `analyze_data`: the top hotels, then the
   * `month` column added to the shared table, then the monthly counts.
   * The `.dt` accessor needs a converted date column.
   */
  method AnalyzeData(df: array<Row>) returns (top: seq<HotelCount>, monthly: seq<MonthCount>)
    requires DatesConverted(df[..])
    modifies df
    ensures top == TopHotels(old(df[..]))
    ensures df[..] == MapRows(old(df[..]), AddMonth)
    ensures monthly == MonthlyBookings(df[..])
    // one group per month that has dated rows, in order, sized by the dates themselves
    ensures Chronological(monthly)
    ensures forall i :: 0 <= i < |monthly| ==>
              monthly[i].bookings == |RowsInMonth(old(df[..]), monthly[i].month)| > 0
    ensures forall m :: |RowsInMonth(old(df[..]), m)| > 0 <==> m in MonthKeys(monthly)
    // rows without a date (NaT) are left out of the groups
    ensures Total(monthly) == |DatedRows(old(df[..]))|
  {
    ghost var t := df[..];
    top := TopHotels(df[..]);
    AssignColumn(df, AddMonth);
    monthly := MonthlyBookings(df[..]);
    MonthlyBookingsSpec(df[..]);
    forall m ensures CountMonth(df[..], m) == |RowsInMonth(t, m)| {
      MonthColumnCounts(t, m);
    }
    MonthColumnDated(t);
  }
}
