# Hotel booking ETL — a verified model of the Transform step

The repository is a small batch pipeline over a table of hotel reservations
(`scripts/etl.py`): Extract reads a CSV, Transform imputes absent cells and
adds two derived columns, Load writes the cleaned table as CSV or Parquet,
and Analyze draws four charts. This project models in Dafny the parts with
logic of their own:

- **Transform** (`transform_data`). A table is an `array<Row>` of booking
  records whose `hotel`, `children`, `country`, `agent`, `company` and
  status-date cells may be absent (`Option`, or `Missing` for the date). Each of the seven column assignments is a whole-column
  rewrite of the shared array (`Bookings.AssignColumn`), run in the source's
  order: the four imputations (0, or `"Unknown"` for the country), `total_stay`,
  the date parse (an absent date stays absent, NaT), then `total_guests`. Addition with an absent cell gives an
  absent (NaN) sum, so `total_guests` depends on `children` having been imputed
  first; the proofs show it always is.
- **Load** (`load_data`). Which path is written, or the `ValueError`, for a
  mode string and whether `pyarrow` can be imported. The file system is the
  set of paths that exist; the output directory and its parent `data` are
  created before the mode is looked at, so they exist even when the mode is
  refused.
- **Analyze** (`analyze_data`), its integer aggregates: `value_counts().head(5)`
  over `hotel`, and `groupby('month').size()` after the `month` column is added
  to the shared table. Both skip absent keys, as pandas does by default: rows
  without a hotel are not counted, and rows without a date form no month group.

Modules: `Wrappers` (Option, Result), `Bookings` (the row record and
whole-column assignment), `Transform`, `Load`, `Analyze`.

## Model

| member | source | states |
|---|---|---|
| `Bookings.AssignColumn` | scripts/etl.py:23-35 | a column assignment rewrites every row of the caller's table in place, keeping the row count and order |
| `Transform.TransformRow` | scripts/etl.py:23-35 | absent `children`/`agent`/`company` become 0 and absent `country` becomes "Unknown", present cells are kept; `total_stay` is the sum of the two night counts; `total_guests` is adults + imputed children + babies; text dates become parse(text), parsed and absent dates are kept; every other column is unchanged |
| `Transform.Transformed` | scripts/etl.py:18-38 | same number of rows in the same order, row i being row i of the input transformed field by field as `Transform.TransformRow` states; no imputed cell is absent; no date is left as text; both sums hold in every row |
| `Transform.TransformData` | scripts/etl.py:18-38 | the seven in-place column assignments, in order, leave the caller's table equal to the transformed table |
| `Transform.TransformIdempotent` | scripts/etl.py:23-35 | transforming an already transformed table changes nothing |
| `Transform.ScenarioAllAbsent` | scripts/etl.py:23-35 | a row with every imputable cell absent, 1+2 nights, 2 adults, 0 babies becomes 0/"Unknown"/0/0 with total_stay 3 and total_guests 2 |
| `Load.LoadData` | scripts/etl.py:41-61 | `data` and `data/transformed` exist afterwards even on error; success exactly for "csv" and "parquet"; an error writes no file and carries the mode message; a success writes exactly one file, `cleaned_hotel_bookings.csv` or `.parquet` in the output directory as its format says; Parquet exactly when asked for and available; the CSV fallback exactly when Parquet is asked for and unavailable |
| `Load.ParquetFallbackWritesCsv` | scripts/etl.py:57-59 | "parquet" without the library leaves the same files as "csv" (with or without the library) and writes the CSV path |
| `Load.InvalidModeWritesNoFile` | scripts/etl.py:60-61 | mode "xml" fails and neither output file comes to exist |
| `Analyze.DistinctHotels` | scripts/etl.py:69 | each hotel name of the table is listed exactly once |
| `Analyze.SortDescendingSpec` | scripts/etl.py:69 | the sort used by `value_counts` yields counts in non-increasing order and keeps entries distinct |
| `Analyze.ValueCounts` | scripts/etl.py:69 | `value_counts()` has one entry per distinct hotel of the table, each with that hotel's exact row count, counts non-increasing, no entry twice |
| `Analyze.TopHotels` | scripts/etl.py:69 | at most 5 entries, fewer only when there are fewer distinct hotels; distinct hotels of the table with exact row counts; counts non-increasing; no hotel left out has more bookings than any kept |
| `Analyze.TopHotelsSingle` | scripts/etl.py:69 | when every row is at one hotel, the top list is exactly that hotel with all rows |
| `Analyze.TallySpec` | scripts/etl.py:77 | counting one more row keeps the groups chronological and non-empty, adds one to that month's group and changes no other |
| `Analyze.MonthlyBookingsInvariant` | scripts/etl.py:77 | the groups are chronological and non-empty, each month's count equals its number of rows, and the sizes sum to the rows that have a month |
| `Analyze.MonthlyBookingsSpec` | scripts/etl.py:76-77 | months in chronological order, each once; each size equals the number of rows of that month; a month has a group iff it has rows; sizes add up to the row count when every row has a month |
| `Analyze.MonthColumnCounts` | scripts/etl.py:76-77 | once the month column is added, the rows counted for a month are exactly the rows whose status date falls in that month |
| `Analyze.MonthColumnDated` | scripts/etl.py:76-77 | once the month column is added, the rows with a month are exactly the rows with a date |
| `Analyze.AnalyzeData` | scripts/etl.py:64-77 | top hotels of the table; the month column added in place; monthly groups chronological, one per month that has dated rows, each sized by the number of rows whose date falls in it, summing to the number of dated rows |

## Left out

- `extract_data` (scripts/etl.py:6-15): a file-existence check and `pd.read_csv` with type inference; I/O and a foreign library. The model starts from the table.
- The date parse: `pd.to_datetime` is the parameter `parse`; what it does with malformed text (it raises) is not modelled.
- File contents: `to_csv`, `to_parquet` and `os.makedirs` are modelled only as which paths come to exist. `pyarrowAvailable` stands for "pyarrow can be imported and used by `to_parquet`": the `except ImportError` catches an ImportError from either.
- The cancellation-rate and ADR aggregates (scripts/etl.py:84, 91): floating-point means.
- Charts, `savefig`/`show` and console messages: output only. The CSV fallback notice is the `fellBack` flag.
- The `__main__` sequence (scripts/etl.py:98-112): plumbing; `Transform.Transformed` ensures the converted date column `Analyze.AnalyzeData` requires.
- pandas dtypes: numeric columns are unbounded integers; the float columns produced by `fillna(0)` on NaN columns and non-numeric cells are not modelled.
- Analyze.TopHotels: does not fix the order among hotels with equal counts; the model keeps first-appearance order, pandas' tie order is not specified.
