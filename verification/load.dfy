/**
 * The Load step: choosing the output format and path. The file system is
 * modelled as the set of paths that exist; writing the table's contents is
 * not modelled, only which paths come to exist.
 */
module Load {
  import opened Wrappers

  datatype Format = Csv | Parquet

  const DataDir: string := "data"
  const OutputDir: string := DataDir + "/transformed"
  const CsvPath: string := OutputDir + "/cleaned_hotel_bookings.csv"
  const ParquetPath: string := OutputDir + "/cleaned_hotel_bookings.parquet"
  const InvalidModeMessage: string := "mode must be 'csv' or 'parquet'"

  /** The file extension each format is written with. */
  function Extension(f: Format): string
  {
    match f
    case Csv => ".csv"
    case Parquet => ".parquet"
  }

  /** `path` ends with `suffix`. */
  predicate EndsWith(path: string, suffix: string)
  {
    |suffix| <= |path| && path[|path| - |suffix|..] == suffix
  }

  /** Each output path lies in the output directory and ends with its format's extension. */
  lemma OutputPathsNamedForFormat()
    ensures OutputDir + "/" <= CsvPath && EndsWith(CsvPath, Extension(Csv))
    ensures OutputDir + "/" <= ParquetPath && EndsWith(ParquetPath, Extension(Parquet))
  {
  }

  /** What was written: the path, its format, and whether the CSV fallback was taken. */
  datatype Saved = Saved(path: string, format: Format, fellBack: bool)

  /** The `ValueError` raised for an unrecognised mode. */
  datatype LoadError = InvalidMode(message: string)

  /** The paths that exist afterwards, and what was saved or the error raised. */
  datatype LoadOutcome = LoadOutcome(files: set<string>, result: Result<Saved, LoadError>)

  /**
   * `load_data(df, mode)` with `pyarrowAvailable` standing for whether
   * pyarrow can be imported and used by `to_parquet` (an `ImportError`
   * from either is caught). The output directory and its parent are
   * created first, whatever the mode.
   */
  function LoadData(files: set<string>, mode: string, pyarrowAvailable: bool): (o: LoadOutcome)
    // the directory and its parent exist afterwards, even on error
    ensures DataDir in o.files && OutputDir in o.files
    // only the two recognised modes succeed
    ensures o.result.Success? <==> (mode == "csv" || mode == "parquet")
    ensures o.result.Failure? ==> o.result.error == InvalidMode(InvalidModeMessage)
    // an error writes no file; a success writes exactly one
    ensures o.result.Failure? ==> o.files == files + {DataDir, OutputDir}
    ensures o.result.Success? ==> o.files == files + {DataDir, OutputDir, o.result.value.path}
    // the file written is cleaned_hotel_bookings, in the chosen format
    ensures o.result.Success? ==>
              o.result.value.path == (if o.result.value.format == Csv then CsvPath else ParquetPath)
    // the file is in the output directory, named for its format
    ensures o.result.Success? ==>
              OutputDir + "/" <= o.result.value.path &&
              EndsWith(o.result.value.path, Extension(o.result.value.format))
    // parquet only when asked for and available; fallback exactly when asked for and unavailable
    ensures o.result.Success? ==>
              (o.result.value.format == Parquet <==> mode == "parquet" && pyarrowAvailable)
    ensures o.result.Success? ==>
              (o.result.value.fellBack <==> mode == "parquet" && !pyarrowAvailable)
  {
    OutputPathsNamedForFormat();
    var files := files + {DataDir, OutputDir};
    if mode == "csv" then
      LoadOutcome(files + {CsvPath}, Success(Saved(CsvPath, Csv, false)))
    else if mode == "parquet" then
      if pyarrowAvailable then
        LoadOutcome(files + {ParquetPath}, Success(Saved(ParquetPath, Parquet, false)))
      else
        LoadOutcome(files + {CsvPath}, Success(Saved(CsvPath, Csv, true)))
    else
      LoadOutcome(files, Failure(InvalidMode(InvalidModeMessage)))
  }

  /** Asking for parquet without the library writes the same file as asking for CSV. */
  lemma ParquetFallbackWritesCsv(files: set<string>, available: bool)
    ensures LoadData(files, "parquet", false).files == LoadData(files, "csv", available).files
    ensures LoadData(files, "parquet", false).result.value.path == CsvPath
  {
  }

  /** An unknown mode ("xml") is an error and leaves no output file. */
  lemma InvalidModeWritesNoFile(files: set<string>)
    requires CsvPath !in files && ParquetPath !in files
    ensures LoadData(files, "xml", true).result.Failure?
    ensures CsvPath !in LoadData(files, "xml", true).files
    ensures ParquetPath !in LoadData(files, "xml", true).files
  {
  }
}
