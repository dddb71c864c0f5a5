/** `reader::read`: choose a decoder from the lower-cased file extension and
    hand back whatever that decoder returns. The decoders and
    `std::fs::File::open` are foreign calls; they are the fields of a
    `Decoders` record, so every property below holds for all of them. */
module Reader {
  import opened Wrappers
  import opened Tables
  import Paths

  newtype Byte = x: int | 0 <= x < 256

  /** `b','` and `b'\t'`. */
  const Comma: Byte := 44
  const Tab: Byte := 9

  /** The number of leading rows the CSV reader infers the schema from. */
  const InferSchemaRows: nat := 3

  const UnsupportedMessage: string := "unsupported file extension"

  /** Lower-casing of one character; only 'A'..'Z' change. */
  function LowerChar(c: char): char {
    if 'A' <= c <= 'Z' then (c as int + 32) as char else c
  }

  /** `str::to_lowercase`, character by character. */
  function ToLower(s: string): string {
    seq(|s|, i requires 0 <= i < |s| => LowerChar(s[i]))
  }

  /** Two strings spell the same word up to letter case. */
  predicate EqualsIgnoreCase(a: string, b: string) {
    |a| == |b| && forall i :: 0 <= i < |a| ==> LowerChar(a[i]) == LowerChar(b[i])
  }

  /** The builder settings `read_csv` applies to `CsvReader`. */
  datatype CsvConfig = CsvConfig(
    separator: Byte,
    inferSchemaLength: Option<nat>,
    hasHeader: bool,
    tryParseDates: bool)

  /** The builder settings `read_parquet` applies to `ParquetReader`. */
  datatype ParquetConfig = ParquetConfig(useStatistics: bool, rechunk: bool)

  /** The decoder `read` selects, with the configuration it gives it. */
  datatype Format =
    | Delimited(config: CsvConfig)
    | Avro
    | Parquet(options: ParquetConfig)
    | Unsupported

  function CsvConfigFor(separator: Byte): CsvConfig {
    CsvConfig(separator, Some(InferSchemaRows), true, true)
  }

  const ParquetOptions: ParquetConfig := ParquetConfig(true, true)

  /** The extension is one of the four `read` knows, in any letter case. */
  predicate Supported(ext: string) {
    || EqualsIgnoreCase(ext, "csv")
    || EqualsIgnoreCase(ext, "tsv")
    || EqualsIgnoreCase(ext, "avro")
    || EqualsIgnoreCase(ext, "parquet")
  }

  /** For a word already in lower case, comparing the lower-cased input with
      it is comparing up to letter case. */
  lemma ToLowerMatches(ext: string, word: string)
    requires ToLower(word) == word
    ensures ToLower(ext) == word <==> EqualsIgnoreCase(ext, word)
  {
  }

  /** The match in `read`: the extension is lower-cased and compared with
      "csv", "tsv", "avro" and "parquet"; `csv` and `tsv` differ only in the
      separator, and anything else is unsupported. */
  function Dispatch(ext: string): (f: Format)
    ensures f.Delimited? ==> f.config.hasHeader && f.config.tryParseDates
    ensures f.Delimited? ==> f.config.inferSchemaLength == Some(3)
    ensures f.Delimited? ==> f.config.separator == Comma || f.config.separator == Tab
    ensures f.Delimited? && f.config.separator == Comma <==> EqualsIgnoreCase(ext, "csv")
    ensures f.Delimited? && f.config.separator == Tab <==> EqualsIgnoreCase(ext, "tsv")
    ensures f.Avro? <==> EqualsIgnoreCase(ext, "avro")
    ensures f.Parquet? <==> EqualsIgnoreCase(ext, "parquet")
    ensures f.Parquet? ==> f.options.useStatistics && f.options.rechunk
    ensures f.Unsupported? <==> !Supported(ext)
  {
    ToLowerMatches(ext, "csv");
    ToLowerMatches(ext, "tsv");
    ToLowerMatches(ext, "avro");
    ToLowerMatches(ext, "parquet");
    var lower := ToLower(ext);
    if lower == "csv" then Delimited(CsvConfigFor(Comma))
    else if lower == "tsv" then Delimited(CsvConfigFor(Tab))
    else if lower == "avro" then Avro
    else if lower == "parquet" then Parquet(ParquetOptions)
    else Unsupported
  }

  /** Dispatch is case-insensitive: extensions that spell the same word up
      to letter case choose the same decoder with the same settings. */
  lemma DispatchIgnoresCase(e1: string, e2: string)
    requires EqualsIgnoreCase(e1, e2)
    ensures Dispatch(e1) == Dispatch(e2)
  {
  }

  /** The four arms are disjoint: no extension spells two of the known
      words, so a supported extension selects exactly one decoder. */
  lemma {:induction false} DispatchArmsDisjoint(ext: string)
    ensures !(EqualsIgnoreCase(ext, "csv") && EqualsIgnoreCase(ext, "tsv"))
    ensures !(EqualsIgnoreCase(ext, "avro") && EqualsIgnoreCase(ext, "parquet"))
    ensures EqualsIgnoreCase(ext, "csv") || EqualsIgnoreCase(ext, "tsv") ==> !EqualsIgnoreCase(ext, "avro") && !EqualsIgnoreCase(ext, "parquet")
  {
    assert EqualsIgnoreCase(ext, "csv") ==> LowerChar(ext[0]) == 'c';
    assert EqualsIgnoreCase(ext, "tsv") ==> LowerChar(ext[0]) == 't';
  }

  datatype IoError = IoError(description: string)

  /** `PolarsError`: `NoData` is the variant `read` raises itself, `Io` is
      what `?` turns a `std::io::Error` into, and `Other` stands for every
      other variant a decoder may return. */
  datatype PolarsError = NoData(msg: string) | Io(cause: IoError) | Other(msg: string)

  type PolarsResult = Result<DataFrame, PolarsError>

  /** An open file, as `File::open` returns it. */
  datatype FileHandle = FileHandle(path: string)

  /** The foreign calls `read` can make. `csv` stands for
      `CsvReader::from_path` followed by `finish` under the given settings. */
  datatype Decoders = Decoders(
    open: string -> Result<FileHandle, IoError>,
    csv: (string, CsvConfig) -> PolarsResult,
    parquet: (FileHandle, ParquetConfig) -> PolarsResult,
    avro: FileHandle -> PolarsResult)

  /** `let file = File::open(path)?;` followed by a decoder on that file. */
  function OpenThen(d: Decoders, path: string, decode: FileHandle -> PolarsResult): PolarsResult {
    match d.open(path)
    case Err(e) => Err(Io(e))
    case Ok(f) => decode(f)
  }

  /** `reader::read`. A path without an extension makes `read` panic, so it
      is outside the domain. */
  function Read(path: string, d: Decoders): (r: PolarsResult)
    requires Paths.HasExtension(path)
    ensures var f := Dispatch(Paths.Extension(path).value);
      && (f.Unsupported? ==> r == Err(NoData(UnsupportedMessage)))
      && (f.Delimited? ==> r == d.csv(path, f.config))
      && (f.Avro? || f.Parquet? ==> (d.open(path).Err? ==> r == Err(Io(d.open(path).error))))
      && (f.Avro? && d.open(path).Ok? ==> r == d.avro(d.open(path).value))
      && (f.Parquet? && d.open(path).Ok? ==> r == d.parquet(d.open(path).value, ParquetOptions))
  {
    match Dispatch(Paths.Extension(path).value)
    case Delimited(config) => d.csv(path, config)
    case Avro => OpenThen(d, path, d.avro)
    case Parquet(options) => OpenThen(d, path, f => d.parquet(f, options))
    case Unsupported => Err(NoData(UnsupportedMessage))
  }

  /** Two sets of foreign calls agree on every call format `f` makes for `path`. */
  ghost predicate AgreeOn(f: Format, path: string, d1: Decoders, d2: Decoders) {
    match f
    case Delimited(config) => d1.csv(path, config) == d2.csv(path, config)
    case Avro =>
      && d1.open(path) == d2.open(path)
      && (d1.open(path).Ok? ==> d1.avro(d1.open(path).value) == d2.avro(d1.open(path).value))
    case Parquet(options) =>
      && d1.open(path) == d2.open(path)
      && (d1.open(path).Ok? ==> d1.parquet(d1.open(path).value, options) == d2.parquet(d1.open(path).value, options))
    case Unsupported => true
  }

  /** `read` consults only the decoder it chose: whatever the other
      decoders would answer, the result is the same. For an unsupported
      extension no foreign call is consulted at all. */
  lemma ReadConsultsOnlyChosenDecoder(path: string, d1: Decoders, d2: Decoders)
    requires Paths.HasExtension(path)
    requires AgreeOn(Dispatch(Paths.Extension(path).value), path, d1, d2)
    ensures Read(path, d1) == Read(path, d2)
  {
  }

  lemma UnsupportedReadsNothing(path: string, d1: Decoders, d2: Decoders)
    requires Paths.HasExtension(path) && !Supported(Paths.Extension(path).value)
    ensures Read(path, d1) == Read(path, d2) == Err(NoData(UnsupportedMessage))
  {
  }

  /** A decoder's failure reaches the caller as it is: `read` adds no
      wrapping of its own. Only the `File::open` failure of the Avro and
      Parquet paths is converted, by `?`, into `PolarsError::Io`. */
  lemma DecoderErrorUnchanged(path: string, d: Decoders, e: PolarsError)
    requires Paths.HasExtension(path)
    ensures var f := Dispatch(Paths.Extension(path).value);
      && (f.Delimited? && d.csv(path, f.config) == Err(e) ==> Read(path, d) == Err(e))
      && (f.Avro? && d.open(path).Ok? && d.avro(d.open(path).value) == Err(e) ==> Read(path, d) == Err(e))
      && (f.Parquet? && d.open(path).Ok? && d.parquet(d.open(path).value, ParquetOptions) == Err(e) ==> Read(path, d) == Err(e))
  {
  }

  /** A spreadsheet `dir/stem.xlsx` is rejected before any file is opened. */
  lemma SpreadsheetUnsupported(dir: string, stem: string, d: Decoders)
    requires stem != "" && '/' !in stem
    ensures Paths.HasExtension(dir + "/" + stem + ".xlsx")
    ensures Read(dir + "/" + stem + ".xlsx", d) == Err(NoData(UnsupportedMessage))
  {
    Paths.ExtensionOfPath(dir, stem, "xlsx");
    assert dir + "/" + stem + "." + "xlsx" == dir + "/" + stem + ".xlsx";
    assert LowerChar("xlsx"[0]) != LowerChar("avro"[0]);
  }

  /** `stem.CSV` reads with the same comma-separated settings as `stem.csv`. */
  lemma UpperCaseCsv(stem: string, d: Decoders)
    requires stem != "" && '/' !in stem
    ensures Paths.HasExtension(stem + ".CSV") && Paths.HasExtension(stem + ".csv")
    ensures Read(stem + ".CSV", d) == d.csv(stem + ".CSV", CsvConfigFor(Comma))
    ensures Read(stem + ".csv", d) == d.csv(stem + ".csv", CsvConfigFor(Comma))
  {
    Paths.ExtensionOfFileName(stem, "CSV");
    Paths.ExtensionOfFileName(stem, "csv");
    assert stem + "." + "CSV" == stem + ".CSV";
    assert stem + "." + "csv" == stem + ".csv";
    assert EqualsIgnoreCase("CSV", "csv");
  }
}
